/** The authoritative client (`collegamento.client_server.client.Client`) as
    an object whose fields each call updates in place. The request queue is
    modelled by what the client has put on it, the response queue by the
    answers the worker has put on it that the client has not read yet. */
module Correlation {
  import opened Messages
  import opened LedgerSpec

  class Client {
    var allIds: seq<int>
    const idMax: int
    /** The command half of `current_ids`. */
    var currentIds: map<string, int>
    /** The id half of `current_ids`. */
    var idCommands: map<int, string>
    var newestResponses: map<string, seq<Response>>
    var commands: map<string, Entry>
    /** Everything put on the request queue so far. */
    var requestQueue: seq<Message>
    /** Answers waiting on the response queue, oldest first. */
    var responseQueue: seq<Response>

    ghost function Snapshot(): Ledger
      reads this
    {
      Ledger(allIds, currentIds, idCommands, newestResponses, commands)
    }

    ghost predicate Valid()
      reads this
    {
      LedgerValid(Snapshot(), idMax)
    }

    /** `Client.__init__`: normalise the command table and give every
        command an empty buffer (starting the worker is left out). */
    constructor (specs: map<string, CommandSpec>, idMax: int)
      ensures Valid() && Snapshot() == Setup(specs) && this.idMax == idMax
      ensures requestQueue == [] && responseQueue == []
    {
      allIds := [];
      this.idMax := idMax;
      currentIds := map[];
      idCommands := map[];
      newestResponses := map c | c in specs :: [];
      commands := map c | c in specs :: Normalise(specs[c]);
      requestQueue := [];
      responseQueue := [];
    }

    /** `create_message_id`: a free id in `[1, id_max]`, recorded as
        outstanding. The random draw repeated until it misses `all_ids` is
        a choice among the free ids; with none free it would never end. */
    method CreateMessageId() returns (id: int)
      requires Valid() && |allIds| < idMax
      modifies this`allIds
      ensures 1 <= id <= idMax && id !in old(allIds)
      ensures allIds == old(allIds) + [id]
      ensures Valid()
    {
      FreeIdExists(allIds, idMax);
      id :| 1 <= id <= idMax && id !in allIds;
      AppendFresh(allIds, idMax, id);
      allIds := allIds + [id];
    }

    /** `request(command, **kwargs)`. A keyword argument named after a
        parameter of the method is a TypeError of the call itself, and an
        unknown command raises CollegamentoError; neither allocates an id or
        queues anything. */
    method Request(command: string, kwargs: map<string, Value>) returns (status: Status)
      requires Valid()
      requires !("command" in kwargs || "self" in kwargs) && command in commands ==> |allIds| < idMax
      modifies this`allIds, this`currentIds, this`idCommands, this`requestQueue
      ensures Valid()
      ensures "command" in kwargs || "self" in kwargs ==> status == Fail(TypeError)
      ensures !("command" in kwargs || "self" in kwargs) ==> (status.Pass? <==> command in commands)
      ensures status.Fail? ==> status.error in {TypeError, CollegamentoError}
      ensures status.Fail? ==> Snapshot() == old(Snapshot()) && requestQueue == old(requestQueue)
      ensures status.Pass? ==>
        && |allIds| == |old(allIds)| + 1
        && var id := allIds[|old(allIds)|];
        && 1 <= id <= idMax && id !in old(allIds)
        && Snapshot() == Requested(old(Snapshot()), id, command)
        && requestQueue == old(requestQueue) + [RequestMessage(id, command, kwargs)]
    {
      if "command" in kwargs || "self" in kwargs {
        return Fail(TypeError);
      }
      if command !in commands {
        return Fail(CollegamentoError);
      }
      ghost var l := Snapshot();
      var id := CreateMessageId();
      var finalRequest := Merge(Message(id, REQUEST, Some(command), map[]), kwargs);
      if commands[command].multiple {
        idCommands := idCommands[id := command];
      }
      currentIds := currentIds[command := id];
      requestQueue := requestQueue + [finalRequest];
      assert Snapshot() == Requested(l, id, command);
      return Pass;
    }

    /** `request` called with a command object of any type, as Python
        allows: a string is an ordinary call, a list or a dict cannot be
        looked up in the command table (TypeError, unhashable), and any
        other object is simply not a registered command. */
    method RequestAny(command: Value, kwargs: map<string, Value>) returns (status: Status)
      requires Valid()
      requires command.VStr? && !("command" in kwargs || "self" in kwargs) && command.s in commands ==> |allIds| < idMax
      modifies this`allIds, this`currentIds, this`idCommands, this`requestQueue
      ensures Valid()
      ensures "command" in kwargs || "self" in kwargs ==> status == Fail(TypeError)
      ensures !command.VStr? ==> status.Fail?
      ensures command.VStr? && !("command" in kwargs || "self" in kwargs) ==> (status.Pass? <==> command.s in commands)
      ensures status.Fail? ==> Snapshot() == old(Snapshot()) && requestQueue == old(requestQueue)
      ensures !("command" in kwargs || "self" in kwargs) && (command.VList? || command.VDict?) ==> status == Fail(TypeError)
      ensures command.VStr? && status.Pass? ==>
        && |allIds| == |old(allIds)| + 1
        && command.s in commands
        && var id := allIds[|old(allIds)|];
        && Snapshot() == Requested(old(Snapshot()), id, command.s)
        && requestQueue == old(requestQueue) + [RequestMessage(id, command.s, kwargs)]
    {
      if "command" in kwargs || "self" in kwargs {
        return Fail(TypeError);
      }
      match command
      case VStr(s) =>
        status := Request(s, kwargs);
      case VList(_) =>
        status := Fail(TypeError);
      case VDict(_) =>
        status := Fail(TypeError);
      case _ =>
        status := Fail(CollegamentoError);
    }

    /** `parse_response`: one step of `Absorb`; the effects made before a
        raise stay. */
    method ParseResponse(res: Response) returns (status: Status)
      requires Valid()
      modifies this`allIds, this`currentIds, this`idCommands, this`newestResponses
      ensures Outcome(Snapshot(), status) == Absorb(old(Snapshot()), res)
      ensures Valid()
    {
      ghost var l := Snapshot();
      AbsorbKeepsValid(l, idMax, res);
      var id := res.id;
      var rest := RemoveFirst(allIds, id);
      if rest.Raised? {
        return Fail(rest.error);
      }
      allIds := rest.value;
      if res.command.None? {
        return Pass;
      }
      var command := res.command.value;
      if command == ADD_COMMAND {
        return Pass;
      }
      if command !in newestResponses {
        return Fail(KeyError);
      }
      newestResponses := newestResponses[command := newestResponses[command] + [res]];
      currentIds := currentIds[command := 0];
      if command !in commands {
        return Fail(KeyError);
      }
      if commands[command].multiple {
        if id !in idCommands {
          return Fail(KeyError);
        }
        idCommands := idCommands - {id};
        return Pass;
      }
      return Pass;
    }

    /** `check_responses`: parse every waiting answer in order, stopping at
        the first that raises (it is consumed, the rest stay waiting). */
    method CheckResponses() returns (status: Status)
      requires Valid()
      modifies this`allIds, this`currentIds, this`idCommands, this`newestResponses, this`responseQueue
      ensures Drained(Snapshot(), status, responseQueue) == AbsorbAll(old(Snapshot()), old(responseQueue))
      ensures Valid()
    {
      status := Pass;
      while responseQueue != []
        invariant Valid()
        invariant status == Pass
        invariant AbsorbAll(Snapshot(), responseQueue) == AbsorbAll(old(Snapshot()), old(responseQueue))
        decreases |responseQueue|
      {
        ghost var before := Snapshot();
        ghost var waiting := responseQueue;
        var res := responseQueue[0];
        responseQueue := responseQueue[1..];
        status := ParseResponse(res);
        assert AbsorbAll(before, waiting) ==
          if status.Fail? then Drained(Snapshot(), status, responseQueue) else AbsorbAll(Snapshot(), responseQueue);
        if status.Fail? {
          return;
        }
      }
    }

    /** `get_response(command)`: CollegamentoError for an unknown command,
        before anything is read; otherwise read the waiting answers, then
        take the command's buffer and leave it empty. */
    method GetResponse(command: string) returns (status: Status, reply: Reply)
      requires Valid()
      modifies this`allIds, this`currentIds, this`idCommands, this`newestResponses, this`responseQueue
      ensures Valid()
      ensures command !in old(commands) ==>
        status == Fail(CollegamentoError) && Snapshot() == old(Snapshot()) && responseQueue == old(responseQueue)
      ensures command in old(commands) ==>
        var d := AbsorbAll(old(Snapshot()), old(responseQueue));
        && (d.status.Fail? ==> status == d.status && Snapshot() == d.ledger && responseQueue == d.unread)
        && (d.status.Pass? ==> status == Pass && responseQueue == [] && (Snapshot(), reply) == Take(d.ledger, command))
    {
      reply := NoReply;
      if command !in commands {
        status := Fail(CollegamentoError);
        return;
      }
      ghost var l := Snapshot();
      status := CheckResponses();
      if status.Fail? {
        return;
      }
      var response := newestResponses[command];
      newestResponses := newestResponses[command := []];
      if |response| == 0 {
        return Pass, NoReply;
      }
      if !commands[command].multiple {
        return Pass, One(response[0]);
      }
      return Pass, Many(response);
    }

    /** `add_command`: the name `add-command` is refused before an id is
        allocated; any other name is sent to the worker as an `add-command`
        request, installed locally and given an empty buffer. */
    method AddCommand(name: string, fn: Handler, multiple: bool) returns (status: Status)
      requires Valid() && (name != ADD_COMMAND ==> |allIds| < idMax)
      modifies this`allIds, this`commands, this`newestResponses, this`requestQueue
      ensures Valid()
      ensures name == ADD_COMMAND ==>
        status == Fail(CollegamentoError) && Snapshot() == old(Snapshot()) && requestQueue == old(requestQueue)
      ensures name != ADD_COMMAND ==>
        && status == Pass && |allIds| == |old(allIds)| + 1
        && var id := allIds[|old(allIds)|];
        && 1 <= id <= idMax && id !in old(allIds)
        && Snapshot() == Added(old(Snapshot()), id, name, Entry(fn, multiple))
        && requestQueue == old(requestQueue) + [AddCommandMessage(id, name, Entry(fn, multiple))]
    {
      if name == ADD_COMMAND {
        return Fail(CollegamentoError);
      }
      ghost var l := Snapshot();
      var id := CreateMessageId();
      var commandTuple := Entry(fn, multiple);
      var finalRequest := Message(id, REQUEST, Some(ADD_COMMAND), map["name" := VStr(name), "function" := VEntry(commandTuple)]);
      requestQueue := requestQueue + [finalRequest];
      commands := commands[name := commandTuple];
      newestResponses := newestResponses[name := []];
      assert Snapshot() == Added(l, id, name, commandTuple);
      return Pass;
    }
  }
}
