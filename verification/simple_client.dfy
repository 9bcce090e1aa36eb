/** The one-slot client (`collegamento.simple_client_server.client.SimpleClient`)
    as an object whose fields each call updates in place. The request queue
    is modelled by what the client has put on it, the response queue by the
    answers the worker has put on it that the client has not read yet. */
module SimpleCorrelation {
  import opened Messages
  import opened SimpleLedgerSpec
  import LedgerSpec

  class SimpleClient {
    var allIds: seq<int>
    const idMax: int
    var currentIds: map<string, int>
    var newestResponses: map<string, Option<Response>>
    var commands: map<string, Value>
    /** Everything put on the request queue so far. */
    var requestQueue: seq<Message>
    /** Answers waiting on the response queue, oldest first. */
    var responseQueue: seq<Response>

    ghost function Snapshot(): SimpleLedger
      reads this
    {
      SimpleLedger(allIds, currentIds, newestResponses, commands)
    }

    ghost predicate Valid()
      reads this
    {
      SimpleValid(Snapshot(), idMax)
    }

    /** `SimpleClient.__init__`: id 0 and no answer for every command, one
        command at a time (starting the worker is left out). */
    constructor (commands: map<string, Value>, idMax: int)
      ensures Valid() && Snapshot() == Setup(commands) && this.idMax == idMax
      ensures requestQueue == [] && responseQueue == []
    {
      allIds := [];
      this.idMax := idMax;
      this.commands := commands;
      requestQueue := [];
      responseQueue := [];
      var ids: map<string, int> := map[];
      var answers: map<string, Option<Response>> := map[];
      var rest := commands.Keys;
      while rest != {}
        invariant rest <= commands.Keys
        invariant forall c :: c in ids <==> c in commands && c !in rest
        invariant forall c :: c in answers <==> c in commands && c !in rest
        invariant forall c :: c in ids ==> ids[c] == 0
        invariant forall c :: c in answers ==> answers[c] == None
        decreases |rest|
      {
        var c :| c in rest;
        ids := ids[c := 0];
        answers := answers[c := None];
        rest := rest - {c};
      }
      currentIds := ids;
      newestResponses := answers;
      assert ids == map c | c in commands :: 0;
      assert answers == map c | c in commands :: None;
    }

    /** `create_message_id`: a free id in `[1, id_max]`, recorded as
        outstanding. The random draw repeated until it misses `all_ids` is
        a choice among the free ids; with none free it would never end. */
    method CreateMessageId() returns (id: int)
      requires Valid() && |allIds| < idMax
      modifies this`allIds
      ensures 1 <= id <= idMax && id !in old(allIds)
      ensures allIds == old(allIds) + [id]
      ensures Valid()
    {
      LedgerSpec.FreeIdExists(allIds, idMax);
      id :| 1 <= id <= idMax && id !in allIds;
      LedgerSpec.AppendFresh(allIds, idMax, id);
      allIds := allIds + [id];
    }

    /** `notify_server`: a fresh id and the caller's map on a notification
        envelope. */
    method NotifyServer(details: map<string, Value>)
      requires Valid() && |allIds| < idMax
      modifies this`allIds, this`requestQueue
      ensures Valid()
      ensures |allIds| == |old(allIds)| + 1
      ensures var id := allIds[|old(allIds)|];
        && 1 <= id <= idMax && id !in old(allIds)
        && Snapshot() == old(Snapshot()).(allIds := old(allIds) + [id])
        && requestQueue == old(requestQueue) + [NotificationMessage(id, details)]
    {
      var id := CreateMessageId();
      var finalNotification := Merge(Message(id, NOTIFICATION, None, map[]), details);
      requestQueue := requestQueue + [finalNotification];
    }

    /** `request(request_details)`: the map must carry a `command` key
        (KeyError otherwise); a list or dict there cannot be looked up in
        the command table (TypeError, unhashable); any other value that is
        not a registered name raises CollegamentoError. None of these
        allocates an id or queues anything. */
    method Request(details: map<string, Value>) returns (status: Status)
      requires Valid()
      requires "command" in details && details["command"].VStr? && details["command"].s in commands ==> |allIds| < idMax
      modifies this`allIds, this`currentIds, this`requestQueue
      ensures Valid()
      ensures status.Pass? <==> "command" in details && details["command"].VStr? && details["command"].s in old(commands)
      ensures "command" !in details ==> status == Fail(KeyError)
      ensures "command" in details && (details["command"].VList? || details["command"].VDict?) ==> status == Fail(TypeError)
      ensures status.Fail? ==> status.error in {KeyError, TypeError, CollegamentoError}
      ensures status.Fail? ==> Snapshot() == old(Snapshot()) && requestQueue == old(requestQueue)
      ensures status.Pass? ==>
        && |allIds| == |old(allIds)| + 1
        && var id := allIds[|old(allIds)|];
        && var command := details["command"].s;
        && 1 <= id <= idMax && id !in old(allIds)
        && Snapshot() == Requested(old(Snapshot()), id, command)
        && requestQueue == old(requestQueue) + [RequestMessage(id, command, details)]
      ensures Ready(old(Snapshot())) ==> Ready(Snapshot())
    {
      if "command" !in details {
        return Fail(KeyError);
      }
      match details["command"]
      case VList(_) =>
        return Fail(TypeError);
      case VDict(_) =>
        return Fail(TypeError);
      case VStr(command) =>
        if command !in commands {
          return Fail(CollegamentoError);
        }
        ghost var l := Snapshot();
        var id := CreateMessageId();
        currentIds := currentIds[command := id];
        var finalRequest := Merge(Message(id, REQUEST, Some(command), map[]), details);
        requestQueue := requestQueue + [finalRequest];
        assert Snapshot() == Requested(l, id, command);
        return Pass;
      case _ =>
        return Fail(CollegamentoError);
    }

    /** `parse_response`: one step of `Absorb`; the effects made before a
        raise stay. */
    method ParseResponse(res: Response) returns (status: Status)
      requires Valid()
      modifies this`allIds, this`currentIds, this`newestResponses
      ensures Outcome(Snapshot(), status) == Absorb(old(Snapshot()), res)
      ensures Valid()
    {
      AbsorbKeepsValid(Snapshot(), idMax, res);
      var id := res.id;
      var rest := RemoveFirst(allIds, id);
      if rest.Raised? {
        return Fail(rest.error);
      }
      allIds := rest.value;
      if res.command.None? {
        return Pass;
      }
      var command := res.command.value;
      if command == ADD_COMMAND {
        return Pass;
      }
      if command !in currentIds {
        return Fail(KeyError);
      }
      if id != currentIds[command] {
        return Pass;
      }
      currentIds := currentIds[command := 0];
      newestResponses := newestResponses[command := Some(res)];
      return Pass;
    }

    /** `check_responses`: parse every waiting answer in order, stopping at
        the first that raises (it is consumed, the rest stay waiting). */
    method CheckResponses() returns (status: Status)
      requires Valid()
      modifies this`allIds, this`currentIds, this`newestResponses, this`responseQueue
      ensures Drained(Snapshot(), status, responseQueue) == AbsorbAll(old(Snapshot()), old(responseQueue))
      ensures Valid()
    {
      status := Pass;
      while responseQueue != []
        invariant Valid()
        invariant status == Pass
        invariant AbsorbAll(Snapshot(), responseQueue) == AbsorbAll(old(Snapshot()), old(responseQueue))
        decreases |responseQueue|
      {
        ghost var before := Snapshot();
        ghost var waiting := responseQueue;
        var res := responseQueue[0];
        responseQueue := responseQueue[1..];
        status := ParseResponse(res);
        assert AbsorbAll(before, waiting) ==
          if status.Fail? then Drained(Snapshot(), status, responseQueue) else AbsorbAll(Snapshot(), responseQueue);
        if status.Fail? {
          return;
        }
      }
    }

    /** `get_response(command)`: CollegamentoError for an unknown command,
        before anything is read; otherwise read the waiting answers, then
        take the command's answer slot and leave it empty. For a command set
        up at construction the read always succeeds. */
    method GetResponse(command: string) returns (status: Status, response: Option<Response>)
      requires Valid()
      modifies this`allIds, this`currentIds, this`newestResponses, this`responseQueue
      ensures Valid()
      ensures command !in old(commands) ==>
        status == Fail(CollegamentoError) && Snapshot() == old(Snapshot()) && responseQueue == old(responseQueue)
      ensures command in old(commands) ==>
        var d := AbsorbAll(old(Snapshot()), old(responseQueue));
        && (d.status.Fail? ==> status == d.status && Snapshot() == d.ledger && responseQueue == d.unread)
        && (d.status.Pass? ==> responseQueue == [] && match Take(d.ledger, command)
             case Raised(e) => status == Fail(e) && Snapshot() == d.ledger
             case Ok(t) => status == Pass && Snapshot() == t.0 && response == t.1)
      ensures
        Ready(old(Snapshot())) && command in old(commands) && AbsorbAll(old(Snapshot()), old(responseQueue)).status.Pass?
        ==> status == Pass
    {
      if command !in commands {
        return Fail(CollegamentoError), None;
      }
      response := None;
      status := CheckResponses();
      if status.Fail? {
        return;
      }
      if command !in newestResponses {
        return Fail(KeyError), None;
      }
      response := newestResponses[command];
      newestResponses := newestResponses[command := None];
      return Pass, response;
    }

    /** `add_command` as written: the name `add-command` is refused before
        an id is allocated; any other name is sent to the worker as an
        `add-command` request and joins the local command table, without an
        id slot or an answer slot. */
    method AddCommandAsWritten(name: string, f: Value) returns (status: Status)
      requires Valid() && (name != ADD_COMMAND ==> |allIds| < idMax)
      modifies this`allIds, this`commands, this`requestQueue
      ensures Valid()
      ensures name == ADD_COMMAND ==>
        status == Fail(CollegamentoError) && Snapshot() == old(Snapshot()) && requestQueue == old(requestQueue)
      ensures name != ADD_COMMAND ==>
        && status == Pass && |allIds| == |old(allIds)| + 1
        && var id := allIds[|old(allIds)|];
        && 1 <= id <= idMax && id !in old(allIds)
        && Snapshot() == AddedAsWritten(old(Snapshot()), id, name, f)
        && requestQueue == old(requestQueue) + [AddCommandMessage(id, name, f)]
    {
      if name == ADD_COMMAND {
        return Fail(CollegamentoError);
      }
      var id := CreateMessageId();
      var finalRequest := Message(id, REQUEST, Some(ADD_COMMAND), map["name" := VStr(name), "function" := f]);
      requestQueue := requestQueue + [finalRequest];
      commands := commands[name := f];
      return Pass;
    }

    /** `add_command` with the name set up as construction sets up every
        command: id 0 and an empty answer slot, so that `get_response` on it
        returns nothing until it is answered. */
    method AddCommand(name: string, f: Value) returns (status: Status)
      requires Valid() && (name != ADD_COMMAND ==> |allIds| < idMax)
      modifies this`allIds, this`commands, this`currentIds, this`newestResponses, this`requestQueue
      ensures Valid()
      ensures name == ADD_COMMAND ==>
        status == Fail(CollegamentoError) && Snapshot() == old(Snapshot()) && requestQueue == old(requestQueue)
      ensures name != ADD_COMMAND ==>
        && status == Pass && |allIds| == |old(allIds)| + 1
        && var id := allIds[|old(allIds)|];
        && 1 <= id <= idMax && id !in old(allIds)
        && Snapshot() == Added(old(Snapshot()), id, name, f)
        && requestQueue == old(requestQueue) + [AddCommandMessage(id, name, f)]
      ensures Ready(old(Snapshot())) ==> Ready(Snapshot())
    {
      if name == ADD_COMMAND {
        return Fail(CollegamentoError);
      }
      var id := CreateMessageId();
      var finalRequest := Message(id, REQUEST, Some(ADD_COMMAND), map["name" := VStr(name), "function" := f]);
      requestQueue := requestQueue + [finalRequest];
      commands := commands[name := f];
      currentIds := currentIds[name := 0];
      newestResponses := newestResponses[name := None];
      return Pass;
    }
  }
}
