/** The authoritative worker (`collegamento.client_server.server.Server`)
    as an object whose fields each call updates in place. The queues are
    modelled by their contents: the incoming requests of one pass are a
    parameter, the outgoing responses a sequence the methods append to. */
module Dispatch {
  import opened Messages
  import opened Scheduling
  import FileTable
  import opened DispatchSpec

  class Server {
    var commands: map<string, Entry>
    var order: seq<string>
    var newestIds: map<string, seq<int>>
    var newestRequests: map<string, seq<Request>>
    var allIds: seq<int>
    /** The file variant's table (always empty in the base server). */
    var files: map<string, string>
    /** Everything put on the response queue so far. */
    var responseQueue: seq<Response>
    const priority: seq<string>
    /** True for the file variant, whose `handle_request` substitutes file
        contents before delegating. */
    const substitutesFiles: bool

    ghost function Snapshot(): Book
      reads this
    {
      Book(commands, order, newestIds, newestRequests, allIds)
    }

    ghost predicate Valid()
      reads this
    {
      BookValid(Snapshot())
    }

    /** The part of the state the execute loop changes. */
    ghost function Current(): Exec
      reads this
    {
      Exec(newestIds, newestRequests, files, responseQueue)
    }

    /** The constructor's setup: an empty pending list per command. */
    constructor (commands: map<string, Entry>, order: seq<string>, priority: seq<string>)
      requires Distinct(order) && forall c :: c in order <==> c in commands
      ensures Valid() && Snapshot() == Initial(commands, order)
      ensures this.priority == priority && !substitutesFiles
      ensures files == map[] && responseQueue == []
    {
      this.commands := commands;
      this.order := order;
      newestIds := map c | c in commands :: [];
      newestRequests := map c | c in commands :: [];
      allIds := [];
      files := map[];
      responseQueue := [];
      this.priority := priority;
      substitutesFiles := false;
    }

    /** `FileServer.__init__`: file notifications take priority and the file
        table starts empty. */
    constructor FileServer(commands: map<string, Entry>, order: seq<string>)
      requires Distinct(order) && forall c :: c in order <==> c in commands
      ensures Valid() && Snapshot() == Initial(commands, order)
      ensures priority == [FileTable.FILE_NOTIFICATION] && substitutesFiles
      ensures files == map[] && responseQueue == []
    {
      this.commands := commands;
      this.order := order;
      newestIds := map c | c in commands :: [];
      newestRequests := map c | c in commands :: [];
      allIds := [];
      files := map[];
      responseQueue := [];
      priority := [FileTable.FILE_NOTIFICATION];
      substitutesFiles := true;
    }

    method SimpleIdResponse(id: int, cancelled: bool)
      modifies this`responseQueue
      ensures responseQueue == old(responseQueue) + [SimpleResponse(id, cancelled)]
    {
      responseQueue := responseQueue + [Response(id, cancelled, None, None)];
    }

    /** `parse_line`: one step of `ParseStep`. When it raises, nothing has
        been put on the response queue. */
    method ParseLine(m: Message) returns (status: Status)
      requires Valid()
      modifies this`commands, this`order, this`newestIds, this`newestRequests, this`allIds, this`responseQueue
      ensures status == StatusOf(ParseStep(old(Snapshot()), m))
      ensures status.Pass? ==>
        && Valid()
        && Snapshot() == ParseStep(old(Snapshot()), m).value.book
        && responseQueue == old(responseQueue) + ParseStep(old(Snapshot()), m).value.out
      ensures status.Fail? ==> responseQueue == old(responseQueue)
    {
      ghost var b := Snapshot();
      var id := m.id;
      if m.msgType != REQUEST {
        SimpleIdResponse(id, true);
        assert ParseStep(b, m) == Ok(Parsed(b, [SimpleResponse(id, true)]));
        return Pass;
      }
      if m.command.None? {
        return Fail(KeyError);
      }
      if m.command.value == ADD_COMMAND {
        status := ParseAddCommand(m);
        return;
      }
      status := RecordRequest(m);
    }

    /** The add-command branch of `parse_line` (lines 70-78), answered with a
        cancelled response once the entry is installed. */
    method ParseAddCommand(m: Message) returns (status: Status)
      requires Valid()
      modifies this`commands, this`order, this`newestIds, this`newestRequests, this`responseQueue
      ensures status == StatusOf(AddCommandStep(old(Snapshot()), m))
      ensures status.Pass? ==>
        && Valid()
        && Snapshot() == AddCommandStep(old(Snapshot()), m).value.book
        && responseQueue == old(responseQueue) + [SimpleResponse(m.id, true)]
      ensures status.Fail? ==> responseQueue == old(responseQueue)
    {
      if "name" !in m.fields {
        return Fail(KeyError);
      }
      if !m.fields["name"].VStr? {
        return Fail(TypeError);
      }
      var requestName := m.fields["name"].s;
      if "function" !in m.fields {
        return Fail(KeyError);
      }
      if !m.fields["function"].VEntry? {
        return Fail(TypeError);
      }
      var requestTuple := m.fields["function"].e;
      RegisterCommand(requestName, requestTuple);
      SimpleIdResponse(m.id, true);
      return Pass;
    }

    /** Registration proper: install the entry under its name, appending the
        name to the order only when it is new, and empty its pending lists. */
    method RegisterCommand(name: string, entry: Entry)
      requires Valid()
      modifies this`commands, this`order, this`newestIds, this`newestRequests
      ensures Valid() && Snapshot() == Register(old(Snapshot()), name, entry)
    {
      ghost var b := Snapshot();
      if name !in commands {
        order := order + [name];
      }
      commands := commands[name := entry];
      newestRequests := newestRequests[name := []];
      newestIds := newestIds[name := []];
      assert Snapshot() == Register(b, name, entry);
      RegisterKeepsValid(b, name, entry);
    }

    /** The request branch of `parse_line` (lines 80-91): the id joins the
        seen ids even when the command is unknown, which raises KeyError;
        otherwise the request joins its command's pending lists, after they
        are emptied for a command that allows a single request. */
    method RecordRequest(m: Request) returns (status: Status)
      requires Valid()
      modifies this`newestIds, this`newestRequests, this`allIds
      ensures status == StatusOf(RecordStep(old(Snapshot()), m))
      ensures allIds == old(allIds) + [m.id]
      ensures status.Pass? ==> Valid() && Snapshot() == RecordStep(old(Snapshot()), m).value.book
    {
      ghost var b := Snapshot();
      var command := CommandOf(m);
      allIds := allIds + [m.id];
      if command !in commands {
        return Fail(KeyError);
      }
      var ids := newestIds[command];
      var requests := newestRequests[command];
      if !commands[command].multiple {
        ids, requests := [], [];
      }
      newestIds := newestIds[command := ids + [m.id]];
      newestRequests := newestRequests[command := requests + [m]];
      assert Snapshot() == Record(b, m);
      RecordKeepsValid(b, m);
      return Pass;
    }

    /** `cancel_old_ids`: a cancelled response for every id seen this pass
        that no pending request carries, then forget the seen ids. */
    method CancelOldIds()
      requires forall c :: c in order ==> c in newestRequests
      modifies this`responseQueue, this`allIds
      ensures responseQueue == old(responseQueue) + StaleResponses(old(allIds), IdsOf(Flatten(order, newestRequests)))
      ensures allIds == []
    {
      var acceptedIds := IdsOf(Flatten(order, newestRequests));
      var seen := allIds;
      for i := 0 to |seen|
        invariant responseQueue + StaleResponses(seen[i..], acceptedIds)
          == old(responseQueue) + StaleResponses(seen, acceptedIds)
      {
        assert seen[i..][1..] == seen[i + 1..];
        StaleResponsesStep(seen[i..], acceptedIds);
        if seen[i] !in acceptedIds {
          ConcatAssoc(responseQueue, [SimpleResponse(seen[i], true)], StaleResponses(seen[i + 1..], acceptedIds));
          SimpleIdResponse(seen[i], true);
        } else {
          assert [] + StaleResponses(seen[i + 1..], acceptedIds) == StaleResponses(seen[i + 1..], acceptedIds);
        }
      }
      allIds := [];
    }

    /** `handle_request` (with the file variant's substitution in front):
        one step of `Handle`. When the answer itself raises, nothing has been
        put on the queue; when retiring the id raises, the answer has. */
    method HandleRequest(r: Request, userFn: (nat, Message) -> Value) returns (status: Status)
      modifies this`files, this`responseQueue, this`newestIds
      ensures status == StatusOf(Handle(old(Current()), commands, r, substitutesFiles, userFn))
      ensures status.Pass? ==> Current() == Handle(old(Current()), commands, r, substitutesFiles, userFn).value
      ensures var a := Answer(old(files), commands, r, substitutesFiles, userFn);
        && (a.Raised? ==> files == old(files) && responseQueue == old(responseQueue))
        && (a.Ok? ==> files == a.value.0 && responseQueue == old(responseQueue) + [a.value.1])
    {
      var request := r;
      if substitutesFiles {
        var sub := FileTable.Substitute(files, r);
        if sub.Raised? {
          return Fail(sub.error);
        }
        request := sub.value;
      }
      var command := CommandOf(r);
      var id := r.id;
      var cancelled := false;
      var result: Value;
      if command !in commands {
        result := VNone;
        cancelled := true;
      } else {
        match commands[command].handler
        case UserFn(k) =>
          result := userFn(k, request);
        case UpdateFiles =>
          if !substitutesFiles {
            return Fail(TypeError);
          }
          var updated := FileTable.UpdateFiles(files, request);
          if updated.Raised? {
            return Fail(updated.error);
          }
          files := updated.value;
          result := VNone;
      }
      responseQueue := responseQueue + [Response(id, cancelled, Some(command), Some(result))];
      if command !in newestIds {
        return Fail(KeyError);
      }
      var rest := RemoveFirst(newestIds[command], id);
      if rest.Raised? {
        return Fail(rest.error);
      }
      newestIds := newestIds[command := rest.value];
      return Pass;
    }

    /** `run_tasks` over the requests queued since the last pass: the state
        and the responses are exactly those of `RunPass`. */
    method RunTasks(inbox: seq<Message>, userFn: (nat, Message) -> Value) returns (status: Status)
      requires Valid()
      modifies this
      ensures status == StatusOf(RunPass(old(Snapshot()), old(files), priority, substitutesFiles, userFn, inbox))
      ensures status.Pass? ==>
        var res := RunPass(old(Snapshot()), old(files), priority, substitutesFiles, userFn, inbox).value;
        && Valid() && Snapshot() == res.book && files == res.files
        && responseQueue == old(responseQueue) + res.out
    {
      if inbox == [] {
        return Pass;
      }
      ghost var b0 := Snapshot();
      ghost var q0 := responseQueue;
      status := DrainQueue(inbox);
      if status.Fail? {
        return;
      }
      ghost var p := DrainAll(b0, inbox).value;
      status := SettleTasks(userFn, p.book);
      if status.Pass? {
        ghost var r := Settle(p.book, old(files), priority, substitutesFiles, userFn).value;
        ConcatAssoc(q0, p.out, r.out);
        assert BookValid(r.book);
      }
    }

    /** The rest of `run_tasks` after the drain: cancel the stale ids, sort
        the pending requests and execute them. */
    method SettleTasks(userFn: (nat, Message) -> Value, ghost d: Book) returns (status: Status)
      requires BookValid(d) && Snapshot() == d
      modifies this`files, this`responseQueue, this`newestIds, this`newestRequests, this`allIds
      ensures status == StatusOf(Settle(d, old(files), priority, substitutesFiles, userFn))
      ensures status.Pass? ==>
        var res := Settle(d, old(files), priority, substitutesFiles, userFn).value;
        && Snapshot() == res.book && files == res.files
        && responseQueue == old(responseQueue) + res.out
    {
      ghost var stale := StaleResponses(d.allIds, IdsOf(Flatten(d.order, d.newestRequests)));
      CancelOldIds();
      status := ExecutePhase(userFn, d);
      if status.Pass? {
        ghost var x := AnswerAll(old(files), d.commands, Schedule(d, priority), substitutesFiles, userFn).value;
        ConcatAssoc(old(responseQueue), stale, x.out);
      }
    }

    /** Lines 139-158 of `run_tasks`, once the old ids are cancelled: sort the
        pending requests and execute them; on success the book is cleared. */
    method ExecutePhase(userFn: (nat, Message) -> Value, ghost d: Book) returns (status: Status)
      requires BookValid(d) && allIds == []
      requires commands == d.commands && order == d.order
      requires newestIds == d.newestIds && newestRequests == d.newestRequests
      modifies this`files, this`responseQueue, this`newestIds, this`newestRequests
      ensures status == StatusOf(AnswerAll(old(files), d.commands, Schedule(d, priority), substitutesFiles, userFn))
      ensures status.Pass? ==>
        var x := AnswerAll(old(files), d.commands, Schedule(d, priority), substitutesFiles, userFn).value;
        && Snapshot() == Cleared(d) && files == x.files && responseQueue == old(responseQueue) + x.out
    {
      var requestsList := SortByKey(Flatten(order, newestRequests), priority);
      status := ExecuteSchedule(requestsList, userFn, d);
      if status.Pass? {
        assert commands == d.commands && order == d.order && allIds == [];
        assert Snapshot() == Cleared(d);
      }
    }

    /** The execute phase of `run_tasks` on a schedule its pending lists
        track: the answers of `AnswerAll` go on the queue and every pending
        list ends empty. */
    method ExecuteSchedule(requestsList: seq<Request>, userFn: (nat, Message) -> Value, ghost d: Book) returns (status: Status)
      requires BookValid(d) && requestsList == Schedule(d, priority)
      requires commands == d.commands && newestIds == d.newestIds && newestRequests == d.newestRequests
      modifies this`files, this`responseQueue, this`newestIds, this`newestRequests
      ensures status == StatusOf(AnswerAll(old(files), commands, requestsList, substitutesFiles, userFn))
      ensures status.Pass? ==>
        var x := AnswerAll(old(files), commands, requestsList, substitutesFiles, userFn).value;
        && newestIds == EmptyLists(commands.Keys) && newestRequests == EmptyLists(commands.Keys)
        && files == x.files && responseQueue == old(responseQueue) + x.out
    {
      SchedulePending(d, priority, files, responseQueue);
      ExecMatchesAnswers(Current(), commands, requestsList, commands.Keys, substitutesFiles, userFn);
      status := ExecuteAll(requestsList, userFn);
    }

    /** The drain loop of `run_tasks`: `parse_line` on every queued
        message, stopping at the first that raises. */
    method DrainQueue(inbox: seq<Message>) returns (status: Status)
      requires Valid()
      modifies this`commands, this`order, this`newestIds, this`newestRequests, this`allIds, this`responseQueue
      ensures status == StatusOf(DrainAll(old(Snapshot()), inbox))
      ensures status.Pass? ==>
        && Valid() && Snapshot() == DrainAll(old(Snapshot()), inbox).value.book
        && responseQueue == old(responseQueue) + DrainAll(old(Snapshot()), inbox).value.out
    {
      ghost var b0 := Snapshot();
      status := Pass;
      var i := 0;
      while i < |inbox|
        invariant i <= |inbox|
        invariant DrainAll(b0, inbox[..i]).Ok?
        invariant Valid() && Snapshot() == DrainAll(b0, inbox[..i]).value.book
        invariant responseQueue == old(responseQueue) + DrainAll(b0, inbox[..i]).value.out
        invariant status == Pass
      {
        assert inbox[..i + 1][..i] == inbox[..i];
        ghost var q := responseQueue;
        status := ParseLine(inbox[i]);
        if status.Fail? {
          DrainFailurePersists(b0, inbox, i + 1);
          return;
        }
        ConcatAssoc(old(responseQueue), DrainAll(b0, inbox[..i]).value.out, ParseStep(DrainAll(b0, inbox[..i]).value.book, inbox[i]).value.out);
        i := i + 1;
      }
      assert inbox[..i] == inbox;
    }

    /** The execute loop of `run_tasks`: handle each scheduled request, then
        take it off its command's pending requests; one step of `ExecFrom`
        per iteration. */
    method ExecuteAll(requestsList: seq<Request>, userFn: (nat, Message) -> Value) returns (status: Status)
      modifies this`files, this`responseQueue, this`newestIds, this`newestRequests
      ensures status == StatusOf(ExecFrom(old(Current()), commands, requestsList, substitutesFiles, userFn))
      ensures status.Pass? ==> Current() == ExecFrom(old(Current()), commands, requestsList, substitutesFiles, userFn).value
    {
      var j := 0;
      while j < |requestsList|
        invariant j <= |requestsList|
        invariant ExecFrom(Current(), commands, requestsList[j..], substitutesFiles, userFn)
          == ExecFrom(old(Current()), commands, requestsList, substitutesFiles, userFn)
      {
        var request := requestsList[j];
        assert requestsList[j..][1..] == requestsList[j + 1..];
        status := HandleRequest(request, userFn);
        if status.Fail? {
          return;
        }
        var command := CommandOf(request);
        if command !in newestRequests {
          return Fail(KeyError);
        }
        var rest := RemoveFirst(newestRequests[command], request);
        if rest.Raised? {
          return Fail(rest.error);
        }
        newestRequests := newestRequests[command := rest.value];
        j := j + 1;
      }
      assert requestsList[j..] == [];
      status := Pass;
    }
  }
}
