/** The draft worker (`collegamento.simple_client_server.new_impl.Server`)
    as an object whose fields each call updates in place. The incoming
    requests of one pass are a parameter, the outgoing responses a sequence
    the methods append to. */
module DraftWorker {
  import opened Messages
  import opened Scheduling
  import D = DispatchSpec
  import opened DraftSpec

  class DraftServer {
    var commands: map<string, Entry>
    /** The key order of the two pending-list dicts. */
    var order: seq<string>
    var newestIds: map<string, seq<int>>
    var newestRequests: map<string, seq<Request>>
    var allIds: seq<int>
    /** Everything put on the response queue so far. */
    var responseQueue: seq<Response>
    const priority: seq<string>

    ghost function Snapshot(): D.Book
      reads this
    {
      D.Book(commands, order, newestIds, newestRequests, allIds)
    }

    ghost predicate Valid()
      reads this
    {
      DraftValid(Snapshot())
    }

    /** The part of the state the execute loop changes. */
    ghost function Current(): Run
      reads this
    {
      Run(commands, D.Exec(newestIds, newestRequests, map[], responseQueue))
    }

    /** The constructor's setup: an empty pending list per command, in the
        command table's order. */
    constructor (commands: map<string, Entry>, order: seq<string>, priority: seq<string>)
      requires D.OrderMatches(order, commands.Keys)
      ensures Valid() && Snapshot() == Initial(commands, order)
      ensures this.priority == priority && responseQueue == []
    {
      this.commands := commands;
      this.order := order;
      this.priority := priority;
      allIds := [];
      responseQueue := [];
      var ids: map<string, seq<int>> := map[];
      var reqs: map<string, seq<Request>> := map[];
      for i := 0 to |order|
        invariant forall c :: c in ids <==> c in order[..i]
        invariant forall c :: c in reqs <==> c in order[..i]
        invariant forall c :: c in ids ==> ids[c] == []
        invariant forall c :: c in reqs ==> reqs[c] == []
      {
        assert forall c :: c in order[..i + 1] <==> c in order[..i] || c == order[i];
        ids := ids[order[i] := []];
        reqs := reqs[order[i] := []];
      }
      assert order[..|order|] == order;
      newestIds := ids;
      newestRequests := reqs;
      assert ids == D.EmptyLists(commands.Keys);
      assert reqs == D.EmptyLists(commands.Keys);
    }

    method SimpleIdResponse(id: int, cancelled: bool)
      modifies this`responseQueue
      ensures responseQueue == old(responseQueue) + [SimpleResponse(id, cancelled)]
    {
      responseQueue := responseQueue + [Response(id, cancelled, None, None)];
    }

    /** `parse_line`: one step of `ParseStep`. When it raises, nothing has
        been put on the response queue. */
    method ParseLine(m: Message) returns (status: Status)
      requires Valid()
      modifies this`order, this`newestIds, this`newestRequests, this`allIds, this`responseQueue
      ensures status == StatusOf(ParseStep(old(Snapshot()), m))
      ensures status.Pass? ==>
        && Valid()
        && Snapshot() == ParseStep(old(Snapshot()), m).value.book
        && responseQueue == old(responseQueue) + ParseStep(old(Snapshot()), m).value.out
      ensures status.Fail? ==> responseQueue == old(responseQueue)
    {
      if m.msgType != REQUEST {
        SimpleIdResponse(m.id, true);
        return Pass;
      }
      status := RecordRequest(m);
    }

    /** The request branch of `parse_line`: the id joins the seen ids before
        the command is looked up (KeyError when it is missing or unknown);
        a single-request command's lists are replaced by the new request
        (created, at the end of the dict order, if missing), a
        multi-request command's are appended to (KeyError if missing). */
    method RecordRequest(m: Message) returns (status: Status)
      requires Valid() && m.msgType == REQUEST
      modifies this`order, this`newestIds, this`newestRequests, this`allIds
      ensures status == StatusOf(ParseStep(old(Snapshot()), m))
      ensures allIds == old(allIds) + [m.id]
      ensures status.Pass? ==> Valid() && Snapshot() == ParseStep(old(Snapshot()), m).value.book
    {
      ghost var b := Snapshot();
      var id := m.id;
      allIds := allIds + [id];
      if m.command.None? {
        return Fail(KeyError);
      }
      var request: Request := m;
      var command := m.command.value;
      if command !in commands {
        return Fail(KeyError);
      }
      var ids: seq<int> := [];
      var requests: seq<Request> := [];
      if commands[command].multiple {
        if command !in newestIds {
          return Fail(KeyError);
        }
        ids, requests := newestIds[command], newestRequests[command];
      } else if command !in newestRequests {
        order := order + [command];
      }
      newestIds := newestIds[command := ids + [id]];
      newestRequests := newestRequests[command := requests + [request]];
      assert Snapshot() == Record(b, request);
      assert ParseStep(b, m) == Ok(D.Parsed(Record(b, request), []));
      return Pass;
    }

    /** `cancel_old_ids`: a cancelled response for every id seen this pass
        that no pending request carries, then forget the seen ids. */
    method CancelOldIds()
      requires forall c :: c in order ==> c in newestRequests
      modifies this`responseQueue, this`allIds
      ensures responseQueue == old(responseQueue) + D.StaleResponses(old(allIds), IdsOf(D.Flatten(order, newestRequests)))
      ensures allIds == []
    {
      var acceptedIds := IdsOf(D.Flatten(order, newestRequests));
      var seen := allIds;
      for i := 0 to |seen|
        invariant responseQueue + D.StaleResponses(seen[i..], acceptedIds)
          == old(responseQueue) + D.StaleResponses(seen, acceptedIds)
      {
        assert seen[i..][1..] == seen[i + 1..];
        D.StaleResponsesStep(seen[i..], acceptedIds);
        if seen[i] !in acceptedIds {
          D.ConcatAssoc(responseQueue, [SimpleResponse(seen[i], true)], D.StaleResponses(seen[i + 1..], acceptedIds));
          SimpleIdResponse(seen[i], true);
        } else {
          assert [] + D.StaleResponses(seen[i + 1..], acceptedIds) == D.StaleResponses(seen[i + 1..], acceptedIds);
        }
      }
      allIds := [];
    }

    /** `handle_request`: one step of `Handle`. When the answer itself
        raises, nothing has been put on the queue; when retiring the id
        raises, the answer has. */
    method HandleRequest(r: Request, userFn: (nat, Message) -> Value) returns (status: Status)
      modifies this`commands, this`responseQueue, this`newestIds
      ensures status == StatusOf(Handle(old(Current()), r, userFn))
      ensures status.Pass? ==> Current() == Handle(old(Current()), r, userFn).value
      ensures var a := Answer(old(commands), r, userFn);
        && (a.Raised? ==> commands == old(commands) && responseQueue == old(responseQueue))
        && (a.Ok? ==> commands == a.value.0 && responseQueue == old(responseQueue) + [a.value.1])
    {
      var command := CommandOf(r);
      var id := r.id;
      if command == ADD_COMMAND {
        if "name" !in r.fields {
          return Fail(KeyError);
        }
        if !r.fields["name"].VStr? {
          return Fail(TypeError);
        }
        if "function" !in r.fields {
          return Fail(KeyError);
        }
        if !r.fields["function"].VEntry? {
          return Fail(TypeError);
        }
        commands := commands[r.fields["name"].s := r.fields["function"].e];
        responseQueue := responseQueue + [Response(id, true, Some(command), Some(VNone))];
      } else {
        var cancelled := false;
        var result := VNone;
        if command !in commands {
          cancelled := true;
        } else {
          match commands[command].handler
          case UserFn(k) =>
            result := userFn(k, r);
          case UpdateFiles =>
            return Fail(TypeError);
        }
        responseQueue := responseQueue + [Response(id, cancelled, Some(command), Some(result))];
      }
      if command !in newestIds {
        return Fail(KeyError);
      }
      var rest := RemoveFirst(newestIds[command], id);
      if rest.Raised? {
        return Fail(rest.error);
      }
      newestIds := newestIds[command := rest.value];
      return Pass;
    }

    /** `run_tasks` over the requests queued since the last pass: the state
        and the responses are exactly those of `RunPass`. */
    method RunTasks(inbox: seq<Message>, userFn: (nat, Message) -> Value) returns (status: Status)
      requires Valid()
      modifies this
      ensures status == StatusOf(RunPass(old(Snapshot()), priority, userFn, inbox))
      ensures status.Pass? ==>
        var res := RunPass(old(Snapshot()), priority, userFn, inbox).value;
        && Valid() && Snapshot() == res.book
        && responseQueue == old(responseQueue) + res.out
    {
      if inbox == [] {
        return Pass;
      }
      ghost var b0 := Snapshot();
      ghost var q0 := responseQueue;
      status := DrainQueue(inbox);
      if status.Fail? {
        return;
      }
      ghost var p := DrainAll(b0, inbox).value;
      status := SettleTasks(userFn, p.book);
      if status.Pass? {
        ghost var r := Settle(p.book, priority, userFn).value;
        D.ConcatAssoc(q0, p.out, r.out);
      }
    }

    /** The drain loop of `run_tasks`: `parse_line` on every queued
        message, stopping at the first that raises. */
    method DrainQueue(inbox: seq<Message>) returns (status: Status)
      requires Valid()
      modifies this`order, this`newestIds, this`newestRequests, this`allIds, this`responseQueue
      ensures status == StatusOf(DrainAll(old(Snapshot()), inbox))
      ensures status.Pass? ==>
        && Valid() && Snapshot() == DrainAll(old(Snapshot()), inbox).value.book
        && responseQueue == old(responseQueue) + DrainAll(old(Snapshot()), inbox).value.out
    {
      ghost var b0 := Snapshot();
      status := Pass;
      var i := 0;
      while i < |inbox|
        invariant i <= |inbox|
        invariant DrainAll(b0, inbox[..i]).Ok?
        invariant Valid() && Snapshot() == DrainAll(b0, inbox[..i]).value.book
        invariant responseQueue == old(responseQueue) + DrainAll(b0, inbox[..i]).value.out
        invariant status == Pass
      {
        assert inbox[..i + 1][..i] == inbox[..i];
        status := ParseLine(inbox[i]);
        if status.Fail? {
          DrainFailurePersists(b0, inbox, i + 1);
          return;
        }
        D.ConcatAssoc(old(responseQueue), DrainAll(b0, inbox[..i]).value.out,
                      ParseStep(DrainAll(b0, inbox[..i]).value.book, inbox[i]).value.out);
        i := i + 1;
      }
      assert inbox[..i] == inbox;
    }

    /** The rest of `run_tasks` after the drain: cancel the stale ids, sort
        the pending requests and execute them. */
    method SettleTasks(userFn: (nat, Message) -> Value, ghost d: D.Book) returns (status: Status)
      requires DraftValid(d) && Snapshot() == d
      modifies this`commands, this`responseQueue, this`newestIds, this`newestRequests, this`allIds
      ensures status == StatusOf(Settle(d, priority, userFn))
      ensures status.Pass? ==>
        var res := Settle(d, priority, userFn).value;
        && Snapshot() == res.book && responseQueue == old(responseQueue) + res.out
    {
      ghost var stale := D.StaleResponses(d.allIds, IdsOf(D.Flatten(d.order, d.newestRequests)));
      CancelOldIds();
      status := ExecutePhase(userFn, d);
      if status.Pass? {
        ghost var x := AnswerAll(d.commands, Schedule(d, priority), userFn).value;
        D.ConcatAssoc(old(responseQueue), stale, x.out);
      }
    }

    /** The sort and the execute loop of `run_tasks`, once the old ids are
        cancelled; on success the lists are cleared and the command table is
        the one the registrations left. */
    method ExecutePhase(userFn: (nat, Message) -> Value, ghost d: D.Book) returns (status: Status)
      requires DraftValid(d) && allIds == []
      requires commands == d.commands && order == d.order
      requires newestIds == d.newestIds && newestRequests == d.newestRequests
      modifies this`commands, this`responseQueue, this`newestIds, this`newestRequests
      ensures status == StatusOf(AnswerAll(d.commands, Schedule(d, priority), userFn))
      ensures status.Pass? ==>
        var x := AnswerAll(d.commands, Schedule(d, priority), userFn).value;
        && Snapshot() == Cleared(d, x.commands) && responseQueue == old(responseQueue) + x.out
    {
      var requestsList := SortByKey(D.Flatten(order, newestRequests), priority);
      SchedulePending(d, priority, responseQueue);
      ExecMatchesAnswers(Current(), requestsList, d.newestRequests.Keys, userFn);
      status := ExecuteAll(requestsList, userFn);
      if status.Pass? {
        assert order == d.order && allIds == [];
      }
    }

    /** The execute loop of `run_tasks`: handle each scheduled request, then
        take it off its command's pending requests; one step of `ExecFrom`
        per iteration. (The loop's `None` check never fires: the schedule
        holds only requests.) */
    method ExecuteAll(requestsList: seq<Request>, userFn: (nat, Message) -> Value) returns (status: Status)
      modifies this`commands, this`responseQueue, this`newestIds, this`newestRequests
      ensures status == StatusOf(ExecFrom(old(Current()), requestsList, userFn))
      ensures status.Pass? ==> Current() == ExecFrom(old(Current()), requestsList, userFn).value
    {
      var j := 0;
      while j < |requestsList|
        invariant j <= |requestsList|
        invariant ExecFrom(Current(), requestsList[j..], userFn) == ExecFrom(old(Current()), requestsList, userFn)
      {
        var request := requestsList[j];
        assert requestsList[j..][1..] == requestsList[j + 1..];
        status := HandleRequest(request, userFn);
        if status.Fail? {
          return;
        }
        var command := CommandOf(request);
        if command !in newestRequests {
          return Fail(KeyError);
        }
        var rest := RemoveFirst(newestRequests[command], request);
        if rest.Raised? {
          return Fail(rest.error);
        }
        newestRequests := newestRequests[command := rest.value];
        j := j + 1;
      }
      assert requestsList[j..] == [];
      status := Pass;
    }
  }
}
