/** The one-slot worker (`collegamento.simple_client_server.server.SimpleServer`)
    as an object whose fields each call updates in place. The incoming
    messages of one pass are a parameter; the response queue is the sequence
    of everything put on it so far. */
module SimpleWorker {
  import opened Messages
  import opened SimpleSpec
  import SimpleAccounting
  import DispatchSpec

  /** The execute loop's answers do not depend on what is already on the
      response queue: starting behind `q` just puts `q` in front. */
  lemma StepShift(e: Exec, r: Request, q: seq<Response>, userFn: (nat, Message) -> Value)
    ensures StatusOf(ExecStep(e.(out := q + e.out), r, userFn)) == StatusOf(ExecStep(e, r, userFn))
    ensures ExecStep(e, r, userFn).Ok? ==>
      ExecStep(e.(out := q + e.out), r, userFn).value
        == ExecStep(e, r, userFn).value.(out := q + ExecStep(e, r, userFn).value.out)
  {
    var h := Handle(e, r, userFn);
    if h.Ok? {
      var a := h.value.out[|e.out|];
      assert h.value.out == e.out + [a];
      DispatchSpec.ConcatAssoc(q, e.out, [a]);
    }
  }

  lemma {:induction false} ExecShift(e: Exec, rs: seq<Request>, q: seq<Response>, userFn: (nat, Message) -> Value)
    ensures StatusOf(ExecFrom(e.(out := q + e.out), rs, userFn)) == StatusOf(ExecFrom(e, rs, userFn))
    ensures ExecFrom(e, rs, userFn).Ok? ==>
      ExecFrom(e.(out := q + e.out), rs, userFn).value
        == ExecFrom(e, rs, userFn).value.(out := q + ExecFrom(e, rs, userFn).value.out)
    decreases |rs|
  {
    if rs != [] {
      StepShift(e, rs[0], q, userFn);
      var s := ExecStep(e, rs[0], userFn);
      if s.Ok? {
        ExecShift(s.value, rs[1..], q, userFn);
      }
    }
  }

  /** `Settle` spelled out: the cancellation, then the execute loop from
      an empty response list. */
  lemma SettleUnfold(d: Slots, userFn: (nat, Message) -> Value)
    requires SlotsValid(d)
    ensures var pending := Pending(d.order, d.newestRequests);
      var x := ExecFrom(Exec(d.commands, d.newestIds, d.newestRequests, []), pending, userFn);
      && StatusOf(Settle(d, userFn)) == StatusOf(x)
      && (x.Ok? ==> Settle(d, userFn).value == PassResult(
            Slots(x.value.commands, d.order, x.value.newestIds, x.value.newestRequests, []),
            DispatchSpec.StaleResponses(d.allIds, IdsOf(pending)) + x.value.out))
  {
  }

  class SimpleServer {
    var commands: map<string, Value>
    /** The keys of `newest_requests` in dict order. */
    var order: seq<string>
    var newestIds: map<string, int>
    var newestRequests: map<string, Option<Request>>
    var allIds: seq<int>
    /** Everything put on the response queue so far. */
    var responseQueue: seq<Response>

    ghost function Snapshot(): Slots
      reads this
    {
      Slots(commands, order, newestIds, newestRequests, allIds)
    }

    ghost predicate Valid()
      reads this
    {
      SlotsValid(Snapshot())
    }

    /** The part of the state the execute loop changes. */
    ghost function Current(): Exec
      reads this
    {
      Exec(commands, newestIds, newestRequests, responseQueue)
    }

    /** `SimpleServer.__init__` up to the endless `run_tasks` loop: an empty
        slot and id 0 for every command, in the table's order. */
    constructor (commands: map<string, Value>, order: seq<string>)
      requires Distinct(order) && forall c :: c in order <==> c in commands
      ensures Valid() && Snapshot() == Initial(commands, order) && responseQueue == []
    {
      this.commands := commands;
      this.order := order;
      allIds := [];
      responseQueue := [];
      var ids: map<string, int> := map[];
      var reqs: map<string, Option<Request>> := map[];
      for i := 0 to |order|
        invariant forall c :: c in ids <==> c in order[..i]
        invariant forall c :: c in reqs <==> c in order[..i]
        invariant forall c :: c in ids ==> ids[c] == 0
        invariant forall c :: c in reqs ==> reqs[c] == None
      {
        assert forall c :: c in order[..i + 1] <==> c in order[..i] || c == order[i];
        ids := ids[order[i] := 0];
        reqs := reqs[order[i] := None];
      }
      assert order[..|order|] == order;
      newestIds := ids;
      newestRequests := reqs;
      assert ids == map c | c in commands :: 0;
      assert reqs == map c | c in commands :: None;
    }

    method SimpleIdResponse(id: int, cancelled: bool)
      modifies this`responseQueue
      ensures responseQueue == old(responseQueue) + [SimpleResponse(id, cancelled)]
    {
      responseQueue := responseQueue + [Response(id, cancelled, None, None)];
    }

    /** `parse_line`: one step of `ParseStep`. A request without a command
        raises after its id has been recorded. */
    method ParseLine(m: Message) returns (status: Status)
      requires Valid()
      modifies this`order, this`newestIds, this`newestRequests, this`allIds, this`responseQueue
      ensures Valid()
      ensures status == StatusOf(ParseStep(old(Snapshot()), m))
      ensures status.Pass? ==>
        && Snapshot() == ParseStep(old(Snapshot()), m).value.slots
        && responseQueue == old(responseQueue) + ParseStep(old(Snapshot()), m).value.out
      ensures status.Fail? ==>
        && Snapshot() == old(Snapshot()).(allIds := old(allIds) + [m.id])
        && responseQueue == old(responseQueue)
    {
      ghost var s0 := Snapshot();
      var id := m.id;
      if m.msgType != NOTIFICATION && m.msgType != REQUEST {
        SimpleIdResponse(id, true);
        return Pass;
      }
      if m.msgType == NOTIFICATION {
        SimpleIdResponse(id, false);
        return Pass;
      }
      allIds := allIds + [id];
      if m.command.None? {
        SeenKeepsValid(s0, allIds);
        return Fail(KeyError);
      }
      var command := m.command.value;
      if command !in newestRequests {
        order := order + [command];
      }
      newestIds := newestIds[command := id];
      newestRequests := newestRequests[command := Some(m)];
      StoreReplaces(s0, m);
      assert Snapshot() == Store(s0, m);
      return Pass;
    }

    /** `cancel_all_ids_except_newest`: collect the ids the slots hold, in
        dict order, then answer every other seen id as cancelled, in the
        order seen, and forget the seen ids. */
    method CancelAllIdsExceptNewest()
      requires forall c :: c in order ==> c in newestRequests
      modifies this`responseQueue, this`allIds
      ensures responseQueue == old(responseQueue)
        + DispatchSpec.StaleResponses(old(allIds), IdsOf(Pending(order, newestRequests)))
      ensures allIds == []
    {
      var ids: seq<int> := [];
      for i := 0 to |order|
        invariant ids == IdsOf(Pending(order[..i], newestRequests))
        invariant responseQueue == old(responseQueue) && allIds == old(allIds)
      {
        assert order[..i + 1] == order[..i] + [order[i]];
        PendingConcat(order[..i], [order[i]], newestRequests);
        IdsOfConcat(Pending(order[..i], newestRequests), Pending([order[i]], newestRequests));
        var request := newestRequests[order[i]];
        if request.Some? {
          ids := ids + [request.value.id];
        }
      }
      assert order[..|order|] == order;
      assert ids == IdsOf(Pending(order, newestRequests));
      var seen := allIds;
      assert seen[0..] == seen;
      for i := 0 to |seen|
        invariant responseQueue + DispatchSpec.StaleResponses(seen[i..], ids)
          == old(responseQueue) + DispatchSpec.StaleResponses(seen, ids)
      {
        assert seen[i..][1..] == seen[i + 1..];
        DispatchSpec.StaleResponsesStep(seen[i..], ids);
        if seen[i] !in ids {
          DispatchSpec.ConcatAssoc(responseQueue, [SimpleResponse(seen[i], true)], DispatchSpec.StaleResponses(seen[i + 1..], ids));
          SimpleIdResponse(seen[i], true);
        } else {
          assert [] + DispatchSpec.StaleResponses(seen[i + 1..], ids) == DispatchSpec.StaleResponses(seen[i + 1..], ids);
        }
      }
      assert seen[|seen|..] == [];
      allIds := [];
    }

    /** `handle_request`: one step of `Handle`. When it raises, nothing has
        changed. */
    method HandleRequest(r: Request, userFn: (nat, Message) -> Value) returns (status: Status)
      modifies this`commands, this`newestIds, this`responseQueue
      ensures status == StatusOf(Handle(old(Current()), r, userFn))
      ensures status.Pass? ==> Current() == Handle(old(Current()), r, userFn).value
      ensures status.Fail? ==> Current() == old(Current())
    {
      var command := CommandOf(r);
      if command !in newestIds {
        return Fail(KeyError);
      }
      var id := newestIds[command];
      if command == ADD_COMMAND {
        if "function" !in r.fields || "name" !in r.fields {
          return Fail(KeyError);
        }
        if !Hashable(r.fields["name"]) {
          return Fail(TypeError);
        }
        commands := Installed(commands, r.fields["name"], r.fields["function"]);
        responseQueue := responseQueue + [Response(id, true, Some(command), Some(VNone))];
        newestIds := newestIds[command := 0];
        return Pass;
      }
      var cancelled := false;
      var result: Value;
      if command !in commands {
        result := VNone;
        cancelled := true;
      } else {
        var f := commands[command];
        if !(f.VFunction? && f.h.UserFn?) {
          return Fail(TypeError);
        }
        result := userFn(f.h.key, r);
      }
      responseQueue := responseQueue + [Response(id, cancelled, Some(command), Some(result))];
      newestIds := newestIds[command := 0];
      return Pass;
    }

    /** `run_tasks` over the messages queued since the last pass: the state
        and the responses are exactly those of `RunPass`. */
    method RunTasks(inbox: seq<Message>, userFn: (nat, Message) -> Value) returns (status: Status)
      requires Valid()
      modifies this
      ensures status == StatusOf(RunPass(old(Snapshot()), inbox, userFn))
      ensures status.Pass? ==>
        var res := RunPass(old(Snapshot()), inbox, userFn).value;
        && Valid() && Snapshot() == res.slots
        && responseQueue == old(responseQueue) + res.out
    {
      if inbox == [] {
        return Pass;
      }
      ghost var s0 := Snapshot();
      ghost var q0 := responseQueue;
      status := DrainQueue(inbox);
      if status.Fail? {
        return;
      }
      ghost var p := Drain(s0, inbox).value;
      status := SettleTasks(userFn, p.slots);
      if status.Pass? {
        ghost var r := Settle(p.slots, userFn).value;
        DispatchSpec.ConcatAssoc(q0, p.out, r.out);
        SimpleAccounting.SettleEmpties(p.slots, userFn);
      }
    }

    /** The drain loop of `run_tasks`: `parse_line` on every queued
        message, stopping at the first that raises. */
    method DrainQueue(inbox: seq<Message>) returns (status: Status)
      requires Valid()
      modifies this`order, this`newestIds, this`newestRequests, this`allIds, this`responseQueue
      ensures status == StatusOf(Drain(old(Snapshot()), inbox))
      ensures status.Pass? ==>
        && Valid() && Snapshot() == Drain(old(Snapshot()), inbox).value.slots
        && responseQueue == old(responseQueue) + Drain(old(Snapshot()), inbox).value.out
    {
      ghost var s0 := Snapshot();
      status := Pass;
      var i := 0;
      while i < |inbox|
        invariant i <= |inbox|
        invariant Drain(s0, inbox[..i]).Ok?
        invariant Valid() && Snapshot() == Drain(s0, inbox[..i]).value.slots
        invariant responseQueue == old(responseQueue) + Drain(s0, inbox[..i]).value.out
        invariant status == Pass
      {
        assert inbox[..i + 1][..i] == inbox[..i];
        status := ParseLine(inbox[i]);
        if status.Fail? {
          DrainFailurePersists(s0, inbox, i + 1);
          return;
        }
        DispatchSpec.ConcatAssoc(old(responseQueue), Drain(s0, inbox[..i]).value.out,
                                 ParseStep(Drain(s0, inbox[..i]).value.slots, inbox[i]).value.out);
        i := i + 1;
      }
      assert inbox[..i] == inbox;
    }

    /** The rest of `run_tasks` after the drain: cancel the stale ids, then
        run every stored request in dict order. */
    method SettleTasks(userFn: (nat, Message) -> Value, ghost d: Slots) returns (status: Status)
      requires SlotsValid(d) && Snapshot() == d
      modifies this`commands, this`newestIds, this`newestRequests, this`allIds, this`responseQueue
      ensures status == StatusOf(Settle(d, userFn))
      ensures status.Pass? ==>
        var res := Settle(d, userFn).value;
        && Snapshot() == res.slots && responseQueue == old(responseQueue) + res.out
    {
      ghost var pending := Pending(d.order, d.newestRequests);
      ghost var stale := DispatchSpec.StaleResponses(d.allIds, IdsOf(pending));
      CancelAllIdsExceptNewest();
      ghost var e := Exec(d.commands, d.newestIds, d.newestRequests, []);
      ghost var q := responseQueue;
      ExecShift(e, pending, q, userFn);
      assert Current() == e.(out := q + e.out);
      status := ExecuteAll(userFn);
      SettleUnfold(d, userFn);
      if status.Pass? {
        ghost var x := ExecFrom(e, pending, userFn).value;
        assert Current() == x.(out := q + x.out);
        assert Snapshot() == Slots(x.commands, d.order, x.newestIds, x.newestRequests, []);
        DispatchSpec.ConcatAssoc(old(responseQueue), stale, x.out);
      }
    }

    /** The execute loop of `run_tasks`: over a snapshot of the slots in
        dict order, skip the empty ones and handle each stored request,
        then empty its slot; one step of `ExecFrom` per stored request. */
    method ExecuteAll(userFn: (nat, Message) -> Value) returns (status: Status)
      requires forall c :: c in order ==> c in newestRequests
      modifies this`commands, this`newestIds, this`newestRequests, this`responseQueue
      ensures status == StatusOf(ExecFrom(old(Current()), Pending(order, old(newestRequests)), userFn))
      ensures status.Pass? ==> Current() == ExecFrom(old(Current()), Pending(order, old(newestRequests)), userFn).value
    {
      ghost var reqs0 := newestRequests;
      var requests := seq(|order|, i requires 0 <= i < |order| && order[i] in newestRequests reads this => newestRequests[order[i]]);
      var j := 0;
      while j < |requests|
        invariant j <= |requests| == |order|
        invariant forall k :: 0 <= k < |order| ==> requests[k] == reqs0[order[k]]
        invariant ExecFrom(Current(), Pending(order[j..], reqs0), userFn)
          == ExecFrom(old(Current()), Pending(order, reqs0), userFn)
      {
        assert order[j..][1..] == order[j + 1..];
        ghost var rest := Pending(order[j + 1..], reqs0);
        var request := requests[j];
        if request.None? {
          assert Pending(order[j..], reqs0) == rest;
          j := j + 1;
          continue;
        }
        var r := request.value;
        assert Pending(order[j..], reqs0) == [r] + rest;
        ghost var before := Current();
        ExecFromHead(before, r, rest, userFn);
        status := HandleRequest(r, userFn);
        if status.Fail? {
          return;
        }
        newestRequests := newestRequests[CommandOf(r) := None];
        assert Current() == ExecStep(before, r, userFn).value;
        j := j + 1;
      }
      assert order[j..] == [];
      status := Pass;
    }
  }
}
