/** The pass-level promises of the one-slot worker: every message drained in
    one `run_tasks` pass gets exactly one response, each command's slot
    ends the drain holding the newest request for it, and a pass that read
    anything leaves every slot empty again. */
module SimpleAccounting {
  import opened Messages
  import opened SimpleSpec
  import Accounting
  import DispatchSpec

  /** With every slot empty no id is pending. */
  lemma {:induction false} EmptySlotsPending(order: seq<string>, reqs: map<string, Option<Request>>)
    requires forall d :: d in order ==> d in reqs && reqs[d].None?
    ensures PendingSet(order, reqs) == multiset{}
    decreases |order|
  {
    if order != [] {
      EmptySlotsPending(order[1..], reqs);
    }
  }

  /** Each pending request sits in the slot of its own command. */
  lemma {:induction false} PendingSlots(order: seq<string>, reqs: map<string, Option<Request>>)
    requires forall d :: d in order ==> d in reqs
    requires forall d :: d in order && reqs[d].Some? ==> CommandOf(reqs[d].value) == d
    ensures forall i :: 0 <= i < |Pending(order, reqs)| ==>
      CommandOf(Pending(order, reqs)[i]) in order && reqs[CommandOf(Pending(order, reqs)[i])] == Some(Pending(order, reqs)[i])
    decreases |order|
  {
    if order != [] {
      PendingSlots(order[1..], reqs);
      var h := if reqs[order[0]].Some? then [reqs[order[0]].value] else [];
      var t := Pending(order[1..], reqs);
      assert Pending(order, reqs) == h + t;
      forall i | 0 <= i < |h + t|
        ensures CommandOf((h + t)[i]) in order && reqs[CommandOf((h + t)[i])] == Some((h + t)[i])
      {
        if i >= |h| {
          assert (h + t)[i] == t[i - |h|];
        }
      }
    }
  }

  /** The pending requests come from distinct slots, so their commands are
      distinct. */
  lemma {:induction false} PendingDistinct(order: seq<string>, reqs: map<string, Option<Request>>)
    requires Distinct(order) && forall d :: d in order ==> d in reqs
    requires forall d :: d in order && reqs[d].Some? ==> CommandOf(reqs[d].value) == d
    ensures forall i, j :: 0 <= i < j < |Pending(order, reqs)| ==>
      CommandOf(Pending(order, reqs)[i]) != CommandOf(Pending(order, reqs)[j])
    decreases |order|
  {
    if order != [] {
      DistinctTail(order);
      PendingDistinct(order[1..], reqs);
      PendingSlots(order[1..], reqs);
      var h := if reqs[order[0]].Some? then [reqs[order[0]].value] else [];
      var t := Pending(order[1..], reqs);
      assert Pending(order, reqs) == h + t;
      forall i, j | 0 <= i < j < |h + t| ensures CommandOf((h + t)[i]) != CommandOf((h + t)[j]) {
        assert (h + t)[j] == t[j - |h|];
        if i >= |h| {
          assert (h + t)[i] == t[i - |h|];
        } else {
          assert CommandOf(t[j - |h|]) in order[1..];
        }
      }
    }
  }

  /** A filled slot's request is among the pending requests. */
  lemma {:induction false} PendingHas(order: seq<string>, reqs: map<string, Option<Request>>, c: string)
    requires forall d :: d in order ==> d in reqs
    requires c in order && reqs[c].Some?
    ensures reqs[c].value in Pending(order, reqs)
    decreases |order|
  {
    if order[0] != c {
      PendingHas(order[1..], reqs, c);
    }
  }

  /** Valid slots are ready for the execute loop: the pending requests,
      their ids in `newest_ids`, and every other slot already empty. */
  lemma SettleKeyed(d: Slots)
    requires SlotsValid(d)
    ensures Keyed(Exec(d.commands, d.newestIds, d.newestRequests, []), Pending(d.order, d.newestRequests))
  {
    var pending := Pending(d.order, d.newestRequests);
    PendingSlots(d.order, d.newestRequests);
    PendingDistinct(d.order, d.newestRequests);
    forall c | c in d.newestRequests && c !in CommandsOf(pending)
      ensures d.newestRequests[c].None? && d.newestIds[c] == 0
    {
      if d.newestRequests[c].Some? {
        PendingHas(d.order, d.newestRequests, c);
      }
    }
  }

  lemma PartOfSum<T>(a: multiset<T>, b: multiset<T>, c: multiset<T>)
    requires a + b == c
    ensures b <= c
  {
    forall y ensures b[y] <= c[y] {
      assert (a + b)[y] == c[y];
    }
  }

  /** A pass over a non-empty queue is a drain followed by a settle. */
  lemma PassSplit(s: Slots, inbox: seq<Message>, userFn: (nat, Message) -> Value)
    requires SlotsValid(s) && inbox != [] && RunPass(s, inbox, userFn).Ok?
    ensures Drain(s, inbox).Ok? && Settle(Drain(s, inbox).value.slots, userFn).Ok?
    ensures RunPass(s, inbox, userFn).value == PassResult(Settle(Drain(s, inbox).value.slots, userFn).value.slots,
      Drain(s, inbox).value.out + Settle(Drain(s, inbox).value.slots, userFn).value.out)
  {
  }

  /** The cancel-and-execute step answers every seen id exactly once: the
      stale ones as cancelled, the pending ones with their results. */
  lemma SettleAccount(d: Slots, userFn: (nat, Message) -> Value)
    requires Covered(d) && NoRepeats(d.allIds) && Settle(d, userFn).Ok?
    ensures multiset(ResponseIds(Settle(d, userFn).value.out)) == multiset(d.allIds)
  {
    var pending := Pending(d.order, d.newestRequests);
    var e := Exec(d.commands, d.newestIds, d.newestRequests, []);
    var stale := DispatchSpec.StaleResponses(d.allIds, IdsOf(pending));
    PendingIds(d.order, d.newestRequests);
    Accounting.StaleSplit(d.allIds, IdsOf(pending));
    SettleKeyed(d);
    ExecAnswers(e, pending, userFn);
    var x := ExecFrom(e, pending, userFn).value;
    assert ResponseIds(x.out) == IdsOf(pending);
    ResponseIdsMultiset(stale, x.out);
  }

  /** Every message read in a pass from the idle state is answered exactly
      once, provided the client gave the messages distinct ids. */
  lemma PassExactlyOnce(s: Slots, inbox: seq<Message>, userFn: (nat, Message) -> Value)
    requires SlotsValid(s) && Idle(s) && Distinct(IdsOf(inbox)) && RunPass(s, inbox, userFn).Ok?
    ensures multiset(ResponseIds(RunPass(s, inbox, userFn).value.out)) == multiset(IdsOf(inbox))
  {
    if inbox == [] {
      assert IdsOf(inbox) == [];
    } else {
      EmptySlotsPending(s.order, s.newestRequests);
      DrainAccount(s, inbox);
      var p := Drain(s, inbox).value;
      var d := p.slots;
      assert multiset(s.allIds) == multiset{};
      PartOfSum(multiset(ResponseIds(p.out)), multiset(d.allIds), multiset(IdsOf(inbox)));
      Accounting.DistinctNoRepeats(IdsOf(inbox));
      NoRepeatsWithin(d.allIds, IdsOf(inbox));
      SettleAccount(d, userFn);
      var r := Settle(d, userFn).value;
      assert RunPass(s, inbox, userFn).value.out == p.out + r.out;
      ResponseIdsMultiset(p.out, r.out);
    }
  }

  /** After the execute loop every slot is empty again with id 0, and the
      slots and their order are those the drain left. */
  lemma SettleEmpties(d: Slots, userFn: (nat, Message) -> Value)
    requires SlotsValid(d) && Settle(d, userFn).Ok?
    ensures var t := Settle(d, userFn).value.slots;
      && SlotsValid(t) && Idle(t) && t.order == d.order && t.newestRequests.Keys == d.newestRequests.Keys
  {
    var e := Exec(d.commands, d.newestIds, d.newestRequests, []);
    SettleKeyed(d);
    ExecEmpties(e, Pending(d.order, d.newestRequests), userFn);
    var x := ExecFrom(e, Pending(d.order, d.newestRequests), userFn).value;
    var t := Slots(x.commands, d.order, x.newestIds, x.newestRequests, []);
    assert Settle(d, userFn).value.slots == t;
    assert forall c :: c in t.newestRequests ==> t.newestIds[c] == SlotId(t.newestRequests[c]);
  }

  /** A pass that read anything leaves the worker idle, so between passes
      no slot holds a request and no id is remembered. */
  lemma PassLeavesIdle(s: Slots, inbox: seq<Message>, userFn: (nat, Message) -> Value)
    requires SlotsValid(s) && inbox != [] && RunPass(s, inbox, userFn).Ok?
    ensures SlotsValid(RunPass(s, inbox, userFn).value.slots) && Idle(RunPass(s, inbox, userFn).value.slots)
    ensures s.newestRequests.Keys <= RunPass(s, inbox, userFn).value.slots.newestRequests.Keys
  {
    var d := Drain(s, inbox).value.slots;
    SettleEmpties(d, userFn);
    DrainKeepsSlots(s, inbox);
  }

  /** Draining never removes a slot. */
  lemma {:induction false} DrainKeepsSlots(s: Slots, msgs: seq<Message>)
    requires SlotsValid(s) && Drain(s, msgs).Ok?
    ensures s.newestRequests.Keys <= Drain(s, msgs).value.slots.newestRequests.Keys
    decreases |msgs|
  {
    if msgs != [] {
      DrainKeepsSlots(s, msgs[..|msgs| - 1]);
    }
  }

  // Newest request wins.

  predicate RequestFor(m: Message, c: string)
  {
    m.msgType == REQUEST && m.command == Some(c)
  }

  /** The last request for `c` in the queue, if there is one. */
  function Newest(msgs: seq<Message>, c: string): (o: Option<Request>)
    ensures o.Some? ==> RequestFor(o.value, c)
    decreases |msgs|
  {
    if msgs == [] then None
    else if RequestFor(msgs[|msgs| - 1], c) then Some(msgs[|msgs| - 1])
    else Newest(msgs[..|msgs| - 1], c)
  }

  /** A request for `c` with none after it is the newest one. */
  lemma {:induction false} NewestIsLast(msgs: seq<Message>, c: string, i: int)
    requires 0 <= i < |msgs| && RequestFor(msgs[i], c)
    requires forall j :: i < j < |msgs| ==> !RequestFor(msgs[j], c)
    ensures Newest(msgs, c) == Some(msgs[i])
    decreases |msgs|
  {
    if i < |msgs| - 1 {
      var init := msgs[..|msgs| - 1];
      assert forall j :: i < j < |init| ==> init[j] == msgs[j];
      NewestIsLast(init, c, i);
    }
  }

  /** The newest request for `c` sits in the queue with no request for `c`
      after it; with none, there is no request for `c` at all. */
  lemma {:induction false} NewestAt(msgs: seq<Message>, c: string) returns (i: int)
    ensures Newest(msgs, c).None? ==> forall j :: 0 <= j < |msgs| ==> !RequestFor(msgs[j], c)
    ensures Newest(msgs, c).Some? ==>
      && 0 <= i < |msgs| && msgs[i] == Newest(msgs, c).value
      && forall j :: i < j < |msgs| ==> !RequestFor(msgs[j], c)
    decreases |msgs|
  {
    if msgs == [] {
      return 0;
    }
    var init := msgs[..|msgs| - 1];
    if RequestFor(msgs[|msgs| - 1], c) {
      return |msgs| - 1;
    }
    i := NewestAt(init, c);
    assert forall j :: 0 <= j < |init| ==> init[j] == msgs[j];
  }

  /** After the drain each command's slot holds the newest request for it
      from the queue, or what it held before when the queue has none. */
  lemma {:induction false} DrainNewest(s: Slots, msgs: seq<Message>, c: string)
    requires SlotsValid(s) && Drain(s, msgs).Ok?
    ensures var d := Drain(s, msgs).value.slots;
      && (c in d.newestRequests <==> c in s.newestRequests || Newest(msgs, c).Some?)
      && (Newest(msgs, c).Some? ==> d.newestRequests[c] == Newest(msgs, c))
      && (Newest(msgs, c).None? && c in s.newestRequests ==> d.newestRequests[c] == s.newestRequests[c])
    decreases |msgs|
  {
    if msgs != [] {
      var init := msgs[..|msgs| - 1];
      var m := msgs[|msgs| - 1];
      DrainNewest(s, init, c);
      var p := Drain(s, init).value;
      ParseSlot(p.slots, m, c);
      assert Drain(s, msgs).value.slots == ParseStep(p.slots, m).value.slots;
    }
  }

  /** One parse touches only the slot of the request it stores. */
  lemma ParseSlot(s: Slots, m: Message, c: string)
    requires SlotsValid(s) && ParseStep(s, m).Ok?
    ensures var t := ParseStep(s, m).value.slots;
      && (c in t.newestRequests <==> c in s.newestRequests || RequestFor(m, c))
      && (RequestFor(m, c) ==> t.newestRequests[c] == Some(m))
      && (!RequestFor(m, c) && c in s.newestRequests ==> t.newestRequests[c] == s.newestRequests[c])
  {
  }

  /** Every request the drain reads has its id among the seen ids. */
  lemma {:induction false} DrainSeen(s: Slots, msgs: seq<Message>, i: int)
    requires SlotsValid(s) && Drain(s, msgs).Ok? && 0 <= i < |msgs| && msgs[i].msgType == REQUEST
    ensures msgs[i].id in Drain(s, msgs).value.slots.allIds
    decreases |msgs|
  {
    var init := msgs[..|msgs| - 1];
    if i < |msgs| - 1 {
      assert init[i] == msgs[i];
      DrainSeen(s, init, i);
    }
  }

  /** A request with a newer request for the same command later in the
      same pass never reaches the execute loop. */
  lemma NotPending(s: Slots, inbox: seq<Message>, i: int, j: int)
    requires SlotsValid(s) && Idle(s) && Distinct(IdsOf(inbox)) && Drain(s, inbox).Ok?
    requires 0 <= i < j < |inbox| && inbox[i].msgType == REQUEST && inbox[i].command.Some?
    requires RequestFor(inbox[j], inbox[i].command.value)
    ensures var d := Drain(s, inbox).value.slots;
      inbox[i].id !in IdsOf(Pending(d.order, d.newestRequests))
  {
    var c := inbox[i].command.value;
    var d := Drain(s, inbox).value.slots;
    var pending := Pending(d.order, d.newestRequests);
    PendingSlots(d.order, d.newestRequests);
    forall k | 0 <= k < |pending| ensures pending[k].id != inbox[i].id {
      var c' := CommandOf(pending[k]);
      DrainNewest(s, inbox, c');
      assert Newest(inbox, c').Some?;
      var i' := NewestAt(inbox, c');
      if c' == c {
        assert j <= i';
      } else {
        assert inbox[i'].command != inbox[i].command;
      }
      assert IdsOf(inbox)[i'] != IdsOf(inbox)[i];
    }
  }

  /** Only the newest request per command is run: an older one in the same
      pass is answered as cancelled, without a command or a result. */
  lemma Superseded(s: Slots, inbox: seq<Message>, userFn: (nat, Message) -> Value, i: int, j: int)
    requires SlotsValid(s) && Idle(s) && Distinct(IdsOf(inbox)) && RunPass(s, inbox, userFn).Ok?
    requires 0 <= i < j < |inbox| && inbox[i].msgType == REQUEST && inbox[i].command.Some?
    requires RequestFor(inbox[j], inbox[i].command.value)
    ensures SimpleResponse(inbox[i].id, true) in RunPass(s, inbox, userFn).value.out
  {
    PassSplit(s, inbox, userFn);
    var d := Drain(s, inbox).value.slots;
    DrainSeen(s, inbox, i);
    NotPending(s, inbox, i, j);
    SettleCancels(d, userFn, inbox[i].id);
  }

  /** The cancellation answers a seen id that no slot holds as cancelled. */
  lemma SettleCancels(d: Slots, userFn: (nat, Message) -> Value, id: int)
    requires SlotsValid(d) && Settle(d, userFn).Ok?
    requires id in d.allIds && id !in IdsOf(Pending(d.order, d.newestRequests))
    ensures SimpleResponse(id, true) in Settle(d, userFn).value.out
  {
    var pending := Pending(d.order, d.newestRequests);
    var stale := DispatchSpec.StaleResponses(d.allIds, IdsOf(pending));
    assert id in ResponseIds(stale);
    var k :| 0 <= k < |stale| && ResponseIds(stale)[k] == id;
    assert stale[k] == SimpleResponse(id, true);
    var x := ExecFrom(Exec(d.commands, d.newestIds, d.newestRequests, []), pending, userFn).value;
    assert Settle(d, userFn).value.out == stale + x.out;
  }
}
