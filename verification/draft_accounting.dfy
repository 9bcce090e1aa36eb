/** The pass-level promise of the draft worker: every message drained in one
    `run_tasks` pass gets exactly one response, whether an immediate
    cancellation (not a request), a stale-id cancellation or an executed
    result (registrations included). The ids of the pass are assumed
    distinct, as the client's id allocation makes them. */
module DraftAccounting {
  import opened Messages
  import opened Scheduling
  import D = DispatchSpec
  import A = Accounting
  import opened DraftSpec

  /** The ids carried by the pending requests, in dict order. */
  function PendingIds(b: D.Book): (ids: seq<int>)
    requires DraftValid(b)
    ensures |ids| == |D.Flatten(b.order, b.newestRequests)|
  {
    IdsOf(D.Flatten(b.order, b.newestRequests))
  }

  /** Every pending request's id was seen this pass. */
  ghost predicate Covered(b: D.Book)
  {
    DraftValid(b) && multiset(PendingIds(b)) <= multiset(b.allIds)
  }

  /** Recording a request for a command that already has lists swaps that
      command's list in the pending ids. */
  lemma RecordExisting(b: D.Book, m: Request)
    requires Covered(b) && CommandOf(m) in b.commands && CommandOf(m) in b.newestRequests
    ensures Covered(Record(b, m))
  {
    RecordKeepsValid(b, m);
    var b' := Record(b, m);
    var c := CommandOf(m);
    var keep := if b.commands[c].multiple then b.newestRequests[c] else [];
    var l := keep + [m];
    assert b'.newestRequests == b.newestRequests[c := l] && b'.order == b.order;
    A.FlattenUpdate(b.order, b.newestRequests, c, l);
    IdsOfConcat(keep, [m]);
    assert IdsOf([m]) == [m.id];
    var n := multiset(PendingIds(b'));
    var r := multiset(IdsOf(b.newestRequests[c]));
    var k := multiset(IdsOf(keep));
    assert n + r == multiset(PendingIds(b)) + (k + multiset{m.id});
    A.MultisetBound(n, r, multiset(PendingIds(b)), k, multiset(b.allIds), multiset{m.id});
    assert multiset(b'.allIds) == multiset(b.allIds) + multiset{m.id};
  }

  /** Recording the first request of a single-request command without
      lists appends its one-element list to the pending ids. */
  lemma RecordNew(b: D.Book, m: Request)
    requires Covered(b) && CommandOf(m) in b.commands && CommandOf(m) !in b.newestRequests
    requires !b.commands[CommandOf(m)].multiple
    ensures Covered(Record(b, m))
  {
    RecordKeepsValid(b, m);
    var b' := Record(b, m);
    var c := CommandOf(m);
    assert [] + [m] == [m];
    assert b'.newestRequests == b.newestRequests[c := [m]] && b'.order == b.order + [c];
    A.FlattenOutside(b.order, b.newestRequests, c, [m]);
    A.FlattenAppend(b.order, b'.newestRequests, c);
    assert D.Flatten(b'.order, b'.newestRequests) == D.Flatten(b.order, b.newestRequests) + [m];
    IdsOfConcat(D.Flatten(b.order, b.newestRequests), [m]);
    assert IdsOf([m]) == [m.id];
    assert multiset(PendingIds(b')) == multiset(PendingIds(b)) + multiset{m.id};
    assert multiset(b'.allIds) == multiset(b.allIds) + multiset{m.id};
  }

  /** One `parse_line` answers the message's id at once or records it among
      the seen ids, and keeps the pending ids covered. */
  lemma ParseStepAccount(b: D.Book, m: Message)
    requires Covered(b)
    ensures ParseStep(b, m).Ok? ==>
      var q := ParseStep(b, m).value;
      && Covered(q.book)
      && multiset{m.id} + multiset(b.allIds) == multiset(ResponseIds(q.out)) + multiset(q.book.allIds)
  {
    if m.msgType != REQUEST {
      assert ResponseIds(ParseStep(b, m).value.out) == [m.id];
    } else if ParseStep(b, m).Ok? {
      assert ParseStep(b, m).value == D.Parsed(Record(b, m), []);
      if m.command.value in b.newestRequests {
        RecordExisting(b, m);
      } else {
        RecordNew(b, m);
      }
      assert ResponseIds(ParseStep(b, m).value.out) == [];
    }
  }

  /** The drain loop: each drained id is either answered or seen. */
  lemma {:induction false} DrainAccount(b: D.Book, msgs: seq<Message>)
    requires Covered(b)
    ensures DrainAll(b, msgs).Ok? ==>
      var p := DrainAll(b, msgs).value;
      && Covered(p.book)
      && multiset(IdsOf(msgs)) + multiset(b.allIds) == multiset(ResponseIds(p.out)) + multiset(p.book.allIds)
    decreases |msgs|
  {
    if msgs == [] {
      assert IdsOf(msgs) == [];
    } else if DrainAll(b, msgs).Ok? {
      var init := msgs[..|msgs| - 1];
      var m := msgs[|msgs| - 1];
      assert msgs == init + [m];
      IdsOfConcat(init, [m]);
      assert IdsOf([m]) == [m.id];
      DrainAccount(b, init);
      var p := DrainAll(b, init).value;
      ParseStepAccount(p.book, m);
      var q := ParseStep(p.book, m).value;
      assert DrainAll(b, msgs).value == D.Parsed(q.book, p.out + q.out);
      ResponseIdsConcat(p.out, q.out);
      A.MultisetChain(multiset(IdsOf(init)), multiset{m.id}, multiset(b.allIds), multiset(ResponseIds(p.out)),
                      multiset(p.book.allIds), multiset(ResponseIds(q.out)), multiset(q.book.allIds));
    }
  }

  /** Cancelling and executing answer each seen id once. */
  lemma SettleAccount(d: D.Book, priority: seq<string>, userFn: (nat, Message) -> Value)
    requires Covered(d) && NoRepeats(d.allIds)
    ensures Settle(d, priority, userFn).Ok? ==>
      multiset(ResponseIds(Settle(d, priority, userFn).value.out)) == multiset(d.allIds)
  {
    var sched := Schedule(d, priority);
    var a := AnswerAll(d.commands, sched, userFn);
    if a.Ok? {
      var stale := D.StaleResponses(d.allIds, PendingIds(d));
      assert Settle(d, priority, userFn).value.out == stale + a.value.out;
      ResponseIdsConcat(stale, a.value.out);
      assert ResponseIds(a.value.out) == IdsOf(sched);
      A.SortIds(D.Flatten(d.order, d.newestRequests), priority);
      A.StaleSplit(d.allIds, PendingIds(d));
    }
  }

  /** Exactly one response per drained message: a pass that starts between
      passes, on messages with distinct ids, answers each id once and no
      other id. */
  lemma ExactlyOneResponse(b: D.Book, priority: seq<string>, userFn: (nat, Message) -> Value, inbox: seq<Message>)
    requires DraftValid(b) && D.Idle(b)
    requires Distinct(IdsOf(inbox))
    ensures RunPass(b, priority, userFn, inbox).Ok? ==>
      multiset(ResponseIds(RunPass(b, priority, userFn, inbox).value.out)) == multiset(IdsOf(inbox))
  {
    if inbox != [] && RunPass(b, priority, userFn, inbox).Ok? {
      A.FlattenEmpty(b.order, b.newestRequests);
      assert Covered(b);
      DrainAccount(b, inbox);
      var p := DrainAll(b, inbox).value;
      A.DistinctNoRepeats(IdsOf(inbox));
      assert multiset(b.allIds) == multiset{};
      A.SumBound(multiset(IdsOf(inbox)), multiset(b.allIds), multiset(ResponseIds(p.out)), multiset(p.book.allIds));
      NoRepeatsWithin(p.book.allIds, IdsOf(inbox));
      SettleAccount(p.book, priority, userFn);
      var r := Settle(p.book, priority, userFn).value;
      ResponseIdsConcat(p.out, r.out);
    }
  }
}
