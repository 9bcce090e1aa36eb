/** The pass-level promise of the authoritative worker: every message drained
    in one `run_tasks` pass gets exactly one response, whether an immediate
    cancellation (not a request, or `add-command`), a stale-id cancellation,
    or an executed result. The ids of the pass are assumed distinct, as the
    client's id allocation makes them. */
module Accounting {
  import opened Messages
  import opened Scheduling
  import opened DispatchSpec

  /** The ids carried by the pending requests, in flatten order. */
  function PendingIds(b: Book): (ids: seq<int>)
    requires BookValid(b)
    ensures |ids| == |Flatten(b.order, b.newestRequests)|
  {
    IdsOf(Flatten(b.order, b.newestRequests))
  }

  /** Every pending request's id was seen this pass (as often as it is
      pending). */
  ghost predicate Covered(b: Book)
  {
    BookValid(b) && multiset(PendingIds(b)) <= multiset(b.allIds)
  }

  lemma {:induction false} DistinctNoRepeats(s: seq<int>)
    requires Distinct(s)
    ensures NoRepeats(s)
  {
    if s != [] {
      assert s == [s[0]] + s[1..];
      assert Distinct(s[1..]) by {
        forall i, j | 0 <= i < j < |s[1..]| ensures s[1..][i] != s[1..][j] {
          assert s[1..][i] == s[i + 1] && s[1..][j] == s[j + 1];
        }
      }
      DistinctNoRepeats(s[1..]);
      assert s[0] !in s[1..] by {
        forall i | 0 <= i < |s[1..]| ensures s[1..][i] != s[0] {
          assert s[1..][i] == s[i + 1];
        }
      }
    }
  }

  // Flatten over the dict order.

  lemma {:induction false} FlattenOutside(order: seq<string>, reqs: map<string, seq<Request>>, c: string, l: seq<Request>)
    requires forall d :: d in order ==> d in reqs
    requires c !in order
    ensures Flatten(order, reqs[c := l]) == Flatten(order, reqs)
  {
    if order != [] {
      FlattenOutside(order[1..], reqs, c, l);
    }
  }

  lemma {:induction false} FlattenAppend(order: seq<string>, reqs: map<string, seq<Request>>, c: string)
    requires forall d :: d in order ==> d in reqs
    requires c in reqs
    ensures Flatten(order + [c], reqs) == Flatten(order, reqs) + reqs[c]
  {
    if order == [] {
      assert [c][1..] == [];
      assert reqs[c] + [] == reqs[c];
    } else {
      assert (order + [c])[1..] == order[1..] + [c];
      FlattenAppend(order[1..], reqs, c);
      ConcatAssoc(reqs[order[0]], Flatten(order[1..], reqs), reqs[c]);
    }
  }

  lemma {:induction false} FlattenEmpty(order: seq<string>, reqs: map<string, seq<Request>>)
    requires forall d :: d in order ==> d in reqs && reqs[d] == []
    ensures Flatten(order, reqs) == []
  {
    if order != [] {
      FlattenEmpty(order[1..], reqs);
    }
  }

  /** Replacing the list of a command listed once in the order swaps its ids
      in the pending ids. */
  lemma {:induction false} FlattenUpdate(order: seq<string>, reqs: map<string, seq<Request>>, c: string, l: seq<Request>)
    requires forall d :: d in order ==> d in reqs
    requires Distinct(order) && c in order
    ensures multiset(IdsOf(Flatten(order, reqs[c := l]))) + multiset(IdsOf(reqs[c]))
      == multiset(IdsOf(Flatten(order, reqs))) + multiset(IdsOf(l))
  {
    var reqs' := reqs[c := l];
    var tail := order[1..];
    assert Distinct(tail) by {
      forall i, j | 0 <= i < j < |tail| ensures tail[i] != tail[j] {
        assert tail[i] == order[i + 1] && tail[j] == order[j + 1];
      }
    }
    if order[0] == c {
      assert c !in tail by {
        forall i | 0 <= i < |tail| ensures tail[i] != c {
          assert tail[i] == order[i + 1];
        }
      }
      FlattenOutside(tail, reqs, c, l);
      var t := multiset(IdsOf(Flatten(tail, reqs)));
      assert Flatten(order, reqs') == l + Flatten(tail, reqs);
      assert Flatten(order, reqs) == reqs[c] + Flatten(tail, reqs);
      IdsOfConcat(l, Flatten(tail, reqs));
      IdsOfConcat(reqs[c], Flatten(tail, reqs));
      MultisetSwap(multiset(IdsOf(l)), t, multiset(IdsOf(reqs[c])));
    } else {
      assert c in tail by {
        var k :| 0 <= k < |order| && order[k] == c;
        assert k > 0 && tail[k - 1] == c;
      }
      FlattenUpdate(tail, reqs, c, l);
      var h := reqs[order[0]];
      assert Flatten(order, reqs') == h + Flatten(tail, reqs');
      assert Flatten(order, reqs) == h + Flatten(tail, reqs);
      IdsOfConcat(h, Flatten(tail, reqs'));
      IdsOfConcat(h, Flatten(tail, reqs));
      MultisetShift(multiset(IdsOf(h)), multiset(IdsOf(Flatten(tail, reqs'))), multiset(IdsOf(reqs[c])),
                    multiset(IdsOf(Flatten(tail, reqs))), multiset(IdsOf(l)));
    }
  }

  lemma MultisetSwap<T>(a: multiset<T>, t: multiset<T>, b: multiset<T>)
    ensures (a + t) + b == (b + t) + a
  {
  }

  lemma MultisetShift<T>(h: multiset<T>, x: multiset<T>, r: multiset<T>, y: multiset<T>, l: multiset<T>)
    requires x + r == y + l
    ensures (h + x) + r == (h + y) + l
  {
    forall k ensures ((h + x) + r)[k] == ((h + y) + l)[k] {
      assert (x + r)[k] == (y + l)[k];
    }
  }

  // One parse step.

  /** Multiset bookkeeping of one update: what replaced a removed part no
      larger than itself stays within the bound. */
  lemma MultisetBound<T>(n: multiset<T>, r: multiset<T>, o: multiset<T>, k: multiset<T>, a: multiset<T>, e: multiset<T>)
    requires n + r == o + (k + e) && k <= r && o <= a
    ensures n <= a + e
  {
    forall x ensures n[x] <= (a + e)[x] {
      assert (n + r)[x] == (o + (k + e))[x];
    }
  }

  /** Emptying the list of a command listed in the order shrinks the pending
      ids. */
  lemma EmptyPending(order: seq<string>, reqs: map<string, seq<Request>>, c: string)
    requires forall d :: d in order ==> d in reqs
    requires Distinct(order) && c in order
    ensures multiset(IdsOf(Flatten(order, reqs[c := []]))) <= multiset(IdsOf(Flatten(order, reqs)))
  {
    FlattenUpdate(order, reqs, c, []);
    assert IdsOf([]) == [];
    var n := multiset(IdsOf(Flatten(order, reqs[c := []])));
    var r := multiset(IdsOf(reqs[c]));
    var o := multiset(IdsOf(Flatten(order, reqs)));
    assert n + r == o + (multiset{} + multiset{});
    MultisetBound(n, r, o, multiset{}, o, multiset{});
  }

  /** Registering a new name adds an empty list at the end of the order. */
  lemma RegisterNewPending(b: Book, name: string, e: Entry)
    requires BookValid(b) && name !in b.commands
    ensures BookValid(Register(b, name, e))
    ensures PendingIds(Register(b, name, e)) == PendingIds(b)
  {
    RegisterKeepsValid(b, name, e);
    var b' := Register(b, name, e);
    FlattenOutside(b.order, b.newestRequests, name, []);
    FlattenAppend(b.order, b'.newestRequests, name);
    assert Flatten(b'.order, b'.newestRequests) == Flatten(b.order, b.newestRequests) + [];
  }

  lemma RegisterCovered(b: Book, name: string, e: Entry)
    requires Covered(b)
    ensures Covered(Register(b, name, e))
  {
    if name in b.commands {
      RegisterKeepsValid(b, name, e);
      EmptyPending(b.order, b.newestRequests, name);
    } else {
      RegisterNewPending(b, name, e);
    }
  }

  lemma RecordCovered(b: Book, m: Request)
    requires Covered(b) && CommandOf(m) in b.commands
    ensures Covered(Record(b, m))
  {
    RecordKeepsValid(b, m);
    var b' := Record(b, m);
    var c := CommandOf(m);
    var keep := if b.commands[c].multiple then b.newestRequests[c] else [];
    var l := keep + [m];
    assert b'.newestRequests == b.newestRequests[c := l];
    FlattenUpdate(b.order, b.newestRequests, c, l);
    IdsOfConcat(keep, [m]);
    assert IdsOf([m]) == [m.id];
    var n := multiset(PendingIds(b'));
    var r := multiset(IdsOf(b.newestRequests[c]));
    var k := multiset(IdsOf(keep));
    assert n + r == multiset(PendingIds(b)) + (k + multiset{m.id});
    MultisetBound(n, r, multiset(PendingIds(b)), k, multiset(b.allIds), multiset{m.id});
    assert multiset(b'.allIds) == multiset(b.allIds) + multiset{m.id};
  }

  /** One `parse_line` answers the message's id at once or records it among
      the seen ids, and keeps the pending ids covered. */
  lemma ParseStepAccount(b: Book, m: Message)
    requires Covered(b)
    ensures ParseStep(b, m).Ok? ==>
      var q := ParseStep(b, m).value;
      && Covered(q.book)
      && multiset{m.id} + multiset(b.allIds) == multiset(ResponseIds(q.out)) + multiset(q.book.allIds)
  {
    if m.msgType == REQUEST && m.command.Some? && ParseStep(b, m).Ok? {
      var q := ParseStep(b, m).value;
      if m.command.value == ADD_COMMAND {
        RegisterCovered(b, m.fields["name"].s, m.fields["function"].e);
        assert ResponseIds(q.out) == [m.id];
      } else {
        RecordCovered(b, m);
        assert ResponseIds(q.out) == [];
      }
    } else if m.msgType != REQUEST {
      assert ResponseIds(ParseStep(b, m).value.out) == [m.id];
    }
  }

  /** The drain loop: each drained id is either answered or seen. */
  lemma {:induction false} DrainAccount(b: Book, msgs: seq<Message>)
    requires Covered(b)
    ensures DrainAll(b, msgs).Ok? ==>
      var p := DrainAll(b, msgs).value;
      && Covered(p.book)
      && multiset(IdsOf(msgs)) + multiset(b.allIds) == multiset(ResponseIds(p.out)) + multiset(p.book.allIds)
    decreases |msgs|
  {
    if msgs == [] {
      assert IdsOf(msgs) == [];
    } else if DrainAll(b, msgs).Ok? {
      var init := msgs[..|msgs| - 1];
      var m := msgs[|msgs| - 1];
      assert msgs == init + [m];
      IdsOfConcat(init, [m]);
      assert IdsOf([m]) == [m.id];
      DrainAccount(b, init);
      var p := DrainAll(b, init).value;
      ParseStepAccount(p.book, m);
      var q := ParseStep(p.book, m).value;
      assert DrainAll(b, msgs).value == Parsed(q.book, p.out + q.out);
      ResponseIdsConcat(p.out, q.out);
      MultisetChain(multiset(IdsOf(init)), multiset{m.id}, multiset(b.allIds), multiset(ResponseIds(p.out)),
                    multiset(p.book.allIds), multiset(ResponseIds(q.out)), multiset(q.book.allIds));
    }
  }

  lemma MultisetChain<T>(mi: multiset<T>, e: multiset<T>, ab: multiset<T>, rp: multiset<T>, ap: multiset<T>,
                         rq: multiset<T>, aq: multiset<T>)
    requires mi + ab == rp + ap && e + ap == rq + aq
    ensures (mi + e) + ab == (rp + rq) + aq
  {
    forall x ensures ((mi + e) + ab)[x] == ((rp + rq) + aq)[x] {
      assert (mi + ab)[x] == (rp + ap)[x];
      assert (e + ap)[x] == (rq + aq)[x];
    }
  }

  // Cancel and execute.

  lemma HeadMultiset(s: seq<int>)
    requires s != []
    ensures multiset(s) == multiset{s[0]} + multiset(s[1..])
  {
    assert s == [s[0]] + s[1..];
  }

  lemma {:induction false} StaleCount(allIds: seq<int>, accepted: seq<int>, x: int)
    ensures multiset(ResponseIds(StaleResponses(allIds, accepted)))[x]
      == if x in accepted then 0 else multiset(allIds)[x]
  {
    if allIds != [] {
      StaleCount(allIds[1..], accepted, x);
      StaleResponsesStep(allIds, accepted);
      HeadMultiset(allIds);
      var rest := StaleResponses(allIds[1..], accepted);
      if allIds[0] !in accepted {
        ResponseIdsConcat([SimpleResponse(allIds[0], true)], rest);
      }
    }
  }

  /** The cancellation answers exactly the seen ids that will not be
      executed: together with the accepted ids they make up the seen ids. */
  lemma StaleSplit(allIds: seq<int>, accepted: seq<int>)
    requires NoRepeats(allIds) && multiset(accepted) <= multiset(allIds)
    ensures multiset(ResponseIds(StaleResponses(allIds, accepted))) + multiset(accepted) == multiset(allIds)
  {
    forall x
      ensures multiset(ResponseIds(StaleResponses(allIds, accepted)))[x] + multiset(accepted)[x] == multiset(allIds)[x]
    {
      StaleCount(allIds, accepted, x);
    }
  }

  /** The ids of a list with one element in front. */
  lemma ConsIds(x: Request, t: seq<Request>)
    ensures multiset(IdsOf([x] + t)) == multiset{x.id} + multiset(IdsOf(t))
  {
    IdsOfConcat([x], t);
    assert IdsOf([x]) == [x.id];
  }

  /** The ids of a non-empty list: its head's, then the rest. */
  lemma HeadIds(s: seq<Request>)
    requires s != []
    ensures multiset(IdsOf(s)) == multiset{s[0].id} + multiset(IdsOf(s[1..]))
  {
    assert IdsOf(s) == [s[0].id] + IdsOf(s[1..]);
  }

  lemma {:induction false} InsertIds(r: Request, s: seq<Request>, priority: seq<string>)
    ensures multiset(IdsOf(InsertByKey(r, s, priority))) == multiset(IdsOf(s)) + multiset{r.id}
  {
    if s == [] {
      assert InsertByKey(r, s, priority) == [r];
      ConsIds(r, []);
      assert IdsOf(s) == [];
    } else if KeyLe(Key(r, priority), Key(s[0], priority)) {
      assert InsertByKey(r, s, priority) == [r] + s;
      ConsIds(r, s);
    } else {
      var t := InsertByKey(r, s[1..], priority);
      assert InsertByKey(r, s, priority) == [s[0]] + t;
      InsertIds(r, s[1..], priority);
      ConsIds(s[0], t);
      HeadIds(s);
    }
  }

  /** Sorting the schedule neither adds nor drops an id. */
  lemma {:induction false} SortIds(s: seq<Request>, priority: seq<string>)
    ensures multiset(IdsOf(SortByKey(s, priority))) == multiset(IdsOf(s))
  {
    if s == [] {
      assert SortByKey(s, priority) == [];
    } else {
      var t := SortByKey(s[1..], priority);
      assert SortByKey(s, priority) == InsertByKey(s[0], t, priority);
      SortIds(s[1..], priority);
      InsertIds(s[0], t, priority);
      HeadIds(s);
    }
  }

  /** Cancelling and executing answer each seen id once. */
  lemma SettleAccount(d: Book, files: map<string, string>, priority: seq<string>, substitutes: bool,
                      userFn: (nat, Message) -> Value)
    requires Covered(d) && NoRepeats(d.allIds)
    ensures Settle(d, files, priority, substitutes, userFn).Ok? ==>
      multiset(ResponseIds(Settle(d, files, priority, substitutes, userFn).value.out)) == multiset(d.allIds)
  {
    var sched := Schedule(d, priority);
    var a := AnswerAll(files, d.commands, sched, substitutes, userFn);
    if a.Ok? {
      var stale := StaleResponses(d.allIds, PendingIds(d));
      assert Settle(d, files, priority, substitutes, userFn).value.out == stale + a.value.out;
      ResponseIdsConcat(stale, a.value.out);
      assert ResponseIds(a.value.out) == IdsOf(sched);
      SortIds(Flatten(d.order, d.newestRequests), priority);
      StaleSplit(d.allIds, PendingIds(d));
    }
  }

  lemma SumBound<T>(a: multiset<T>, e: multiset<T>, r: multiset<T>, n: multiset<T>)
    requires a + e == r + n && e == multiset{}
    ensures n <= a
  {
    forall x ensures n[x] <= a[x] {
      assert (a + e)[x] == (r + n)[x];
    }
  }

  /** Exactly one response per drained message: a pass that starts between
      passes, on messages with distinct ids, answers each id once and no
      other id. */
  lemma ExactlyOneResponse(b: Book, files: map<string, string>, priority: seq<string>, substitutes: bool,
                           userFn: (nat, Message) -> Value, inbox: seq<Message>)
    requires BookValid(b) && Idle(b)
    requires Distinct(IdsOf(inbox))
    ensures RunPass(b, files, priority, substitutes, userFn, inbox).Ok? ==>
      multiset(ResponseIds(RunPass(b, files, priority, substitutes, userFn, inbox).value.out)) == multiset(IdsOf(inbox))
  {
    if inbox != [] && RunPass(b, files, priority, substitutes, userFn, inbox).Ok? {
      FlattenEmpty(b.order, b.newestRequests);
      assert Covered(b);
      DrainAccount(b, inbox);
      var p := DrainAll(b, inbox).value;
      DistinctNoRepeats(IdsOf(inbox));
      assert multiset(b.allIds) == multiset{};
      SumBound(multiset(IdsOf(inbox)), multiset(b.allIds), multiset(ResponseIds(p.out)), multiset(p.book.allIds));
      NoRepeatsWithin(p.book.allIds, IdsOf(inbox));
      SettleAccount(p.book, files, priority, substitutes, userFn);
      var r := Settle(p.book, files, priority, substitutes, userFn).value;
      ResponseIdsConcat(p.out, r.out);
    }
  }
}
