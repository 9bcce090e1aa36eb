/** The order in which a pass executes pending requests: `command_sort_func`
    and the stable `sorted` call that uses it as key. */
module Scheduling {
  import opened Messages

  /** The key `(not in_priority_commands, command_index)`; False sorts before
      True, then indices ascend. */
  datatype SortKey = SortKey(notPriority: bool, index: nat)

  /** `command_sort_func`: a priority command gets `(False, its first index)`,
      any other command `(True, 0)`. */
  function CommandSortKey(command: string, priority: seq<string>): (k: SortKey)
    ensures k.notPriority <==> command !in priority
    ensures command in priority ==> k.index < |priority| && priority[k.index] == command && command !in priority[..k.index]
    ensures command !in priority ==> k.index == 0
  {
    if command in priority then SortKey(false, IndexOf(priority, command)) else SortKey(true, 0)
  }

  /** Python's tuple order on the key. */
  predicate KeyLe(a: SortKey, b: SortKey)
  {
    (!a.notPriority && b.notPriority) || (a.notPriority == b.notPriority && a.index <= b.index)
  }

  /** Every priority command sorts strictly before every other command, and
      two priority commands sort by their rank in the priority list. */
  lemma {:induction false} PriorityOrder(c: string, d: string, priority: seq<string>)
    ensures c in priority && d !in priority ==>
      KeyLe(CommandSortKey(c, priority), CommandSortKey(d, priority)) && !KeyLe(CommandSortKey(d, priority), CommandSortKey(c, priority))
    ensures c in priority && d in priority ==>
      (KeyLe(CommandSortKey(c, priority), CommandSortKey(d, priority)) <==> IndexOf(priority, c) <= IndexOf(priority, d))
    ensures c !in priority && d !in priority ==> CommandSortKey(c, priority) == CommandSortKey(d, priority)
  {
  }

  function Key(r: Request, priority: seq<string>): SortKey
  {
    CommandSortKey(CommandOf(r), priority)
  }

  /** Insert `r` in front of the first element whose key is not below its
      own: a later equal-key element stays behind `r`. */
  function InsertByKey(r: Request, s: seq<Request>, priority: seq<string>): (t: seq<Request>)
    ensures multiset(t) == multiset(s) + multiset{r}
    ensures |t| == |s| + 1
  {
    if s == [] then [r]
    else if KeyLe(Key(r, priority), Key(s[0], priority)) then [r] + s
    else
      assert s == [s[0]] + s[1..];
      [s[0]] + InsertByKey(r, s[1..], priority)
  }

  /** `sorted(requests, key=command_sort_func)`, a stable sort. */
  function SortByKey(s: seq<Request>, priority: seq<string>): (t: seq<Request>)
    ensures multiset(t) == multiset(s)
    ensures |t| == |s|
  {
    if s == [] then []
    else
      assert s == [s[0]] + s[1..];
      InsertByKey(s[0], SortByKey(s[1..], priority), priority)
  }

  ghost predicate SortedByKey(s: seq<Request>, priority: seq<string>)
  {
    forall i, j :: 0 <= i < j < |s| ==> KeyLe(Key(s[i], priority), Key(s[j], priority))
  }

  /** The sub-sequence of requests whose key is `k`. */
  function WithKey(s: seq<Request>, k: SortKey, priority: seq<string>): (t: seq<Request>)
    ensures forall x :: x in t ==> x in s && Key(x, priority) == k
  {
    if s == [] then []
    else if Key(s[0], priority) == k then [s[0]] + WithKey(s[1..], k, priority)
    else WithKey(s[1..], k, priority)
  }

  /** The sub-sequence of requests for command `c`. */
  function WithCommand(s: seq<Request>, c: string): (t: seq<Request>)
    ensures forall x :: x in t ==> x in s && CommandOf(x) == c
    ensures |t| <= |s|
  {
    if s == [] then []
    else if CommandOf(s[0]) == c then [s[0]] + WithCommand(s[1..], c)
    else WithCommand(s[1..], c)
  }

  lemma {:induction false} WithCommandConcat(a: seq<Request>, b: seq<Request>, c: string)
    ensures WithCommand(a + b, c) == WithCommand(a, c) + WithCommand(b, c)
  {
    if a != [] {
      assert (a + b)[1..] == a[1..] + b;
      WithCommandConcat(a[1..], b, c);
    } else {
      assert a + b == b;
    }
  }

  lemma {:induction false} WithCommandAll(s: seq<Request>, c: string)
    requires forall x :: x in s ==> CommandOf(x) == c
    ensures WithCommand(s, c) == s
  {
    if s != [] {
      WithCommandAll(s[1..], c);
    }
  }

  lemma {:induction false} WithCommandNone(s: seq<Request>, c: string)
    requires forall x :: x in s ==> CommandOf(x) != c
    ensures WithCommand(s, c) == []
  {
    if s != [] {
      WithCommandNone(s[1..], c);
    }
  }

  lemma {:induction false} InsertSorted(r: Request, s: seq<Request>, priority: seq<string>)
    requires SortedByKey(s, priority)
    ensures SortedByKey(InsertByKey(r, s, priority), priority)
  {
    if s == [] {
    } else if KeyLe(Key(r, priority), Key(s[0], priority)) {
      SortedCons(r, s, priority);
    } else {
      InsertSorted(r, s[1..], priority);
      var t := InsertByKey(r, s[1..], priority);
      assert multiset(t) == multiset(s[1..]) + multiset{r};
      forall j | 0 <= j < |t|
        ensures KeyLe(Key(s[0], priority), Key(t[j], priority))
      {
        assert t[j] in multiset(t);
        if t[j] != r {
          assert t[j] in s[1..];
          var m :| 0 <= m < |s[1..]| && s[1..][m] == t[j];
          assert s[m + 1] == t[j];
        }
      }
      SortedCons(s[0], t, priority);
    }
  }

  /** An element no greater than the head of a sorted sequence extends it. */
  lemma SortedCons(x: Request, t: seq<Request>, priority: seq<string>)
    requires SortedByKey(t, priority)
    requires forall j :: 0 <= j < |t| ==> KeyLe(Key(x, priority), Key(t[j], priority))
    ensures SortedByKey([x] + t, priority)
  {
    var u := [x] + t;
    forall i, j | 0 <= i < j < |u|
      ensures KeyLe(Key(u[i], priority), Key(u[j], priority))
    {
      assert u[j] == t[j - 1];
      if i > 0 {
        assert u[i] == t[i - 1];
      }
    }
  }

  /** The result of the sort is ordered by key: priority commands first, in
      rank order, then every other command. */
  lemma {:induction false} SortIsSorted(s: seq<Request>, priority: seq<string>)
    ensures SortedByKey(SortByKey(s, priority), priority)
  {
    if s != [] {
      SortIsSorted(s[1..], priority);
      InsertSorted(s[0], SortByKey(s[1..], priority), priority);
    }
  }

  lemma {:induction false} InsertWithKey(r: Request, s: seq<Request>, k: SortKey, priority: seq<string>)
    ensures WithKey(InsertByKey(r, s, priority), k, priority)
      == (if Key(r, priority) == k then [r] else []) + WithKey(s, k, priority)
  {
    if s != [] {
      if KeyLe(Key(r, priority), Key(s[0], priority)) {
        assert ([r] + s)[1..] == s;
      } else {
        InsertWithKey(r, s[1..], k, priority);
        assert ([s[0]] + InsertByKey(r, s[1..], priority))[1..] == InsertByKey(r, s[1..], priority);
      }
    }
  }

  /** Stability: among requests of equal key, the sort keeps arrival order. */
  lemma {:induction false} SortIsStable(s: seq<Request>, k: SortKey, priority: seq<string>)
    ensures WithKey(SortByKey(s, priority), k, priority) == WithKey(s, k, priority)
  {
    if s != [] {
      SortIsStable(s[1..], k, priority);
      InsertWithKey(s[0], SortByKey(s[1..], priority), k, priority);
    }
  }

  lemma {:induction false} InsertWithCommand(r: Request, s: seq<Request>, c: string, priority: seq<string>)
    ensures WithCommand(InsertByKey(r, s, priority), c)
      == (if CommandOf(r) == c then [r] else []) + WithCommand(s, c)
  {
    if s != [] {
      if KeyLe(Key(r, priority), Key(s[0], priority)) {
        assert ([r] + s)[1..] == s;
      } else {
        InsertWithCommand(r, s[1..], c, priority);
        assert ([s[0]] + InsertByKey(r, s[1..], priority))[1..] == InsertByKey(r, s[1..], priority);
      }
    }
  }

  /** The requests of one command leave the sort in the order they entered
      it (a command determines its key). */
  lemma {:induction false} SortKeepsCommandOrder(s: seq<Request>, c: string, priority: seq<string>)
    ensures WithCommand(SortByKey(s, priority), c) == WithCommand(s, c)
  {
    if s != [] {
      SortKeepsCommandOrder(s[1..], c, priority);
      InsertWithCommand(s[0], SortByKey(s[1..], priority), c, priority);
    }
  }
}
