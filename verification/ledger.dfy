/** The authoritative client's correlation bookkeeping
    (`collegamento.client_server.client.Client`) as values: what
    `create_message_id`, `request`, `parse_response`, `check_responses`,
    `get_response` and `add_command` do to it, and how it meets the worker's
    answers. */
module LedgerSpec {
  import opened Messages
  import DispatchSpec

  /** The client's fields. `current_ids` holds two kinds of keys: a command
      maps to the id of its latest request (0 once answered), and for a
      command that allows several requests each outstanding id maps back to
      its command. A string key never equals an int key, so the two halves
      are two maps here. */
  datatype Ledger = Ledger(
    allIds: seq<int>,
    currentIds: map<string, int>,
    idCommands: map<int, string>,
    newestResponses: map<string, seq<Response>>,
    commands: map<string, Entry>)

  ghost predicate InRange(s: seq<int>, idMax: int)
  {
    forall x :: x in s ==> 1 <= x <= idMax
  }

  /** What construction sets up and every call keeps: one response buffer
      per command, and the outstanding ids distinct and within
      `[1, id_max]`. */
  ghost predicate LedgerValid(l: Ledger, idMax: int)
  {
    && l.newestResponses.Keys == l.commands.Keys
    && NoRepeats(l.allIds)
    && InRange(l.allIds, idMax)
  }

  /** The constructor's normalisation: a bare function becomes a
      single-request entry, a pair is kept, and every command gets an empty
      response buffer. */
  function Setup(specs: map<string, CommandSpec>): (l: Ledger)
    ensures l.commands.Keys == specs.Keys && l.newestResponses.Keys == specs.Keys
    ensures forall c :: c in specs && specs[c].Bare? ==> l.commands[c] == Entry(specs[c].fn, false)
    ensures forall c :: c in specs && specs[c].Pair? ==> l.commands[c] == specs[c].entry
    ensures forall c :: c in l.newestResponses ==> l.newestResponses[c] == []
    ensures l.allIds == [] && l.currentIds == map[] && l.idCommands == map[]
  {
    Ledger([], map[], map[], map c | c in specs :: [], map c | c in specs :: Normalise(specs[c]))
  }

  /** Taking the largest possible id out of a valid id list leaves a valid
      list one shorter, in a range one smaller. */
  lemma DropTop(s: seq<int>, n: int)
    requires NoRepeats(s) && InRange(s, n) && n in s
    ensures var r := RemoveFirst(s, n).value;
      && NoRepeats(r) && InRange(r, n - 1) && |r| + 1 == |s|
      && forall x :: x != n ==> (x in r <==> x in s)
  {
    var r := RemoveFirst(s, n).value;
    assert multiset(r) + multiset{n} == multiset(s);
    assert multiset(r)[n] == 0 by {
      assert (multiset(r) + multiset{n})[n] == multiset(s)[n];
    }
    assert multiset(r) <= multiset(s);
    NoRepeatsWithin(r, s);
    assert |r| == |s| - 1 by {
      assert |multiset(r)| + 1 == |multiset(s)|;
    }
    forall x
      ensures x != n ==> (x in r <==> x in s)
    {
      assert (multiset(r) + multiset{n})[x] == multiset(s)[x];
    }
  }

  /** Distinct ids in `[1, n]` number at most `n`. */
  lemma {:induction false} IdsBounded(s: seq<int>, n: int)
    requires NoRepeats(s) && InRange(s, n)
    ensures |s| <= if n < 0 then 0 else n
    decreases |s|, n
  {
    if s != [] {
      assert s[0] in s;
      assert 1 <= s[0] <= n;
      if n in s {
        DropTop(s, n);
        IdsBounded(RemoveFirst(s, n).value, n - 1);
      } else {
        IdsBounded(s, n - 1);
      }
    }
  }

  /** Pigeonhole: with fewer outstanding ids than `id_max`, some id in
      `[1, id_max]` is free, so the rejection loop of `create_message_id`
      can stop. */
  lemma {:induction false} FreeIdExists(s: seq<int>, n: int)
    requires NoRepeats(s) && InRange(s, n) && |s| < n
    ensures exists x :: 1 <= x <= n && x !in s
    decreases n
  {
    if n in s {
      DropTop(s, n);
      var r := RemoveFirst(s, n).value;
      FreeIdExists(r, n - 1);
      var x :| 1 <= x <= n - 1 && x !in r;
      assert x !in s;
    }
  }

  /** A free id in `[1, n]` leaves room for fewer than `n` distinct ids. */
  lemma {:induction false} FreeIdBound(s: seq<int>, n: int, x: int)
    requires NoRepeats(s) && InRange(s, n) && 1 <= x <= n && x !in s
    ensures |s| < n
    decreases n
  {
    if n in s {
      DropTop(s, n);
      FreeIdBound(RemoveFirst(s, n).value, n - 1, x);
    } else if x == n {
      IdsBounded(s, n - 1);
    } else {
      FreeIdBound(s, n - 1, x);
    }
  }

  /** The rejection loop of `create_message_id` can stop exactly when
      fewer than `id_max` ids are outstanding: otherwise every id in
      `[1, id_max]` is taken and it draws forever. */
  lemma FreeIdIff(s: seq<int>, n: int)
    requires NoRepeats(s) && InRange(s, n)
    ensures (exists x :: 1 <= x <= n && x !in s) <==> |s| < n
  {
    if |s| < n {
      FreeIdExists(s, n);
    } else if x :| 1 <= x <= n && x !in s {
      FreeIdBound(s, n, x);
    }
  }

  /** A fresh id keeps the outstanding ids distinct and in range. */
  lemma AppendFresh(s: seq<int>, idMax: int, id: int)
    requires NoRepeats(s) && InRange(s, idMax) && 1 <= id <= idMax && id !in s
    ensures NoRepeats(s + [id]) && InRange(s + [id], idMax)
  {
    assert multiset(s + [id]) == multiset(s) + multiset{id};
    forall x
      ensures multiset(s + [id])[x] <= 1
    {
      if x == id {
        assert multiset(s)[x] == 0;
      }
    }
  }

  // Sending.

  /** The message `request` puts on the queue: the envelope with the fresh
      id, updated with the caller's keyword arguments. */
  function RequestMessage(id: int, command: string, kwargs: map<string, Value>): (m: Message)
    ensures kwargs.Keys !! ENVELOPE ==> m == Message(id, REQUEST, Some(command), kwargs)
  {
    var base := Message(id, REQUEST, Some(command), map[]);
    if kwargs.Keys !! ENVELOPE then
      MergeKeepsEnvelope(base, kwargs);
      assert base.fields + kwargs == kwargs;
      Merge(base, kwargs)
    else Merge(base, kwargs)
  }

  /** The bookkeeping of `request` once the fresh `id` is allocated: the id
      is outstanding and is its command's latest, and a multi-request
      command can map it back to the command. */
  function Requested(l: Ledger, id: int, command: string): (l': Ledger)
    requires command in l.commands
  {
    l.(allIds := l.allIds + [id],
       currentIds := l.currentIds[command := id],
       idCommands := if l.commands[command].multiple then l.idCommands[id := command] else l.idCommands)
  }

  /** The `add-command` request: the name and the normalised pair. */
  function AddCommandMessage(id: int, name: string, e: Entry): Message
  {
    Message(id, REQUEST, Some(ADD_COMMAND), map["name" := VStr(name), "function" := VEntry(e)])
  }

  /** The bookkeeping of `add_command` once the fresh `id` is allocated: the
      entry is installed locally and the name gets an empty buffer (an
      existing buffer is emptied). */
  function Added(l: Ledger, id: int, name: string, e: Entry): Ledger
  {
    l.(allIds := l.allIds + [id], commands := l.commands[name := e], newestResponses := l.newestResponses[name := []])
  }

  // Receiving.

  datatype Outcome = Outcome(ledger: Ledger, status: Status)

  /** `parse_response`: release the id (ValueError if it is not
      outstanding); drop a commandless or `add-command` response; otherwise
      buffer the response under its command, mark the command answered, and
      for a multi-request command forget the id (KeyError if it was not
      mapped). A missing buffer or command entry raises KeyError. Effects
      made before a raise stay. The final comparison with `current_ids` in
      the source has no effect and is left out. */
  function Absorb(l: Ledger, res: Response): (o: Outcome)
    ensures o.ledger.commands == l.commands
    ensures o.ledger.newestResponses.Keys == l.newestResponses.Keys
    ensures res.id !in l.allIds ==> o == Outcome(l, Fail(ValueError))
    ensures res.id in l.allIds ==> multiset(o.ledger.allIds) + multiset{res.id} == multiset(l.allIds)
  {
    match RemoveFirst(l.allIds, res.id)
    case Raised(e) => Outcome(l, Fail(e))
    case Ok(rest) =>
      var l1 := l.(allIds := rest);
      if res.command.None? || res.command.value == ADD_COMMAND then Outcome(l1, Pass)
      else
        var c := res.command.value;
        if c !in l1.newestResponses then Outcome(l1, Fail(KeyError))
        else
          var l2 := l1.(newestResponses := l1.newestResponses[c := l1.newestResponses[c] + [res]],
                        currentIds := l1.currentIds[c := 0]);
          if c !in l2.commands then Outcome(l2, Fail(KeyError))
          else if !l2.commands[c].multiple then Outcome(l2, Pass)
          else if res.id !in l2.idCommands then Outcome(l2, Fail(KeyError))
          else Outcome(l2.(idCommands := l2.idCommands - {res.id}), Pass)
  }

  /** Whatever happens to a response, the bookkeeping stays valid, and an
      outstanding id is released for good. */
  lemma AbsorbKeepsValid(l: Ledger, idMax: int, res: Response)
    requires LedgerValid(l, idMax)
    ensures LedgerValid(Absorb(l, res).ledger, idMax)
    ensures res.id in l.allIds ==> res.id !in Absorb(l, res).ledger.allIds
  {
    if res.id in l.allIds {
      var n := Absorb(l, res).ledger.allIds;
      assert multiset(n) <= multiset(l.allIds);
      NoRepeatsWithin(n, l.allIds);
      assert (multiset(n) + multiset{res.id})[res.id] == multiset(l.allIds)[res.id];
      forall x | x in n
        ensures 1 <= x <= idMax
      {
        assert multiset(n)[x] > 0;
        assert x in l.allIds;
      }
    }
  }

  datatype Drained = Drained(ledger: Ledger, status: Status, unread: seq<Response>)

  /** `check_responses`: parse the queued responses in order until one
      raises; the responses after it stay queued. */
  function AbsorbAll(l: Ledger, rs: seq<Response>): (d: Drained)
    ensures d.status.Pass? ==> d.unread == []
    ensures d.ledger.commands == l.commands
    ensures d.ledger.newestResponses.Keys == l.newestResponses.Keys
    decreases |rs|
  {
    if rs == [] then Drained(l, Pass, [])
    else
      var o := Absorb(l, rs[0]);
      if o.status.Fail? then Drained(o.ledger, o.status, rs[1..])
      else AbsorbAll(o.ledger, rs[1..])
  }

  lemma {:induction false} AbsorbAllKeepsValid(l: Ledger, idMax: int, rs: seq<Response>)
    requires LedgerValid(l, idMax)
    ensures LedgerValid(AbsorbAll(l, rs).ledger, idMax)
    decreases |rs|
  {
    if rs != [] {
      AbsorbKeepsValid(l, idMax, rs[0]);
      AbsorbAllKeepsValid(Absorb(l, rs[0]).ledger, idMax, rs[1..]);
    }
  }

  /** Once every outstanding id has been answered exactly once and the
      answers are all read, no id is outstanding. */
  lemma {:induction false} AllReleased(l: Ledger, rs: seq<Response>)
    requires multiset(ResponseIds(rs)) == multiset(l.allIds)
    requires AbsorbAll(l, rs).status.Pass?
    ensures AbsorbAll(l, rs).ledger.allIds == []
    decreases |rs|
  {
    if rs == [] {
      assert |l.allIds| == |multiset(l.allIds)| == 0;
    } else {
      var id := rs[0].id;
      assert ResponseIds(rs) == [id] + ResponseIds(rs[1..]);
      var tail := multiset(ResponseIds(rs[1..]));
      assert multiset{id} + tail == multiset(l.allIds);
      assert id in l.allIds by {
        assert multiset(l.allIds)[id] >= 1;
      }
      var o := Absorb(l, rs[0]);
      MultisetCancel(tail, multiset(o.ledger.allIds), id, multiset(l.allIds));
      AllReleased(o.ledger, rs[1..]);
    }
  }

  lemma MultisetCancel<T>(a: multiset<T>, b: multiset<T>, x: T, m: multiset<T>)
    requires multiset{x} + a == m && b + multiset{x} == m
    ensures a == b
  {
    forall y ensures a[y] == b[y] {
      assert (multiset{x} + a)[y] == (b + multiset{x})[y];
    }
  }

  // Reading.

  /** What `get_response` returns: nothing, the single response of a
      single-request command, or the list of a multi-request one. */
  datatype Reply = NoReply | One(response: Response) | Many(responses: seq<Response>)

  /** The end of `get_response`: take the command's buffer and leave it
      empty. */
  function Take(l: Ledger, c: string): (t: (Ledger, Reply))
    requires c in l.newestResponses && c in l.commands
    ensures t.0 == l.(newestResponses := l.newestResponses[c := []])
    ensures t.1.NoReply? <==> l.newestResponses[c] == []
    ensures t.1.One? ==> !l.commands[c].multiple && t.1.response == l.newestResponses[c][0]
    ensures t.1.Many? ==> l.commands[c].multiple && t.1.responses == l.newestResponses[c]
  {
    var buffer := l.newestResponses[c];
    var l' := l.(newestResponses := l.newestResponses[c := []]);
    if |buffer| == 0 then (l', NoReply)
    else if !l.commands[c].multiple then (l', One(buffer[0]))
    else (l', Many(buffer))
  }

  /** A second read with nothing new in between finds nothing. */
  lemma TakeTwice(l: Ledger, c: string)
    requires c in l.newestResponses && c in l.commands
    ensures Take(Take(l, c).0, c).1 == NoReply
    ensures Take(Take(l, c).0, c).0 == Take(l, c).0
  {
  }

  // Round trips with the worker.

  lemma RemoveLast(s: seq<int>, x: int)
    requires x !in s
    ensures RemoveFirst(s + [x], x) == Ok(s)
  {
    RemoveFirstAt(s, [x], x);
    assert s + [x][1..] == s;
  }

  /** A request and its executed answer: the id is no longer outstanding,
      the answer sits at the end of its command's buffer, the command is
      marked answered, and a multi-request command forgets the id again. */
  lemma RequestAnswered(l: Ledger, id: int, command: string, cancelled: bool, result: Option<Value>)
    requires command in l.commands && command in l.newestResponses && command != ADD_COMMAND
    requires id !in l.allIds
    ensures var res := Response(id, cancelled, Some(command), result);
      var o := Absorb(Requested(l, id, command), res);
      && o.status == Pass
      && o.ledger.allIds == l.allIds
      && o.ledger.newestResponses == l.newestResponses[command := l.newestResponses[command] + [res]]
      && o.ledger.currentIds == l.currentIds[command := 0]
      && o.ledger.idCommands == (if l.commands[command].multiple then l.idCommands - {id} else l.idCommands)
  {
    var r := Requested(l, id, command);
    var res := Response(id, cancelled, Some(command), result);
    RemoveLast(l.allIds, id);
    assert r.newestResponses == l.newestResponses;
    assert r.currentIds[command := 0] == l.currentIds[command := 0];
    if l.commands[command].multiple {
      assert id in r.idCommands;
      AbsorbMulti(r, res, l.allIds);
      assert l.idCommands[id := command] - {id} == l.idCommands - {id};
    } else {
      AbsorbSingle(r, res, l.allIds);
    }
  }

  /** The worker answers `add-command` with a commandless cancellation,
      which only releases the id. */
  lemma AddCommandAnswered(l: Ledger, id: int, name: string, e: Entry)
    requires id !in l.allIds
    ensures Absorb(Added(l, id, name, e), SimpleResponse(id, true)) == Outcome(Added(l, id, name, e).(allIds := l.allIds), Pass)
  {
    RemoveLast(l.allIds, id);
  }

  /** The worker installs exactly the entry the client installed, empties
      the name's pending lists, and answers with one cancellation for the
      id. */
  lemma AddCommandAccepted(b: DispatchSpec.Book, id: int, name: string, e: Entry)
    requires DispatchSpec.BookValid(b)
    ensures DispatchSpec.ParseStep(b, AddCommandMessage(id, name, e))
      == Ok(DispatchSpec.Parsed(DispatchSpec.Register(b, name, e), [SimpleResponse(id, true)]))
  {
  }

  /** The doctest at the head of the client module: two requests to a
      multi-request command, both answered, read back as a two-element
      list in answer order. */
  lemma TwoRequestsTwoResponses(l: Ledger, c: string, id1: int, id2: int, r1: Option<Value>, r2: Option<Value>)
    requires c in l.commands && c in l.newestResponses && l.commands[c].multiple && c != ADD_COMMAND
    requires l.newestResponses[c] == [] && id1 != id2 && id1 !in l.allIds && id2 !in l.allIds
    ensures var a1 := Response(id1, false, Some(c), r1);
      var a2 := Response(id2, false, Some(c), r2);
      var sent := Requested(Requested(l, id1, c), id2, c);
      var got := AbsorbAll(sent, [a1, a2]);
      && got.status == Pass && got.ledger.allIds == l.allIds
      && Take(got.ledger, c).1 == Many([a1, a2])
  {
    var a1 := Response(id1, false, Some(c), r1);
    var a2 := Response(id2, false, Some(c), r2);
    var sent := Requested(Requested(l, id1, c), id2, c);
    assert sent.allIds == l.allIds + [id1, id2];
    RemoveFirstAt(l.allIds, [id1, id2], id1);
    assert [id1, id2][1..] == [id2];
    AbsorbMulti(sent, a1, l.allIds + [id2]);
    var o1 := Absorb(sent, a1).ledger;
    RemoveLast(l.allIds, id2);
    AbsorbMulti(o1, a2, l.allIds);
    var o2 := Absorb(o1, a2).ledger;
    AbsorbAllTwo(sent, a1, a2);
    assert o2.newestResponses[c] == ([] + [a1]) + [a2] == [a1, a2];
  }

  /** Reading two responses that both parse cleanly. */
  lemma AbsorbAllTwo(l: Ledger, a1: Response, a2: Response)
    requires Absorb(l, a1).status == Pass && Absorb(Absorb(l, a1).ledger, a2).status == Pass
    ensures AbsorbAll(l, [a1, a2]) == Drained(Absorb(Absorb(l, a1).ledger, a2).ledger, Pass, [])
  {
    var o1 := Absorb(l, a1);
    var o2 := Absorb(o1.ledger, a2);
    assert [a2][1..] == [];
    assert AbsorbAll(o1.ledger, [a2]) == AbsorbAll(o2.ledger, []);
    assert [a1, a2][1..] == [a2];
    assert AbsorbAll(l, [a1, a2]) == AbsorbAll(o1.ledger, [a2]);
  }

  /** An answer to an outstanding request of a multi-request command whose
      id is still mapped: it joins the buffer and the id is forgotten. */
  lemma AbsorbMulti(l: Ledger, res: Response, rest: seq<int>)
    requires RemoveFirst(l.allIds, res.id) == Ok(rest)
    requires res.command.Some? && res.command.value != ADD_COMMAND
    requires res.command.value in l.newestResponses && res.command.value in l.commands
    requires l.commands[res.command.value].multiple && res.id in l.idCommands
    ensures var c := res.command.value;
      Absorb(l, res) == Outcome(l.(allIds := rest,
                                    newestResponses := l.newestResponses[c := l.newestResponses[c] + [res]],
                                    currentIds := l.currentIds[c := 0],
                                    idCommands := l.idCommands - {res.id}), Pass)
  {
  }

  /** An answer to an outstanding request of a single-request command: it
      joins the buffer and the command is marked answered. */
  lemma AbsorbSingle(l: Ledger, res: Response, rest: seq<int>)
    requires RemoveFirst(l.allIds, res.id) == Ok(rest)
    requires res.command.Some? && res.command.value != ADD_COMMAND
    requires res.command.value in l.newestResponses && res.command.value in l.commands
    requires !l.commands[res.command.value].multiple
    ensures var c := res.command.value;
      Absorb(l, res) == Outcome(l.(allIds := rest,
                                    newestResponses := l.newestResponses[c := l.newestResponses[c] + [res]],
                                    currentIds := l.currentIds[c := 0]), Pass)
  {
  }

  /** Removing an id that first occurs right after `s` takes it out of that
      position. */
  lemma {:induction false} RemoveFirstAt(s: seq<int>, t: seq<int>, x: int)
    requires x !in s && t != [] && t[0] == x
    ensures RemoveFirst(s + t, x) == Ok(s + t[1..])
  {
    var u := s + t;
    if s == [] {
      assert u == t;
      assert u[0] == x;
      assert RemoveFirst(u, x) == Ok(u[1..]);
      assert s + t[1..] == t[1..];
    } else {
      assert u[0] == s[0] && u[0] != x;
      assert u[1..] == s[1..] + t;
      RemoveFirstAt(s[1..], t, x);
      assert RemoveFirst(u[1..], x) == Ok(s[1..] + t[1..]);
      assert RemoveFirst(u, x) == Ok([s[0]] + (s[1..] + t[1..]));
      assert [s[0]] + (s[1..] + t[1..]) == s + t[1..];
    }
  }
}
