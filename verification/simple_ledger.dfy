/** The one-slot client's correlation bookkeeping
    (`collegamento.simple_client_server.client.SimpleClient`) as values: what
    `request`, `parse_response`, `check_responses`, `get_response` and
    `add_command` do to it, and how it meets the one-slot worker's answers. */
module SimpleLedgerSpec {
  import opened Messages
  import LedgerSpec

  /** The client's fields: the outstanding ids, each command's latest
      request id (0 once answered), each command's newest useful answer, and
      the command table (whatever value the caller registered). */
  datatype SimpleLedger = SimpleLedger(
    allIds: seq<int>,
    currentIds: map<string, int>,
    newestResponses: map<string, Option<Response>>,
    commands: map<string, Value>)

  /** What every call keeps: the outstanding ids distinct and within
      `[1, id_max]`. */
  ghost predicate SimpleValid(l: SimpleLedger, idMax: int)
  {
    NoRepeats(l.allIds) && LedgerSpec.InRange(l.allIds, idMax)
  }

  /** Every registered command has an id slot and an answer slot, as
      construction sets them up. */
  ghost predicate Ready(l: SimpleLedger)
  {
    l.commands.Keys <= l.currentIds.Keys && l.commands.Keys <= l.newestResponses.Keys
  }

  /** `SimpleClient.__init__`: id 0 and no answer for every command. */
  function Setup(commands: map<string, Value>): (l: SimpleLedger)
    ensures Ready(l) && l.allIds == [] && l.commands == commands
    ensures forall c :: c in commands ==> l.currentIds[c] == 0 && l.newestResponses[c] == None
  {
    SimpleLedger([], map c | c in commands :: 0, map c | c in commands :: None, commands)
  }

  // Sending.

  /** The message `notify_server` puts on the queue. */
  function NotificationMessage(id: int, details: map<string, Value>): (m: Message)
    ensures details.Keys !! ENVELOPE ==> m == Message(id, NOTIFICATION, None, details)
  {
    var base := Message(id, NOTIFICATION, None, map[]);
    if details.Keys !! ENVELOPE then
      MergeKeepsEnvelope(base, details);
      assert base.fields + details == details;
      Merge(base, details)
    else Merge(base, details)
  }

  /** The message `request` puts on the queue: the envelope with the fresh
      id, updated with the caller's details (which name the command). */
  function RequestMessage(id: int, command: string, details: map<string, Value>): (m: Message)
    requires "command" in details && details["command"] == VStr(command)
    ensures m.command == Some(command) && m.fields.Keys == details.Keys - ENVELOPE
    ensures "id" !in details && "type" !in details ==> m.id == id && m.msgType == REQUEST
  {
    Merge(Message(id, REQUEST, Some(command), map[]), details)
  }

  /** The bookkeeping of `request` once the fresh `id` is allocated. */
  function Requested(l: SimpleLedger, id: int, command: string): SimpleLedger
  {
    l.(allIds := l.allIds + [id], currentIds := l.currentIds[command := id])
  }

  /** The `add-command` request: the name and the function as given. */
  function AddCommandMessage(id: int, name: string, f: Value): Message
  {
    Message(id, REQUEST, Some(ADD_COMMAND), map["name" := VStr(name), "function" := f])
  }

  /** The bookkeeping of `add_command` as written: the name joins the
      command table, and nothing else is set up for it. */
  function AddedAsWritten(l: SimpleLedger, id: int, name: string, f: Value): SimpleLedger
  {
    l.(allIds := l.allIds + [id], commands := l.commands[name := f])
  }

  /** The bookkeeping of `add_command` as construction would have set the
      name up: id 0 and an empty answer slot next to the table entry. */
  function Added(l: SimpleLedger, id: int, name: string, f: Value): (l': SimpleLedger)
    ensures Ready(l) ==> Ready(l')
    ensures name in l'.currentIds && name in l'.newestResponses
    ensures l'.currentIds[name] == 0 && l'.newestResponses[name] == None
  {
    l.(allIds := l.allIds + [id], commands := l.commands[name := f],
       currentIds := l.currentIds[name := 0], newestResponses := l.newestResponses[name := None])
  }

  // Receiving.

  datatype Outcome = Outcome(ledger: SimpleLedger, status: Status)

  /** `parse_response`: release the id (ValueError if it is not
      outstanding); drop a commandless or `add-command` response; KeyError
      for a command with no id slot; drop a response that is not to the
      command's latest request; otherwise mark the command answered and keep
      the response. Effects made before a raise stay. */
  function Absorb(l: SimpleLedger, res: Response): (o: Outcome)
    ensures o.ledger.commands == l.commands
    ensures res.id !in l.allIds ==> o == Outcome(l, Fail(ValueError))
    ensures res.id in l.allIds ==> multiset(o.ledger.allIds) + multiset{res.id} == multiset(l.allIds)
    ensures o.status.Pass? <==>
      res.id in l.allIds && (res.command.None? || res.command.value == ADD_COMMAND || res.command.value in l.currentIds)
    ensures Ready(l) ==> Ready(o.ledger)
  {
    match RemoveFirst(l.allIds, res.id)
    case Raised(e) => Outcome(l, Fail(e))
    case Ok(rest) =>
      var l1 := l.(allIds := rest);
      if res.command.None? || res.command.value == ADD_COMMAND then Outcome(l1, Pass)
      else
        var c := res.command.value;
        if c !in l1.currentIds then Outcome(l1, Fail(KeyError))
        else if res.id != l1.currentIds[c] then Outcome(l1, Pass)
        else Outcome(l1.(currentIds := l1.currentIds[c := 0], newestResponses := l1.newestResponses[c := Some(res)]), Pass)
  }

  /** Whatever happens to a response, the outstanding ids stay distinct and
      in range, and an outstanding id is released for good. */
  lemma AbsorbKeepsValid(l: SimpleLedger, idMax: int, res: Response)
    requires SimpleValid(l, idMax)
    ensures SimpleValid(Absorb(l, res).ledger, idMax)
    ensures res.id in l.allIds ==> res.id !in Absorb(l, res).ledger.allIds
  {
    if res.id in l.allIds {
      var n := Absorb(l, res).ledger.allIds;
      assert multiset(n) <= multiset(l.allIds);
      NoRepeatsWithin(n, l.allIds);
      assert (multiset(n) + multiset{res.id})[res.id] == multiset(l.allIds)[res.id];
      forall x | x in n
        ensures 1 <= x <= idMax
      {
        assert multiset(n)[x] > 0;
        assert x in l.allIds;
      }
    }
  }

  datatype Drained = Drained(ledger: SimpleLedger, status: Status, unread: seq<Response>)

  /** `check_responses`: parse the queued responses in order until one
      raises; the responses after it stay queued. */
  function AbsorbAll(l: SimpleLedger, rs: seq<Response>): (d: Drained)
    ensures d.status.Pass? ==> d.unread == []
    ensures d.ledger.commands == l.commands
    ensures Ready(l) ==> Ready(d.ledger)
    decreases |rs|
  {
    if rs == [] then Drained(l, Pass, [])
    else
      var o := Absorb(l, rs[0]);
      if o.status.Fail? then Drained(o.ledger, o.status, rs[1..])
      else AbsorbAll(o.ledger, rs[1..])
  }

  lemma {:induction false} AbsorbAllKeepsValid(l: SimpleLedger, idMax: int, rs: seq<Response>)
    requires SimpleValid(l, idMax)
    ensures SimpleValid(AbsorbAll(l, rs).ledger, idMax)
    decreases |rs|
  {
    if rs != [] {
      AbsorbKeepsValid(l, idMax, rs[0]);
      AbsorbAllKeepsValid(Absorb(l, rs[0]).ledger, idMax, rs[1..]);
    }
  }

  /** Once every outstanding id has been answered exactly once, as the
      one-slot worker does, and the answers are all read, no id is
      outstanding. */
  lemma {:induction false} AllReleased(l: SimpleLedger, rs: seq<Response>)
    requires multiset(ResponseIds(rs)) == multiset(l.allIds)
    requires AbsorbAll(l, rs).status.Pass?
    ensures AbsorbAll(l, rs).ledger.allIds == []
    decreases |rs|
  {
    if rs == [] {
      assert |l.allIds| == |multiset(l.allIds)| == 0;
    } else {
      var id := rs[0].id;
      assert ResponseIds(rs) == [id] + ResponseIds(rs[1..]);
      var tail := multiset(ResponseIds(rs[1..]));
      assert multiset{id} + tail == multiset(l.allIds);
      assert id in l.allIds by {
        assert multiset(l.allIds)[id] >= 1;
      }
      var o := Absorb(l, rs[0]);
      LedgerSpec.MultisetCancel(tail, multiset(o.ledger.allIds), id, multiset(l.allIds));
      AllReleased(o.ledger, rs[1..]);
    }
  }

  // Reading.

  /** The end of `get_response`: take the command's answer slot and leave
      it empty; KeyError when the command has no answer slot. */
  function Take(l: SimpleLedger, c: string): (r: Result<(SimpleLedger, Option<Response>)>)
    ensures r.Ok? <==> c in l.newestResponses
    ensures r.Ok? ==>
      r.value.0 == l.(newestResponses := l.newestResponses[c := None]) && r.value.1 == l.newestResponses[c]
  {
    if c !in l.newestResponses then Raised(KeyError)
    else Ok((l.(newestResponses := l.newestResponses[c := None]), l.newestResponses[c]))
  }

  /** A second read with nothing new in between finds nothing. */
  lemma TakeTwice(l: SimpleLedger, c: string)
    requires c in l.newestResponses
    ensures Take(Take(l, c).value.0, c) == Ok((Take(l, c).value.0, None))
  {
    var l1 := Take(l, c).value.0;
    assert l1.newestResponses[c := None] == l1.newestResponses;
  }

  // Round trips with the worker.

  /** The ledger once `res` has answered the command's latest request. */
  function Answered(l: SimpleLedger, command: string, res: Response): SimpleLedger
  {
    l.(currentIds := l.currentIds[command := 0], newestResponses := l.newestResponses[command := Some(res)])
  }

  /** A request and the worker's answer to it: the id is released and the
      command is marked answered with that answer. */
  lemma RequestAnswered(l: SimpleLedger, id: int, command: string, cancelled: bool, result: Option<Value>)
    requires command != ADD_COMMAND && id !in l.allIds
    ensures var res := Response(id, cancelled, Some(command), result);
      Absorb(Requested(l, id, command), res) == Outcome(Answered(l, command, res), Pass)
  {
    var res := Response(id, cancelled, Some(command), result);
    var sent := Requested(l, id, command);
    LedgerSpec.RemoveLast(l.allIds, id);
    assert RemoveFirst(sent.allIds, id) == Ok(l.allIds);
    assert command in sent.currentIds && sent.currentIds[command] == id;
    assert sent.currentIds[command := 0] == l.currentIds[command := 0];
  }

  /** The next read after an answer returns it, and empties the slot. */
  lemma AnswerRead(l: SimpleLedger, command: string, res: Response)
    ensures Take(Answered(l, command, res), command)
      == Ok((l.(currentIds := l.currentIds[command := 0], newestResponses := l.newestResponses[command := None]), Some(res)))
  {
    assert l.newestResponses[command := Some(res)][command := None] == l.newestResponses[command := None];
  }

  /** An answer to a request that a newer one for the same command has
      replaced is released and otherwise ignored. */
  lemma StaleDiscarded(l: SimpleLedger, id1: int, id2: int, command: string, cancelled: bool, result: Option<Value>)
    requires command != ADD_COMMAND && id1 != id2 && id1 !in l.allIds && id2 !in l.allIds
    ensures var res := Response(id1, cancelled, Some(command), result);
      Absorb(Requested(Requested(l, id1, command), id2, command), res)
        == Outcome(Requested(l, id2, command), Pass)
  {
    var sent := Requested(Requested(l, id1, command), id2, command);
    RequestedTwice(l, id1, id2, command);
    LedgerSpec.RemoveFirstAt(l.allIds, [id1, id2], id1);
    assert [id1, id2][1..] == [id2];
    assert RemoveFirst(sent.allIds, id1) == Ok(l.allIds + [id2]);
  }

  /** Two requests for one command leave the second id in its slot. */
  lemma RequestedTwice(l: SimpleLedger, id1: int, id2: int, command: string)
    ensures Requested(Requested(l, id1, command), id2, command)
      == Requested(l, id2, command).(allIds := l.allIds + [id1, id2])
  {
    assert l.currentIds[command := id1][command := id2] == l.currentIds[command := id2];
    assert l.allIds + [id1] + [id2] == l.allIds + [id1, id2];
  }

  /** The worker answers a notification at once without a command; that
      answer only releases the id. */
  lemma NotificationReleased(l: SimpleLedger, id: int)
    requires id !in l.allIds
    ensures Absorb(l.(allIds := l.allIds + [id]), SimpleResponse(id, false)) == Outcome(l, Pass)
  {
    LedgerSpec.RemoveLast(l.allIds, id);
  }

  /** The worker's answer to `add-command`, as its `handle_request` builds
      it, only releases the id. */
  lemma AddCommandReleased(l: SimpleLedger, id: int, name: string, f: Value)
    requires id !in l.allIds
    ensures Absorb(Added(l, id, name, f), Response(id, true, Some(ADD_COMMAND), Some(VNone)))
      == Outcome(Added(l, id, name, f).(allIds := l.allIds), Pass)
    ensures Absorb(AddedAsWritten(l, id, name, f), Response(id, true, Some(ADD_COMMAND), Some(VNone)))
      == Outcome(AddedAsWritten(l, id, name, f).(allIds := l.allIds), Pass)
  {
    LedgerSpec.RemoveLast(l.allIds, id);
  }

  /** As written, a command added after construction has no answer slot:
      once the registration is answered, reading the command raises
      KeyError instead of returning nothing. */
  lemma AddedNameUnreadable(l: SimpleLedger, id: int, name: string, f: Value)
    requires id !in l.allIds && name !in l.newestResponses
    ensures var a := Response(id, true, Some(ADD_COMMAND), Some(VNone));
      var d := AbsorbAll(AddedAsWritten(l, id, name, f), [a]);
      && d.status == Pass && name in d.ledger.commands
      && Take(d.ledger, name) == Raised(KeyError)
  {
    var a := Response(id, true, Some(ADD_COMMAND), Some(VNone));
    AddCommandReleased(l, id, name, f);
    assert AbsorbAll(AddedAsWritten(l, id, name, f), [a])
      == AbsorbAll(AddedAsWritten(l, id, name, f).(allIds := l.allIds), []);
  }

  /** With the slots set up, the same read returns nothing. */
  lemma AddedNameReadable(l: SimpleLedger, id: int, name: string, f: Value)
    requires id !in l.allIds
    ensures var a := Response(id, true, Some(ADD_COMMAND), Some(VNone));
      var d := AbsorbAll(Added(l, id, name, f), [a]);
      && d.status == Pass && name in d.ledger.commands
      && Take(d.ledger, name) == Ok((d.ledger, None))
  {
    var a := Response(id, true, Some(ADD_COMMAND), Some(VNone));
    AddCommandReleased(l, id, name, f);
    assert AbsorbAll(Added(l, id, name, f), [a])
      == AbsorbAll(Added(l, id, name, f).(allIds := l.allIds), []);
    var d := AbsorbAll(Added(l, id, name, f), [a]);
    assert d.ledger.newestResponses[name := None] == d.ledger.newestResponses;
  }
}
