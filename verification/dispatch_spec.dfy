/** The authoritative worker's bookkeeping as values: what one
    `parse_line`, the stale-id cancellation, one `handle_request` and a whole
    `run_tasks` pass do to it, and what they answer. */
module DispatchSpec {
  import opened Messages
  import opened Scheduling
  import FileTable

  /** The server's bookkeeping: the command table, the insertion order of the
      per-command dicts (dict iteration follows it), the pending ids and
      requests per command, and the ids seen this pass. */
  datatype Book = Book(
    commands: map<string, Entry>,
    order: seq<string>,
    newestIds: map<string, seq<int>>,
    newestRequests: map<string, seq<Request>>,
    allIds: seq<int>)

  /** What the constructor sets up and every step keeps: one pending list per
      command, id lists in lockstep with request lists, each request filed
      under its own command, and at most one pending request for a command
      that does not allow multiple requests. */
  ghost predicate BookValid(b: Book)
  {
    && OrderMatches(b.order, b.commands.Keys)
    && b.newestIds.Keys == b.commands.Keys
    && b.newestRequests.Keys == b.commands.Keys
    && Lockstep(b.newestIds, b.newestRequests)
    && Filed(b.newestRequests)
    && Bounded(b.commands, b.newestRequests)
  }

  /** The dict order lists every command once. */
  ghost predicate OrderMatches(order: seq<string>, keys: set<string>)
  {
    Distinct(order) && forall c :: c in order <==> c in keys
  }

  ghost predicate Lockstep(ids: map<string, seq<int>>, reqs: map<string, seq<Request>>)
  {
    forall c :: c in reqs && c in ids ==> ids[c] == IdsOf(reqs[c])
  }

  ghost predicate Filed(reqs: map<string, seq<Request>>)
  {
    forall c, r :: c in reqs && r in reqs[c] ==> CommandOf(r) == c
  }

  ghost predicate Bounded(commands: map<string, Entry>, reqs: map<string, seq<Request>>)
  {
    forall c :: c in commands && c in reqs && !commands[c].multiple ==> |reqs[c]| <= 1
  }

  /** Replacing one command's pending lists by a list of its own requests
      and their ids, within its bound, keeps the lists consistent. */
  lemma SetListsKeepsParts(commands: map<string, Entry>, ids: map<string, seq<int>>, reqs: map<string, seq<Request>>,
                           c: string, rs: seq<Request>)
    requires Lockstep(ids, reqs) && Filed(reqs) && Bounded(commands, reqs)
    requires forall r :: r in rs ==> CommandOf(r) == c
    requires c in commands && !commands[c].multiple ==> |rs| <= 1
    ensures Lockstep(ids[c := IdsOf(rs)], reqs[c := rs])
    ensures Filed(reqs[c := rs])
    ensures Bounded(commands, reqs[c := rs])
  {
  }

  /** Nothing pending and no id seen: the state between passes. */
  ghost predicate Idle(b: Book)
  {
    && b.allIds == []
    && (forall c :: c in b.newestRequests ==> b.newestRequests[c] == [])
    && (forall c :: c in b.newestIds ==> b.newestIds[c] == [])
  }

  /** One empty pending list per command. */
  function EmptyLists<T>(keys: set<string>): (m: map<string, seq<T>>)
    ensures m.Keys == keys && forall c :: c in m ==> m[c] == []
  {
    map c | c in keys :: []
  }

  /** The server constructor's setup (the polling loop left aside). */
  function Initial(commands: map<string, Entry>, order: seq<string>): (b: Book)
    requires Distinct(order) && forall c :: c in order <==> c in commands
    ensures BookValid(b) && Idle(b)
    ensures b.commands == commands && b.order == order
    ensures b.newestIds.Keys == commands.Keys && b.newestRequests.Keys == commands.Keys
  {
    Book(commands, order, EmptyLists(commands.Keys), EmptyLists(commands.Keys), [])
  }

  datatype Parsed = Parsed(book: Book, out: seq<Response>)

  /** The in-band registration: install the entry and give the name empty
      pending lists (a new name joins the end of the dict order). */
  function Register(b: Book, name: string, e: Entry): (b': Book)
    ensures b'.commands == b.commands[name := e]
    ensures b'.newestRequests == b.newestRequests[name := []] && b'.newestIds == b.newestIds[name := []]
    ensures b'.allIds == b.allIds
    ensures name !in b.commands ==> b'.order == b.order + [name]
    ensures name in b.commands ==> b'.order == b.order
  {
    Book(
      b.commands[name := e],
      if name in b.commands then b.order else b.order + [name],
      b.newestIds[name := []],
      b.newestRequests[name := []],
      b.allIds)
  }

  /** Registration keeps the bookkeeping consistent; a new name is appended
      to the dict order exactly once. */
  lemma RegisterKeepsValid(b: Book, name: string, e: Entry)
    requires BookValid(b)
    ensures BookValid(Register(b, name, e))
  {
    RegisterKeepsOrder(b.order, b.commands.Keys, name);
    ClearKeepsParts(b.commands, b.newestIds, b.newestRequests, name, e);
    UpdateAddsKey(b.commands, name, e);
    UpdateAddsKey(b.newestIds, name, []);
    UpdateAddsKey(b.newestRequests, name, []);
    var b' := Register(b, name, e);
    assert b'.newestIds.Keys == b'.commands.Keys;
    assert b'.newestRequests.Keys == b'.commands.Keys;
    assert OrderMatches(b'.order, b'.commands.Keys);
    assert Lockstep(b'.newestIds, b'.newestRequests);
    assert Filed(b'.newestRequests);
    assert Bounded(b'.commands, b'.newestRequests);
  }

  /** A name joins the dict order only when it is new, so the order still
      lists every key once. */
  lemma RegisterKeepsOrder(order: seq<string>, keys: set<string>, name: string)
    requires OrderMatches(order, keys)
    ensures OrderMatches(if name in keys then order else order + [name], keys + {name})
  {
    if name !in keys {
      var order' := order + [name];
      forall i | 0 <= i < |order| ensures order'[i] != name {
        assert order'[i] == order[i] && order[i] in order;
      }
    }
  }

  /** Installing an entry with empty pending lists keeps the lists
      consistent. */
  lemma ClearKeepsParts(commands: map<string, Entry>, ids: map<string, seq<int>>, reqs: map<string, seq<Request>>,
                        name: string, e: Entry)
    requires Lockstep(ids, reqs) && Filed(reqs) && Bounded(commands, reqs)
    ensures Lockstep(ids[name := []], reqs[name := []])
    ensures Filed(reqs[name := []])
    ensures Bounded(commands[name := e], reqs[name := []])
  {
  }

  /** `Server.parse_line`. A message that is not a request is answered with a
      cancelled response; `add-command` is applied at once and answered the
      same way; any other request is recorded, replacing the pending request
      of a single-request command or joining those of a multi-request one.
      An unregistered command raises KeyError. */
  function ParseStep(b: Book, m: Message): (r: Result<Parsed>)
    requires BookValid(b)
    ensures r.Ok? ==> BookValid(r.value.book)
    ensures r.Ok? ==> r.value.book.commands.Keys >= b.commands.Keys
  {
    if m.msgType != REQUEST then Ok(Parsed(b, [SimpleResponse(m.id, true)]))
    else if m.command.None? then Raised(KeyError)
    else if m.command.value == ADD_COMMAND then AddCommandStep(b, m)
    else RecordStep(b, m)
  }

  /** The `add-command` branch: the name must be a string and the entry a
      normalised pair; the registration is answered with a cancelled
      response. */
  function AddCommandStep(b: Book, m: Message): (r: Result<Parsed>)
    requires BookValid(b)
    ensures r.Ok? ==> BookValid(r.value.book)
    ensures r.Ok? ==> r.value.book.commands.Keys >= b.commands.Keys
  {
    if "name" !in m.fields then Raised(KeyError)
    else if !m.fields["name"].VStr? then Raised(TypeError)
    else if "function" !in m.fields then Raised(KeyError)
    else if !m.fields["function"].VEntry? then Raised(TypeError)
    else
      RegisterKeepsValid(b, m.fields["name"].s, m.fields["function"].e);
      Ok(Parsed(Register(b, m.fields["name"].s, m.fields["function"].e), [SimpleResponse(m.id, true)]))
  }

  /** Any other request: KeyError for an unregistered command, otherwise it
      is recorded and nothing is answered yet. */
  function RecordStep(b: Book, m: Request): (r: Result<Parsed>)
    requires BookValid(b)
    ensures r.Ok? ==> BookValid(r.value.book)
    ensures r.Ok? ==> r.value.book.commands == b.commands
  {
    if CommandOf(m) !in b.commands then Raised(KeyError)
    else
      RecordKeepsValid(b, m);
      Ok(Parsed(Record(b, m), []))
  }

  /** An ordinary request for a registered command joins the seen ids and
      its command's pending lists, after emptying them when the command
      allows a single request. */
  function Record(b: Book, m: Request): (b': Book)
    requires CommandOf(m) in b.commands && CommandOf(m) in b.newestIds && CommandOf(m) in b.newestRequests
    ensures b'.commands == b.commands && b'.order == b.order
    ensures b'.allIds == b.allIds + [m.id]
  {
    var c := CommandOf(m);
    var keep := b.commands[c].multiple;
    b.(allIds := b.allIds + [m.id],
       newestIds := b.newestIds[c := (if keep then b.newestIds[c] else []) + [m.id]],
       newestRequests := b.newestRequests[c := (if keep then b.newestRequests[c] else []) + [m]])
  }

  /** The recorded command's own lists stay in lockstep and hold only its
      requests, at most one unless it allows several. */
  lemma RecordedList(b: Book, m: Request)
    requires BookValid(b) && CommandOf(m) in b.commands
    ensures var c := CommandOf(m);
      var b' := Record(b, m);
      && b'.newestIds[c] == IdsOf(b'.newestRequests[c])
      && (forall x :: x in b'.newestRequests[c] ==> CommandOf(x) == c)
      && (!b.commands[c].multiple ==> |b'.newestRequests[c]| == 1)
  {
    var c := CommandOf(m);
    var old' := if b.commands[c].multiple then b.newestRequests[c] else [];
    assert Record(b, m).newestRequests[c] == old' + [m];
    IdsOfConcat(old', [m]);
  }

  lemma RecordKeepsValid(b: Book, m: Request)
    requires BookValid(b) && CommandOf(m) in b.commands
    ensures BookValid(Record(b, m))
  {
    var c := CommandOf(m);
    var old' := if b.commands[c].multiple then b.newestRequests[c] else [];
    var rs := old' + [m];
    assert Record(b, m).newestIds[c] == IdsOf(rs) by {
      IdsOfConcat(old', [m]);
      assert IdsOf([m]) == [m.id];
    }
    assert Record(b, m) == Book(b.commands, b.order, b.newestIds[c := IdsOf(rs)], b.newestRequests[c := rs], b.allIds + [m.id]);
    assert forall x :: x in rs ==> x in old' || x == m;
    SetListsKeepsValid(b, c, rs, b.allIds + [m.id]);
  }

  /** Replacing one command's pending lists by a bounded list of its own
      requests (and their ids) keeps the bookkeeping consistent, whatever
      the seen ids. */
  lemma SetListsKeepsValid(b: Book, c: string, rs: seq<Request>, seen: seq<int>)
    requires BookValid(b) && c in b.commands
    requires forall r :: r in rs ==> CommandOf(r) == c
    requires !b.commands[c].multiple ==> |rs| <= 1
    ensures BookValid(Book(b.commands, b.order, b.newestIds[c := IdsOf(rs)], b.newestRequests[c := rs], seen))
  {
    SetListsKeepsParts(b.commands, b.newestIds, b.newestRequests, c, rs);
    UpdateKeepsKeys(b.newestIds, c, IdsOf(rs));
    UpdateKeepsKeys(b.newestRequests, c, rs);
    var b' := Book(b.commands, b.order, b.newestIds[c := IdsOf(rs)], b.newestRequests[c := rs], seen);
    assert b'.newestIds.Keys == b'.commands.Keys;
    assert b'.newestRequests.Keys == b'.commands.Keys;
    assert OrderMatches(b'.order, b'.commands.Keys);
    assert Lockstep(b'.newestIds, b'.newestRequests);
    assert Filed(b'.newestRequests);
    assert Bounded(b'.commands, b'.newestRequests);
  }

  lemma UpdateKeepsKeys<V>(m: map<string, V>, k: string, v: V)
    requires k in m
    ensures m[k := v].Keys == m.Keys
  {
  }

  lemma UpdateAddsKey<V>(m: map<string, V>, k: string, v: V)
    ensures m[k := v].Keys == m.Keys + {k}
  {
  }

  /** The drain loop: `parse_line` on every queued message, in order. */
  function DrainAll(b: Book, msgs: seq<Message>): (r: Result<Parsed>)
    requires BookValid(b)
    ensures r.Ok? ==> BookValid(r.value.book)
    decreases |msgs|
  {
    if msgs == [] then Ok(Parsed(b, []))
    else match DrainAll(b, msgs[..|msgs| - 1])
      case Raised(e) => Raised(e)
      case Ok(p) =>
        match ParseStep(p.book, msgs[|msgs| - 1])
        case Raised(e) => Raised(e)
        case Ok(q) => Ok(Parsed(q.book, p.out + q.out))
  }

  /** Every pending request, command by command in dict order. */
  function Flatten(order: seq<string>, reqs: map<string, seq<Request>>): (s: seq<Request>)
    requires forall c :: c in order ==> c in reqs
  {
    if order == [] then [] else reqs[order[0]] + Flatten(order[1..], reqs)
  }

  /** `cancel_old_ids`: one cancelled, commandless response for each seen id
      that no pending request carries, in the order the ids were seen. */
  function StaleResponses(allIds: seq<int>, accepted: seq<int>): (out: seq<Response>)
    ensures forall x :: x in ResponseIds(out) <==> x in allIds && x !in accepted
    ensures forall i :: 0 <= i < |out| ==> out[i].cancelled && out[i].command.None? && out[i].result.None?
    ensures |out| <= |allIds|
  {
    if allIds == [] then []
    else
      var rest := StaleResponses(allIds[1..], accepted);
      assert forall x :: x in allIds <==> x == allIds[0] || x in allIds[1..];
      ResponseIdsConcat([SimpleResponse(allIds[0], true)], rest);
      if allIds[0] in accepted then rest else [SimpleResponse(allIds[0], true)] + rest
  }

  /** The response `Server.handle_request` emits for `r` and the file table
      afterwards. The file variant first substitutes the stored contents for
      a named file. A known command runs its handler; an unknown one is
      answered as cancelled with result None. The built-in `update_files`
      is annotated to take a `FileServer`, so on the base worker, which has
      no file table, the call is refused with TypeError. */
  function Answer(files: map<string, string>, commands: map<string, Entry>, r: Request,
                  substitutes: bool, userFn: (nat, Message) -> Value): (res: Result<(map<string, string>, Response)>)
    ensures res.Ok? ==> res.value.1.id == r.id && res.value.1.command == Some(CommandOf(r))
    ensures res.Ok? ==> (res.value.1.cancelled <==> CommandOf(r) !in commands)
    ensures res.Ok? ==> res.value.1.result.Some?
    ensures CommandOf(r) !in commands && !substitutes ==> res == Ok((files, Response(r.id, true, Some(CommandOf(r)), Some(VNone))))
    ensures !substitutes && CommandOf(r) in commands && commands[CommandOf(r)].handler.UserFn? ==>
      res == Ok((files, Response(r.id, false, Some(CommandOf(r)), Some(userFn(commands[CommandOf(r)].handler.key, r)))))
    ensures !substitutes && CommandOf(r) in commands && commands[CommandOf(r)].handler.UpdateFiles? ==> res == Raised(TypeError)
    ensures res.Ok? && res.value.0 != files ==> substitutes
  {
    var sub := if substitutes then FileTable.Substitute(files, r) else Ok(r);
    match sub
    case Raised(e) => Raised(e)
    case Ok(r') =>
      var c := CommandOf(r);
      if c !in commands then Ok((files, Response(r.id, true, Some(c), Some(VNone))))
      else match commands[c].handler
        case UserFn(k) => Ok((files, Response(r.id, false, Some(c), Some(userFn(k, r')))))
        case UpdateFiles =>
          if !substitutes then Raised(TypeError)
          else match FileTable.UpdateFiles(files, r')
            case Raised(e) => Raised(e)
            case Ok(files') => Ok((files', Response(r.id, false, Some(c), Some(VNone))))
  }

  datatype Executed = Executed(files: map<string, string>, out: seq<Response>)

  /** The execute loop: answer the scheduled requests one after the other,
      each seeing the file table the previous ones left. */
  function AnswerAll(files: map<string, string>, commands: map<string, Entry>, rs: seq<Request>,
                     substitutes: bool, userFn: (nat, Message) -> Value): (res: Result<Executed>)
    ensures res.Ok? ==> |res.value.out| == |rs|
    ensures res.Ok? ==> forall i :: 0 <= i < |rs| ==>
      res.value.out[i].id == rs[i].id && res.value.out[i].command == Some(CommandOf(rs[i]))
    decreases |rs|
  {
    if rs == [] then Ok(Executed(files, []))
    else match Answer(files, commands, rs[0], substitutes, userFn)
      case Raised(e) => Raised(e)
      case Ok(pair) =>
        match AnswerAll(pair.0, commands, rs[1..], substitutes, userFn)
        case Raised(e) => Raised(e)
        case Ok(x) => Ok(Executed(x.files, [pair.1] + x.out))
  }

  /** The bookkeeping after a pass: every pending list empty, no id seen. */
  function Cleared(b: Book): (b': Book)
    requires BookValid(b)
    ensures BookValid(b') && Idle(b')
    ensures b'.commands == b.commands && b'.order == b.order
    ensures b'.newestIds.Keys == b.newestIds.Keys && b'.newestRequests.Keys == b.newestRequests.Keys
  {
    Book(b.commands, b.order, EmptyLists(b.commands.Keys), EmptyLists(b.commands.Keys), [])
  }

  /** The execution order of a pass: the pending requests sorted stably by
      `command_sort_func`. */
  function Schedule(b: Book, priority: seq<string>): (s: seq<Request>)
    requires BookValid(b)
  {
    SortByKey(Flatten(b.order, b.newestRequests), priority)
  }

  datatype PassResult = PassResult(book: Book, files: map<string, string>, out: seq<Response>)

  /** What follows the drain in `run_tasks`: cancel the stale ids, then
      execute the schedule. Every pending list ends empty. */
  function Settle(d: Book, files: map<string, string>, priority: seq<string>, substitutes: bool,
                  userFn: (nat, Message) -> Value): (res: Result<PassResult>)
    requires BookValid(d)
    ensures res.Ok? ==> BookValid(res.value.book) && Idle(res.value.book)
    ensures res.Ok? ==> res.value.book.commands == d.commands && res.value.book.order == d.order
    ensures res.Raised? <==> AnswerAll(files, d.commands, Schedule(d, priority), substitutes, userFn).Raised?
  {
    var stale := StaleResponses(d.allIds, IdsOf(Flatten(d.order, d.newestRequests)));
    match AnswerAll(files, d.commands, Schedule(d, priority), substitutes, userFn)
    case Raised(e) => Raised(e)
    case Ok(x) => Ok(PassResult(Cleared(d), x.files, stale + x.out))
  }

  /** `run_tasks`: nothing at all on an empty queue; otherwise drain it,
      then settle. */
  function RunPass(b: Book, files: map<string, string>, priority: seq<string>, substitutes: bool,
                   userFn: (nat, Message) -> Value, inbox: seq<Message>): (res: Result<PassResult>)
    requires BookValid(b)
    ensures res.Ok? ==> BookValid(res.value.book)
    ensures inbox == [] ==> res == Ok(PassResult(b, files, []))
    ensures inbox != [] && res.Ok? ==> Idle(res.value.book)
    ensures res.Ok? ==> res.value.book.commands.Keys >= b.commands.Keys
  {
    if inbox == [] then Ok(PassResult(b, files, []))
    else match DrainAll(b, inbox)
      case Raised(e) => Raised(e)
      case Ok(p) =>
        match Settle(p.book, files, priority, substitutes, userFn)
        case Raised(e) => Raised(e)
        case Ok(r) =>
          DrainKeepsCommands(b, inbox);
          Ok(PassResult(r.book, r.files, p.out + r.out))
  }

  /** One step of the cancellation: the first seen id is answered when no
      pending request carries it. */
  lemma StaleResponsesStep(ids: seq<int>, accepted: seq<int>)
    requires ids != []
    ensures StaleResponses(ids, accepted)
      == (if ids[0] in accepted then [] else [SimpleResponse(ids[0], true)]) + StaleResponses(ids[1..], accepted)
  {
  }

  lemma {:induction false} DrainKeepsCommands(b: Book, msgs: seq<Message>)
    requires BookValid(b)
    requires DrainAll(b, msgs).Ok?
    ensures DrainAll(b, msgs).value.book.commands.Keys >= b.commands.Keys
    decreases |msgs|
  {
    if msgs != [] {
      DrainKeepsCommands(b, msgs[..|msgs| - 1]);
    }
  }

  /** A failure while draining a prefix of the queue is the failure of the
      whole drain. */
  lemma {:induction false} DrainFailurePersists(b: Book, msgs: seq<Message>, k: nat)
    requires BookValid(b) && k <= |msgs|
    requires DrainAll(b, msgs[..k]).Raised?
    ensures DrainAll(b, msgs) == DrainAll(b, msgs[..k])
    decreases |msgs|
  {
    if k < |msgs| {
      var front := msgs[..|msgs| - 1];
      assert front[..k] == msgs[..k];
      DrainFailurePersists(b, front, k);
    } else {
      assert msgs[..k] == msgs;
    }
  }

  /** Every flattened request comes from the pending list of some command of
      the order. */
  lemma {:induction false} FlattenMember(order: seq<string>, reqs: map<string, seq<Request>>, x: Request)
    requires forall c :: c in order ==> c in reqs
    requires x in Flatten(order, reqs)
    ensures exists c :: c in order && x in reqs[c]
  {
    if x !in reqs[order[0]] {
      FlattenMember(order[1..], reqs, x);
      var c :| c in order[1..] && x in reqs[c];
      assert c in order;
    }
  }

  /** Filtering the flattened lists by a command gives back that command's
      own list, when every request is filed under its own command. */
  lemma {:induction false} FlattenWithCommand(order: seq<string>, reqs: map<string, seq<Request>>, c: string)
    requires Distinct(order)
    requires forall d :: d in order ==> d in reqs
    requires forall d, x :: d in reqs && x in reqs[d] ==> CommandOf(x) == d
    ensures WithCommand(Flatten(order, reqs), c) == if c in order then reqs[c] else []
  {
    if order != [] {
      var d := order[0];
      assert Distinct(order[1..]) by {
        forall i, j | 0 <= i < j < |order[1..]| ensures order[1..][i] != order[1..][j] {
          assert order[1..][i] == order[i + 1] && order[1..][j] == order[j + 1];
        }
      }
      FlattenWithCommand(order[1..], reqs, c);
      WithCommandConcat(reqs[d], Flatten(order[1..], reqs), c);
      if d == c {
        WithCommandAll(reqs[d], c);
        assert c !in order[1..] by {
          forall j | 0 <= j < |order[1..]| ensures order[1..][j] != c {
            assert order[1..][j] == order[j + 1];
          }
        }
      } else {
        WithCommandNone(reqs[d], c);
      }
    }
  }

  /** The fields the execute loop of `run_tasks` changes: the pending ids
      and requests, the file table and the response queue. */
  datatype Exec = Exec(newestIds: map<string, seq<int>>, newestRequests: map<string, seq<Request>>,
                       files: map<string, string>, out: seq<Response>)

  /** The tail of `Server.handle_request`: drop the id from its command's
      pending ids. KeyError for a command without a pending list, ValueError
      (from `list.remove`) for an id not in it. */
  function RetireId(s: Exec, r: Request): (res: Result<Exec>)
    ensures CommandOf(r) !in s.newestIds ==> res == Raised(KeyError)
    ensures CommandOf(r) in s.newestIds ==> (res.Raised? <==> r.id !in s.newestIds[CommandOf(r)])
    ensures res.Ok? ==>
      && res.value == s.(newestIds := res.value.newestIds)
      && res.value.newestIds.Keys == s.newestIds.Keys
      && multiset(res.value.newestIds[CommandOf(r)]) + multiset{r.id} == multiset(s.newestIds[CommandOf(r)])
      && forall c :: c in s.newestIds && c != CommandOf(r) ==> res.value.newestIds[c] == s.newestIds[c]
  {
    var c := CommandOf(r);
    if c !in s.newestIds then Raised(KeyError)
    else match RemoveFirst(s.newestIds[c], r.id)
      case Raised(e) => Raised(e)
      case Ok(ids) => Ok(s.(newestIds := s.newestIds[c := ids]))
  }

  /** `Server.handle_request`: the answer goes on the queue (and the file
      table is updated), then the id is retired. */
  function Handle(s: Exec, commands: map<string, Entry>, r: Request,
                  substitutes: bool, userFn: (nat, Message) -> Value): (res: Result<Exec>)
    ensures Answer(s.files, commands, r, substitutes, userFn).Raised? ==>
      res == Raised(Answer(s.files, commands, r, substitutes, userFn).error)
    ensures Answer(s.files, commands, r, substitutes, userFn).Ok? ==>
      var pair := Answer(s.files, commands, r, substitutes, userFn).value;
      res == RetireId(s.(files := pair.0, out := s.out + [pair.1]), r)
  {
    match Answer(s.files, commands, r, substitutes, userFn)
    case Raised(e) => Raised(e)
    case Ok(pair) => RetireId(s.(files := pair.0, out := s.out + [pair.1]), r)
  }

  /** The second statement of the execute loop's body: take the request
      off its command's pending requests (`list.remove`). */
  function RetireRequest(s: Exec, r: Request): (res: Result<Exec>)
    ensures CommandOf(r) !in s.newestRequests ==> res == Raised(KeyError)
    ensures CommandOf(r) in s.newestRequests ==> (res.Raised? <==> r !in s.newestRequests[CommandOf(r)])
    ensures res.Ok? ==> res.value == s.(newestRequests := res.value.newestRequests)
  {
    var c := CommandOf(r);
    if c !in s.newestRequests then Raised(KeyError)
    else match RemoveFirst(s.newestRequests[c], r)
      case Raised(e) => Raised(e)
      case Ok(reqs) => Ok(s.(newestRequests := s.newestRequests[c := reqs]))
  }

  /** One iteration of the execute loop. */
  function ExecStep(s: Exec, commands: map<string, Entry>, r: Request,
                    substitutes: bool, userFn: (nat, Message) -> Value): Result<Exec>
  {
    match Handle(s, commands, r, substitutes, userFn)
    case Raised(e) => Raised(e)
    case Ok(h) => RetireRequest(h, r)
  }

  /** The execute loop over the rest of the schedule, as the code runs it. */
  function ExecFrom(s: Exec, commands: map<string, Entry>, rs: seq<Request>,
                    substitutes: bool, userFn: (nat, Message) -> Value): Result<Exec>
    decreases |rs|
  {
    if rs == [] then Ok(s)
    else match ExecStep(s, commands, rs[0], substitutes, userFn)
      case Raised(e) => Raised(e)
      case Ok(s') => ExecFrom(s', commands, rs[1..], substitutes, userFn)
  }

  /** The pending lists are exactly the not yet executed part of the
      schedule, command by command. */
  ghost predicate PendingFor(s: Exec, rest: seq<Request>, keys: set<string>)
  {
    && s.newestIds.Keys == keys && s.newestRequests.Keys == keys
    && (forall c :: c in keys ==> s.newestRequests[c] == WithCommand(rest, c))
    && (forall c :: c in keys ==> s.newestIds[c] == IdsOf(s.newestRequests[c]))
    && (forall x :: x in rest ==> CommandOf(x) in keys)
  }

  /** Both pending lists with their head dropped for the command of `r`. */
  function Advance(s: Exec, r: Request): Exec
    requires CommandOf(r) in s.newestIds && CommandOf(r) in s.newestRequests
  {
    var c := CommandOf(r);
    s.(newestIds := s.newestIds[c := Tail(s.newestIds[c])],
       newestRequests := s.newestRequests[c := Tail(s.newestRequests[c])])
  }

  function Tail<T>(s: seq<T>): seq<T>
  {
    if s == [] then [] else s[1..]
  }

  /** When the pending lists track the schedule, its head heads its
      command's pending lists, so both removals succeed and take the head
      of the list. */
  lemma RetireHead(s: Exec, rest: seq<Request>, keys: set<string>)
    requires PendingFor(s, rest, keys) && rest != []
    ensures RetireId(s, rest[0]).Ok?
    ensures RetireRequest(RetireId(s, rest[0]).value, rest[0]) == Ok(Advance(s, rest[0]))
  {
    var r := rest[0];
    var c := CommandOf(r);
    assert rest == [r] + rest[1..];
    assert s.newestRequests[c] == [r] + WithCommand(rest[1..], c);
    assert s.newestIds[c][0] == r.id;
    var h := RetireId(s, r).value;
    assert h == s.(newestIds := s.newestIds[c := Tail(s.newestIds[c])]);
  }

  /** Dropping the head of the schedule from its command's lists leaves
      them tracking the rest of it. */
  lemma PendingAdvance(s: Exec, rest: seq<Request>, keys: set<string>)
    requires PendingFor(s, rest, keys) && rest != []
    ensures PendingFor(Advance(s, rest[0]), rest[1..], keys)
  {
    var c := CommandOf(rest[0]);
    var s' := Advance(s, rest[0]);
    forall d | d in keys
      ensures s'.newestRequests[d] == WithCommand(rest[1..], d)
      ensures s'.newestIds[d] == IdsOf(s'.newestRequests[d])
    {
      AdvanceList(s, rest, keys, d);
    }
    UpdateKeepsKeys(s.newestIds, c, Tail(s.newestIds[c]));
    UpdateKeepsKeys(s.newestRequests, c, Tail(s.newestRequests[c]));
    assert s'.newestIds.Keys == keys && s'.newestRequests.Keys == keys;
    assert forall x :: x in rest[1..] ==> x in rest;
  }

  /** One command's lists after the head of the schedule is dropped. */
  lemma AdvanceList(s: Exec, rest: seq<Request>, keys: set<string>, d: string)
    requires PendingFor(s, rest, keys) && rest != [] && d in keys
    ensures Advance(s, rest[0]).newestRequests[d] == WithCommand(rest[1..], d)
    ensures Advance(s, rest[0]).newestIds[d] == IdsOf(WithCommand(rest[1..], d))
  {
    var r := rest[0];
    var c := CommandOf(r);
    assert rest == [r] + rest[1..];
    if d == c {
      var reqs := s.newestRequests[c];
      assert reqs == [r] + WithCommand(rest[1..], c);
      assert IdsOf(reqs[1..]) == IdsOf(reqs)[1..];
    } else {
      assert WithCommand(rest, d) == WithCommand(rest[1..], d);
    }
  }

  /** While the pending lists track the schedule, the removals of the
      execute loop never fail: the loop raises exactly when an answer
      raises, and otherwise leaves every pending list empty with the
      answers of `AnswerAll` on the queue. */
  lemma {:induction false} ExecMatchesAnswers(s: Exec, commands: map<string, Entry>, rest: seq<Request>, keys: set<string>,
                                              substitutes: bool, userFn: (nat, Message) -> Value)
    requires PendingFor(s, rest, keys)
    ensures ExecFrom(s, commands, rest, substitutes, userFn).Ok? <==> AnswerAll(s.files, commands, rest, substitutes, userFn).Ok?
    ensures AnswerAll(s.files, commands, rest, substitutes, userFn).Raised? ==>
      ExecFrom(s, commands, rest, substitutes, userFn) == Raised(AnswerAll(s.files, commands, rest, substitutes, userFn).error)
    ensures AnswerAll(s.files, commands, rest, substitutes, userFn).Ok? ==>
      var x := AnswerAll(s.files, commands, rest, substitutes, userFn).value;
      ExecFrom(s, commands, rest, substitutes, userFn)
        == Ok(Exec(EmptyLists(keys), EmptyLists(keys), x.files, s.out + x.out))
    decreases |rest|
  {
    if rest == [] {
      assert s.newestIds == EmptyLists(keys);
      assert s.newestRequests == EmptyLists(keys);
      assert s.out + [] == s.out;
    } else if Answer(s.files, commands, rest[0], substitutes, userFn).Ok? {
      var pair := Answer(s.files, commands, rest[0], substitutes, userFn).value;
      var t := s.(files := pair.0, out := s.out + [pair.1]);
      RetireHead(t, rest, keys);
      PendingAdvance(t, rest, keys);
      var s' := Advance(t, rest[0]);
      assert ExecFrom(s, commands, rest, substitutes, userFn) == ExecFrom(s', commands, rest[1..], substitutes, userFn);
      ExecMatchesAnswers(s', commands, rest[1..], keys, substitutes, userFn);
      var tail := AnswerAll(pair.0, commands, rest[1..], substitutes, userFn);
      if tail.Ok? {
        assert AnswerAll(s.files, commands, rest, substitutes, userFn) == Ok(Executed(tail.value.files, [pair.1] + tail.value.out));
        ConcatAssoc(s.out, [pair.1], tail.value.out);
      }
    }
  }

  lemma ConcatAssoc<T>(a: seq<T>, b: seq<T>, c: seq<T>)
    ensures (a + b) + c == a + (b + c)
  {
  }

  /** At the start of the execute loop the pending lists are exactly the
      schedule, command by command: the sort keeps each command's requests
      in arrival order and the flattening groups them by command. */
  lemma SchedulePending(d: Book, priority: seq<string>, files: map<string, string>, out: seq<Response>)
    requires BookValid(d)
    ensures PendingFor(Exec(d.newestIds, d.newestRequests, files, out), Schedule(d, priority), d.commands.Keys)
  {
    var sched := Schedule(d, priority);
    forall c | c in d.commands
      ensures d.newestRequests[c] == WithCommand(sched, c)
    {
      SortKeepsCommandOrder(Flatten(d.order, d.newestRequests), c, priority);
      FlattenWithCommand(d.order, d.newestRequests, c);
    }
    forall x | x in sched
      ensures CommandOf(x) in d.commands
    {
      assert x in multiset(sched);
      FlattenMember(d.order, d.newestRequests, x);
    }
  }
}
