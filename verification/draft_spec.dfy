/** The draft worker of `collegamento.simple_client_server.new_impl` as
    values. It keeps the authoritative worker's per-command lists, stale-id
    cancellation and priority schedule, but `parse_line` has no
    `add-command` branch: such a request is recorded like any other and
    applied when it is executed, and execution creates no lists for the new
    name. */
module DraftSpec {
  import opened Messages
  import opened Scheduling
  import D = DispatchSpec

  /** What the constructor sets up and every step keeps. The dict order is
      the key order of the pending lists, which may be shorter than the
      command table: a name registered while executing has no lists until a
      single-request command's first request creates them. */
  ghost predicate DraftValid(b: D.Book)
  {
    && D.OrderMatches(b.order, b.newestRequests.Keys)
    && b.newestIds.Keys == b.newestRequests.Keys
    && b.newestRequests.Keys <= b.commands.Keys
    && D.Lockstep(b.newestIds, b.newestRequests)
    && D.Filed(b.newestRequests)
    && D.Bounded(b.commands, b.newestRequests)
  }

  /** `Server.__init__` (the polling loop left aside): empty lists for every
      command, in the command table's order. */
  function Initial(commands: map<string, Entry>, order: seq<string>): (b: D.Book)
    requires D.OrderMatches(order, commands.Keys)
    ensures DraftValid(b) && D.Idle(b)
    ensures b.commands == commands && b.order == order && b.newestRequests.Keys == commands.Keys
  {
    D.Book(commands, order, D.EmptyLists(commands.Keys), D.EmptyLists(commands.Keys), [])
  }

  // Parsing.

  /** The request branch of `parse_line` once its command is known: the id
      joins the seen ids; a single-request command's lists are replaced
      (created, at the end of the dict order, if missing) and a
      multi-request command's lists are appended to. */
  function Record(b: D.Book, m: Request): (b': D.Book)
    requires CommandOf(m) in b.commands
    requires b.commands[CommandOf(m)].multiple ==> CommandOf(m) in b.newestIds && CommandOf(m) in b.newestRequests
    ensures b'.commands == b.commands && b'.allIds == b.allIds + [m.id]
    ensures CommandOf(m) in b'.newestRequests && b'.newestRequests.Keys == b.newestRequests.Keys + {CommandOf(m)}
  {
    var c := CommandOf(m);
    var keep := b.commands[c].multiple;
    b.(order := if c in b.newestRequests then b.order else b.order + [c],
       allIds := b.allIds + [m.id],
       newestIds := b.newestIds[c := (if keep then b.newestIds[c] else []) + [m.id]],
       newestRequests := b.newestRequests[c := (if keep then b.newestRequests[c] else []) + [m]])
  }

  lemma RecordKeepsValid(b: D.Book, m: Request)
    requires DraftValid(b) && CommandOf(m) in b.commands
    requires b.commands[CommandOf(m)].multiple ==> CommandOf(m) in b.newestRequests
    ensures DraftValid(Record(b, m))
  {
    var c := CommandOf(m);
    var old' := if b.commands[c].multiple then b.newestRequests[c] else [];
    var rs := old' + [m];
    IdsOfConcat(old', [m]);
    assert IdsOf([m]) == [m.id];
    assert forall x :: x in rs ==> x in old' || x == m;
    D.SetListsKeepsParts(b.commands, b.newestIds, b.newestRequests, c, rs);
    D.RegisterKeepsOrder(b.order, b.newestRequests.Keys, c);
    D.UpdateAddsKey(b.newestIds, c, IdsOf(rs));
    D.UpdateAddsKey(b.newestRequests, c, rs);
    var b' := Record(b, m);
    assert b'.newestIds == b.newestIds[c := IdsOf(rs)];
    assert b'.newestRequests == b.newestRequests[c := rs];
  }

  /** `Server.parse_line`: a message that is not a request is answered with
      a cancelled response; a request without a command, for a name missing
      from the command table (`add-command` included, unless registered
      under that name), or for a multi-request command without lists raises
      KeyError; any other request is recorded. */
  function ParseStep(b: D.Book, m: Message): (r: Result<D.Parsed>)
    requires DraftValid(b)
    ensures r.Ok? ==> DraftValid(r.value.book) && r.value.book.commands == b.commands
    ensures m.msgType != REQUEST ==> r == Ok(D.Parsed(b, [SimpleResponse(m.id, true)]))
    ensures m.msgType == REQUEST ==>
      (r.Ok? <==> m.command.Some? && m.command.value in b.commands
                  && (b.commands[m.command.value].multiple ==> m.command.value in b.newestRequests))
    ensures m.msgType == REQUEST && r.Ok? ==> r.value.out == [] && r.value.book.allIds == b.allIds + [m.id]
    ensures r.Raised? ==> r.error == KeyError
  {
    if m.msgType != REQUEST then Ok(D.Parsed(b, [SimpleResponse(m.id, true)]))
    else if m.command.None? then Raised(KeyError)
    else if m.command.value !in b.commands then Raised(KeyError)
    else if b.commands[m.command.value].multiple && m.command.value !in b.newestRequests then Raised(KeyError)
    else
      RecordKeepsValid(b, m);
      Ok(D.Parsed(Record(b, m), []))
  }

  /** The drain loop: `parse_line` on every queued message, in order. */
  function DrainAll(b: D.Book, msgs: seq<Message>): (r: Result<D.Parsed>)
    requires DraftValid(b)
    ensures r.Ok? ==> DraftValid(r.value.book) && r.value.book.commands == b.commands
    decreases |msgs|
  {
    if msgs == [] then Ok(D.Parsed(b, []))
    else match DrainAll(b, msgs[..|msgs| - 1])
      case Raised(e) => Raised(e)
      case Ok(p) =>
        match ParseStep(p.book, msgs[|msgs| - 1])
        case Raised(e) => Raised(e)
        case Ok(q) => Ok(D.Parsed(q.book, p.out + q.out))
  }

  /** A failure while draining a prefix of the queue is the failure of the
      whole drain. */
  lemma {:induction false} DrainFailurePersists(b: D.Book, msgs: seq<Message>, k: nat)
    requires DraftValid(b) && k <= |msgs|
    requires DrainAll(b, msgs[..k]).Raised?
    ensures DrainAll(b, msgs) == DrainAll(b, msgs[..k])
    decreases |msgs|
  {
    if k < |msgs| {
      var front := msgs[..|msgs| - 1];
      assert front[..k] == msgs[..k];
      DrainFailurePersists(b, front, k);
    } else {
      assert msgs[..k] == msgs;
    }
  }

  // Executing.

  /** What a handler call returns: opaque user code. The file variant's
      built-in `update_files` has no file table to work on here. */
  function CallHandler(h: Handler, r: Request, userFn: (nat, Message) -> Value): (v: Result<Value>)
    ensures h.UserFn? <==> v.Ok?
  {
    match h
    case UserFn(k) => Ok(userFn(k, r))
    case UpdateFiles => Raised(TypeError)
  }

  /** The response `Server.handle_request` emits for `r` and the command
      table after it. `add-command` reads and checks the name before the
      function (each annotated assignment raises KeyError for a missing key
      and TypeError for a value of the wrong type), installs the carried
      entry under the carried name and is answered as cancelled with result
      None; a command missing from the table is answered the same way;
      otherwise the handler's result is sent. */
  function Answer(commands: map<string, Entry>, r: Request, userFn: (nat, Message) -> Value)
    : (res: Result<(map<string, Entry>, Response)>)
    ensures res.Ok? ==> res.value.1.id == r.id && res.value.1.command == Some(CommandOf(r))
    ensures res.Ok? ==> (res.value.1.cancelled <==> CommandOf(r) == ADD_COMMAND || CommandOf(r) !in commands)
    ensures res.Ok? ==> res.value.0.Keys >= commands.Keys
    ensures CommandOf(r) != ADD_COMMAND ==>
      (res.Ok? <==> CommandOf(r) !in commands || commands[CommandOf(r)].handler.UserFn?)
    ensures CommandOf(r) != ADD_COMMAND && res.Ok? ==> res.value.0 == commands
    ensures CommandOf(r) == ADD_COMMAND ==>
      (res.Ok? <==> "name" in r.fields && "function" in r.fields && r.fields["name"].VStr? && r.fields["function"].VEntry?)
    ensures CommandOf(r) == ADD_COMMAND && res.Ok? ==>
      res.value.0 == commands[r.fields["name"].s := r.fields["function"].e] && res.value.1.result == Some(VNone)
    ensures CommandOf(r) == ADD_COMMAND && "name" !in r.fields ==> res == Raised(KeyError)
    ensures CommandOf(r) == ADD_COMMAND && "name" in r.fields && !r.fields["name"].VStr? ==> res == Raised(TypeError)
  {
    var c := CommandOf(r);
    if c == ADD_COMMAND then
      if "name" !in r.fields then Raised(KeyError)
      else if !r.fields["name"].VStr? then Raised(TypeError)
      else if "function" !in r.fields then Raised(KeyError)
      else if !r.fields["function"].VEntry? then Raised(TypeError)
      else Ok((commands[r.fields["name"].s := r.fields["function"].e], Response(r.id, true, Some(c), Some(VNone))))
    else if c !in commands then Ok((commands, Response(r.id, true, Some(c), Some(VNone))))
    else match CallHandler(commands[c].handler, r, userFn)
      case Raised(e) => Raised(e)
      case Ok(v) => Ok((commands, Response(r.id, false, Some(c), Some(v))))
  }

  datatype Executed = Executed(commands: map<string, Entry>, out: seq<Response>)

  /** The answers of the execute loop: each scheduled request is answered
      against the command table the earlier ones left. */
  function AnswerAll(commands: map<string, Entry>, rs: seq<Request>, userFn: (nat, Message) -> Value)
    : (res: Result<Executed>)
    ensures res.Ok? ==> |res.value.out| == |rs| && res.value.commands.Keys >= commands.Keys
    ensures res.Ok? ==> forall i :: 0 <= i < |rs| ==>
      res.value.out[i].id == rs[i].id && res.value.out[i].command == Some(CommandOf(rs[i]))
    decreases |rs|
  {
    if rs == [] then Ok(Executed(commands, []))
    else match Answer(commands, rs[0], userFn)
      case Raised(e) => Raised(e)
      case Ok(pair) =>
        match AnswerAll(pair.0, rs[1..], userFn)
        case Raised(e) => Raised(e)
        case Ok(x) => Ok(Executed(x.commands, [pair.1] + x.out))
  }

  /** The fields the execute loop changes: the command table, and the
      pending lists with the response queue (the file table of the shared
      shape stays untouched). */
  datatype Run = Run(commands: map<string, Entry>, lists: D.Exec)

  /** `Server.handle_request`: the answer goes on the queue (and the table
      is updated), then the id is taken off its command's pending ids. */
  function Handle(s: Run, r: Request, userFn: (nat, Message) -> Value): (res: Result<Run>)
    ensures Answer(s.commands, r, userFn).Raised? ==> res == Raised(Answer(s.commands, r, userFn).error)
    ensures Answer(s.commands, r, userFn).Ok? ==>
      var pair := Answer(s.commands, r, userFn).value;
      var t := s.lists.(out := s.lists.out + [pair.1]);
      && (D.RetireId(t, r).Raised? ==> res == Raised(D.RetireId(t, r).error))
      && (D.RetireId(t, r).Ok? ==> res == Ok(Run(pair.0, D.RetireId(t, r).value)))
  {
    match Answer(s.commands, r, userFn)
    case Raised(e) => Raised(e)
    case Ok(pair) =>
      match D.RetireId(s.lists.(out := s.lists.out + [pair.1]), r)
      case Raised(e) => Raised(e)
      case Ok(l) => Ok(Run(pair.0, l))
  }

  /** One iteration of the execute loop: handle the request, then take it
      off its command's pending requests. */
  function ExecStep(s: Run, r: Request, userFn: (nat, Message) -> Value): Result<Run>
  {
    match Handle(s, r, userFn)
    case Raised(e) => Raised(e)
    case Ok(h) =>
      match D.RetireRequest(h.lists, r)
      case Raised(e) => Raised(e)
      case Ok(l) => Ok(Run(h.commands, l))
  }

  /** The execute loop over the rest of the schedule, as the code runs it. */
  function ExecFrom(s: Run, rs: seq<Request>, userFn: (nat, Message) -> Value): Result<Run>
    decreases |rs|
  {
    if rs == [] then Ok(s)
    else match ExecStep(s, rs[0], userFn)
      case Raised(e) => Raised(e)
      case Ok(s') => ExecFrom(s', rs[1..], userFn)
  }

  /** While the pending lists track the schedule, the removals of the
      execute loop never fail, whatever the registrations on the way do to
      the command table: the loop raises exactly when an answer raises, and
      otherwise leaves every pending list empty with the answers of
      `AnswerAll` on the queue. */
  lemma {:induction false} ExecMatchesAnswers(s: Run, rest: seq<Request>, keys: set<string>,
                                              userFn: (nat, Message) -> Value)
    requires D.PendingFor(s.lists, rest, keys)
    ensures ExecFrom(s, rest, userFn).Ok? <==> AnswerAll(s.commands, rest, userFn).Ok?
    ensures AnswerAll(s.commands, rest, userFn).Raised? ==>
      ExecFrom(s, rest, userFn) == Raised(AnswerAll(s.commands, rest, userFn).error)
    ensures AnswerAll(s.commands, rest, userFn).Ok? ==>
      var x := AnswerAll(s.commands, rest, userFn).value;
      ExecFrom(s, rest, userFn)
        == Ok(Run(x.commands, D.Exec(D.EmptyLists(keys), D.EmptyLists(keys), s.lists.files, s.lists.out + x.out)))
    decreases |rest|
  {
    if rest == [] {
      assert s.lists.newestIds == D.EmptyLists(keys);
      assert s.lists.newestRequests == D.EmptyLists(keys);
      assert s.lists.out + [] == s.lists.out;
    } else if Answer(s.commands, rest[0], userFn).Ok? {
      var pair := Answer(s.commands, rest[0], userFn).value;
      var t := s.lists.(out := s.lists.out + [pair.1]);
      D.RetireHead(t, rest, keys);
      D.PendingAdvance(t, rest, keys);
      var s' := Run(pair.0, D.Advance(t, rest[0]));
      assert ExecFrom(s, rest, userFn) == ExecFrom(s', rest[1..], userFn);
      ExecMatchesAnswers(s', rest[1..], keys, userFn);
      var tail := AnswerAll(pair.0, rest[1..], userFn);
      if tail.Ok? {
        assert AnswerAll(s.commands, rest, userFn) == Ok(Executed(tail.value.commands, [pair.1] + tail.value.out));
        D.ConcatAssoc(s.lists.out, [pair.1], tail.value.out);
      }
    }
  }

  /** The execution order of a pass: the pending requests, in dict order,
      sorted stably by `command_sort_func`. */
  function Schedule(b: D.Book, priority: seq<string>): (s: seq<Request>)
    requires DraftValid(b)
    ensures SortedByKey(s, priority)
    ensures multiset(s) == multiset(D.Flatten(b.order, b.newestRequests))
  {
    SortIsSorted(D.Flatten(b.order, b.newestRequests), priority);
    SortByKey(D.Flatten(b.order, b.newestRequests), priority)
  }

  /** At the start of the execute loop the pending lists are exactly the
      schedule, command by command. */
  lemma SchedulePending(d: D.Book, priority: seq<string>, out: seq<Response>)
    requires DraftValid(d)
    ensures D.PendingFor(D.Exec(d.newestIds, d.newestRequests, map[], out), Schedule(d, priority), d.newestRequests.Keys)
  {
    var sched := Schedule(d, priority);
    forall c | c in d.newestRequests
      ensures d.newestRequests[c] == WithCommand(sched, c)
    {
      SortKeepsCommandOrder(D.Flatten(d.order, d.newestRequests), c, priority);
      D.FlattenWithCommand(d.order, d.newestRequests, c);
    }
    forall x | x in sched
      ensures CommandOf(x) in d.newestRequests
    {
      assert x in multiset(sched);
      D.FlattenMember(d.order, d.newestRequests, x);
    }
  }

  /** The bookkeeping after a pass: every pending list empty, no id seen,
      and the command table the registrations left. */
  function Cleared(b: D.Book, commands: map<string, Entry>): (b': D.Book)
    requires DraftValid(b) && commands.Keys >= b.commands.Keys
    ensures DraftValid(b') && D.Idle(b')
    ensures b'.order == b.order && b'.newestRequests.Keys == b.newestRequests.Keys
  {
    D.Book(commands, b.order, D.EmptyLists(b.newestRequests.Keys), D.EmptyLists(b.newestRequests.Keys), [])
  }

  /** What follows the drain in `run_tasks`: cancel the stale ids, then
      execute the schedule. */
  function Settle(d: D.Book, priority: seq<string>, userFn: (nat, Message) -> Value): (res: Result<D.Parsed>)
    requires DraftValid(d)
    ensures res.Ok? ==> DraftValid(res.value.book) && D.Idle(res.value.book)
    ensures res.Ok? ==> res.value.book.commands.Keys >= d.commands.Keys && res.value.book.order == d.order
    ensures res.Raised? <==> AnswerAll(d.commands, Schedule(d, priority), userFn).Raised?
  {
    var stale := D.StaleResponses(d.allIds, IdsOf(D.Flatten(d.order, d.newestRequests)));
    match AnswerAll(d.commands, Schedule(d, priority), userFn)
    case Raised(e) => Raised(e)
    case Ok(x) => Ok(D.Parsed(Cleared(d, x.commands), stale + x.out))
  }

  /** `run_tasks`: nothing at all on an empty queue; otherwise drain it,
      then settle. */
  function RunPass(b: D.Book, priority: seq<string>, userFn: (nat, Message) -> Value, inbox: seq<Message>)
    : (res: Result<D.Parsed>)
    requires DraftValid(b)
    ensures res.Ok? ==> DraftValid(res.value.book) && res.value.book.commands.Keys >= b.commands.Keys
    ensures inbox == [] ==> res == Ok(D.Parsed(b, []))
    ensures inbox != [] && res.Ok? ==> D.Idle(res.value.book)
  {
    if inbox == [] then Ok(D.Parsed(b, []))
    else match DrainAll(b, inbox)
      case Raised(e) => Raised(e)
      case Ok(p) =>
        match Settle(p.book, priority, userFn)
        case Raised(e) => Raised(e)
        case Ok(r) => Ok(D.Parsed(r.book, p.out + r.out))
  }

  // What the draft does with registrations.

  /** An `add-command` request never reaches execution unless the command
      table itself has an entry named `add-command`: parsing refuses it. */
  lemma AddCommandRefused(b: D.Book, m: Message)
    requires DraftValid(b) && ADD_COMMAND !in b.commands
    requires m.msgType == REQUEST && m.command == Some(ADD_COMMAND)
    ensures ParseStep(b, m) == Raised(KeyError)
  {
  }

  /** Once a registration has run, a multi-request command it introduced
      has no pending lists, so its first request makes `parse_line` raise;
      a single-request one gets its lists at the end of the dict order. */
  lemma RegisteredLater(b: D.Book, m: Request)
    requires DraftValid(b) && CommandOf(m) in b.commands && CommandOf(m) !in b.newestRequests
    ensures b.commands[CommandOf(m)].multiple ==> ParseStep(b, m) == Raised(KeyError)
    ensures !b.commands[CommandOf(m)].multiple ==>
      && ParseStep(b, m).Ok?
      && ParseStep(b, m).value.book.order == b.order + [CommandOf(m)]
      && ParseStep(b, m).value.book.newestRequests[CommandOf(m)] == [m]
  {
  }

  /** A pass answers its scheduled requests in schedule order, after the
      stale-id cancellations, so a priority command's request is answered
      before any other command's. */
  lemma AnswersInPriorityOrder(d: D.Book, priority: seq<string>, userFn: (nat, Message) -> Value)
    requires DraftValid(d) && Settle(d, priority, userFn).Ok?
    ensures var sched := Schedule(d, priority);
      var out := Settle(d, priority, userFn).value.out;
      var n := |D.StaleResponses(d.allIds, IdsOf(D.Flatten(d.order, d.newestRequests)))|;
      && |out| == n + |sched|
      && (forall i :: 0 <= i < n ==> out[i].cancelled && out[i].command.None?)
      && (forall i :: 0 <= i < |sched| ==> out[n + i].id == sched[i].id && out[n + i].command == Some(CommandOf(sched[i])))
      && (forall i, j :: 0 <= i < j < |sched| && CommandOf(sched[i]) !in priority ==> CommandOf(sched[j]) !in priority)
  {
    var sched := Schedule(d, priority);
    forall i, j | 0 <= i < j < |sched| && CommandOf(sched[i]) !in priority
      ensures CommandOf(sched[j]) !in priority
    {
      assert KeyLe(Key(sched[i], priority), Key(sched[j], priority));
    }
  }
}
