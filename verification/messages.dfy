/** Wire shapes shared by both ends of the link (the TypedDicts of the two
    `utils`/`misc` modules), the command-table entry, the errors the Python
    code raises, and the small list operations the bookkeeping relies on. */
module Messages {

  const REQUEST: string := "request"
  const RESPONSE: string := "response"
  const NOTIFICATION: string := "notification"
  const ADD_COMMAND: string := "add-command"

  datatype Option<+T> = None | Some(value: T)

  /** The exceptions that leave a call early: the package's own
      CollegamentoError, and the built-in errors raised by a missing dict key
      (KeyError), a `list.remove` of an absent value (ValueError) or an
      unhashable or ill-typed argument (TypeError). */
  datatype Error = CollegamentoError | KeyError | ValueError | TypeError

  datatype Result<+T> = Ok(value: T) | Raised(error: Error)

  /** Outcome of a call that returns nothing. */
  datatype Status = Pass | Fail(error: Error)

  /** The status a call reports for a result: its error, or success. */
  function StatusOf<T>(r: Result<T>): Status
  {
    if r.Ok? then Pass else Fail(r.error)
  }

  /** A handler is opaque user code, except for the file variant's built-in
      `update_files`, whose effect on the server's file table is modelled. */
  datatype Handler = UserFn(key: nat) | UpdateFiles

  /** A normalised command-table entry `(function, allows_multiple)`. */
  datatype Entry = Entry(handler: Handler, multiple: bool)

  /** An entry as a caller may give it: a bare function or a pair. */
  datatype CommandSpec = Bare(fn: Handler) | Pair(entry: Entry)

  /** Values carried in message fields and handler results. */
  datatype Value =
    | VNone
    | VBool(b: bool)
    | VInt(i: int)
    | VStr(s: string)
    | VFunction(h: Handler)
    | VEntry(e: Entry)
    | VList(items: seq<Value>)
    | VDict(entries: map<string, Value>)

  /** A message on either queue. `msgType` is the `type` key; `command` is
      optional because notifications and responses may lack it; every other
      key lives in `fields`. */
  datatype Message = Message(id: int, msgType: string, command: Option<string>, fields: map<string, Value>)

  /** A request: a message of type "request" that carries a command. */
  type Request = m: Message | m.msgType == REQUEST && m.command.Some?
    witness Message(0, REQUEST, Some(""), map[])

  /** A response; its `type` key is always "response", so it is not stored. */
  datatype Response = Response(id: int, cancelled: bool, command: Option<string>, result: Option<Value>)

  const ENVELOPE: set<string> := {"id", "type", "command"}

  function CommandOf(r: Request): string
  {
    r.command.value
  }

  /** `base.update(extra)`: every key of `extra` wins over `base`. A caller
      value of the envelope's own type replaces the envelope field; envelope
      names never land among the free fields, so a caller envelope value of
      another type has no place in the message and is dropped. */
  function Merge(base: Message, extra: map<string, Value>): (m: Message)
    ensures m.fields.Keys == (base.fields.Keys + extra.Keys) - ENVELOPE
    ensures forall k :: k in extra && k !in ENVELOPE ==> m.fields[k] == extra[k]
    ensures forall k :: k in base.fields && k !in extra && k !in ENVELOPE ==> m.fields[k] == base.fields[k]
    ensures m.id == (if "id" in extra && extra["id"].VInt? then extra["id"].i else base.id)
    ensures m.msgType == (if "type" in extra && extra["type"].VStr? then extra["type"].s else base.msgType)
    ensures m.command == (if "command" in extra && extra["command"].VStr? then Some(extra["command"].s) else base.command)
  {
    Message(
      if "id" in extra && extra["id"].VInt? then extra["id"].i else base.id,
      if "type" in extra && extra["type"].VStr? then extra["type"].s else base.msgType,
      if "command" in extra && extra["command"].VStr? then Some(extra["command"].s) else base.command,
      (base.fields + extra) - ENVELOPE)
  }

  /** A caller map that names no envelope key leaves the envelope alone. */
  lemma MergeKeepsEnvelope(base: Message, extra: map<string, Value>)
    requires extra.Keys !! ENVELOPE
    requires base.fields.Keys !! ENVELOPE
    ensures Merge(base, extra) == Message(base.id, base.msgType, base.command, base.fields + extra)
  {
    assert "id" !in extra && "type" !in extra && "command" !in extra;
    assert (base.fields + extra) - ENVELOPE == base.fields + extra;
  }

  /** The constructors' normalisation: a bare function allows one request. */
  function Normalise(spec: CommandSpec): (e: Entry)
    ensures spec.Bare? ==> e == Entry(spec.fn, false)
    ensures spec.Pair? ==> e == spec.entry
  {
    match spec
    case Bare(f) => Entry(f, false)
    case Pair(entry) => entry
  }

  /** Python truthiness of a field value. */
  predicate Truthy(v: Value)
  {
    match v
    case VNone => false
    case VBool(b) => b
    case VInt(i) => i != 0
    case VStr(s) => s != ""
    case VList(items) => items != []
    case VDict(entries) => entries != map[]
    case _ => true
  }

  /** The response `simple_id_response` builds: id and cancellation only. */
  function SimpleResponse(id: int, cancelled: bool): (r: Response)
    ensures r.id == id && r.cancelled == cancelled && r.command.None? && r.result.None?
  {
    Response(id, cancelled, None, None)
  }

  function IdsOf(rs: seq<Message>): (ids: seq<int>)
    ensures |ids| == |rs|
    ensures forall i :: 0 <= i < |rs| ==> ids[i] == rs[i].id
  {
    if rs == [] then [] else [rs[0].id] + IdsOf(rs[1..])
  }

  function ResponseIds(rs: seq<Response>): (ids: seq<int>)
    ensures |ids| == |rs|
    ensures forall i :: 0 <= i < |rs| ==> ids[i] == rs[i].id
  {
    if rs == [] then [] else [rs[0].id] + ResponseIds(rs[1..])
  }

  lemma IdsOfConcat(a: seq<Message>, b: seq<Message>)
    ensures IdsOf(a + b) == IdsOf(a) + IdsOf(b)
  {
  }

  lemma ResponseIdsConcat(a: seq<Response>, b: seq<Response>)
    ensures ResponseIds(a + b) == ResponseIds(a) + ResponseIds(b)
  {
  }

  predicate Distinct<T(==)>(s: seq<T>)
  {
    forall i, j :: 0 <= i < j < |s| ==> s[i] != s[j]
  }

  /** No value occurs twice. */
  ghost predicate NoRepeats(s: seq<int>)
  {
    forall x :: multiset(s)[x] <= 1
  }

  /** A sub-multiset of a list without repeats has none either. */
  lemma NoRepeatsWithin(n: seq<int>, a: seq<int>)
    requires multiset(n) <= multiset(a) && NoRepeats(a)
    ensures NoRepeats(n)
  {
    forall x ensures multiset(n)[x] <= 1 {
      assert multiset(n)[x] <= multiset(a)[x];
    }
  }

  /** `list.index`: the first position of `x`. */
  function IndexOf<T(==)>(s: seq<T>, x: T): (i: nat)
    requires x in s
    ensures i < |s| && s[i] == x && x !in s[..i]
  {
    if s[0] == x then 0
    else
      var j := IndexOf(s[1..], x);
      assert s[1..][..j] == s[1..j + 1];
      assert s[..j + 1] == [s[0]] + s[1..j + 1];
      j + 1
  }

  /** `list.remove(x)`: drop the first element equal to `x`; ValueError
      when there is none. `RemoveFirstOrder` shows it is the first
      occurrence that goes and the others keep their order. */
  function RemoveFirst<T(==)>(s: seq<T>, x: T): (r: Result<seq<T>>)
    ensures r.Raised? <==> x !in s
    ensures r.Raised? ==> r.error == ValueError
    ensures r.Ok? ==> multiset(r.value) + multiset{x} == multiset(s)
    ensures r.Ok? && s[0] == x ==> r.value == s[1..]
  {
    if s == [] then Raised(ValueError)
    else
      assert s == [s[0]] + s[1..];
      if s[0] == x then Ok(s[1..])
      else match RemoveFirst(s[1..], x)
        case Raised(e) => Raised(e)
        case Ok(t) => Ok([s[0]] + t)
  }

  /** `list.remove` takes out the first occurrence, at `s.index(x)`, and
      keeps every other element in its order. */
  lemma {:induction false} RemoveFirstOrder<T>(s: seq<T>, x: T)
    requires x in s
    ensures RemoveFirst(s, x) == Ok(s[..IndexOf(s, x)] + s[IndexOf(s, x) + 1..])
    decreases |s|
  {
    if s[0] == x {
      assert s[..0] + s[1..] == s[1..];
    } else {
      assert x in s[1..] by {
        assert s == [s[0]] + s[1..];
      }
      RemoveFirstOrder(s[1..], x);
      RemovedAfterHead(s, x, s[1..][..IndexOf(s[1..], x)] + s[1..][IndexOf(s[1..], x) + 1..]);
    }
  }

  /** The step of `RemoveFirstOrder` past a head that differs from `x`. */
  lemma RemovedAfterHead<T>(s: seq<T>, x: T, t: seq<T>)
    requires s != [] && s[0] != x && x in s[1..]
    requires RemoveFirst(s[1..], x) == Ok(t)
    requires t == s[1..][..IndexOf(s[1..], x)] + s[1..][IndexOf(s[1..], x) + 1..]
    ensures RemoveFirst(s, x) == Ok(s[..IndexOf(s, x)] + s[IndexOf(s, x) + 1..])
  {
    RemoveFirstCons(s, x, t);
    IndexOfCons(s, x);
    SpliceCons(s, IndexOf(s[1..], x));
  }

  lemma RemoveFirstCons<T>(s: seq<T>, x: T, t: seq<T>)
    requires s != [] && s[0] != x
    requires RemoveFirst(s[1..], x) == Ok(t)
    ensures RemoveFirst(s, x) == Ok([s[0]] + t)
  {
  }

  lemma IndexOfCons<T>(s: seq<T>, x: T)
    requires s != [] && s[0] != x && x in s[1..]
    ensures x in s && IndexOf(s, x) == IndexOf(s[1..], x) + 1
  {
  }

  lemma SpliceCons<T>(s: seq<T>, j: nat)
    requires j + 1 < |s|
    ensures [s[0]] + (s[1..][..j] + s[1..][j + 1..]) == s[..j + 1] + s[j + 2..]
  {
    assert s[..j + 1] == [s[0]] + s[1..][..j];
    assert s[j + 2..] == s[1..][j + 1..];
  }
}
