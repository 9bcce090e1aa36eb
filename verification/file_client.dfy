/** The client of the file variant (`collegamento.files_variant.FileClient`):
    a client that keeps a table of file contents and mirrors every change to
    the worker as a `FileNotification` request. It is modelled by
    composition over `Correlation.Client`.

    Each of its three calls into the base `request` passes the whole
    notification dict as the base method's `command` argument. The base
    method then looks a dict up in the command table, which Python refuses
    (a dict is unhashable). The members ending in `AsWritten` model those
    calls as written; the others model the evidently intended call, with
    the dict's `command` entry as the command and the other entries as
    keyword arguments. */
module FileVariant {
  import opened Messages
  import opened LedgerSpec
  import opened Correlation
  import FileTable

  /** The keyword arguments of an update notification. */
  function UpdateNotice(file: string, contents: string): (n: map<string, Value>)
    ensures n.Keys == {"file", "remove", "contents"} && !Truthy(n["remove"])
    ensures n.Keys !! ENVELOPE && "self" !in n
  {
    map["file" := VStr(file), "remove" := VBool(false), "contents" := VStr(contents)]
  }

  /** The keyword arguments of a removal notification. */
  function RemoveNotice(file: string): (n: map<string, Value>)
    ensures n.Keys == {"file", "remove"} && Truthy(n["remove"])
    ensures n.Keys !! ENVELOPE && "self" !in n
  {
    map["file" := VStr(file), "remove" := VBool(true)]
  }

  /** The notification request the worker receives for a change. */
  function NoticeMessage(id: int, notice: map<string, Value>): (m: Request)
    ensures m.id == id && CommandOf(m) == FileTable.FILE_NOTIFICATION && m.fields == notice
  {
    Message(id, REQUEST, Some(FileTable.FILE_NOTIFICATION), notice)
  }

  /** A notice names no envelope key, so the base client sends it as it
      is. */
  lemma NoticeRequest(id: int, notice: map<string, Value>)
    requires notice.Keys !! ENVELOPE
    ensures RequestMessage(id, FileTable.FILE_NOTIFICATION, notice) == NoticeMessage(id, notice)
  {
  }

  /** Storing a file keeps the order list a duplicate-free listing of the
      table's names. */
  lemma TableSet(order: seq<string>, files: map<string, string>, f: string, v: string)
    requires Distinct(order) && forall g :: g in order <==> g in files
    ensures var order' := if f in files then order else order + [f];
      Distinct(order') && forall g :: g in order' <==> g in files[f := v]
  {
  }

  /** The update notifications a replay of `names` sends, each with the id
      allocated for it. */
  function Notices(ids: seq<int>, names: seq<string>, files: map<string, string>): (ms: seq<Request>)
    requires |ids| == |names| && forall f :: f in names ==> f in files
    ensures |ms| == |names|
    ensures forall k :: 0 <= k < |ms| ==> ms[k] == NoticeMessage(ids[k], UpdateNotice(names[k], files[names[k]]))
  {
    seq(|names|, k requires 0 <= k < |names| => NoticeMessage(ids[k], UpdateNotice(names[k], files[names[k]])))
  }

  lemma NoticesSnoc(queue: seq<Message>, ids: seq<int>, names: seq<string>, files: map<string, string>, id: int, f: string)
    requires |ids| == |names| && f in files && forall g :: g in names ==> g in files
    ensures queue + Notices(ids + [id], names + [f], files) == queue + Notices(ids, names, files) + [NoticeMessage(id, UpdateNotice(f, files[f]))]
  {
    assert Notices(ids + [id], names + [f], files) == Notices(ids, names, files) + [NoticeMessage(id, UpdateNotice(f, files[f]))];
  }

  /** The bookkeeping of a run of requests for one command, oldest first. */
  function RequestedAll(l: Ledger, ids: seq<int>, command: string): (l': Ledger)
    requires command in l.commands
    ensures l'.commands == l.commands && l'.newestResponses == l.newestResponses
    ensures l'.allIds == l.allIds + ids
    decreases |ids|
  {
    if ids == [] then l
    else Requested(RequestedAll(l, ids[..|ids| - 1], command), ids[|ids| - 1], command)
  }

  /** Walking a duplicate-free list: the next name is not among those
      already walked. */
  lemma PrefixStep<T>(s: seq<T>, i: int)
    requires 0 <= i < |s| && Distinct(s)
    ensures s[i] !in s[..i] && s[..i + 1] == s[..i] + [s[i]]
  {
    assert forall k :: 0 <= k < i ==> s[..i][k] == s[k];
  }

  lemma RequestedAllSnoc(l: Ledger, ids: seq<int>, id: int, command: string)
    requires command in l.commands
    ensures RequestedAll(l, ids + [id], command) == Requested(RequestedAll(l, ids, command), id, command)
  {
    assert (ids + [id])[..|ids|] == ids;
  }

  /** The check `FileClient.request` makes before delegating: a request
      naming a file must name one the client knows. An unhashable name
      raises TypeError; any other name that is not a known string is not in
      the table (CollegamentoError). */
  function FileCheck(files: map<string, string>, details: map<string, Value>): (s: Status)
    ensures s.Pass? <==> "file" !in details || (details["file"].VStr? && details["file"].s in files)
    ensures s.Fail? && (details["file"].VList? || details["file"].VDict?) ==> s.error == TypeError
    ensures s.Fail? && !(details["file"].VList? || details["file"].VDict?) ==> s.error == CollegamentoError
  {
    if "file" !in details then Pass
    else match details["file"]
      case VStr(f) => if f in files then Pass else Fail(CollegamentoError)
      case VList(_) => Fail(TypeError)
      case VDict(_) => Fail(TypeError)
      case _ => Fail(CollegamentoError)
  }

  class FileClient {
    const client: Client
    var files: map<string, string>
    /** The insertion order of `files`, which the replay follows. */
    var fileOrder: seq<string>

    ghost predicate Valid()
      reads this, client
    {
      && client.Valid()
      && FileTable.FILE_NOTIFICATION in client.commands
      && Distinct(fileOrder)
      && (forall f :: f in fileOrder <==> f in files)
    }

    /** Whether the corrected `request` reaches the base client with a
        registered command, and so allocates an id. */
    ghost predicate Allocates(details: map<string, Value>)
      reads this, client
    {
      && FileCheck(files, details) == Pass
      && "command" in details && "self" !in details
      && details["command"].VStr? && details["command"].s in client.commands
    }

    /** `FileClient.__init__` as intended: an empty file table, and the base
        client set up with the given commands plus the file notification
        registered as `FileCommands` corrects it, allowing multiple
        requests. */
    constructor (specs: map<string, CommandSpec>, idMax: int)
      ensures Valid() && fresh(client) && client.idMax == idMax
      ensures files == map[] && fileOrder == []
      ensures client.Snapshot() == Setup(FileCommands(specs))
      ensures client.commands[FileTable.FILE_NOTIFICATION] == Entry(UpdateFiles, true)
      ensures client.requestQueue == [] && client.responseQueue == []
    {
      files := map[];
      fileOrder := [];
      client := new Client(FileCommands(specs), idMax);
    }

    /** `FileClient.__init__` as written: the notification handler is
        registered bare, which the base client normalises to a
        single-request command. */
    constructor AsWritten(specs: map<string, CommandSpec>, idMax: int)
      ensures Valid() && fresh(client) && client.idMax == idMax
      ensures files == map[] && fileOrder == []
      ensures client.Snapshot() == Setup(FileCommandsAsWritten(specs))
      ensures client.commands[FileTable.FILE_NOTIFICATION] == Entry(UpdateFiles, false)
      ensures client.requestQueue == [] && client.responseQueue == []
    {
      files := map[];
      fileOrder := [];
      client := new Client(FileCommandsAsWritten(specs), idMax);
    }

    /** `FileClient.request` as intended: the file check, then the base
        `request` with the dict unpacked. A dict without a `command` entry
        is a call missing its required argument (TypeError). */
    method Request(details: map<string, Value>) returns (status: Status)
      requires Valid() && (Allocates(details) ==> |client.allIds| < client.idMax)
      modifies client`allIds, client`currentIds, client`idCommands, client`requestQueue
      ensures Valid()
      ensures status.Pass? <==> Allocates(details)
      ensures FileCheck(files, details).Fail? ==> status == FileCheck(files, details)
      ensures FileCheck(files, details).Pass? && "command" !in details ==> status == Fail(TypeError)
      ensures status.Fail? ==> client.Snapshot() == old(client.Snapshot()) && client.requestQueue == old(client.requestQueue)
      ensures status.Pass? ==>
        && |client.allIds| == |old(client.allIds)| + 1
        && var id := client.allIds[|old(client.allIds)|];
        && client.Snapshot() == Requested(old(client.Snapshot()), id, details["command"].s)
        && client.requestQueue == old(client.requestQueue) + [RequestMessage(id, details["command"].s, details - {"command"})]
    {
      status := FileCheck(files, details);
      if status.Fail? {
        return;
      }
      if "command" !in details {
        return Fail(TypeError);
      }
      status := client.RequestAny(details["command"], details - {"command"});
    }

    /** `FileClient.request` as written: after the file check the whole dict
        is the base method's command, which cannot be looked up. */
    method RequestAsWritten(details: map<string, Value>) returns (status: Status)
      requires Valid()
      modifies client`allIds, client`currentIds, client`idCommands, client`requestQueue
      ensures Valid()
      ensures FileCheck(files, details).Fail? ==> status == FileCheck(files, details)
      ensures FileCheck(files, details).Pass? ==> status == Fail(TypeError)
      ensures client.Snapshot() == old(client.Snapshot()) && client.requestQueue == old(client.requestQueue)
    {
      status := FileCheck(files, details);
      if status.Fail? {
        return;
      }
      status := client.RequestAny(VDict(details), map[]);
    }

    /** `update_file` as intended: store the contents, then send them. */
    method UpdateFile(file: string, currentState: string) returns (status: Status)
      requires Valid() && |client.allIds| < client.idMax
      modifies this`files, this`fileOrder, client`allIds, client`currentIds, client`idCommands, client`requestQueue
      ensures Valid() && status == Pass
      ensures files == old(files)[file := currentState]
      ensures fileOrder == if file in old(files) then old(fileOrder) else old(fileOrder) + [file]
      ensures |client.allIds| == |old(client.allIds)| + 1
      ensures var id := client.allIds[|old(client.allIds)|];
        && client.Snapshot() == Requested(old(client.Snapshot()), id, FileTable.FILE_NOTIFICATION)
        && client.requestQueue == old(client.requestQueue) + [NoticeMessage(id, UpdateNotice(file, currentState))]
    {
      TableSet(fileOrder, files, file, currentState);
      if file !in files {
        fileOrder := fileOrder + [file];
      }
      files := files[file := currentState];
      var notice := UpdateNotice(file, currentState);
      ghost var n := |client.allIds|;
      status := client.Request(FileTable.FILE_NOTIFICATION, notice);
      NoticeRequest(client.allIds[n], notice);
    }

    /** `update_file` as written: the table is updated, then the base call
        raises TypeError and nothing is sent. */
    method UpdateFileAsWritten(file: string, currentState: string) returns (status: Status)
      requires Valid()
      modifies this`files, this`fileOrder, client`allIds, client`currentIds, client`idCommands, client`requestQueue
      ensures Valid() && status == Fail(TypeError)
      ensures files == old(files)[file := currentState]
      ensures client.Snapshot() == old(client.Snapshot()) && client.requestQueue == old(client.requestQueue)
    {
      TableSet(fileOrder, files, file, currentState);
      if file !in files {
        fileOrder := fileOrder + [file];
      }
      files := files[file := currentState];
      var notification := UpdateNotice(file, files[file])["command" := VStr(FileTable.FILE_NOTIFICATION)];
      status := client.RequestAny(VDict(notification), map[]);
    }

    /** `remove_file` as intended: an unknown file raises
        CollegamentoError; a known one is announced as removed. The
        client's own table keeps the file. */
    method RemoveFile(file: string) returns (status: Status)
      requires Valid() && (file in files ==> |client.allIds| < client.idMax)
      modifies client`allIds, client`currentIds, client`idCommands, client`requestQueue
      ensures Valid()
      ensures file !in files ==>
        status == Fail(CollegamentoError) && client.Snapshot() == old(client.Snapshot()) && client.requestQueue == old(client.requestQueue)
      ensures file in files ==>
        && status == Pass && |client.allIds| == |old(client.allIds)| + 1
        && var id := client.allIds[|old(client.allIds)|];
        && client.Snapshot() == Requested(old(client.Snapshot()), id, FileTable.FILE_NOTIFICATION)
        && client.requestQueue == old(client.requestQueue) + [NoticeMessage(id, RemoveNotice(file))]
    {
      if file !in files {
        return Fail(CollegamentoError);
      }
      ghost var n := |client.allIds|;
      status := client.Request(FileTable.FILE_NOTIFICATION, RemoveNotice(file));
      NoticeRequest(client.allIds[n], RemoveNotice(file));
    }

    /** `remove_file` as written: after the membership check the base call
        raises TypeError and nothing is sent. */
    method RemoveFileAsWritten(file: string) returns (status: Status)
      requires Valid()
      modifies client`allIds, client`currentIds, client`idCommands, client`requestQueue
      ensures Valid()
      ensures status == Fail(if file in files then TypeError else CollegamentoError)
      ensures client.Snapshot() == old(client.Snapshot()) && client.requestQueue == old(client.requestQueue)
    {
      if file !in files {
        return Fail(CollegamentoError);
      }
      var notification := RemoveNotice(file)["command" := VStr(FileTable.FILE_NOTIFICATION)];
      status := client.RequestAny(VDict(notification), map[]);
    }

    /** The replay in `create_server` after a new worker starts: the table is
        emptied and every file is sent again through `update_file`, in the
        table's order, which rebuilds the same table. */
    method ReplayFiles() returns (status: Status)
      requires Valid() && |client.allIds| + |fileOrder| <= client.idMax
      modifies this`files, this`fileOrder, client`allIds, client`currentIds, client`idCommands, client`requestQueue
      ensures Valid() && status == Pass
      ensures files == old(files) && fileOrder == old(fileOrder)
      ensures |client.allIds| == |old(client.allIds)| + |fileOrder|
      ensures var ids := client.allIds[|old(client.allIds)|..];
        && client.Snapshot() == RequestedAll(old(client.Snapshot()), ids, FileTable.FILE_NOTIFICATION)
        && client.requestQueue == old(client.requestQueue) + Notices(ids, fileOrder, files)
    {
      var filesCopy := files;
      var order := fileOrder;
      ghost var l := client.Snapshot();
      ghost var queue := client.requestQueue;
      files := map[];
      fileOrder := [];
      status := Pass;
      var i := 0;
      ghost var ids: seq<int> := [];
      while i < |order|
        invariant 0 <= i <= |order|
        invariant Replaying(l, queue, ids, order, filesCopy, i) && status == Pass
      {
        ids := ReplayNext(l, queue, ids, order, filesCopy, i);
        i := i + 1;
      }
      assert order[..i] == order;
      assert files == filesCopy;
      assert client.allIds[|l.allIds|..] == ids;
    }

    /** The state of the replay after the first `i` names of `order`. */
    ghost predicate Replaying(l: Ledger, queue: seq<Message>, ids: seq<int>, order: seq<string>, filesCopy: map<string, string>, i: int)
      reads this, client
    {
      && 0 <= i <= |order| && Distinct(order) && (forall f :: f in order <==> f in filesCopy)
      && |l.allIds| + |order| <= client.idMax && FileTable.FILE_NOTIFICATION in l.commands
      && Valid()
      && fileOrder == order[..i]
      && (forall f :: f in files ==> files[f] == filesCopy[f])
      && |ids| == i && client.allIds == l.allIds + ids
      && client.Snapshot() == RequestedAll(l, ids, FileTable.FILE_NOTIFICATION)
      && client.requestQueue == queue + Notices(ids, order[..i], filesCopy)
    }

    /** One round of the replay: `update_file` on the next name. */
    method ReplayNext(ghost l: Ledger, ghost queue: seq<Message>, ghost ids: seq<int>, order: seq<string>, filesCopy: map<string, string>, i: int)
        returns (ghost ids': seq<int>)
      requires i < |order| && Replaying(l, queue, ids, order, filesCopy, i)
      modifies this`files, this`fileOrder, client`allIds, client`currentIds, client`idCommands, client`requestQueue
      ensures Replaying(l, queue, ids', order, filesCopy, i + 1)
    {
      var file := order[i];
      PrefixStep(order, i);
      var status := UpdateFile(file, filesCopy[file]);
      ghost var id := client.allIds[|l.allIds| + i];
      RequestedAllSnoc(l, ids, id, FileTable.FILE_NOTIFICATION);
      NoticesSnoc(queue, ids, order[..i], filesCopy, id, file);
      ids' := ids + [id];
    }
  }

  /** The command table the file client gives its base client: the caller's
      commands plus the file notification, registered so that every
      notification in a pass is kept. */
  function FileCommands(specs: map<string, CommandSpec>): (c: map<string, CommandSpec>)
    ensures c.Keys == specs.Keys + {FileTable.FILE_NOTIFICATION}
    ensures Normalise(c[FileTable.FILE_NOTIFICATION]) == Entry(UpdateFiles, true)
    ensures forall k :: k in specs && k != FileTable.FILE_NOTIFICATION ==> c[k] == specs[k]
  {
    specs[FileTable.FILE_NOTIFICATION := Pair(Entry(UpdateFiles, true))]
  }

  /** The table `FileClient.__init__` builds as written: the notification
      handler is a bare function, so it allows a single pending request. */
  function FileCommandsAsWritten(specs: map<string, CommandSpec>): (c: map<string, CommandSpec>)
    ensures c.Keys == specs.Keys + {FileTable.FILE_NOTIFICATION}
    ensures Normalise(c[FileTable.FILE_NOTIFICATION]) == Entry(UpdateFiles, false)
    ensures forall k :: k in specs && k != FileTable.FILE_NOTIFICATION ==> c[k] == specs[k]
  {
    specs[FileTable.FILE_NOTIFICATION := Bare(UpdateFiles)]
  }
}
