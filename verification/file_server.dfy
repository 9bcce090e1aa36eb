/** The worker of the file variant (`collegamento.files_variant.FileServer`)
    receiving the file client's notifications: how one notification changes
    the worker's table, where notifications go in a pass's schedule, and
    what one pass over a burst of them (the replay after a restart) leaves
    in the table under each registration of the notification command. */
module FileReplay {
  import opened Messages
  import opened Scheduling
  import opened DispatchSpec
  import opened FileVariant
  import FileTable

  /** An update notification stores the contents the client stored; the
      worker does not substitute a notification's own `file` field. */
  lemma UpdateApplied(files: map<string, string>, commands: map<string, Entry>, id: int, f: string, contents: string,
                      userFn: (nat, Message) -> Value)
    requires FileTable.FILE_NOTIFICATION in commands && commands[FileTable.FILE_NOTIFICATION].handler == UpdateFiles
    ensures Answer(files, commands, NoticeMessage(id, UpdateNotice(f, contents)), true, userFn)
      == Ok((files[f := contents], Response(id, false, Some(FileTable.FILE_NOTIFICATION), Some(VNone))))
  {
    var m := NoticeMessage(id, UpdateNotice(f, contents));
    assert FileTable.Substitute(files, m) == Ok(m);
    assert FileTable.UpdateFiles(files, m) == Ok(files[f := contents]);
  }

  /** A removal notification drops the file from the worker's table, and
      the worker raises KeyError for a file it does not hold. */
  lemma RemoveApplied(files: map<string, string>, commands: map<string, Entry>, id: int, f: string,
                      userFn: (nat, Message) -> Value)
    requires FileTable.FILE_NOTIFICATION in commands && commands[FileTable.FILE_NOTIFICATION].handler == UpdateFiles
    ensures Answer(files, commands, NoticeMessage(id, RemoveNotice(f)), true, userFn)
      == if f in files then Ok((files - {f}, Response(id, false, Some(FileTable.FILE_NOTIFICATION), Some(VNone))))
         else Raised(KeyError)
  {
    var m := NoticeMessage(id, RemoveNotice(f));
    assert FileTable.Substitute(files, m) == Ok(m);
    assert FileTable.UpdateFiles(files, m) == if f in files then Ok(files - {f}) else Raised(KeyError);
  }

  /** After `remove_file` the client still holds the file, so its check lets
      a request naming it through, but the worker, which dropped it, raises
      KeyError when it substitutes the contents. */
  lemma RemovedFileStillAccepted(clientFiles: map<string, string>, workerFiles: map<string, string>, r: Request, f: string)
    requires f in clientFiles && "file" in r.fields && r.fields["file"] == VStr(f)
    requires CommandOf(r) != FileTable.FILE_NOTIFICATION
    ensures FileCheck(clientFiles, r.fields) == Pass
    ensures FileTable.Substitute(workerFiles - {f}, r) == Raised(KeyError)
  {
  }

  /** In the file worker's schedule every file notification runs before
      every other request, so a request sees the files sent before it. */
  lemma NotificationsFirst(s: seq<Request>, i: int, j: int)
    requires 0 <= i < j < |SortByKey(s, [FileTable.FILE_NOTIFICATION])|
    requires CommandOf(SortByKey(s, [FileTable.FILE_NOTIFICATION])[j]) == FileTable.FILE_NOTIFICATION
    ensures CommandOf(SortByKey(s, [FileTable.FILE_NOTIFICATION])[i]) == FileTable.FILE_NOTIFICATION
  {
    var t := SortByKey(s, [FileTable.FILE_NOTIFICATION]);
    SortIsSorted(s, [FileTable.FILE_NOTIFICATION]);
    assert KeyLe(Key(t[i], [FileTable.FILE_NOTIFICATION]), Key(t[j], [FileTable.FILE_NOTIFICATION]));
  }

  // One pass over a burst of notifications.

  /** The bookkeeping after recording notifications `n` for a command that
      keeps every request. */
  function Pending(b: Book, n: seq<Request>): Book
    requires FileTable.FILE_NOTIFICATION in b.newestIds && FileTable.FILE_NOTIFICATION in b.newestRequests
  {
    var c := FileTable.FILE_NOTIFICATION;
    b.(allIds := b.allIds + IdsOf(n),
       newestIds := b.newestIds[c := b.newestIds[c] + IdsOf(n)],
       newestRequests := b.newestRequests[c := b.newestRequests[c] + n])
  }

  /** With the notification registered for multiple requests, the drain
      keeps every notification, in arrival order, and answers none yet. */
  lemma {:induction false} DrainNotices(b: Book, n: seq<Request>)
    requires BookValid(b) && FileTable.FILE_NOTIFICATION in b.commands && b.commands[FileTable.FILE_NOTIFICATION].multiple
    requires forall k :: 0 <= k < |n| ==> CommandOf(n[k]) == FileTable.FILE_NOTIFICATION
    ensures DrainAll(b, n) == Ok(Parsed(Pending(b, n), []))
    decreases |n|
  {
    if n == [] {
      PendingNone(b);
    } else {
      var init := n[..|n| - 1];
      var m := n[|n| - 1];
      DrainNotices(b, init);
      RecordPending(b, init, m);
      NoticeParsed(Pending(b, init), m);
      DrainQuiet(b, init, m, Pending(b, init), Pending(b, init + [m]));
      LastSplit(n);
    }
  }

  /** `parse_line` on a notification records it and answers nothing. */
  lemma NoticeParsed(p: Book, m: Request)
    requires BookValid(p) && CommandOf(m) == FileTable.FILE_NOTIFICATION && FileTable.FILE_NOTIFICATION in p.commands
    ensures ParseStep(p, m) == Ok(Parsed(Record(p, m), []))
  {
  }

  /** Recording one more notification extends the pending lists by it. */
  lemma RecordPending(b: Book, init: seq<Request>, m: Request)
    requires FileTable.FILE_NOTIFICATION in b.commands && b.commands[FileTable.FILE_NOTIFICATION].multiple
    requires FileTable.FILE_NOTIFICATION in b.newestIds && FileTable.FILE_NOTIFICATION in b.newestRequests
    requires CommandOf(m) == FileTable.FILE_NOTIFICATION
    ensures Record(Pending(b, init), m) == Pending(b, init + [m])
  {
    var c := FileTable.FILE_NOTIFICATION;
    IdsOfConcat(init, [m]);
    assert IdsOf([m]) == [m.id];
    var ids := b.newestIds[c] + IdsOf(init);
    var reqs := b.newestRequests[c] + init;
    assert ids + [m.id] == b.newestIds[c] + IdsOf(init + [m]);
    assert reqs + [m] == b.newestRequests[c] + (init + [m]);
    var p := Pending(b, init);
    assert p.commands[c].multiple && p.newestIds[c] == ids && p.newestRequests[c] == reqs;
    var r := Record(p, m);
    assert r.newestIds == b.newestIds[c := ids][c := ids + [m.id]];
    assert r.newestRequests == b.newestRequests[c := reqs][c := reqs + [m]];
    assert b.newestIds[c := ids][c := ids + [m.id]] == b.newestIds[c := ids + [m.id]];
    assert b.newestRequests[c := reqs][c := reqs + [m]] == b.newestRequests[c := reqs + [m]];
  }

  lemma PendingNone(b: Book)
    requires FileTable.FILE_NOTIFICATION in b.newestIds && FileTable.FILE_NOTIFICATION in b.newestRequests
    ensures Pending(b, []) == b
  {
    var c := FileTable.FILE_NOTIFICATION;
    assert IdsOf([]) == [];
    assert b.newestIds[c] + [] == b.newestIds[c] && b.newestRequests[c] + [] == b.newestRequests[c];
    assert b.newestIds[c := b.newestIds[c]] == b.newestIds;
    assert b.newestRequests[c := b.newestRequests[c]] == b.newestRequests;
  }

  /** The drain of one more message is one more `parse_line` step. */
  lemma DrainSnoc(b: Book, init: seq<Message>, m: Message, p: Parsed, q: Parsed)
    requires BookValid(b) && DrainAll(b, init) == Ok(p) && ParseStep(p.book, m) == Ok(q)
    ensures DrainAll(b, init + [m]) == Ok(Parsed(q.book, p.out + q.out))
  {
    assert (init + [m])[..|init|] == init;
  }

  /** A drain step that answers nothing keeps the drain's answers empty. */
  lemma DrainQuiet(b: Book, init: seq<Message>, m: Message, p: Book, q: Book)
    requires BookValid(b) && DrainAll(b, init) == Ok(Parsed(p, [])) && ParseStep(p, m) == Ok(Parsed(q, []))
    ensures DrainAll(b, init + [m]) == Ok(Parsed(q, []))
  {
    DrainSnoc(b, init, m, Parsed(p, []), Parsed(q, []));
    assert Parsed(p, []).out + Parsed(q, []).out == [];
  }

  lemma LastSplit<T>(s: seq<T>)
    requires s != []
    ensures s == s[..|s| - 1] + [s[|s| - 1]]
  {
  }

  /** Flattening pending lists of which only `c`'s may be non-empty gives
      `c`'s list. */
  lemma {:induction false} FlattenOne(order: seq<string>, reqs: map<string, seq<Request>>, c: string)
    requires Distinct(order) && forall d :: d in order ==> d in reqs
    requires forall d :: d in order && d != c ==> reqs[d] == []
    ensures Flatten(order, reqs) == if c in order then reqs[c] else []
  {
    if order != [] {
      assert Distinct(order[1..]) by {
        forall i, j | 0 <= i < j < |order[1..]|
          ensures order[1..][i] != order[1..][j]
        {
          assert order[1..][i] == order[i + 1] && order[1..][j] == order[j + 1];
        }
      }
      FlattenOne(order[1..], reqs, c);
      if order[0] == c {
        assert c !in order[1..] by {
          forall j | 0 <= j < |order[1..]|
            ensures order[1..][j] != c
          {
            assert order[1..][j] == order[j + 1];
          }
        }
      }
    }
  }

  /** Requests that all share one command keep their order under the
      stable sort. */
  lemma {:induction false} SortOneCommand(s: seq<Request>, c: string, priority: seq<string>)
    requires forall k :: 0 <= k < |s| ==> CommandOf(s[k]) == c
    ensures SortByKey(s, priority) == s
  {
    if s != [] {
      SortOneCommand(s[1..], c, priority);
      assert s == [s[0]] + s[1..];
    }
  }

  /** The answers to notifications with these ids: none cancelled. */
  function Answers(ids: seq<int>): (rs: seq<Response>)
    ensures |rs| == |ids|
    ensures forall k :: 0 <= k < |ids| ==>
      rs[k].id == ids[k] && !rs[k].cancelled && rs[k].command == Some(FileTable.FILE_NOTIFICATION)
  {
    seq(|ids|, k requires 0 <= k < |ids| => Response(ids[k], false, Some(FileTable.FILE_NOTIFICATION), Some(VNone)))
  }

  /** The part of a table the names cover. */
  function Restrict(files: map<string, string>, names: seq<string>): (r: map<string, string>)
    requires forall f :: f in names ==> f in files
    ensures r.Keys == set f | f in names
    ensures forall f :: f in r ==> r[f] == files[f]
  {
    map f | f in names :: files[f]
  }

  lemma RestrictCons(acc: map<string, string>, files: map<string, string>, names: seq<string>)
    requires names != [] && forall f :: f in names ==> f in files
    ensures acc[names[0] := files[names[0]]] + Restrict(files, names[1..]) == acc + Restrict(files, names)
  {
    assert forall f :: f in names <==> f == names[0] || f in names[1..];
  }

  lemma AnswersCons(ids: seq<int>)
    requires ids != []
    ensures Answers(ids) == [Response(ids[0], false, Some(FileTable.FILE_NOTIFICATION), Some(VNone))] + Answers(ids[1..])
  {
  }

  /** Executing update notifications one after the other stores each file
      and answers each notification uncancelled. */
  lemma {:induction false} AnswerNotices(acc: map<string, string>, commands: map<string, Entry>, ids: seq<int>, names: seq<string>,
                                         files: map<string, string>, userFn: (nat, Message) -> Value)
    requires |ids| == |names| && forall f :: f in names ==> f in files
    requires FileTable.FILE_NOTIFICATION in commands && commands[FileTable.FILE_NOTIFICATION].handler == UpdateFiles
    ensures AnswerAll(acc, commands, Notices(ids, names, files), true, userFn) == Ok(Executed(acc + Restrict(files, names), Answers(ids)))
    decreases |names|
  {
    var ns := Notices(ids, names, files);
    if names == [] {
      assert acc + Restrict(files, names) == acc;
    } else {
      var f := names[0];
      UpdateApplied(acc, commands, ids[0], f, files[f], userFn);
      assert ns[1..] == Notices(ids[1..], names[1..], files);
      AnswerNotices(acc[f := files[f]], commands, ids[1..], names[1..], files, userFn);
      RestrictCons(acc, files, names);
      AnswersCons(ids);
    }
  }

  /** No seen id is stale when every one of them is still pending. */
  lemma NoneStale(allIds: seq<int>, accepted: seq<int>)
    requires forall x :: x in allIds ==> x in accepted
    ensures StaleResponses(allIds, accepted) == []
  {
    var out := StaleResponses(allIds, accepted);
    if out != [] {
      assert ResponseIds(out)[0] in ResponseIds(out);
    }
  }

  /** Executing a pass whose only pending requests are update
      notifications stores every notified file and answers each
      notification uncancelled. */
  lemma NoticesExecuted(d: Book, ids: seq<int>, names: seq<string>, files: map<string, string>,
                        userFn: (nat, Message) -> Value)
    requires BookValid(d) && FileTable.FILE_NOTIFICATION in d.commands
    requires d.commands[FileTable.FILE_NOTIFICATION].handler == UpdateFiles
    requires |ids| == |names| && forall f :: f in names ==> f in files
    requires d.newestRequests[FileTable.FILE_NOTIFICATION] == Notices(ids, names, files)
    requires forall e :: e in d.newestRequests && e != FileTable.FILE_NOTIFICATION ==> d.newestRequests[e] == []
    ensures IdsOf(Flatten(d.order, d.newestRequests)) == ids
    ensures AnswerAll(map[], d.commands, Schedule(d, [FileTable.FILE_NOTIFICATION]), true, userFn)
      == Ok(Executed(Restrict(files, names), Answers(ids)))
  {
    var c := FileTable.FILE_NOTIFICATION;
    var n := Notices(ids, names, files);
    ScheduleOneCommand(d, c, n);
    AnswerNotices(map[], d.commands, ids, names, files, userFn);
    EmptyUnion(Restrict(files, names));
    assert IdsOf(n) == ids;
  }

  /** A whole pass, once its drain and its execution are known: the stale
      cancellations follow the drain's answers, then the execution's. */
  lemma PassOf(b: Book, files: map<string, string>, priority: seq<string>, substitutes: bool,
               userFn: (nat, Message) -> Value, inbox: seq<Message>, p: Parsed, x: Executed)
    requires BookValid(b) && inbox != [] && DrainAll(b, inbox) == Ok(p)
    requires AnswerAll(files, p.book.commands, Schedule(p.book, priority), substitutes, userFn) == Ok(x)
    ensures RunPass(b, files, priority, substitutes, userFn, inbox).Ok?
    ensures RunPass(b, files, priority, substitutes, userFn, inbox).value.files == x.files
    ensures RunPass(b, files, priority, substitutes, userFn, inbox).value.out
      == p.out + (StaleResponses(p.book.allIds, IdsOf(Flatten(p.book.order, p.book.newestRequests))) + x.out)
  {
  }

  /** When only one command has pending requests, the pass executes them
      in arrival order. */
  lemma ScheduleOneCommand(d: Book, c: string, n: seq<Request>)
    requires BookValid(d) && c in d.commands && d.newestRequests[c] == n
    requires forall e :: e in d.newestRequests && e != c ==> d.newestRequests[e] == []
    ensures Flatten(d.order, d.newestRequests) == n && Schedule(d, [c]) == n
  {
    FlattenOne(d.order, d.newestRequests, c);
    assert forall k :: 0 <= k < |n| ==> n[k] in d.newestRequests[c];
    SortOneCommand(n, c, [c]);
  }

  lemma EmptyUnion<K, V>(m: map<K, V>)
    ensures map[] + m == m
  {
  }

  /** Recording notifications from an idle state leaves them as the only
      pending requests, and their ids as the ids seen. */
  lemma PendingFromIdle(b: Book, n: seq<Request>)
    requires BookValid(b) && Idle(b) && FileTable.FILE_NOTIFICATION in b.commands
    ensures var d := Pending(b, n);
      && d.commands == b.commands && d.allIds == IdsOf(n)
      && d.newestRequests[FileTable.FILE_NOTIFICATION] == n
      && forall e :: e in d.newestRequests && e != FileTable.FILE_NOTIFICATION ==> d.newestRequests[e] == []
  {
  }

  /** With the notification registered for multiple requests, the pass
      that follows a replay of the client's table leaves the worker's table
      equal to the client's and answers every notification uncancelled. */
  lemma ReplayPassRebuilds(specs: map<string, CommandSpec>, b: Book, ids: seq<int>, names: seq<string>,
                           files: map<string, string>, userFn: (nat, Message) -> Value)
    requires BookValid(b) && Idle(b)
    requires FileTable.FILE_NOTIFICATION in b.commands
    requires b.commands[FileTable.FILE_NOTIFICATION] == Normalise(FileCommands(specs)[FileTable.FILE_NOTIFICATION])
    requires |ids| == |names| && names != [] && forall f :: f in names <==> f in files
    ensures var res := RunPass(b, map[], [FileTable.FILE_NOTIFICATION], true, userFn, Notices(ids, names, files));
      res.Ok? && res.value.files == files && res.value.out == Answers(ids)
  {
    var c := FileTable.FILE_NOTIFICATION;
    var n := Notices(ids, names, files);
    DrainNotices(b, n);
    var d := Pending(b, n);
    PendingFromIdle(b, n);
    NoticesExecuted(d, ids, names, files, userFn);
    RestrictAll(files, names);
    NoneStale(IdsOf(n), ids);
    PassOf(b, map[], [c], true, userFn, n, Parsed(d, []), Executed(Restrict(files, names), Answers(ids)));
  }

  lemma RestrictOne(files: map<string, string>, f: string)
    requires f in files
    ensures Restrict(files, [f]) == map[f := files[f]]
  {
    assert forall g :: g in [f] <==> g == f;
    assert Restrict(files, [f]).Keys == {f};
  }

  lemma RestrictAll(files: map<string, string>, names: seq<string>)
    requires forall f :: f in names <==> f in files
    ensures Restrict(files, names) == files
  {
  }

  /** As registered by `FileClient.__init__` (a bare function, so a single
      pending request), two notifications read in the same pass keep only
      the second: the first is cancelled and its file never reaches the
      worker's table. */
  lemma SingleRegistrationDropsFile(userFn: (nat, Message) -> Value)
    ensures var c := FileTable.FILE_NOTIFICATION;
      var b := Initial(map[c := Normalise(FileCommandsAsWritten(map[])[c])], [c]);
      var files := map["a" := "x", "b" := "y"];
      var res := RunPass(b, map[], [c], true, userFn, Notices([1, 2], ["a", "b"], files));
      res.Ok? && res.value.files == map["b" := "y"]
      && res.value.out == [SimpleResponse(1, true), Response(2, false, Some(c), Some(VNone))]
  {
    var c := FileTable.FILE_NOTIFICATION;
    var b := Initial(map[c := Entry(UpdateFiles, false)], [c]);
    var files := map["a" := "x", "b" := "y"];
    SingleKeepsLast(b, [1, 2], ["a", "b"], files, userFn);
    DroppedOuts();
  }

  lemma DroppedOuts()
    ensures StaleResponses([1, 2], [2]) + Answers([2])
      == [SimpleResponse(1, true), Response(2, false, Some(FileTable.FILE_NOTIFICATION), Some(VNone))]
  {
    assert StaleResponses([1, 2], [2]) == [SimpleResponse(1, true)];
  }

  /** Two notifications in one pass for a single-request command: the
      worker stores only the second file and cancels the first id. */
  lemma SingleKeepsLast(b: Book, ids: seq<int>, names: seq<string>, files: map<string, string>,
                        userFn: (nat, Message) -> Value)
    requires BookValid(b) && Idle(b)
    requires FileTable.FILE_NOTIFICATION in b.commands && b.commands[FileTable.FILE_NOTIFICATION] == Entry(UpdateFiles, false)
    requires |ids| == |names| == 2 && forall f :: f in names ==> f in files
    ensures var res := RunPass(b, map[], [FileTable.FILE_NOTIFICATION], true, userFn, Notices(ids, names, files));
      && res.Ok? && res.value.files == map[names[1] := files[names[1]]]
      && res.value.out == StaleResponses(ids, [ids[1]]) + Answers([ids[1]])
  {
    var c := FileTable.FILE_NOTIFICATION;
    var d := TwoNoticesSingle(b, Notices(ids, names, files));
    LastNotice(ids, names, files);
    SingleRun(d, ids[1], names[1], files, userFn);
    PassOf(b, map[], [c], true, userFn, Notices(ids, names, files), Parsed(d, []),
           Executed(map[names[1] := files[names[1]]], Answers([ids[1]])));
  }

  /** The last of two notifications, as a replay of its file alone. */
  lemma LastNotice(ids: seq<int>, names: seq<string>, files: map<string, string>)
    requires |ids| == |names| == 2 && forall f :: f in names ==> f in files
    ensures [Notices(ids, names, files)[1]] == Notices([ids[1]], [names[1]], files)
    ensures [Notices(ids, names, files)[0].id, Notices(ids, names, files)[1].id] == ids
  {
  }

  /** The execution half: the one pending notification stores its file
      and nothing else. */
  lemma SingleRun(d: Book, id1: int, f1: string, files: map<string, string>, userFn: (nat, Message) -> Value)
    requires BookValid(d) && FileTable.FILE_NOTIFICATION in d.commands
    requires d.commands[FileTable.FILE_NOTIFICATION].handler == UpdateFiles
    requires f1 in files
    requires d.newestRequests[FileTable.FILE_NOTIFICATION] == Notices([id1], [f1], files)
    requires forall e :: e in d.newestRequests && e != FileTable.FILE_NOTIFICATION ==> d.newestRequests[e] == []
    ensures IdsOf(Flatten(d.order, d.newestRequests)) == [id1]
    ensures AnswerAll(map[], d.commands, Schedule(d, [FileTable.FILE_NOTIFICATION]), true, userFn)
      == Ok(Executed(map[f1 := files[f1]], Answers([id1])))
  {
    NoticesExecuted(d, [id1], [f1], files, userFn);
    RestrictOne(files, f1);
  }

  /** The drain of two notifications for a single-request command: the
      second replaces the first, and both ids are seen. */
  lemma TwoNoticesSingle(b: Book, n: seq<Request>) returns (d: Book)
    requires BookValid(b) && Idle(b) && |n| == 2
    requires FileTable.FILE_NOTIFICATION in b.commands && !b.commands[FileTable.FILE_NOTIFICATION].multiple
    requires CommandOf(n[0]) == FileTable.FILE_NOTIFICATION && CommandOf(n[1]) == FileTable.FILE_NOTIFICATION
    ensures DrainAll(b, n) == Ok(Parsed(d, []))
    ensures d.commands == b.commands && d.allIds == [n[0].id, n[1].id]
    ensures d.newestRequests[FileTable.FILE_NOTIFICATION] == [n[1]]
    ensures forall e :: e in d.newestRequests && e != FileTable.FILE_NOTIFICATION ==> d.newestRequests[e] == []
  {
    var b1 := Record(b, n[0]);
    RecordKeepsValid(b, n[0]);
    NoticeParsed(b, n[0]);
    DrainSnoc(b, [], n[0], Parsed(b, []), Parsed(b1, []));
    EmptyOuts(n[0], b1);
    NoticeParsed(b1, n[1]);
    d := Record(b1, n[1]);
    DrainSnoc(b, [n[0]], n[1], Parsed(b1, []), Parsed(d, []));
    PairSplit(n);
    RecordTwice(b, n[0], n[1]);
  }

  lemma EmptyOuts(m: Message, b: Book)
    ensures [] + [m] == [m] && Parsed(b, []).out + Parsed(b, []).out == []
  {
  }

  lemma PairSplit<T>(s: seq<T>)
    requires |s| == 2
    ensures [s[0]] + [s[1]] == s
  {
  }

  /** Two requests recorded for a single-request command from an idle
      state: only the second stays pending, both ids are seen. */
  lemma RecordTwice(b: Book, m0: Request, m1: Request)
    requires BookValid(b) && Idle(b)
    requires CommandOf(m0) == FileTable.FILE_NOTIFICATION && CommandOf(m1) == FileTable.FILE_NOTIFICATION
    requires FileTable.FILE_NOTIFICATION in b.commands && !b.commands[FileTable.FILE_NOTIFICATION].multiple
    ensures var d := Record(Record(b, m0), m1);
      && d.commands == b.commands && d.allIds == [m0.id, m1.id]
      && d.newestRequests[FileTable.FILE_NOTIFICATION] == [m1]
      && forall e :: e in d.newestRequests && e != FileTable.FILE_NOTIFICATION ==> d.newestRequests[e] == []
  {
  }
}
