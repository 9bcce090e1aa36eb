/** The file table of the file variant as the worker sees it: the built-in
    `update_files` handler and the substitution `FileServer.handle_request`
    performs before delegating to the base server. */
module FileTable {
  import opened Messages

  const FILE_NOTIFICATION: string := "FileNotification"

  /** `update_files(server, request)`: with a truthy `remove` it pops the named
      file (KeyError if absent), otherwise it stores `contents` under it.
      A missing key raises KeyError; a file name or contents that is not a
      string is rejected by the runtime type checker (TypeError). */
  function UpdateFiles(files: map<string, string>, r: Message): (res: Result<map<string, string>>)
    ensures "file" !in r.fields ==> res == Raised(KeyError)
    ensures "file" in r.fields && !r.fields["file"].VStr? ==> res == Raised(TypeError)
    ensures res.Ok? ==>
      && "file" in r.fields && r.fields["file"].VStr? && "remove" in r.fields
      && var f := r.fields["file"].s;
      && (Truthy(r.fields["remove"]) ==> f in files && res.value == files - {f})
      && (!Truthy(r.fields["remove"]) ==>
            "contents" in r.fields && r.fields["contents"].VStr? && res.value == files[f := r.fields["contents"].s])
    ensures res.Ok? ==> forall g :: g in files && g != r.fields["file"].s ==> g in res.value && res.value[g] == files[g]
    ensures res.Ok? ==> forall g :: g in res.value ==> g in files || g == r.fields["file"].s
    ensures "file" in r.fields && r.fields["file"].VStr? && "remove" in r.fields && Truthy(r.fields["remove"]) ==>
      (res.Ok? <==> r.fields["file"].s in files)
  {
    if "file" !in r.fields then Raised(KeyError)
    else if !r.fields["file"].VStr? then Raised(TypeError)
    else
      var f := r.fields["file"].s;
      if "remove" !in r.fields then Raised(KeyError)
      else if Truthy(r.fields["remove"]) then
        if f in files then Ok(files - {f}) else Raised(KeyError)
      else if "contents" !in r.fields then Raised(KeyError)
      else if !r.fields["contents"].VStr? then Raised(TypeError)
      else Ok(files[f := r.fields["contents"].s])
  }

  /** A lookup key that is not a string misses the table, except a list or
      a dict, which are unhashable. */
  function MissError(v: Value): Error
  {
    if v.VList? || v.VDict? then TypeError else KeyError
  }

  /** `FileServer.handle_request` before delegating: a request that is not a
      file notification but names a `file` gets that file's stored contents
      in its place (KeyError when the table has no such file). */
  function Substitute(files: map<string, string>, r: Request): (res: Result<Request>)
    ensures !("file" in r.fields && CommandOf(r) != FILE_NOTIFICATION) ==> res == Ok(r)
    ensures "file" in r.fields && CommandOf(r) != FILE_NOTIFICATION ==>
      (res.Ok? <==> r.fields["file"].VStr? && r.fields["file"].s in files)
    ensures res.Ok? && "file" in r.fields && CommandOf(r) != FILE_NOTIFICATION ==>
      res.value.fields == r.fields["file" := VStr(files[r.fields["file"].s])]
    ensures res.Ok? ==> res.value.id == r.id && res.value.command == r.command && res.value.fields.Keys == r.fields.Keys
  {
    if "file" in r.fields && CommandOf(r) != FILE_NOTIFICATION then
      match r.fields["file"]
      case VStr(f) =>
        if f in files then
          var r': Request := r.(fields := r.fields["file" := VStr(files[f])]);
          Ok(r')
        else Raised(KeyError)
      case v => Raised(MissError(v))
    else Ok(r)
  }
}
