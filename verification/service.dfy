/** `FilesystemService`: one method per tool, each passing the fields of its
    argument record to the storage operation of the same name. The methods
    that change the file system answer with a confirmation naming the path,
    built only once the storage call has returned; an exception from the
    storage passes through unchanged. */
module Service {
  import opened Wrappers
  import opened PyStr
  import opened PathValidation
  import opened FileSystem
  import opened TextIO
  import opened Entities
  import opened Storage
  import Engine = Storage

  /** A confirmation message in place of what the storage call returned, or
      the storage call's exception. */
  function Confirm<T>(o: Outcome<T>, message: string): (r: Outcome<string>)
    ensures r.fs == o.fs
    ensures r.result.Ok? <==> o.result.Ok?
    ensures r.result.Ok? ==> r.result.value == message
    ensures r.result.Err? ==> r.result.error == o.result.error
  {
    match o.result
    case Ok(_) => Outcome(o.fs, Ok(message))
    case Err(e) => Outcome(o.fs, Err(e))
  }

  /** `read_text_file(args)`: `head` and `tail` reach the storage in their own
      positions, so a truthy tail wins and otherwise a truthy head selects. */
  function ReadTextFile(st: Storage, fs: Fs, a: ReadTextFileArgs): (r: Result<string, StorageError>)
    requires IsAbs(st.cwd)
    ensures !Accepts(st, a.path) ==> r == Err(Refusal(st, a.path))
    ensures r.Ok? <==> Accepts(st, a.path) && IsFile(fs, KeyOf(st, a.path))
    ensures r.Ok? ==> r.value == ReadText(fs[KeyOf(st, a.path)].content, a.head, a.tail)
  {
    Engine.ReadTextFile(st, fs, a.path, a.head, a.tail)
  }

  /** `read_multiple_files(args)`: each requested path is answered in exactly
      one of the two dictionaries. */
  function ReadMultipleFiles(st: Storage, fs: Fs, a: ReadMultipleFilesArgs): (r: MultiRead)
    requires IsAbs(st.cwd)
    ensures forall p :: p in r.files || p in r.errors <==> p in a.paths
    ensures r.files.Keys !! r.errors.Keys
    ensures forall p :: p in r.files ==> Accepts(st, p) && IsFile(fs, KeyOf(st, p)) && r.files[p] == Translate(fs[KeyOf(st, p)].content)
  {
    Engine.ReadMultipleFiles(st, fs, a.paths)
  }

  /** `write_file(args)`: the file holds the content, and the answer names the
      path as the caller wrote it. */
  function WriteFile(st: Storage, fs: Fs, a: WriteFileArgs): (r: Outcome<string>)
    requires IsAbs(st.cwd) && Wf(fs)
    ensures Wf(r.fs)
    ensures r.result.Err? ==> r.fs == fs
    ensures !Accepts(st, a.path) ==> r.result == Err(Refusal(st, a.path))
    ensures var k := KeyOf(st, a.path);
      r.result.Ok? <==> Accepts(st, a.path) && !IsDir(fs, k) && !IsFile(fs, ParentKey(k)) && !UnderFile(fs, ParentKey(k))
    ensures var k := KeyOf(st, a.path);
      r.result.Ok? ==>
        && r.result.value == "Arquivo escrito com sucesso: " + a.path
        && k in r.fs && r.fs[k] == File(a.content)
  {
    Confirm(Engine.WriteFile(st, fs, a.path, a.content), "Arquivo escrito com sucesso: " + a.path)
  }

  /** `edit_file(args)`: the edits travel to the storage as `old_text` /
      `new_text` dictionaries, in their order, together with `dry_run`. */
  function EditFile(st: Storage, fs: Fs, a: EditFileArgs, preview: string): (r: Outcome<string>)
    requires IsAbs(st.cwd) && Wf(fs)
    ensures Wf(r.fs)
    ensures r.result.Err? || a.dryRun ==> r.fs == fs
    ensures !Accepts(st, a.path) ==> r.result == Err(Refusal(st, a.path))
    ensures r.result.Ok? <==> Accepts(st, a.path) && IsFile(fs, KeyOf(st, a.path))
    ensures r.result.Ok? && a.dryRun ==> r.result.value == "Preview of changes:\n" + preview
    ensures var k := KeyOf(st, a.path);
      r.result.Ok? && !a.dryRun ==>
        && r.result.value == "File edited successfully."
        && r.fs == fs[k := File(ApplyEdits(Translate(fs[k].content), a.edits))]
  {
    var sent := EditsJson(a.edits);
    EditsRoundTrip(a.edits);
    Engine.EditFile(st, fs, a.path, EditsOf(sent), a.dryRun, preview)
  }

  /** `create_directory(args)` */
  function CreateDirectory(st: Storage, fs: Fs, a: CreateDirectoryArgs): (r: Outcome<string>)
    requires IsAbs(st.cwd) && Wf(fs)
    ensures Wf(r.fs)
    ensures r.result.Err? ==> r.fs == fs
    ensures !Accepts(st, a.path) ==> r.result == Err(Refusal(st, a.path))
    ensures var k := KeyOf(st, a.path);
      r.result.Ok? <==> Accepts(st, a.path) && (k in fs || !UnderFile(fs, k))
    ensures var k := KeyOf(st, a.path);
      r.result.Ok? ==>
        && r.result.value == "Diretório criado com sucesso: " + a.path
        && IsDir(r.fs, k) != IsFile(fs, k)
        && (forall x :: x in fs ==> x in r.fs && r.fs[x] == fs[x])
        && (forall x :: x in r.fs && x !in fs ==> IsPrefix(x, k) && r.fs[x] == Dir)
    ensures Accepts(st, a.path) && r.result.Err? ==> r.result.error == Os(ENOTDIR, AbsPath(a.path, st.cwd))
  {
    Confirm(Engine.CreateDirectory(st, fs, a.path), "Diretório criado com sucesso: " + a.path)
  }

  /** `list_directory(args)` */
  method ListDirectory(st: Storage, fs: Fs, a: ListDirectoryArgs) returns (r: Result<seq<FileInfo>, StorageError>)
    requires IsAbs(st.cwd)
    ensures !Accepts(st, a.path) ==> r == Err(Refusal(st, a.path))
    ensures r.Ok? <==> Accepts(st, a.path) && IsDir(fs, KeyOf(st, a.path))
    ensures Accepts(st, a.path) && r.Err? ==> r.error == NotADirectoryListing(a.path)
    ensures r.Ok? ==>
      && Reports(fs, AbsNorm(a.path, st.cwd).lead, Children(fs, KeyOf(st, a.path)), r.value)
      && SortedEntries(r.value)
  {
    r := Engine.ListDirectory(st, fs, a.path);
  }

  /** `list_directory_with_sizes(args)` */
  method ListDirectoryWithSizes(st: Storage, fs: Fs, a: ListDirectoryWithSizesArgs) returns (r: Result<DirectoryListing, StorageError>)
    requires IsAbs(st.cwd)
    ensures !Accepts(st, a.path) ==> r == Err(Refusal(st, a.path))
    ensures r.Ok? <==> Accepts(st, a.path) && IsDir(fs, KeyOf(st, a.path))
    ensures Accepts(st, a.path) && r.Err? ==> r.error == NotADirectoryListing(a.path)
    ensures r.Ok? ==>
      && r.value.path == a.path
      && r.value.totalCount == |r.value.entries| == |Children(fs, KeyOf(st, a.path))|
      && Reports(fs, AbsNorm(a.path, st.cwd).lead, Children(fs, KeyOf(st, a.path)), r.value.entries)
      && SortedEntries(r.value.entries)
  {
    r := Engine.ListDirectoryWithSizes(st, fs, a.path);
  }

  /** `get_file_info(args)` */
  function GetFileInfo(st: Storage, fs: Fs, a: GetFileInfoArgs): (r: Result<FileInfo, StorageError>)
    requires IsAbs(st.cwd)
    ensures !Accepts(st, a.path) ==> r == Err(Refusal(st, a.path))
    ensures r.Ok? <==> Accepts(st, a.path) && KeyOf(st, a.path) in fs
    ensures r.Ok? ==> r.value == FileInfo(a.path, LastName(KeyOf(st, a.path)), IsDir(fs, KeyOf(st, a.path)))
  {
    Engine.GetFileInfo(st, fs, a.path)
  }

  /** `search_files(args)`: the base path, the pattern and the flag reach the
      storage in its own parameter order. */
  method SearchFiles(st: Storage, fs: Fs, a: SearchFilesArgs) returns (r: Result<SearchResult, StorageError>)
    requires IsAbs(st.cwd) && Wf(fs)
    ensures !Accepts(st, a.path) ==> r == Err(Refusal(st, a.path))
    ensures r.Ok? <==> Accepts(st, a.path) && (a.recursive || IsDir(fs, KeyOf(st, a.path)))
    ensures r.Ok? ==>
      && r.value.query == a.pattern && r.value.basePath == a.path
      && r.value.totalMatches == |r.value.matches|
      && Reports(fs, AbsNorm(a.path, st.cwd).lead, Found(fs, KeyOf(st, a.path), a.pattern, a.recursive), r.value.matches)
  {
    r := Engine.SearchFiles(st, fs, a.path, a.pattern, a.recursive);
  }

  /** `move_file(args)`: the answer names both paths as the caller wrote
      them. */
  function MoveFile(st: Storage, fs: Fs, a: MoveFileArgs): (r: Outcome<string>)
    requires IsAbs(st.cwd) && Wf(fs)
    ensures Wf(r.fs)
    ensures !Accepts(st, a.source) ==> r == Outcome(fs, Err(Refusal(st, a.source)))
    ensures Accepts(st, a.source) && !Accepts(st, a.destination) ==> r == Outcome(fs, Err(Refusal(st, a.destination)))
    ensures var sk, dk := KeyOf(st, a.source), KeyOf(st, a.destination);
      r.result.Ok? ==>
        && r.result.value == "Movido com sucesso: " + a.source + " → " + a.destination
        && MkdirP(fs, ParentKey(dk)).Ok?
        && Relocated(MkdirP(fs, ParentKey(dk)).value, sk, MoveTarget(fs, sk, dk), r.fs)
  {
    Confirm(Engine.MoveFile(st, fs, a.source, a.destination), "Movido com sucesso: " + a.source + " → " + a.destination)
  }

  /** The answer of a successful `delete_file`, which depends on nothing but
      the flag and the path as written. */
  function DeleteMessage(a: DeleteFileArgs): (r: string)
    ensures EndsWith(r, a.path)
    ensures a.recursive <==> StartsWith(r, "Diretório removido recursivamente")
  {
    if a.recursive then
      var m := "Diretório removido recursivamente: " + a.path;
      assert m[..33] == "Diretório removido recursivamente";
      m
    else
      var m := "Arquivo/Diretório removido: " + a.path;
      assert |m| >= 33 ==> m[..33][0] == 'A';
      m
  }

  /** `delete_file(args)` */
  function DeleteFile(st: Storage, fs: Fs, a: DeleteFileArgs): (r: Outcome<string>)
    requires IsAbs(st.cwd) && Wf(fs)
    ensures Wf(r.fs)
    ensures !Accepts(st, a.path) ==> r == Outcome(fs, Err(Refusal(st, a.path)))
    ensures var k := KeyOf(st, a.path);
      r.result.Ok? <==> Accepts(st, a.path) && k in fs && k != [] && (a.recursive || IsFile(fs, k) || Children(fs, k) == {})
    ensures var k := KeyOf(st, a.path);
      r.result.Ok? ==>
        && r.result.value == DeleteMessage(a)
        && forall x :: x in r.fs <==> x in fs && !IsPrefix(k, x)
  {
    Confirm(Engine.DeleteFile(st, fs, a.path, a.recursive), DeleteMessage(a))
  }

  /** Reading back what `write_file` wrote, with neither head nor tail, gives
      the content, newline-translated. */
  lemma WriteThenReadBack(st: Storage, fs: Fs, path: string, content: string)
    requires IsAbs(st.cwd) && Wf(fs)
    requires WriteFile(st, fs, WriteFileArgs(path, content)).result.Ok?
    ensures ReadTextFile(st, WriteFile(st, fs, WriteFileArgs(path, content)).fs, ReadTextFileArgs(path, None, None)) == Ok(Translate(content))
  {
    Engine.WriteThenRead(st, fs, path, content);
  }

  /** After a successful `delete_file`, `get_file_info` on the same path finds
      nothing there, and neither does any path below it. */
  lemma DeleteThenGone(st: Storage, fs: Fs, a: DeleteFileArgs, below: string)
    requires IsAbs(st.cwd) && Wf(fs)
    requires DeleteFile(st, fs, a).result.Ok?
    requires IsPrefix(KeyOf(st, a.path), KeyOf(st, below))
    ensures GetFileInfo(st, DeleteFile(st, fs, a).fs, GetFileInfoArgs(a.path)).Err?
    ensures GetFileInfo(st, DeleteFile(st, fs, a).fs, GetFileInfoArgs(below)).Err?
  {
    assert IsPrefix(KeyOf(st, a.path), KeyOf(st, a.path));
  }
}
