/** `FilesystemStorage`: the eleven file operations, each acting on the file
    system value `fs` after `validate_path` has admitted its path. A call
    returns the file system as it leaves it together with its result, or the
    exception it raises. */
module Storage {
  import opened Wrappers
  import opened PyStr
  import opened PathValidation
  import opened FileSystem
  import opened TextIO
  import opened Sorting
  import opened Entities
  import Glob

  /** The allowed directories, made absolute when the storage is built, and
      the working directory `os.path.abspath` resolves relative paths against. */
  datatype Storage = Storage(roots: seq<string>, cwd: string)

  /** `FilesystemStorage(allowed_directories)` */
  function NewStorage(dirs: seq<string>, cwd: string): (st: Storage)
    requires IsAbs(cwd)
    ensures st.cwd == cwd && |st.roots| == |dirs|
    ensures forall i :: 0 <= i < |dirs| ==> IsAbs(st.roots[i]) && Norm(st.roots[i]) == AbsNorm(dirs[i], cwd)
  {
    forall i | 0 <= i < |dirs|
      ensures IsAbs(AbsPath(dirs[i], cwd)) && Norm(AbsPath(dirs[i], cwd)) == AbsNorm(dirs[i], cwd)
    {
      AbsNormWf(dirs[i], cwd);
    }
    Storage(seq(|dirs|, i requires 0 <= i < |dirs| => AbsPath(dirs[i], cwd)), cwd)
  }

  /** Making the allowed directories absolute up front admits exactly the
      paths the directories as given would admit, with the same result. */
  lemma NewStorageSameSandbox(dirs: seq<string>, cwd: string, path: string)
    requires IsAbs(cwd)
    ensures ValidatePath(path, NewStorage(dirs, cwd).roots, cwd).Ok? <==> ValidatePath(path, dirs, cwd).Ok?
    ensures ValidatePath(path, NewStorage(dirs, cwd).roots, cwd).Ok? ==>
      ValidatePath(path, NewStorage(dirs, cwd).roots, cwd) == ValidatePath(path, dirs, cwd)
  {
    var st := NewStorage(dirs, cwd);
    forall i | 0 <= i < |dirs|
      ensures AbsNorm(st.roots[i], cwd) == AbsNorm(dirs[i], cwd)
    {
      assert JoinPath(cwd, st.roots[i]) == st.roots[i];
    }
  }

  // ---------------------------------------------------------------------------
  // Errors
  // ---------------------------------------------------------------------------

  /** What an operation raises: a refused path, an `OSError` with its error
      number and file name (two file names for a failed rename), or one of
      the messages the storage and `shutil.move` build themselves. */
  datatype StorageError =
    | Invalid(reason: PathError)
    | Os(errno: Errno, path: string)
    | OsPair(errno: Errno, path: string, path2: string)
    | NotADirectoryListing(path: string)
    | DestinationExists(path: string)
    | MoveIntoItself(source: string, destination: string)

  /** `[Errno N] strerror` as Linux reports it. */
  function ErrnoText(e: Errno): (r: string)
    ensures StartsWith(r, "[Errno ")
  {
    match e
    case ENOENT => "[Errno 2] No such file or directory"
    case EEXIST => "[Errno 17] File exists"
    case ENOTDIR => "[Errno 20] Not a directory"
    case EISDIR => "[Errno 21] Is a directory"
    case ENOTEMPTY => "[Errno 39] Directory not empty"
    case EBUSY => "[Errno 16] Device or resource busy"
  }

  /** `repr` of a list of strings: each item's own `repr`, comma separated. */
  function ListRepr(xs: seq<string>): string {
    "[" + Join(seq(|xs|, i requires 0 <= i < |xs| => Repr(xs[i])), ", ") + "]"
  }

  /** `str(e)` of the raised exception. */
  function ErrorMessage(e: StorageError): (r: string)
    ensures e.Os? || e.OsPair? <==> StartsWith(r, "[Errno ")
    ensures e.Os? ==> EndsWith(r, Repr(e.path))
  {
    match e
    case Os(n, p) => ErrnoText(n) + ": " + Repr(p)
    case OsPair(n, p, q) => ErrnoText(n) + ": " + Repr(p) + " -> " + Repr(q)
    case Invalid(EmptyPath) =>
      var m := "Caminho não pode estar vazio";
      assert m[0] == 'C';
      m
    case Invalid(NotAllowed(p, allowed)) =>
      var m := "Caminho '" + p + "' não está dentro dos diretórios permitidos: " + ListRepr(allowed);
      assert m[0] == 'C';
      m
    case NotADirectoryListing(p) =>
      var m := "'" + p + "' is not a directory.";
      assert m[0] == '\'';
      m
    case DestinationExists(p) =>
      var m := "Destination path '" + p + "' already exists";
      assert m[0] == 'D';
      m
    case MoveIntoItself(s, d) =>
      var m := "Cannot move a directory '" + s + "' into itself '" + d + "'.";
      assert m[0] == 'C';
      m
  }

  /** The file system a call leaves behind, and what the call returned or
      raised. */
  datatype Outcome<T> = Outcome(fs: Fs, result: Result<T, StorageError>)

  // ---------------------------------------------------------------------------
  // Paths
  // ---------------------------------------------------------------------------

  predicate Accepts(st: Storage, path: string)
    requires IsAbs(st.cwd)
  {
    ValidatePath(path, st.roots, st.cwd).Ok?
  }

  /** The refusal `validate_path` raises for a path it does not accept. */
  function Refusal(st: Storage, path: string): StorageError
    requires IsAbs(st.cwd) && !Accepts(st, path)
  {
    Invalid(ValidatePath(path, st.roots, st.cwd).error)
  }

  /** The entry the operating system reaches through the absolute path; the
      kernel reads repeated slashes as one. */
  function KeyOf(st: Storage, path: string): Key
    requires IsAbs(st.cwd)
  {
    AbsNorm(path, st.cwd).comps
  }

  /** `validate_path`, keeping the normalised form of the absolute path it
      returns. */
  function Resolve(st: Storage, path: string): (r: Result<NormPath, StorageError>)
    requires IsAbs(st.cwd)
    ensures r.Ok? <==> Accepts(st, path)
    ensures r.Ok? ==> r.value == AbsNorm(path, st.cwd) && WfAbs(r.value)
    ensures r.Ok? ==> Render(r.value) == ValidatePath(path, st.roots, st.cwd).value
    ensures r.Err? ==> r.error == Refusal(st, path)
  {
    match ValidatePath(path, st.roots, st.cwd)
    case Err(e) => Err(Invalid(e))
    case Ok(v) =>
      AbsNormWf(path, st.cwd);
      Ok(Norm(v))
  }

  /** `os.path.dirname` of a normalised absolute path, normalised. */
  function Parent(n: NormPath): NormPath {
    if n.comps == [] then n else NormPath(n.lead, DropLast(n.comps))
  }

  function ParentKey(k: Key): Key {
    if k == [] then k else DropLast(k)
  }

  /** The last component, or `""` for the root. */
  function LastName(k: Key): string {
    if k == [] then "" else k[|k| - 1]
  }

  /** `os.path.basename` of a normalised absolute path is its last component. */
  lemma BasenameRender(n: NormPath)
    requires WfAbs(n)
    ensures Basename(Render(n)) == LastName(n.comps)
  {
    SplitRender(n);
  }

  /** `open(p, "r").read()`: the stored text after newline translation. */
  function OpenRead(fs: Fs, n: NormPath): Result<string, StorageError> {
    var k := n.comps;
    if IsFile(fs, k) then Ok(Translate(fs[k].content))
    else if k in fs then Err(Os(EISDIR, Render(n)))
    else Err(Os(MissingErrno(fs, k), Render(n)))
  }

  // ---------------------------------------------------------------------------
  // Reading
  // ---------------------------------------------------------------------------

  /** `read_text_file(path, head, tail)`: the file's text, or the lines the
      head or tail selects from it. */
  function ReadTextFile(st: Storage, fs: Fs, path: string, head: Option<int>, tail: Option<int>): (r: Result<string, StorageError>)
    requires IsAbs(st.cwd)
    ensures !Accepts(st, path) ==> r == Err(Refusal(st, path))
    ensures r.Ok? <==> Accepts(st, path) && IsFile(fs, KeyOf(st, path))
    ensures r.Ok? ==> r.value == ReadText(fs[KeyOf(st, path)].content, head, tail)
    ensures Accepts(st, path) && r.Err? ==>
      r.error == Os(if KeyOf(st, path) in fs then EISDIR else MissingErrno(fs, KeyOf(st, path)), AbsPath(path, st.cwd))
  {
    var n :- Resolve(st, path);
    var text :- OpenRead(fs, n);
    var lines := Lines(text);
    if Truthy(tail) then Ok(Concat(lines[TailStart(|lines|, tail.value)..]))
    else if Truthy(head) then Ok(Concat(lines[..HeadCount(|lines|, head.value)]))
    else Ok(text)
  }

  /** The two dictionaries `read_multiple_files` returns. */
  datatype MultiRead = MultiRead(files: map<string, string>, errors: map<string, string>)

  /** `read_multiple_files(paths)`: every path lands in exactly one of the two
      dictionaries, with its text or its error message, whatever happens to
      the other paths. */
  function ReadMultipleFiles(st: Storage, fs: Fs, paths: seq<string>): (r: MultiRead)
    requires IsAbs(st.cwd)
    ensures forall p :: p in r.files <==> p in paths && ReadTextFile(st, fs, p, None, None).Ok?
    ensures forall p :: p in r.errors <==> p in paths && ReadTextFile(st, fs, p, None, None).Err?
    ensures forall p :: p in r.files ==> r.files[p] == ReadTextFile(st, fs, p, None, None).value
    ensures forall p :: p in r.errors ==> r.errors[p] == ErrorMessage(ReadTextFile(st, fs, p, None, None).error)
    decreases |paths|
  {
    if paths == [] then MultiRead(map[], map[])
    else
      var front := paths[..|paths| - 1];
      var p := paths[|paths| - 1];
      var rest := ReadMultipleFiles(st, fs, front);
      assert forall q :: q in paths <==> q in front || q == p;
      match ReadTextFile(st, fs, p, None, None)
      case Ok(text) => rest.(files := rest.files[p := text])
      case Err(e) => rest.(errors := rest.errors[p := ErrorMessage(e)])
  }

  // ---------------------------------------------------------------------------
  // Writing
  // ---------------------------------------------------------------------------

  /** What `write_file` does with an admitted path: create the missing parent
      directories, then open the path for writing. */
  function PutFile(fs: Fs, n: NormPath, content: string): (r: Outcome<()>)
    requires Wf(fs)
    ensures Wf(r.fs)
    ensures r.result.Err? ==> r.fs == fs
    ensures var k := n.comps;
      r.result.Ok? <==> !IsDir(fs, k) && !IsFile(fs, ParentKey(k)) && !UnderFile(fs, ParentKey(k))
    ensures var k := n.comps;
      r.result.Ok? ==>
        && k in r.fs && r.fs[k] == File(content)
        && (forall x :: x in fs && x != k ==> x in r.fs && r.fs[x] == fs[x])
        && (forall x :: x in r.fs && x !in fs && x != k ==> IsPrefix(x, k) && r.fs[x] == Dir)
    ensures var k := n.comps;
      r.result.Err? ==>
        r.result.error == (if IsDir(fs, k) then Os(EISDIR, Render(n))
                           else Os(if ParentKey(k) in fs then EEXIST else ENOTDIR, Render(Parent(n))))
  {
    var k := n.comps;
    var parent := Parent(n);
    match MkdirP(fs, parent.comps)
    case Err(errno) => Outcome(fs, Err(Os(errno, Render(parent))))
    case Ok(fs1) =>
      if k in fs1 && fs1[k].Dir? then
        assert k in fs;
        Outcome(fs, Err(Os(EISDIR, Render(n))))
      else
        assert k != [];
        PlaceFileWf(fs1, k, content);
        Outcome(fs1[k := File(content)], Ok(()))
  }

  /** A file put where no directory is, inside a present directory, keeps
      the tree well formed. */
  lemma PlaceFileWf(fs: Fs, k: Key, content: string)
    requires Wf(fs) && k != [] && IsDir(fs, DropLast(k)) && !IsDir(fs, k)
    ensures Wf(fs[k := File(content)])
  {
    var r := fs[k := File(content)];
    forall x | x in r && x != []
      ensures DropLast(x) in r && r[DropLast(x)] == Dir
    {
      assert x != k ==> x in fs;
    }
  }

  /** `write_file(path, content)`: creates the missing parent directories,
      then replaces or creates the file. A directory at the path is "Is a
      directory" and a file among the parents stops the directory creation;
      either way nothing changes. */
  function WriteFile(st: Storage, fs: Fs, path: string, content: string): (r: Outcome<()>)
    requires IsAbs(st.cwd) && Wf(fs)
    ensures Wf(r.fs)
    ensures r.result.Err? ==> r.fs == fs
    ensures !Accepts(st, path) ==> r.result == Err(Refusal(st, path))
    ensures var k := KeyOf(st, path);
      r.result.Ok? <==> Accepts(st, path) && !IsDir(fs, k) && !IsFile(fs, ParentKey(k)) && !UnderFile(fs, ParentKey(k))
    ensures var k := KeyOf(st, path);
      r.result.Ok? ==>
        && k in r.fs && r.fs[k] == File(content)
        && (forall x :: x in fs && x != k ==> x in r.fs && r.fs[x] == fs[x])
        && (forall x :: x in r.fs && x !in fs && x != k ==> IsPrefix(x, k) && r.fs[x] == Dir)
    ensures var k := KeyOf(st, path);
      Accepts(st, path) && r.result.Err? ==>
        r.result.error == (if IsDir(fs, k) then Os(EISDIR, AbsPath(path, st.cwd))
                           else Os(if ParentKey(k) in fs then EEXIST else ENOTDIR, Render(Parent(AbsNorm(path, st.cwd)))))
  {
    match Resolve(st, path)
    case Err(e) => Outcome(fs, Err(e))
    case Ok(n) => PutFile(fs, n, content)
  }

  /** Reading a written file gives the content back, newline-translated; text
      without carriage returns comes back exactly. */
  lemma WriteThenRead(st: Storage, fs: Fs, path: string, content: string)
    requires IsAbs(st.cwd) && Wf(fs)
    requires WriteFile(st, fs, path, content).result.Ok?
    ensures ReadTextFile(st, WriteFile(st, fs, path, content).fs, path, None, None) == Ok(Translate(content))
    ensures '\r' !in content ==> ReadTextFile(st, WriteFile(st, fs, path, content).fs, path, None, None) == Ok(content)
  {
    if '\r' !in content {
      TranslateNoCR(content);
    }
  }

  /** A second write to the same path leaves what the second write alone
      would have left: the last write wins. */
  lemma WriteTwice(st: Storage, fs: Fs, path: string, a: string, b: string)
    requires IsAbs(st.cwd) && Wf(fs)
    requires WriteFile(st, fs, path, a).result.Ok?
    ensures WriteFile(st, WriteFile(st, fs, path, a).fs, path, b) == WriteFile(st, fs, path, b)
  {
    var n := AbsNorm(path, st.cwd);
    PutFileTwice(fs, n, a, b);
  }

  lemma PutFileTwice(fs: Fs, n: NormPath, a: string, b: string)
    requires Wf(fs) && PutFile(fs, n, a).result.Ok?
    ensures PutFile(PutFile(fs, n, a).fs, n, b) == PutFile(fs, n, b)
  {
    var p := Parent(n).comps;
    var fs1 := MkdirP(fs, p).value;
    var fsa := fs1[n.comps := File(a)];
    assert n.comps != [] && p == DropLast(n.comps);
    assert IsDir(fsa, p);
    assert MkdirP(fsa, p) == Ok(fsa);
    assert fsa[n.comps := File(b)] == fs1[n.comps := File(b)];
  }

  // ---------------------------------------------------------------------------
  // Editing
  // ---------------------------------------------------------------------------

  /** One edit of `edit_file`: every occurrence of the old text replaced, if
      there is one. */
  function ApplyEdit(text: string, e: EditOperation): string {
    if Contains(text, e.oldText) then Replace(text, e.oldText, e.newText) else text
  }

  /** The edits applied in order, each to the result of the ones before. */
  function ApplyEdits(text: string, edits: seq<EditOperation>): string
    decreases |edits|
  {
    if edits == [] then text else ApplyEdits(ApplyEdit(text, edits[0]), edits[1..])
  }

  /** The `in` test before each replacement changes nothing: replacing an
      absent non-empty text is already the identity, and the empty text
      occurs in every string. */
  lemma ApplyEditIsReplace(text: string, e: EditOperation)
    ensures ApplyEdit(text, e) == Replace(text, e.oldText, e.newText)
  {
    if |e.oldText| == 0 {
      assert OccursAt(text, e.oldText, 0);
    }
  }

  /** Applying a list of edits is applying its first part, then the rest. */
  lemma {:induction false} ApplyEditsAppend(text: string, a: seq<EditOperation>, b: seq<EditOperation>)
    ensures ApplyEdits(text, a + b) == ApplyEdits(ApplyEdits(text, a), b)
    decreases |a|
  {
    if a != [] {
      assert (a + b)[0] == a[0];
      assert (a + b)[1..] == a[1..] + b;
      ApplyEditsAppend(ApplyEdit(text, a[0]), a[1..], b);
    } else {
      assert a + b == b;
    }
  }

  /** An edit whose old text is absent (and not empty) can be dropped. */
  lemma {:induction false} ApplyEditsSkipsAbsent(text: string, e: EditOperation, rest: seq<EditOperation>)
    requires |e.oldText| > 0 && !Contains(text, e.oldText)
    ensures ApplyEdits(text, [e] + rest) == ApplyEdits(text, rest)
  {
    assert ([e] + rest)[1..] == rest;
  }

  /** `edit_file(path, edits, dry_run)`. The dry run returns the preview (the
      unified diff, passed in as `preview`) and changes nothing; otherwise the
      edited text replaces the file. */
  function EditFile(st: Storage, fs: Fs, path: string, edits: seq<EditOperation>, dryRun: bool, preview: string): (r: Outcome<string>)
    requires IsAbs(st.cwd) && Wf(fs)
    ensures Wf(r.fs)
    ensures r.result.Err? || dryRun ==> r.fs == fs
    ensures !Accepts(st, path) ==> r.result == Err(Refusal(st, path))
    ensures r.result.Ok? <==> Accepts(st, path) && IsFile(fs, KeyOf(st, path))
    ensures r.result.Ok? && dryRun ==> r.result.value == "Preview of changes:\n" + preview
    ensures var k := KeyOf(st, path);
      r.result.Ok? && !dryRun ==>
        && r.result.value == "File edited successfully."
        && r.fs == fs[k := File(ApplyEdits(Translate(fs[k].content), edits))]
  {
    match Resolve(st, path)
    case Err(e) => Outcome(fs, Err(e))
    case Ok(n) =>
      match OpenRead(fs, n)
      case Err(e) => Outcome(fs, Err(e))
      case Ok(original) =>
        var modified := ApplyEdits(original, edits);
        if dryRun then Outcome(fs, Ok("Preview of changes:\n" + preview))
        else Outcome(fs[n.comps := File(modified)], Ok("File edited successfully."))
  }

  /** After an edit a reader sees the edited text; with no edits it sees what
      it saw before, although the stored line endings are now `\n`. */
  lemma EditThenRead(st: Storage, fs: Fs, path: string, edits: seq<EditOperation>, preview: string)
    requires IsAbs(st.cwd) && Wf(fs)
    requires EditFile(st, fs, path, edits, false, preview).result.Ok?
    ensures var before := ReadTextFile(st, fs, path, None, None).value;
      ReadTextFile(st, EditFile(st, fs, path, edits, false, preview).fs, path, None, None) == Ok(Translate(ApplyEdits(before, edits)))
    ensures edits == [] ==>
      ReadTextFile(st, EditFile(st, fs, path, edits, false, preview).fs, path, None, None) == ReadTextFile(st, fs, path, None, None)
  {
    var k := KeyOf(st, path);
    TranslateIdempotent(fs[k].content);
  }

  // ---------------------------------------------------------------------------
  // Directories and entries
  // ---------------------------------------------------------------------------

  /** `create_directory(path)`: nothing happens when something already exists
      at the path (a file included); otherwise the directory and its missing
      parents are created, unless a file among the parents stops it. */
  function CreateDirectory(st: Storage, fs: Fs, path: string): (r: Outcome<()>)
    requires IsAbs(st.cwd) && Wf(fs)
    ensures Wf(r.fs)
    ensures r.result.Err? ==> r.fs == fs
    ensures !Accepts(st, path) ==> r.result == Err(Refusal(st, path))
    ensures var k := KeyOf(st, path);
      r.result.Ok? <==> Accepts(st, path) && (k in fs || !UnderFile(fs, k))
    ensures var k := KeyOf(st, path);
      Accepts(st, path) && k in fs ==> r == Outcome(fs, Ok(()))
    ensures var k := KeyOf(st, path);
      r.result.Ok? ==>
        && IsDir(r.fs, k) != IsFile(fs, k)
        && (forall x :: x in fs ==> x in r.fs && r.fs[x] == fs[x])
        && (forall x :: x in r.fs && x !in fs ==> IsPrefix(x, k) && r.fs[x] == Dir)
    ensures Accepts(st, path) && r.result.Err? ==> r.result.error == Os(ENOTDIR, AbsPath(path, st.cwd))
  {
    match Resolve(st, path)
    case Err(e) => Outcome(fs, Err(e))
    case Ok(n) =>
      if n.comps in fs then Outcome(fs, Ok(()))
      else
        match MkdirP(fs, n.comps)
        case Err(errno) => Outcome(fs, Err(Os(errno, Render(n))))
        case Ok(fs1) => Outcome(fs1, Ok(()))
  }

  /** Creating a directory twice is creating it once. */
  lemma CreateDirectoryIdempotent(st: Storage, fs: Fs, path: string)
    requires IsAbs(st.cwd) && Wf(fs)
    ensures var once := CreateDirectory(st, fs, path);
      CreateDirectory(st, once.fs, path).fs == once.fs
  {
  }

  /** `get_file_info(path)`: the path as given, the last component of the
      absolute path, and whether it is a directory. */
  function GetFileInfo(st: Storage, fs: Fs, path: string): (r: Result<FileInfo, StorageError>)
    requires IsAbs(st.cwd)
    ensures !Accepts(st, path) ==> r == Err(Refusal(st, path))
    ensures r.Ok? <==> Accepts(st, path) && KeyOf(st, path) in fs
    ensures r.Ok? ==> r.value == FileInfo(path, LastName(KeyOf(st, path)), IsDir(fs, KeyOf(st, path)))
    ensures Accepts(st, path) && r.Err? ==> r.error == Os(MissingErrno(fs, KeyOf(st, path)), AbsPath(path, st.cwd))
  {
    var n :- Resolve(st, path);
    if n.comps !in fs then Err(Os(MissingErrno(fs, n.comps), Render(n)))
    else
      BasenameRender(n);
      Ok(FileInfo(path, Basename(Render(n)), IsDir(fs, n.comps)))
  }

  /** `delete_file(path, recursive)`. A directory is removed with everything
      below it when `recursive` is set (for `/` the contents go and removing
      `/` itself then fails), and otherwise only when it is empty; anything
      else present is unlinked. */
  function DeleteFile(st: Storage, fs: Fs, path: string, recursive: bool): (r: Outcome<()>)
    requires IsAbs(st.cwd) && Wf(fs)
    ensures Wf(r.fs)
    ensures !Accepts(st, path) ==> r == Outcome(fs, Err(Refusal(st, path)))
    ensures var k := KeyOf(st, path);
      r.result.Ok? <==> Accepts(st, path) && k in fs && k != [] && (recursive || IsFile(fs, k) || Children(fs, k) == {})
    ensures var k := KeyOf(st, path);
      r.result.Ok? ==> forall x :: x in r.fs <==> x in fs && !IsPrefix(k, x)
    ensures forall x :: x in r.fs ==> x in fs && r.fs[x] == fs[x]
    ensures var k := KeyOf(st, path);
      r.result.Ok? && !recursive ==> forall x :: x in r.fs <==> x in fs && x != k
    ensures var k := KeyOf(st, path);
      Accepts(st, path) && r.result.Err? ==>
        && (r.fs == fs || (recursive && k == []))
        && r.result.error == Os(if k !in fs then MissingErrno(fs, k) else if k == [] then EBUSY else ENOTEMPTY, AbsPath(path, st.cwd))
  {
    match Resolve(st, path)
    case Err(e) => Outcome(fs, Err(e))
    case Ok(n) =>
      var k := n.comps;
      if IsDir(fs, k) then
        if recursive then
          if k == [] then Outcome(ClearTree(fs, k), Err(Os(EBUSY, Render(n))))
          else Outcome(RemoveTree(fs, k), Ok(()))
        else if k == [] then Outcome(fs, Err(Os(EBUSY, Render(n))))
        else if Children(fs, k) != {} then Outcome(fs, Err(Os(ENOTEMPTY, Render(n))))
        else
          LeafAlone(fs, k);
          Outcome(RemoveEntry(fs, k), Ok(()))
      else if k in fs then
        FileHasNoChildren(fs, k);
        LeafAlone(fs, k);
        Outcome(RemoveEntry(fs, k), Ok(()))
      else Outcome(fs, Err(Os(MissingErrno(fs, k), Render(n))))
  }

  /** An entry without children has nothing at all below it. */
  lemma LeafAlone(fs: Fs, k: Key)
    requires Wf(fs) && Children(fs, k) == {}
    ensures forall x :: x in fs && IsPrefix(k, x) ==> x == k
  {
    forall x | x in fs && IsPrefix(k, x) && x != k
      ensures x[..|k| + 1] in Children(fs, k)
    {
      if |x| > |k| + 1 {
        AncestorsAreDirs(fs, x, |k| + 1);
      } else {
        assert x[..|k| + 1] == x;
      }
    }
  }

  /** A file just written can be deleted without `recursive`, and the write
      leaves no trace at the path. */
  lemma WriteThenDelete(st: Storage, fs: Fs, path: string, content: string)
    requires IsAbs(st.cwd) && Wf(fs)
    requires WriteFile(st, fs, path, content).result.Ok?
    ensures var written := WriteFile(st, fs, path, content).fs;
      && DeleteFile(st, written, path, false).result.Ok?
      && KeyOf(st, path) !in DeleteFile(st, written, path, false).fs
  {
    var written := WriteFile(st, fs, path, content).fs;
    FileHasNoChildren(written, KeyOf(st, path));
  }

  // ---------------------------------------------------------------------------
  // Moving
  // ---------------------------------------------------------------------------

  /** A rename of `k` to `t` took place: what was at or below `k` is at the
      same place below `t`, nothing else moved, and only `t` itself (a file
      the rename replaced) was lost. */
  predicate Relocated(fs: Fs, k: Key, t: Key, r: Fs) {
    && (forall x :: x in fs && IsPrefix(k, x) ==> Rebase(x, k, t) in r && r[Rebase(x, k, t)] == fs[x])
    && (forall x :: x in fs && !IsPrefix(k, x) && x != t ==> x in r && r[x] == fs[x])
    && (forall y :: y in r ==> (y in fs && !IsPrefix(k, y)) || IsPrefix(t, y))
    && (k != t ==> forall x :: x in r ==> !IsPrefix(k, x))
  }

  lemma MoveTreeRelocates(fs: Fs, k: Key, d: Key)
    requires Wf(fs) && k in fs && k != []
    requires d != [] && d !in fs && IsDir(fs, DropLast(d)) && !IsPrefix(k, d)
    ensures Relocated(fs, k, d, MoveTree(fs, k, d))
  {
    NothingLeftAtSource(fs, k, d);
  }

  /** After `MoveTree`, nothing is left at or below the old place. */
  lemma NothingLeftAtSource(fs: Fs, k: Key, d: Key)
    requires Wf(fs) && k in fs && k != []
    requires d != [] && d !in fs && IsDir(fs, DropLast(d)) && !IsPrefix(k, d)
    ensures forall y :: y in MoveTree(fs, k, d) ==> !IsPrefix(k, y)
  {
    var r := MoveTree(fs, k, d);
    forall y | y in r
      ensures !IsPrefix(k, y)
    {
      if IsPrefix(k, y) && IsPrefix(d, y) {
        if |d| <= |k| {
          PrefixOrder(d, k, y);
          NoEntryBelowMissing(fs, d, k);
        } else {
          PrefixOrder(k, d, y);
        }
      }
    }
  }

  /** Two prefixes of one sequence are prefixes of each other. */
  lemma PrefixOrder<T>(a: seq<T>, b: seq<T>, y: seq<T>)
    requires IsPrefix(a, y) && IsPrefix(b, y) && |a| <= |b|
    ensures IsPrefix(a, b)
  {
    assert b[..|a|] == y[..|a|];
  }

  /** The name the source ends up under: inside `dk` when that is a directory
      other than the source, `dk` itself otherwise. */
  function MoveTarget(fs: Fs, sk: Key, dk: Key): Key {
    if IsDir(fs, dk) && sk != dk then dk + [LastName(sk)] else dk
  }

  /** `os.rename(src, t)` and its fallbacks in `shutil.move`, for a target `t`
      whose parent is a directory and that is not one itself. A missing source
      fails when `copy2` opens it; a directory is never moved into its own
      subtree, nor onto a file, which `copytree` reports as "File exists". */
  function Rename(fs: Fs, s: NormPath, t: Key, dst: string, tStr: string): (r: Outcome<()>)
    requires Wf(fs) && t != [] && IsDir(fs, DropLast(t)) && !IsDir(fs, t)
    ensures Wf(r.fs)
    ensures r.result.Err? ==> r.fs == fs
    ensures var sk := s.comps;
      r.result.Ok? <==> sk in fs && (sk == t || fs[sk].File? || (!IsPrefix(sk, t) && t !in fs))
    ensures r.result.Ok? ==> Relocated(fs, s.comps, t, r.fs)
    ensures var sk := s.comps;
      r.result.Err? ==>
        r.result.error == (if sk !in fs then Os(MissingErrno(fs, sk), Render(s))
                           else if IsPrefix(sk, t) then MoveIntoItself(Render(s), dst)
                           else Os(EEXIST, tStr))
  {
    var sk := s.comps;
    if sk !in fs then Outcome(fs, Err(Os(MissingErrno(fs, sk), Render(s))))
    else if sk == t then
      assert forall x :: IsPrefix(sk, x) ==> Rebase(x, sk, t) == x;
      Outcome(fs, Ok(()))
    else if fs[sk].Dir? then
      if IsPrefix(sk, t) then Outcome(fs, Err(MoveIntoItself(Render(s), dst)))
      else if t in fs then Outcome(fs, Err(Os(EEXIST, tStr)))
      else
        MoveTreeRelocates(fs, sk, t);
        Outcome(MoveTree(fs, sk, t), Ok(()))
    else
      FileNotAbove(fs, sk, t);
      if t in fs then
        FileHasNoChildren(fs, t);
        var fs' := RemoveEntry(fs, t);
        MoveTreeRelocates(fs', sk, t);
        Outcome(MoveTree(fs', sk, t), Ok(()))
      else
        MoveTreeRelocates(fs, sk, t);
        Outcome(MoveTree(fs, sk, t), Ok(()))
  }

  /** A file is never a proper prefix of a path whose parent is a directory. */
  lemma FileNotAbove(fs: Fs, f: Key, t: Key)
    requires Wf(fs) && IsFile(fs, f) && t != [] && IsDir(fs, DropLast(t)) && f != t
    ensures !IsPrefix(f, t)
  {
    if IsPrefix(f, t) {
      var p := DropLast(t);
      assert p[..|f|] == f;
      if f != p {
        AncestorsAreDirs(fs, p, |f|);
      }
    }
  }

  /** `shutil.move(src, dst)` once the parent of `dst` is a directory. */
  function ShutilMove(fs: Fs, s: NormPath, d: NormPath): (r: Outcome<()>)
    requires Wf(fs) && IsDir(fs, ParentKey(d.comps))
    ensures Wf(r.fs)
    ensures r.result.Err? ==> r.fs == fs
    ensures var sk, dk := s.comps, d.comps;
      IsDir(fs, dk) && sk != dk && (sk == [] || MoveTarget(fs, sk, dk) in fs) ==>
        r.result == Err(DestinationExists(JoinPath(Render(d), LastName(sk))))
    ensures var sk, dk := s.comps, d.comps;
      IsDir(fs, dk) && sk == dk ==> r.result == (if sk == [] then Err(OsPair(EBUSY, Render(s), Render(d))) else Ok(()))
    ensures r.result.Ok? ==> Relocated(fs, s.comps, MoveTarget(fs, s.comps, d.comps), r.fs)
  {
    var sk, dk := s.comps, d.comps;
    if IsDir(fs, dk) then
      if sk == dk then
        if sk == [] then Outcome(fs, Err(OsPair(EBUSY, Render(s), Render(d))))
        else
          assert forall x :: IsPrefix(sk, x) ==> Rebase(x, sk, dk) == x;
          Outcome(fs, Ok(()))
      else
        var t := dk + [LastName(sk)];
        var tStr := JoinPath(Render(d), LastName(sk));
        if sk == [] || t in fs then Outcome(fs, Err(DestinationExists(tStr)))
        else Rename(fs, s, t, Render(d), tStr)
    else
      Rename(fs, s, dk, Render(d), Render(d))
  }

  /** What `move_file` does with two admitted paths: create the destination's
      missing parents, then `shutil.move`. */
  function MoveResolved(fs: Fs, s: NormPath, d: NormPath): (r: Outcome<()>)
    requires Wf(fs)
    ensures Wf(r.fs)
    ensures var sk, dk := s.comps, d.comps;
      r.result.Ok? ==>
        && MkdirP(fs, ParentKey(dk)).Ok?
        && Relocated(MkdirP(fs, ParentKey(dk)).value, sk, MoveTarget(fs, sk, dk), r.fs)
    ensures var dk := d.comps;
      r.result.Err? ==> r.fs == fs || (MkdirP(fs, ParentKey(dk)).Ok? && r.fs == MkdirP(fs, ParentKey(dk)).value)
  {
    var p := Parent(d);
    match MkdirP(fs, p.comps)
    case Err(errno) => Outcome(fs, Err(Os(errno, Render(p))))
    case Ok(fs1) =>
      assert MoveTarget(fs1, s.comps, d.comps) == MoveTarget(fs, s.comps, d.comps);
      ShutilMove(fs1, s, d)
  }

  /** `move_file(source, destination)`: validates the source, then the
      destination, creates the destination's missing parents and moves. The
      created parents stay even when the move itself fails. */
  function MoveFile(st: Storage, fs: Fs, source: string, destination: string): (r: Outcome<()>)
    requires IsAbs(st.cwd) && Wf(fs)
    ensures Wf(r.fs)
    ensures !Accepts(st, source) ==> r == Outcome(fs, Err(Refusal(st, source)))
    ensures Accepts(st, source) && !Accepts(st, destination) ==> r == Outcome(fs, Err(Refusal(st, destination)))
    ensures var sk, dk := KeyOf(st, source), KeyOf(st, destination);
      r.result.Ok? ==>
        && MkdirP(fs, ParentKey(dk)).Ok?
        && Relocated(MkdirP(fs, ParentKey(dk)).value, sk, MoveTarget(fs, sk, dk), r.fs)
    ensures var dk := KeyOf(st, destination);
      r.result.Err? ==> r.fs == fs || (MkdirP(fs, ParentKey(dk)).Ok? && r.fs == MkdirP(fs, ParentKey(dk)).value)
  {
    match Resolve(st, source)
    case Err(e) => Outcome(fs, Err(e))
    case Ok(s) =>
      match Resolve(st, destination)
      case Err(e) => Outcome(fs, Err(e))
      case Ok(d) => MoveResolved(fs, s, d)
  }

  lemma MoveFileResolved(st: Storage, fs: Fs, source: string, destination: string)
    requires IsAbs(st.cwd) && Wf(fs) && Accepts(st, source) && Accepts(st, destination)
    ensures MoveFile(st, fs, source, destination) == MoveResolved(fs, AbsNorm(source, st.cwd), AbsNorm(destination, st.cwd))
  {
  }

  /** Renaming to a free name whose parent is a directory is `MoveTree`. */
  lemma RenameToFree(fs: Fs, s: NormPath, t: Key, dst: string, tStr: string)
    requires Wf(fs) && t != [] && IsDir(fs, DropLast(t)) && t !in fs
    requires s.comps in fs && !IsPrefix(s.comps, t)
    ensures Rename(fs, s, t, dst, tStr) == Outcome(MoveTree(fs, s.comps, t), Ok(()))
  {
  }

  /** Moving to a free name whose parent is a directory renames the source,
      with everything below it, to that name. */
  lemma MoveToFreeName(st: Storage, fs: Fs, source: string, destination: string)
    requires IsAbs(st.cwd) && Wf(fs) && Accepts(st, source) && Accepts(st, destination)
    requires var sk, dk := KeyOf(st, source), KeyOf(st, destination);
      sk in fs && dk != [] && dk !in fs && IsDir(fs, DropLast(dk)) && !IsPrefix(sk, dk)
    ensures MoveFile(st, fs, source, destination) == Outcome(MoveTree(fs, KeyOf(st, source), KeyOf(st, destination)), Ok(()))
  {
    var s, d := AbsNorm(source, st.cwd), AbsNorm(destination, st.cwd);
    MoveFileResolved(st, fs, source, destination);
    assert MkdirP(fs, Parent(d).comps) == Ok(fs);
    assert ShutilMove(fs, s, d) == Rename(fs, s, d.comps, Render(d), Render(d));
    RenameToFree(fs, s, d.comps, Render(d), Render(d));
  }

  /** Moving onto an existing directory puts the source inside it, under its
      own name, when that name is free there. */
  lemma MoveIntoDirectory(st: Storage, fs: Fs, source: string, destination: string)
    requires IsAbs(st.cwd) && Wf(fs) && Accepts(st, source) && Accepts(st, destination)
    requires var sk, dk := KeyOf(st, source), KeyOf(st, destination);
      sk in fs && sk != [] && IsDir(fs, dk) && sk != dk && dk + [LastName(sk)] !in fs && !IsPrefix(sk, dk + [LastName(sk)])
    ensures var sk, dk := KeyOf(st, source), KeyOf(st, destination);
      MoveFile(st, fs, source, destination) == Outcome(MoveTree(fs, sk, dk + [LastName(sk)]), Ok(()))
  {
    var s, d := AbsNorm(source, st.cwd), AbsNorm(destination, st.cwd);
    var sk, dk := s.comps, d.comps;
    var t := dk + [LastName(sk)];
    MoveFileResolved(st, fs, source, destination);
    ParentIsDir(fs, dk);
    assert MkdirP(fs, Parent(d).comps) == Ok(fs);
    assert ShutilMove(fs, s, d) == Rename(fs, s, t, Render(d), JoinPath(Render(d), LastName(sk)));
    RenameToFree(fs, s, t, Render(d), JoinPath(Render(d), LastName(sk)));
  }

  /** The parent of a directory is a directory. */
  lemma ParentIsDir(fs: Fs, k: Key)
    requires Wf(fs) && k in fs
    ensures IsDir(fs, ParentKey(k))
  {
  }

  /** A directory is never moved into its own subtree: the move fails. */
  lemma MoveNeverIntoItself(st: Storage, fs: Fs, source: string, destination: string)
    requires IsAbs(st.cwd) && Wf(fs) && Accepts(st, source) && Accepts(st, destination)
    requires IsDir(fs, KeyOf(st, source)) && Below(KeyOf(st, source), KeyOf(st, destination))
    ensures MoveFile(st, fs, source, destination).result.Err?
  {
    var s, d := AbsNorm(source, st.cwd), AbsNorm(destination, st.cwd);
    MoveFileResolved(st, fs, source, destination);
    var p := Parent(d).comps;
    if MkdirP(fs, p).Ok? {
      var fs1 := MkdirP(fs, p).value;
      TargetBelowSource(fs1, s.comps, d.comps);
      ShutilMoveIntoItself(fs1, s, d);
    }
  }

  /** A destination below the source gives a target below it too. */
  lemma TargetBelowSource(fs: Fs, sk: Key, dk: Key)
    requires Below(sk, dk)
    ensures var t := MoveTarget(fs, sk, dk); IsPrefix(sk, t) && t != sk
  {
    var t := MoveTarget(fs, sk, dk);
    assert t[..|sk|] == dk[..|sk|];
  }

  lemma ShutilMoveIntoItself(fs: Fs, s: NormPath, d: NormPath)
    requires Wf(fs) && IsDir(fs, ParentKey(d.comps)) && IsDir(fs, s.comps)
    requires var t := MoveTarget(fs, s.comps, d.comps); IsPrefix(s.comps, t) && t != s.comps
    ensures ShutilMove(fs, s, d).result.Err?
  {
  }

  /** Moving to a free name and back restores the file system exactly. */
  lemma MoveThereAndBack(st: Storage, fs: Fs, a: string, b: string)
    requires IsAbs(st.cwd) && Wf(fs) && Accepts(st, a) && Accepts(st, b)
    requires var sk, dk := KeyOf(st, a), KeyOf(st, b);
      sk in fs && dk != [] && dk !in fs && IsDir(fs, DropLast(dk)) && !IsPrefix(sk, dk)
    ensures MoveFile(st, fs, a, b).result.Ok?
    ensures MoveFile(st, MoveFile(st, fs, a, b).fs, b, a) == Outcome(fs, Ok(()))
  {
    var sk, dk := KeyOf(st, a), KeyOf(st, b);
    MoveToFreeName(st, fs, a, b);
    MoveTreeBack(fs, sk, dk);
    MoveToFreeName(st, MoveTree(fs, sk, dk), b, a);
  }

  /** `MoveTree` back to where it came from undoes it. */
  lemma MoveTreeBack(fs: Fs, k: Key, d: Key)
    requires Wf(fs) && k in fs && k != []
    requires d != [] && d !in fs && IsDir(fs, DropLast(d)) && !IsPrefix(k, d)
    ensures var moved := MoveTree(fs, k, d);
      && d in moved && k !in moved && IsDir(moved, DropLast(k)) && !IsPrefix(d, k)
      && MoveTree(moved, d, k) == fs
  {
    var moved := MoveTree(fs, k, d);
    RebaseFacts(k, k, d);
    assert Rebase(k, k, d) == d;
    NothingLeftAtSource(fs, k, d);
    if IsPrefix(d, k) {
      NoEntryBelowMissing(fs, d, k);
    }
    assert IsDir(moved, DropLast(k));
    BackKeepsAll(fs, k, d);
    BackAddsNothing(fs, k, d);
    SameEntries(fs, MoveTree(moved, d, k));
  }

  /** Two file systems with the same entries are the same. */
  lemma SameEntries(a: Fs, b: Fs)
    requires forall x :: x in a ==> x in b && b[x] == a[x]
    requires forall y :: y in b ==> y in a
    ensures a == b
  {
  }

  lemma BackKeepsAll(fs: Fs, k: Key, d: Key)
    requires Wf(fs) && k in fs && k != []
    requires d != [] && d !in fs && IsDir(fs, DropLast(d)) && !IsPrefix(k, d)
    requires var moved := MoveTree(fs, k, d);
      d in moved && k !in moved && IsDir(moved, DropLast(k)) && !IsPrefix(d, k)
    ensures forall x :: x in fs ==> x in MoveTree(MoveTree(fs, k, d), d, k) && MoveTree(MoveTree(fs, k, d), d, k)[x] == fs[x]
  {
    var moved := MoveTree(fs, k, d);
    var back := MoveTree(moved, d, k);
    forall x | x in fs
      ensures x in back && back[x] == fs[x]
    {
      if IsPrefix(k, x) {
        var y := Rebase(x, k, d);
        RebaseFacts(x, k, d);
        assert Rebase(y, d, k) == x;
      } else if IsPrefix(d, x) {
        NoEntryBelowMissing(fs, d, x);
      }
    }
  }

  lemma BackAddsNothing(fs: Fs, k: Key, d: Key)
    requires Wf(fs) && k in fs && k != []
    requires d != [] && d !in fs && IsDir(fs, DropLast(d)) && !IsPrefix(k, d)
    requires var moved := MoveTree(fs, k, d);
      d in moved && k !in moved && IsDir(moved, DropLast(k)) && !IsPrefix(d, k)
    ensures forall y :: y in MoveTree(MoveTree(fs, k, d), d, k) ==> y in fs
  {
    var moved := MoveTree(fs, k, d);
    var back := MoveTree(moved, d, k);
    forall y | y in back
      ensures y in fs
    {
      if !(y in moved && !IsPrefix(d, y)) {
        var z := d + y[|k|..];
        assert IsPrefix(d, z);
        if z in fs {
          NoEntryBelowMissing(fs, d, z);
        }
        assert k + z[|d|..] == y;
      }
    }
  }

  // ---------------------------------------------------------------------------
  // Listing and searching
  // ---------------------------------------------------------------------------

  /** The entries of a set in some order: `os.listdir` and `os.walk` promise
      no particular one. */
  method Enumerate<T>(s: set<T>) returns (r: seq<T>)
    ensures |r| == |s|
    ensures forall x :: x in s <==> x in r
  {
    r := [];
    var rest := s;
    while rest != {}
      invariant forall x :: x in s <==> x in r || x in rest
      invariant forall x :: x in r ==> x !in rest
      invariant |r| + |rest| == |s|
      decreases |rest|
    {
      var x :| x in rest;
      r := r + [x];
      rest := rest - {x};
    }
  }

  /** `_get_file_info` of an entry reached by joining its name to the path of
      its directory, spelled with `lead` leading slashes. */
  function EntryInfo(fs: Fs, lead: nat, x: Key): FileInfo {
    var name := LastName(x);
    FileInfo(JoinPath(Render(NormPath(lead, ParentKey(x))), name), name, IsDir(fs, x))
  }

  /** The base name of a joined entry path is the entry's name. */
  lemma BasenameOfJoin(dir: string, name: string)
    requires name != "" && '/' !in name
    ensures Basename(JoinPath(dir, name)) == name
  {
    assert !IsAbs(name) by {
      assert name[0] in name;
    }
    SplitNoSep(name, '/');
    if dir != "" && !EndsWith(dir, "/") {
      assert JoinPath(dir, name) == dir + ['/'] + name;
      SplitConcatSep(dir, name, '/');
    } else if dir != "" {
      var d := dir[..|dir| - 1];
      assert dir[|dir| - 1..] == "/";
      assert dir == d + ['/'];
      assert JoinPath(dir, name) == dir + name == d + ['/'] + name;
      SplitConcatSep(d, name, '/');
      assert Split(JoinPath(dir, name), '/') == Split(d, '/') + [name];
    } else {
      assert JoinPath(dir, name) == name;
    }
  }

  /** `infos` reports each key of `keys` exactly once. */
  predicate Reports(fs: Fs, lead: nat, keys: set<Key>, infos: seq<FileInfo>) {
    && |infos| == |keys|
    && (forall x :: x in keys ==> EntryInfo(fs, lead, x) in infos)
    && (forall i :: 0 <= i < |infos| ==> exists x :: x in keys && infos[i] == EntryInfo(fs, lead, x))
  }

  /** The key `list_directory` sorts by, `(not is_directory, name.lower())`,
      as a sequence compared lexicographically. */
  function EntryKey(f: FileInfo): (k: seq<int>)
    ensures |k| == |f.name| + 1
    ensures k[0] == 0 <==> f.isDirectory
  {
    [if f.isDirectory then 0 else 1] + NameCodes(Lower(f.name))
  }

  /** The characters of a name as integers. */
  function NameCodes(s: string): (r: seq<int>)
    ensures |r| == |s|
    ensures forall i :: 0 <= i < |s| ==> r[i] == s[i] as int
  {
    seq(|s|, i requires 0 <= i < |s| => s[i] as int)
  }

  /** The codes of a non-empty name: its first character's code, then the
      codes of the rest. */
  lemma NameCodesCons(x: string)
    requires x != []
    ensures NameCodes(x) == [x[0] as int] + NameCodes(x[1..])
  {
  }

  /** The codes of two names compare as Python compares the names. */
  lemma {:induction false} NameCodesOrder(x: string, y: string)
    ensures LexLeq(NameCodes(x), NameCodes(y)) <==> StrLeq(x, y)
    decreases |x|
  {
    if x != [] && y != [] {
      NameCodesCons(x);
      NameCodesCons(y);
      LexCons(x[0] as int, NameCodes(x[1..]), y[0] as int, NameCodes(y[1..]));
      NameCodesOrder(x[1..], y[1..]);
      assert x == y <==> x[0] == y[0] && x[1..] == y[1..] by {
        assert x == [x[0]] + x[1..];
        assert y == [y[0]] + y[1..];
      }
    } else if x == [] {
      assert StrLt(x, y) || x == y;
    }
  }

  /** Entry keys compare as Python compares `(not is_directory,
      name.lower())`: directories first, then by lower-cased name. */
  lemma EntryKeyOrder(f: FileInfo, g: FileInfo)
    ensures LexLeq(EntryKey(f), EntryKey(g)) <==>
      (f.isDirectory && !g.isDirectory) ||
      (f.isDirectory == g.isDirectory && StrLeq(Lower(f.name), Lower(g.name)))
  {
    LexCons(EntryKey(f)[0], NameCodes(Lower(f.name)), EntryKey(g)[0], NameCodes(Lower(g.name)));
    NameCodesOrder(Lower(f.name), Lower(g.name));
  }

  predicate SortedEntries(infos: seq<FileInfo>) {
    forall i, j :: 0 <= i < j < |infos| ==> LexLeq(EntryKey(infos[i]), EntryKey(infos[j]))
  }

  /** The entries of `names`, each with its sort key. */
  function KeyedEntries(fs: Fs, lead: nat, names: seq<Key>): (r: seq<Keyed<FileInfo>>)
    ensures |r| == |names|
    ensures forall i :: 0 <= i < |names| ==> r[i].item == EntryInfo(fs, lead, names[i])
    ensures forall y :: y in r ==> y.key == EntryKey(y.item)
  {
    seq(|names|, i requires 0 <= i < |names| => Keyed(EntryKey(EntryInfo(fs, lead, names[i])), EntryInfo(fs, lead, names[i])))
  }

  /** Sorting reported entries by `EntryKey` reports them still, in order. */
  method SortEntries(fs: Fs, lead: nat, keys: set<Key>, names: seq<Key>) returns (r: seq<FileInfo>)
    requires |names| == |keys| && forall x :: x in keys <==> x in names
    ensures Reports(fs, lead, keys, r) && SortedEntries(r)
  {
    var keyed := KeyedEntries(fs, lead, names);
    var sorted := SortByKey(keyed);
    SortedItems(keyed);
    SortedMembers(keyed);
    PermutationReports(fs, lead, keys, names, Items(sorted));
    SortedKeysSorted(keyed, sorted);
    r := Items(sorted);
  }

  /** A rearrangement of the entries of `names` reports `keys`. */
  lemma PermutationReports(fs: Fs, lead: nat, keys: set<Key>, names: seq<Key>, infos: seq<FileInfo>)
    requires |names| == |keys| && forall x :: x in keys <==> x in names
    requires multiset(infos) == multiset(Items(KeyedEntries(fs, lead, names)))
    ensures Reports(fs, lead, keys, infos)
  {
    var items := Items(KeyedEntries(fs, lead, names));
    assert |infos| == |items|;
    forall x | x in keys
      ensures EntryInfo(fs, lead, x) in infos
    {
      var i :| 0 <= i < |names| && names[i] == x;
      assert items[i] == EntryInfo(fs, lead, x);
      assert EntryInfo(fs, lead, x) in multiset(items);
    }
    forall i | 0 <= i < |infos|
      ensures exists x :: x in keys && infos[i] == EntryInfo(fs, lead, x)
    {
      assert infos[i] in multiset(items);
      var j :| 0 <= j < |items| && items[j] == infos[i];
      assert names[j] in keys;
    }
  }

  /** Sorted by keys that are each item's `EntryKey`, the items are sorted. */
  lemma SortedKeysSorted(keyed: seq<Keyed<FileInfo>>, sorted: seq<Keyed<FileInfo>>)
    requires forall y :: y in keyed ==> y.key == EntryKey(y.item)
    requires Sorted(sorted) && forall y :: y in sorted ==> y in keyed
    ensures SortedEntries(Items(sorted))
  {
    forall i, j | 0 <= i < j < |sorted|
      ensures LexLeq(EntryKey(sorted[i].item), EntryKey(sorted[j].item))
    {
      assert sorted[i] in keyed && sorted[j] in keyed;
    }
  }

  /** `list_directory(path)`: one entry per child of the directory, sorted
      directories first and then by lower-cased name. Anything but a
      directory is refused with the path as given. */
  method ListDirectory(st: Storage, fs: Fs, path: string) returns (r: Result<seq<FileInfo>, StorageError>)
    requires IsAbs(st.cwd)
    ensures !Accepts(st, path) ==> r == Err(Refusal(st, path))
    ensures r.Ok? <==> Accepts(st, path) && IsDir(fs, KeyOf(st, path))
    ensures Accepts(st, path) && r.Err? ==> r.error == NotADirectoryListing(path)
    ensures r.Ok? ==>
      && Reports(fs, AbsNorm(path, st.cwd).lead, Children(fs, KeyOf(st, path)), r.value)
      && SortedEntries(r.value)
  {
    var n :- Resolve(st, path);
    if !IsDir(fs, n.comps) {
      return Err(NotADirectoryListing(path));
    }
    var names := Enumerate(Children(fs, n.comps));
    var entries := SortEntries(fs, n.lead, Children(fs, n.comps), names);
    return Ok(entries);
  }

  /** `list_directory_with_sizes(path)`: the listing with its path and its
      length. */
  method ListDirectoryWithSizes(st: Storage, fs: Fs, path: string) returns (r: Result<DirectoryListing, StorageError>)
    requires IsAbs(st.cwd)
    ensures !Accepts(st, path) ==> r == Err(Refusal(st, path))
    ensures r.Ok? <==> Accepts(st, path) && IsDir(fs, KeyOf(st, path))
    ensures Accepts(st, path) && r.Err? ==> r.error == NotADirectoryListing(path)
    ensures r.Ok? ==>
      && r.value.path == path
      && r.value.totalCount == |r.value.entries| == |Children(fs, KeyOf(st, path))|
      && Reports(fs, AbsNorm(path, st.cwd).lead, Children(fs, KeyOf(st, path)), r.value.entries)
      && SortedEntries(r.value.entries)
  {
    var entries :- ListDirectory(st, fs, path);
    return Ok(DirectoryListing(path, entries, |entries|));
  }

  /** The files `search_files` reports under `k`: regular files whose name
      matches the pattern, anywhere below `k` when recursive and directly in
      it otherwise. */
  function Found(fs: Fs, k: Key, pattern: string, recursive: bool): set<Key> {
    set x | x in fs && Below(k, x) && (recursive || |x| == |k| + 1) && IsFile(fs, x) && Glob.Match(LastName(x), pattern)
  }

  /** `search_files(path, pattern, recursive)`. Walking a path that is not a
      directory finds nothing; listing one fails as `os.listdir` does. */
  method SearchFiles(st: Storage, fs: Fs, path: string, pattern: string, recursive: bool) returns (r: Result<SearchResult, StorageError>)
    requires IsAbs(st.cwd) && Wf(fs)
    ensures !Accepts(st, path) ==> r == Err(Refusal(st, path))
    ensures r.Ok? <==> Accepts(st, path) && (recursive || IsDir(fs, KeyOf(st, path)))
    ensures var k := KeyOf(st, path);
      Accepts(st, path) && r.Err? ==> r.error == Os(if k in fs then ENOTDIR else MissingErrno(fs, k), AbsPath(path, st.cwd))
    ensures r.Ok? ==>
      && r.value.query == pattern && r.value.basePath == path
      && r.value.totalMatches == |r.value.matches|
      && Reports(fs, AbsNorm(path, st.cwd).lead, Found(fs, KeyOf(st, path), pattern, recursive), r.value.matches)
    ensures r.Ok? && !IsDir(fs, KeyOf(st, path)) ==> r.value.matches == []
  {
    var n :- Resolve(st, path);
    var k := n.comps;
    if !IsDir(fs, k) {
      if !recursive {
        return Err(Os(if k in fs then ENOTDIR else MissingErrno(fs, k), Render(n)));
      }
      NothingFoundOutsideDir(fs, k, pattern);
      return Ok(SearchResult(pattern, path, [], 0));
    }
    var found := Found(fs, k, pattern, recursive);
    var keys := Enumerate(found);
    var matches := seq(|keys|, i requires 0 <= i < |keys| => EntryInfo(fs, n.lead, keys[i]));
    forall i | 0 <= i < |matches|
      ensures exists x :: x in found && matches[i] == EntryInfo(fs, n.lead, x)
    {
      assert keys[i] in found;
    }
    forall x | x in found
      ensures EntryInfo(fs, n.lead, x) in matches
    {
      var i :| 0 <= i < |keys| && keys[i] == x;
      assert matches[i] == EntryInfo(fs, n.lead, x);
    }
    return Ok(SearchResult(pattern, path, matches, |matches|));
  }

  /** Below a file or a missing path there is nothing to find. */
  lemma NothingFoundOutsideDir(fs: Fs, k: Key, pattern: string)
    requires Wf(fs) && !IsDir(fs, k)
    ensures Found(fs, k, pattern, true) == {}
  {
    forall x | x in fs && Below(k, x)
      ensures false
    {
      assert x[..|k|] == k;
      AncestorsAreDirs(fs, x, |k|);
    }
  }
}
