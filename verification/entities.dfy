/** The argument and result records of the tools, and the validation that
    turns a JSON argument object into an argument record: every declared
    field is checked, required fields must be present, absent optional fields
    take their defaults, and undeclared keys are ignored. */
module Entities {
  import opened Wrappers
  import opened JsonValue

  // ---------------------------------------------------------------------------
  // Records
  // ---------------------------------------------------------------------------

  datatype ReadTextFileArgs = ReadTextFileArgs(path: string, tail: Option<int>, head: Option<int>)
  datatype ReadMediaFileArgs = ReadMediaFileArgs(path: string)
  datatype ReadMultipleFilesArgs = ReadMultipleFilesArgs(paths: seq<string>)
  datatype WriteFileArgs = WriteFileArgs(path: string, content: string)
  datatype EditOperation = EditOperation(oldText: string, newText: string)
  datatype EditFileArgs = EditFileArgs(path: string, edits: seq<EditOperation>, dryRun: bool)
  datatype CreateDirectoryArgs = CreateDirectoryArgs(path: string)
  datatype ListDirectoryArgs = ListDirectoryArgs(path: string)
  datatype ListDirectoryWithSizesArgs = ListDirectoryWithSizesArgs(path: string)
  datatype GetFileInfoArgs = GetFileInfoArgs(path: string)
  datatype SearchFilesArgs = SearchFilesArgs(pattern: string, path: string, recursive: bool)
  datatype MoveFileArgs = MoveFileArgs(source: string, destination: string)
  datatype DeleteFileArgs = DeleteFileArgs(path: string, recursive: bool)

  /** What is known of a file or directory; the size, timestamps and
      permission string read from `stat` are not part of the model. */
  datatype FileInfo = FileInfo(path: string, name: string, isDirectory: bool)
  datatype DirectoryListing = DirectoryListing(path: string, entries: seq<FileInfo>, totalCount: int)
  datatype SearchResult = SearchResult(query: string, basePath: string, matches: seq<FileInfo>, totalMatches: int)
  datatype ToolInfo = ToolInfo(name: string, description: string, inputSchema: Option<Json>)

  // ---------------------------------------------------------------------------
  // Declared fields and their validation
  // ---------------------------------------------------------------------------

  datatype FieldType = TStr | TBool | TOptInt | TStrList | TEditList

  /** A declared field; `dflt == None` marks a required field. */
  datatype Field = Field(name: string, ty: FieldType, dflt: Option<Json>)

  /** One validation failure, naming the field. */
  datatype Issue = Missing(field: string) | WrongType(field: string)

  predicate IsEditObject(v: Json) {
    v.JObj? && "old_text" in v.fields && v.fields["old_text"].JStr?
    && "new_text" in v.fields && v.fields["new_text"].JStr?
  }

  /** Which JSON values a field of each declared type accepts. */
  predicate HasType(v: Json, ty: FieldType) {
    match ty
    case TStr => v.JStr?
    case TBool => v.JBool?
    case TOptInt => v.JNull? || v.JInt?
    case TStrList => IsStrArray(v)
    case TEditList => v.JArr? && forall i :: 0 <= i < |v.items| ==> IsEditObject(v.items[i])
  }

  /** The failures one field contributes. */
  function FieldIssues(args: map<string, Json>, f: Field): (r: seq<Issue>)
    ensures r == [] <==> (f.name in args && HasType(args[f.name], f.ty)) || (f.name !in args && f.dflt.Some?)
    ensures f.name !in args && f.dflt.None? ==> r == [Missing(f.name)]
  {
    if f.name in args then (if HasType(args[f.name], f.ty) then [] else [WrongType(f.name)])
    else if f.dflt.Some? then []
    else [Missing(f.name)]
  }

  /** All failures, in declaration order. */
  function Issues(args: map<string, Json>, fields: seq<Field>): seq<Issue> {
    if fields == [] then [] else FieldIssues(args, fields[0]) + Issues(args, fields[1..])
  }

  /** Validation passes exactly when every declared field passes. */
  lemma {:induction false} IssuesNoneIff(args: map<string, Json>, fields: seq<Field>)
    ensures Issues(args, fields) == [] <==> forall i :: 0 <= i < |fields| ==> FieldIssues(args, fields[i]) == []
    decreases |fields|
  {
    if fields != [] {
      IssuesNoneIff(args, fields[1..]);
      assert forall i :: 1 <= i < |fields| ==> fields[i] == fields[1..][i - 1];
    }
  }

  /** A required field that is absent is reported. */
  lemma {:induction false} MissingReported(args: map<string, Json>, fields: seq<Field>, i: int)
    requires 0 <= i < |fields| && fields[i].dflt.None? && fields[i].name !in args
    ensures Missing(fields[i].name) in Issues(args, fields)
    decreases |fields|
  {
    if i > 0 {
      MissingReported(args, fields[1..], i - 1);
    }
  }

  /** Every default is a value of its field's type. */
  predicate DefaultsTyped(fields: seq<Field>) {
    forall i :: 0 <= i < |fields| ==> fields[i].dflt.Some? ==> HasType(fields[i].dflt.value, fields[i].ty)
  }

  /** The value a field gets: the given one, or else the default. */
  function FieldValue(args: map<string, Json>, f: Field): Json {
    if f.name in args then args[f.name] else f.dflt.GetOr(JNull)
  }

  /** Validation against a field list: the field values in declaration order,
      or every failure. */
  function Validate(args: map<string, Json>, fields: seq<Field>): (r: Result<seq<Json>, seq<Issue>>)
    requires DefaultsTyped(fields)
    ensures r.Err? <==> Issues(args, fields) != []
    ensures r.Err? ==> r.error == Issues(args, fields)
    ensures r.Ok? ==> |r.value| == |fields|
    ensures r.Ok? ==> forall i :: 0 <= i < |fields| ==> HasType(r.value[i], fields[i].ty)
    ensures r.Ok? ==> forall i :: 0 <= i < |fields| ==> r.value[i] == FieldValue(args, fields[i])
  {
    var issues := Issues(args, fields);
    if issues != [] then Err(issues)
    else
      IssuesNoneIff(args, fields);
      Ok(seq(|fields|, i requires 0 <= i < |fields| => FieldValue(args, fields[i])))
  }

  // ---------------------------------------------------------------------------
  // Field value conversions
  // ---------------------------------------------------------------------------

  function OptIntOf(v: Json): Option<int> {
    if v.JInt? then Some(v.i) else None
  }

  function OptIntJson(o: Option<int>): Json {
    if o.Some? then JInt(o.value) else JNull
  }

  function EditOf(v: Json): EditOperation
    requires IsEditObject(v)
  {
    EditOperation(v.fields["old_text"].s, v.fields["new_text"].s)
  }

  function EditJson(e: EditOperation): Json {
    JObj(map["old_text" := JStr(e.oldText), "new_text" := JStr(e.newText)])
  }

  function EditsOf(v: Json): (r: seq<EditOperation>)
    requires HasType(v, TEditList)
    ensures |r| == |v.items|
    ensures forall i :: 0 <= i < |r| ==> r[i] == EditOf(v.items[i])
  {
    seq(|v.items|, i requires 0 <= i < |v.items| => EditOf(v.items[i]))
  }

  function EditsJson(es: seq<EditOperation>): (r: Json)
    ensures r.JArr? && |r.items| == |es|
    ensures forall i :: 0 <= i < |es| ==> r.items[i] == EditJson(es[i])
  {
    JArr(seq(|es|, i requires 0 <= i < |es| => EditJson(es[i])))
  }

  lemma EditsRoundTrip(es: seq<EditOperation>)
    ensures HasType(EditsJson(es), TEditList) && EditsOf(EditsJson(es)) == es
  {
    var v := EditsJson(es);
    forall i | 0 <= i < |es|
      ensures IsEditObject(v.items[i]) && EditOf(v.items[i]) == es[i]
    {
      assert v.items[i] == EditJson(es[i]);
    }
  }

  /** A required string field is present and a string. */
  predicate StrAt(args: map<string, Json>, k: string) {
    k in args && args[k].JStr?
  }

  /** An optional field is absent or of the accepted kind. */
  predicate OptAt(args: map<string, Json>, k: string, ty: FieldType) {
    k !in args || HasType(args[k], ty)
  }

  /** The given value of an optional field, or its default. */
  function Given(args: map<string, Json>, k: string, dflt: Json): Json {
    if k in args then args[k] else dflt
  }

  // ---------------------------------------------------------------------------
  // The argument models
  // ---------------------------------------------------------------------------

  /** `path` is required; `tail` and `head` default to None. */
  function ReadTextFileFields(): seq<Field> {
    [Field("path", TStr, None), Field("tail", TOptInt, Some(JNull)), Field("head", TOptInt, Some(JNull))]
  }

  function DecodeReadTextFile(args: map<string, Json>): (r: Result<ReadTextFileArgs, seq<Issue>>)
    ensures r.Ok? <==> StrAt(args, "path") && OptAt(args, "tail", TOptInt) && OptAt(args, "head", TOptInt)
    ensures r.Err? <==> Issues(args, ReadTextFileFields()) != []
    ensures r.Err? ==> r.error == Issues(args, ReadTextFileFields())
    ensures r.Ok? ==> r.value == ReadTextFileArgs(args["path"].s, OptIntOf(Given(args, "tail", JNull)), OptIntOf(Given(args, "head", JNull)))
  {
    IssuesNoneIff(args, ReadTextFileFields());
    var v :- Validate(args, ReadTextFileFields());
    Ok(ReadTextFileArgs(v[0].s, OptIntOf(v[1]), OptIntOf(v[2])))
  }

  function ReadTextFileJson(a: ReadTextFileArgs): map<string, Json> {
    map["path" := JStr(a.path), "tail" := OptIntJson(a.tail), "head" := OptIntJson(a.head)]
  }

  lemma ReadTextFileRoundTrip(a: ReadTextFileArgs)
    ensures DecodeReadTextFile(ReadTextFileJson(a)) == Ok(a)
  {
    IssuesNoneIff(ReadTextFileJson(a), ReadTextFileFields());
  }

  /** Only `path` given: no head, no tail. */
  lemma ReadTextFileDefaults(p: string)
    ensures DecodeReadTextFile(map["path" := JStr(p)]) == Ok(ReadTextFileArgs(p, None, None))
  {
    IssuesNoneIff(map["path" := JStr(p)], ReadTextFileFields());
  }

  function ReadMediaFileFields(): seq<Field> {
    [Field("path", TStr, None)]
  }

  function ReadMultipleFilesFields(): seq<Field> {
    [Field("paths", TStrList, None)]
  }

  function DecodeReadMultipleFiles(args: map<string, Json>): (r: Result<ReadMultipleFilesArgs, seq<Issue>>)
    ensures r.Ok? <==> "paths" in args && IsStrArray(args["paths"])
    ensures r.Err? <==> Issues(args, ReadMultipleFilesFields()) != []
    ensures r.Err? ==> r.error == Issues(args, ReadMultipleFilesFields())
    ensures r.Ok? ==> StrArray(r.value.paths) == args["paths"]
  {
    IssuesNoneIff(args, ReadMultipleFilesFields());
    var v :- Validate(args, ReadMultipleFilesFields());
    Ok(ReadMultipleFilesArgs(Strs(v[0])))
  }

  function WriteFileFields(): seq<Field> {
    [Field("path", TStr, None), Field("content", TStr, None)]
  }

  function DecodeWriteFile(args: map<string, Json>): (r: Result<WriteFileArgs, seq<Issue>>)
    ensures r.Ok? <==> StrAt(args, "path") && StrAt(args, "content")
    ensures r.Err? <==> Issues(args, WriteFileFields()) != []
    ensures r.Err? ==> r.error == Issues(args, WriteFileFields())
    ensures r.Ok? ==> r.value == WriteFileArgs(args["path"].s, args["content"].s)
  {
    IssuesNoneIff(args, WriteFileFields());
    var v :- Validate(args, WriteFileFields());
    Ok(WriteFileArgs(v[0].s, v[1].s))
  }

  /** `path` and `edits` are required; `dry_run` defaults to false. */
  function EditFileFields(): seq<Field> {
    [Field("path", TStr, None), Field("edits", TEditList, None), Field("dry_run", TBool, Some(JBool(false)))]
  }

  function DecodeEditFile(args: map<string, Json>): (r: Result<EditFileArgs, seq<Issue>>)
    ensures r.Ok? <==> StrAt(args, "path") && "edits" in args && HasType(args["edits"], TEditList) && OptAt(args, "dry_run", TBool)
    ensures r.Err? <==> Issues(args, EditFileFields()) != []
    ensures r.Err? ==> r.error == Issues(args, EditFileFields())
    ensures r.Ok? ==> r.value == EditFileArgs(args["path"].s, EditsOf(args["edits"]), Given(args, "dry_run", JBool(false)).b)
  {
    IssuesNoneIff(args, EditFileFields());
    var v :- Validate(args, EditFileFields());
    Ok(EditFileArgs(v[0].s, EditsOf(v[1]), v[2].b))
  }

  function EditFileJson(a: EditFileArgs): map<string, Json> {
    map["path" := JStr(a.path), "edits" := EditsJson(a.edits), "dry_run" := JBool(a.dryRun)]
  }

  lemma EditFileRoundTrip(a: EditFileArgs)
    ensures DecodeEditFile(EditFileJson(a)) == Ok(a)
  {
    EditsRoundTrip(a.edits);
    IssuesNoneIff(EditFileJson(a), EditFileFields());
  }

  /** Without `dry_run` the edit is applied. */
  lemma EditFileDefaults(p: string, es: seq<EditOperation>)
    ensures DecodeEditFile(map["path" := JStr(p), "edits" := EditsJson(es)]) == Ok(EditFileArgs(p, es, false))
  {
    EditsRoundTrip(es);
    IssuesNoneIff(map["path" := JStr(p), "edits" := EditsJson(es)], EditFileFields());
  }

  function PathOnlyFields(): seq<Field> {
    [Field("path", TStr, None)]
  }

  /** The argument of the tools that take only a `path`: create_directory,
      list_directory, list_directory_with_sizes, get_file_info. */
  function DecodePath(args: map<string, Json>): (r: Result<string, seq<Issue>>)
    ensures r.Ok? <==> StrAt(args, "path")
    ensures r.Err? <==> Issues(args, PathOnlyFields()) != []
    ensures r.Err? ==> r.error == Issues(args, PathOnlyFields())
    ensures r.Ok? ==> args["path"] == JStr(r.value)
  {
    IssuesNoneIff(args, PathOnlyFields());
    var v :- Validate(args, PathOnlyFields());
    Ok(v[0].s)
  }

  /** `pattern` is required; `path` defaults to "." and `recursive` to true. */
  function SearchFilesFields(): seq<Field> {
    [Field("pattern", TStr, None), Field("path", TStr, Some(JStr("."))), Field("recursive", TBool, Some(JBool(true)))]
  }

  function DecodeSearchFiles(args: map<string, Json>): (r: Result<SearchFilesArgs, seq<Issue>>)
    ensures r.Ok? <==> StrAt(args, "pattern") && OptAt(args, "path", TStr) && OptAt(args, "recursive", TBool)
    ensures r.Err? <==> Issues(args, SearchFilesFields()) != []
    ensures r.Err? ==> r.error == Issues(args, SearchFilesFields())
    ensures r.Ok? ==> r.value == SearchFilesArgs(args["pattern"].s, Given(args, "path", JStr(".")).s, Given(args, "recursive", JBool(true)).b)
  {
    IssuesNoneIff(args, SearchFilesFields());
    var v :- Validate(args, SearchFilesFields());
    Ok(SearchFilesArgs(v[0].s, v[1].s, v[2].b))
  }

  function SearchFilesJson(a: SearchFilesArgs): map<string, Json> {
    map["pattern" := JStr(a.pattern), "path" := JStr(a.path), "recursive" := JBool(a.recursive)]
  }

  lemma SearchFilesRoundTrip(a: SearchFilesArgs)
    ensures DecodeSearchFiles(SearchFilesJson(a)) == Ok(a)
  {
    IssuesNoneIff(SearchFilesJson(a), SearchFilesFields());
  }

  /** Only a pattern given: search from "." recursively. */
  lemma SearchFilesDefaults(p: string)
    ensures DecodeSearchFiles(map["pattern" := JStr(p)]) == Ok(SearchFilesArgs(p, ".", true))
  {
    IssuesNoneIff(map["pattern" := JStr(p)], SearchFilesFields());
  }

  function MoveFileFields(): seq<Field> {
    [Field("source", TStr, None), Field("destination", TStr, None)]
  }

  function DecodeMoveFile(args: map<string, Json>): (r: Result<MoveFileArgs, seq<Issue>>)
    ensures r.Ok? <==> StrAt(args, "source") && StrAt(args, "destination")
    ensures r.Err? <==> Issues(args, MoveFileFields()) != []
    ensures r.Err? ==> r.error == Issues(args, MoveFileFields())
    ensures r.Ok? ==> r.value == MoveFileArgs(args["source"].s, args["destination"].s)
  {
    IssuesNoneIff(args, MoveFileFields());
    var v :- Validate(args, MoveFileFields());
    Ok(MoveFileArgs(v[0].s, v[1].s))
  }

  /** `path` is required; `recursive` defaults to false. */
  function DeleteFileFields(): seq<Field> {
    [Field("path", TStr, None), Field("recursive", TBool, Some(JBool(false)))]
  }

  function DecodeDeleteFile(args: map<string, Json>): (r: Result<DeleteFileArgs, seq<Issue>>)
    ensures r.Ok? <==> StrAt(args, "path") && OptAt(args, "recursive", TBool)
    ensures r.Err? <==> Issues(args, DeleteFileFields()) != []
    ensures r.Err? ==> r.error == Issues(args, DeleteFileFields())
    ensures r.Ok? ==> r.value == DeleteFileArgs(args["path"].s, Given(args, "recursive", JBool(false)).b)
  {
    IssuesNoneIff(args, DeleteFileFields());
    var v :- Validate(args, DeleteFileFields());
    Ok(DeleteFileArgs(v[0].s, v[1].b))
  }

  function DeleteFileJson(a: DeleteFileArgs): map<string, Json> {
    map["path" := JStr(a.path), "recursive" := JBool(a.recursive)]
  }

  lemma DeleteFileRoundTrip(a: DeleteFileArgs)
    ensures DecodeDeleteFile(DeleteFileJson(a)) == Ok(a)
  {
    IssuesNoneIff(DeleteFileJson(a), DeleteFileFields());
  }

  /** Without `recursive` only an empty directory or a file is removed. */
  lemma DeleteFileDefaults(p: string)
    ensures DecodeDeleteFile(map["path" := JStr(p)]) == Ok(DeleteFileArgs(p, false))
  {
    IssuesNoneIff(map["path" := JStr(p)], DeleteFileFields());
  }

  // ---------------------------------------------------------------------------
  // Result records as JSON (`model.dict()`)
  // ---------------------------------------------------------------------------

  function FileInfoJson(f: FileInfo): Json {
    JObj(map["path" := JStr(f.path), "name" := JStr(f.name), "is_directory" := JBool(f.isDirectory)])
  }

  function FileInfosJson(fs: seq<FileInfo>): (r: Json)
    ensures r.JArr? && |r.items| == |fs|
    ensures forall i :: 0 <= i < |fs| ==> r.items[i] == FileInfoJson(fs[i])
  {
    JArr(seq(|fs|, i requires 0 <= i < |fs| => FileInfoJson(fs[i])))
  }

  function DirectoryListingJson(d: DirectoryListing): Json {
    JObj(map["path" := JStr(d.path), "entries" := FileInfosJson(d.entries), "total_count" := JInt(d.totalCount)])
  }

  function SearchResultJson(s: SearchResult): Json {
    JObj(map["query" := JStr(s.query), "base_path" := JStr(s.basePath),
             "matches" := FileInfosJson(s.matches), "total_matches" := JInt(s.totalMatches)])
  }
}
