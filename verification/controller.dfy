/** `McpFilesystemController`: the table of tools discovered on the service,
    their descriptions and input schemas, and `execute_tool`, which looks a
    tool up, validates its arguments against the tool's model, runs it and
    wraps whatever it returns or raises in a dictionary. */
module Controller {
  import opened Wrappers
  import opened PyStr
  import opened JsonValue
  import opened PyValue
  import opened PathValidation
  import opened FileSystem
  import opened Entities
  import opened Storage
  import Service

  // ---------------------------------------------------------------------------
  // The tool table
  // ---------------------------------------------------------------------------

  /** A pydantic argument model: its class name and its declared fields. */
  datatype Model = Model(title: string, fields: seq<Field>)

  /** What `inspect.signature` shows of a method: no parameters, or a first
      parameter annotated with a pydantic model (`Some`) or with anything
      else (`None`). */
  datatype Signature = NoParams | FirstParam(model: Option<Model>)

  /** A bound method of the service: its name, its docstring, its signature. */
  datatype Member = Member(name: string, doc: Option<string>, sig: Signature)

  /** The tools: one per public method of the service. */
  datatype ToolId =
    | CreateDirectoryTool | DeleteFileTool | EditFileTool | GetFileInfoTool
    | ListDirectoryTool | ListDirectoryWithSizesTool | MoveFileTool
    | ReadMultipleFilesTool | ReadTextFileTool | SearchFilesTool | WriteFileTool

  /** The tools in the order of their names. */
  function AllTools(): seq<ToolId> {
    [CreateDirectoryTool, DeleteFileTool, EditFileTool, GetFileInfoTool,
     ListDirectoryTool, ListDirectoryWithSizesTool, MoveFileTool,
     ReadMultipleFilesTool, ReadTextFileTool, SearchFilesTool, WriteFileTool]
  }

  /** The name of the service method behind a tool. */
  function ToolName(t: ToolId): (r: string)
    ensures r != "" && r[0] != '_'
  {
    match t
    case CreateDirectoryTool => "create_directory"
    case DeleteFileTool => "delete_file"
    case EditFileTool => "edit_file"
    case GetFileInfoTool => "get_file_info"
    case ListDirectoryTool => "list_directory"
    case ListDirectoryWithSizesTool => "list_directory_with_sizes"
    case MoveFileTool => "move_file"
    case ReadMultipleFilesTool => "read_multiple_files"
    case ReadTextFileTool => "read_text_file"
    case SearchFilesTool => "search_files"
    case WriteFileTool => "write_file"
  }

  function ToolNames(): (r: seq<string>)
    ensures |r| == |AllTools()| && forall i :: 0 <= i < |r| ==> r[i] == ToolName(AllTools()[i])
  {
    seq(|AllTools()|, i requires 0 <= i < |AllTools()| => ToolName(AllTools()[i]))
  }

  /** The tool a name stands for, if any. */
  function ToolOf(name: string): (r: Option<ToolId>)
    ensures r.Some? <==> name in ToolNames()
    ensures r.Some? ==> ToolName(r.value) == name
  {
    FindTool(AllTools(), name)
  }

  function FindTool(ts: seq<ToolId>, name: string): (r: Option<ToolId>)
    ensures r.Some? <==> exists i :: 0 <= i < |ts| && ToolName(ts[i]) == name
    ensures r.Some? ==> ToolName(r.value) == name
    decreases |ts|
  {
    if ts == [] then None
    else if ToolName(ts[0]) == name then Some(ts[0])
    else
      var r := FindTool(ts[1..], name);
      assert forall i :: 1 <= i < |ts| ==> ts[i] == ts[1..][i - 1];
      r
  }

  /** The argument model each tool's method is annotated with. */
  function ModelOf(t: ToolId): (m: Model)
    ensures DefaultsTyped(m.fields)
  {
    match t
    case CreateDirectoryTool => Model("CreateDirectoryArgs", PathOnlyFields())
    case DeleteFileTool => Model("DeleteFileArgs", DeleteFileFields())
    case EditFileTool => Model("EditFileArgs", EditFileFields())
    case GetFileInfoTool => Model("GetFileInfoArgs", PathOnlyFields())
    case ListDirectoryTool => Model("ListDirectoryArgs", PathOnlyFields())
    case ListDirectoryWithSizesTool => Model("ListDirectoryWithSizesArgs", PathOnlyFields())
    case MoveFileTool => Model("MoveFileArgs", MoveFileFields())
    case ReadMultipleFilesTool => Model("ReadMultipleFilesArgs", ReadMultipleFilesFields())
    case ReadTextFileTool => Model("ReadTextFileArgs", ReadTextFileFields())
    case SearchFilesTool => Model("SearchFilesArgs", SearchFilesFields())
    case WriteFileTool => Model("WriteFileArgs", WriteFileFields())
  }

  /** The table entry of a tool's method. */
  function ToolMember(t: ToolId): Member {
    Member(ToolName(t), None, FirstParam(Some(ModelOf(t))))
  }

  /** The service's bound methods as `inspect.getmembers` lists them, sorted
      by name: the constructor, whose parameter is the storage, and the tool
      methods, none of which has a docstring. */
  function ServiceMembers(): seq<Member> {
    [Member("__init__", None, FirstParam(None))] + ToolMembers()
  }

  /** The tool methods, one per tool, in the order of `AllTools`. */
  function ToolMembers(): (r: seq<Member>)
    ensures |r| == |AllTools()|
    ensures forall i :: 0 <= i < |r| ==> r[i] == ToolMember(AllTools()[i])
  {
    seq(|AllTools()|, i requires 0 <= i < |AllTools()| => ToolMember(AllTools()[i]))
  }

  function Names(ms: seq<Member>): (r: seq<string>)
    ensures |r| == |ms| && forall i :: 0 <= i < |ms| ==> r[i] == ms[i].name
  {
    seq(|ms|, i requires 0 <= i < |ms| => ms[i].name)
  }

  /** `_discover_tools`: the members whose name does not start with `_`, in
      the order given. */
  function Discover(ms: seq<Member>): (r: seq<Member>)
    ensures forall m :: m in r <==> m in ms && !StartsWith(m.name, "_")
    ensures |r| <= |ms|
    decreases |ms|
  {
    if ms == [] then []
    else
      var rest := Discover(ms[1..]);
      assert forall m :: m in ms <==> m == ms[0] || m in ms[1..];
      if StartsWith(ms[0].name, "_") then rest else [ms[0]] + rest
  }

  /** Discovery keeps the order of the members: discovering two runs of
      members is discovering each, one after the other. */
  lemma {:induction false} DiscoverAppend(a: seq<Member>, b: seq<Member>)
    ensures Discover(a + b) == Discover(a) + Discover(b)
    decreases |a|
  {
    if a == [] {
      assert a + b == b;
    } else {
      assert (a + b)[0] == a[0];
      assert (a + b)[1..] == a[1..] + b;
      DiscoverAppend(a[1..], b);
    }
  }

  /** One member is kept exactly when its name is public. */
  lemma DiscoverOne(m: Member)
    ensures Discover([m]) == (if StartsWith(m.name, "_") then [] else [m])
  {
    assert [m][1..] == [];
  }

  /** The tool table the controller builds from the service. */
  function Registry(): seq<Member> {
    Discover(ServiceMembers())
  }

  /** Discovery drops the constructor and keeps the tool methods. */
  lemma RegistryIsToolMembers()
    ensures Registry() == ToolMembers()
  {
    var ms := ServiceMembers();
    assert ms == [ms[0]] + ToolMembers();
    assert StartsWith(ms[0].name, "_");
    DiscoverOne(ms[0]);
    DiscoverAppend([ms[0]], ToolMembers());
    DiscoverKeeps(ToolMembers());
  }

  /** The table holds exactly the tool methods, each with its model. */
  lemma RegistryContents()
    ensures Names(Registry()) == ToolNames()
    ensures |Registry()| == |AllTools()|
    ensures forall i :: 0 <= i < |Registry()| ==> Registry()[i] == ToolMember(AllTools()[i])
  {
    RegistryIsToolMembers();
    assert Names(ToolMembers()) == ToolNames();
  }

  /** A list without private names is kept whole. */
  lemma {:induction false} DiscoverKeeps(ms: seq<Member>)
    requires forall i :: 0 <= i < |ms| ==> ms[i].name != "" && ms[i].name[0] != '_'
    ensures Discover(ms) == ms
    decreases |ms|
  {
    if ms != [] {
      DiscoverKeeps(ms[1..]);
      assert !StartsWith(ms[0].name, "_");
    }
  }

  // ---------------------------------------------------------------------------
  // get_tools and the input schemas
  // ---------------------------------------------------------------------------

  /** `inspect.getdoc(method) or "Sem descrição."`: an absent or empty
      docstring is replaced. */
  function Describe(doc: Option<string>): (r: string)
    ensures r != ""
    ensures doc.Some? && doc.value != "" ==> r == doc.value
    ensures doc.None? || doc.value == "" ==> r == "Sem descrição."
  {
    if doc.Some? && doc.value != "" then doc.value else "Sem descrição."
  }

  /** The schema of one field's type. */
  function TypeSchema(ty: FieldType): Json {
    match ty
    case TStr => JObj(map["type" := JStr("string")])
    case TBool => JObj(map["type" := JStr("boolean")])
    case TOptInt => JObj(map["anyOf" := JArr([JObj(map["type" := JStr("integer")]), JObj(map["type" := JStr("null")])])])
    case TStrList => JObj(map["type" := JStr("array"), "items" := JObj(map["type" := JStr("string")])])
    case TEditList => JObj(map["type" := JStr("array"), "items" := JObj(map["type" := JStr("object")])])
  }

  /** A field's schema: its type, and its default when it has one. */
  function FieldSchema(f: Field): Json {
    var t := TypeSchema(f.ty);
    if f.dflt.Some? then JObj(t.fields["default" := f.dflt.value]) else t
  }

  /** The `properties` of a model schema, keyed by field name. */
  function Properties(fields: seq<Field>): (r: map<string, Json>)
    ensures forall n :: n in r <==> exists i :: 0 <= i < |fields| && fields[i].name == n
    decreases |fields|
  {
    if fields == [] then map[]
    else
      var last := fields[|fields| - 1];
      var front := fields[..|fields| - 1];
      assert forall i :: 0 <= i < |front| ==> front[i] == fields[i];
      Properties(front)[last.name := FieldSchema(last)]
  }

  /** The names of the fields without a default, in declaration order. */
  function Required(fields: seq<Field>): (r: seq<string>)
    ensures forall n :: n in r <==> exists i :: 0 <= i < |fields| && fields[i].name == n && fields[i].dflt.None?
    decreases |fields|
  {
    if fields == [] then []
    else
      var rest := Required(fields[1..]);
      assert forall i :: 1 <= i < |fields| ==> fields[i] == fields[1..][i - 1];
      (if fields[0].dflt.None? then [fields[0].name] else []) + rest
  }

  /** `model_json_schema()`, reduced to the title, the field types and
      defaults, and the required names (listed only when there are some). */
  function SchemaOf(m: Model): (j: Json)
    ensures j.JObj? && "properties" in j.fields && j.fields["properties"] == JObj(Properties(m.fields))
    ensures "required" in j.fields <==> Required(m.fields) != []
    ensures "required" in j.fields ==> j.fields["required"] == StrArray(Required(m.fields))
  {
    var base := map["title" := JStr(m.title), "type" := JStr("object"), "properties" := JObj(Properties(m.fields))];
    if Required(m.fields) == [] then JObj(base)
    else JObj(base["required" := StrArray(Required(m.fields))])
  }

  /** `_get_input_schema`: none for a method without parameters or whose
      first parameter is not a model. */
  function InputSchema(sig: Signature): (r: Option<Json>)
    ensures r.None? <==> sig.NoParams? || sig.model.None?
    ensures r.Some? ==> r.value == SchemaOf(sig.model.value)
  {
    match sig
    case NoParams => None
    case FirstParam(None) => None
    case FirstParam(Some(m)) => Some(SchemaOf(m))
  }

  /** `get_tools`: one entry per table entry, in table order. */
  function GetTools(tools: seq<Member>): (r: seq<ToolInfo>)
    ensures |r| == |tools|
    ensures forall i :: 0 <= i < |tools| ==>
      r[i] == ToolInfo(tools[i].name, Describe(tools[i].doc), InputSchema(tools[i].sig))
  {
    seq(|tools|, i requires 0 <= i < |tools| => ToolInfo(tools[i].name, Describe(tools[i].doc), InputSchema(tools[i].sig)))
  }

  /** Every tool of the service is listed under its name, with the default
      description and the schema of its model. */
  lemma ServiceTools()
    ensures var tools := GetTools(Registry());
      && |tools| == |ToolNames()|
      && forall i :: 0 <= i < |tools| ==>
        && tools[i].name == ToolName(AllTools()[i])
        && tools[i].description == "Sem descrição."
        && tools[i].inputSchema == Some(SchemaOf(ModelOf(AllTools()[i])))
  {
    RegistryContents();
  }

  /** A field the schema lists as required is exactly one whose absence
      validation reports. */
  lemma {:induction false} RequiredIsMissing(args: map<string, Json>, fields: seq<Field>, n: string)
    ensures Missing(n) in Issues(args, fields) <==> n in Required(fields) && n !in args
    decreases |fields|
  {
    if fields != [] {
      RequiredIsMissing(args, fields[1..], n);
      assert Issues(args, fields) == FieldIssues(args, fields[0]) + Issues(args, fields[1..]);
      assert Required(fields) == (if fields[0].dflt.None? then [fields[0].name] else []) + Required(fields[1..]);
    }
  }

  // ---------------------------------------------------------------------------
  // Calls
  // ---------------------------------------------------------------------------

  /** A validated call: the tool and its argument record. */
  datatype Call =
    | ReadTextFileCall(readText: ReadTextFileArgs)
    | ReadMultipleFilesCall(readMany: ReadMultipleFilesArgs)
    | WriteFileCall(write: WriteFileArgs)
    | EditFileCall(edit: EditFileArgs)
    | CreateDirectoryCall(create: CreateDirectoryArgs)
    | ListDirectoryCall(list: ListDirectoryArgs)
    | ListDirectoryWithSizesCall(listSized: ListDirectoryWithSizesArgs)
    | GetFileInfoCall(info: GetFileInfoArgs)
    | SearchFilesCall(search: SearchFilesArgs)
    | MoveFileCall(move: MoveFileArgs)
    | DeleteFileCall(delete: DeleteFileArgs)

  function CallTool(c: Call): ToolId {
    match c
    case ReadTextFileCall(_) => ReadTextFileTool
    case ReadMultipleFilesCall(_) => ReadMultipleFilesTool
    case WriteFileCall(_) => WriteFileTool
    case EditFileCall(_) => EditFileTool
    case CreateDirectoryCall(_) => CreateDirectoryTool
    case ListDirectoryCall(_) => ListDirectoryTool
    case ListDirectoryWithSizesCall(_) => ListDirectoryWithSizesTool
    case GetFileInfoCall(_) => GetFileInfoTool
    case SearchFilesCall(_) => SearchFilesTool
    case MoveFileCall(_) => MoveFileTool
    case DeleteFileCall(_) => DeleteFileTool
  }

  /** `model(**args)` for the tool's model: the call, or every issue found. */
  function Decode(t: ToolId, args: map<string, Json>): (r: Result<Call, seq<Issue>>)
    ensures r.Err? <==> Issues(args, ModelOf(t).fields) != []
    ensures r.Err? ==> r.error == Issues(args, ModelOf(t).fields)
    ensures r.Ok? ==> CallTool(r.value) == t
  {
    var issues := Issues(args, ModelOf(t).fields);
    if issues != [] then Err(issues) else Ok(CallOf(t, args))
  }

  /** The tools whose only argument is a path. */
  predicate TakesPath(t: ToolId) {
    t.CreateDirectoryTool? || t.GetFileInfoTool? || t.ListDirectoryTool? || t.ListDirectoryWithSizesTool?
  }

  /** The argument record built from arguments the model accepts. */
  function CallOf(t: ToolId, args: map<string, Json>): (c: Call)
    requires Issues(args, ModelOf(t).fields) == []
    ensures CallTool(c) == t
  {
    if TakesPath(t) then PathCall(t, args)
    else if t.DeleteFileTool? || t.EditFileTool? || t.MoveFileTool? then ChangeCall(t, args)
    else ReadCall(t, args)
  }

  function PathCall(t: ToolId, args: map<string, Json>): (c: Call)
    requires TakesPath(t) && Issues(args, ModelOf(t).fields) == []
    ensures CallTool(c) == t
  {
    var p := DecodePath(args).value;
    if t.CreateDirectoryTool? then CreateDirectoryCall(CreateDirectoryArgs(p))
    else if t.GetFileInfoTool? then GetFileInfoCall(GetFileInfoArgs(p))
    else if t.ListDirectoryTool? then ListDirectoryCall(ListDirectoryArgs(p))
    else ListDirectoryWithSizesCall(ListDirectoryWithSizesArgs(p))
  }

  function ChangeCall(t: ToolId, args: map<string, Json>): (c: Call)
    requires (t.DeleteFileTool? || t.EditFileTool? || t.MoveFileTool?) && Issues(args, ModelOf(t).fields) == []
    ensures CallTool(c) == t
  {
    if t.DeleteFileTool? then DeleteFileCall(DecodeDeleteFile(args).value)
    else if t.EditFileTool? then EditFileCall(DecodeEditFile(args).value)
    else MoveFileCall(DecodeMoveFile(args).value)
  }

  function ReadCall(t: ToolId, args: map<string, Json>): (c: Call)
    requires (t.ReadMultipleFilesTool? || t.ReadTextFileTool? || t.SearchFilesTool? || t.WriteFileTool?)
    requires Issues(args, ModelOf(t).fields) == []
    ensures CallTool(c) == t
  {
    if t.ReadMultipleFilesTool? then ReadMultipleFilesCall(DecodeReadMultipleFiles(args).value)
    else if t.ReadTextFileTool? then ReadTextFileCall(DecodeReadTextFile(args).value)
    else SearchOrWriteCall(t, args)
  }

  function SearchOrWriteCall(t: ToolId, args: map<string, Json>): (c: Call)
    requires (t.SearchFilesTool? || t.WriteFileTool?) && Issues(args, ModelOf(t).fields) == []
    ensures CallTool(c) == t
  {
    if t.SearchFilesTool? then SearchFilesCall(DecodeSearchFiles(args).value)
    else WriteFileCall(DecodeWriteFile(args).value)
  }

  // ---------------------------------------------------------------------------
  // Results
  // ---------------------------------------------------------------------------

  /** The dictionary `execute_tool` returns: `{"content": ...}`,
      `{"result": ...}`, or `{"error": ...}` with the tool's name under
      `"tool"` once the tool was found. */
  datatype Response = Content(text: string) | Value(value: Json) | Failure(message: string, tool: Option<string>)

  function ResponseJson(r: Response): (j: Json)
    ensures j.JObj?
    ensures r.Content? ==> j.fields.Keys == {"content"}
    ensures r.Value? ==> j.fields.Keys == {"result"}
    ensures r.Failure? ==> j.fields.Keys == if r.tool.Some? then {"error", "tool"} else {"error"}
  {
    match r
    case Content(t) => JObj(map["content" := JStr(t)])
    case Value(v) => JObj(map["result" := v])
    case Failure(m, None) => JObj(map["error" := JStr(m)])
    case Failure(m, Some(t)) => JObj(map["error" := JStr(m), "tool" := JStr(t)])
  }

  /** The answer to a tool that ran: its exception as an error naming the
      tool, a string as content, anything else serialised. */
  function Respond(name: string, res: Result<PyVal, StorageError>): (r: Response)
    ensures res.Err? <==> r.Failure?
    ensures res.Err? ==> r == Failure(ErrorMessage(res.error), Some(name))
    ensures res.Ok? && res.value.PStr? ==> r == Content(res.value.s)
    ensures res.Ok? && !res.value.PStr? ==> r == Value(Serialize(res.value))
  {
    match res
    case Err(e) => Failure(ErrorMessage(e), Some(name))
    case Ok(PStr(s)) => Content(s)
    case Ok(v) => Value(Serialize(v))
  }

  /** `str(n)` for a natural number. */
  function Decimal(n: nat): (r: string)
    ensures r != ""
    decreases n
  {
    var d := ['0', '1', '2', '3', '4', '5', '6', '7', '8', '9'][n % 10];
    if n < 10 then [d] else Decimal(n / 10) + [d]
  }

  /** One line pair of a validation report: the field, then what is wrong. */
  function IssueText(i: Issue): string {
    match i
    case Missing(f) => f + "\n  Field required"
    case WrongType(f) => f + "\n  Input should be a valid value of the declared type"
  }

  /** `str(ValidationError)`: how many errors, for which model, and each
      error on its own lines. */
  function ValidationText(m: Model, issues: seq<Issue>): (r: string)
    ensures StartsWith(r, Decimal(|issues|) + (if |issues| == 1 then " validation error for " else " validation errors for "))
  {
    var count := Decimal(|issues|) + (if |issues| == 1 then " validation error for " else " validation errors for ");
    var r := count + m.title + Join(seq(|issues|, i requires 0 <= i < |issues| => "\n" + IssueText(issues[i])), "");
    assert r[..|count|] == count;
    r
  }

  /** The answer to a call of a tool that is not registered: a failure
      naming the tool in its text, tied to no tool. */
  function NotFound(name: string): (r: Response)
    ensures r.Failure? && r.tool == None && Contains(r.message, name)
  {
    var m := "Ferramenta '" + name + "' não encontrada.";
    assert OccursAt(m, name, 12);
    Failure(m, None)
  }

  // ---------------------------------------------------------------------------
  // Running a call
  // ---------------------------------------------------------------------------

  function TextReply(r: Result<string, StorageError>): (v: Result<PyVal, StorageError>)
    ensures v.Ok? <==> r.Ok?
    ensures v.Ok? ==> v.value == PStr(r.value)
    ensures v.Err? ==> v.error == r.error
  {
    match r
    case Ok(s) => Ok(PStr(s))
    case Err(e) => Err(e)
  }

  function StrDict(m: map<string, string>): (v: PyVal)
    ensures v.PDict? && v.entries.Keys == m.Keys
  {
    PDict(map k | k in m :: PStr(m[k]))
  }

  function InfoValue(f: FileInfo): PyVal {
    PModel(FileInfoJson(f))
  }

  function InfoList(infos: seq<FileInfo>): (v: PyVal)
    ensures v.PList? && |v.items| == |infos|
  {
    PList(seq(|infos|, i requires 0 <= i < |infos| => InfoValue(infos[i])))
  }

  /** A list of `FileInfo` models serialises to the list of their dumps. */
  lemma InfoListJson(infos: seq<FileInfo>)
    ensures Serialize(InfoList(infos)) == FileInfosJson(infos)
  {
  }

  /** The deterministic calls, run through the service: what they return as
      a Python value, and the file system they leave. */
  function Perform(st: Storage, fs: Fs, c: Call, preview: string): (o: Outcome<PyVal>)
    requires IsAbs(st.cwd) && Wf(fs)
    requires !c.ListDirectoryCall? && !c.ListDirectoryWithSizesCall? && !c.SearchFilesCall?
    ensures Wf(o.fs)
  {
    match c
    case ReadTextFileCall(a) => Outcome(fs, TextReply(Service.ReadTextFile(st, fs, a)))
    case ReadMultipleFilesCall(a) =>
      var m := Service.ReadMultipleFiles(st, fs, a);
      Outcome(fs, Ok(PDict(map["files" := StrDict(m.files), "errors" := StrDict(m.errors)])))
    case WriteFileCall(a) => var o := Service.WriteFile(st, fs, a); Outcome(o.fs, TextReply(o.result))
    case EditFileCall(a) => var o := Service.EditFile(st, fs, a, preview); Outcome(o.fs, TextReply(o.result))
    case CreateDirectoryCall(a) => var o := Service.CreateDirectory(st, fs, a); Outcome(o.fs, TextReply(o.result))
    case GetFileInfoCall(a) =>
      (match Service.GetFileInfo(st, fs, a)
       case Ok(f) => Outcome(fs, Ok(InfoValue(f)))
       case Err(e) => Outcome(fs, Err(e)))
    case MoveFileCall(a) => var o := Service.MoveFile(st, fs, a); Outcome(o.fs, TextReply(o.result))
    case DeleteFileCall(a) => var o := Service.DeleteFile(st, fs, a); Outcome(o.fs, TextReply(o.result))
  }

  /** What `list_directory` may answer: the entries as the storage promises
      them, or the error it raises. */
  ghost predicate ListAnswer(st: Storage, fs: Fs, name: string, a: ListDirectoryArgs, r: Response)
    requires IsAbs(st.cwd)
  {
    && (r.Value? <==> Accepts(st, a.path) && IsDir(fs, KeyOf(st, a.path)))
    && (!r.Value? ==> r == Failure(ErrorMessage(if Accepts(st, a.path) then NotADirectoryListing(a.path) else Refusal(st, a.path)), Some(name)))
    && (r.Value? ==> exists infos ::
          && r.value == FileInfosJson(infos)
          && Reports(fs, AbsNorm(a.path, st.cwd).lead, Children(fs, KeyOf(st, a.path)), infos)
          && SortedEntries(infos))
  }

  /** What `list_directory_with_sizes` may answer. */
  ghost predicate ListSizedAnswer(st: Storage, fs: Fs, name: string, a: ListDirectoryWithSizesArgs, r: Response)
    requires IsAbs(st.cwd)
  {
    && (r.Value? <==> Accepts(st, a.path) && IsDir(fs, KeyOf(st, a.path)))
    && (!r.Value? ==> r == Failure(ErrorMessage(if Accepts(st, a.path) then NotADirectoryListing(a.path) else Refusal(st, a.path)), Some(name)))
    && (r.Value? ==> exists d ::
          && r.value == DirectoryListingJson(d)
          && d.path == a.path && d.totalCount == |d.entries|
          && Reports(fs, AbsNorm(a.path, st.cwd).lead, Children(fs, KeyOf(st, a.path)), d.entries)
          && SortedEntries(d.entries))
  }

  /** What `search_files` may answer. */
  ghost predicate SearchAnswer(st: Storage, fs: Fs, name: string, a: SearchFilesArgs, r: Response)
    requires IsAbs(st.cwd)
  {
    && (r.Value? <==> Accepts(st, a.path) && (a.recursive || IsDir(fs, KeyOf(st, a.path))))
    && (!r.Value? ==> r.Failure? && r.tool == Some(name))
    && (r.Value? ==> exists s ::
          && r.value == SearchResultJson(s)
          && s.query == a.pattern && s.basePath == a.path && s.totalMatches == |s.matches|
          && Reports(fs, AbsNorm(a.path, st.cwd).lead, Found(fs, KeyOf(st, a.path), a.pattern, a.recursive), s.matches))
  }

  /** What running call `c` of tool `name` may answer, leaving `fs1`: the
      deterministic calls answer as `Perform` says; the listings and the
      search leave the file system alone. */
  ghost predicate Answers(st: Storage, fs: Fs, name: string, c: Call, preview: string, fs1: Fs, r: Response)
    requires IsAbs(st.cwd) && Wf(fs)
  {
    match c
    case ListDirectoryCall(a) => fs1 == fs && ListAnswer(st, fs, name, a, r)
    case ListDirectoryWithSizesCall(a) => fs1 == fs && ListSizedAnswer(st, fs, name, a, r)
    case SearchFilesCall(a) => fs1 == fs && SearchAnswer(st, fs, name, a, r)
    case _ => fs1 == Perform(st, fs, c, preview).fs && r == Respond(name, Perform(st, fs, c, preview).result)
  }

  method RunList(st: Storage, fs: Fs, name: string, a: ListDirectoryArgs) returns (r: Response)
    requires IsAbs(st.cwd)
    ensures ListAnswer(st, fs, name, a, r)
  {
    var res := Service.ListDirectory(st, fs, a);
    match res {
      case Err(e) => r := Failure(ErrorMessage(e), Some(name));
      case Ok(infos) =>
        r := Respond(name, Ok(InfoList(infos)));
        InfoListJson(infos);
    }
  }

  method RunListSized(st: Storage, fs: Fs, name: string, a: ListDirectoryWithSizesArgs) returns (r: Response)
    requires IsAbs(st.cwd)
    ensures ListSizedAnswer(st, fs, name, a, r)
  {
    var res := Service.ListDirectoryWithSizes(st, fs, a);
    match res {
      case Err(e) => r := Failure(ErrorMessage(e), Some(name));
      case Ok(d) => r := Respond(name, Ok(PModel(DirectoryListingJson(d))));
    }
  }

  method RunSearch(st: Storage, fs: Fs, name: string, a: SearchFilesArgs) returns (r: Response)
    requires IsAbs(st.cwd) && Wf(fs)
    ensures SearchAnswer(st, fs, name, a, r)
  {
    var res := Service.SearchFiles(st, fs, a);
    match res {
      case Err(e) => r := Failure(ErrorMessage(e), Some(name));
      case Ok(s) => r := Respond(name, Ok(PModel(SearchResultJson(s))));
    }
  }

  /** Runs a validated call. */
  method Run(st: Storage, fs: Fs, name: string, c: Call, preview: string) returns (fs1: Fs, r: Response)
    requires IsAbs(st.cwd) && Wf(fs)
    ensures Wf(fs1)
    ensures Answers(st, fs, name, c, preview, fs1, r)
    ensures r.Failure? ==> r.tool == Some(name)
  {
    match c
    case ListDirectoryCall(a) =>
      fs1 := fs;
      r := RunList(st, fs, name, a);
    case ListDirectoryWithSizesCall(a) =>
      fs1 := fs;
      r := RunListSized(st, fs, name, a);
    case SearchFilesCall(a) =>
      fs1 := fs;
      r := RunSearch(st, fs, name, a);
    case _ =>
      var o := Perform(st, fs, c, preview);
      fs1 := o.fs;
      r := Respond(name, o.result);
  }

  /** `execute_tool(tool_name, args)`: never raises. An unknown name is an
      error without a `"tool"` key and runs nothing; arguments the tool's
      model refuses are a validation error and run nothing; otherwise the
      tool runs and its answer or exception is wrapped. */
  method ExecuteTool(st: Storage, fs: Fs, name: string, args: map<string, Json>, preview: string) returns (fs1: Fs, r: Response)
    requires IsAbs(st.cwd) && Wf(fs)
    ensures Wf(fs1)
    ensures name !in Names(Registry()) ==> fs1 == fs && r == NotFound(name)
    ensures name in Names(Registry()) ==> r.Failure? ==> r.tool == Some(name)
    ensures var t := ToolOf(name);
      t.Some? && Issues(args, ModelOf(t.value).fields) != [] ==>
        && fs1 == fs
        && r == Failure("Erro de validação: " + ValidationText(ModelOf(t.value), Issues(args, ModelOf(t.value).fields)), Some(name))
    ensures var t := ToolOf(name);
      t.Some? && Issues(args, ModelOf(t.value).fields) == [] ==>
        Answers(st, fs, name, Decode(t.value, args).value, preview, fs1, r)
  {
    RegistryContents();
    if name !in Names(Registry()) {
      return fs, NotFound(name);
    }
    var t := ToolOf(name).value;
    match Decode(t, args)
    case Err(issues) =>
      fs1, r := fs, Failure("Erro de validação: " + ValidationText(ModelOf(t), issues), Some(name));
    case Ok(c) =>
      fs1, r := Run(st, fs, name, c, preview);
  }
}
