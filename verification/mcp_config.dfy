/** The client configuration blocks the setup script writes into an editor's
    settings: one server entry that starts `mcp-filesystem` through poetry
    with the allowed directories, placed under the key the client reads. */
module McpConfig {
  import opened Wrappers
  import opened PyStr
  import opened JsonValue

  /** The fixed start of every server command line. */
  const StartArgs: seq<string> := ["run", "mcp-filesystem", "start", "--allowed-dirs"]

  /** The command-line arguments with the directories given as one
      comma-joined argument. */
  function JoinedArgs(dirs: seq<string>): (r: seq<string>)
    ensures |r| == |StartArgs| + 1 && r[..|StartArgs|] == StartArgs
    ensures r[|StartArgs|] == Join(dirs, ",")
  {
    StartArgs + [Join(dirs, ",")]
  }

  /** `get_copilot_config`: the entry `mcp-filesystem` under `servers`. */
  function CopilotConfig(dirs: seq<string>): (r: Json)
    ensures r.JObj? && r.fields.Keys == {"servers"}
    ensures var block := r.fields["servers"];
      block.JObj? && block.fields.Keys == {"mcp-filesystem"}
      && block.fields["mcp-filesystem"] == JObj(map[
           "type" := JStr("stdio"),
           "command" := JStr("poetry"),
           "args" := StrArray(JoinedArgs(dirs))])
  {
    JObj(map["servers" := JObj(map["mcp-filesystem" := JObj(map[
      "type" := JStr("stdio"),
      "command" := JStr("poetry"),
      "args" := StrArray(StartArgs + [Join(dirs, ",")])])])])
  }

  /** A server entry that runs poetry with `args` in `projectDir`. */
  predicate Serves(e: Json, args: seq<string>, projectDir: string) {
    && e.JObj? && e.fields.Keys == {"command", "args", "cwd"}
    && e.fields["command"] == JStr("poetry") && e.fields["cwd"] == JStr(projectDir)
    && IsStrArray(e.fields["args"]) && Strs(e.fields["args"]) == args
  }

  /** The server entry Gemini and Cline share, given its argument list. */
  function ServerEntry(args: seq<string>, projectDir: string): (r: Json)
    ensures Serves(r, args, projectDir)
  {
    StrArrayRoundTrip(args);
    JObj(map["command" := JStr("poetry"), "args" := StrArray(args), "cwd" := JStr(projectDir)])
  }

  /** `get_gemini_config`: the entry `filesystem` under `mcpServers`, with the
      directories comma-joined. */
  function GeminiConfig(projectDir: string, dirs: seq<string>): (r: Json)
    ensures r.JObj? && r.fields.Keys == {"mcpServers"}
    ensures var block := r.fields["mcpServers"];
      block.JObj? && block.fields.Keys == {"filesystem"}
      && Serves(block.fields["filesystem"], JoinedArgs(dirs), projectDir)
  {
    JObj(map["mcpServers" := JObj(map["filesystem" := ServerEntry(StartArgs + [Join(dirs, ",")], projectDir)])])
  }

  /** `get_cline_config`: the entry `filesystem` under `mcpServers`, with
      every directory its own argument. */
  function ClineConfig(projectDir: string, dirs: seq<string>): (r: Json)
    ensures r.JObj? && r.fields.Keys == {"mcpServers"}
    ensures var block := r.fields["mcpServers"];
      block.JObj? && block.fields.Keys == {"filesystem"}
      && Serves(block.fields["filesystem"], StartArgs + dirs, projectDir)
  {
    JObj(map["mcpServers" := JObj(map["filesystem" := ServerEntry(StartArgs + dirs, projectDir)])])
  }

  /** The directories of a comma-joined argument, as the server splits them. */
  lemma JoinedDirsRoundTrip(dirs: seq<string>)
    requires |dirs| >= 1
    requires forall i :: 0 <= i < |dirs| ==> ',' !in dirs[i]
    ensures Split(JoinedArgs(dirs)[|StartArgs|], ',') == dirs
  {
    SplitJoin(dirs, ',');
  }

  /** `build_mcp_config`: the block of the named client, or the `ValueError`
      for any other name. */
  function BuildMcpConfig(client: string, projectDir: string, dirs: seq<string>): (r: Result<Json, string>)
    ensures r.Err? <==> client !in {"copilot", "gemini", "cline"}
    ensures r.Err? ==> r.error == "Tipo de client desconhecido: " + client
    ensures client == "copilot" ==> r == Ok(CopilotConfig(dirs))
    ensures client == "gemini" ==> r == Ok(GeminiConfig(projectDir, dirs))
    ensures client == "cline" ==> r == Ok(ClineConfig(projectDir, dirs))
  {
    if client == "copilot" then Ok(CopilotConfig(dirs))
    else if client == "gemini" then Ok(GeminiConfig(projectDir, dirs))
    else if client == "cline" then Ok(ClineConfig(projectDir, dirs))
    else Err("Tipo de client desconhecido: " + client)
  }

  /** Where a client's entry lives: the key of the settings block, the key of
      the generated block, and the entry name inside both. */
  datatype Slot = Slot(configKey: string, mcpKey: string, entry: string)

  /** The `MCP_BLOCKS` table with the entry name each branch assigns. */
  function SlotOf(client: string): (r: Option<Slot>)
    ensures r.Some? <==> client in {"copilot", "gemini", "cline"}
    ensures r.Some? ==> r.value.configKey == r.value.mcpKey
  {
    if client == "copilot" then Some(Slot("servers", "servers", "mcp-filesystem"))
    else if client == "gemini" || client == "cline" then Some(Slot("mcpServers", "mcpServers", "filesystem"))
    else None
  }

  /** Why an update raised: the generated block lacks the entry (`KeyError`),
      or the settings hold something other than an object under the key
      (`TypeError` on item assignment). */
  datatype UpdateError = MissingEntry(key: string) | NotAnObject(key: string)

  /** The entry of the generated block, if it has one. */
  function EntryOf(mcp: map<string, Json>, s: Slot): (r: Option<Json>)
    ensures r.Some? <==> s.mcpKey in mcp && mcp[s.mcpKey].JObj? && s.entry in mcp[s.mcpKey].fields
    ensures r.Some? ==> r.value == mcp[s.mcpKey].fields[s.entry]
  {
    if s.mcpKey in mcp && mcp[s.mcpKey].JObj? && s.entry in mcp[s.mcpKey].fields
    then Some(mcp[s.mcpKey].fields[s.entry]) else None
  }

  /** `update_final_config`: the client's entry is copied from the generated
      block into the settings, creating the settings block when it is
      missing; an unknown client leaves the settings as they are. */
  function UpdateFinalConfig(existing: map<string, Json>, mcp: map<string, Json>, client: string): (r: Result<map<string, Json>, UpdateError>)
    ensures SlotOf(client).None? ==> r == Ok(existing)
    ensures SlotOf(client).Some? ==>
      var s := SlotOf(client).value;
      && (r.Ok? <==> EntryOf(mcp, s).Some? && (s.configKey !in existing || existing[s.configKey].JObj?))
      && (r.Ok? ==>
        && r.value.Keys == existing.Keys + {s.configKey}
        && (forall k :: k in existing && k != s.configKey ==> r.value[k] == existing[k])
        && r.value[s.configKey].JObj?
        && var before := if s.configKey in existing then existing[s.configKey].fields else map[];
           && r.value[s.configKey].fields.Keys == before.Keys + {s.entry}
           && r.value[s.configKey].fields[s.entry] == EntryOf(mcp, s).value
           && forall e :: e in before && e != s.entry ==> r.value[s.configKey].fields[e] == before[e])
  {
    match SlotOf(client)
    case None => Ok(existing)
    case Some(s) =>
      match EntryOf(mcp, s)
      case None => Err(MissingEntry(s.mcpKey))
      case Some(value) =>
        var block := if s.configKey in existing then existing[s.configKey] else JObj(map[]);
        if !block.JObj? then Err(NotAnObject(s.configKey))
        else Ok(existing[s.configKey := JObj(block.fields[s.entry := value])])
  }

  /** Updating twice with the same generated block is updating once. */
  lemma UpdateIdempotent(existing: map<string, Json>, mcp: map<string, Json>, client: string)
    requires UpdateFinalConfig(existing, mcp, client).Ok?
    ensures var once := UpdateFinalConfig(existing, mcp, client).value;
      UpdateFinalConfig(once, mcp, client) == Ok(once)
  {
    var once := UpdateFinalConfig(existing, mcp, client).value;
    if SlotOf(client).Some? {
      var s := SlotOf(client).value;
      var block := once[s.configKey];
      assert block.fields[s.entry := EntryOf(mcp, s).value] == block.fields;
      assert once[s.configKey := JObj(block.fields)] == once;
    }
  }

  /** The block `build_mcp_config` makes is always accepted by
      `update_final_config` for the same client, unless the settings hold a
      non-object under the client's key, and the settings end up with the
      server entry the client was built with. */
  lemma BuildThenUpdate(existing: map<string, Json>, client: string, projectDir: string, dirs: seq<string>)
    requires BuildMcpConfig(client, projectDir, dirs).Ok?
    requires var s := SlotOf(client).value; s.configKey !in existing || existing[s.configKey].JObj?
    ensures var s := SlotOf(client).value;
      var mcp := BuildMcpConfig(client, projectDir, dirs).value;
      var r := UpdateFinalConfig(existing, mcp.fields, client);
      && r.Ok?
      && r.value[s.configKey].fields[s.entry] == mcp.fields[s.mcpKey].fields[s.entry]
  {
  }
}
