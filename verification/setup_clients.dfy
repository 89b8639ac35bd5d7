/** The older, single-file setup script: its own client blocks (keyed by the
    editor setting names), the choice of block, the update of the settings,
    and the shallow merge of two settings dictionaries. */
module SetupClients {
  import opened Wrappers
  import opened JsonValue
  import M = McpConfig

  const CopilotKey: string := "github.copilot.mcp.servers"
  const GeminiKey: string := "gemini.mcp.servers"
  const ClineBlockKey: string := "cline.mcpServers"

  /** `get_copilot_config`: the entry `filesystem` under the Copilot setting,
      with every directory its own argument. */
  function CopilotConfig(projectDir: string, dirs: seq<string>): (r: Json)
    ensures r.JObj? && r.fields.Keys == {CopilotKey}
    ensures var block := r.fields[CopilotKey];
      block.JObj? && block.fields.Keys == {"filesystem"}
      && M.Serves(block.fields["filesystem"], M.StartArgs + dirs, projectDir)
  {
    JObj(map[CopilotKey := JObj(map["filesystem" := M.ServerEntry(M.StartArgs + dirs, projectDir)])])
  }

  /** `get_cline_config`: the same entry under `cline.mcpServers`. */
  function ClineConfig(projectDir: string, dirs: seq<string>): (r: Json)
    ensures r.JObj? && r.fields.Keys == {ClineBlockKey}
    ensures var block := r.fields[ClineBlockKey];
      block.JObj? && block.fields.Keys == {"filesystem"}
      && M.Serves(block.fields["filesystem"], M.StartArgs + dirs, projectDir)
  {
    JObj(map[ClineBlockKey := JObj(map["filesystem" := M.ServerEntry(M.StartArgs + dirs, projectDir)])])
  }

  /** `get_gemini_config`: the same entry with an empty `env`, under the
      Gemini setting. */
  function GeminiConfig(projectDir: string, dirs: seq<string>): (r: Json)
    ensures r.JObj? && r.fields.Keys == {GeminiKey}
    ensures var block := r.fields[GeminiKey];
      && block.JObj? && block.fields.Keys == {"filesystem"}
      && var e := block.fields["filesystem"];
         && e.JObj? && e.fields.Keys == {"command", "args", "cwd", "env"}
         && e.fields["env"] == JObj(map[])
         && M.Serves(JObj(e.fields - {"env"}), M.StartArgs + dirs, projectDir)
  {
    var base := M.ServerEntry(M.StartArgs + dirs, projectDir);
    var e := JObj(base.fields["env" := JObj(map[])]);
    assert e.fields - {"env"} == base.fields;
    JObj(map[GeminiKey := JObj(map["filesystem" := e])])
  }

  /** `build_mcp_config`: Copilot, Gemini, and the Cline block for any other
      name. */
  function BuildMcpConfig(client: string, projectDir: string, dirs: seq<string>): (r: Json)
    ensures client == "copilot" ==> r == CopilotConfig(projectDir, dirs)
    ensures client == "gemini" ==> r == GeminiConfig(projectDir, dirs)
    ensures client != "copilot" && client != "gemini" ==> r == ClineConfig(projectDir, dirs)
  {
    if client == "copilot" then CopilotConfig(projectDir, dirs)
    else if client == "gemini" then GeminiConfig(projectDir, dirs)
    else ClineConfig(projectDir, dirs)
  }

  /** The `MCP_BLOCKS` table: Cline's entry moves from `cline.mcpServers` to
      `mcpServers`; the editor setting keys stay as they are. */
  function SlotOf(client: string): (r: Option<M.Slot>)
    ensures r.Some? <==> client in {"copilot", "gemini", "cline"}
    ensures r.Some? ==> r.value.entry == "filesystem"
    ensures client == "cline" ==> r == Some(M.Slot("mcpServers", ClineBlockKey, "filesystem"))
  {
    if client == "cline" then Some(M.Slot("mcpServers", ClineBlockKey, "filesystem"))
    else if client == "copilot" then Some(M.Slot(CopilotKey, CopilotKey, "filesystem"))
    else if client == "gemini" then Some(M.Slot(GeminiKey, GeminiKey, "filesystem"))
    else None
  }

  /** Why `update_final_config` raised: no `MCP_BLOCKS` row for the client
      (`KeyError`), or one of the errors of the copy itself. */
  datatype SetupError = UnknownClient(client: string) | CopyFailed(e: M.UpdateError)

  /** `update_final_config`: the entry `filesystem` copied into the settings
      under the client's key, the settings block created when missing. */
  function UpdateFinalConfig(existing: map<string, Json>, mcp: map<string, Json>, client: string): (r: Result<map<string, Json>, SetupError>)
    ensures SlotOf(client).None? ==> r == Err(UnknownClient(client))
    ensures SlotOf(client).Some? ==>
      var s := SlotOf(client).value;
      && (r.Ok? <==> M.EntryOf(mcp, s).Some? && (s.configKey !in existing || existing[s.configKey].JObj?))
      && (r.Ok? ==>
        && r.value.Keys == existing.Keys + {s.configKey}
        && (forall k :: k in existing && k != s.configKey ==> r.value[k] == existing[k])
        && r.value[s.configKey].JObj?
        && var before := if s.configKey in existing then existing[s.configKey].fields else map[];
           && r.value[s.configKey].fields.Keys == before.Keys + {"filesystem"}
           && r.value[s.configKey].fields["filesystem"] == M.EntryOf(mcp, s).value
           && forall e :: e in before && e != "filesystem" ==> r.value[s.configKey].fields[e] == before[e])
  {
    match SlotOf(client)
    case None => Err(UnknownClient(client))
    case Some(s) =>
      match M.EntryOf(mcp, s)
      case None => Err(CopyFailed(M.MissingEntry(s.mcpKey)))
      case Some(value) =>
        var block := if s.configKey in existing then existing[s.configKey] else JObj(map[]);
        if !block.JObj? then Err(CopyFailed(M.NotAnObject(s.configKey)))
        else Ok(existing[s.configKey := JObj(block.fields["filesystem" := value])])
  }

  /** Any client name other than Copilot's or Gemini's gets the Cline block,
      and for `cline` the update files that block's entry under
      `mcpServers.filesystem`. */
  lemma ClineEntryUnderMcpServers(existing: map<string, Json>, projectDir: string, dirs: seq<string>)
    requires "mcpServers" !in existing || existing["mcpServers"].JObj?
    ensures var mcp := BuildMcpConfig("cline", projectDir, dirs);
      var r := UpdateFinalConfig(existing, mcp.fields, "cline");
      && r.Ok?
      && M.Serves(r.value["mcpServers"].fields["filesystem"], M.StartArgs + dirs, projectDir)
      && forall k :: k in existing && k != "mcpServers" ==> r.value[k] == existing[k]
  {
  }

  /** `merge_config`: every key of the new settings is written; where both
      sides hold an object the two are merged one level deep, and otherwise
      the new value replaces the old. */
  function MergeConfig(existing: map<string, Json>, update: map<string, Json>): (r: map<string, Json>)
    ensures r.Keys == existing.Keys + update.Keys
    ensures forall k :: k in existing && k !in update ==> r[k] == existing[k]
    ensures forall k :: k in update && !(k in existing && existing[k].JObj? && update[k].JObj?) ==> r[k] == update[k]
    ensures forall k :: k in update && k in existing && existing[k].JObj? && update[k].JObj? ==>
      && r[k].JObj?
      && r[k].fields.Keys == existing[k].fields.Keys + update[k].fields.Keys
      && (forall f :: f in update[k].fields ==> r[k].fields[f] == update[k].fields[f])
      && (forall f :: f in existing[k].fields && f !in update[k].fields ==> r[k].fields[f] == existing[k].fields[f])
  {
    map k | k in existing.Keys + update.Keys ::
      if k !in update then existing[k]
      else if k in existing && existing[k].JObj? && update[k].JObj? then JObj(existing[k].fields + update[k].fields)
      else update[k]
  }

  /** Merging the same settings in again changes nothing. */
  lemma MergeIdempotent(existing: map<string, Json>, update: map<string, Json>)
    ensures MergeConfig(MergeConfig(existing, update), update) == MergeConfig(existing, update)
  {
    var once := MergeConfig(existing, update);
    var twice := MergeConfig(once, update);
    forall k | k in twice
      ensures twice[k] == once[k]
    {
      if k in update && k in existing && existing[k].JObj? && update[k].JObj? {
        assert once[k].fields + update[k].fields == once[k].fields;
      }
    }
  }

  /** Merging in nothing changes nothing. */
  lemma MergeEmpty(existing: map<string, Json>)
    ensures MergeConfig(existing, map[]) == existing
  {
  }
}
