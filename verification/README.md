# mcp-filesystem in Dafny

A model of the core of `mcp-filesystem`, an MCP server that gives a language
model file-system tools confined to a list of allowed directories, together
with the pure parts of its client-setup scripts.

The model covers:

- **Path validation** (`PathValidation`, on top of `PyStr`, `WordFacts` and
  `Glob`). This is the sandbox rule every tool goes through: a path is made
  absolute and normalised the way `os.path.abspath` does it, and it is
  accepted only when it equals an allowed root or lies below one. The module
  also covers the dangerous-pattern test, the safe-file-name cleaner and the
  glob-pattern filter.
- **Storage** (`Storage`, on top of `FileSystem` and `TextIO`). This is the
  local file-system back end. The file system is a map from component lists
  to files and directories, kept well formed: every entry's parent is a
  directory. Each operation returns the new file system and either its
  answer or the `OSError`, `NotADirectoryError` or refusal it raises. Text
  is read with universal newlines, and reads can take only the first or last
  lines.
- **Service and controller** (`Service`, `Entities`, `PyValue`, `JsonValue`,
  `Controller`). These cover the success messages of the service layer, how
  the argument models validate a JSON argument object, the tool registry and
  the input schemas of `get_tools`, and `execute_tool`'s answers: `content`,
  `result` or `error`. They also cover the recursive serialiser of results.
- **Setup scripts** (`McpConfig`, `SetupClients`, `ConfigMain`,
  `JsonComments`, `FileSearch`, `Sorting`). These cover:
  - the per-client server blocks and how they are written into an editor's
    settings;
  - the shallow settings merge;
  - the list of allowed directories built from the user's answer;
  - the two comment-stripping JSON pre-parsers;
  - the search for a likely settings file.

The module dependencies follow the program's layers:
`Storage` → `Service` → `Controller`, with `PathValidation` under `Storage`.

## Model

| member | source | states |
|---|---|---|
| PathValidation.ValidatePath | mcp_filesystem/utils/path_validation.py:20-57 | An empty path is refused with its own error. Any other path is accepted exactly when its absolute normal form is an allowed root or lies below one, component by component. On acceptance it returns that absolute path; otherwise the error names the path and the roots. |
| PathValidation.AnyRootMatches | mcp_filesystem/utils/path_validation.py:43-50 | The loop over the roots finds a match exactly when some root's absolute form passes the prefix test. |
| PathValidation.MatchesIffInside | mcp_filesystem/utils/path_validation.py:46 | The string test "equal to the root, or starts with root + separator" agrees with containment by path components, the `/` root included. |
| PathValidation.AcceptedIsInsideSomeRoot | mcp_filesystem/utils/path_validation.py:37-57 | Sandbox property: every accepted path, once normalised, is equal to or below some allowed root. `..` steps cannot climb out. |
| PathValidation.ValidateIdempotent | mcp_filesystem/utils/path_validation.py:37-57 | Validating the path that validation returned accepts it again and returns it unchanged. |
| PathValidation.RootOrderIrrelevant | mcp_filesystem/utils/path_validation.py:43-50 | Whether a path is accepted does not depend on the order of the allowed roots. |
| PathValidation.SiblingPrefixRejected | mcp_filesystem/utils/path_validation.py:46 | A sibling whose name merely starts with the root's name (`/data2` for root `/data`) is refused. |
| PathValidation.DotDotCollapses | mcp_filesystem/utils/path_validation.py:38-46 | A path that leaves a root through `..` is judged by where it ends up, not by how it was written. |
| PathValidation.SlashRootAdmits | mcp_filesystem/utils/path_validation.py:45-46 | With the single root `/`, the accepted paths are `/` itself and the paths whose normal form keeps exactly two leading slashes. The test prefix is `//`, so nothing else passes. |
| PathValidation.AbsNormWf | mcp_filesystem/utils/path_validation.py:38 | The absolute normal form of any path is well formed: absolute, with no empty, `.` or `..` components. |
| PathValidation.AbsPath | mcp_filesystem/utils/path_validation.py:38 | With an absolute working directory, `abspath` gives an absolute path, and normalising that path again gives back the same normal form. |
| PathValidation.AbsNormRender | mcp_filesystem/utils/path_validation.py:38 | With an absolute working directory, the normal form of `abspath` is well formed and renders to an absolute path that normalises back to it. |
| PathValidation.AbsPathIdempotent | mcp_filesystem/utils/path_validation.py:38 | Making an absolute, normalised path absolute again leaves it unchanged. |
| PathValidation.NormRender | mcp_filesystem/utils/path_validation.py:38 | Normalising the text of a normal form gives back that normal form (parse after print). |
| PathValidation.RenderInjective | mcp_filesystem/utils/path_validation.py:46 | Two different normal forms never print as the same text, so comparing strings compares paths. |
| PathValidation.IsSafePath | mcp_filesystem/utils/path_validation.py:60-85 | Holds exactly when none of the six dangerous patterns occurs in the lower-cased normalised path. |
| PathValidation.SafePathHasNoParentStep | mcp_filesystem/utils/path_validation.py:70-85 | The normal form of a path judged safe has no `..` component. |
| PathValidation.SafePathAvoidsSystemDirs | mcp_filesystem/utils/path_validation.py:70-85 | A path judged safe, whose normal form has one leading slash and at least two components, does not start with `/etc/`, `/proc/`, `/sys/` or `/dev/` in any letter case. |
| PathValidation.GetSafeFilename | mcp_filesystem/utils/path_validation.py:101-122 | The result is never empty, has no reserved character, and neither starts nor ends with a dot. |
| PathValidation.ReplaceEach | mcp_filesystem/utils/path_validation.py:114-115 | Each reserved character becomes `_` and every other character is kept in place. |
| PathValidation.ReplaceEachOne | mcp_filesystem/utils/path_validation.py:114-115 | In `a + [c] + b`, where only `c` is a reserved character, only `c` becomes `_`. |
| PathValidation.StripDots | mcp_filesystem/utils/path_validation.py:120 | The result is a middle slice of the input with only dots before and after it, so dots are removed only at the two ends. The result neither starts nor ends with a dot. |
| PathValidation.SafeFilenameReplaces | mcp_filesystem/utils/path_validation.py:112-122 | For a name with no whitespace and no dot at either end, the length is kept, each reserved character becomes `_`, and every other character stays in place. |
| PathValidation.SafeFilenameReplacesOne | mcp_filesystem/utils/path_validation.py:112-122 | One reserved character between two clean parts becomes `_`: `a` + reserved + `b` gives `a_b`. |
| PathValidation.SafeFilenameFallback | mcp_filesystem/utils/path_validation.py:117-122 | A name that is a single run of dots with only whitespace around it gives `unnamed_file`. This includes the empty name and the all-whitespace name. |
| PathValidation.SafeFilenameSpacedDots | mcp_filesystem/utils/path_validation.py:117-122 | Two runs of dots separated by whitespace give one space, not `unnamed_file`: rejoining the words keeps a space between them, and `strip(".")` removes only the dots. |
| PathValidation.SafeFilenameFixedPoint | mcp_filesystem/utils/path_validation.py:101-122 | A name that is already safe comes back unchanged. Safe means non-empty, with no reserved character, no whitespace, and no leading or trailing dot. |
| PathValidation.MatchPatterns | mcp_filesystem/utils/path_validation.py:125-142 | Holds exactly when some pattern matches the path's base name or the whole path; `*` matches everything. |
| PathValidation.Basename | mcp_filesystem/utils/path_validation.py:136 | A suffix of the path with no separator in it, which is either the whole path or starts right after a `/`. So it is the text after the last separator. |
| Glob.LiteralMatchesOnlyItself | mcp_filesystem/utils/path_validation.py:139 | A pattern without wildcards matches only the name that equals it. |
| Glob.StarMatchesAll | mcp_filesystem/storage/filesystem_storage.py:121 | The pattern `*` matches every name. |
| Glob.StarSuffix | scripts/file_search.py:14 | `*` followed by a literal matches exactly the names that end with that literal. |
| Glob.Match | mcp_filesystem/utils/path_validation.py:139 | A match consumes at least one character of the name for each pattern character other than `*`. The same test selects `*.json` names at scripts/file_search.py:14. Exact matching is `Glob.LiteralMatchesOnlyItself`, `Glob.StarMatchesAll` and `Glob.StarSuffix`. |
| PyStr.Contains | mcp_filesystem/utils/path_validation.py:82 | Python's `in` on strings: holds exactly when the substring occurs at some position. |
| PyStr.Lower | mcp_filesystem/utils/path_validation.py:79 | Keeps the length and lower-cases each character on its own. |
| PyStr.StripEmptyIff | scripts/main.py:19 | A string strips to nothing exactly when it is all whitespace. |
| PyStr.LStripBy | scripts/setup-ai-clients.py:34 | Removes the longest prefix of characters in the class. The result is the rest of the string and does not start with such a character. |
| PyStr.RStripBy | scripts/setup-ai-clients.py:34 | Removes the longest suffix of characters in the class. The result is the front of the string and does not end with such a character. |
| PyStr.JoinSplit | scripts/setup-ai-clients.py:41-47 | Joining the parts of a split with the separator gives back the original string. |
| PyStr.SplitJoin | scripts/main.py:19 | Splitting a join of parts that do not contain the separator gives back the parts. |
| PyStr.SplitPartsFree | scripts/main.py:19 | No part of a split contains the separator. |
| PyStr.Replace | mcp_filesystem/storage/filesystem_storage.py:67-69 | Replacing a non-empty text that does not occur leaves the string unchanged. |
| PyStr.ReplaceLeftmost | mcp_filesystem/storage/filesystem_storage.py:67-69 | When the text first occurs right after `a`, `replace` rewrites that occurrence and continues after it: `a + t + b` becomes `a + repl + replace(b)`. So every non-overlapping occurrence, from the left, is replaced. |
| PyStr.Interleave | mcp_filesystem/storage/filesystem_storage.py:67-69 | Replacing the empty text gives a result of length \|s\| + (\|s\|+1)·\|repl\|, and just the replacement when the string is empty. |
| PyStr.InterleaveAt | mcp_filesystem/storage/filesystem_storage.py:67-69 | In that result, block `i` of width \|repl\|+1 is the replacement followed by `s[i]`, and the last block is the replacement alone. |
| PyStr.ReprQuote | mcp_filesystem/utils/path_validation.py:53-55 | `repr` quotes with `"` exactly when the string holds a `'` and no `"`, and with `'` otherwise. |
| PyStr.Repr | mcp_filesystem/utils/path_validation.py:53-55 | `repr` of a string is at least two characters longer than the string, and starts and ends with the chosen quote. |
| PyStr.ReprRoundTrip | mcp_filesystem/utils/path_validation.py:53-55 | Reading the escapes of `repr` back gives the original string. |
| PyStr.ReprVerbatim | mcp_filesystem/utils/path_validation.py:53-55 | A string without a backslash, a `"` or a control character is shown as it is. It is between single quotes, or between double quotes when it holds a `'`. |
| PyStr.ReplaceChar | mcp_filesystem/utils/path_validation.py:115 | Replacing one character by another keeps the length and changes exactly the occurrences of that character. |
| WordFacts.WordsChars | mcp_filesystem/utils/path_validation.py:117 | Every character of every word from `split()` comes from the input, so splitting introduces no whitespace. |
| WordFacts.WordsOfWord | mcp_filesystem/utils/path_validation.py:117 | A non-empty string without whitespace splits into itself alone. |
| TextIO.Translate | mcp_filesystem/storage/filesystem_storage.py:25 | Universal-newline reading leaves no carriage return and never lengthens the text. |
| TextIO.TranslateNoCR | mcp_filesystem/storage/filesystem_storage.py:25 | Text without carriage returns reads back unchanged. |
| TextIO.TranslateIdempotent | mcp_filesystem/storage/filesystem_storage.py:25 | Reading text that was already read changes nothing. |
| TextIO.LinesFacts | mcp_filesystem/storage/filesystem_storage.py:27 | `readlines()` splits text into lines whose concatenation is the text. Every line but the last ends in a newline, and no line has one inside. |
| TextIO.TailStart | mcp_filesystem/storage/filesystem_storage.py:28 | Where `lines[-tail:]` starts, for positive and negative `tail`, including windows longer than the file. |
| TextIO.HeadCount | mcp_filesystem/storage/filesystem_storage.py:29-35 | How many lines the head loop keeps: none for a non-positive count, and at most the number of lines. |
| TextIO.ReadText | mcp_filesystem/storage/filesystem_storage.py:26-36 | A truthy `tail` gives a suffix of the translated text. Otherwise a truthy `head` gives a prefix of it, and with neither the whole translated text is returned. That these are whole lines is `TextIO.ReadTextShape`. |
| TextIO.ReadTextShape | mcp_filesystem/storage/filesystem_storage.py:26-36 | A tail read is a suffix of the file's text made of whole lines, and a head read is a prefix made of whole lines. `tail` wins over `head`, and with neither (or zeros) the whole text is returned. |
| TextIO.ReadTextLongWindow | mcp_filesystem/storage/filesystem_storage.py:26-35 | A head or tail of at least as many lines as the file has returns the whole text. |
| TextIO.ConcatAppend | mcp_filesystem/storage/filesystem_storage.py:28 | Joining two runs of lines is joining each and concatenating the results. |
| FileSystem.MkdirP | mcp_filesystem/utils/path_validation.py:98 | `mkdir(parents=True, exist_ok=True)` succeeds exactly when neither the path nor any ancestor is a file. It fails with `EEXIST` or `ENOTDIR`, keeps every existing entry, and adds only directories on the path. An existing directory is left alone. |
| FileSystem.RemoveTree | mcp_filesystem/storage/filesystem_storage.py:145 | Removes exactly the entry and everything below it, keeps the rest unchanged and keeps the file system well formed. |
| FileSystem.ClearTree | mcp_filesystem/storage/filesystem_storage.py:145 | What `rmtree` does to `/` before its final `rmdir` fails: everything strictly below goes and the rest stays. |
| FileSystem.RemoveEntry | mcp_filesystem/storage/filesystem_storage.py:147-149 | Removing a childless entry removes exactly that entry. |
| FileSystem.MoveTree | mcp_filesystem/storage/filesystem_storage.py:139 | Renaming a subtree to a free name carries every entry below the source to the same place below the target, unchanged. Nothing else moves and nothing is added. |
| FileSystem.MoveTreeWf | mcp_filesystem/storage/filesystem_storage.py:139 | A rename into an existing directory, never into the source's own subtree, keeps the file system well formed. |
| Storage.NewStorage | mcp_filesystem/storage/filesystem_storage.py:18-19 | Each allowed directory is stored in absolute form, one per directory given. |
| Storage.NewStorageSameSandbox | mcp_filesystem/storage/filesystem_storage.py:18-19 | Validating against the stored roots accepts and returns exactly what validating against the roots as given would. |
| Storage.Resolve | mcp_filesystem/storage/filesystem_storage.py:24 | Succeeds exactly for accepted paths. It yields the path's normal form, which prints as the validated path. |
| Storage.BasenameRender | mcp_filesystem/storage/filesystem_storage.py:155 | The base name of a validated path is the last component of its key. |
| Storage.ReadTextFile | mcp_filesystem/storage/filesystem_storage.py:21-36 | Succeeds exactly for an accepted path naming a file, and returns the head/tail window of its text. Otherwise it is the refusal, or `EISDIR` or `ENOENT`/`ENOTDIR` for the absolute path. |
| Storage.ReadMultipleFiles | mcp_filesystem/storage/filesystem_storage.py:38-48 | Every requested path lands in exactly one of `files` (with its text) or `errors` (with the error's message), as reading it alone would decide. |
| Storage.PutFile | mcp_filesystem/storage/filesystem_storage.py:52-55 | Writes the content at the key after creating the missing parents. It fails with `EISDIR` on a directory, with `EEXIST` on the parent when the parent is a file, and with `ENOTDIR` on the parent when a file sits further up. A failure changes nothing. |
| Storage.WriteFile | mcp_filesystem/storage/filesystem_storage.py:50-55 | Succeeds exactly when the path is accepted, is not a directory and has no file among its ancestors. Afterwards the path holds the content, every earlier entry is kept, and only parent directories are added. |
| Storage.WriteThenRead | mcp_filesystem/storage/filesystem_storage.py:50-55 | Reading back what was written gives the written text with newlines translated, and exactly the text when it has no carriage returns. |
| Storage.WriteTwice | mcp_filesystem/storage/filesystem_storage.py:54-55 | Writing twice to a path is the same as writing the second content once. |
| Storage.ApplyEditIsReplace | mcp_filesystem/storage/filesystem_storage.py:66-69 | One edit replaces every occurrence of the old text. When the old text is absent, nothing changes. |
| Storage.ApplyEditsAppend | mcp_filesystem/storage/filesystem_storage.py:65-74 | Edits apply in order: applying a list of edits is applying its first part, then the rest. |
| Storage.ApplyEditsSkipsAbsent | mcp_filesystem/storage/filesystem_storage.py:73-74 | An edit whose old text does not occur is skipped without effect. |
| Storage.EditFile | mcp_filesystem/storage/filesystem_storage.py:57-88 | Succeeds exactly for an accepted path naming a file. A dry run returns the preview and changes nothing. Otherwise the file holds the edited text and the answer is `File edited successfully.`; errors change nothing. |
| Storage.EditThenRead | mcp_filesystem/storage/filesystem_storage.py:85-88 | After an edit a reader sees the edits applied to what it read before. With no edits it reads the same text as before. |
| Storage.CreateDirectory | mcp_filesystem/storage/filesystem_storage.py:90-93 | An existing entry, a file included, is left as it is and the call succeeds. Otherwise the directory and its missing parents are created, unless a file among the ancestors makes it fail with `ENOTDIR`. |
| Storage.CreateDirectoryIdempotent | mcp_filesystem/storage/filesystem_storage.py:92-93 | Creating a directory twice is creating it once. |
| Storage.GetFileInfo | mcp_filesystem/storage/filesystem_storage.py:109-111 | Succeeds exactly for an accepted path that exists. It reports the path as given, the last component's name and whether it is a directory. |
| Storage.DeleteFile | mcp_filesystem/storage/filesystem_storage.py:141-149 | Removes a file, an empty directory, or (with `recursive`) a whole subtree, and nothing else. Error cases: a non-empty directory without `recursive` is `ENOTEMPTY`, a missing path is `ENOENT`/`ENOTDIR`, and `/` is `EBUSY` after a recursive delete has emptied it. |
| Storage.LeafAlone | mcp_filesystem/storage/filesystem_storage.py:147-149 | An entry without children has nothing below it, so `rmdir` and `remove` take only that entry. |
| Storage.WriteThenDelete | mcp_filesystem/storage/filesystem_storage.py:141-149 | A file just written can be deleted without `recursive`, and afterwards nothing is left at that path. |
| Storage.Rename | mcp_filesystem/storage/filesystem_storage.py:139 | The `os.rename` step of `shutil.move` and its fallbacks. It succeeds exactly when the source exists and is the target itself, or is a file, or is a directory going to a free target outside its own subtree; success relocates the source's subtree to the target. Failures: a missing source is `ENOENT`/`ENOTDIR`, a directory into its own subtree is the move-into-itself error, and a directory onto an existing entry is `EEXIST`. |
| Storage.ShutilMove | mcp_filesystem/storage/filesystem_storage.py:139 | Moving onto an existing directory targets `<dir>/<name>` and fails with `Destination path ... already exists` when that name is taken. Moving a directory onto itself does nothing, except `/`, which is `EBUSY`. Success relocates exactly the source's subtree to the target, and failure changes nothing. |
| Storage.MoveResolved | mcp_filesystem/storage/filesystem_storage.py:137-139 | Creates the destination's missing parents, then moves. Success relocates the source's subtree onto the target. A failure leaves either the original file system or only the newly created parents. |
| Storage.MoveFile | mcp_filesystem/storage/filesystem_storage.py:134-139 | Both paths must be accepted, and the source's refusal is reported first; a refusal changes nothing. Success relocates exactly the source's subtree. A failed move may leave the destination's created parents and changes nothing else. |
| Storage.MoveToFreeName | mcp_filesystem/storage/filesystem_storage.py:134-139 | Moving to a free name inside an existing directory relocates the source's subtree there, unchanged. |
| Storage.MoveIntoDirectory | mcp_filesystem/storage/filesystem_storage.py:139 | Moving into an existing directory puts the source under that directory with its own name. |
| Storage.MoveNeverIntoItself | mcp_filesystem/storage/filesystem_storage.py:139 | A directory can never be moved to a place below itself. |
| Storage.MoveThereAndBack | mcp_filesystem/storage/filesystem_storage.py:134-139 | Moving to a free name and back again restores the original file system exactly. |
| Storage.MoveTreeBack | mcp_filesystem/storage/filesystem_storage.py:139 | Renaming a subtree and renaming it back is the identity. |
| Storage.Enumerate | mcp_filesystem/storage/filesystem_storage.py:100 | The entries of a directory in some order: each exactly once. |
| Storage.BasenameOfJoin | mcp_filesystem/storage/filesystem_storage.py:101-102 | The base name of `os.path.join(dir, name)` is the entry's own name. |
| Storage.SortEntries | mcp_filesystem/storage/filesystem_storage.py:103 | Gives one report per entry: a permutation of the entries' infos. They are sorted directories first, then by lower-cased name. |
| Storage.KeyedEntries | mcp_filesystem/storage/filesystem_storage.py:103 | Every entry is paired with its sort key `(not is_directory, name.lower())`. |
| Storage.ListDirectory | mcp_filesystem/storage/filesystem_storage.py:95-103 | Succeeds exactly for an accepted directory and reports each child once, in sorted order. Anything else is refused with the path as given. |
| Storage.EntryKey | mcp_filesystem/storage/filesystem_storage.py:103 | The key has one more element than the name has characters, and opens with 0 exactly for a directory. That comparing keys is comparing the Python pairs is `Storage.EntryKeyOrder`. |
| Storage.NameCodesOrder | mcp_filesystem/storage/filesystem_storage.py:103 | Two names' codes are in order exactly when the names are in Python's `<=` order on strings. |
| Storage.EntryKeyOrder | mcp_filesystem/storage/filesystem_storage.py:103 | Keys are in order exactly when `(not is_directory, name.lower())` is in Python's `<=` order: a directory before a file, and within the same kind by lower-cased name. |
| Storage.ErrorMessage | mcp_filesystem/utils/path_validation.py:35-55 | `str()` of a raised error starts with `[Errno ` exactly when it is an `OSError`. The message of an `OSError` on one path ends with the `repr` of that path. |
| Storage.ListDirectoryWithSizes | mcp_filesystem/storage/filesystem_storage.py:105-107 | Returns the listing, the path as given, and a count equal to the number of children. |
| Storage.SearchFiles | mcp_filesystem/storage/filesystem_storage.py:113-132 | Reports exactly the regular files whose name matches the pattern: anywhere below the directory when recursive, directly in it otherwise. A recursive search of a non-directory finds nothing, and a flat one fails as `os.listdir` does. |
| Storage.NothingFoundOutsideDir | mcp_filesystem/storage/filesystem_storage.py:118-121 | Walking a file or a missing path finds nothing. |
| Service.Confirm | mcp_filesystem/services/filesystem_service.py:45-47 | Keeps the storage call's effect and error, and replaces a success by the confirmation message. |
| Service.ReadTextFile | mcp_filesystem/services/filesystem_service.py:39-40 | Passes the path and the head/tail window to storage and answers what storage answers. |
| Service.ReadMultipleFiles | mcp_filesystem/services/filesystem_service.py:42-43 | Each requested path is in exactly one of the two dictionaries, and every text returned is the file's text. |
| Service.WriteFile | mcp_filesystem/services/filesystem_service.py:45-47 | A successful write answers `Arquivo escrito com sucesso: <path>` and stores the content. Errors change nothing. |
| Service.EditFile | mcp_filesystem/services/filesystem_service.py:49-52 | Answers the preview on a dry run and the edit confirmation otherwise, with the storage contract's effects. |
| Service.CreateDirectory | mcp_filesystem/services/filesystem_service.py:54-56 | Answers `Diretório criado com sucesso: <path>` exactly when storage succeeds. The path is then a directory unless a file was already there. Existing entries are unchanged, and every new entry is a directory on the way to the path. After the path is accepted, the only error is `ENOTDIR`. |
| Service.ListDirectory | mcp_filesystem/services/filesystem_service.py:58-59 | Answers the storage listing: every child once, sorted. |
| Service.ListDirectoryWithSizes | mcp_filesystem/services/filesystem_service.py:61-64 | Answers the listing together with its path and count. |
| Service.GetFileInfo | mcp_filesystem/services/filesystem_service.py:66-67 | Answers the storage info for an existing accepted path. |
| Service.SearchFiles | mcp_filesystem/services/filesystem_service.py:69-70 | Answers the storage search: query, base path, matches and count. |
| Service.MoveFile | mcp_filesystem/services/filesystem_service.py:72-74 | A successful move answers `Movido com sucesso: <source> → <destination>`, and passes on its refusals and errors. |
| Service.DeleteMessage | mcp_filesystem/services/filesystem_service.py:78-80 | The answer ends with the path as given, and starts with `Diretório removido recursivamente` exactly when the call was recursive. |
| Service.DeleteFile | mcp_filesystem/services/filesystem_service.py:76-80 | Answers the recursive or the plain deletion message, according to the flag, exactly when the delete succeeds. |
| Service.WriteThenReadBack | mcp_filesystem/services/filesystem_service.py:39-47 | Through the service, reading a file just written gives its text with newlines translated. |
| Service.DeleteThenGone | mcp_filesystem/services/filesystem_service.py:66-80 | After a successful `delete_file`, `get_file_info` fails for the deleted path and for every path below it. |
| Entities.FieldIssues | mcp_filesystem/mcp/core/entities.py:13-23 | A field is fine exactly when it is given with the declared type, or absent with a default. A required field that is absent is reported missing. |
| Entities.IssuesNoneIff | mcp_filesystem/mcp/core/entities.py:13-23 | A model reports no issue exactly when none of its fields does. |
| Entities.MissingReported | mcp_filesystem/mcp/core/entities.py:16 | Every absent required field appears among the issues. |
| Entities.Validate | mcp_filesystem/mcp/core/entities.py:13-23 | Fails exactly when there is an issue, and reports all of them. On success every field holds a value of its type: the given one, or else the default. |
| Entities.EditsRoundTrip | mcp_filesystem/mcp/core/entities.py:45-49 | Encoding a list of edit operations as JSON and decoding it gives back the list. |
| Entities.DecodeReadTextFile | mcp_filesystem/mcp/core/entities.py:13-23 | Accepts exactly a string `path` plus optional integer-or-null `tail` and `head`. Missing optional fields default to `None`. |
| Entities.ReadTextFileRoundTrip | mcp_filesystem/mcp/core/entities.py:13-23 | Decoding the JSON form of any argument record gives back that record. |
| Entities.ReadTextFileDefaults | mcp_filesystem/mcp/core/entities.py:17-23 | A bare `path` decodes with no head and no tail. |
| Entities.DecodeReadMultipleFiles | mcp_filesystem/mcp/core/entities.py:32-35 | Accepts exactly a `paths` array of strings and returns those strings in order. |
| Entities.DecodeWriteFile | mcp_filesystem/mcp/core/entities.py:38-42 | Accepts exactly string `path` and `content`. |
| Entities.DecodeEditFile | mcp_filesystem/mcp/core/entities.py:52-57 | Accepts exactly a string `path`, a list of `{old_text, new_text}` objects and an optional boolean `dry_run`, which defaults to false. |
| Entities.EditFileRoundTrip | mcp_filesystem/mcp/core/entities.py:45-57 | Decoding the JSON form of any edit request gives it back. |
| Entities.EditFileDefaults | mcp_filesystem/mcp/core/entities.py:57 | Without `dry_run` an edit is not a dry run. |
| Entities.DecodePath | mcp_filesystem/mcp/core/entities.py:60-81 | The one-field models accept exactly a string `path`. |
| Entities.DecodeSearchFiles | mcp_filesystem/mcp/core/entities.py:84-89 | Accepts exactly a string `pattern` with an optional string `path` (default `.`) and an optional boolean `recursive` (default true). |
| Entities.SearchFilesRoundTrip | mcp_filesystem/mcp/core/entities.py:84-89 | Decoding the JSON form of any search request gives it back. |
| Entities.SearchFilesDefaults | mcp_filesystem/mcp/core/entities.py:88-89 | A bare pattern searches `.` recursively. |
| Entities.DecodeMoveFile | mcp_filesystem/mcp/core/entities.py:92-96 | Accepts exactly string `source` and `destination`. |
| Entities.DecodeDeleteFile | mcp_filesystem/mcp/core/entities.py:99-105 | Accepts exactly a string `path` with an optional boolean `recursive`, which defaults to false. |
| Entities.DeleteFileRoundTrip | mcp_filesystem/mcp/core/entities.py:99-105 | Decoding the JSON form of any delete request gives it back. |
| Entities.DeleteFileDefaults | mcp_filesystem/mcp/core/entities.py:103-105 | Without `recursive` a delete is not recursive. |
| Entities.FileInfosJson | mcp_filesystem/mcp/core/entities.py:108-117 | A list of file infos dumps item by item, keeping the order. |
| PyValue.Serialize | mcp_filesystem/mcp/controller.py:124-147 | Primitives stay as they are, and lists and tuples become arrays item by item. Dictionaries keep their keys, with each value serialised. Models become their dump; anything else becomes its JSON text or its `str()`. |
| PyValue.FromJson | mcp_filesystem/mcp/controller.py:135-140 | The Python value `json.loads` would give: arrays as lists, objects as dictionaries with the same keys, and primitives as themselves. |
| PyValue.SerializeFromJson | mcp_filesystem/mcp/controller.py:135-140 | Serialising a value decoded from JSON gives back that JSON. |
| PyValue.SerializeIdempotent | mcp_filesystem/mcp/controller.py:124-147 | Serialisation is a projection: serialising the decoded serialisation changes nothing. |
| Controller.ToolName | mcp_filesystem/mcp/controller.py:39 | Every service tool has a non-empty public name (not starting with `_`). |
| Controller.ToolOf | mcp_filesystem/mcp/controller.py:96-99 | A name finds a tool exactly when it is one of the tool names, and the tool found has that name. |
| Controller.FindTool | mcp_filesystem/mcp/controller.py:96 | Looking a name up in a tool list succeeds exactly when some tool in the list has that name. |
| Controller.ModelOf | mcp_filesystem/mcp/controller.py:106-107 | The argument model of each tool; every default it declares has the field's type. |
| Controller.Discover | mcp_filesystem/mcp/controller.py:28-41 | Keeps exactly the members whose names do not start with `_`, never more than it is given. That it keeps their order is `Controller.DiscoverAppend` with `Controller.DiscoverOne`. |
| Controller.RegistryIsToolMembers | mcp_filesystem/mcp/controller.py:28-41 | Discovery over the service's members drops only `__init__` and keeps the tool methods in `getmembers` order. |
| Controller.RegistryContents | mcp_filesystem/mcp/controller.py:28-41 | The discovered registry is the service's eleven tools, in order, under their names. |
| Controller.DiscoverAppend | mcp_filesystem/mcp/controller.py:35-41 | Discovery keeps the members' order: discovering two runs of members is discovering each, one after the other. |
| Controller.DiscoverOne | mcp_filesystem/mcp/controller.py:39-40 | A single member is kept exactly when its name does not start with `_`. |
| Controller.DiscoverKeeps | mcp_filesystem/mcp/controller.py:39-40 | Discovery drops nothing when no name is private. |
| Controller.Describe | mcp_filesystem/mcp/controller.py:55 | The docstring when there is a non-empty one, and `Sem descrição.` otherwise. |
| Controller.Properties | mcp_filesystem/mcp/controller.py:83 | The schema has one property per model field. |
| Controller.Required | mcp_filesystem/mcp/controller.py:83 | A field is listed as required exactly when it has no default. |
| Controller.SchemaOf | mcp_filesystem/mcp/controller.py:83 | The schema holds the properties, and a `required` list exactly when some field is required. |
| Controller.InputSchema | mcp_filesystem/mcp/controller.py:61-83 | No schema for a tool without parameters or without a model; otherwise the model's schema. |
| Controller.GetTools | mcp_filesystem/mcp/controller.py:43-59 | Gives one entry per registered tool, in order, with its name, description and input schema. |
| Controller.ServiceTools | mcp_filesystem/mcp/controller.py:43-59 | Every service tool is listed with the default description and its model's schema. |
| Controller.RequiredIsMissing | mcp_filesystem/mcp/controller.py:112 | Validation reports a field as missing exactly when the schema lists it as required and the arguments lack it. |
| Controller.Decode | mcp_filesystem/mcp/controller.py:106-113 | Arguments decode exactly when the tool's model reports no issue. The decoded call belongs to that tool. |
| Controller.ResponseJson | mcp_filesystem/mcp/controller.py:96-122 | Each answer is a JSON object with exactly the keys `content`, `result`, or `error` (plus `tool` when the tool is known). |
| Controller.Respond | mcp_filesystem/mcp/controller.py:115-122 | An exception becomes an error naming the tool, a string becomes `content`, and any other value becomes a serialised `result`. |
| Controller.TextReply | mcp_filesystem/mcp/controller.py:115-116 | A text answer passes through as a Python string, and an error passes through unchanged. |
| Controller.InfoListJson | mcp_filesystem/mcp/controller.py:137-142 | A list of file-info models serialises to the list of their dumps. |
| Controller.RunList | mcp_filesystem/mcp/controller.py:113-117 | The `list_directory` answer is the sorted listing as a serialised result, or the error naming the tool. |
| Controller.RunListSized | mcp_filesystem/mcp/controller.py:113-117 | The `list_directory_with_sizes` answer is the listing with path and count, or the error naming the tool. |
| Controller.RunSearch | mcp_filesystem/mcp/controller.py:113-117 | The `search_files` answer is the search result, or an error naming the tool. |
| Controller.Run | mcp_filesystem/mcp/controller.py:113-122 | A validated call answers as its tool's contract says, and any failure names the tool. |
| Controller.ExecuteTool | mcp_filesystem/mcp/controller.py:85-122 | Never raises. An unknown name is an error without `tool` and changes nothing. Arguments the model refuses give `Erro de validação: …` and change nothing. Otherwise the tool runs and its answer or exception is wrapped. |
| Controller.NotFound | mcp_filesystem/mcp/controller.py:96-97 | The answer to an unknown tool is a failure with no `tool` field, and its text names the tool. |
| Controller.ValidationText | mcp_filesystem/mcp/controller.py:119-120 | The text starts with the number of errors, then `validation error for` for one error and `validation errors for` otherwise. |
| Controller.Perform | mcp_filesystem/mcp/controller.py:104-113 | Running a validated call through the service leaves a well-formed file system. What each call returns is stated by the `Service` rows. |
| McpConfig.JoinedArgs | scripts/mcp_config.py:19 | The start-up arguments followed by one argument holding the directories joined by commas. |
| McpConfig.JoinedDirsRoundTrip | scripts/mcp_config.py:19 | The server recovers the directory list by splitting that argument on commas, provided no directory contains a comma. |
| McpConfig.CopilotConfig | scripts/mcp_config.py:8-23 | A single `servers.mcp-filesystem` entry running poetry over stdio with the joined arguments. |
| McpConfig.ServerEntry | scripts/mcp_config.py:26-54 | The server entry runs poetry with the given arguments in the project directory. |
| McpConfig.GeminiConfig | scripts/mcp_config.py:26-41 | A single `mcpServers.filesystem` server entry. |
| McpConfig.ClineConfig | scripts/mcp_config.py:44-54 | A single `mcpServers.filesystem` server entry, with every directory as its own argument. |
| McpConfig.BuildMcpConfig | scripts/mcp_config.py:86-94 | Copilot, Gemini and Cline get their blocks, and any other client is the `Tipo de client desconhecido` error. |
| McpConfig.SlotOf | scripts/mcp_config.py:60-64 | Exactly the three known clients have a block, and each reads and writes the same key. |
| McpConfig.EntryOf | scripts/mcp_config.py:70-81 | The entry copied: present exactly when the generated block is an object holding it. |
| McpConfig.UpdateFinalConfig | scripts/mcp_config.py:57-82 | An unknown client leaves the settings unchanged. Otherwise the client's key holds the copied entry, other keys and other entries are kept, and the block is created when missing. A missing entry or a non-object block is the error Python raises. |
| McpConfig.UpdateIdempotent | scripts/mcp_config.py:57-82 | Applying the same update twice is applying it once. |
| McpConfig.BuildThenUpdate | scripts/mcp_config.py:57-94 | A block built for a client is always accepted by the update for that client, and the settings end up holding the built entry. |
| SetupClients.CopilotConfig | scripts/setup-ai-clients.py:126-137 | The `filesystem` server entry under the Copilot setting key. |
| SetupClients.ClineConfig | scripts/setup-ai-clients.py:140-151 | The `filesystem` server entry under `cline.mcpServers`. |
| SetupClients.GeminiConfig | scripts/setup-ai-clients.py:154-166 | The `filesystem` server entry with an empty `env`, under the Gemini setting key. |
| SetupClients.BuildMcpConfig | scripts/setup-ai-clients.py:272-282 | Copilot and Gemini get their own blocks, and every other name gets the Cline block. |
| SetupClients.SlotOf | scripts/setup-ai-clients.py:288-294 | Exactly the three known clients have a row. Cline reads `cline.mcpServers` and writes `mcpServers`. |
| SetupClients.UpdateFinalConfig | scripts/setup-ai-clients.py:285-298 | An unknown client is the `KeyError`. Otherwise the `filesystem` entry is copied under the client's key, with everything else kept. |
| SetupClients.ClineEntryUnderMcpServers | scripts/setup-ai-clients.py:272-298 | Building for Cline and updating files the server entry under `mcpServers.filesystem` and keeps the other settings. |
| SetupClients.MergeConfig | scripts/setup-ai-clients.py:169-182 | Every new key is written. Where both sides hold an object the two are merged one level deep, new fields winning; otherwise the new value replaces the old. Keys only in the old settings are kept. |
| SetupClients.MergeIdempotent | scripts/setup-ai-clients.py:169-182 | Merging the same settings in twice is merging them once. |
| SetupClients.MergeEmpty | scripts/setup-ai-clients.py:169-182 | Merging in nothing changes nothing. |
| ConfigMain.Entries | scripts/main.py:19 | Gives the non-blank stripped parts of the answer, never more than there are parts. |
| ConfigMain.EntriesMembers | scripts/main.py:19 | An entry is kept exactly when it is the non-blank stripped form of some part. |
| ConfigMain.AppendNew | scripts/main.py:20-22 | Appends in order each value not yet present. The result has no duplicates, starts with what was there, and holds exactly the old and the new values. |
| ConfigMain.AppendNewDistinct | scripts/main.py:20-22 | Values that are already distinct are appended as they are. |
| ConfigMain.AppendNewSkipsKnown | scripts/main.py:20-22 | A repeated directory does not move: its first occurrence decides the position. |
| ConfigMain.CollectAllowedDirs | scripts/main.py:11-24 | The home directory comes first, with no duplicates. A directory is present exactly when it is home or an entry typed; a blank answer gives home alone. The same code is scripts/setup-ai-clients.py:243-256. |
| ConfigMain.CollectMembers | scripts/main.py:11-24 | A directory is allowed exactly when it is home or the non-blank stripped form of one comma-separated part. |
| ConfigMain.CollectDistinct | scripts/main.py:11-24 | Distinct typed directories follow home in the order typed. |
| ConfigMain.FilterLinesMembers | scripts/main.py:30-34 | A line survives the filter, unchanged, exactly when it is not blank and does not start with `//` once stripped. |
| ConfigMain.FilterLines | scripts/main.py:30-34 | Keeps at most as many lines as it is given. Which lines it keeps is `ConfigMain.FilterLinesMembers`. |
| ConfigMain.FilterLinesAppend | scripts/main.py:30-34 | The filter keeps line order: filtering two runs of lines is filtering each. |
| ConfigMain.TrailingCommentKept | scripts/main.py:30-34 | A comment after other text stays in the line, although the older script's cleaner would cut it at the right place. |
| JsonComments.CommentStart | scripts/setup-ai-clients.py:20-36 | Any position found is a `//` outside every string literal. |
| JsonComments.RemoveLineComment | scripts/setup-ai-clients.py:20-36 | Returns a prefix of the line: the line itself exactly when it has no comment, and otherwise the text before the comment with trailing whitespace removed. |
| JsonComments.RemoveLineCommentIdempotent | scripts/setup-ai-clients.py:20-36 | A cleaned line has no comment, so cleaning it again changes nothing. |
| JsonComments.SlashesInStringKept | scripts/setup-ai-clients.py:24-33 | Slashes inside a string literal are not a comment (`"http://x"` is kept). |
| JsonComments.EscapedQuoteKeepsString | scripts/setup-ai-clients.py:24-33 | An escaped quote does not end a string literal. |
| JsonComments.CommentAfterString | scripts/setup-ai-clients.py:20-36 | A comment after a string literal and blanks is removed, blanks included. |
| JsonComments.CleanLines | scripts/setup-ai-clients.py:41-47 | Keeps at most one cleaned line per input line. |
| JsonComments.CleanLinesClean | scripts/setup-ai-clients.py:41-47 | Every line kept is comment-free and not blank. |
| JsonComments.CleanLinesMembers | scripts/setup-ai-clients.py:41-47 | Every non-blank cleaned line is kept, and everything kept is the cleaned form of an input line. |
| JsonComments.CleanLinesAppend | scripts/setup-ai-clients.py:41-47 | The cleaning keeps line order: cleaning two runs of lines is cleaning each. |
| JsonComments.CleanedContent | scripts/setup-ai-clients.py:39-52 | The text handed to the JSON parser contains only newlines and characters of the original. |
| JsonComments.CleanedContentUnchanged | scripts/setup-ai-clients.py:39-52 | A settings file without comments or blank lines is parsed as it is. |
| JsonComments.CleanLinesAll | scripts/setup-ai-clients.py:41-47 | Lines that are all comment-free and non-blank pass through unchanged. |
| FileSearch.Hits | scripts/file_search.py:16-18 | The number of keywords occurring in the text, which is positive exactly when one occurs. |
| FileSearch.IndexJsonFiles | scripts/file_search.py:7-19 | Every path it gives passes the index test for its directory and name. The converse is `FileSearch.IndexJsonFilesMembers`. The same code is scripts/setup-ai-clients.py:55-69. |
| FileSearch.IndexDir | scripts/file_search.py:13-18 | From one visited directory, exactly its file names that pass the index test. The same code is scripts/setup-ai-clients.py:63-68. |
| FileSearch.IndexJsonFilesMembers | scripts/file_search.py:7-19 | A path is indexed exactly when the walk visited it and it passes the test. |
| FileSearch.IndexedIsJsonSuffix | scripts/file_search.py:10-18 | The test means: the directory mentions an editor marker, the name ends in `.json`, and the name mentions a keyword. |
| FileSearch.CandidateOf | scripts/file_search.py:35-40 | The score counts keyword hits in the lower-cased name and content, and is positive exactly when one hits. The quick flag holds exactly when the content holds a quick-check word. |
| FileSearch.ScoreCandidates | scripts/file_search.py:22-48 | Keeps at most one candidate per file. The same code is scripts/setup-ai-clients.py:72-100. |
| FileSearch.ScoreCandidatesMembers | scripts/file_search.py:22-48 | A candidate is kept exactly when a readable file scored it above zero. |
| FileSearch.TupleKey | scripts/file_search.py:52 | The key opens with the score and closes with the quick flag, 1 for `True`. That comparing keys is comparing the tuples is `FileSearch.TupleKeyOrder`. |
| FileSearch.CodesOrder | scripts/file_search.py:52 | Two strings' codes, each closed by 1, compare as Python compares the strings: the first differing character decides, a proper prefix comes first, and equal strings defer to what follows. |
| FileSearch.PartsCodeTail | scripts/file_search.py:52 | The codes of two lists of path parts, followed by anything, compare as Python compares the lists, and equal lists defer to what follows. |
| FileSearch.PartsCodeOrder | scripts/file_search.py:52 | The codes of two part lists are in order exactly when the lists are in Python's `<=` order. |
| FileSearch.TupleKeyOrder | scripts/file_search.py:52 | Keys are in order exactly when the tuples `(score, path, quick)` are in Python's `<=` order: a lower score, or the same score and a smaller path, or the same score and path and a quick flag no greater, since `False < True`. |
| FileSearch.SortDescending | scripts/file_search.py:52 | Keeps the number of candidates. That it is a permutation in descending tuple order is `FileSearch.SortDescendingPermutes` and `FileSearch.SortDescendingOrdered`. |
| FileSearch.SortDescendingPermutes | scripts/file_search.py:52 | Sorting keeps exactly the candidates given, as a permutation. |
| FileSearch.SortDescendingOrdered | scripts/file_search.py:52 | The sorted candidates are in descending key order. |
| FileSearch.QuickPaths | scripts/file_search.py:53 | Gives exactly the paths of quick candidates, and is empty exactly when none is quick. That it keeps their order is `FileSearch.QuickPathsAppend` with `FileSearch.QuickPathsOne`. |
| FileSearch.QuickPathsAppend | scripts/file_search.py:53 | The quick paths keep the candidates' order: those of two runs of candidates are those of each, one after the other. |
| FileSearch.QuickPathsOne | scripts/file_search.py:53 | One candidate gives its path exactly when it is quick. |
| FileSearch.SelectBestFiles | scripts/file_search.py:51-58 | Offers at most five files, and none when there is no candidate. The same code is scripts/setup-ai-clients.py:103-110. |
| FileSearch.SelectPrefersQuick | scripts/file_search.py:52-55 | When some candidate is quick, only quick candidates are offered, and at least one is. The offer is the first `min(5, k)` of the `k` quick paths of the candidates sorted in descending order. |
| FileSearch.SelectTopFive | scripts/file_search.py:56-57 | When none is quick, the offer is the paths of the five greatest candidates, in descending order. |
| Sorting.SortByKey | mcp_filesystem/storage/filesystem_storage.py:103 | The result is sorted by key and has the input's length. |
| Sorting.SortedItems | mcp_filesystem/storage/filesystem_storage.py:103 | Sorting permutes the items: the multisets agree. |
| Sorting.SortByKeyDescendingSorted | scripts/file_search.py:52 | `sorted(..., reverse=True)` puts the keys in descending order. |
| Sorting.SortByKeyDescendingItems | scripts/file_search.py:52 | The descending sort permutes the items. |

## Left out

- Input and output are parameters or left out. This covers reading and writing real files, `os.walk`, `os.stat`, `json.load`/`json.dump` of settings files, the interactive prompts, the progress bar, `sys.exit` and console output. A walk is a list of directories and their file names; a read is the content, or nothing when it raised.
- The server start-up, the command line and the discovery of configuration paths are not part of this model. The abstract storage interface and the package `__init__` files hold no logic.
- Parsing the cleaned settings text is left out: both `json.loads` and its retry after a regular expression drops trailing commas. The model stops at the cleaned text.
- `read_media_file` is not modelled. Its argument model is declared, but the service has no such operation, so it cannot be called.
- The dry-run preview of `edit_file` (the `difflib` unified diff) is a parameter passed in as text. `Storage.EditFile` promises only that the answer is `Preview of changes:` followed by it.
- `FileInfo` sizes, times and permission strings come from `os.stat`. The model keeps the path, the name and the directory flag only.
- Symbolic links, permissions, concurrent changes between the check and the use of a path, and Windows paths are not modelled. Paths are POSIX: `/` is the only separator.
- Glob matching covers `*` and `?`. `fnmatch`'s character classes `[...]` are not modelled.
- `PyStr.Lower` lower-cases ASCII letters only, not the whole Unicode case table.
- The reading/writing round trip is the identity only for text without carriage returns, because text mode translates `\r\n` and `\r` to `\n` on reading. The model states this instead of claiming an identity.
- Pydantic's lax coercion (a string `"5"` accepted as an integer, for example) is not modelled. A field must have exactly its declared JSON type.
- Controller.ValidationText: gives one error per field, with the field name and a generic description. Pydantic reports one error per bad list item, with a dotted location (`paths.0`, `edits.0.old_text`), the `[type=…]` tag and a documentation URL line. These are not modelled.
- Controller.SchemaOf: the schema keeps the title, the object type, each field's JSON type and default, and the `required` list. Pydantic's per-field `title` and `description`, the model's description, and the `$defs`/`$ref` entry for `EditOperation` are left out. The items of `edits` appear as a bare `{"type": "object"}`.
- PyStr.Repr: models the quote choice, the backslash escapes of the quote and of `\`, the `\t`/`\n`/`\r` escapes and `\xNN` for the other ASCII control characters. Non-ASCII characters are copied unchanged, but Python escapes the ones it considers non-printable, using its Unicode tables, which are not modelled.
- Exceptions other than the modelled `OSError`s, `NotADirectoryError` and the refusals, such as decoding errors and out-of-memory, are not modelled. `str()` of each modelled error is given explicitly.
- With `/` as the only allowed directory, ordinary absolute paths such as `/home/x` are refused. The code tests for the prefix `//`, so only `/` itself and paths whose normal form keeps exactly two leading slashes (`//x`) pass. The model follows the code and states this in `PathValidation.SlashRootAdmits`.
- The line filter in `scripts/main.py` keeps comments that follow other text (`ConfigMain.TrailingCommentKept`). That is how the code behaves, so the model keeps it.
- FileSearch.SelectBestFiles: its own contract states only the bound of five and the empty case. The choice between quick and top candidates, and the order of the offer, are stated by `FileSearch.SelectPrefersQuick` and `FileSearch.SelectTopFive`. The order of the quick paths comes from `FileSearch.QuickPathsAppend`.
- Sorting.SortByKey: the stability of Python's `sorted` is not stated. A listing is therefore proved sorted and a permutation, but the relative order of two entries with equal keys is left open. Equal keys happen, for example, with names that differ only in letter case.
