# Moltis MCP page, session store and session service, in Dafny

This project models three parts of the Moltis gateway and proves properties
of them.

- **The MCP tools page** (`page-mcp.js`). It keeps the module state: the
  server snapshot, the loading flag, the toast list and toast counter, and
  the nav badge. It holds the handlers that change that state (refresh, add,
  the per-server row actions, the featured cards and the install box), and
  two pure helpers: `parseEnvLines` and `deriveNameFromCommand`.
  - Browser effects are explicit. Every request the page sends is appended
    to `Page.calls`.
  - What an awaited `fetch` or `sendRpc` yields is a parameter of the handler
    that awaits it.
  - The toast timer is a separate step, `Page.ExpireToast`.
- **The session store** (`store.rs`). It is an append-only JSONL log: one
  file per session key, one JSON message per line.
  - The file system is a map from path to the file's lines.
  - A line is text, or a line that is not valid UTF-8.
  - A set of "failing" paths stands for open, create and remove errors.
  - serde_json is a `Codec`, a serializer and a partial parser. The
    round-trip lemmas assume the codec is `Sound`: a serialized value is one
    line with no surrounding whitespace, and it parses back to itself.
- **The live session service** (`session.rs`). These are the RPC handlers
  `preview`, `resolve`, `patch`, `reset`, `delete` and `compact`, over the
  store and the session metadata index.
  - The index is abstract: `get`, `upsert`, `touch`, `remove` and `save`.
  - What `upsert` and `touch` write is a parameter (`MetaRules`).
  - Every mutating call is logged, so the order of the calls can be stated.
  - Whether `save` fails is a parameter.

Files:

- `wrappers.dfy`: Option and Result.
- `text.dfy`: trimming, splitting, whitespace tokens and lower-casing.
- `json.dfy`: JSON values and the `get` / `as_str` / `as_u64` accessors.
- `env_lines.dfy`: `parseEnvLines`.
- `command_name.dfy`: `deriveNameFromCommand`.
- `mcp_page.dfy`: the page's state and handlers.
- `session_store.dfy`: the store.
- `session_service.dfy`: the service.

Points where the model follows the code rather than a natural reading of it:

- An `addServer` failure whose `res.error` is an object without a `message`
  is interpolated as `[object Object]`. The `||` chain stops at the truthy
  object, so it is not replaced by "unknown error".
- `path_for` uses `Path::join`. A key that starts with `/` therefore names an
  absolute file outside the base directory (`AbsoluteKeyLeavesBaseDir`).
- `count` counts non-blank lines whether or not they parse. It drops lines
  that are not UTF-8, and it truncates to `u32`.
- `parseEnvLines` fills a plain object, so the key `__proto__` is never
  stored: the assignment goes to the prototype setter, which ignores a
  string. The model's map update `EnvLines.Assign` skips that key.
- `read` and `read_last_n` repeat the same loop over the lines. The model
  writes that loop once, as `Sessions.ReadLines`, and both methods call it.
- In `deriveNameFromCommand`, the backward loop is `CommandName.ScanTokens`.
  What the loop body computes for one token is the function
  `CommandName.Proposal`, and the loop receives it as a parameter. The body's
  test `if (base)` is the same as testing the sanitised text, because
  sanitising keeps the length.

## Model

| member | source | states |
|---|---|---|
| EnvLines.EnvEntry | crates/gateway/src/assets/js/page-mcp.js:61-66 | a line contributes an entry only with a non-empty key that has no `=` in it |
| EnvLines.ParseEnvLines | crates/gateway/src/assets/js/page-mcp.js:57-69 | the loop over the lines builds exactly the environment `ParseEnvText` defines |
| EnvLines.Assign | crates/gateway/src/assets/js/page-mcp.js:65 | `env[key] = value` stores the pair, except for `__proto__`, which leaves the map unchanged |
| EnvLines.ParseEnvSnoc | crates/gateway/src/assets/js/page-mcp.js:60-66 | one more line updates the map with that line's entry, if it has one |
| EnvLines.KeysNonEmpty | crates/gateway/src/assets/js/page-mcp.js:63-65 | every key of the result is non-empty, free of `=` (the split is on an `=` after position 0) and not `__proto__` |
| EnvLines.KeyPresentIffDefined | crates/gateway/src/assets/js/page-mcp.js:58-66 | a key is in the result if and only if some line defines it and it is not `__proto__` |
| EnvLines.LastDefinitionWins | crates/gateway/src/assets/js/page-mcp.js:58-65 | a key's value comes from the last line that defines it; a `__proto__` key is absent whatever the lines say |
| EnvLines.InertLineContributesNothing | crates/gateway/src/assets/js/page-mcp.js:62-64 | a blank, comment, `=`-less or `=`-first line can be removed from anywhere without changing the result |
| EnvLines.SkippedLines | crates/gateway/src/assets/js/page-mcp.js:61-64 | a line is skipped if and only if, once trimmed, it is empty, starts with `#`, has no `=`, or starts with `=` |
| EnvLines.EntryOfAssignment | crates/gateway/src/assets/js/page-mcp.js:63-65 | `K=V` reads back as (K, V); the split is on the first `=`, so V may contain `=` |
| EnvLines.PaddedAssignment | crates/gateway/src/assets/js/page-mcp.js:61-65 | whitespace around the line, before and after the `=`, is trimmed away: `a K b = c V d` reads back as (K, V) |
| EnvLines.PaddedTrim | crates/gateway/src/assets/js/page-mcp.js:61 | the trimmed padded line keeps the key's trailing and the value's leading whitespace around the `=` |
| EnvLines.EntryOfSplit | crates/gateway/src/assets/js/page-mcp.js:61-65 | a line trimming to `L=R`, with no `=` in L, gives the trimmed L and R |
| EnvLines.CollectKeys | crates/gateway/src/assets/js/page-mcp.js:60-66 | the keys of the collected map are exactly the keys of the entries, but `__proto__` |
| EnvLines.CollectLastWins | crates/gateway/src/assets/js/page-mcp.js:65 | the last entry for a key other than `__proto__` determines its value |
| EnvLines.CollectSkipsNone | crates/gateway/src/assets/js/page-mcp.js:62 | a line with no entry leaves the collected map unchanged |
| EnvLines.PlaceholderBlockParses | crates/gateway/src/assets/js/page-mcp.js:164 | the pre-seeded `KEY=` block parses to every declared key but `__proto__` with an empty value |
| EnvLines.ParsePlaceholderLines | crates/gateway/src/assets/js/page-mcp.js:164 | the placeholder lines parse to every key but `__proto__` with an empty value |
| EnvLines.EmptyText | crates/gateway/src/assets/js/page-mcp.js:59 | an empty text gives the empty map |
| CommandName.CommandTokens | crates/gateway/src/assets/js/page-mcp.js:222 | the tokens are the whitespace-separated words: non-empty and without whitespace |
| CommandName.FirstUrl | crates/gateway/src/assets/js/page-mcp.js:225 | the index of the first `http(s)://` token, or -1 when no token is one |
| CommandName.UrlHostname | crates/gateway/src/assets/js/page-mcp.js:228 | a hostname the URL parser accepts is non-empty and lower-case |
| CommandName.KeptLabels | crates/gateway/src/assets/js/page-mcp.js:230 | every kept label is a host label other than "mcp" and "www"; none are kept exactly when all are ignorable |
| CommandName.KeptLabel | crates/gateway/src/assets/js/page-mcp.js:230 | one label is kept exactly when it is neither "mcp" nor "www" |
| CommandName.KeptLabelsAppend | crates/gateway/src/assets/js/page-mcp.js:230 | the filter distributes over concatenation, so every non-ignorable label is kept, in order |
| CommandName.FirstKeptLabel | crates/gateway/src/assets/js/page-mcp.js:230-231 | the first kept label is the first label that is neither "mcp" nor "www" |
| CommandName.LastSegment | crates/gateway/src/assets/js/page-mcp.js:241 | the segment after the last `/` has no `/`; a token without `/` is its own segment |
| CommandName.LastSegmentIsLastPiece | crates/gateway/src/assets/js/page-mcp.js:241 | that segment is the last piece `token.split("/")` returns |
| CommandName.Sanitize | crates/gateway/src/assets/js/page-mcp.js:247 | the result has the input's length and only characters in [a-z0-9-] |
| CommandName.SanitizeChars | crates/gateway/src/assets/js/page-mcp.js:247 | each character is lower-cased and kept when it is in [a-z0-9-], else it becomes `-` |
| CommandName.SanitizeName | crates/gateway/src/assets/js/page-mcp.js:247 | a name already in [a-z0-9-] is its own sanitisation |
| CommandName.SanitizeIdempotent | crates/gateway/src/assets/js/page-mcp.js:247 | sanitising twice is sanitising once |
| CommandName.Proposal | crates/gateway/src/assets/js/page-mcp.js:239-247 | what one token offers is as long as its candidate and only [a-z0-9-], so it is empty exactly when the token is skipped |
| CommandName.ScanRightmost | crates/gateway/src/assets/js/page-mcp.js:237-248 | for any per-token proposal, the walk returns the proposal of the rightmost token offering a non-empty one |
| CommandName.ScanNone | crates/gateway/src/assets/js/page-mcp.js:249 | when no token offers anything, the walk returns the first token, or "" for no tokens |
| CommandName.RightmostCandidate | crates/gateway/src/assets/js/page-mcp.js:237-248 | the backward scan returns the sanitised candidate of the rightmost token that has one |
| CommandName.NoCandidate | crates/gateway/src/assets/js/page-mcp.js:249 | with no candidate the scan returns the first token, or "" when there is none |
| CommandName.DeriveNameFromCommand | crates/gateway/src/assets/js/page-mcp.js:221-250 | tokenise, try the URL branch, else scan the tokens; the result is the defined name |
| CommandName.ScanTokens | crates/gateway/src/assets/js/page-mcp.js:237-249 | the loop walking backwards returns the rightmost non-empty proposal, else the first token or "" |
| CommandName.UrlBranch | crates/gateway/src/assets/js/page-mcp.js:225-231 | the first URL token whose host keeps a label names the server after its first kept label, in lower case |
| CommandName.TokenBranch | crates/gateway/src/assets/js/page-mcp.js:236-248 | without a URL name, the rightmost candidate decides, and the name is non-empty and only [a-z0-9-] |
| CommandName.Fallback | crates/gateway/src/assets/js/page-mcp.js:249 | with neither a URL name nor a candidate, the first token, or "" for a blank line |
| CommandName.BlankLine | crates/gateway/src/assets/js/page-mcp.js:249 | a blank command line is named "" |
| CommandName.FlagsSkipped | crates/gateway/src/assets/js/page-mcp.js:239 | a token starting with `-` never supplies the name |
| CommandName.PrefixesInSequence | crates/gateway/src/assets/js/page-mcp.js:243-246 | `mcp-server-`, `server-` and `mcp-` come off in that order, each at most once |
| CommandName.ServerPrefixed | crates/gateway/src/assets/js/page-mcp.js:242-246 | `server-<w>` proposes `<w>` |
| CommandName.ScopedPackage | crates/gateway/src/assets/js/page-mcp.js:240-246 | `@scope/server-<w>` is one token that proposes `<w>` |
| CommandName.ScopedServerPackage | crates/gateway/src/assets/js/page-mcp.js:236-248 | `npx -y @scope/server-<w>` is named `<w>` |
| CommandName.MemoryExample | crates/gateway/src/assets/js/page-mcp.js:220 | `npx -y @modelcontextprotocol/server-memory` is named "memory" |
| CommandName.RemoteServer | crates/gateway/src/assets/js/page-mcp.js:223-231 | `npx -y mcp-remote https://mcp.<w>.<tld>/mcp` is named `<w>` |
| CommandName.LinearExample | crates/gateway/src/assets/js/page-mcp.js:224 | `npx -y mcp-remote https://mcp.linear.app/mcp` is named "linear" |
| CommandName.HostnameOfHttps | crates/gateway/src/assets/js/page-mcp.js:228 | a host made of name characters and dots is its own hostname |
| CommandName.ServerBeforeFlag | crates/gateway/src/assets/js/page-mcp.js:236-239 | in `npx -y server-<w> --<flag>` the trailing flag is skipped and `<w>` names the server |
| CommandName.FlagAfterNameExample | crates/gateway/src/assets/js/page-mcp.js:236-239 | `npx -y server-foo --flag` is named "foo" |
| McpPage.SnapshotReplacedOnlyOnSuccess | crates/gateway/src/assets/js/page-mcp.js:28-39 | the snapshot changes only on an ok HTTP answer or a successful RPC fallback; a falsy body or payload gives []; no RPC after an HTTP success |
| McpPage.NotOkKeepsSnapshot | crates/gateway/src/assets/js/page-mcp.js:31-34 | a non-ok HTTP answer keeps the snapshot and sends no RPC |
| McpPage.RunningCount | crates/gateway/src/assets/js/page-mcp.js:41 | the badge never exceeds the number of servers |
| McpPage.RunningCountAppend | crates/gateway/src/assets/js/page-mcp.js:41 | the running count of two lists adds up |
| McpPage.RunningCountExtremes | crates/gateway/src/assets/js/page-mcp.js:41 | the badge equals the list length if and only if all servers are running, and is 0 if and only if none is |
| McpPage.RemoveToast | crates/gateway/src/assets/js/page-mcp.js:24 | a toast is kept if and only if it was there and has a different id |
| McpPage.RemoveToastKeepsOrder | crates/gateway/src/assets/js/page-mcp.js:24 | removal keeps the toasts' increasing id order |
| McpPage.RemoveAbsentToast | crates/gateway/src/assets/js/page-mcp.js:24 | removing an id no toast carries changes nothing |
| McpPage.RemoveOneToast | crates/gateway/src/assets/js/page-mcp.js:23-25 | the timer removes exactly its own toast and keeps the others in order |
| McpPage.AddToastNames | crates/gateway/src/assets/js/page-mcp.js:46-51 | success names the payload's name, else the requested one; a reply that is not ok gives an error toast |
| McpPage.FailureReasons | crates/gateway/src/assets/js/page-mcp.js:50-51 | the failure reason is the error's message, else the error string, else "unknown error" |
| McpPage.ErrorTextNonEmpty | crates/gateway/src/assets/js/page-mcp.js:50 | a failure toast always gives a reason |
| McpPage.AddedTextInjective | crates/gateway/src/assets/js/page-mcp.js:48 | the success message determines the name it reports |
| McpPage.ButtonLabels | crates/gateway/src/assets/js/page-mcp.js:152-157 | each of "Adding…", "Confirm", "Configure" and "Add" shows in exactly one situation |
| McpPage.Page.constructor | crates/gateway/src/assets/js/page-mcp.js:14-17 | the page starts with no servers, not loading, no toasts and counter 0 |
| McpPage.Page.ShowToast | crates/gateway/src/assets/js/page-mcp.js:20-22 | the counter goes up by one, and the new toast carries it, goes last and has an id above every earlier one |
| McpPage.Page.ExpireToast | crates/gateway/src/assets/js/page-mcp.js:23-25 | the timer removes the toasts with its id and changes nothing else |
| McpPage.Page.Refresh | crates/gateway/src/assets/js/page-mcp.js:28-42 | the snapshot follows `NextSnapshot`, the requests are `RefreshCalls`, loading ends and the badge counts the running servers |
| McpPage.Page.AddServer | crates/gateway/src/assets/js/page-mcp.js:44-54 | the add RPC, exactly one toast for its reply, then a refresh |
| McpPage.ServerCard.ToggleTools | crates/gateway/src/assets/js/page-mcp.js:323-329 | the row flips; the tools are requested only when opening with nothing cached, and cached only when the RPC succeeds |
| McpPage.ServerCard.ToggleEnabled | crates/gateway/src/assets/js/page-mcp.js:331-337 | an enabled server is disabled and a disabled one is enabled, then a refresh; no toast, the page not loading, the badge counting the new snapshot, the toggling flag cleared |
| McpPage.ServerCard.Restart | crates/gateway/src/assets/js/page-mcp.js:339-343 | the restart RPC, a success toast with the next id, then a refresh; the page not loading and the badge counting the new snapshot |
| McpPage.ServerCard.Remove | crates/gateway/src/assets/js/page-mcp.js:345-356 | without confirmation nothing is sent and nothing changes; with it, the remove RPC, a toast with the next id, a refresh, the page not loading and the badge counting the new snapshot |
| McpPage.ServerCard.Rerender | crates/gateway/src/assets/js/page-mcp.js:318-321 | a re-render of the keyed row takes the refreshed server of the same name and keeps the row's expanded, tools and toggling state |
| McpPage.ToggleAfterRefreshScenario | crates/gateway/src/assets/js/page-mcp.js:331-337 | toggling, a refresh reporting the server disabled, the re-render, and toggling again sends disable then enable |
| McpPage.ToolCacheScenario | crates/gateway/src/assets/js/page-mcp.js:323-329 | a failed fetch is retried on the next opening, and a cached list is not fetched again |
| McpPage.DefaultsRoundTrip | crates/gateway/src/assets/js/page-mcp.js:163-176 | untouched fields send the catalogue's own arguments and every declared key (but `__proto__`) with an empty value |
| McpPage.CatalogueWellFormed | crates/gateway/src/assets/js/page-mcp.js:72-97 | every featured entry has plain-word arguments and plain key names, so its defaults round-trip |
| McpPage.FeaturedCard.constructor | crates/gateway/src/assets/js/page-mcp.js:160-164 | a card starts idle, with the joined arguments and one `KEY=` line per declared key |
| McpPage.FeaturedCard.OnAdd | crates/gateway/src/assets/js/page-mcp.js:166-180 | a card needing configuration first only opens its form; otherwise the add request built from the field texts, the reply's toast with the next id, a refresh, the page not loading, the badge counting the new snapshot, and the card idle again |
| McpPage.FeaturedCard.EditArgs | crates/gateway/src/assets/js/page-mcp.js:129-131 | the arguments field takes the typed text and nothing else changes |
| McpPage.FeaturedCard.EditEnv | crates/gateway/src/assets/js/page-mcp.js:140-142 | the environment field takes the typed text and nothing else changes |
| McpPage.FeaturedCard.CancelConfig | crates/gateway/src/assets/js/page-mcp.js:199-201 | Cancel closes the form and keeps the fields |
| McpPage.InstallRequestShape | crates/gateway/src/assets/js/page-mcp.js:258-267 | the command and arguments are the line's tokens; the name is the derived one, else the command, and is never empty; the env is the parsed block |
| McpPage.RequestShape | crates/gateway/src/assets/js/page-mcp.js:263-267 | for any shown name: the command and arguments are the line's tokens, the name is the shown one else the command and never empty, the env is the parsed block |
| McpPage.BuildRequest | crates/gateway/src/assets/js/page-mcp.js:263-267 | onAdd's computations: the command followed by the arguments is the line's token list, the name is the shown one else the command and never empty, the env is the parsed block |
| McpPage.InstallBox.constructor | crates/gateway/src/assets/js/page-mcp.js:253-256 | both fields start empty, not adding, env hidden, no name shown |
| McpPage.InstallBox.EditCommand | crates/gateway/src/assets/js/page-mcp.js:286-288 | the command field takes the typed text and the shown name is re-derived from it |
| McpPage.InstallBox.EditEnv | crates/gateway/src/assets/js/page-mcp.js:299-301 | the environment field takes the typed text and nothing else changes |
| McpPage.InstallBox.ToggleEnv | crates/gateway/src/assets/js/page-mcp.js:308-310 | the env area is shown or hidden and nothing else changes |
| McpPage.InstallBox.OnAdd | crates/gateway/src/assets/js/page-mcp.js:258-274 | a blank line does nothing; otherwise the request built from the shown name (the derived one when the box is rendered), the reply's toast for that name with the next id, a refresh, the page not loading, the badge counting the new snapshot, and both fields cleared |
| Sessions.KeyToFilename | crates/sessions/src/store.rs:21-23 | every `:` becomes `_`, every other character and the length are kept |
| Sessions.SharedFilename | crates/sessions/src/store.rs:21-23 | two keys get one file name if and only if they differ only by `:` versus `_` |
| Sessions.JoinPath | crates/sessions/src/store.rs:25-27 | the joined path ends with the name; an absolute name replaces the base |
| Sessions.SharedFile | crates/sessions/src/store.rs:21-27 | keys that differ only by `:` versus `_` share one file |
| Sessions.DistinctFiles | crates/sessions/src/store.rs:25-27 | relative keys with different file names get different path strings |
| Sessions.AbsoluteKeyLeavesBaseDir | crates/sessions/src/store.rs:25-27 | a key starting with `/` names `<key>.jsonl` itself, outside the base directory |
| Sessions.LineMessages | crates/sessions/src/store.rs:63-74 | a line yields at most one message, and only a non-blank text line whose trimmed text parses to it |
| Sessions.LastN | crates/sessions/src/store.rs:102-103 | the result has min(n, len) elements and is a suffix |
| Sessions.MessagesAppend | crates/sessions/src/store.rs:63-76 | reading two stretches of lines gives the first's messages then the second's |
| Sessions.MessagesSnoc | crates/sessions/src/store.rs:63-75 | one more line adds its message, if any, at the end |
| Sessions.SkippedLine | crates/sessions/src/store.rs:65-73 | a blank, non-UTF-8 or unparseable line can be dropped from anywhere; the others keep their order |
| Sessions.SerializedLine | crates/sessions/src/store.rs:30-74 | a line written by `append` reads back as its message |
| Sessions.AppendReadsBack | crates/sessions/src/store.rs:30-79 | appending a line adds exactly its message at the end of what is read |
| Sessions.WrittenReadsBack | crates/sessions/src/store.rs:156-166 | a file written by appends alone reads back as the appended messages in order |
| Sessions.CountCoversMessages | crates/sessions/src/store.rs:133-137 | the non-blank line count is at least the number of messages read |
| Sessions.WrittenCount | crates/sessions/src/store.rs:201-208 | a file written by appends alone counts one line per message |
| Sessions.LastNAll | crates/sessions/src/store.rs:102-103 | with n at least the length, all messages are returned |
| Sessions.LastNOfWritten | crates/sessions/src/store.rs:176-187 | of an appended file, `read_last_n` gives the last min(n, len) appended messages in order |
| Sessions.SessionStore.Append | crates/sessions/src/store.rs:30-50 | the serialized message becomes one more line at the end of the key's file, which is created if missing; a failing path is an error and nothing changes |
| Sessions.ReadLines | crates/sessions/src/store.rs:63-75 | all lines valid text: Ok with every parsed message in file order, blank and malformed lines skipped; any non-UTF-8 line: Err |
| Sessions.SessionStore.Read | crates/sessions/src/store.rs:53-79 | a missing file reads as []; an open failure or a non-UTF-8 line is an error; else the parsed messages in order |
| Sessions.SessionStore.ReadLastN | crates/sessions/src/store.rs:82-106 | the same errors as `read`; otherwise the last min(n, len) messages `read` would give |
| Sessions.SessionStore.Clear | crates/sessions/src/store.rs:109-121 | the key's file is gone; a missing file is not an error; a failing removal changes nothing |
| Sessions.SessionStore.Count | crates/sessions/src/store.rs:124-141 | 0 for a missing file; else the non-blank text lines, parsed or not, truncated to u32 |
| Sessions.ReadAfterClear | crates/sessions/src/store.rs:190-198 | after a clear, reading gives [] and counting gives 0 |
| Sessions.ReadAfterAppend | crates/sessions/src/store.rs:30-79 | after an append, reading gives the earlier messages and then the new one |
| Sessions.CountAtLeastRead | crates/sessions/src/store.rs:124-141 | the count of a readable file is at least the number of messages read |
| Sessions.AppendReadClearScenario | crates/sessions/src/store.rs:155-208 | two appends read back in order, count 2, and read as [] after clear |
| GatewaySession.TouchEntries | crates/gateway/src/session.rs:120 | touch keeps the set of keys and every other key's entry |
| GatewaySession.Metadata.Upsert | crates/gateway/src/session.rs:100 | the key is present afterwards with the upserted entry, and the call is logged |
| GatewaySession.Metadata.Remove | crates/gateway/src/session.rs:139 | the key is gone, and the call is logged |
| GatewaySession.Metadata.Save | crates/gateway/src/session.rs:101 | the save's outcome is reported, and the call is logged with the entries unchanged |
| GatewaySession.KeyParam | crates/gateway/src/session.rs:45-48 | the key is present if and only if `params.key` is a JSON string, and it is that string |
| GatewaySession.LabelParam | crates/gateway/src/session.rs:94 | the label is present if and only if `params.label` is a JSON string |
| GatewaySession.LimitParam | crates/gateway/src/session.rs:49-52 | the limit is `params.limit` when it is an unsigned 64-bit number, else 5 |
| GatewaySession.LiveSessionService.Preview | crates/gateway/src/session.rs:44-60 | a missing key gives "missing 'key' parameter"; a store error gives its text; else `{"messages": ...}` with the last `limit` messages |
| GatewaySession.LiveSessionService.Resolve | crates/gateway/src/session.rs:62-87 | a missing key is reported first; a key without metadata is "session '<key>' not found" whatever the store holds; else the entry and the full history |
| GatewaySession.LiveSessionService.Patch | crates/gateway/src/session.rs:89-109 | a missing or unknown key changes nothing; else upsert then save, then the new id, key and label, or the save error |
| GatewaySession.LiveSessionService.Reset | crates/gateway/src/session.rs:111-124 | a missing key changes nothing; the file is removed first and a failed removal leaves the index alone; then `touch(key, 0)`, save, and `{}` |
| GatewaySession.LiveSessionService.Delete | crates/gateway/src/session.rs:126-143 | a missing key and "main" are refused before anything changes; else the file is removed, then the entry, save, and `{}` |
| GatewaySession.LiveSessionService.Compact | crates/gateway/src/session.rs:145-148 | answers `{}` and changes nothing |
| GatewaySession.ResetThenPreview | crates/gateway/src/session.rs:44-124 | after a successful reset, the session previews as no messages |
| GatewaySession.DeleteThenResolve | crates/gateway/src/session.rs:62-143 | a deleted session is no longer found; "main" survives a delete and resolves as before |

## Left out

- Rendering: the HTML templates, CSS classes, the status badge colours and
  the "Loading…" and "No tools" texts are left out. The install box's shown
  name is kept, as the field `detectedName`.
- Asynchrony: each handler runs to completion with the awaited outcomes as
  parameters. Interleavings of concurrent handlers, and the 4-second timer
  as a clock, are not modelled. The timer's firing is the step
  `Page.ExpireToast`.
- `fetch`, `sendRpc`, `updateNavCount`, `requestConfirm`, the router and
  `useEffect` are left out. Each is either a request in `Page.calls`, the
  field `Page.badge`, or a parameter.
- CommandName.UrlHostname: `new URL(...)` is reduced to an ASCII rule. The
  rule takes the authority after the last `@` and before the first `:`,
  lower-cased, and rejects an empty host, forbidden characters or a
  non-numeric port. IDNA, percent-decoding, IPv6 literals and
  dot-normalisation of the WHATWG parser are not modelled. The rule also
  accepts hosts the WHATWG parser rejects or rewrites, where the source
  then takes another branch: a port above 65535, C0 control characters or
  DEL in the host, and a last label that is a number (`https://mcp.1/`
  throws, and `https://123/` becomes `0.0.0.123`).
- Text.ToLower: lower-casing and whitespace are ASCII only. `trim()` and
  `\s` also cover Unicode spaces, which the model does not.
- Sessions.SessionStore.Append: directory creation, `fd_lock` locking and
  write failures are folded into the failing-path set. A failed lock or a
  partial write is not distinguished.
- Sessions.SessionStore.Append, Sessions.AppendReadsBack and
  Sessions.ReadAfterAppend: a file is a sequence of whole lines, so every
  file is taken to end in a newline. A file whose last line is unterminated
  (left by a partial write) is not modelled. Appending to such a file
  continues that line, the new message merges into it, and `read` then
  usually drops both; the model promises the message reads back.
- Sessions.DistinctFiles: paths are compared as strings. `Path::join` does
  not normalise, and the operating system resolves `.`, `..` and empty
  components when it opens or removes a file. Keys such as `./main`,
  `a/../b` or `a//b` name the same file as `main`, `b` or `a/b`, while the
  model treats them as different files.
- GatewaySession.LiveSessionService.Delete: the refusal of "main" compares
  the raw key, so `./main` passes it and the operating system would remove
  main's history file. Because paths are strings here, the model removes a
  separate `./main.jsonl` entry and keeps main's file.
- `tokio::spawn_blocking` and the metadata `RwLock` are left out; there is no
  concurrency in the model.
- serde_json is left out: JSON text is the abstract `Codec`. Numbers are
  integers only, so floating-point values are not modelled.
- Sessions.ErrorMessage: the texts of the I/O errors are stand-ins. The
  operating system's wording is not modelled.
- Sessions.CountAtLeastRead: holds only for files with fewer than 2^32
  non-blank lines, because `count as u32` truncates.
- `SessionMetadata` (`upsert`, `touch`, `remove`, `save`, `list`) is not part
  of this model. Its entries come from `MetaRules`, and a save failure is a
  fixed parameter.
- GatewaySession.TouchEntries: touching a key that has no entry is modelled
  as leaving the index unchanged. The index's own behaviour there is not
  part of this model.
- `LiveSessionService::list` only formats the metadata's own listing; it is
  not modelled.
- The `usize` conversion of the preview limit assumes a 64-bit target, so
  every `u64` limit is kept as is.
