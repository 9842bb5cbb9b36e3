# shelv-mcp core in Dafny

This project models the safety and bounding layer of the shelv-mcp server, the
Model Context Protocol server that gives an assistant access to Shelv shelves.
That layer sits between untrusted shelf content, the local filesystem and the
HTTP surface:

- **Path guards** (`ensureRelativePath`, `safeJoin`). They turn a key from a shelf
  into a path below a target directory.
- **UTF-8 budget truncation** (`truncateUtf8`) and **content-type inference**
  (`inferContentType`).
- **The `search_shelf` scan**, bounded by file, byte and match budgets.
- **The `hydrate_shelf` write loop**, which writes every entry of a shelf below a
  target directory. It refuses to overwrite unless asked, and stops at the first
  failure.
- **The HTTP gate.** It checks the path, the method, the Host and Origin headers and
  the Bearer credential, in that order, before handing a request to the MCP
  transport.
- **API-key resolution**, **error normalisation**, **configuration parsing** and
  **the PDF upload guard**.

The model has one module per source file:

| module | source file | form |
|---|---|---|
| `Common` | src/tools/common.ts | functions; `TruncateUtf8` is a method with the binary-search loop |
| `SearchShelf` | src/tools/search-shelf.ts | methods `ScanFiles` and `MatchLines` with their loops, proved against the function `SearchScan` |
| `HydrateShelf` | src/tools/hydrate-shelf.ts | class `FileSystem`; methods `WriteEntries` and `HandleHydrate`, proved against the function `Run` |
| `HttpTransport` | src/transports/http.ts | pure gates; classes `Response` and `Request`; method `HandleRequest` |
| `Server` | src/server.ts | functions |
| `Errors` | src/errors.ts | datatypes and functions |
| `Config` | src/config.ts | functions |
| `CreateShelf` | src/tools/create-shelf.ts | functions |

Some modules model the JavaScript and Node builtins the core relies on:

- `Js`: `String.prototype.trim`, `startsWith`, ASCII `toLowerCase`, `Number.parseInt` with radix 10, and decimal rendering.
- `Utf16`: JavaScript strings as UTF-16 code units, and `Buffer.byteLength`.
- `PosixPath` and `PlainPaths`: `normalize`, `resolve`, `extname` and `dirname` of Node's `path` module on a POSIX platform. There `path` is `path.posix` and `path.sep` is "/".
- `Wrappers`: `Option` and `Result`.

Paths, headers and messages are `string`. File contents, search queries and lines
are `seq<CodeUnit>`, because truncation and snippets count UTF-16 code units.

Inputs the source reads from outside become parameters:

- the shelf source, which `resolveShelfSource` fetches;
- the regular-expression compiler;
- the URL parser;
- the process working directory;
- the file facts that `fs.stat` and `fs.read` return.

## Model

| member | source | states |
|---|---|---|
| Common.SuccessResult | src/tools/common.ts:5-13 | the result carries the text and the structured content it was given |
| Common.ErrorResult | src/tools/common.ts:15-25 | the error result is the serialised `toMcpToolError(error, "Tool execution failed")`; its text is that error's message; a tool error keeps its code and message |
| Common.EnsureRelativePathAsWritten | src/tools/common.ts:27-72 | as written: refusals are INPUT_ERROR/400, not retryable; an accepted path is `normalize(trim(input))` and is never "", ".", "..", absolute, or below "../" |
| Common.EnsureRelativePath | src/tools/common.ts:48-56 | corrected guard: the same, and "./" is refused as well |
| Common.GuardsDifferOnlyOnRoot | src/tools/common.ts:27-72 | the two guards agree on every input except those the as-written guard accepts as "./" |
| Common.BadInputRejected | src/tools/common.ts:28-46 | an input that is blank after trimming, or that holds a backslash or NUL, is refused |
| Common.AbsoluteRejected | src/tools/common.ts:58-69 | an input that is absolute after trimming is refused |
| Common.GuardRefusesClimb | src/tools/common.ts:58-69 | a normal path starting with "../" is refused |
| Common.ClimbRejected | src/tools/common.ts:58-69 | "../" followed by any plain path is refused |
| Common.GuardAccepts | src/tools/common.ts:27-72 | a trimmed normal path that is not a root or parent reference comes back unchanged |
| Common.PlainJoinAccepted | src/tools/common.ts:27-72 | every path of plain segments comes back unchanged |
| Common.AcceptedIsPlainPath | src/tools/common.ts:48-71 | every path the corrected guard accepts consists of plain segments |
| Common.NormalizeRelativePlain | src/tools/common.ts:48-71 | a relative path whose normal form is no root or parent reference normalises to plain segments |
| Common.GuardAcceptsExample | src/__tests__/common.test.ts:7 | "docs/README.md" is accepted unchanged |
| Common.GuardRejectsTraversalExample | src/__tests__/common.test.ts:11 | "../secret.txt" is refused |
| Common.GuardRejectsAbsoluteExample | src/__tests__/common.test.ts:12 | "/etc/passwd" is refused |
| Common.SafeJoin | src/tools/common.ts:74-90 | the joined path is the resolved base or lies below base + "/", and equals `resolve(resolve(base), rel)`; a refusal is LOCAL_IO_ERROR "Unsafe output path: " + rel |
| Common.JoinPlainPathBelowBase | src/tools/common.ts:74-90 | joining a plain path to a base other than "/" always succeeds, and gives base + "/" + the normalised path |
| Common.RootBaseRefusesChildren | src/tools/common.ts:78-80 | with base "/", the only path `safeJoin` returns is "/" itself: every child is refused |
| Common.RootReferenceJoinsToBase | src/tools/common.ts:74-90 | "./" joins to the base directory itself |
| Common.JoinInsideExample | src/__tests__/common.test.ts:16-17 | ("/tmp/workspace", "docs/a.md") gives "/tmp/workspace/docs/a.md" |
| Common.JoinOutsideExample | src/__tests__/common.test.ts:18-20 | ("/tmp/workspace", "../../outside.md") is refused |
| Common.DotSlashSlipsThrough | src/tools/common.ts:48-56 | "./" passes the as-written guard and is refused by the corrected one |
| Common.CollapsedSlipsThrough | src/tools/common.ts:48-56 | "a/../" passes the as-written guard as "./" and is refused by the corrected one |
| Common.RootReferenceSlipsThrough | src/tools/common.ts:48-56 | any trimmed input that normalises to "./" passes the as-written guard as "./" |
| Common.Truncate | src/tools/common.ts:92-119 | truncated exactly when the UTF-8 length exceeds the budget; untruncated content is returned whole; the value is a prefix whose byte count is reported; it fits any budget ≥ 0; every longer prefix is over budget |
| Common.TruncateUtf8 | src/tools/common.ts:92-119 | the binary search returns exactly `Truncate(content, maxBytes)` |
| Common.FitLengthUnique | src/tools/common.ts:101-111 | the longest fitting prefix is unique, which is what the search invariant `fits(low)`, `¬fits(high+1)` pins down |
| Common.TruncateIdempotent | src/tools/common.ts:96-99 | truncating the truncated value again, with the same or a larger budget, changes nothing and reports no truncation |
| Common.TruncateExamples | src/tools/common.ts:101-118 | "abc😀" with 4 bytes gives "abc"; with 6 bytes it gives "abc" and a lone high surrogate |
| Common.InferContentType | src/tools/common.ts:121-129 | markdown exactly for extension ".md" and JSON exactly for ".json", both after lower-casing; plain text otherwise |
| Common.ExtnameOfFileName | src/tools/common.ts:122 | the extension of dir/stem.ext is ".ext" |
| Common.InferContentTypeByName | src/tools/common.ts:121-129 | the content type of a file name depends only on its lower-cased extension: "notes.MD" is markdown, "data.Json" is JSON, every other extension is plain text |
| Utf16.PrefixMonotone | src/tools/common.ts:105 | the UTF-8 length of a prefix never decreases as the prefix grows |
| Utf16.ByteLengthOfEncoded | src/tools/common.ts:96 | the length of a well-formed string's UTF-16 form is the UTF-8 length of its characters |
| SearchShelf.SplitLines | src/tools/search-shelf.ts:119 | `split(/\r?\n/)` yields one line per line feed, plus one; each line but the last is its piece between line feeds with exactly one trailing carriage return removed when the piece has one; the last line is the last piece unchanged |
| SearchShelf.DropCR | src/tools/search-shelf.ts:119 | a piece ending in a carriage return loses exactly that one; any other piece is unchanged |
| SearchShelf.SplitLFJoin | src/tools/search-shelf.ts:119 | splitting on line feeds and joining again gives back the content, in one piece more than it has line feeds |
| SearchShelf.SplitLinesPieces | src/tools/search-shelf.ts:119 | no line holds a line feed; each line but the last is its piece less the one carriage return that ended it, if any; the last line is its piece |
| SearchShelf.SplitLinesWithoutCR | src/tools/search-shelf.ts:119 | content without carriage returns joins back from its lines |
| SearchShelf.BuildMatcher | src/tools/search-shelf.ts:34-60 | fails with "Invalid regular expression" exactly when the regex does not compile; a regex matcher is the compiled test; substring mode matches lines containing the query, lower-casing both unless case-sensitive |
| SearchShelf.CaseInsensitiveMatch | src/tools/search-shelf.ts:55-59 | case-insensitive matching accepts every line that contains the query, and lower-casing the query first changes nothing |
| SearchShelf.Snippet | src/tools/search-shelf.ts:128 | the snippet is the line's first 300 code units, or the whole line when it is shorter |
| SearchShelf.EffectiveCap | src/tools/search-shelf.ts:88-91 | the cap is min(hint ?? ceiling, ceiling): never above either, and at least 1 when both are |
| SearchShelf.ScanFiles | src/tools/search-shelf.ts:100-138 | the scan loop returns exactly `SearchScan` |
| SearchShelf.MatchLines | src/tools/search-shelf.ts:119-135 | the line loop appends every matching line in order, or stops at the line that reaches the cap |
| SearchShelf.ScanBounds | src/tools/search-shelf.ts:104-137 | scanned files ≤ the file budget; scanned bytes ≤ the byte budget and equal to the UTF-8 size of the files scanned; matches ≤ cap; reaching the cap sets truncated |
| SearchShelf.ScanPrefix | src/tools/search-shelf.ts:104-129 | the scanned files are a prefix of the entries, and the matches a prefix of all their matching lines |
| SearchShelf.ScanOutcome | src/tools/search-shelf.ts:102-137 | not truncated means every file was scanned and every matching line reported; truncated below the cap means the next file breaks a budget; at the cap the scan stopped in the first file that filled it |
| SearchShelf.ScanMatchSource | src/tools/search-shelf.ts:119-129 | each match comes from a scanned file: it carries the file's path; its line is line `line_number - 1` of the content; the matcher accepts it; its snippet is the line's first 300 units |
| SearchShelf.ScanOrder | src/tools/search-shelf.ts:104-129 | matches are ordered by file, then by ascending line number |
| SearchShelf.HandleSearch | src/tools/search-shelf.ts:75-155 | the handler returns exactly `SearchResponse` |
| SearchShelf.InvalidRegexRejected | src/tools/search-shelf.ts:39-50 | an invalid regex fails with INPUT_ERROR/400 before any file is scanned |
| SearchShelf.SearchWithinBudgets | src/tools/search-shelf.ts:88-152 | a successful reply stays within the cap, the match hint, the file budget and the byte budget, and its summary counts its matches and files |
| HydrateShelf.FaultError | src/tools/hydrate-shelf.ts:79-80 | a rejected fs call throws an Error with a non-empty message, so errorResult keeps that message |
| HydrateShelf.MkdirFault | src/tools/hydrate-shelf.ts:55 | recursive mkdir fails exactly when the directory or one of its ancestors is a file |
| HydrateShelf.WriteFault | src/tools/hydrate-shelf.ts:80 | writeFile fails exactly when the path is a directory or one of its ancestors is a file |
| HydrateShelf.FileSystem.Access | src/tools/hydrate-shelf.ts:65-68 | access resolves exactly when a file or directory exists at the path |
| HydrateShelf.FileSystem.Mkdir | src/tools/hydrate-shelf.ts:79 | reports the mkdir fault, or adds the directory and its ancestors and changes nothing else |
| HydrateShelf.FileSystem.WriteFile | src/tools/hydrate-shelf.ts:80 | reports the write fault, or sets that one file and changes nothing else |
| HydrateShelf.Destination | src/tools/hydrate-shelf.ts:61-62 | an entry goes to `safeJoin(target, ensureRelativePath(key))`, with the guard as written; a refusal is the first refusal of the two |
| HydrateShelf.Locate | src/tools/hydrate-shelf.ts:61-62 | computes `Destination` |
| HydrateShelf.WriteLocated | src/tools/hydrate-shelf.ts:64-83 | one entry is refused, or written and counted, exactly as `WriteEntry` says; on failure the filesystem is what that turn leaves |
| HydrateShelf.WriteEntries | src/tools/hydrate-shelf.ts:57-84 | the loop answers the counters of `Run`, or the error of the entry that threw, and leaves the filesystem `Run` describes |
| HydrateShelf.TurnStep | src/tools/hydrate-shelf.ts:60-84 | a refused key aborts with its refusal; without overwrite an existing destination aborts with "Refusing to overwrite existing file: <normalized>"; any abort keeps every file; a written entry adds one file and its UTF-8 bytes, at a path where no directory stood, at or below the resolved target |
| HydrateShelf.TurnObeys | src/tools/hydrate-shelf.ts:60-84 | each turn counts, writes one file, keeps files on failure, and lands inside the target; without overwrite it writes only where nothing exists |
| HydrateShelf.RootKeyNeverWrites | src/tools/hydrate-shelf.ts:61-80 | the key "./" joins to the target directory: without overwrite it is refused as an existing file; with overwrite, writeFile fails with EISDIR; nothing is written |
| HydrateShelf.ParentIsFile | src/tools/hydrate-shelf.ts:79 | an entry whose parent is an existing file, such as "a/b.md" after "a", fails in mkdir with EEXIST and changes nothing |
| HydrateShelf.FirstFailure | src/tools/hydrate-shelf.ts:60-84 | a loop that stops does so at the first entry that throws, with every earlier entry written and the files they left in place |
| HydrateShelf.HydrateFirstFailure | src/tools/hydrate-shelf.ts:60-84 | a hydration that stops names the first failing entry and why: its key was refused, or its destination exists, or mkdir or writeFile rejected it; earlier writes stay (there is no rollback) |
| HydrateShelf.HydrateCounts | src/tools/hydrate-shelf.ts:57-83 | a finished hydration counts every entry and the UTF-8 size of all contents |
| HydrateShelf.HydrateKeepsExisting | src/tools/hydrate-shelf.ts:64-77 | without overwrite, no existing file is replaced or removed, whichever way the loop ends |
| HydrateShelf.HydratePlaces | src/tools/hydrate-shelf.ts:79-80 | without overwrite, a finished hydration leaves each entry's content at its destination, and no two entries share one |
| HydrateShelf.PlacedContents | src/tools/hydrate-shelf.ts:60-84 | writing the entries in order removes no file; a path no entry goes to keeps its file, or stays absent; a path entries go to holds the content of the last of them |
| HydrateShelf.HydrateWrites | src/tools/hydrate-shelf.ts:60-84 | with or without overwrite, a finished hydration leaves exactly the files of writing every entry to its destination in order; one that stops leaves those of the entries before the one that threw |
| HydrateShelf.HydrateLastWins | src/tools/hydrate-shelf.ts:79-80 | with or without overwrite, after a finished hydration each destination holds the content of the last entry that goes there |
| HydrateShelf.HydrateKeepsOthers | src/tools/hydrate-shelf.ts:60-84 | with or without overwrite, no file is removed, and a file no entry goes to keeps its content, whichever way the hydration ends |
| HydrateShelf.HydrateConfined | src/tools/hydrate-shelf.ts:61-62 | every file created or changed lies at or below the resolved target, and strictly below it once the target is a directory |
| HydrateShelf.ResolveResolved | src/tools/hydrate-shelf.ts:53 | a resolved path resolves to itself, so `safeJoin` uses the very directory the handler made |
| HydrateShelf.HandleHydrate | src/tools/hydrate-shelf.ts:43-98 | the handler returns `HydrateResponse` and leaves the filesystem it describes |
| HydrateShelf.HydrateReply | src/tools/hydrate-shelf.ts:52-97 | a failed source changes nothing; success reports every entry, all their bytes, the resolved target, and an archive version only for an archive; failure reports, through errorResult, what mkdir of the target or the failing entry threw |
| HydrateShelf.HydrateStaysInside | src/tools/hydrate-shelf.ts:53-80 | every file the handler creates or changes lies strictly below the resolved target directory |
| HydrateShelf.HydrateFiles | src/tools/hydrate-shelf.ts:52-97 | with or without overwrite, the handler removes no file and leaves every file no entry goes to as it was; on success the files are exactly those of writing each entry to its destination in order |
| HydrateShelf.HydrateKeepsFiles | src/tools/hydrate-shelf.ts:64-77 | without overwrite, every file that existed keeps its content |
| HttpTransport.StripPort | src/transports/http.ts:15-24 | the result has no upper-case letter; a bracketed value gives the lower-cased text between the brackets; otherwise it gives the lower-cased text before the first ':' |
| HttpTransport.StripPortLeadingColon | src/transports/http.ts:22-23 | a value that starts with ':' strips to "" |
| HttpTransport.BareLoopbackStripsToEmpty | src/transports/http.ts:22-23 | unbracketed "::1" strips to "" |
| HttpTransport.StripPortOfHostAndPort | src/transports/http.ts:22-23 | host:port strips to the host |
| HttpTransport.AllowedHosts | src/transports/http.ts:26-30 | the allowlist is exactly localhost, 127.0.0.1, ::1 and the stripped configured host |
| HttpTransport.LoopbackAlwaysAllowed | src/transports/http.ts:26-30 | localhost:port and 127.0.0.1:port are always allowed |
| HttpTransport.ValidateHostAndOrigin | src/transports/http.ts:71-98 | allowed exactly when a given Host and a given Origin strip to allowed hosts; a bad Host is refused first; given an acceptable Host, an unparsable Origin is "Invalid Origin header" and a parsed Origin outside the allowlist is "Origin is not allowed" |
| HttpTransport.ParseAuth | src/transports/http.ts:100-148 | a missing or blank header falls back to the configured key as "env-fallback", else "Missing Authorization header"; a given header succeeds exactly when it starts with "Bearer " and the trimmed rest starts with "sk_", giving that token as "request-bearer"; otherwise the matching refusal |
| HttpTransport.AuthTokens | src/transports/http.ts:100-148 | an accepted credential has no scopes; a Bearer token is trimmed and starts with "sk_"; the fallback is the configured key |
| HttpTransport.RespondJson | src/transports/http.ts:58-69 | an ended response is left alone; otherwise it ends with that status, a JSON content type and the reason |
| HttpTransport.GateOrder | src/transports/http.ts:166-195 | 500 exactly for an unparsable URL; then 404 off /mcp; then 405 for other methods (a missing method counts as GET); then 403 for host or origin; then 401 for auth; otherwise admitted |
| HttpTransport.AdmittedRequest | src/transports/http.ts:182-195 | an admitted request carries the parsed credential, a served method and an allowed Host |
| HttpTransport.RejectedRequest | src/transports/http.ts:171-192 | a rejection sends `{error: reason}` with its status, hands nothing on, sets no auth, and does not depend on the body or the transport |
| HttpTransport.BodyOnlyForPost | src/transports/http.ts:194-202 | after the gates, auth is attached; only POST reads the body; a body that fails becomes 500 with its message |
| HttpTransport.Response.Respond | src/transports/http.ts:58-69 | the response becomes `RespondJson` of its previous state |
| HttpTransport.HandleRequest | src/transports/http.ts:166-204 | the handler leaves the response, the request's auth and the hand-off exactly as `Handle(Gate(...))` says |
| Server.ValidateApiKey | src/server.ts:14-26 | succeeds exactly when the trimmed token starts with "sk_", returning the trimmed token; otherwise AUTH_ERROR/401 "Shelv API key must use sk_ prefix" |
| Server.ValidatedKeyShape | src/server.ts:14-26 | a validated key starts with "sk_" and is already trimmed |
| Server.GetApiKey | src/server.ts:31-48 | a non-blank request token is validated and wins; otherwise a configured key is validated; with neither, AUTH_ERROR/401 "Missing Shelv API key…" |
| Server.ApiKeySource | src/server.ts:31-39 | every key returned starts with "sk_", is trimmed, and is the request token when one is given, else the configured key |
| Server.NoFallbackAfterBadToken | src/server.ts:32-35 | an invalid request token fails rather than falling back to the configured key |
| Server.BlankTokenIgnored | src/server.ts:33-39 | a blank request token is the same as none |
| Server.ApiKeyRefusals | src/server.ts:14-48 | every refusal is AUTH_ERROR/401, not retryable, with one of the two messages |
| Errors.InputFailure | src/tools/common.ts:31-36 | an input refusal is INPUT_ERROR/400, not retryable, with its message |
| Errors.StatusToCode | src/errors.ts:67-75 | UPSTREAM_ERROR exactly for statuses outside 400, 401, 402, 403, 404, 409, 429; AUTH_ERROR exactly for 401 and 403 |
| Errors.FindStatusGroup | src/errors.ts:77-82 | finds the leftmost "(ddd)" at or after a position, or shows there is none |
| Errors.ExtractStatusFromMessage | src/errors.ts:77-82 | a status exactly when the message holds "(ddd)"; it is in 0..999 and is the value of the digits of the leftmost such group |
| Errors.LeftmostStatus | src/errors.ts:77-82 | whatever text precedes it, the leftmost "(ddd)" of a message gives the status |
| Errors.ExtractAfterPrefix | src/errors.ts:77-82 | the digits of the first "(ddd)" are the status when nothing before it opens a parenthesis |
| Errors.TreeFetchStatus | src/__tests__/errors.test.ts:17-25 | "Shelv request failed (409) for /tree" gives 409 |
| Errors.ToMcpToolError | src/errors.ts:84-168 | a tool error is returned unchanged; every other input gets a retryable flag; only tool errors can be LOCAL_IO_ERROR |
| Errors.ToMcpToolErrorIdempotent | src/errors.ts:88-90 | normalising twice is normalising once |
| Errors.ApiRequestMapping | src/errors.ts:92-103 | an API failure takes its code from the status table and keeps its status and message; it is retryable exactly for status ≥ 500 or 429 |
| Errors.ApiNotFoundExample | src/__tests__/errors.test.ts:8-14 | a 404 gives NOT_FOUND with status 404 and the body's message |
| Errors.AdapterMapping | src/errors.ts:119-148 | adapter errors other than a tree fetch are UPSTREAM_ERROR without status and keep their message; only ARCHIVE_TIMEOUT is retryable |
| Errors.TreeFetchMapping | src/errors.ts:106-117 | a tree-fetch failure keeps its message and the status its message quotes; a non-zero status takes its code from the status table and is retryable exactly for 5xx and 429; without one it is a non-retryable UPSTREAM_ERROR |
| Errors.TreeFetchWithoutStatus | src/errors.ts:106-117 | a tree-fetch failure with no status, or status 0, is a non-retryable UPSTREAM_ERROR |
| Errors.TreeFetchExample | src/errors.ts:106-117 | a tree-fetch failure with "(409)" is NOT_READY with status 409 |
| Errors.TreeFetchAgreesWithApiRequest | src/errors.ts:92-117 | a tree-fetch failure carrying an API failure's default message gets the same code, status and retryable flag as that API failure |
| Errors.ApiMessageStatusRoundTrip | src/errors.ts:50-82 | the default API message "Shelv API request failed (<status>)" gives its three-digit status back |
| Errors.PlainErrorMapping | src/errors.ts:151-159 | any other Error is a non-retryable UPSTREAM_ERROR with its own message, or the fallback when that message is empty |
| Errors.NonErrorMapping | src/errors.ts:162-167 | a thrown non-Error is a non-retryable UPSTREAM_ERROR with the fallback message and the value as details |
| Errors.SerializeToolError | src/errors.ts:170-184 | code, status, details, retryable flag and message are copied unchanged |
| Js.ParseIntRoundTrip | src/config.ts:39 | `Number.parseInt` reads back any integer's decimal form, whatever non-digit text follows it |
| Js.TrimCharacterised | src/config.ts:20 | trim removes exactly the leading and trailing whitespace |
| Js.TrimIdempotent | src/config.ts:20 | trimming twice is trimming once |
| Config.ParseBoolean | src/config.ts:18-28 | undefined gives the fallback; after trimming and lower-casing, true/1/yes give true and false/0/no give false; anything else is "Invalid boolean value: <value>" |
| Config.BooleanSpellingIdempotent | src/config.ts:20 | a value already in normal spelling parses like the original |
| Config.ParseInteger | src/config.ts:30-45 | undefined or blank gives the fallback; otherwise the leading integer when it is positive, else "<label> must be a positive integer" |
| Config.ParseIntegerPositive | src/config.ts:40-41 | with a positive fallback every accepted value is positive |
| Config.ParseIntegerLeadingDigits | src/config.ts:39 | a positive numeral followed by non-digits parses to its value |
| Config.ParseIntegerTrailing | src/config.ts:39 | "12abc" gives 12 |
| Config.ParseIntegerNonPositive | src/config.ts:40-41 | zero or a negative numeral is refused |
| Config.ParseTransport | src/config.ts:47-57 | undefined or blank gives stdio; exactly "stdio" or "http" is kept; anything else is refused naming SHELV_MCP_TRANSPORT |
| Config.TransportTcp | src/__tests__/config.test.ts:43-48 | "tcp" is refused |
| Config.TransportPadded | src/config.ts:52-56 | " http" is refused: the comparison is on the untrimmed value |
| Config.TrimmedOrUndefined | src/config.ts:62-64 | the value is trimmed and becomes undefined exactly when blank |
| Config.LoadFails | src/config.ts:59-92 | loading fails exactly when one of the parsers fails |
| Config.LoadedConfig | src/config.ts:59-92 | a loaded config has positive numbers, a trimmed non-empty key if any, a trimmed non-empty host and the fixed API base URL |
| Config.Defaults | src/config.ts:59-92 | an empty environment gives stdio, 127.0.0.1, 3334, false, 500, 5000000, 200, 250000 |
| Config.ExplicitValues | src/__tests__/config.test.ts:19-41 | explicit variables are parsed into the matching fields |
| CreateShelf.HeaderBuffer | src/tools/create-shelf.ts:62-63 | the five-byte header holds the file's first bytes, then zeros |
| CreateShelf.AssertPdfFile | src/tools/create-shelf.ts:31-75 | every refusal is INPUT_ERROR/400, not retryable |
| CreateShelf.HeaderMatches | src/tools/create-shelf.ts:60-71 | the header matches exactly when the file starts with "%PDF-" |
| CreateShelf.PdfChecks | src/tools/create-shelf.ts:31-71 | accepted exactly when the file exists and is regular, is within 300 MB, has extension ".pdf" (any case) and starts with "%PDF-"; a refusal names the first check that fails, in that order |
| CreateShelf.SizeBoundary | src/tools/create-shelf.ts:42-49 | exactly 300·1024·1024 bytes passes and one byte more fails |
| CreateShelf.ShortFileRejected | src/tools/create-shelf.ts:60-71 | a file shorter than five bytes never passes |
| CreateShelf.DirectoryRefused | src/tools/create-shelf.ts:32-40 | a directory is refused before its size or name is checked |

## Left out

- `HydrateShelf.Destination` and the handler use the guard as written (src/tools/hydrate-shelf.ts:61). The corrected `Common.EnsureRelativePath` appears only as the intended half of the finding below.
- `SearchShelf.BuildMatcher`, `SearchShelf.LowerText`, `Js.Lower` and `Config.ParseBoolean` lower-case ASCII letters only. `String.prototype.toLowerCase` applies the full Unicode case mapping, so the model does not capture non-ASCII folds. For example, a case-insensitive query "É" matches the line "é" in the source but not in the model. The same gap applies to the ".PDF" and ".MD" extension checks for non-ASCII letters.
- Regular expressions: `new RegExp(query, flags)` and `regex.test` are a compile function passed in. A failed compile is the only behaviour modelled.
- URL parsing: `new URL(req.url, base).pathname` and `new URL(origin).host` are parameters (`UrlParser`).
- `resolveShelfSource` and the `@shelv/adapters` client are not part of this model. Their outcome is an input: a `Result` of the entries in `Object.entries` order, and the thrown error otherwise. `getApiKey` is modelled in `Server` and its outcome is folded into that input.
- `HydrateShelf.FileSystem`: only EEXIST, ENOTDIR and EISDIR are modelled, the rejections that files and directories alone can cause. Permissions, symlinks, full disks and other I/O errors are left out. So is the race between `fs.access` and `fs.writeFile`, which is a concurrency concern.
- The process working directory that `path.resolve` reads is a parameter (`cwd`).
- The model assumes a POSIX platform. `ensureRelativePath` calls `path.posix.normalize` explicitly (src/tools/common.ts:48), but `safeJoin`, the hydrate handler and `inferContentType` use the platform's `path.resolve`, `path.sep`, `path.dirname` and `path.extname` (src/tools/common.ts:75-80, src/tools/hydrate-shelf.ts:53). On Windows the separator is "\\" and drive letters change how paths resolve. `Common.SafeJoin`, `Common.RootBaseRefusesChildren`, `HydrateShelf.Destination` and the note under Findings describe the POSIX behaviour only.
- `readJsonBody` (chunk accumulation and `JSON.parse`), `createServer`, `listen`, `close` and the MCP SDK transport are I/O or foreign code. The body is an input `Result`, and the transport is a function from the hand-off to a status.
- Schema bounds enforced by zod (`max_matches ≥ 1`, `config.searchMaxMatches ≥ 1`) are preconditions of `SearchShelf.SearchResponse` and `SearchShelf.HandleSearch`.
- `Js.ParseInt` is `Number.parseInt` over mathematical integers. The float overflow to `Infinity` is not modelled.
- `Common.TruncateUtf8` computes the midpoint as `(low + high + 1) / 2` on integers. The source uses float `Math.ceil((low + high) / 2)`, which gives the same value for every string length JavaScript allows.
- `CreateShelf.AssertPdfFile` takes the facts `fs.stat` and `handle.read` return as parameters. A failing `fs.open` is not modelled.
- `HttpTransport.AuthInfo` omits `expiresAt`, which is always undefined.
- `src/http-client.ts`, `src/tools/list-shelves.ts`, `src/tools/get-shelf-tree.ts`, `src/tools/read-shelf-file.ts`, `src/tools/index.ts`, `src/tools/context.ts`, `src/transports/stdio.ts` and `src/bin/shelv-mcp.ts` are not part of this model. They are network clients, SDK registration and process bootstrap.

## Findings

| source | as written | input that shows it | evidently intended | confidence | as-written member | corrected member |
|---|---|---|---|---|---|---|
| src/tools/common.ts:48-56 | only the normal forms "." and "" are refused as references to the shelf root | "./" (or "a/../", which normalises to "./") is accepted as "./"; `safeJoin` then gives the target directory itself | every path that refers to the root is refused with "Path must reference a file under the shelf root" | not executed | Common.DotSlashSlipsThrough | Common.EnsureRelativePath |

In the hydrate handler the "./" key writes nothing (`HydrateShelf.RootKeyNeverWrites`). Without overwrite it is refused as an existing file. With overwrite, `writeFile` on the target directory fails with EISDIR. Both messages are misleading for what is a refused key.

A second observation has no corrected member. On a POSIX platform with base "/", `safeJoin` refuses every child, because "/etc" does not start with "//" (src/tools/common.ts:78-80; `Common.RootBaseRefusesChildren`). Hydrating into "/" therefore fails on the first entry. The model keeps the check as written.
