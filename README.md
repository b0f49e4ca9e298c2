# Book relay endpoints — a Dafny model

This project models the server side of a small book-tracking tool: four PHP
scripts that store book records in a SQLite `books` table, read them back, and
relay messages to a chat service's webhook. The model covers:

- **the credential gate** (`public/auth.php`, module `Auth`). The load
  endpoint and the webhook relay include it first (`public/data_load.php:2`,
  `public/post_webhook.php:12`); the save endpoint and `public/fetch_page.php`
  run no gate. The account configuration must be an array with a
  non-empty `password`. The request's last `Authorization` header (any case
  of the name) must read `Bearer <token>`, where the token is the SHA-256 hex
  digest of that password. Each failure ends the script with its own status and
  message.
- **the save endpoint** (`public/data_save.php`, module `DataSave`). It turns
  the decoded JSON body into one upsert statement. Every key except `id` is an
  inserted column bound to `:<key>`. On a `bookId` conflict only the columns
  whose value is a boolean or non-empty overwrite the stored row.
- **the load endpoint** (`public/data_load.php`, module `DataLoad`). Past the
  gate it runs one SELECT, chosen by a fixed priority among the `bookId`,
  `seriesId` and `postId` query parameters, and answers with the rows.
- **the webhook relay** (`public/post_webhook.php`, module `PostWebhook`).
  Past the gate it builds one request to the channel's webhook: POST to create
  a message, PATCH to edit message `id`, with a thread parameter in the forum
  channel. It then passes the service's reply back and propagates a status code
  of 300 or more read from the reply's status line.

Two support modules hold what the scripts share. `Php` models the PHP value
semantics they rely on: `empty()`, `??` lookups, the `(array)` cast, `unset`,
`implode`, string conversion and interpolation, and ASCII lower-casing of
header names. `Http` models the request as PHP presents it, the response a
script ends with, and the OPTIONS preflight exit of
`setCorsHeadersAndHandleOptions`.

Each script is a function from its inputs to an `Exchange`. An exchange holds
the calls made to the collaborator, in order, and the final response. The
collaborators are function parameters: the database (`Query -> DbResult`),
the webhook transport (`Outgoing -> Reply`) and SHA-256 (`string -> string`).
The loaded configuration files (account, webhook URLs) are plain `Value`
parameters.

Where PHP raises an uncaught `TypeError` or `Error`, the model answers
`Response(500, NoBody)`. This happens when `hash()` is given an array or
object password, when the webhook configuration is an object (a `stdClass`
cannot be indexed with `[]`), and when an object is interpolated into the
webhook URL.

Four behaviours of the code are worth knowing. They are modelled as written.
- The save endpoint runs no credential check: it includes only `utils.php`
  and `db.php`.
- `"0"` is empty to PHP, so `bookId=0` falls through to `seriesId`, and a
  token or password `"0"` is rejected as empty.
- An object body is never empty, so `{}` passes the JSON guard and yields an
  upsert with no columns (`NoColumnObjectStillQueries`).
- The body's keys are spliced into the statement text unescaped (column list,
  placeholders and SET list), and the save endpoint runs no gate. A key such
  as `x) VALUES (1); --` therefore rewrites the statement. The model keeps the
  text exactly as built and states where each piece sits in it; it does not
  model how SQLite parses it.

## Model

| member | source | states |
|---|---|---|
| Php.Empty | public/auth.php:12 | `empty()`; which values it holds for is stated by `Php.EmptyExactly` |
| Php.EmptyExactly | public/auth.php:12 | `empty()` holds for exactly null, false, 0, "", "0" and the empty array, so never for an object |
| Php.Get | public/auth.php:11 | an absent key gives null; a present key gives the value of its first entry; a non-null result is stored under the key |
| Php.Index | public/post_webhook.php:15 | indexing an object fails (PHP raises an Error); an array gives its `??` lookup; a non-null result only comes from an array entry under the key |
| Php.Property | public/post_webhook.php:21-22 | on an object, the `??` lookup of its properties (null when absent, otherwise the first stored value); on anything else, null |
| Php.ToArray | public/data_save.php:10 | the `(array)` cast; what it makes of each kind of body is stated by `DataSave.BodyColumns` |
| Php.Unset | public/data_save.php:11 | the key is gone, every other entry is kept with nothing added, and the order of the kept entries is unchanged |
| Php.Keys | public/data_save.php:13 | one key per entry, in entry order |
| Php.Implode | public/data_save.php:14 | `implode`; its layout is stated by `Php.ImplodeSize`, `Php.ImplodePartAt` and `Php.ImplodeSeparatorAt` |
| Php.ImplodeSize | public/data_save.php:14 | the joined text is exactly as long as the parts plus one separator between each two |
| Php.ImplodePartAt | public/data_save.php:14 | part i appears at its offset, after every earlier part and separator, so the parts appear in order |
| Php.ImplodeSeparatorAt | public/data_save.php:14 | the separator follows every part but the last |
| Php.ImplodeLength | public/data_save.php:14 | the joined text begins with the first part and is at least as long as any part |
| Php.ImplodeEmpty | public/data_save.php:19 | with non-empty parts, the joined text is empty exactly when there are no parts |
| Php.NatToString | public/post_webhook.php:45 | decimal digits only, never empty, canonical (a leading `0` only in `"0"` itself), and the digits read back as the number |
| Php.IntToString | public/post_webhook.php:45 | a minus sign exactly for a negative number; the digits after it are canonical (a leading `0` only in `"0"`) and read back as the magnitude |
| Php.Interpolate | public/post_webhook.php:41-47 | interpolation fails exactly for an object; a string interpolates as itself and an integer as its decimal text (`Php.IntToString`) |
| Php.StringArgument | public/auth.php:31 | a string argument is refused exactly for an array or object; a string passes unchanged and an integer becomes its decimal text (`Php.IntToString`) |
| Php.LowerAscii | public/auth.php:18 | same length; upper-case ASCII letters are lowered and every other character is kept |
| Php.LowerAsciiIdempotent | public/auth.php:18 | lower-casing twice is lower-casing once |
| Http.Exit | public/auth.php:7-8 | `http_response_code` then `exit`; the status and message of each exit are stated by the rejection lemmas, such as `Auth.NoAccountBeforeHeaders` and `DataSave.EmptyBodyRejected` |
| Http.Preflight | public/utils.php:8-10 | the OPTIONS exit; `Auth.PreflightBeforeCredentials` and `DataSave.SavePreflight` state that it ends the script with an empty 200 |
| Http.QueryParam | public/data_load.php:4-6 | `$_GET[name] ?? default`; `DataLoad.NoParameterSelectsAll` and `PostWebhook.ChannelDefaultsToForum` state what the defaults lead to |
| Auth.AuthorizationHeader | public/auth.php:17-18 | no result exactly when no header name folds to "authorization"; otherwise the value of such a header with none after it (the last one wins) |
| Auth.LowerNames | public/auth.php:18 | every header name lower-cased, values and order kept |
| Auth.BearerToken | public/auth.php:23-25 | no match without the "Bearer " prefix; after the prefix, a rest without a line feed is the token, and so is a rest whose only line feed is its last character, minus that line feed; any token holds no line feed |
| Auth.Check | public/auth.php:3-36 | the gate answers 200 exactly for OPTIONS, 400 exactly for a non-array account, 500 only for an array or object password, and otherwise 401 or lets the request through |
| Auth.Credentials | public/auth.php:17-36 | the header part of the gate; what it answers is stated by `Auth.MissingHeaderRejected`, `Auth.MissingTokenRejected`, `Auth.WrongTokenRejected`, `Auth.MatchingHashAccepted` and `Auth.AcceptedOnlyWithMatchingHash` |
| Auth.PreflightBeforeCredentials | public/auth.php:3 | an OPTIONS request gets an empty 200 whatever the account, headers and hash |
| Auth.NoAccountBeforeHeaders | public/auth.php:5-9 | a non-array account is refused with 400 "No account found." before any header is read |
| Auth.EmptyPasswordRejected | public/auth.php:11-15 | an empty stored password is refused with 401 whatever the request |
| Auth.AuthorizationHeaderIgnoresCase | public/auth.php:18 | folding header names does not change which Authorization header is found |
| Auth.HeaderNameCaseInsensitive | public/auth.php:17-18 | the gate answers the same when every header name is lower-cased |
| Auth.SameHeaderSameGate | public/auth.php:17-36 | the gate depends on the headers only through the Authorization header found |
| Auth.MissingHeaderRejected | public/auth.php:17-22 | without an Authorization header, or with one whose value is "" or "0", the answer is 401 "Authorization header not set." |
| Auth.MissingTokenRejected | public/auth.php:23-29 | any non-empty header the pattern does not match, or whose token is "" or "0", is refused with 401 "Provided password was empty." |
| Auth.AcceptedOnlyWithMatchingHash | public/auth.php:31-36 | soundness: passing the gate implies a scalar non-empty stored password and a last Authorization header equal to "Bearer " plus its non-empty digest |
| Auth.MatchingHashAccepted | public/auth.php:5-36 | completeness: a non-empty string password and an Authorization header found (the last one, at any position, any case of the name) equal to "Bearer " plus its digest pass the gate |
| Auth.WrongTokenRejected | public/auth.php:31-36 | a well-formed token that is not the digest is refused with 401 "Provided password did not match stored password." |
| DataSave.Overwrites | public/data_save.php:17 | the filter callback; `DataSave.KeptExactlyWhenOverwrites` and `DataSave.MergePolicy` state what it keeps |
| DataSave.UpdateEntries | public/data_save.php:17 | the filter keeps exactly the entries whose value is a boolean or non-empty |
| DataSave.Placeholders | public/data_save.php:15 | the placeholder list; `DataSave.PlaceholdersBindColumns` states that each is `:` plus its column |
| DataSave.Assignments | public/data_save.php:19 | the SET list; `DataSave.MergePolicy` states that each entry is `k=excluded.k` |
| DataSave.UpsertSql | public/data_save.php:21-24 | the statement text; `DataSave.TemplateConflictTarget` states where the column list and the `VALUES` list sit in it, and that it ends with the `ON CONFLICT(bookId) DO UPDATE set` clause and its SET list |
| DataSave.BuildUpsert | public/data_save.php:10-24 | the statement built from the body; stated by `DataSave.BodyColumns`, `DataSave.UpsertNeverWritesId`, `DataSave.PlaceholdersBindColumns`, `DataSave.MergePolicy`, `DataSave.StatementListsColumns`, `DataSave.StatementListsSetEntries` and `DataSave.ConflictTargetIsBookId` |
| DataSave.Save | public/data_save.php:4-34 | at most one query, none exactly for OPTIONS or an empty body; the answer is 200 or 400, and a 200 without a query is the preflight |
| DataSave.SavePreflight | public/data_save.php:4 | an OPTIONS request gets an empty 200 and runs no query, whatever its body |
| DataSave.BodyColumns | public/data_save.php:10-13 | an object or array body binds exactly its own entries except `id`; a scalar body binds the single column `0`, updated exactly when the scalar overwrites |
| DataSave.UnsetKeepsKeysUnique | public/data_save.php:10-11 | removing `id` keeps the body's keys distinct |
| DataSave.UpdateKeysAreSubsequence | public/data_save.php:17-18 | the updated keys keep the order of all keys |
| DataSave.KeptExactlyWhenOverwrites | public/data_save.php:17-18 | with distinct keys, a key is updated if and only if its value is a boolean or non-empty |
| DataSave.AbsentKeyNotWritten | public/data_save.php:13-19 | a key missing from the array gets no placeholder, no update column and no SET entry |
| DataSave.UpsertNeverWritesId | public/data_save.php:10-19 | `id` is never a column, a bound parameter, a placeholder, an update column or a SET entry |
| DataSave.PlaceholdersBindColumns | public/data_save.php:13-15 | placeholder i is `:` plus column i, and the bound parameters have exactly the columns as keys |
| DataSave.MergePolicy | public/data_save.php:17-19 | a column is updated exactly when its value is a boolean or non-empty; each SET entry is `k=excluded.k`; update order follows insert order |
| DataSave.SetClauseEmptyIffNothingSurvives | public/data_save.php:17-19 | the SET clause is empty exactly when no value survives the filter |
| DataSave.TemplateConflictTarget | public/data_save.php:21-24 | the statement opens with `INSERT INTO books (`, the column list follows right after it, then `) VALUES (` with the placeholder list and `)`, and the text ends with the `ON CONFLICT(bookId) DO UPDATE set` clause, its SET list and `;` |
| DataSave.InsertLists | public/data_save.php:21-23 | the column list starts right after `INSERT INTO books (` and the parenthesised `VALUES` list right after the column list |
| DataSave.StatementListsColumns | public/data_save.php:13-23 | in the statement run for any body, column i sits at its place in the column list and placeholder i, `:` plus column i, at the same place in the `VALUES` list |
| DataSave.LaidOutListsLineUp | public/data_save.php:13-23 | the same for every upsert whose lists and text are joined as the script joins them |
| DataSave.ConflictClauseAtEnd | public/data_save.php:21-24 | the statement text ends with the conflict clause |
| DataSave.SetListAtEnd | public/data_save.php:24 | the SET list starts right after `ON CONFLICT(bookId) DO UPDATE set ` in that closing clause |
| DataSave.StatementListsSetEntries | public/data_save.php:17-24 | in the statement run for any body, SET entry j is `k=excluded.k` for the j-th kept column k and sits at its place in the SET list of the closing clause |
| DataSave.LaidOutSetLinesUp | public/data_save.php:19-24 | the same for every upsert whose SET list and text are joined as the script joins them |
| DataSave.SetEntryInList | public/data_save.php:19 | SET entry j lies at its offset in the joined SET list, wherever that list sits in the text |
| DataSave.ConflictTargetIsBookId | public/data_save.php:21-24 | for every body, the statement text opens with `INSERT INTO books (` and ends with `ON CONFLICT(bookId) DO UPDATE set`, its SET list and `;`; keys are spliced in unescaped, so this is about the text, not about how SQLite parses it |
| DataSave.EmptyBodyRejected | public/data_save.php:5-9 | an empty or non-JSON body gets 400 "Provided body was not JSON." and runs no query |
| DataSave.NoColumnObjectStillQueries | public/data_save.php:6-27 | `{}` or a body holding only `id` still runs one upsert, with no columns and an empty SET clause |
| DataSave.OneUpsertPerSave | public/data_save.php:26-34 | any other body runs exactly one query, the upsert; the answer is 400 exactly when the result is not an array |
| DataLoad.Select | public/data_load.php:9-17 | the first non-empty parameter among bookId, seriesId and postId decides, with its value; with none, all rows |
| DataLoad.Statement | public/data_load.php:9-17 | the SELECT run for each lookup; `DataLoad.StatementInjective` states that distinct lookups run distinct queries |
| DataLoad.Load | public/data_load.php:2-23 | at most one query, and one runs exactly when the gate lets the request through |
| DataLoad.StatementInjective | public/data_load.php:9-17 | different lookups run different queries |
| DataLoad.BookIdOverridesOthers | public/data_load.php:9-10 | a non-empty bookId selects by bookId whatever the other parameters are |
| DataLoad.SeriesIdOnlyWithoutBookId | public/data_load.php:11-12 | with an empty bookId, a non-empty seriesId selects by seriesId, whatever postId is |
| DataLoad.PostIdOnlyWithoutOthers | public/data_load.php:13-14 | with empty bookId and seriesId, a non-empty postId selects by postId |
| DataLoad.LowerPriorityOnlyWhenHigherEmpty | public/data_load.php:11-14 | a seriesId or postId query runs only when every higher-priority parameter is empty |
| DataLoad.NoParameterSelectsAll | public/data_load.php:15-16 | with no non-empty parameter, every row is selected with no bound parameters |
| DataLoad.OneQueryPerLoad | public/data_load.php:8-23 | past the gate exactly one query runs; false gives 400 "Failed to open database.", rows give 200 with the rows |
| DataLoad.GateAnswersWithoutQuery | public/data_load.php:2 | when the gate answers, no query runs and the gate's answer is sent |
| PostWebhook.BuildRequest | public/post_webhook.php:13-35 | the guards either stop the script with 400 or 500, or send the non-empty payload to a non-empty configured URL |
| PostWebhook.ObjectConfigFails | public/post_webhook.php:15 | an object webhook configuration gives 500 whatever the channel and the body, and nothing is sent |
| PostWebhook.MissingWebhookRejected | public/post_webhook.php:14-19 | no URL for the channel gives 400 naming the channel, whatever the body, and nothing is sent |
| PostWebhook.EmptyPayloadRejected | public/post_webhook.php:20-26 | an empty payload gives 400 "Incoming value was empty" and nothing is sent |
| PostWebhook.PostIffNoId | public/post_webhook.php:28-35 | the method is POST exactly when `id` is empty, and the non-empty payload is the content sent |
| PostWebhook.ChannelDefaultsToForum | public/post_webhook.php:13 | without a channel parameter the whole relay behaves exactly as with `channel=forum` |
| PostWebhook.TargetUrl | public/post_webhook.php:40-48 | the target URL; stated by `PostWebhook.TargetUrlShapes` and `PostWebhook.TargetUrlFrame` |
| PostWebhook.TargetUrlShapes | public/post_webhook.php:40-48 | create goes to `<url>?wait=true`; an edit goes to `<url>/messages/<id>?wait=true`, and in the forum channel it also carries `thread_id=<id>` |
| PostWebhook.TargetUrlFrame | public/post_webhook.php:40-48 | every target URL starts with the configured URL and ends with `wait=true` |
| PostWebhook.RunEnd | public/post_webhook.php:62 | the greedy `\S*` run stops at the first whitespace character or at the end |
| PostWebhook.RunEndAt | public/post_webhook.php:62 | the run ends exactly at the first whitespace character after its start |
| PostWebhook.CodeAt | public/post_webhook.php:62 | an attempt at one position succeeds exactly when the pattern matches there, and yields the number the three captured digits spell |
| PostWebhook.FirstCode | public/post_webhook.php:62 | no result exactly when no position matches; otherwise the code of the leftmost match |
| PostWebhook.StatusCode | public/post_webhook.php:60-63 | the code of the leftmost match in the status line, and 0 (`intval(null)`) when nothing matches, even if "HTTP/" occurs |
| PostWebhook.CanonicalStatusLine | public/post_webhook.php:60-63 | "HTTP/<version> <ddd>..." yields the number its three digits spell |
| PostWebhook.NoMatchWithoutHttp | public/post_webhook.php:62 | with no "HTTP/" in the status line there is no match from any position |
| PostWebhook.NoMatchLeavesStatus | public/post_webhook.php:60-67 | a status line without "HTTP/" leaves the status at 200, body passed through |
| PostWebhook.Answer | public/post_webhook.php:54-71 | a text message exactly when the reply is false or its body is empty; otherwise the reply's body with a status from 200 to 999 |
| PostWebhook.StatusPropagation | public/post_webhook.php:54-71 | an empty reply gives 400 "Failed to get response."; otherwise a code of 300 or more is propagated, a lower one gives 200, and the body is passed through |
| PostWebhook.Relay | public/post_webhook.php:12-71 | at most one request is sent |
| PostWebhook.AtMostOneRequest | public/post_webhook.php:28-57 | one request is sent exactly when the gate and the guards pass, and its reply decides the answer |

## Left out

- The account and webhook configuration files are loaded by
  `loadFirstExistingFile`, which `public/utils.php` does not define. The
  included `utils.inc.php` and `db.inc.php` are not part of this model either.
  The loaded values are parameters. `public/auth.php` takes
  `setCorsHeadersAndHandleOptions` from `utils.inc.php`; the model assumes it
  is the same function as in `public/utils.php:8-10` (`Http.Preflight`).
- JSON decoding and encoding are not modelled. The body arrives as a decoded
  `Value` (Null when it is not JSON), and rows and payloads are passed on as
  values.
- Floating-point values are not modelled: a JSON number is an `Int`.
- SHA-256 is an uninterpreted function parameter.
- SQLite is a function parameter. Nothing models how SQL is executed or how
  parameters are bound, nor the retry loop and sleeps of `DB_SQLite::query`
  (`public/db.php`). Its non-lock exceptions are left out too: they are
  rethrown uncaught.
- The HTTP transport is a function parameter. The `Catastrophic failure`
  catch branch of `public/post_webhook.php` is not modelled, because
  `file_get_contents` reports failure by returning false, which is modelled
  as `NoReply`.
- CORS headers, `Content-Type` headers, `error_log` and `error_reporting` are
  not modelled: they do not change the status or the body.
- Query parameters are strings. Array-valued parameters (`?bookId[]=1`) are
  not modelled.
- A webhook configuration that is a string, number, boolean or null is read
  as having no URL (an object configuration gives 500, an array its entry).
  That matches PHP for a non-numeric channel; for a string configuration and a
  numeric channel PHP would give one character of the string.
- `public/fetch_page.php` and the file helpers of `public/utils.php`
  (`loadFile`, `loadFileOfFiles`, `writeDataFile`, `loadDataFile`) are not
  part of this model.
- PostWebhook.TargetUrlShapes: stated for a string webhook URL and an `id`
  that is not an object. Other URL values interpolate through
  `Php.Interpolate`, and an object `id` gives the 500 of `BuildRequest`.
