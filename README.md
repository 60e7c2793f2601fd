# go-vocab: a Dafny model of the practice client

go-vocab is a bot that plays vocabulary.com practice rounds. A `Runner` takes
three things:

- a session (the load-balancer cookie, `JSESSIONID` and `guid`);
- a word-list id;
- a Postgres table of questions already seen.

`Practice` first fetches a question (`NextQuestion`). The call to `Start` before it is commented out (application/app.go:512), so a run begins on the session it was given. Then it loops:

1. It asks a language model for the answer to the current question (`Ask`).
2. It submits the answer (`AnswerQuestion`).
3. When the completion has reached 1, the round is over. It clears the secret, starts the list again (`Start`) and submits the same answer once more.
4. It fetches the next question (`NextQuestion`).

`Start` and `NextQuestion` extract the question from the server's JSON and base64-encoded HTML (`ExtractQuestion`) and record it in the table (`SaveQuestionToDB`). Every reply from the server can:

- set cookies, which are merged into the session's cookie jar (`RetrieveCookies`);
- carry a new `secret`, the token the next request must echo.

Extraction marks a question correct when one of its choices' text equals the answer (utils/utils.go:86-89). For a question not of type `T` the answer is the empty string, so a choice with blank text marks it correct (`Extract.BlankChoiceMarksUntypedCorrect`). The upsert never overwrites a row marked correct (`Store.CorrectRowIsLocked`), so such a row keeps its first answer columns.

A Python example client does the same job with a `requests` session and a
shared `Cookie` header.

This project models that core:

| file | what it models |
|---|---|
| `wrappers.dfy` | `Option`, `Result`, and `Exit` (normal return or Go panic) |
| `json.dfy` | decoded JSON values and Go's comma-ok type assertions on them |
| `text.dfy` | `strings.Fields`/`Join`, trimming, `split` and `join` on separators |
| `vocab.dfy` | the request and record types of `model/vocab.go` and their JSON encodings |
| `cookies.dfy` | the `Cookie` header string, the important-cookie filter, merging `Set-Cookie` into the jar |
| `extract.dfy` | `ExtractSecret`, `ExtractPracticeProgress`, `ExtractQuestion` |
| `store.dfy` | the `INSERT … ON CONFLICT` upsert of `SaveQuestionToDB` as a map update |
| `oracle.dfy` | the payload sent to the model and the unwrapping of its reply |
| `protocol.dfy` | one pure step function per `Runner` operation, over the session context `Ctx` |
| `session.dfy` | class `Runner`: its fields and the imperative methods, each proved equal to its step function |
| `client.dfy` | the Python client: `updateCookies`, cookie-header parsing, `clean_string`, `answerQuestion` |

HTTP replies are parameters of the operations (`Response`: status, decoded body, `Set-Cookie` list). So are:

- base64 decoding;
- the HTML selector;
- the model oracle;
- the JSON unmarshal of the oracle's answer.

A Go `panic` is the value `Panic(reason)`. A Go `error` is `Result.Failure`.

## Model

| member | source | states |
|---|---|---|
| Json.StringAt | utils/utils.go:121-125 | the `.(string)` assertion succeeds exactly when the key is present and holds a string, and then yields that string |
| Json.BoolAt | application/app.go:432-436 | the `.(bool)` assertion succeeds exactly when the key holds a boolean, and yields it |
| Json.NumberAt | utils/utils.go:137-141 | the `.(float64)` assertion succeeds exactly when the key holds a number, and yields it |
| Json.ObjectAt | utils/utils.go:132-136 | the `.(map[string]interface{})` assertion succeeds exactly when the key holds an object, and yields its fields |
| Text.TrimLeft | example/client.py:313 | the result is a suffix of the input that starts with a non-space, or is empty |
| Text.TrimRight | example/client.py:313 | the result is a prefix of the input that ends with a non-space, or is empty |
| Text.LeadingWord | utils/utils.go:102-106 | the first field is non-empty, is a prefix of the input and holds no white space |
| Text.Fields | utils/utils.go:102-106 | every field `strings.Fields` returns is a non-empty word without white space |
| Text.FieldsOfTrimmed | utils/utils.go:102-106 | trimming white space from both ends does not change the fields |
| Text.FieldsOfJoin | utils/utils.go:102-106 | splitting words joined by one space gives back the same words |
| Text.StripExtraWhiteSpace | utils/utils.go:102-106 | `strings.Join(strings.Fields(s), " ")`; its properties are stated by `StripExtraWhiteSpaceSpec` and `StripExtraWhiteSpaceIdempotent` |
| Text.StripExtraWhiteSpaceSpec | utils/utils.go:102-106 | `stripExtraWhiteSpace` keeps the words of its input, has no white space at either end, uses only single plain spaces between words, and is empty exactly when the input has no words |
| Text.StripExtraWhiteSpaceIdempotent | utils/utils.go:102-106 | stripping twice is the same as stripping once |
| Text.IndexOf | example/client.py:54 | the index found is the first place the separator occurs |
| Text.Split | example/client.py:54-55 | `str.split(sep)` gives at least one piece; every piece is free of the separator, and joining the pieces with the separator gives back the input |
| Text.SplitJoin | example/client.py:54-55 | splitting a join of separator-free pieces gives back the same pieces (for a separator that cannot overlap itself) |
| Vocab.StringField | model/vocab.go:32-49 | a missing string field decodes to Go's zero value `""` |
| Vocab.IntField | model/vocab.go:32-49 | a missing integer field decodes to Go's zero value `0` |
| Vocab.EncodeChoice | model/vocab.go:19-22 | a choice as the object `{key, value}`; its round trip is stated by `ChoiceEncoding` |
| Vocab.EncodeChoices | model/vocab.go:13 | the JSON of a choice slice; its shape and round trip are stated by `ChoicesEncoding` |
| Vocab.EncodeAnswerReq | model/vocab.go:32-37 | the JSON of an `AnswerReq`; stated by `AnswerReqEncoding` |
| Vocab.EncodeNextQuestionReq | model/vocab.go:39-42 | the JSON of a `NextQuestionReq`; stated by `NextQuestionReqEncoding` |
| Vocab.EncodeStartPracticeReq | model/vocab.go:44-49 | the JSON of a `StartPracticeReq`; stated by `StartPracticeReqEncoding` |
| Vocab.ChoiceEncoding | model/vocab.go:19-22 | a choice encodes to exactly the keys `key` and `value`, and decodes back to itself |
| Vocab.ChoicesEncoding | model/vocab.go:19-22 | a nil choice slice encodes as `null`, any other slice as an array of `{key, value}` objects, and decoding gives back the choices |
| Vocab.AnswerReqEncoding | model/vocab.go:32-37 | an `AnswerReq` encodes to exactly the keys `secret`, `v`, `rt` and `a`, and decodes back to itself |
| Vocab.NextQuestionReqEncoding | model/vocab.go:39-42 | a `NextQuestionReq` encodes to exactly the keys `secret` and `v`, and decodes back to itself |
| Vocab.StartPracticeReqEncoding | model/vocab.go:44-49 | a `StartPracticeReq` leaves out an empty `secret` (`omitempty`), keeps the other keys, and decodes back to itself |
| Cookies.Contains | utils/utils.go:187-195 | membership in the list of names |
| Cookies.IsImportantCookie | utils/utils.go:187-195 | a cookie name is important exactly when it is one of the five names `AWSALB`, `AWSALBCORS`, `JSESSIONID`, `guid` and `__cf_bm` |
| Cookies.GetCookiesString | utils/utils.go:19-29 | a nil jar is an error; otherwise the header is the rendering `name=value;` of every cookie in order |
| Cookies.Render | utils/utils.go:19-29 | the header as `name=value;` per cookie; stated by `GetCookiesString`, `RenderSplits` and `RenderIsJoin` |
| Cookies.RenderSplits | utils/utils.go:19-29 | when names and values hold no `;` or `=`, splitting the header at `;` recovers one `name=value` piece per cookie (plus the trailing empty piece), and each piece splits back into its name and value |
| Cookies.RenderIsJoin | utils/utils.go:19-29 | the header equals the `;`-join of the `name=value` pieces with an empty piece at the end |
| Cookies.IndexedKeyed | utils/utils.go:155-177 | filing cookies by name into a jar keyed by name keeps every entry under its own cookie's name |
| Cookies.IndexedLookup | utils/utils.go:155-177 | after filing cookies into a jar, a name is present exactly when it was in the jar or some cookie has it, and then it holds the last cookie of that name, else the jar's own |
| Cookies.LastNamed | utils/utils.go:160-177 | the cookie that wins for a name is in the list, has that name and no later cookie has it; there is none exactly when no cookie has that name |
| Cookies.Allowed | utils/utils.go:160-177 | only important cookies from the incoming list are kept |
| Cookies.JarOf | utils/utils.go:155-158 | a cookie list read as a jar, each name filed with its last cookie; keyed by name |
| Cookies.Merged | utils/utils.go:154-177 | the map RetrieveCookies builds; stated by `MergedLookup` and `AbsorbGrows` |
| Cookies.MergedLookup | utils/utils.go:154-185 | after merging, a name is present exactly when it was in the existing jar or came in as an important cookie; an incoming important cookie replaces the existing one, and otherwise the existing one is kept |
| Cookies.RetrieveCookies | utils/utils.go:154-185 | the returned jar lists each entry of the merged map exactly once, under its own name (in some map order) |
| Cookies.ListEntries | utils/utils.go:179-184 | turning the map into a slice enumerates every entry exactly once |
| Cookies.EnumeratedJar | utils/utils.go:154-185 | a slice that enumerates a jar reads back as exactly that jar, so the slice RetrieveCookies returns stands for the merged map |
| Cookies.AbsorbGrows | utils/utils.go:154-185 | merging a response's cookies never drops a name from the jar and replaces only allow-listed cookies |
| Extract.ExtractSecret | utils/utils.go:120-129 | success exactly when `secret` is present and is a string, and then the value is that string; otherwise an error |
| Extract.ExtractPracticeProgress | utils/utils.go:131-143 | success exactly when `game` is an object whose `progress` is a number, and then the value is that number |
| Extract.ExtractorsRoundTrip | utils/utils.go:120-143 | a body that carries a secret string, or a game with a progress number, yields exactly that value |
| Extract.ExtractQuestionSpec | utils/utils.go:31-100 | the reference extraction; stated by `ExtractQuestionOutcome`, `AssembledQuestion` and `ExtractedIsAssembled`, and computed by the method `ExtractQuestion` |
| Extract.ExtractQuestion | utils/utils.go:31-100 | the extraction loop computes the same outcome as the reference definition `ExtractQuestionSpec` |
| Extract.CollectChoices | utils/utils.go:79-97 | the collected choices are exactly the anchors that carry `data-nonce`, with their text stripped, in order; the answer key is the code of the last choice whose text equals the answer, and is unchanged when there is none |
| Extract.ChoicesOfSpec | utils/utils.go:79-97 | choice collection distributes over concatenation, drops anchors without a code, and strips the text of the others |
| Extract.LastMatchSpec | utils/utils.go:90-94 | a key is found exactly when some choice's text equals the answer, and then it is the key of the last such choice |
| Extract.ExtractQuestionOutcome | utils/utils.go:31-57 | extraction panics exactly when the secret, the type (`question.type`, or the top-level `qtype` when there is no `question` object), the code or the difficulty is missing or mistyped; it returns an error exactly when the code is not valid base64; otherwise the question carries those values and the body's secret |
| Extract.AssembledQuestion | utils/utils.go:48-97 | the question carries the type, code, difficulty and decoded code, the normalised context and prompt, and the kept choices; for type `T` the answer is the `div.complete strong` text, otherwise empty; it is marked correct exactly when some choice's text equals the answer, and then the answer key is the nonce of the last such choice |
| Extract.ExtractedIsAssembled | utils/utils.go:31-100 | a successful extraction is the assembly of the fields it read |
| Extract.BlankChoiceMarksUntypedCorrect | utils/utils.go:73-97 | for a question not of type `T`, a choice with empty stripped text is taken as the answer |
| Store.Upsert | application/app.go:242-263 | the `INSERT … ON CONFLICT` as a map update; stated by `UpsertFrame`, `CorrectRowIsLocked`, `ConflictUpdatesAnswerColumns`, `SaveTwice` and `UpsertIdempotent` |
| Store.UpsertFrame | application/app.go:240-288 | saving a question touches only the row of its key: a new key inserts the question's row, and other rows are unchanged |
| Store.CorrectRowIsLocked | application/app.go:258-263 | a row already marked correct is never overwritten |
| Store.ConflictUpdatesAnswerColumns | application/app.go:258-263 | on a conflict with an incorrect row, only the answer columns are replaced and the rest of the row stays |
| Store.SaveTwice | application/app.go:242-263 | saving a new question and then another with the same key keeps the first row's key columns and takes the second's answer columns unless the first was correct |
| Store.UpsertIdempotent | application/app.go:240-288 | saving the same question twice is the same as saving it once |
| Oracle.PayloadEncoding | application/app.go:290-303 | the oracle payload has exactly `context`, `question` and `choices`, carries the question's context and prompt, and its choices decode back to the question's choices |
| Oracle.UnwrapReply | application/app.go:333-368 | the unwrapping of the oracle's reply; stated by `UnwrapReplySpec` and `UnwrapReplyRoundTrip` |
| Oracle.UnwrapReplySpec | application/app.go:333-366 | unwrapping succeeds exactly when the body's `response` string unmarshals to an object whose `answer` is an object with string `code` and `answer`, and then yields that pair; an absent body panics |
| Oracle.UnwrapReplyRoundTrip | application/app.go:333-366 | a reply wrapping a choice unwraps to that choice |
| Protocol.StartStep | application/app.go:142-213 | Start on the context; stated by `StartRequest`, `StartOutcome` and `StartAbsorbsCookies` |
| Protocol.StartRequest | application/app.go:142-172 | Start always sends a JSON `StartPracticeReq` for the list, version 3, type `p`, with the secret only when it is non-empty; without a response it returns nil and changes nothing else |
| Protocol.StartOutcome | application/app.go:142-213 | on the restart signal Start marks the round finished and clears the question; without a secret it returns nil; otherwise it stores the secret, extracts and saves the question, and takes the progress from the body or keeps the old one |
| Protocol.ZeroQuestionIsEmpty | application/app.go:408-418 | the question installed on a restart is Go's zero value |
| Protocol.AnswerStep | application/app.go:378-459 | AnswerQuestion on the context; stated by `AnswerOutcome`, `AnswerUpdatesQuestion` and `AnswerAbsorbsCookies` |
| Protocol.AnswerOutcome | application/app.go:378-418 | AnswerQuestion always sends an `AnswerReq` with the current secret, version 3, `rt` and the chosen key, as a JSON body under the URL-encoded form content type; it returns normally exactly on the restart signal, with completion 1 and a zero question |
| Protocol.AnswerUpdatesQuestion | application/app.go:420-449 | past the restart check, a reply without a secret keeps the secret and question; with one, the secret is replaced |
| Protocol.NextStep | application/app.go:461-509 | NextQuestion on the context; stated by `NextOutcome`, `NextReturnsCurrent`, `NextIgnoresRestart` and `NextAbsorbsCookies` |
| Protocol.NextOutcome | application/app.go:461-509 | NextQuestion sends a `NextQuestionReq` with the current secret and version 3, as a JSON body under the URL-encoded form content type; it returns a question exactly when the reply's body extracts, and then it is the extracted question, saved to the table, with the progress updated |
| Protocol.NextReturnsCurrent | application/app.go:497-499 | a returned next question is the runner's current question |
| Protocol.NextIgnoresRestart | application/app.go:489-495 | NextQuestion has no restart check: a restart body without a secret panics |
| Protocol.AskStep | application/app.go:296-376 | Ask on the context; stated by `AskOutcome` and `AskKeepsJar` |
| Protocol.AskOutcome | application/app.go:296-376 | Ask returns exactly when the reply unwraps and there is a current question, and then it stores the model's answer and key in that question; on a panic the context is unchanged |
| Protocol.RestartBranch | application/app.go:520-527 | the restart branch of Practice; stated by `RestartStartsFresh`, `RestartReplaysAnswer` and `RestartBranchGrowsJar` |
| Protocol.RestartStartsFresh | application/app.go:520-527 | a round that is not finished is left alone; a finished one restarts with a fresh `StartPracticeReq` (no secret) and, without a response, a zero completion |
| Protocol.RestartReplaysAnswer | application/app.go:520-527 | once the restarted Start returns, the same answer key is sent again with the secret Start obtained, and the branch completes exactly when that reply is the restart signal |
| Protocol.RestartBranchTaken | application/app.go:520-527 | once the restarted Start returns, the branch ends as the replayed AnswerQuestion does |
| Protocol.RoundStep | application/app.go:516-534 | one pass of the loop; stated by `RoundNeedsRestarts` and `RoundGrowsJar` |
| Protocol.SubmitStep | application/app.go:518-534 | a pass once the oracle chose: AnswerQuestion, then the rest of the pass |
| Protocol.AdvanceStep | application/app.go:522-531 | a pass once the answer was sent: the restart branch, then NextQuestion |
| Protocol.Rounds | application/app.go:514-535 | the loop over a finite sequence of passes; stated by `RoundsNeedRestarts`, `RoundsAppend` and `RoundsGrowJar` |
| Protocol.PracticeRun | application/app.go:511-535 | Practice: NextQuestion, then the loop; stated by `PracticeGrowsJar` |
| Protocol.StartAbsorbsCookies | application/app.go:142-213 | after Start the jar is the old jar with the response's allow-listed cookies merged in, or unchanged without a response |
| Protocol.AnswerAbsorbsCookies | application/app.go:378-459 | after AnswerQuestion the jar is the old jar with the response's allow-listed cookies merged in, or unchanged without a response |
| Protocol.NextAbsorbsCookies | application/app.go:461-509 | after NextQuestion the jar is the old jar with the response's allow-listed cookies merged in, or unchanged without a response |
| Protocol.NextReplyKeepsJar | application/app.go:484-509 | handling NextQuestion's reply body leaves the jar alone |
| Protocol.AskKeepsJar | application/app.go:296-376 | Ask talks to the oracle only and leaves the jar alone |
| Protocol.JarAfterGrows | utils/utils.go:154-185 | a server call never drops a cookie from the jar and replaces only allow-listed cookies |
| Protocol.RestartBranchGrowsJar | application/app.go:520-527 | the restart branch never drops a cookie and replaces only allow-listed cookies |
| Protocol.RoundGrowsJar | application/app.go:516-534 | a pass of the loop never drops a cookie and replaces only allow-listed cookies |
| Protocol.RoundsGrowJar | application/app.go:514-535 | any run of the loop never drops a cookie and replaces only allow-listed cookies |
| Protocol.PracticeGrowsJar | application/app.go:511-535 | a whole Practice run never drops a cookie and replaces only allow-listed cookies, so the session cookies it started with stay |
| Protocol.RoundNeedsRestarts | application/app.go:511-535 | a practice round can only end normally when a restart happened in it, since AnswerQuestion otherwise panics |
| Protocol.RoundsReturnStep | application/app.go:514-535 | a loop that returns normally returned from its first pass and from the rest |
| Protocol.RoundsNeedRestarts | application/app.go:511-535 | a sequence of rounds ends normally only when every round restarted |
| Protocol.RoundsAppend | application/app.go:511-535 | running rounds `xs + ys` is running `xs` and then, unless it panicked, `ys` from the state it left |
| Session.Runner.constructor | application/app.go:63-115 | a new runner has the three cookies `AWSALB`, `JSESSIONID` and `guid` (so its context's jar holds exactly those three names and no name is listed twice), an empty secret, zero completion, no question, and the URL-encoded form content type |
| Session.Runner.AbsorbCookies | application/app.go:176-177 | the jar becomes an enumeration of the merge of the old jar with the `Set-Cookie` list, read back as a map it is the old map with the allow-listed cookies filed over it, and the header string matches the jar |
| Session.Runner.SaveQuestionToDB | application/app.go:240-288 | the table becomes the upsert of the question |
| Session.Runner.TakeQuestion | application/app.go:197-210 | the extraction is the reference extraction; on success the question is current and saved |
| Session.Runner.Start | application/app.go:142-213 | the new context, including the jar read as a map, and the result are those of `StartStep`; the cookie list enumerates the merge of the old list with the response's cookies; the cookie list still names each cookie once and the header renders it |
| Session.Runner.AnswerQuestion | application/app.go:378-459 | the new context, including the jar read as a map, and the result are those of `AnswerStep`; the cookie list enumerates the merge of the old list with the response's cookies; the cookie list still names each cookie once and the header renders it |
| Session.Runner.NextQuestion | application/app.go:461-509 | the new context, including the jar read as a map, and the result are those of `NextStep`; the cookie list enumerates the merge of the old list with the response's cookies; the cookie list still names each cookie once and the header renders it |
| Session.Runner.Ask | application/app.go:296-376 | the new context and result are those of `AskStep` on the oracle's reply to the question's payload |
| Session.Runner.RestartIfRoundOver | application/app.go:520-527 | the new context, jar included, and the result are those of `RestartBranch`; the cookie list still names each cookie once and the header renders it |
| Session.Runner.Round | application/app.go:516-534 | one pass of the loop: the new context, jar included, and the result are those of `RoundStep`; the cookie list still names each cookie once and the header renders it |
| Session.Runner.Submit | application/app.go:518-534 | the rest of a pass once the oracle chose: context, jar included, and result are those of `SubmitStep`; the cookie list still names each cookie once and the header renders it |
| Session.Runner.Advance | application/app.go:522-531 | the rest of a pass once the answer was sent: context, jar included, and result are those of `AdvanceStep`; the cookie list still names each cookie once and the header renders it |
| Session.Runner.Practice | application/app.go:511-535 | the whole run: context, jar included, and result are those of `PracticeRun` on the first response and the rounds; the cookie list still names each cookie once and the header renders it |
| Session.Runner.RunRounds | application/app.go:516-534 | the loop over the rounds: context, jar included, and result are those of `Rounds`; the cookie list still names each cookie once and the header renders it |
| Client.Kept | example/client.py:355-356 | only entries whose key is important are kept, and each comes from the dictionary |
| Client.KeptExactly | example/client.py:355-356 | an entry is kept exactly when it is in the dictionary and its key is important |
| Client.KeptAppend | example/client.py:354-356 | the kept entries follow the dictionary's order: appending an entry appends it to the kept ones exactly when its key is important |
| Client.UpdatedHeader | example/client.py:353-358 | the header `updateCookies` writes; stated by `UpdatedHeaderIsJoin` and `UpdateThenParse` |
| Client.UpdatedHeaderIsJoin | example/client.py:353-358 | the new Cookie header is the `"; "`-join of `key=value` for the important entries, or empty when there are none |
| Client.AccumulateCookies | example/client.py:354-357 | the loop builds `key=value; ` for each important entry in order |
| Client.ParseCookieHeader | example/client.py:53-56 | the reference parse of the Cookie header; stated by `CookiesOfHeader`, `EmptyHeaderFails` and `UpdateThenParse` |
| Client.CookiesOfHeader | example/client.py:53-56 | parsing the header equals the reference `ParseCookieHeader` |
| Client.EmptyHeaderFails | example/client.py:53-56 | an empty Cookie header raises, because its one piece has no `=` |
| Client.UpdateThenParse | example/client.py:53-56 | when keys and values hold no `=` or `"; "`, parsing the header written by `updateCookies` gives the dictionary of its important entries |
| Client.CleanChars | example/client.py:313 | the cleaned string holds no `\r`, `\n` or `\t` |
| Client.ReplaceChain | example/client.py:313 | the three chained `replace` calls equal a single pass that drops `\r` and `\n` and turns `\t` into a space |
| Client.CleanString | example/client.py:311-315 | `clean_string`; stated by `CleanStringSpec`, `CleanStringKeeps` and `CleanStringIdempotent` |
| Client.CleanStringSpec | example/client.py:311-315 | a string is stripped and then cleaned; the result holds no `\r`, `\n` or `\t` |
| Client.CleanStringKeeps | example/client.py:311-315 | a string that is already stripped and free of `\r\n\t` is unchanged |
| Client.CleanStringIdempotent | example/client.py:311-315 | cleaning twice is the same as cleaning once; a non-string passes through |
| Client.AnswerPayload | example/client.py:146-159 | the payload `answerQuestion` posts; stated by `AnswerPayloadSpec` |
| Client.AnswerPayloadSpec | example/client.py:146-159 | the payload carries `answer["answer"]["code"]` when that lookup succeeds, and `"abc123"` otherwise |
| Client.Headers.constructor | example/client.py:12-18 | the shared Cookie header starts as `AWSALB=123; guid=123; JSESSIONID=123` |
| Client.Client.constructor | example/client.py:22 | a new client starts with an empty secret |
| Client.Client.UpdateCookies | example/client.py:353-358 | the shared header becomes the updated header of the dictionary |
| Client.Client.RequestCookies | example/client.py:53-56 | the cookies sent with a request are the parse of the shared header |
| Client.Client.AnswerQuestion | example/client.py:146-171 | the posted payload uses the old secret; the modelled prefix of the call succeeds exactly on status 200 with a `secret` in the reply, and only then is the secret replaced |

## Left out

- HTTP transport (TLS client, headers, user agent, status codes) is not modelled. Each reply is a parameter (`Response`) of the operation.
- The Postgres connection and `initDb`'s table creation are left out (application/app.go:216-238). The table is an in-memory map, so a failing `Exec` (which panics in the source) is not modelled.
- `json.Marshal` errors are not modelled. These record types always marshal.
- Base64 decoding and goquery selection are function parameters. goquery's reader error cannot happen for a string reader and is not modelled.
- `GenerateRandomTime` is left out: `rt` is a parameter, because it is random.
- The points bookkeeping after application/app.go:449 is unreachable and not modelled. The `.(int)` assertion never succeeds on a decoded JSON number, which is a `float64`. So lines 450-458 never run: the model ends that path in `Panic(PointsNotInt)`.
- The sleeps and pacing in `Practice` are left out. Its endless loop is a finite sequence of `RoundInput`s, and the model says nothing about a run that never ends.
- `New`'s configuration reading, `IsLoggedIn`, `PrettyPrint` and logging are left out. They are I/O.
- The text of the Ollama query template, `Sprintf` and quote escaping are left out. The oracle receives the structured payload.
- JSON is modelled on decoded values: text serialisation and number formatting are left out, and numbers are `real`. Unicode is not modelled beyond `char`.
- The `ErrorCount`, `PointsEarned` and `OllamaQuery` fields are not tracked.
- A cookie keeps every attribute RetrieveCookies copies (utils/utils.go:162-175), but its `Expires` time is an integer and `SameSite` a plain number.
- Parts of the Python client are left out because they are I/O or printing: `start_from_list`, `next_question`, `parseQuestion`, `askLLM`, the local progress file and `main.py`. Only their cookie-header parsing (example/client.py:53-56, 269-272) is modelled.
- Client.Client.AnswerQuestion: models the request and the secret update only. It does not count errors, print, or raise; a failure is a `Failure` result.
- Cookies.RetrieveCookies: the order of the returned jar follows Go's map iteration and is left open. The contract states only that the jar enumerates the merged map.
- Session.Runner.Start, Session.Runner.AnswerQuestion, Session.Runner.NextQuestion: the Go methods work in one body. The model moves the reply handling into helper methods (`StartOnResponse`, `AnswerOnResponse`, `NextFromReply`, …) with narrower frames. Each helper is proved equal to its step function.
