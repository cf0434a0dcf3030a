# ai_customer: answer resolution, QA endpoints and the three table services

This project models the core of the ai_customer customer-service system in Dafny.

- **Answer resolution in the QA service (`DeepSeekService`).**
  - The answer cache is keyed by the verbatim question.
  - The knowledge-base exact match comes next, then the DeepSeek chat-completion call.
  - `getAnswerWithHistory` tries, in order: a direct cache probe, a knowledge lookup, the context classifier, then either a history-aware call or the plain body.
  - Pure helpers: the message builders, response extraction, the fallback answer, and the server-sent-event frames for a knowledge hit.
- **The QA controller's two answer endpoints.** `chatMessage` parses the raw request map, applies its defaults, dispatches, finalises the answer and saves history on a best-effort basis. `ask` fetches a search context and patches the answer.
- **Three small table services.**
  - `KnowledgeService`: question answering by exact then fuzzy match; paging; create, update and delete.
  - `UserService`: register and login.
  - `QaHistoryService`: an append-only log, listed and paged per user.

## How the model is organised

- **`DeepSeekService` (`deepseek.dfy`)** is a class.
  - It holds the answer cache as a `map<string, Answer>` field.
  - A ghost log `calls` records every knowledge lookup and completion call.
  - Each method is proved equal to a pure specification function. That function returns the answer (or, for the proxied `getAnswer`, the result and the new cache) together with the trace of calls made. The lemmas about these functions state what the source promises.
  - The outside world is a `World` value passed to each call: the knowledge service, the completion endpoint, the streaming endpoint and whether the cache store is reachable.
  - Spring's proxy-based `@Cacheable` is modelled explicitly:
    - calls through the proxy (from the controller) read and fill the cache;
    - the two self-calls inside `getAnswerWithHistory` run the bare body and never touch the cache.
- **The message builders and response handling (`prompts.dfy`).**
  - The builders are methods with the loops of the source, proved against functions.
  - History items are JSON values. A non-object item, or a non-string role or content, fails the cast the way the Java code does and ends in the fallback.
  - The context classifier is in `classifier.dfy`.
- **`QaController` (`qa_controller.dfy`)** is a class over a `DeepSeekService`. Its two endpoints are proved equal to functions that also return the record passed to the history service.
- **The knowledge, user and history services** are classes over their table. Each table is a sequence of rows, and each service has an auto-increment counter for ids.
  - The SQL statements of the mappers are stated as functions over the rows.
  - The knowledge table is kept in last-write order, so `ORDER BY update_time DESC` is the reverse.
  - The user table and the history log are kept in insertion order.
- **Shared pieces.**
  - Java string behaviour in `java_lang.dfy`: `trim`, `isBlank`, `StringUtils.hasText`, `contains`, `endsWith`, `length` in UTF-16 units, `Long.valueOf`, and 32-bit `int` wrap-around.
  - The JSON value type in `json.dfy`.
  - The `(page - 1) * size` offset, `LIMIT` and `PageResult` in `paging.dfy`.

Where the specification and the code disagree, the model follows the code:

- `getAnswer` caches every answer it returns, fallback answers for failed calls included.
- The cache key is the untrimmed question, and the user id is not part of it. A cache hit therefore returns the first asker's user id.
- Concurrent misses on the same question are not collapsed into one call (`@Cacheable` has no `sync`).
- The classifier matches listed words as substrings. With history present, "Explain the full architecture of distributed consensus protocols in detail" is classed as needing context, because "architecture" contains "it" (`ContextClassifier.ListedWordNeedsContext`).

## Model

| member | source | states |
|---|---|---|
| JavaLang.TrimSpec | qa-service/src/main/java/com/example/qa/service/DeepSeekService.java:152 | `trim` removes exactly the leading and trailing characters up to U+0020 and keeps the rest as one slice |
| JavaLang.TrimIdempotent | qa-service/src/main/java/com/example/qa/service/DeepSeekService.java:407-410 | trimming a trimmed string changes nothing, so a kept history turn is stored already trimmed |
| JavaLang.BlankIff | qa-service/src/main/java/com/example/qa/controller/QaController.java:50 | `trim().isEmpty()` holds exactly when every character is at most U+0020 |
| JavaLang.ContainsIff | qa-service/src/main/java/com/example/qa/service/DeepSeekService.java:161 | the recursive `contains` holds exactly when the word occurs at some position |
| JavaLang.PlainWordSurvives | qa-service/src/main/java/com/example/qa/service/DeepSeekService.java:152-161 | a lower-case word without blanks that occurs in the question still occurs after lowercasing and trimming it |
| JavaLang.ParseLongRoundTrip | qa-service/src/main/java/com/example/qa/controller/QaController.java:57 | `Long.valueOf` of a decimal rendering gives the number back exactly when it lies in the `long` range, and fails otherwise |
| JavaLang.Utf16LengthBmp | qa-service/src/main/java/com/example/qa/service/DeepSeekService.java:168 | `length()` counts characters for text in the Basic Multilingual Plane |
| Paging.Limit | knowledge-service/src/main/java/com/example/knowledge/mapper/KnowledgeMapper.java:32-33 | `LIMIT offset, size` fails on a negative argument; otherwise it gives at most `size` consecutive rows from the offset and stops early only at the end of the rows |
| Paging.PageSpec | history-service/src/main/java/com/example/history/service/QaHistoryService.java:27-38 | a page echoes page and size, counts every row whatever the page, and holds the slice from the offset |
| Paging.OffsetExact | knowledge-service/src/main/java/com/example/knowledge/service/KnowledgeService.java:45 | without overflow the offset is `(page - 1) * size` |
| Paging.FirstPage | history-service/src/main/java/com/example/history/service/QaHistoryService.java:29 | page 1 starts at offset 0 and is the first `size` rows |
| Paging.PageBelowOneFails | knowledge-service/src/main/java/com/example/knowledge/service/KnowledgeService.java:44-46 | with no guard for `page < 1`, page 0 or below gives a negative offset that the database rejects |
| Paging.ConsecutivePages | knowledge-service/src/main/java/com/example/knowledge/service/KnowledgeService.java:44-48 | pages p and p + 1 join into the rows from `(p-1)*size` to `(p+1)*size` with nothing skipped or repeated |
| ContextClassifier.NeedsContextSpec | qa-service/src/main/java/com/example/qa/service/DeepSeekService.java:147-186 | true exactly when history is non-empty and the lowercased, trimmed question contains a listed word, or is under 10 UTF-16 units, or ends in ? or ？ and contains a question word |
| ContextClassifier.ContainsAnyIff | qa-service/src/main/java/com/example/qa/service/DeepSeekService.java:160-165 | the loop over the word list succeeds exactly when some listed word is contained |
| ContextClassifier.NoHistoryNoContext | qa-service/src/main/java/com/example/qa/service/DeepSeekService.java:148-150 | with no history the answer is false whatever the question |
| ContextClassifier.ListedWordsPlain | qa-service/src/main/java/com/example/qa/service/DeepSeekService.java:155-158 | every listed word is non-empty, lower case and free of blanks |
| ContextClassifier.ListedWordNeedsContext | qa-service/src/main/java/com/example/qa/service/DeepSeekService.java:152-165 | a question with history that contains a listed word anywhere, even inside another word, needs context |
| ChatPrompts.Messages | qa-service/src/main/java/com/example/qa/service/DeepSeekService.java:362-384 | always two messages: a system message, then the question verbatim as the user message |
| ChatPrompts.BuildMessages | qa-service/src/main/java/com/example/qa/service/DeepSeekService.java:362-384 | the loop builds exactly the two messages whose system content is the persona followed by each context line and "\n" |
| ChatPrompts.SystemPromptSpec | qa-service/src/main/java/com/example/qa/service/DeepSeekService.java:365-371 | no context gives the bare persona; otherwise persona and header, and splitting the rest at line ends gives back the context in order |
| ChatPrompts.SplitJoinLines | qa-service/src/main/java/com/example/qa/service/DeepSeekService.java:368-370 | lines joined with "\n" split back into the same lines |
| ChatPrompts.Window | qa-service/src/main/java/com/example/qa/service/DeepSeekService.java:397-399 | the window is the last min(10, n) history items in their order |
| ChatPrompts.BuildMessagesWithHistory | qa-service/src/main/java/com/example/qa/service/DeepSeekService.java:387-427 | the index loop over the window produces exactly the message list, or the cast failure |
| ChatPrompts.TurnsSnoc | qa-service/src/main/java/com/example/qa/service/DeepSeekService.java:401-414 | one more history item extends the result by exactly that item's step |
| ChatPrompts.TurnSpec | qa-service/src/main/java/com/example/qa/service/DeepSeekService.java:402-413 | an item is kept exactly when role and content are present and the content is not blank; the kept message has the role and the trimmed, non-blank content |
| ChatPrompts.TurnsKept | qa-service/src/main/java/com/example/qa/service/DeepSeekService.java:401-414 | every produced history message is the kept form of a well-formed item of the window |
| ChatPrompts.TurnsAllKept | qa-service/src/main/java/com/example/qa/service/DeepSeekService.java:401-414 | when every item is well formed, all of them are kept, in order |
| ChatPrompts.MessagesWithHistoryShape | qa-service/src/main/java/com/example/qa/service/DeepSeekService.java:387-427 | between 2 and 12 messages: the history persona first, the question last, and in between only kept items of the window |
| ChatPrompts.HistoryMessageCount | qa-service/src/main/java/com/example/qa/service/DeepSeekService.java:397-423 | with well-formed history the count is min(10, n) + 2 |
| ChatPrompts.OlderTurnsIgnored | qa-service/src/main/java/com/example/qa/service/DeepSeekService.java:397-401 | items before the last ten never affect the messages |
| ChatPrompts.TurnFailIff | qa-service/src/main/java/com/example/qa/service/DeepSeekService.java:402-405 | an item fails exactly when it cannot be cast to a string map |
| ChatPrompts.StepFailIff | qa-service/src/main/java/com/example/qa/service/DeepSeekService.java:401-414 | a step fails exactly when an earlier one failed or the item cannot be cast |
| ChatPrompts.TurnsFailIff | qa-service/src/main/java/com/example/qa/service/DeepSeekService.java:401-414 | the window fails exactly when one of its items cannot be cast |
| ChatPrompts.TurnsFailMessage | qa-service/src/main/java/com/example/qa/service/DeepSeekService.java:404-405 | the failure is always the ClassCastException |
| ChatPrompts.HistoryFailIff | qa-service/src/main/java/com/example/qa/service/DeepSeekService.java:387-427 | building fails exactly when an item inside the window cannot be cast; items outside it never matter |
| ChatPrompts.WindowFails | qa-service/src/main/java/com/example/qa/service/DeepSeekService.java:401-414 | the first uncastable item of the window decides the error |
| ChatPrompts.TurnsErrPrefix | qa-service/src/main/java/com/example/qa/service/DeepSeekService.java:401-414 | once a prefix has failed, later items do not change the error |
| ChatPrompts.ExtractAnswerSpec | qa-service/src/main/java/com/example/qa/service/DeepSeekService.java:429-454 | the result is never blank: the trimmed content of the first choice when that is not blank, otherwise one of the three apologies |
| ChatPrompts.ExtractPresent | qa-service/src/main/java/com/example/qa/service/DeepSeekService.java:441-442 | non-blank content is returned trimmed |
| ChatPrompts.ExtractApology | qa-service/src/main/java/com/example/qa/service/DeepSeekService.java:431-452 | missing, malformed or blank content gives an apology |
| ChatPrompts.ApologiesNotBlank | qa-service/src/main/java/com/example/qa/service/DeepSeekService.java:432-452 | the three fixed apologies are not blank |
| ChatPrompts.ExtractCompletionBody | qa-service/src/main/java/com/example/qa/service/DeepSeekService.java:435-442 | a well-formed completion body with non-blank text yields that text trimmed |
| ChatPrompts.UnescapeEscape | qa-service/src/main/java/com/example/qa/service/DeepSeekService.java:329 | replacing every `"` by `\"` is undone by the inverse replacement |
| ChatPrompts.EscapedQuotesGuarded | qa-service/src/main/java/com/example/qa/service/DeepSeekService.java:329 | after escaping, every `"` is preceded by a backslash |
| ChatPrompts.ContentFrameRoundTrip | qa-service/src/main/java/com/example/qa/service/DeepSeekService.java:329 | stripping the `data: {"content": "` prefix and the `"}` suffix and undoing the quote escaping (the exact inverse of the replacement, not a JSON reading) gives back the answer |
| ChatPrompts.ContentFrameInjective | qa-service/src/main/java/com/example/qa/service/DeepSeekService.java:329 | two answers with the same content frame are equal |
| ChatPrompts.EscapeQuoteFree | qa-service/src/main/java/com/example/qa/service/DeepSeekService.java:329 | an answer without double quotes goes into the frame unchanged |
| ChatPrompts.KnowledgeFrames | qa-service/src/main/java/com/example/qa/service/DeepSeekService.java:326-331 | exactly two frames: `data: {"content": "` + the answer with every `"` replaced by `\"` + `"}` and two line breaks, then `data: [DONE]`; the first reads back as the answer |
| DeepSeek.FallbackSpec | qa-service/src/main/java/com/example/qa/service/DeepSeekService.java:456-462 | the fallback keeps question and user id, quotes both the question and the error message, and is not blank |
| DeepSeek.FromKnowledgeSpec | qa-service/src/main/java/com/example/qa/service/DeepSeekService.java:189-210 | a knowledge answer is used exactly when the lookup returns an entry with a non-blank answer; it carries the question and the user id |
| DeepSeek.ModelAnswerSpec | qa-service/src/main/java/com/example/qa/service/DeepSeekService.java:213-265 | one completion call; a response gives the extracted text; a failure gives the fallback with its message (status and body, the wrapped-exception text, or the exception's own message) |
| DeepSeek.ComputeSpec | qa-service/src/main/java/com/example/qa/service/DeepSeekService.java:53-71 | a knowledge hit is returned without a model call; otherwise the model is called with the two built messages; the answer is never blank |
| DeepSeek.ConversationSpec | qa-service/src/main/java/com/example/qa/service/DeepSeekService.java:268-320 | history that cannot be built gives the fallback with no call; otherwise one call carrying the history messages |
| DeepSeek.ProxiedSpec | qa-service/src/main/java/com/example/qa/service/DeepSeekService.java:52-72 | an unreachable cache fails with no call; a hit on the verbatim question returns the stored answer with no call; a miss computes, returns and stores the answer under that key; no other entry changes |
| DeepSeek.RepeatQuestionHitsCache | qa-service/src/main/java/com/example/qa/service/DeepSeekService.java:52 | asking the same question again, from any user and with any context, returns the first result and makes no call |
| DeepSeek.FailureIsCached | qa-service/src/main/java/com/example/qa/service/DeepSeekService.java:52-72 | a failed completion's fallback answer is stored in the cache |
| DeepSeek.PaddedQuestionMisses | qa-service/src/main/java/com/example/qa/service/DeepSeekService.java:52 | the key is not trimmed: a question with a leading space misses and is computed on its own |
| DeepSeek.ProxiedKeepsCacheValid | qa-service/src/main/java/com/example/qa/service/DeepSeekService.java:52-72 | every cached answer stays filed under its own question with a non-blank text |
| DeepSeek.DeepSeekService.GetAnswer | qa-service/src/main/java/com/example/qa/service/DeepSeekService.java:52-72 | the proxied call's result, new cache and calls are exactly those of the proxied specification |
| DeepSeek.DeepSeekService.TryGetCachedAnswer | qa-service/src/main/java/com/example/qa/service/DeepSeekService.java:127-144 | returns the stored answer for the verbatim question, and a miss when the cache is unreachable; reads the cache only |
| DeepSeek.DeepSeekService.KnowledgeAnswer | qa-service/src/main/java/com/example/qa/service/DeepSeekService.java:189-210 | one knowledge lookup, and the answer it gives under the rule above |
| DeepSeek.DeepSeekService.Complete | qa-service/src/main/java/com/example/qa/service/DeepSeekService.java:213-265 | one completion call; its answer or its failure message |
| DeepSeek.DeepSeekService.ComputeAnswer | qa-service/src/main/java/com/example/qa/service/DeepSeekService.java:53-71 | the body of getAnswer without the cache, with its calls |
| DeepSeek.DeepSeekService.ConverseAnswer | qa-service/src/main/java/com/example/qa/service/DeepSeekService.java:268-320 | the history-aware completion, with its calls |
| DeepSeek.DeepSeekService.GetAnswerWithHistory | qa-service/src/main/java/com/example/qa/service/DeepSeekService.java:75-113 | the answer and calls of the history specification; the cache is left unchanged |
| DeepSeek.DeepSeekService.EscalateAnswer | qa-service/src/main/java/com/example/qa/service/DeepSeekService.java:101-107 | after both misses: the history-aware call when the classifier says so, else the body of getAnswer |
| DeepSeek.NoHistoryBypassesCache | qa-service/src/main/java/com/example/qa/service/DeepSeekService.java:80-83 | with no history the result is the body of getAnswer and does not depend on the cache (a self-call) |
| DeepSeek.WithHistoryOrder | qa-service/src/main/java/com/example/qa/service/DeepSeekService.java:85-107 | cache probe first with no call; then a knowledge hit with one lookup; then the history call when context is needed; otherwise getAnswer's body runs, repeating the knowledge lookup |
| DeepSeek.BadHistoryFallsBack | qa-service/src/main/java/com/example/qa/service/DeepSeekService.java:268-320 | an uncastable item inside the window makes the answer the fallback for the ClassCastException, after only the knowledge lookup |
| DeepSeek.WithHistoryAnswers | qa-service/src/main/java/com/example/qa/service/DeepSeekService.java:75-113 | over a valid cache the answer always answers the question and is not blank |
| DeepSeek.DeepSeekService.GetAnswerStream | qa-service/src/main/java/com/example/qa/service/DeepSeekService.java:323-359 | the frames and calls of the stream specification; the cache is untouched |
| DeepSeek.StreamSpec | qa-service/src/main/java/com/example/qa/service/DeepSeekService.java:323-359 | a knowledge hit gives exactly the content frame of the stored answer and the done frame, with no model call; otherwise a streaming request without temperature, whose chunks are passed on and followed by the error frame exactly when the stream failed |
| QaApi.QuestionOfSpec | qa-service/src/main/java/com/example/qa/controller/QaController.java:50-53 | a null or blank question becomes "你好"; any other is kept verbatim; the result is never blank |
| QaApi.UserIdSpec | qa-service/src/main/java/com/example/qa/controller/QaController.java:55-61 | a number in the `long` range, or a string of an optional sign and ASCII decimal digits whose value is in that range, gives that id; anything else gives 1 |
| QaApi.UserIdTextRoundTrip | qa-service/src/main/java/com/example/qa/controller/QaController.java:57 | an id sent as a number or as its decimal text is read back unchanged |
| QaApi.ParseChatSpec | qa-service/src/main/java/com/example/qa/controller/QaController.java:38-61 | the casts of question and history fail exactly on a non-string question or a non-list history; otherwise the question is defaulted and the history is empty exactly when absent or empty |
| QaApi.ChatFailureSpec | qa-service/src/main/java/com/example/qa/controller/QaController.java:119-127 | `success` is false and `error` is set exactly when the request cannot be read; then the fixed message, with no call, no save and the cache unchanged |
| QaApi.ChatDispatch | qa-service/src/main/java/com/example/qa/controller/QaController.java:70-76 | empty history goes through the proxied getAnswer with empty context; any other history goes to getAnswerWithHistory, which leaves the cache alone |
| QaApi.ChatAnswers | qa-service/src/main/java/com/example/qa/controller/QaController.java:65-117 | a readable request always succeeds. A service exception gives the busy message, which quotes the question, and saves nothing. Otherwise the message is the service's non-blank answer, saved with the question |
| QaApi.BusyQuotesQuestion | qa-service/src/main/java/com/example/qa/controller/QaController.java:110 | the busy message contains the question |
| QaApi.QaController.ChatMessage | qa-service/src/main/java/com/example/qa/controller/QaController.java:32-128 | the response, saved record, cache and calls are exactly those of the chat specification |
| QaApi.AskAnswers | qa-service/src/main/java/com/example/qa/controller/QaController.java:132-182 | always code 200 "Success" with the asked content as question and a non-blank answer; the service's answer is returned and saved, and a service exception gives the fixed fallback and no save |
| QaApi.AskWithoutSearchResult | qa-service/src/main/java/com/example/qa/controller/QaController.java:136-150 | a failed or data-less search means the model is asked with an empty context |
| QaApi.QaController.Ask | qa-service/src/main/java/com/example/qa/controller/QaController.java:132-182 | the response, saved record, cache and calls are exactly those of the ask specification |
| KnowledgeBase.ExactSpec | knowledge-service/src/main/java/com/example/knowledge/mapper/KnowledgeMapper.java:45-46 | the exact match exists exactly when some row holds the question verbatim; it is such a row with the lowest id |
| KnowledgeBase.FuzzySpec | knowledge-service/src/main/java/com/example/knowledge/mapper/KnowledgeMapper.java:49-51 | the fuzzy match exists exactly when some question contains the query; no such row has a shorter question; among equally short ones the lowest id is taken (a modelling choice, see "Left out") |
| KnowledgeBase.ExactIsFuzzy | knowledge-service/src/main/java/com/example/knowledge/service/KnowledgeService.java:58-67 | whenever the exact lookup matches, the fuzzy one would too, so the exact match takes precedence |
| KnowledgeBase.AskQuestionSpec | knowledge-service/src/main/java/com/example/knowledge/service/KnowledgeService.java:52-71 | no text gives "请输入您的问题。"; an exact match's answer wins; otherwise the fuzzy match's answer; the not-found reply comes when no stored question contains the query, and otherwise the reply is the answer of a row containing it |
| KnowledgeBase.StoredQuestionAnswered | knowledge-service/src/main/java/com/example/knowledge/service/KnowledgeService.java:58-61 | asking a stored question gives the answer of a row holding it, with an id no higher |
| KnowledgeBase.FindByExactQuestionSpec | knowledge-service/src/main/java/com/example/knowledge/service/KnowledgeService.java:78-92 | a row comes back exactly when the query succeeds and the exact match has a non-null answer |
| KnowledgeBase.FindById | knowledge-service/src/main/java/com/example/knowledge/service/KnowledgeService.java:35-37 | a row found by id is in the table and has that id |
| KnowledgeBase.FindByIdFound | knowledge-service/src/main/java/com/example/knowledge/mapper/KnowledgeMapper.java:25-26 | the lookup finds a row exactly when the id is present |
| KnowledgeBase.Newest | knowledge-service/src/main/java/com/example/knowledge/service/KnowledgeService.java:39-41 | the listing holds every row, the most recently written first |
| KnowledgeBase.GetPageSpec | knowledge-service/src/main/java/com/example/knowledge/service/KnowledgeService.java:44-49 | a page echoes page and size, its total is the whole row count whatever the page, and it holds at most `size` rows of the newest-first listing from the offset |
| KnowledgeBase.SearchSpec | knowledge-service/src/main/java/com/example/knowledge/mapper/KnowledgeMapper.java:40-42 | the search keeps exactly the rows whose question or answer contains the query |
| KnowledgeBase.SearchNewestFirst | knowledge-service/src/main/java/com/example/knowledge/mapper/KnowledgeMapper.java:40-42 | the result is the newest-first listing with the non-matching rows dropped (`ORDER BY update_time DESC`); a row written last heads the result when it matches and changes nothing otherwise |
| KnowledgeBase.KnowledgeService.CreateKnowledge | knowledge-service/src/main/java/com/example/knowledge/service/KnowledgeService.java:21-24 | the given object is returned with a fresh generated id and appended as the most recent row; the table invariant holds |
| KnowledgeBase.InsertSpec | knowledge-service/src/main/java/com/example/knowledge/mapper/KnowledgeMapper.java:13-16 | after an insert with a fresh id, that id finds the new row, every other id finds what it found before, and the new row heads the listing |
| KnowledgeBase.KnowledgeService.UpdateKnowledge | knowledge-service/src/main/java/com/example/knowledge/service/KnowledgeService.java:26-29 | returns its argument; the table becomes the updated table; the invariant holds |
| KnowledgeBase.UpdatedSpec | knowledge-service/src/main/java/com/example/knowledge/mapper/KnowledgeMapper.java:18-20 | only the row with that id changes: it takes the new question and answer and heads the listing; every other id finds what it did; the row count is unchanged; an absent id changes nothing |
| KnowledgeBase.KnowledgeService.DeleteKnowledge | knowledge-service/src/main/java/com/example/knowledge/service/KnowledgeService.java:31-33 | the table loses the rows with that id and nothing else; the invariant holds |
| KnowledgeBase.DeleteSpec | knowledge-service/src/main/java/com/example/knowledge/mapper/KnowledgeMapper.java:22-23 | after delete that id finds nothing, every other id finds what it did, and the table shrinks by one row exactly when the id existed |
| KnowledgeBase.WithoutMembers | knowledge-service/src/main/java/com/example/knowledge/mapper/KnowledgeMapper.java:22-23 | delete keeps exactly the rows with another id |
| Accounts.UserService.Register | account-service/src/main/java/com/example/account/service/UserService.java:16-32 | a taken username fails with "Username already exists" and leaves the store unchanged; otherwise the user with the given fields, `isAdmin` false and the next id is appended and returned |
| Accounts.RegisterThenLogin | account-service/src/main/java/com/example/account/service/UserService.java:22-40 | after a successful register, logging in with the registered password returns the new user, and its id finds it |
| Accounts.InsertSpec | account-service/src/main/java/com/example/account/service/UserService.java:30-31 | the insert keeps usernames and ids unique, makes the user findable by both, and changes no other lookup |
| Accounts.LoginSpec | account-service/src/main/java/com/example/account/service/UserService.java:34-40 | login succeeds exactly when a user with that username stores the given password, and then returns that user |
| Accounts.LoginErrorUniform | account-service/src/main/java/com/example/account/service/UserService.java:36-37 | an unknown username and a wrong password give the same "Invalid username or password" |
| Accounts.UserService.Login | account-service/src/main/java/com/example/account/service/UserService.java:34-40 | reads the store without changing it; a success returns a stored user with that username and password |
| Accounts.UserService.GetUserById | account-service/src/main/java/com/example/account/service/UserService.java:42-44 | reads the store without changing it; the user with that id, or none when no user has it |
| Accounts.FindByUsername | account-service/src/main/java/com/example/account/mapper/UserMapper.java:15-16 | a found user has that username; no result means no stored user has it |
| QaHistoryLog.QaHistoryService.SaveHistory | history-service/src/main/java/com/example/history/service/QaHistoryService.java:18-20 | appends exactly one record, the given one with the next id, and leaves the earlier records as they were |
| QaHistoryLog.ForUserMembers | history-service/src/main/java/com/example/history/service/QaHistoryService.java:22-24 | the listing holds exactly the user's records |
| QaHistoryLog.ForUserNewestFirst | history-service/src/main/java/com/example/history/mapper/QaHistoryMapper.java:17-18 | the listing is newest first: its ids strictly decrease |
| QaHistoryLog.SaveThenList | history-service/src/main/java/com/example/history/service/QaHistoryService.java:18-24 | a saved record heads its user's listing; every other user's listing is unchanged |
| QaHistoryLog.HistoryPageSpec | history-service/src/main/java/com/example/history/service/QaHistoryService.java:27-38 | a page echoes page and size, its total is the user's full record count whatever the page, and it holds at most `size` records, each the user's |
| QaHistoryLog.SaveThenFind | history-service/src/main/java/com/example/history/service/QaHistoryService.java:40-42 | a saved record is found by its id, and every other lookup is as before |
| QaHistoryLog.FindById | history-service/src/main/java/com/example/history/mapper/QaHistoryMapper.java:20-21 | a found record has that id; none means no record has it |

## Left out

- HTTP and Spring plumbing:
  - the WebClient call: headers, timeouts, `onStatus` and `block()`;
  - `testConnection`, the `init` logging, and all logging;
  - Feign, the thin controllers of the three table services, and the `ApiResponse` and `Result` envelopes other than `ApiResponse.success`.
  - The completion endpoint, the knowledge lookup and the stream are outside inputs in a `World` value.
- Streaming transport: the Flux of `getAnswerStream` is a finished list of chunks plus a failure flag. `askStream` is not modelled, because it is reactive subscription with no answer logic of its own.
- Temperature: `temperature` 0.7 is a Dafny `real`. The model id and `max_tokens` are constants of the request. Floating point is not modelled.
- Redis: serialization of cached answers and eviction are not modelled. A cache store that cannot be reached is a flag. It makes the proxied `getAnswer` throw and makes `tryGetCachedAnswer` miss.
- DeepSeek.DeepSeekService.GetAnswerWithHistory and QaApi.QaController.ChatMessage: `chatMessage` sets the question and answer of the returned Answer before saving it. When that Answer is the cached object itself, the cached copy changes too. The model returns the patched record to the history service as a value and leaves the cache entry as it was, so this aliasing is not captured.
- QaApi.QaController.Ask:
  - a null `content` is not modelled;
  - the model takes the search reply as a parameter and does not model the mismatch between the client's search route and the knowledge controller's route. In deployment that mismatch leaves the context empty.
- Lowercasing in the classifier is ASCII-only, while Java's `toLowerCase` also folds non-ASCII letters. No listed word contains such a letter, so word matching is unaffected. The length rule is affected: Java lowercases `İ` (U+0130) to two UTF-16 units, so a question of 9 units holding it can reach 10 units and no longer count as short. The model keeps the length of the question as written.
- UserIdSpec (QaApi.UserIdSpec): a string user id is parsed with ASCII digits only. `Long.valueOf` also accepts every other Unicode decimal digit through `Character.digit`, so an id written in, say, fullwidth digits gives that number in Java and 1 in the model.
- The ClassCastException message is the fixed text `java.lang.ClassCastException`. In Java the fallback quotes `getMessage()` of the real exception, which names the classes involved; the model does not carry that text.
- Content frames of `getAnswerStream` escape double quotes only. An answer holding a backslash, a line break or another control character gives a frame that a JSON or event-stream reader misreads (a trailing backslash escapes the closing quote; a line break ends the `data:` line). Only the inverse of the quote replacement is modelled, not such a reader.
- SQL collation: under the default collation MySQL compares `question = ?`, `username = ?` and `LIKE` case-insensitively, and `%` or `_` in the query act as wildcards. The model compares exactly and matches literally, as a binary collation would. So in the model registering `alice` succeeds while `Alice` exists, where MySQL finds `Alice` and refuses; and a login as `alice` does not find the row `Alice`.
- Query order:
  - a query with `LIMIT 1` and no `ORDER BY` is modelled as taking the row with the lowest id;
  - ties in `update_time` or `create_time` within one second are not modelled (the write order decides);
  - `create_time` is not modelled as a column.
- FuzzySpec (KnowledgeBase.FuzzySpec): the fuzzy query orders only by `CHAR_LENGTH(question)`, so MySQL may return any of several equally long matching questions. The model breaks that tie by the lowest id; FuzzySpec's clause on the id states the model's choice, not a promise of the query.
- Database failures: these are modelled only where the code catches them (`findByExactQuestion`). Elsewhere an exception reaches the web layer, which is not modelled.
- The check-then-insert of `register` is not atomic. Two concurrent registrations of one username are not modelled, because the model is sequential.
- Passwords: they are stored and compared as plain text, exactly as the code does. A user stored without a password makes `login` throw a NullPointerException, which is modelled as an error value.
