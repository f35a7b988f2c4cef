# Taliyo AI chat assistant — a Dafny model of its core logic

Taliyo AI is a chat assistant. Its browser client (Next.js) talks to a FastAPI
backend, and the backend calls Google Gemini and keeps conversations,
summaries and a knowledge base. This project models the deterministic logic
of both halves as immutable datatypes and pure functions, plus a few methods
with loops, and proves properties of them. Calls to the database, the model
SDK, the network, crypto and the clock are replaced by parameters or
function-valued oracles.

Modules follow the source files:

| module | models |
|---|---|
| `ChatPage` | the chat page `frontend/app/page.js` as a state machine: send, voice, summarize, regenerate, continue, refresh, select, delete, new chat, the local-storage cache and the persist effect |
| `ApiClient` | request bodies, upload forms and auth interceptors of `frontend/app/lib/api.js` |
| `ChatMessage` | the short-bubble test and the relative-time caption of `ChatMessage.jsx` |
| `Sidebar` | the conversation title search of `Sidebar.jsx` |
| `ChatRepo` | the in-memory branch of `chat_repo.py`: titles, ensure, add, list, get and soft delete |
| `Rag` | text chunking with overlap, chunk ids and counts of PDF ingestion, and the vector search stage of `rag_service.py` |
| `Admin` | secret masking, settings merge and hints, crawl validation and chunk loop, knowledge-base counters and document rows of `admin_routes.py` |
| `Gemini` | model scoring and selection, the quality heuristic, history trimming and conversion, moderation and the fallback order of `gemini_service.py` |
| `Archive` | the batching of `archive_service.py`, with the writer and deleter as a list of effects |
| `Memory` | user memory, memory text, transcript, summary fallback and upsert of `memory_service.py` |
| `Routes` | prompt composition and tool dispatch of `/chat` and `/chat/voice`, and the default upload texts of `routes.py` |
| `Auth` | the Bearer checks of `auth.py` |
| `Config` | comma lists, flags, integers and the model default chain of `config.py` |
| `Outcome`, `Text`, `Seqs`, `Sorting`, `Arith` | shared helpers: `Option`/`Result`, Python `strip` and JavaScript `trim`, split/join, integer parsing, filtering, a stable descending sort |

Behaviour worth noting:

- **Regenerate.** With no earlier user message, `findPrevUserPrompt` returns the current draft. So regenerate does nothing only when the prompt it finds is empty (`ChatPage.RegenerateNoop`). This includes an earlier user message whose content is empty.
- **Delete.** `onDeleteConversation` purges the cache only when the API call succeeded.
- **Config.** `config.py` does not define `AUTH_PASSCODE`, `JWT_SECRET` or `JWT_EXPIRES_MIN`, yet `auth.py` reads them. The passcode is therefore a parameter of `Auth.RequireAuth`, and token decoding is an oracle.

## Model

| member | source | states |
|---|---|---|
| Auth.TokenOf | backend/app/core/auth.py:45 | the token is the text after the first space, which is the seventh character of a Bearer header, with surrounding whitespace stripped |
| Auth.DecodeToken | backend/app/core/auth.py:27-32 | authorized exactly when the decoder accepts the token, and then with the decoded claims; otherwise 401 "Invalid token" |
| Auth.RequireAuth | backend/app/core/auth.py:35-47 | with no passcode, every request passes anonymously; with one, a missing or non-Bearer header gives "Missing credentials", and otherwise the token decides; an authorized result always comes from a Bearer header whose token decodes to its claims |
| Auth.RequireAdmin | backend/app/core/auth.py:50-56 | the Bearer check applies whatever the passcode, and the result is never anonymous |
| Auth.BearerRoundTrip | backend/app/core/auth.py:52-55 | a header built as "Bearer " plus a stripped token passes the header check and yields that token's decoding |
| Auth.GuardsAgree | backend/app/core/auth.py:35-56 | with a non-empty passcode the user guard and the admin guard give the same answer for every header |
| Config.Getenv | backend/app/core/config.py:16 | a variable that is set wins, even when empty; an unset one reads as the default |
| Config.CommaList | backend/app/core/config.py:33 | every element is non-empty, has no surrounding whitespace and holds no comma |
| Config.CommaListRoundTrip | backend/app/core/config.py:33 | joining clean items with commas and parsing the result gives back the same items |
| Config.CommaListIdempotent | backend/app/core/config.py:51 | parsing a list that the parser produced changes nothing |
| Config.FlagIgnoresCase | backend/app/core/config.py:43 | the streaming flag reads the same whatever the letter case |
| Config.DefaultFlag | backend/app/core/config.py:43 | the default "true" turns streaming on |
| Config.IntSetting | backend/app/core/config.py:40 | the value parses exactly when Python's `int` accepts it; a malformed value names the variable as the error |
| Config.Load | backend/app/core/config.py:14-57 | settings load exactly when all three integers parse, and a bad `MEMORY_MAX_MESSAGES` is the reported error |
| Config.Assemble | backend/app/core/config.py:14-57 | the string settings: lists clean, the flag parsed, and each task model either set explicitly or taken from the model it falls back to |
| Config.OneModelForAll | backend/app/core/config.py:18-27 | with no per-task override, all four task models equal the main model |
| Config.DefaultCorsOrigins | backend/app/core/config.py:29-33 | the default origin string parses to the two localhost:3000 origins |
| Config.DefaultInts | backend/app/core/config.py:40-57 | the integer defaults parse to 30, 5 and 30 |
| Config.EmptyList | backend/app/core/config.py:51 | an empty block-word variable gives an empty list |
| Config.Defaults | backend/app/core/config.py:14-57 | an empty environment loads, with the default model for every task, streaming on and the default integers |
| Admin.Mask | backend/app/api/admin_routes.py:419-424 | an absent or empty secret masks to nothing; otherwise the mask has the secret's length, is all stars up to six characters, and beyond that shows only the last four |
| Admin.MaskHidesPrefix | backend/app/api/admin_routes.py:419-424 | two secrets of equal length that share their last four characters have the same mask |
| Admin.MergeConfig | backend/app/api/admin_routes.py:464-465 | every key sent with a value overwrites; keys sent as null and keys not sent keep their stored value; no other key appears |
| Admin.MergeConfigIdempotent | backend/app/api/admin_routes.py:464-465 | sending the same update twice is sending it once |
| Admin.MergeConfigNulls | backend/app/api/admin_routes.py:465 | an update made only of nulls changes nothing |
| Admin.ConfigView | backend/app/api/admin_routes.py:434-447 | the settings view has exactly the known fields, each holding the stored value or its default |
| Admin.PutThenGetConfig | backend/app/api/admin_routes.py:427-465 | a known field saved with a value reads back as that value, and one sent as null reads back as before |
| Admin.Last4 | backend/app/api/admin_routes.py:473 | a suffix of the secret of length four, or the whole secret when shorter |
| Admin.MergeSecret | backend/app/api/admin_routes.py:470-473 | merging one secret never loses a stored slot |
| Admin.MergeSecrets | backend/app/api/admin_routes.py:467-473 | merging the listed secrets never loses a stored slot |
| Admin.MergeSecretsAt | backend/app/api/admin_routes.py:469-473 | slot by slot: a listed secret sent non-blank holds its encrypted value and last four; every other slot is unchanged |
| Admin.SecretHint | backend/app/api/admin_routes.py:449-452 | the hint is non-empty exactly when a secret is stored, and then starts with "****" |
| Admin.PutThenHint | backend/app/api/admin_routes.py:449-473 | after a secret is sent, its hint is "****" followed by the secret's last four characters, at most eight characters in all |
| Admin.UnsentSecretKeepsHint | backend/app/api/admin_routes.py:469-470 | a secret that was not sent, or was sent blank, keeps its hint |
| Admin.UrlScheme | backend/app/api/admin_routes.py:160-161 | the reported scheme holds only scheme characters and no upper-case letters |
| Admin.HttpUrlsAllowed | backend/app/api/admin_routes.py:161-162 | every `http://` and `https://` address passes the scheme check, in any letter case |
| Admin.NoColonRefused | backend/app/api/admin_routes.py:161-162 | an address without a colon has no scheme and is refused |
| Admin.CountOk | backend/app/api/admin_routes.py:206-210 | successful upserts never exceed the attempts |
| Admin.CrawlChunkLoop | backend/app/api/admin_routes.py:188-213 | the window loop counts exactly the upserts that succeeded, at most one per window |
| Admin.CrawlMatchesChunkText | backend/app/api/admin_routes.py:183-213 | the crawl cuts a page into as many windows as `_chunk_text` makes chunks of it |
| Admin.CrawlOne | backend/app/api/admin_routes.py:155-214 | a bad scheme gives "Invalid scheme" and a failed fetch gives its error; a page is crawled exactly when both pass, then under the id sha256(url) with at most one chunk per window |
| Admin.CrawlAll | backend/app/api/admin_routes.py:216-218 | one result per URL, in order |
| Admin.Crawl | backend/app/api/admin_routes.py:144-221 | refused exactly when there are no URLs or more than twenty, with the two messages; otherwise one result per URL in order |
| Admin.CountSince | backend/app/api/admin_routes.py:72-79 | the count never exceeds the number of documents |
| Admin.CountSinceMonotone | backend/app/api/admin_routes.py:57-79 | a later threshold never counts more documents |
| Admin.ComputeKbStats | backend/app/api/admin_routes.py:53-83 | no statistics give zeros; otherwise the total is the document count and today ≤ week ≤ total |
| Admin.QuarterTruncated | backend/app/api/admin_routes.py:120 | `int(x / 4)` truncates toward zero, bounded on both sides for either sign |
| Admin.DocumentRow | backend/app/api/admin_routes.py:112-122 | the name falls back to the document id and the type to "unknown"; the word count is the character count divided by four |
| Rag.WindowsFrom | backend/app/services/rag_service.py:118-126 | every window is non-empty, lies inside the text after the start, and is at most the chunk size long |
| Rag.WindowsStep | backend/app/services/rag_service.py:121-126 | each window but the last is full, and the next one starts chunk size minus overlap later |
| Rag.WindowsCover | backend/app/services/rag_service.py:119-126 | for a non-empty text the first window starts at the start and the last ends at the text's end |
| Rag.NoWindowsForEmpty | backend/app/services/rag_service.py:114-116 | empty text has no windows |
| Rag.Chunks | backend/app/services/rag_service.py:117-127 | one chunk per window, none when the text is empty, each non-empty and at most the chunk size long |
| Rag.ChunksLoop | backend/app/services/rag_service.py:117-127 | the source's while loop computes exactly the window chunks |
| Rag.ChunkText | backend/app/services/rag_service.py:113-127 | no chunks exactly when the text is blank, each chunk non-empty and at most the chunk size |
| Rag.ChunkTextLoop | backend/app/services/rag_service.py:113-127 | the loop version with stripping agrees with `ChunkText` |
| Rag.ChunksAreSlices | backend/app/services/rag_service.py:121-123 | chunk i is the text between the bounds of window i |
| Rag.ChunksReassemble | backend/app/services/rag_service.py:120-126 | dropping the overlap from every chunk after the first and joining them gives back the text |
| Rag.ChunkTextReassemble | backend/app/services/rag_service.py:113-127 | reassembling the chunks gives back the stripped text |
| Rag.ChunksOverlap | backend/app/services/rag_service.py:121-126 | adjacent chunks share exactly `overlap` characters: the end of one is the start of the next |
| Rag.FullChunks | backend/app/services/rag_service.py:121-125 | every chunk but the last is exactly the chunk size |
| Rag.ChunkIdInjective | backend/app/services/rag_service.py:163 | the id `doc:page:index` determines the page and the index |
| Rag.PageRecords | backend/app/services/rag_service.py:153-165 | one record per chunk of the page, numbered in order |
| Rag.PagesRecords | backend/app/services/rag_service.py:148-165 | every record has its page in range, its id built from page and index, and the document's id, file name and user |
| Rag.PagesRecordsHoldChunks | backend/app/services/rag_service.py:148-165 | every record's text is chunk `chunkIndex` of its page's chunks |
| Rag.PagesRecordsDistinct | backend/app/services/rag_service.py:148-165 | no two records share a page and chunk position |
| Rag.PagesRecordsCount | backend/app/services/rag_service.py:146-167 | the returned count is the total number of chunks over all pages |
| Rag.PageChunks | backend/app/services/rag_service.py:148-153 | each page is chunked on its own, a page without text as empty |
| Rag.IngestPdf | backend/app/services/rag_service.py:134-167 | an unreadable PDF is an error carrying the reader's message; otherwise the count is the number of chunks over all pages, and each record holds chunk `chunkIndex` of page `page` (numbered from 1) under the id `docId:page:chunkIndex`, with the document's id, file name and user |
| Rag.IngestIdsDistinct | backend/app/services/rag_service.py:162-164 | an ingestion's chunk ids are pairwise distinct |
| Rag.VectorSearchStage | backend/app/services/rag_service.py:96-97 | the candidate count is the larger of 200 and 40·k, so never below the limit k when k ≥ 0 |
| Gemini.Prefer | backend/app/services/gemini_service.py:59-60 | the names holding one of the fragments, in their original order |
| Gemini.Score | backend/app/services/gemini_service.py:63-79 | a score between −1 and 11 |
| Gemini.LatestAddsThree | backend/app/services/gemini_service.py:65-66 | the `-latest` variant of a name scores exactly three more |
| Gemini.AltName | backend/app/services/gemini_service.py:238 | the alternative name toggles the `-latest` suffix and always differs from the name |
| Gemini.AltNameTwice | backend/app/services/gemini_service.py:238 | toggling twice gives back the name, unless it ends in `-latest-latest` |
| Gemini.BestIndex | backend/app/services/gemini_service.py:98-99 | the first position of highest score, which a stable descending sort puts first |
| Gemini.BestOf | backend/app/services/gemini_service.py:98-99 | a candidate whose score no other candidate beats, the earliest such on a tie |
| Gemini.BestOfIsSortedHead | backend/app/services/gemini_service.py:98-99 | the best candidate is the head of the candidates stably sorted by descending score |
| Gemini.Candidates | backend/app/services/gemini_service.py:88-92 | high and medium quality prefer `pro` models, other qualities `flash` then `pro`, falling back to all names; the result is empty only when there are no names |
| Gemini.SelectModel | backend/app/services/gemini_service.py:82-99 | a configured model that is listed wins; with no names the configured model or the default; otherwise a best-scoring candidate |
| Gemini.SelectModelIsSortedHead | backend/app/services/gemini_service.py:94-99 | without a listed configured model, the choice is the head of the candidates sorted by descending score, as `sorted(...)[0]` takes it |
| Gemini.AutoQuality | backend/app/services/gemini_service.py:111-119 | high for texts over 700 characters or with a design word, else medium over 280 characters or with an analysis word, else low |
| Gemini.ChooseQuality | backend/app/services/gemini_service.py:107-119 | a non-blank requested quality is used lower-cased and stripped; otherwise the automatic one |
| Gemini.ShortPlainMessageIsLow | backend/app/services/gemini_service.py:116-119 | a message of at most 280 characters with no keyword gets low quality |
| Gemini.NonBlank | backend/app/services/gemini_service.py:124 | present exactly when the stripped value is non-empty, and then that value |
| Gemini.EnvModelFor | backend/app/services/gemini_service.py:122-132 | the task name, lower-cased and stripped, picks its configured model; other tasks have none |
| Gemini.ToGeminiHistory | backend/app/services/gemini_service.py:146-158 | one turn per message, role `user` for a user message and `model` for any other, with the content (or empty) as its only part |
| Gemini.ToGeminiHistorySuffix | backend/app/services/gemini_service.py:146-166 | converting a suffix of the history gives the same suffix of the converted history |
| Gemini.ToGeminiHistoryUsers | backend/app/services/gemini_service.py:153-157 | the conversion keeps exactly the user messages as `user` turns |
| Gemini.TrimHistoryAsWritten | backend/app/services/gemini_service.py:161-166 | a suffix of the history: for a positive limit the latest messages up to it, for 0 the whole history, for −k all but the first k |
| Gemini.TrimHistory | backend/app/services/gemini_service.py:161-166 | exactly the latest min(limit, length) messages, none for a limit of 0 or less |
| Gemini.TrimHistoryAgrees | backend/app/services/gemini_service.py:161-166 | the corrected and the written trim agree for every positive limit |
| Gemini.TrimHistoryZeroKeepsAll | backend/app/services/gemini_service.py:164-166 | with a limit of 0 the written trim keeps the whole history |
| Gemini.ModerateText | backend/app/services/gemini_service.py:169-178 | the refusal message exactly when some non-empty block word occurs in the text, ignoring case |
| Gemini.BlockedMonotone | backend/app/services/gemini_service.py:169-178 | adding block words never lets a blocked message through |
| Gemini.Untried | backend/app/services/gemini_service.py:256-258 | the names not yet tried, in order |
| Gemini.PrefList | backend/app/services/gemini_service.py:268-281 | the pool sorted stably by descending score: the same names with the same multiplicities, names of equal score in pool order; every untried `pro` or `flash` name is in it, every untried name when there is none, and otherwise only family names |
| Gemini.PrefPool | backend/app/services/gemini_service.py:268-277 | only listed, untried names; every untried `pro` or `flash` name; every untried name when none of those is left, and only family names otherwise |
| Gemini.FallbackOrderAsWritten | backend/app/services/gemini_service.py:233-281 | the alternative name first after a not-found error; never the failed model; every explicit fallback other than the model and the alternative; nothing but the alternative, explicit fallbacks and listed names; ending with the preference list that leaves out only the model and the alternative |
| Gemini.FallbackRetriesExplicit | backend/app/services/gemini_service.py:249-281 | as written, a quota error on `gemini-2.0-flash` retries `gemini-1.5-pro-latest` twice |
| Gemini.FallbackOrder | backend/app/services/gemini_service.py:233-281 | with every attempted model recorded, no model is tried twice and the failed one is not retried |
| Gemini.FallbackDistinct | backend/app/services/gemini_service.py:253-277 | the alternative, the explicit fallbacks and the preference list together with the first model are pairwise distinct |
| Gemini.TryInOrder | backend/app/services/gemini_service.py:283-288 | no answer exactly when every model fails; otherwise the first model that answers, every earlier one having failed |
| Gemini.TryInOrderDedup | backend/app/services/gemini_service.py:249-288 | with `run` a function of the model name, the order with repeats answers as the order without them, so a repeated name fails again |
| Gemini.ChatHistory | backend/app/services/gemini_service.py:206-211 | the written trim, converted: nothing for an absent or empty history; otherwise the latest turns up to a positive limit, every turn for a limit of 0, and for −k all but the first k, nothing when k reaches the length |
| Gemini.ChatHistoryKeepsLatestTurns | backend/app/services/gemini_service.py:206-208 | for a positive limit, trimming then converting is converting then keeping the latest turns |
| Gemini.AfterFailure | backend/app/services/gemini_service.py:232-291 | after the chosen model fails, the first model of the written fallback order that answers; when every one fails, a 502 whose detail starts with "Gemini errors: Primary <model>: <error>" |
| Gemini.AfterFailureListsErrors | backend/app/services/gemini_service.py:242-291 | the 502 detail holds "<name>: <error>" for every fallback model tried, after the primary error, the lines joined by a vertical-bar separator |
| Gemini.GenerateReply | backend/app/services/gemini_service.py:189-231 | a missing API key is a 500 and a blocked message a 400; otherwise the chosen model's answer, or the fallback after its failure |
| Archive.ArchiveCursor | backend/app/services/archive_service.py:18-50 | parts are the batches of the documents; dry run touches nothing; otherwise every line is written once in cursor order and, with a deleter, every id deleted |
| Archive.ClosePart | backend/app/services/archive_service.py:30-38 | closing a part advances the counter and adds that part's write and delete effects |
| Archive.BatchesSizes | backend/app/services/archive_service.py:30-43 | every part is non-empty and at most the batch size, and all but the last are full |
| Archive.BatchesCount | backend/app/services/archive_service.py:30-50 | there are ceil(total / batch size) parts |
| Archive.PartEffectsCover | backend/app/services/archive_service.py:26-48 | the writer receives every line once, in order, and the deleter every id, only when there is one |
| Archive.EffectsPrefixDeletesOnlyWritten | backend/app/services/archive_service.py:30-48 | when a raising writer or deleter stops the run part-way, what has happened so far wrote the first lines of the cursor and deleted only ids of documents whose lines were already written |
| Archive.ArchiveLocal | backend/app/services/archive_service.py:53-80 | the report counts every candidate; dry run uploads and deletes nothing; otherwise all are uploaded and deleted, in ceil(total / batch size) parts |
| Memory.Limit | backend/app/services/memory_service.py:26 | a prefix of the cursor: all of it for limit 0, otherwise as many entries as the absolute value of the limit allows |
| Memory.Selected | backend/app/services/memory_service.py:26 | the user's documents newest first, as many as the limit allows, and none left out is newer than one kept |
| Memory.Texts | backend/app/services/memory_service.py:28 | one stripped summary per document |
| Memory.Kept | backend/app/services/memory_service.py:27-30 | the non-blank summaries, in order |
| Memory.KeptAll | backend/app/services/memory_service.py:27-30 | with no blank summary, all of them are kept |
| Memory.GetUserMemory | backend/app/services/memory_service.py:20-34 | nothing for a falsy user key; otherwise the profile note or "" and the non-blank summaries of the selected documents |
| Memory.LimitBeforeBlankFilter | backend/app/services/memory_service.py:26-30 | the limit applies before blanks are dropped: a blank newest summary hides an older non-blank one |
| Memory.SectionsJoined | backend/app/services/memory_service.py:71-77 | the profile section comes first and the summaries section after a blank line |
| Memory.MemoryTextPrefix | backend/app/services/memory_service.py:71-77 | stripping the joined sections keeps their heading at the front |
| Memory.MemoryText | backend/app/services/memory_service.py:69-77 | empty exactly when there is neither profile nor summary; otherwise it starts with the first section present |
| Memory.Transcript | backend/app/services/memory_service.py:52-53 | the last `MEMORY_MAX_MESSAGES` messages as `role: content` lines |
| Memory.SummaryOf | backend/app/services/memory_service.py:54-57 | the summarizer's text, or on failure the first 800 characters of the transcript |
| Memory.Upsert | backend/app/services/memory_service.py:66 | keeps one summary per conversation: the new document replaces that conversation's one and the rest stay |
| Memory.UpsertTwice | backend/app/services/memory_service.py:66 | two upserts for one conversation leave only the second |
| Memory.UpdateConversationSummary | backend/app/services/memory_service.py:48-66 | one summary per conversation; the conversation's document holds the summary of its transcript; other conversations keep theirs |
| ChatRepo.TitleFrom | backend/app/repositories/chat_repo.py:28-32 | a title of 1 to 60 characters with no newline: the default for blank text, the stripped text with newlines as spaces, or its first 57 characters and "..." |
| ChatRepo.Cap | backend/app/repositories/chat_repo.py:30-32 | the length rule alone: default for empty, unchanged up to 60, else 57 characters and "..." |
| ChatRepo.TitleIsClean | backend/app/repositories/chat_repo.py:28-32 | a title neither starts nor ends with whitespace |
| ChatRepo.TitleIdempotent | backend/app/repositories/chat_repo.py:28-32 | a title is its own title |
| ChatRepo.CleanLineIsItsOwnTitle | backend/app/repositories/chat_repo.py:28-32 | a stripped single line of at most 60 characters is its own title |
| ChatRepo.EmptyStoreValid | backend/app/repositories/chat_repo.py:12-14 | the empty store satisfies the store invariant |
| ChatRepo.EnsureConversation | backend/app/repositories/chat_repo.py:72-83 | a known id, even a soft-deleted one, is returned unchanged; otherwise a fresh conversation with no messages is created; the invariant is kept |
| ChatRepo.AddMessage | backend/app/repositories/chat_repo.py:104-112 | fails exactly for an unknown id; otherwise appends one message at the end and stamps `updated_at` |
| ChatRepo.GetConversation | backend/app/repositories/chat_repo.py:165-175 | fails exactly for missing or deleted ids; otherwise returns the messages in order |
| ChatRepo.DeleteConversation | backend/app/repositories/chat_repo.py:190-192 | a soft delete: it stamps `deleted_at`, keeps the messages, changes no other conversation, and does nothing for an unknown id |
| ChatRepo.DeleteHides | backend/app/repositories/chat_repo.py:190-192 | after a delete the conversation can be neither read nor listed, and its messages remain |
| ChatRepo.LiveItems | backend/app/repositories/chat_repo.py:129-132 | exactly the live conversations among the ids |
| ChatRepo.ListConversations | backend/app/repositories/chat_repo.py:128-135 | a permutation of the live conversations, newest update first |
| ChatRepo.AddThenGet | backend/app/repositories/chat_repo.py:107-111 | a message added to a live conversation is the last one read back |
| ChatRepo.EnsureTwice | backend/app/repositories/chat_repo.py:72-73 | ensuring the id that was just returned changes nothing |
| Routes.Wrap | backend/app/api/routes.py:60 | the tool context ends with "Question: " and the message |
| Routes.WithMemory | backend/app/api/routes.py:52-54 | the memory preamble is added exactly when the memory text is non-empty, before the question |
| Routes.HitLinesCount | backend/app/api/routes.py:59 | one context line per hit |
| Routes.WithTool | backend/app/api/routes.py:55-71 | only `rag_search` and `web_search`, in any case, change the prompt, and only when the tool answers; the prompt always ends with the message |
| Routes.ComposePrompt | backend/app/api/routes.py:51-71 | the final prompt ends with the user's message, after "Question: " when memory was added, with the tool context when a tool answered |
| Routes.ToolNameCaseInsensitive | backend/app/api/routes.py:55 | the tool name's letter case does not matter |
| Routes.PlainPrompt | backend/app/api/routes.py:52-71 | with no memory and no known tool the prompt is the message itself |
| Routes.ReplyStep | backend/app/api/routes.py:74-79 | a failed generation stores nothing; a reply is appended as the assistant's message |
| Routes.Chat | backend/app/api/routes.py:36-92 | the conversation is ensured, the raw message is stored, and the reply is generated from the composed prompt and the history |
| Routes.ChatAddsTwo | backend/app/api/routes.py:42-79 | a successful turn in a live conversation adds exactly the user's raw message and the reply |
| Routes.ChatVoice | backend/app/api/routes.py:209-269 | the voice endpoint stores and answers as the text endpoint does |
| Routes.UploadEntry | backend/app/api/routes.py:296-300 | the user text is the stripped prompt or the default; the stored entry is the tag, the file name (or its default) and the type in parentheses, then a line with the field name and that text |
| Routes.VisionUpload | backend/app/api/routes.py:296-300 | with no prompt an image upload asks "Summarize this image" |
| Routes.FileUpload | backend/app/api/routes.py:334-338 | with no prompt a file upload asks "Summarize this document" |
| ApiClient.PutIf | frontend/app/lib/api.js:40-42 | the field is set exactly when the value is truthy |
| ApiClient.MessageBody | frontend/app/lib/api.js:38-49 | `message` always; `quality`, `conversation_id`, `user_key` and `tool` exactly when truthy, each holding its argument; `tool_args` only with a tool; no other field |
| ApiClient.MessageBodyReadBack | frontend/app/lib/api.js:38-49 | reading the fields of the body back gives the arguments, a falsy optional one read as missing |
| ApiClient.VoiceBody | frontend/app/lib/api.js:51-65 | the chat body plus each voice option exactly when given, holding the given value |
| ApiClient.VoiceWithoutOptions | frontend/app/lib/api.js:51-62 | with no voice options the voice body equals the chat body |
| ApiClient.VoiceKeepsChatFields | frontend/app/lib/api.js:60-62 | voice options never overwrite a chat field |
| ApiClient.PartIf | frontend/app/lib/api.js:85-88 | a form part exactly when the value is truthy |
| ApiClient.UploadForm | frontend/app/lib/api.js:95-101 | the file first, then one non-empty text part per truthy option, in the order prompt, quality, conversation id, user key, so no field repeats |
| ApiClient.UploadFormReadBack | frontend/app/lib/api.js:95-101 | reading each text field of the form back gives its argument, a falsy one read as missing |
| ApiClient.UploadFormFields | frontend/app/lib/api.js:95-101 | the form carries the file and exactly the truthy options |
| ApiClient.UploadsShareForm | frontend/app/lib/api.js:82-106 | the image and file endpoints get the same form, at different paths |
| ApiClient.WithAuth | frontend/app/lib/api.js:8-19 | a Bearer header is set exactly when a token is stored in a browser; other headers are unchanged; without a stored token in a browser the headers, an existing `Authorization` included, are left as they are |
| ApiClient.OnResponseError | frontend/app/lib/api.js:22-31 | the error always reaches the caller; a 401 in a browser removes the token and goes to the login page; others change nothing |
| ApiClient.InterceptorMeetsGuard | frontend/app/lib/api.js:11-14 | the header the client attaches is one the server's admin guard decodes to the stored token |
| ApiClient.LoggedOutAfter401 | frontend/app/lib/api.js:25-29 | after a 401 the next request carries no credentials |
| ChatMessage.LineCount | frontend/app/components/ChatMessage.jsx:25 | one more line than line feeds, whether or not they follow a carriage return |
| ChatMessage.ShortBounds | frontend/app/components/ChatMessage.jsx:23-27 | short exactly when the trimmed text has 1 to 32 code units and at most two lines |
| ChatMessage.Elapsed | frontend/app/components/ChatMessage.jsx:32-33 | whole seconds elapsed, floored, zero for a future timestamp |
| ChatMessage.AgoOf | frontend/app/components/ChatMessage.jsx:34-40 | seconds below a minute, minutes below an hour, hours below a day, else days, each value floored |
| ChatMessage.AgoUnitMonotone | frontend/app/components/ChatMessage.jsx:34-40 | a later moment never shows a smaller unit |
| ChatMessage.RelText | frontend/app/components/ChatMessage.jsx:29-44 | empty for a missing or zero timestamp; otherwise the value, the unit letter and " ago" |
| ChatMessage.RelTextParses | frontend/app/components/ChatMessage.jsx:34-40 | a caption reads back as its value and unit |
| ChatMessage.FutureIsNow | frontend/app/components/ChatMessage.jsx:32-34 | a future timestamp reads "0s ago" |
| Sidebar.Filtered | frontend/app/components/Sidebar.jsx:23-27 | an empty query keeps the list; otherwise exactly the items whose title contains the query ignoring case, in order |
| Sidebar.FilteredIdempotent | frontend/app/components/Sidebar.jsx:23-27 | searching the result again with the same query changes nothing |
| Sidebar.UntitledDropped | frontend/app/components/Sidebar.jsx:26 | an item without a title never survives a non-empty query |
| Sidebar.FilteredIgnoresQueryCase | frontend/app/components/Sidebar.jsx:25 | the query's letter case does not matter |
| ChatPage.Initial | frontend/app/page.js:17-19 | the page opens on the greeting alone, with no conversation and auto quality |
| ChatPage.LoadCachedMessages | frontend/app/page.js:69-71 | nothing for an empty or unknown id, otherwise the cached messages |
| ChatPage.CachedOrEmpty | frontend/app/page.js:69-71 | the cached messages when present, otherwise the empty list |
| ChatPage.Persist | frontend/app/page.js:490-496 | an open conversation's messages and id are saved to the cache; nothing else changes |
| ChatPage.Settle | frontend/app/page.js:490-496 | the effect runs only when the open conversation or its messages changed, and touches only the cache |
| ChatPage.Hydrate | frontend/app/page.js:470-484 | a non-empty cached list becomes the sidebar list |
| ChatPage.PersistThenHydrate | frontend/app/page.js:470-496 | what the persist effect saved is what a later visit reopens |
| ChatPage.NewChat | frontend/app/page.js:564-568 | the page is cleared and the cache is untouched |
| ChatPage.QualityArg | frontend/app/page.js:582 | "auto" is sent as no quality |
| ChatPage.ToolOpts | frontend/app/page.js:595 | the tool is `web_search` or `rag_search` by the toggle, with the prompt as query and k = 5 |
| ChatPage.FindPrevUserPrompt | frontend/app/page.js:143-151 | the content of the nearest user message before the index, or the draft when there is none |
| ChatPage.FindPrevUserPromptLoop | frontend/app/page.js:143-151 | the backward loop computes the same prompt |
| ChatPage.DefaultFilePrompt | frontend/app/page.js:574 | "Summarize this image" exactly for `image/` types; otherwise "Summarize this PDF" exactly when the type mentions `pdf`, else "Summarize this document" |
| ChatPage.DefaultPromptMatchesEndpoint | frontend/app/page.js:255-270 | the default instruction names an image exactly for the files the summarize action sends to the vision endpoint |
| ChatPage.ReplyCall | frontend/app/page.js:308-332 | an attachment goes to the file endpoint; otherwise voice replies to the voice endpoint and plain turns to the chat endpoint; one call |
| ChatPage.SendPrompt | frontend/app/page.js:571-574 | the trimmed draft, or the attachment's default prompt |
| ChatPage.SummarizeCall | frontend/app/page.js:255-270 | images go to the vision endpoint and other files to the file endpoint |
| ChatPage.ChosenFile | frontend/app/page.js:241-245 | the given file, else the attached one |
| ChatPage.Begin | frontend/app/page.js:570-595 | send does nothing with a blank draft and no file; otherwise one user bubble is appended before the call; regenerate and continue append nothing; the conversation is unchanged |
| ChatPage.ErrorDetail | frontend/app/page.js:605 | the detail, else the message, else "Unknown error" |
| ChatPage.Finish | frontend/app/page.js:587-609 | exactly one assistant bubble is appended: the reply or "Error: " and the detail; the id comes from a text reply always and from a file reply only when present |
| ChatPage.UserTurnAddsTwo | frontend/app/page.js:303-335 | a send, voice or summarize turn grows the messages by two, whether it succeeds or fails |
| ChatPage.RetryAddsOne | frontend/app/page.js:153-203 | regenerate and continue grow the messages by one |
| ChatPage.RegenerateNoop | frontend/app/page.js:153-155 | regenerate does nothing exactly when the prompt it would resend is empty |
| ChatPage.Refresh | frontend/app/page.js:498-517 | a non-empty list replaces list and cache; an empty or failed answer falls back to a non-empty cache; the cache is written only from a non-empty list |
| ChatPage.RefreshIdempotent | frontend/app/page.js:498-517 | refreshing twice with the same answer is refreshing once |
| ChatPage.RefreshNeverEmptiesWithCache | frontend/app/page.js:505-516 | once the cache holds a list, the sidebar is never emptied |
| ChatPage.Select | frontend/app/page.js:519-542 | success opens the conversation with its messages or the cache; failure opens the requested id with the cache or nothing |
| ChatPage.SelectOfflineRestores | frontend/app/page.js:531-541 | with the backend down, reopening shows the cached messages |
| ChatPage.Without | frontend/app/page.js:556 | the list minus the deleted conversation, in order |
| ChatPage.PurgeCache | frontend/app/page.js:552-558 | the conversation's cached messages and list entry are gone; the rest stays |
| ChatPage.CloseIfOpen | frontend/app/page.js:547-550 | the open conversation is closed when it is the deleted one |
| ChatPage.DeleteAsWritten | frontend/app/page.js:544-562 | a failed delete changes nothing; a successful one purges the cache and closes the conversation when it is the open one, leaving any other open conversation as it was |
| ChatPage.DeleteAsWrittenKeepsDeleted | frontend/app/page.js:551-558 | as written, a deleted conversation can stay in the sidebar |
| ChatPage.Delete | frontend/app/page.js:544-562 | a failed delete changes nothing; a successful one closes the conversation and purges it, and it survives only in a fresh server list |
| ChatPage.DeleteRemoves | frontend/app/page.js:544-562 | after a successful delete the conversation is gone from the sidebar unless the server still lists it |
| Text.ParsePyInt | backend/app/core/config.py:40 | Python `int` on text: a value only for non-blank text |
| Text.ParsePyIntShape | backend/app/core/config.py:40 | a value exactly when the stripped text is an optional sign and one or more ASCII digits, and then the digits' value, negated after `-` |
| Text.ParseIntToString | backend/app/core/config.py:40 | the decimal rendering of every integer, and a `+`-signed rendering of a natural number, parses back to it |
| Seqs.PySliceFrom | backend/app/services/memory_service.py:52 | Python's `s[-n:]`, including the whole list for n = 0 |
| Sorting.SortDesc | backend/app/repositories/chat_repo.py:134 | a descending permutation of the input |
| Sorting.SortDescStable | backend/app/services/gemini_service.py:281 | the sort is stable: the elements of any one key keep their input order |
| Sorting.SortedHead | backend/app/services/gemini_service.py:99 | the head of the sort is the first element of highest key |

## Left out

- MongoDB branches of the repository, memory, admin and archive code: only the in-memory fallback and pure shaping are modelled, with database reads as parameters.
- The model SDK, embeddings, PDF reading, web search, page fetching, text-to-speech, JWT and Fernet: oracles given as function parameters.
- The SSRF check on IP literals in the crawl (admin_routes.py:163-171): it is part of the fetch oracle.
- Admin.UrlScheme: simplifies `urlparse` to the scheme rules the check depends on (leading controls removed, letters then scheme characters before the first colon).
- Text.Lower: lower-cases ASCII letters only; Python and JavaScript fold all of Unicode.
- Config.IntSetting: rejects underscores and non-ASCII digits, which Python's `int` accepts.
- Loading the `.env` file (config.py:5-8): file I/O.
- Generation configs, temperature, the `score:.3f` formatting and upload percentages: floating point.
- Timestamps: one clock value `now` per request or action, given as a parameter.
- Memory.Selected: ties in `updated_at` are not ordered; the database's tie order is unspecified.
- ChatRepo.ListConversations: the order between conversations with the same `updated_at` is not stated.
- Rag.ChunkText: requires `overlap < size`, since with `overlap >= size` the source's loop stops advancing and never ends; and requires `0 < size`, since a size of 0 or less gives empty slices or, through a negative end, Python's slicing from the back, a case no caller reaches (they pass 1000 and 200).
- Gemini.TryInOrderDedup: `run` is a function of the model name, so a model repeated in the fallback order fails again as before; the real SDK may answer a retried call (after a quota error, say), which the model does not capture.
- Archive.ArchiveCursor: a writer or deleter that raises ends the run part-way, with earlier parts already written and deleted and no report returned; the model returns the effects of every part, and `Archive.EffectsPrefixDeletesOnlyWritten` states what any prefix of them guarantees.
- ChatPage.ErrorDetail: `detail` is a string or missing; FastAPI's validation errors send an array, which the page shows as "Error: [object Object]".
- Rag.IngestPdf: a failure of the embedding or of `upsert_document` part-way through (rag_service.py:164) raises after earlier chunks were stored; the model returns the records of every page and does not model that partial ingestion.
- Routes.WithTool: a `tool_args` key present with an explicit `null` is read as missing, so the default query or `k` is used where Python would pass `None` on.
- Admin.MergeSecrets: the secrets document is modelled as slots (token and last four) keyed by secret name.
- Routes.Chat: does not compose `update_conversation_summary` or telemetry, which run after the reply; the memory text and the `generate` oracle are supplied by the caller, not derived from `req.userKey` and `req.quality`.
- Gemini.AfterFailure: the `_run` SDK call, with its stripping and candidate-text joining, is the `run` oracle.
- `stream_reply`, `summarize_image`, `ask_about_file`, `list_models` and the streaming endpoint: SDK and async plumbing. Their fallback loops repeat `generate_reply`'s.
- ChatMessage.RelText: `NaN` from a non-numeric timestamp is not modelled; timestamps are integers.
- `String()` of non-string message content: content is a string.
- ChatRepo.EnsureConversation: the fresh id (a MongoDB ObjectId or uuid) is a parameter.
- Speech capture, audio playback, health polling, the loading and analyzing flags and upload progress: browser platform APIs and timers.
- ChatPage: the list refresh after a turn is a separate transition (`ChatPage.Refresh`). Overlapping gateway responses are not modelled: turns are sequential.
- Rendering, styling, admin pages, the login page and the export menu: presentation only.
- `AUTH_PASSCODE`, `JWT_SECRET` and `JWT_EXPIRES_MIN`: `config.py` does not define them; the passcode is a parameter.

## Findings

| source | as written | input that shows it | evidently intended | confidence | as-written member | corrected member |
|---|---|---|---|---|---|---|
| frontend/app/page.js:544-562 | the conversation list is refreshed before the cached list is purged, and the refresh falls back to the cached list | cache holds [c]; delete of c succeeds; listConversations returns [] or fails | the deleted conversation leaves the sidebar | not executed | ChatPage.DeleteAsWritten | ChatPage.Delete |
| backend/app/services/gemini_service.py:161-166 | `history[-max_messages:]` with `max_messages == 0` is `history[0:]` | MEMORY_MAX_MESSAGES=0 and a one-message history | no history sent for a limit of 0 | not executed | Gemini.TrimHistoryAsWritten | Gemini.TrimHistory |
| backend/app/services/gemini_service.py:249-281 | the explicit fallbacks are not added to `tried`, so `_pref_list` can list them again | model "gemini-2.0-flash", error "quota exceeded", quality "low", names ["gemini-1.5-pro-latest"]: order [pro-latest, flash-latest, pro-latest] | each model tried at most once | not executed | Gemini.FallbackOrderAsWritten | Gemini.FallbackOrder |
