# PhysicsCopilot server: a verified model of its stateful services

The Go server of PhysicsCopilot keeps a good deal of state in memory: rate limiters with bans, a
cache over a search index, the session store, the fingerprints of the last analysed frames, a
circuit breaker and the counters of open WebSocket connections. This project models those pieces
in Dafny and proves what they guarantee over whole runs.

Conventions:

- Every operation takes the time as an argument, in nanoseconds; a section under one mutex is one
  atomic step. Where several goroutines matter, the calls are a step machine and the theorems hold
  for every interleaving of its steps.
- What the source updates in place is a class whose methods are proved against functions on
  values; the theorems about runs are lemmas about these functions.
- Searched texts are sequences of Unicode characters; the text filter works on bytes. Real numbers
  stand for floating point.

| file | component |
|---|---|
| `TokenBucket`, `UserRateLimiter`, `RateBound`, `IpRateLimiter`, `BanBound`, `IpRuns` | rate limits, bans and their cleaners |
| `LruModel`, `LruCache`, `Sets`, `Options` | the cache as a value, and as a map with a doubly linked list; two small helpers |
| `Tokenizer`, `TfIdf`, `Ranking`, `VectorStore`, `RagService`, `RagQuery` | the knowledge-base index and its cached queries |
| `Slices`, `SessionSpec`, `SessionCap`, `SessionService`, `SessionRuns` | the session store, its snapshots and its rows |
| `Bits`, `PHash`, `FrameDedup`, `ConversationService` | frame fingerprints and the analysis of a frame |
| `CircuitBreaker`, `GeminiService` | the breaker, retries and the load on the AI backend |
| `WsConnections`, `FrameLimiter`, `Sanitizer` | the life of a connection, the frame limit, the text filter |

Where the code and its comments differ, the model follows the code:

- Frames are duplicates at a Hamming distance below 5, not up to 5
  (`conversation_service.go:307` against `phash.go:51`).
- The violation window does not slide: it restarts with the first violation after it has run out
  (`ratelimit.go:27` against `ratelimit.go:172`). That is why 17 violations fit into a minute
  without a ban.
- The search score is a plain sum of weights, not a cosine (`vector_store.go:106` against 123-127).
- After a cooldown the breaker lets every caller through, not one probe
  (`gemini_service.go:51-53` against 71; `EveryCallerProbes`).
- A failed session creation lowers every counter it raised except the Prometheus gauge
  (`websocket_handler.go:361` against 374-378).

Three promises hold only under a condition; the condition is exact, and an input shows where they fail.

- A cleaner goes unnoticed if and only if a bucket refills completely within the idle expiry plus one
  nanosecond (`UserRateLimiter.CleanerInvisibleIff`, `IpRuns.CleanerInvisibleIff`). Otherwise draining a
  bucket, cleaning and asking for a full burst again tells the two runs apart.
- A second pass of the text filter changes nothing if and only if the cut at 5000 bytes leaves no white
  space at the end (`IdempotentIff`). 4999 letters, a blank and a letter are changed (`SecondPassChanges`).
- Creating a session keeps memory and rows in step if and only if it is refused or its id is new, up to
  an identical row (`CreateKeepsSyncIff`). Create, delete and create with one id takes them apart
  (`ReusedIdBreaksSync`).

## Model

| member | source | states |
|---|---|---|
| TokenBucket.TakeSame | server/internal/middleware/ratelimit.go:81-96 | drawing a token keeps two tables of equal credit equal and gives the same answer in both, whether an idle entry is present or not |
| TokenBucket.SweepSame | server/internal/middleware/ratelimit.go:106-110 | deleting idle entries leaves every key's credit as it was, as long as a full refill fits into the idle time |
| TokenBucket.TakeCosts | server/internal/middleware/ratelimit.go:81-96 | a request passes exactly if the credit covers one interval, and costs that; a refused one costs nothing then or later, and no other key's credit changes |
| UserRateLimiter.UserRateLimiter.Allow | server/internal/middleware/ratelimit.go:232-250 | the empty user always passes and leaves no entry; any other draws one token of its own bucket and is seen now, and no other user's entry changes |
| UserRateLimiter.UserRateLimiter.Cleanup | server/internal/middleware/ratelimit.go:254-266 | exactly the entries last seen more than ten minutes ago are gone, the others are as they were |
| UserRateLimiter.CleanedRunsAgree | server/internal/middleware/ratelimit.go:230-266 | with and without the cleaner a run answers the same and ends with the same credits, if a refill fits into the expiry |
| UserRateLimiter.CleanerInvisibleIff | server/internal/middleware/ratelimit.go:230-266 | the cleaner changes no answer of any run if and only if burst times interval is at most the expiry plus one; otherwise a concrete run reveals it |
| UserRateLimiter.ProductionCleanerInvisible | server/internal/middleware/ratelimit.go:189-197 | with the production values no run shows a difference |
| UserRateLimiter.NewUserHasBurst | server/internal/middleware/ratelimit.go:212-250 | the n-th request at once of a new user passes exactly if n is at most the burst |
| UserRateLimiter.RefusedLeavesNoTrace | server/internal/middleware/ratelimit.go:230-266 | had a refused request not been made, every later request of any run would have had the same answer, with the cleaner too when a refill fits into the expiry |
| RateBound.RateIsBounded | server/internal/middleware/ratelimit.go:212-266 | in any stretch of any run a user passes at most burst times plus once per interval gone by, with the cleaner too when a refill fits into the expiry |
| RateBound.WaitingHelps | server/internal/middleware/ratelimit.go:232-250 | a user who has been silent for one interval is not refused |
| IpRateLimiter.IPRateLimiter.IsBanned | server/internal/middleware/ratelimit.go:151-163 | true exactly up to and including the end of the ban; an expired ban is deleted |
| IpRateLimiter.IPRateLimiter.TakeToken | server/internal/middleware/ratelimit.go:81-96 | one token of the address's bucket, which starts full and fills up to the burst |
| IpRateLimiter.IPRateLimiter.RecordViolation | server/internal/middleware/ratelimit.go:168-185 | a window opened more than a minute ago restarts, a running one counts on, and its tenth violation bans for five minutes and drops it; no other address changes |
| IpRateLimiter.IPRateLimiter.Cleanup | server/internal/middleware/ratelimit.go:105-125 | what stays: buckets seen within five minutes, windows opened within a minute, bans not yet over |
| IpRateLimiter.IPRateLimiter.Serve | server/internal/middleware/ratelimit.go:131-148 | 403 exactly if a ban is running, and then nothing changes; else through with the violations as they were, or 429 with the violation recorded, an expired ban being dropped |
| IpRateLimiter.CleanedRunsAlike | server/internal/middleware/ratelimit.go:81-185 | cleaned and never-cleaned runs of interleaved requests stay alike: same requests, same credits, same live windows and bans |
| IpRateLimiter.CleanerInvisible | server/internal/middleware/ratelimit.go:98-185 | every request of every interleaving gets the same 200, 429 or 403 with the cleaner and without |
| IpRateLimiter.ProductionCleanerInvisible | server/internal/middleware/ratelimit.go:16-31 | so it is for the production limits |
| IpRuns.CleanerInvisibleIff | server/internal/middleware/ratelimit.go:79-185 | and in general the cleaner changes no answer of any run if and only if burst times interval is at most the expiry plus one |
| BanBound.EveryBanHasTenViolations | server/internal/middleware/ratelimit.go:168-185 | in any run, each ban of an address is preceded by ten of its violations within the minute that ends with the ban |
| BanBound.EighteenViolationsBan | server/internal/middleware/ratelimit.go:168-185 | 18 violations of one address in a closed minute contain a ban, whatever else happens; names the event that bans |
| IpRuns.SeventeenWithoutBan | server/internal/middleware/ratelimit.go:129-185 | a run of requests with the production limits has 17 violations of one address recorded within a closed minute and no ban, so the bound is sharp |
| BanBound.BanHolds | server/internal/middleware/ratelimit.go:151-185 | a banned address is turned away at every moment until five minutes after the ban, cleaner or not |
| LruModel.Structure | server/internal/services/rag_service.go:66-118 | in every reachable cache of capacity at least 1 each key stands once, there are at most capacity of them, in strictly falling order of last touch |
| LruModel.HoldsLastSet | server/internal/services/rag_service.go:87-118 | each slot holds the value and the expiry of the last set of its key |
| LruModel.EvictsLeastRecent | server/internal/services/rag_service.go:102-109 | a new key at capacity evicts the least recently touched key and only that |
| LruModel.Retained | server/internal/services/rag_service.go:77-117 | a touched key stays while fewer than capacity other keys are touched |
| LruModel.NextGetHits | server/internal/services/rag_service.go:66-118 | the next get of such a key returns the last value set for it exactly if its expiry has not passed |
| LruModel.HitsAgree | server/internal/services/rag_service.go:66-118 | if every set stores the value a function gives its key, every hit of every run returns that value |
| LruCache.EntryList.Remove | server/internal/services/rag_service.go:78 | unlinking a node takes it out of the order and leaves the links of all others consistent |
| LruCache.EntryList.MoveToFront | server/internal/services/rag_service.go:83 | the node becomes the first, the order of the others is kept |
| LruCache.EntryList.PushFront | server/internal/services/rag_service.go:116 | a new node in front of all others |
| LruCache.RagLru.Get | server/internal/services/rag_service.go:67-85 | on real nodes and a map that hold the same entries: the get of the value model, result and state |
| LruCache.RagLru.Set | server/internal/services/rag_service.go:88-118 | likewise the set: update in place, or eviction of the back and insertion at the front |
| Tokenizer.Tokenize | server/internal/services/vector_store.go:187-196 | the lower-cased words of at least three bytes, in order; white space and byte lengths are those of Unicode and UTF-8 |
| Tokenizer.TokensJoin | server/internal/services/vector_store.go:187-196 | the tokens of two texts joined by a blank are the tokens of the one and then of the other |
| Tokenizer.TokensAreWords | server/internal/services/vector_store.go:187-196 | every token is one of the words of the lower-cased text, has three bytes or more and no white space |
| Tokenizer.LongRunIsToken | server/internal/services/vector_store.go:187-196 | conversely every stretch of the text between blanks that is free of blanks and has three bytes or more once lower-cased is a token, in lower case |
| TfIdf.ComputeDocTF | server/internal/services/vector_store.go:159-183 | the loop over the fields and the division by the total compute the weighted, normalised frequencies |
| TfIdf.FrequencyCounts | server/internal/services/vector_store.go:162-170 | before normalisation a token weighs 3 per occurrence in name, id or category, 2 per occurrence in the description, 1 per occurrence in a symptom |
| TfIdf.DocTFNormal | server/internal/services/vector_store.go:152-183 | the weights are positive, belong to exactly the tokens of the fields, and add up to 1 unless there are none |
| TfIdf.SharesAreProportional | server/internal/services/vector_store.go:172-182 | the normalised weights of any two tokens are to each other as their weighted counts |
| Ranking.SortedHitsRank | server/internal/services/vector_store.go:121-135 | any sort of the hits by falling score ranks each matching position exactly once and nothing else |
| Ranking.TopIsTop | server/internal/services/vector_store.go:141-149 | a prefix of a ranking has min(k, matches) distinct positions in falling score, and nothing left out beats anything in it |
| VectorStore.MemoryVectorStore.Index | server/internal/services/vector_store.go:65-104 | the documents are copied, and the weight of term t in document i is its normalised frequency there times log(1 + N / (1 + n)), n being the size of the set of documents that have t; a vector has exactly its document's tokens |
| VectorStore.RarerWeighsMore | server/internal/services/vector_store.go:82-103 | of two terms with equal frequency in a document, the one found in strictly fewer documents weighs strictly more |
| VectorStore.ScoreIsSumOfWeights | server/internal/services/vector_store.go:123-128 | the score of a one-token query is that token's weight, and the score of two texts joined by a blank is the sum of their scores |
| VectorStore.MemoryVectorStore.Search | server/internal/services/vector_store.go:108-150 | the imperative search returns the documents at the top positions of the specification |
| VectorStore.VectorPositive | server/internal/services/vector_store.go:86-103 | every weight of every vector is positive, and its terms are the tokens of the document |
| VectorStore.ScoredIffMatches | server/internal/services/vector_store.go:123-131 | a document scores above zero exactly if it shares a token with the query |
| VectorStore.SearchIsTopK | server/internal/services/vector_store.go:106-150 | min(topK, matching documents) distinct positions, all of them matching, in falling score, and no omitted document outscores a returned one |
| VectorStore.SmallerTopKIsPrefix | server/internal/services/vector_store.go:141-149 | a smaller topK gives a prefix of the results |
| VectorStore.NothingFound | server/internal/services/vector_store.go:112-115 | no documents or no tokens, no results: the early exits agree with the search |
| RagService.LoadFiles | server/internal/services/rag_service.go:225-248 | unreadable files are skipped, a malformed one fails the whole load, the others contribute their stamped entries to the whole and to their domain |
| RagService.EntriesOfFiles | server/internal/services/rag_service.go:225-248 | the entries of any two lists of files follow each other; an unreadable file has none, a parsed one has its problems in order, each with the file's domain |
| RagService.DomainHas | server/internal/services/rag_service.go:241-248 | a domain is known exactly if a parsed file has it, and its entries are exactly the stamped problems of those files |
| RagService.DomainGrows | server/internal/services/rag_service.go:241-248 | a further file of a domain adds its entries behind the earlier ones; a file of another domain adds none |
| RagService.NewRAGService | server/internal/services/rag_service.go:198-278 | fails exactly if some file is malformed; else the indexes hold what the files hold, every domain has a cache, and all caches are empty |
| RagService.RAGService.QueryKB | server/internal/services/rag_service.go:287-301 | returns what the uncached search of the whole index returns, at any time and after any queries; states what the cache becomes |
| RagService.QueryIsCached | server/internal/services/rag_service.go:287-301 | after a miss the same query hits with the results for exactly five minutes; a hit neither changes the value nor puts its expiry off |
| RagService.RAGService.QueryKBByDomain | server/internal/services/rag_service.go:334-363 | returns what the uncached search of the domain's index returns, or of the whole index for an empty or unknown domain; states what both kinds of caches become |
| RagService.RAGService.AnswersAreStamped | server/internal/services/rag_service.go:241-248 | for a loaded, non-empty domain every result is an entry of that domain and carries its stamp |
| RagQuery.QueryThrough | server/internal/services/rag_service.go:292-300 | the same query on the cache of linked nodes: the uncached answer, and a cache that stays coherent and equals the one of the value model |
| Slices.Append | server/internal/services/session_service.go:223 | Go's append, in place or into a larger copy: no slice of the same array that ends no later changes |
| Slices.AppendTrimmed | server/internal/services/session_service.go:223-229 | from the last n messages of a log to the last n of the longer log; earlier slices keep their messages |
| SessionService.SessionService.ActiveSessionCount | server/internal/services/session_service.go:106-119 | the number of sessions of the user, 0 for the empty user |
| SessionService.SessionService.CreateSession | server/internal/services/session_service.go:140-172 | refused exactly if a user is named who holds five sessions or more; else the new session, with the language defaulting to Italian, is added and its row saved, and all else stays |
| SessionService.SessionService.AddMessage | server/internal/services/session_service.go:206-234 | fails for an unknown session; else the message log grows by one and the history stays its last 20; snapshots keep their messages |
| SessionService.SessionService.BuildContextForGemini | server/internal/services/session_service.go:273-299 | the lines of the last ten messages of the whole log: the trimming never alters the context |
| SessionService.TextOfOne | server/internal/services/session_service.go:292-295 | the text of one message is its role, a colon, a blank and its content |
| SessionService.TextGrows | server/internal/services/session_service.go:292-297 | one message more is one line more below the text so far |
| SessionService.SessionService.UpdateStep | server/internal/services/session_service.go:237-251 | only the step and the activity time of that session change |
| SessionService.SessionService.SetProblemDetected | server/internal/services/session_service.go:254-267 | only the problem and the activity time of that session change |
| SessionService.SessionService.GetSessionSnapshot | server/internal/services/session_service.go:191-202 | a copy whose history is the last 20 messages and shares the live array, at a place no later append writes to |
| SessionService.SessionService.ListSessions | server/internal/services/session_service.go:123-132 | such a copy of every session |
| SessionService.SessionService.DeleteSession | server/internal/services/session_service.go:304-319 | the session leaves memory and its active row becomes completed |
| SessionService.SessionService.CleanupExpiredSessions | server/internal/services/session_service.go:326-354 | a session stays, unchanged, exactly if its last activity is at most maxAge before now; the active row of each other session expires, no other row changes, and the number of the others is returned |
| SessionService.SessionService.HydrateFromDB | server/internal/services/session_service.go:83-102 | memory gains exactly the active rows, each with its fields and an empty history; the other sessions stay as they are |
| SessionService.DBService.SaveSession | server/internal/services/db_service.go:120-143 | an upsert that keeps status, device and creation time of a row that exists |
| SessionService.DBService.DeleteSession | server/internal/services/db_service.go:211-227 | only an active row becomes completed; fails when there is none |
| SessionService.DBService.ExpireSession | server/internal/services/db_service.go:197-207 | only an active row becomes expired |
| SessionService.DBService.ListSessions | server/internal/services/db_service.go:165-192 | exactly the active rows, each once, newest first |
| SessionRuns.RunCalls | server/internal/services/session_service.go:123-354 | with a database or without, any run of calls acts on sessions, logs and rows as the run of the specification, and a snapshot taken before it has the same messages after it |
| SessionRuns.LogHasAllAdded | server/internal/services/session_service.go:206-234 | over any run a surviving session's log grows by exactly the messages added to it |
| SessionRuns.Restarted | server/internal/services/session_service.go:83-102 | a new service on the same database has exactly the active rows for sessions, with the device, problem and times of the row, no user, language or steps, and an empty log |
| SessionSpec.CreateKeepsSyncIff | server/internal/services/session_service.go:140-172 | creating a session keeps memory and active rows in step if and only if it is refused, or its id is new, or names an active row of the same device and time |
| SessionSpec.ReusedIdBreaksSync | server/internal/services/session_service.go:140-172 | create, delete and create again with one id leaves a session in memory whose row stays completed |
| SessionSpec.RunsStayInSync | server/internal/services/session_service.go:140-354 | with fresh ids, the sessions in memory are the active rows after every operation of every run, restarts included |
| SessionSpec.RestartRestores | server/internal/services/session_service.go:83-102 | a restart at any point of such a run restores the same ids, devices and creation times |
| SessionSpec.ClosedStaysClosed | server/internal/services/db_service.go:120-227 | a completed or expired row never becomes active again, whatever ids are used |
| SessionSpec.SurvivesIff | server/internal/services/session_service.go:123-354 | over any run with restarts that neither deletes the session nor uses its id again: it is there at the end exactly if every cleanup found its last activity within maxAge; else the first that did not has expired its row, at that cleanup's time |
| SessionSpec.SequentialCap | server/internal/services/session_service.go:106-172 | calls one after the other never take a named user beyond five sessions |
| SessionCap.CapUnderRaces | server/internal/services/session_service.go:140-163 | with at most k creations in flight, held plus pending sessions of a user never exceed 4 + k, in any interleaving of check, insertion and removal |
| SessionCap.CapIsAttained | server/internal/services/session_service.go:140-163 | for every k of at least 1 some interleaving reaches 4 + k |
| SessionCap.SequentialRunsAreRuns | server/internal/services/session_service.go:140-354 | a run of the session store is the interleaving in which each creation is a check followed at once by its insertion |
| Bits.SameBits | server/internal/services/phash.go:92-97 | two hashes with the same 64 bits are the same hash |
| Bits.HammingIsMetric | server/internal/services/phash.go:103-105 | the distance is 0 exactly for equal hashes, symmetric, at most 64, and obeys the triangle inequality |
| Bits.OneMoreDiffers | server/internal/services/phash.go:103-105 | and it counts: a word that differs from a in one bit more than b does is one further from a |
| PHash.ComputeDCT2D | server/internal/services/phash.go:132-158 | the four nested loops compute the scaled double cosine sum for every pair of frequencies |
| PHash.CosRowSumsToZero | server/internal/services/phash.go:148-151 | every cosine row of a frequency between 0 and 2n adds up to zero, by telescoping sines |
| PHash.Orthogonal | server/internal/services/phash.go:148-151 | two different cosine rows are orthogonal; one with itself gives n, or n / 2 away from the constant |
| PHash.BasisCoefficient | server/internal/services/phash.go:132-158 | the picture of the cosine pattern (a, b) has one coefficient, at (a, b): n for the constant, n over root two on the edges, n / 2 inside; every other is 0 |
| PHash.CoefficientLinear | server/internal/services/phash.go:132-158 | each coefficient of k p + c q is k times that of p plus c times that of q |
| PHash.TransformInvertsSeries | server/internal/services/phash.go:132-158 | in a picture put together from any cosine patterns in any amounts, the transform finds for each pattern exactly its amount: it inverts the cosine series |
| PHash.CoefficientScales | server/internal/services/phash.go:132-158 | adding a constant to every pixel changes only the constant coefficient; scaling the pixels scales the others |
| PHash.BuildHash | server/internal/services/phash.go:86-98 | bit i of the hash is set exactly if i > 0 and coefficient i lies above the mean of the other 63 |
| PHash.HashOf | server/internal/services/phash.go:76-98 | the whole computation: the hash of a pixel grid has a bit for each coefficient of its 8 by 8 block above their mean |
| PHash.MeanOfOne | server/internal/services/phash.go:85-90 | a single entry has a 63rd of it for the mean |
| PHash.MeanAdds | server/internal/services/phash.go:85-90 | and the means of two lists add up, whatever their first entries |
| PHash.PatternHash | server/internal/services/phash.go:76-98 | the hash of the cosine pattern (a, b), both below 8 and not both 0, has exactly bit 8a + b set |
| PHash.PatternsApart | server/internal/services/phash.go:76-98 | so the hashes of different patterns differ |
| PHash.BrightnessInvariant | server/internal/services/phash.go:33-98 | pixel grids p and k p + c with k > 0 have one and the same 64-bit hash |
| FrameDedup.StoredWasAnalysed | server/internal/services/conversation_service.go:77-132 | in every interleaving, once no call of a session is at work, its stored fingerprint is that of a frame whose analysis succeeded |
| FrameDedup.SkipsReplaceNothing | server/internal/services/conversation_service.go:299-341 | a fingerprint survives every stretch of a run in which its session has only duplicates and nothing is rolled back or cleaned up, and every skip in it is against that fingerprint |
| FrameDedup.SkipsStayClose | server/internal/services/conversation_service.go:306-314 | any two frames skipped against one entry are within a Hamming distance of 8 |
| FrameDedup.NoDrift | server/internal/services/conversation_service.go:299-323 | so are any two frames of a session skipped in such a stretch, however many lie between them |
| FrameDedup.SkippedIff | server/internal/services/conversation_service.go:299-323 | after a frame stored at t0 and an undisturbed stretch, a frame at t is skipped exactly if t is at most 30 minutes after t0 and the frames differ in at most four bits, or have equal digests where one lacks a perceptual hash; else it is stored |
| FrameDedup.WholeCall | server/internal/services/conversation_service.go:77-121 | the steps of one call have the effect proved for ProcessFrame on the fingerprints |
| ConversationService.ConversationService.CheckAndStoreFrameHash | server/internal/services/conversation_service.go:299-323 | true exactly if the session's fingerprint is at most 30 minutes old and differs in at most four bits, or has the same digest where either lacks a perceptual hash; the frame's fingerprint is stored exactly if not |
| ConversationService.ConversationService.ClearFrameHash | server/internal/services/conversation_service.go:337-341 | the session's fingerprint is gone, the others stay |
| ConversationService.ConversationService.CleanupSession | server/internal/services/conversation_service.go:328-332 | after the deletion of a session its fingerprint is gone, and no other |
| ConversationService.ConversationService.ProcessFrame | server/internal/services/conversation_service.go:77-164 | a duplicate changes nothing; a failure before or in the analysis rolls the fingerprint back and keeps the user's text; one after it, because the session is gone, keeps the fingerprint; a success logs the text and the answer, keeps the problem and returns the session's step |
| CircuitBreaker.CircuitBreaker.IsOpen | server/internal/services/gemini_service.go:68-72 | open exactly if the last five outcomes are failures and the last of them is less than 30 s ago |
| CircuitBreaker.CircuitBreaker.RecordSuccess | server/internal/services/gemini_service.go:75-80 | no failures counted, no deadline, and open at no time until another outcome |
| CircuitBreaker.CircuitBreaker.RecordFailure | server/internal/services/gemini_service.go:84-91 | one failure more; from the fifth in a row on the deadline is 30 s from now, else it stays |
| CircuitBreaker.OpenIff | server/internal/services/gemini_service.go:68-91 | the breaker's state, as the outcomes determine it: open exactly if the last five are failures, the last less than 30 s ago |
| GeminiService.DoWithRetry | server/internal/services/gemini_service.go:370-398 | one to three requests: on after a 429 or a status from 500 up and the whole wait of 1 s, then 2 s; ends with the body of a 2xx, at once on any other reply, or when the context ends within the wait |
| GeminiService.GeminiService.AnalyzeFrame | server/internal/services/gemini_service.go:230-259 | no request while open or without the limiter's grant, and nothing recorded then; else the number of requests, and the answer is the last reply's body exactly if that is accepted and parses, recorded as a success, any other as a failure |
| GeminiService.NothingAdmittedWhileOpen | server/internal/services/gemini_service.go:68-91 | in every interleaving no call is let through within 30 s of a fifth failure in a row, unless a success is recorded in between |
| GeminiService.AdmissibleAfterSuccess | server/internal/services/gemini_service.go:68-91 | after a recorded success a call is let through at any time until five failures have been recorded since |
| GeminiService.NothingAfterFiveFailures | server/internal/services/gemini_service.go:68-91 | and after five failures recorded without a success none is for 30 s from the last |
| GeminiService.EveryCallerProbes | server/internal/services/gemini_service.go:50-72 | once a call is let through, every later one is too until an outcome is recorded |
| GeminiService.Outage | server/internal/services/gemini_service.go:230-398 | while no answer parses, the calls of a new service leave the breaker with the log of the run of their attempts, and send the requests of its upstream calls |
| GeminiService.LoadBound | server/internal/services/gemini_service.go:68-91 | with the backend down and sequential callers, at most 5 + T/30 s calls reach it within T of the first |
| GeminiService.RequestLoadBound | server/internal/services/gemini_service.go:230-398 | and at most three times as many HTTP requests |
| GeminiService.LoadBoundIsSharp | server/internal/services/gemini_service.go:68-91 | five calls at once and one at the end of each cooldown all get through, so the bound is attained |
| WsConnections.IpConnTracker.Add | server/internal/handlers/websocket_handler.go:123-131 | one more for the address, or refused at ten |
| WsConnections.IpConnTracker.Remove | server/internal/handlers/websocket_handler.go:134-140 | one less, never below zero |
| WsConnections.WSHandler.Handle | server/internal/handlers/websocket_handler.go:321-410 | a call alone restores all three resources on each of its four exits, and which exit it takes |
| WsConnections.Conservation | server/internal/handlers/websocket_handler.go:321-410 | in every interleaving each address counts the calls between add and remove, at most ten, and the active counter and the set of connections match their holders |
| WsConnections.TurnedAwayIff | server/internal/handlers/websocket_handler.go:123-131 | in every interleaving a call is turned away exactly if ten calls from its address hold a slot at that moment |
| WsConnections.GuardNeverActs | server/internal/handlers/websocket_handler.go:137-139 | a removal always finds a positive count |
| WsConnections.AllReturned | server/internal/handlers/websocket_handler.go:374-410 | when all calls have returned, by whichever exit, every count is zero and no connection is registered |
| FrameLimiter.FrameRateLimiter.Allow | server/internal/handlers/websocket_handler.go:300-311 | restarts the window after a full second and admits up to max frames in it |
| FrameLimiter.SpanBound | server/internal/handlers/websocket_handler.go:290-311 | for any arrivals at most (n + 1) max frames are admitted in a half-open span of n seconds |
| FrameLimiter.TurnedAwayIsFull | server/internal/handlers/websocket_handler.go:300-311 | a frame is turned away only when max frames have been admitted within the second before it |
| FrameLimiter.SpanBoundIsSharp | server/internal/handlers/websocket_handler.go:290-311 | for every n and max at least 1 some arrivals attain the bound |
| Sanitizer.NoTagIff | server/internal/handlers/websocket_handler.go:30 | a text has a match of the tag pattern exactly if some < is neither closed at once nor left open for good |
| Sanitizer.StripIsNormalForm | server/internal/handlers/websocket_handler.go:35 | stripping leaves no match, changes a text exactly if it has one, and is idempotent |
| Sanitizer.StripDropsTag | server/internal/handlers/websocket_handler.go:35 | the leftmost tag goes whole and the text before it stays |
| Sanitizer.TrimIsStretch | server/internal/handlers/websocket_handler.go:36 | trimming leaves a stretch of the text without white space at either end, and outside it there is white space only |
| Sanitizer.SanitizedIsClean | server/internal/handlers/websocket_handler.go:34-41 | what comes out has no tag, is the trimmed text or its first 5000 bytes, and is refused exactly if nothing but tags and white space went in |
| Sanitizer.IdempotentIff | server/internal/handlers/websocket_handler.go:34-41 | a second pass changes nothing if and only if the trimmed text is short enough or the cut leaves no white space at the end |
| Sanitizer.SecondPassChanges | server/internal/handlers/websocket_handler.go:34-41 | a text on which a second pass changes the output of the first |

## Left out

- RAGService: its caches are values of the cache model, not objects; `RagQuery.QueryThrough` is the query on one cache of linked nodes. A map of such caches in the heap is not modelled.
- RagService.LoadFiles: file names, the glob and the environment variables are left out; the files come as what reading and parsing them yields. Probable causes and solutions of an entry are opaque to the search and are not fields of the model.
- Tokenizer.Tokenize: the lower-casing of a character is any map that leaves the blank alone. Texts are valid Unicode, as the JSON decoder delivers them.
- VectorStore.MemoryVectorStore.Search: an absent result and an empty one are the same, topK is not negative, the sort is any deterministic function that sorts by falling score, and the logarithm any function that is positive and rising above 1.
- LruModel.Structure: capacity 0 is excluded; the server uses 128. The digest of a query stands for the query, so SHA-256 is taken to be injective.
- PHash.BrightnessInvariant: exact real arithmetic; rounding is not modelled. Cosine and sine are any functions with the sum formula for the sine, the product formula for the cosine, cos 0 = 1 and the zeros of the sine; the square root of two is any positive number whose square is 2. Decoding, resizing and the luma weights come before the model.
- FrameDedup.StoredWasAnalysed: SHA-256 digests are strings; `isDuplicateFrame` and `storeFrameHash`, which nothing calls, are left out.
- ConversationService.ConversationService.ProcessFrame: a call in which other goroutines do nothing but drop the session during the analysis; interleaved calls are those of `FrameDedup`. The knowledge-base lines, the language and the overlay of the answer are not modelled, and one clock reading serves the whole call.
- SessionService.SessionService.AddMessage: session records are values of a map rather than shared pointers, so the live pointer that `GetSession` hands out is not modelled.
- SessionService.SessionService.ListSessions: a map from ids to copies stands for the list in arbitrary order.
- SessionService.DBService: queries of the table are their effects on a map of rows; errors of the database, which the service only logs, do not occur.
- SessionSpec.RunsStayInSync: sequential calls; a crash between the change in memory and its row is not modelled.
- IpRateLimiter.IPRateLimiter.TakeToken: looking the limiter up and drawing from it is one step; in the source the cleaner could come in between, if the request stalls there for more than the five minutes of the expiry. The token bucket is exact integer arithmetic in nanoseconds.
- GeminiService.GeminiService.AnalyzeFrame: the direct path; the proxy path sends a single request and is gated the same way. The rate limiter's answer and the parser's verdict are arguments.
- GeminiService.LoadBound: calls that the rate limiter cancels are let through by the breaker but reach no backend, and are not counted.
- WsConnections.Conservation: the active counter is unbounded, where the source has 32 bits; the Prometheus gauge and the counters of sessions are left out, and so are panics.
- Two clock readings within one mutex section count as one.
- HTTP routing, JSON, JWT, CORS, logging, metrics, ping and pong timing, `CloseAll`, pagination, prompt text and `toVoiceText` are not modelled.
- The connection and rate limits of `userlimit.go` repeat the shapes proved here.
