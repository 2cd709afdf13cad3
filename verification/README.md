# Verification of the image gateway

A Dafny 4.11 model of the parts of the gateway whose correctness rests on more than one function,
with proofs. `dafny verify dfyconfig.toml` checks everything.

The project covers four independent clusters.

**Task lifecycle of the async gateway** (`TaskStore`, `Forwarder`, `Recovery`, `Lifecycle*`,
`MemoryQueue`, `Repository`, `RecoveryScan`, `ScanRefinement`). Two database tables are durable; the
queue, the workers, the submit handlers, the write callbacks and the recovery scan belong to one
process and vanish with it. `Lifecycle` is a state machine in which every SQL statement and every
queue operation is one step, any repository call may fail before or after it takes effect, and a
crash may come at any moment. A forwarded request passes through the transport in steps of its own:
an attempt to write it begins and ends, whole or broken, perhaps repeatedly; after the first one the
write hook sets the worker's flag and then stores the dispatch mark. The theorems speak of all runs,
with any number of crashes and restarts: `LifecycleTheorems` on what rows keep, `LifecycleVerdicts`
and `LifecycleHistory` on which verdict a task gets and where it comes from, `LifecyclePlaces` and
`LifecycleHeld` on where a task is, `LifecycleWritten` on what a verdict says about the request,
`LifecycleResend` on when a request can be sent again. `LifecycleReach` and `LifecycleWitnesses`
build concrete runs. The recovery scan, the queue and the repository calls it makes are also written
as the imperative code they are, the scan is proved to partition the rows its query returned, and
`ScanRefinement` proves every outcome of it to be a run of the state machine.

**Request bodies and blobs of the Rust proxy** (`Bytes`, `Decimal`, `Json`, `JsonText`,
`JsonReader`, `JsonPointer`, `StripOutput`, `RequestScan`, `ScanOrder`, `Streams`, `Base64`,
`Base64Table`, `Base64Encoder`, `Base64Upload`, `Tally`, `BlobBudget`, `BlobRuntime`,
`BlobRefinement`, `RequestEncode`, `RequestMaterialize`, `RequestRewrite`, `RewriteMeaning`). Text
is held as bytes. The streaming forms (the carry-buffer encoder, the body writer, the spilling
store, the lazy decoder) are proved against whole-value specifications, the lock-free budget against
whole calls, and the pipeline as a whole against a direct rewrite of the JSON tree. The
specifications themselves are tied to what is outside the program: the base64 table, the grammar of
JSON (a reader written from it reads every text back), and the names and schemes a request is
searched for. Ghost fault counters on the writer, the reader and the runtime let the contracts say
that nothing but a failing medium makes an operation fail.

**Caches and single flight** (`LruSpec`, `MemoryCaches`, `BackgroundFetch`). The Go and the Rust
memory cache meet one specification, and an answer is what was stored last; the Go background
fetcher is a state machine over the atomic steps of callers and goroutines.

**Rate limiter** (`RateLimit`). Exact arithmetic over every window of every run of the limiter on
its shared map of buckets. The window bound assumes nothing about the order of the clock readings.

## Findings

- *A request can be sent twice.* `async-gateway/internal/worker/forwarder.go:114` ignores a failure
  to store the dispatch mark. If storing it fails, a crash and a recovery scan later another forward
  sends the request again (`LostMarkCanMeanTwoWrites` gives the run). Nor does a stored mark prevent
  it: inside one forward the transport can write the request again, after a redirect that keeps the
  body or a retry, and the hook at `forwarder.go:110-118` runs only once (`OneForwardCanSendTwice`).
  Exactly when: a request can be sent once more if and only if an attempt to write it is under way,
  its forward has not returned, or its row is neither finished nor dispatched
  (`CanBeSentAgainExactly`). Forwards that tried to write it exceed those that lost their mark by at
  most one (`AtMostOneMarkedWrite`), and once a mark is stored no forward of that task ever starts
  again (`NoForwardAfterDispatch`).
- *An uncertain task's request need not have been sent.* The hook at
  `async-gateway/internal/worker/forwarder.go:111-116` does not look at the write's error, so a write
  that failed also stores the mark and leads to `uncertain` (`UncertainCanMeanUnsent` gives the run).
  In every run an attempt to write it has ended, and the request was sent exactly if not all of its
  attempts broke (`UncertainMeansAttempted`); if no write fails, it was (`UncertainMeansSent`).
- *A dispatched task can end as failed instead of uncertain.* The scan
  (`async-gateway/internal/recovery/scanner.go:86-92`) tests for a missing payload before it tests for
  the dispatch mark, so a running task that was dispatched and whose payload has expired ends `failed`
  (`DispatchedCanEndFailed` gives the run). In every run the scan gives that verdict exactly to stale
  running rows that were dispatched and whose payload is gone (`PayloadMissingOnlyIfDispatched`).
- *Stripping `output` can reorder an object.* With the `preserve_order` feature, removing a member
  (`rust-sync-proxy/src/request_encode.rs:233-249`) puts the last member in its place
  (`StripCanReorder` gives the object). Order is kept exactly when the member is missing or among the
  last two of its object (`RemovalKeepsOrderExactly`, for whole requests `StripKeepsOrderExactly`),
  and order is all that changes (`RemoveExactly`).
- *Decoding base64 in pieces accepts more than decoding it whole*
  (`rust-sync-proxy/src/upload.rs:777-791`): a padded full piece followed by more text is accepted in
  pieces and rejected whole (`PiecesCanAcceptMore` gives the text). The two agree exactly when no piece
  but the last ends in padding (`PiecesAgreeExactly`); for every text the whole decoder accepts, the
  reader delivers the same bytes (`PollAll`).
- *A failed request keeps its images in memory.* When a fetch fails
  (`rust-sync-proxy/src/request_materialize.rs:100-105`), the images already stored are not removed
  and nobody has their handles; the server shares one runtime among all requests
  (`rust-sync-proxy/src/http/router.rs:898-917`), so their bytes stay counted
  (`FailureKeepsBytes` gives the case). The count is back where it was exactly if none of the blobs
  made so far keeps bytes in memory (`MaterializeRequestImages`, `HotExactly`).

## Model

| member | source | states |
|---|---|---|
| `Forwarder.UncertainExactlyWhenAnswerLost` | `async-gateway/internal/worker/forwarder.go:84-178` | A task is left uncertain exactly when the write hook had run and the answer was cut off (call failed, body failed, or JSON stopped short), and it succeeds exactly when a 200 answer carried a summary. |
| `LifecycleVerdicts.ForwardVerdict` | `async-gateway/internal/worker/pool.go:175-200` | When the forward of an unfinished task returns and its finish statement works, the row ends succeeded with the summary exactly for a 200 answer with one, uncertain exactly if the hook had run and the answer broke off, and otherwise failed with the code and message of the answer, all spelled out; no other row changes. |
| `LifecycleHistory.VerdictsAreAnswers` | `async-gateway/internal/worker/pool.go:153-200` | In every run a succeeded row holds the summary of a 200 answer that a forward of that task got, a failed one the code and message of such an answer unless the queue was full or the payload expired, an uncertain one had an answer break off or was dispatched; requests and payloads are those submitted under the id. |
| `LifecycleVerdicts.BeginMarks` | `async-gateway/internal/store/repository.go:330-333` | Beginning a forward makes the row running, with its worker and a heartbeat. |
| `LifecycleVerdicts.DispatchMarks` | `async-gateway/internal/store/repository.go:335-337` | Storing the mark sets the dispatch time and nothing else. |
| `LifecycleVerdicts.SubmissionMarks` | `async-gateway/internal/httpapi/submit_handler.go:80-127` | A submission leaves an accepted row with its request and nothing else, and its payload. |
| `LifecycleVerdicts.ForcedVerdict` | `async-gateway/internal/app/lifecycle.go:79-97` | The forced shutdown ends exactly the running, dispatched, unfinished tasks, as uncertain with its own code. |
| `LifecycleVerdicts.DeletedOnlyWhenExpired` | `async-gateway/internal/store/repository.go:254-285` | No step of anyone removes a row or a payload but the cleaner's: a row once its verdict is older than the limit, a payload once it expired and its task is finished or dispatched. |
| `LifecycleSteps.StepInv` | `async-gateway/internal/store/repository.go:57-130` | Every step of every actor keeps the global invariant: handlers, queue, workers and scan hold only unfinished tasks, each task at most once, and waiting rows are undispatched. |
| `LifecycleSteps.RunInv` | `async-gateway/internal/app/app.go:109-134` | The invariant holds after every run, with crashes, restarts, recovery scans, repository failures and forced shutdowns anywhere in it. |
| `LifecycleTheorems.StepKeeps` | `async-gateway/internal/store/repository.go:57-130` | No step changes the verdict of a finished task, takes back a dispatch mark, or brings back a deleted row, although MarkQueued and MarkRunning are unguarded. |
| `LifecycleTheorems.FinishedIsFinal` | `async-gateway/internal/store/repository.go:85-130` | Over every run: once a task is finished, its status, result and error never change again. |
| `LifecycleTheorems.DeletedIsGone` | `async-gateway/internal/store/repository.go:254-267` | Over every run: a deleted task row never returns. |
| `LifecycleTheorems.NoForwardAfterDispatch` | `async-gateway/internal/recovery/scanner.go:79-104` | After a task's dispatch mark is stored, no forward of it starts, across any number of crashes and scans. |
| `LifecycleTheorems.AtMostOneMarkedWrite` | `async-gateway/internal/worker/forwarder.go:109-119` | In every reachable state the forwards in which an attempt to write the request has ended are at most one more than those that lost their mark, to a failed statement or a crash; and the attempts, sent or broken, are those first ones and the repeated ones inside a forward. |
| `LifecycleResend.CanBeSentAgainExactly` | `async-gateway/internal/worker/forwarder.go:93-122` | From a reachable state some run puts a request on the wire once more exactly when an attempt to write it is under way, its forward has not returned, or its row is neither finished nor dispatched (room in the scan and the queue given). |
| `LifecycleWritten.UncertainMeansAttempted` | `async-gateway/internal/worker/forwarder.go:84-178` | In every run a task that ends uncertain or carries a dispatch mark had an attempt to write its request end; the request was sent exactly if not all attempts broke. |
| `LifecycleWritten.UncertainMeansSent` | `async-gateway/internal/worker/forwarder.go:109-131` | In every run in which no write fails, whatever else does, such a task's request was sent. |
| `LifecycleWitnesses.UncertainCanMeanUnsent` | `async-gateway/internal/worker/forwarder.go:110-131` | There is a run that ends with a task uncertain whose only attempt to write its request broke: the hook ignores the error it is given. |
| `LifecycleWitnesses.LostMarkCanMeanTwoWrites` | `async-gateway/internal/worker/forwarder.go:110-118` | There is a run in which storing the mark fails and, after a crash and a scan, another forward sends the same request again. |
| `LifecycleWitnesses.OneForwardCanSendTwice` | `async-gateway/internal/worker/forwarder.go:105-122` | There is a run in which one forward sends the request twice with its mark stored: the hook runs once a forward. |
| `LifecycleTheorems.UndispatchedKeepsPayload` | `async-gateway/internal/store/repository.go:268-285` | Whatever the expiry times and the cleaner's schedule, a task neither finished nor dispatched still has its payload. |
| `LifecycleTheorems.PayloadMissingOnlyIfDispatched` | `async-gateway/internal/recovery/scanner.go:83-95` | In every run the scan reports a missing payload exactly for stale running rows that were dispatched and whose payload is gone. |
| `LifecycleWitnesses.DispatchedCanEndFailed` | `async-gateway/internal/recovery/scanner.go:83-95` | There is a run that ends with a request sent once, its dispatch mark stored, and its task failed for a missing payload instead of uncertain. |
| `LifecyclePlaces.DropsOnlyOnFault` | `async-gateway/internal/worker/pool.go:153-192` | In the invariant a worker gives up a task only in a step whose repository call failed: no row or payload a worker needs is ever missing. |
| `LifecycleHeld.HeldIsFinishedExactly` | `async-gateway/internal/app/lifecycle.go:79-97` | In every run the row of a task a worker holds is finished, or gone, exactly if the queue is closed and a forced shutdown gave it its verdict. |
| `LifecyclePlaces.ExactlyOnePlace` | `async-gateway/internal/httpapi/submit_handler.go:101-127` | Over every run in which no repository call of its own worker failed: a task answered with 202 or requeued is in exactly one place, once and unfinished in the queue, with one worker and unfinished unless the forced shutdown overtook it, or finished. |
| `LifecyclePlaces.QueueIsFifo` | `async-gateway/internal/queue/memory_queue.go:31-66` | Over every run in which the process lives, what was queued and then put in is, in this order, what was handed out and what is queued now. |
| `LifecyclePlaces.DeliveryIsFifo` | `async-gateway/internal/queue/memory_queue.go:31-66` | In every run no task is handed out twice by one process, and what was handed out is what was put in first. |
| `LifecyclePlaces.DrainedMeansFinished` | `async-gateway/internal/app/lifecycle.go:79-97` | When all workers have left, the queue is closed and empty, and every task taken on whose own worker saw no repository failure is finished. |
| `MemoryQueue.Queue.TryEnqueue` | `async-gateway/internal/queue/memory_queue.go:31-44` | Accepts exactly when the queue is open and has a free slot, and then appends at the back. |
| `MemoryQueue.Queue.Dequeue` | `async-gateway/internal/queue/memory_queue.go:46-66` | Hands out the front item; reports closed only when the queue is closed and empty. |
| `MemoryQueue.Queue.Close` | `async-gateway/internal/queue/memory_queue.go:72-77` | Closes without losing queued items. |
| `Repository.TaskRepository.MarkQueued` | `async-gateway/internal/store/repository.go:327-329` | Succeeds exactly when the row exists and the database did not fail; a failed call may still have taken effect. |
| `Repository.TaskRepository.FinishFailed` | `async-gateway/internal/store/repository.go:97-107` | Succeeds exactly when the row is unfinished and the database did not fail; finished rows stay as they are. |
| `Repository.TaskRepository.MarkUncertain` | `async-gateway/internal/store/repository.go:108-118` | Likewise for the uncertain verdict. |
| `Repository.TaskRepository.FindRecoverableTasks` | `async-gateway/internal/store/repository.go:220-253` | Returns the recoverable rows, oldest first, distinct and current, with none older missing when the limit cuts in. |
| `Repository.SelectOne` | `async-gateway/internal/store/repository.go:251-252` | Taking an oldest remaining row keeps the selection sorted, distinct and complete. |
| `RecoveryScan.TakeGrows` | `async-gateway/internal/recovery/scanner.go:96-101` | Of one more scanned row, the queue receives it exactly if it can be replayed and a slot is left after the replayable rows before it. |
| `RecoveryScan.Scanner.HandleTask` | `async-gateway/internal/recovery/scanner.go:79-104` | Succeeds unless a repository call fails; leaves the row exactly as the verdict demands, enqueues only a replayable task with a free slot, and touches no other row. |
| `RecoveryScan.Scanner.Run` | `async-gateway/internal/recovery/scanner.go:65-77` | Unless a repository call fails: replayable rows are requeued in creation order up to the free slots and the rest fail queue_full, dispatched rows with payload become uncertain, rows without payload fail, and no returned row is skipped. |
| `RecoveryScan.ScanLeaves` | `async-gateway/internal/recovery/scanner.go:65-104` | Spelled out: scanned are accepted, queued and stale running rows; one without payload ends failed, a running dispatched one uncertain, of the others as many as there are free slots are queued, oldest first, and the rest fail. |
| `RecoveryScan.ScanLeavesNoneOut` | `async-gateway/internal/store/repository.go:220-253` | No such row is left out unless the limit is used up by older ones. |
| `ScanRefinement.ScannerRunIsRun` | `async-gateway/internal/recovery/scanner.go:65-104` | For every outcome the contract of Scanner.Run allows on success, over the queue of a new process, the state machine has a run of its scan with the same tables and the same queue. |
| `ScanRefinement.ItemRun` | `async-gateway/internal/recovery/scanner.go:79-104` | Whatever HandleTask may make of a row and the queue, one to three steps of the state machine make of them. |
| `RateLimit.Limiter.constructor` | `async-gateway/internal/ratelimit/limiter.go:30-42` | Non-positive settings fall back to a burst of one and three seconds. |
| `RateLimit.Limiter.Allow` | `async-gateway/internal/ratelimit/limiter.go:44-74` | Only the caller's bucket changes, by the bucket rule; a refusal carries the retry hint. |
| `RateLimit.RunOk` | `async-gateway/internal/ratelimit/limiter.go:44-74` | Over every run of the limiter on its shared map, every bucket keeps its tokens between zero and the burst. |
| `RateLimit.RunSplitsByKey` | `async-gateway/internal/ratelimit/limiter.go:49-66` | A run of the limiter on its shared map leaves each key the bucket, and grants it as many calls, as the bucket rule applied to that key alone. |
| `RateLimit.TakeConserves` | `async-gateway/internal/ratelimit/limiter.go:58-67` | What a call takes and leaves is at most what was there plus what time refilled, and at most the burst. |
| `RateLimit.WindowBound` | `async-gateway/internal/ratelimit/limiter.go:44-74` | From any bucket, the calls of one key inside any window are allowed at most burst plus one per refill interval. |
| `RateLimit.RunWindowBound` | `async-gateway/internal/ratelimit/limiter.go:44-74` | In any run of a fresh limiter with calls of all keys mixed, the answers to one key inside any window grant at most burst plus one call per refill interval. |
| `RateLimit.RefusedExactly` | `async-gateway/internal/ratelimit/limiter.go:44-74` | On a fresh limiter with a clock that does not go back, a call is refused exactly if granting it would give its key, since one of its own earlier calls, more than burst plus the elapsed time over the refill interval. |
| `RateLimit.FirstCallsAreGranted` | `async-gateway/internal/ratelimit/limiter.go:49-56` | The first burst calls of every key are granted, however fast they come. |
| `RateLimit.KeysAreIndependent` | `async-gateway/internal/ratelimit/limiter.go:49-56` | Of a run on the shared map, a key gets the same answers in the same order, and the same bucket, as in the run of its own calls on any map with the same bucket of its own. |
| `RateLimit.RetryHintSuffices` | `async-gateway/internal/ratelimit/limiter.go:69-73` | A refused caller who waits the hinted time on an untouched bucket is allowed; the hint is whole seconds, at least one, and less than a second too long. |
| `LruSpec.FitIsPrefix` | `inline_data_url_cache.go:133-144` | Evicting from the back until the rest fits leaves the longest prefix of the recency order that fits. |
| `LruSpec.PutFits` | `inline_data_url_cache.go:94-149` | Storing keeps the total size within the budget. |
| `LruSpec.PutFinds` | `inline_data_url_cache.go:94-149` | A stored entry is found with the type and bytes given; nothing else is found that was not there before; an entry larger than the budget changes nothing. |
| `LruSpec.CacheIsRecencyPrefix` | `inline_data_url_cache.go:79-149` | With one size per URL and every miss stored, the cache holds exactly the longest fitting prefix of the recency order of all URLs ever accessed. |
| `LruSpec.LargerCacheHitsToo` | `inline_data_url_cache.go:79-149` | A cache with a larger budget hits whenever one with a smaller budget does. |
| `MemoryCaches.GoCache.Get` | `inline_data_url_cache.go:79-91` | A hit returns the entry and moves it to the front; map and list stay in bijection and the counter stays the sum of sizes. |
| `MemoryCaches.GoCache.Set` | `inline_data_url_cache.go:94-149` | Overwriting in place or inserting, with either eviction loop, yields the specified recency list within the budget. |
| `MemoryCaches.GoCache.TrimBehind` | `inline_data_url_cache.go:116-128` | The eviction loop of an update ends within the budget and never evicts the updated entry. |
| `MemoryCaches.GoCache.MakeRoom` | `inline_data_url_cache.go:132-144` | The eviction loop of an insert ends with the longest prefix that leaves room. |
| `MemoryCaches.RustCache.Get` | `rust-sync-proxy/src/cache.rs:514-521` | A hit returns the entry and makes it the most recent. |
| `MemoryCaches.RustCache.Set` | `rust-sync-proxy/src/cache.rs:523-547` | Pop, evict and reinsert yields the same specified recency list, with the counter equal to the sum of sizes. |
| `MemoryCaches.Lockstep` | `rust-sync-proxy/src/cache.rs:514-547` | Any sequence of operations gives both caches the same answers and leaves both with the same entries in the same order, those the specification means. |
| `MemoryCaches.AnswersAreLatest` | `rust-sync-proxy/src/cache.rs:514-547` | Over any sequence of operations a lookup misses or gives the type and bytes stored last under its URL, and right after a store that fits it hits. |
| `BackgroundFetch.StepInv` | `inline_data_url_background_fetch.go:107-161` | Every step keeps: an unfinished task is the current task of its URL, no ended task is in the map, and published results do not change. |
| `BackgroundFetch.CountIsExact` | `inline_data_url_background_fetch.go:184-193` | The count taken over the map under the lock is the number of all unfinished fetches. |
| `BackgroundFetch.SingleFlight` | `inline_data_url_background_fetch.go:107-128` | In every run there is at most one unfinished fetch per URL and at most the limit in all. |
| `BackgroundFetch.AnswersAreFinal` | `inline_data_url_background_fetch.go:95-97` | A waiter that was answered has its own task's published result for the URL it asked for, and no later step changes that result. |
| `BackgroundFetch.AnswersAreResults` | `inline_data_url_background_fetch.go:130-160` | In every run an answered caller has exactly the type, bytes and error its own task's fetch returned, or the error of its panic. |
| `BackgroundFetch.CallsJoinOrStart` | `inline_data_url_background_fetch.go:107-128` | A caller joins the unfinished fetch of its URL, is refused exactly if there is none to join and the limit is reached, and otherwise starts one. |
| `BackgroundFetch.RemovalIsOwn` | `inline_data_url_background_fetch.go:195-204` | A task leaves the map only through its own removal once done; the repeated removal never deletes a newer task of the same URL. |
| `BackgroundFetch.NothingLeftBehind` | `inline_data_url_background_fetch.go:130-158` | When every goroutine has ended, the map is empty. |
| `BackgroundFetch.RunsEnd` | `inline_data_url_background_fetch.go:130-161` | Once nobody calls any more every run ends, after at most six steps a goroutine and one a waiter. |
| `BackgroundFetch.NobodyWaitsInVain` | `inline_data_url_background_fetch.go:82-105` | In a reachable state in which no goroutine and no waiter can take a step but a timeout, no caller is still waiting, and the map is empty. |
| `Decimal.IndexTextIsExact` | `rust-sync-proxy/src/request_scan.rs:41-44` | A text is accepted as an array index standing for n exactly when it is the decimal text the scan writes for n (section 4 of RFC 6901). |
| `Decimal.DecDigits` | `rust-sync-proxy/src/request_scan.rs:41-44` | The text of an index has the decimal digits of the number and no leading zero. |
| `JsonPointer.UnescapeOfEscape` | `rust-sync-proxy/src/request_scan.rs:52-54` | Unescaping undoes the escaping of a pointer token. |
| `JsonPointer.PointerText` | `rust-sync-proxy/src/request_scan.rs:35-54` | Every token stands behind a slash, with ~ as ~0, / as ~1 and every other byte as it is. |
| `JsonPointer.ParseOfPointer` | `rust-sync-proxy/src/request_scan.rs:35-44` | Parsing a written pointer (section 3 of RFC 6901) gives back its tokens. |
| `JsonPointer.PointersAreInjective` | `rust-sync-proxy/src/request_scan.rs:35-44` | Two places have the same pointer exactly when they are the same sequence of tokens. |
| `Json.RemoveExactly` | `rust-sync-proxy/src/request_encode.rs:233-249` | Removing a member from an object, in order or by swapping, drops exactly that key; all other lookups are unchanged. |
| `Json.RemovalKeepsOrderExactly` | `rust-sync-proxy/src/request_encode.rs:233-249` | The swapping removal keeps the order of members exactly when the key is missing or among the last two; otherwise another key stands in its place. |
| `JsonReader.ReadsCompact` | `rust-sync-proxy/src/request_encode.rs:75-135` | A JSON reader written from the grammar of RFC 8259 reads the compact text of every tree back as that tree. |
| `JsonReader.StringText` | `rust-sync-proxy/src/request_encode.rs:96-101` | A string is written between quotes, every byte as it is or with its JSON escape. |
| `JsonReader.ArrayText` | `rust-sync-proxy/src/request_encode.rs:112-128` | An array is written in brackets with nothing but commas between its items. |
| `JsonReader.ObjectText` | `rust-sync-proxy/src/request_encode.rs:86-111` | An object is written in braces, each member its name, a colon and its value, with nothing but commas between. |
| `JsonReader.CompactIsInjective` | `rust-sync-proxy/src/request_encode.rs:75-135` | Two trees have the same compact text exactly when they are the same tree. |
| `StripOutput.ResolveStripped` | `rust-sync-proxy/src/request_encode.rs:238-248` | Stripping at one place: every pointer at or below the removed member leads nowhere, every other leads to the node it led to, itself stripped on the way. |
| `StripOutput.StripExactly` | `rust-sync-proxy/src/request_encode.rs:233-249` | After all three removals exactly the places at or below the three output members are gone, and nodes off the way to them are unchanged. |
| `StripOutput.StripKeepsOrderExactly` | `rust-sync-proxy/src/request_encode.rs:233-249` | Stripping keeps the order of all members exactly when each of the three output members is missing or among the last two of its object. |
| `StripOutput.StripCanReorder` | `rust-sync-proxy/src/request_encode.rs:233-249` | An object output, a, b comes out as b, a. |
| `RequestScan.Walk` | `rust-sync-proxy/src/request_scan.rs:18-50` | The recursive walk appends exactly the specified references to the shared list and fails exactly when the list would grow past seven. |
| `RequestScan.ScanRequestImageUrls` | `rust-sync-proxy/src/request_scan.rs:12-16` | Succeeds exactly when there are at most seven references, and then returns all of them in walk order. |
| `RequestScan.ScanExact` | `rust-sync-proxy/src/request_scan.rs:18-50` | A place is found with a URL exactly when it is an inlineData member whose data is that http URL: nothing is missed, nothing else is found. |
| `RequestScan.ScanFindsImages` | `rust-sync-proxy/src/request_scan.rs:18-58` | Spelled out: a URL is found at a place exactly if the last name is inlineData, the node there is an object with a member data holding it, and it begins with http:// or https://. |
| `ScanOrder.FoundInOrder` | `rust-sync-proxy/src/request_scan.rs:18-50` | Found in this order: an object's own image first, then member by member and item by item with everything below. |
| `RequestScan.ScanDistinct` | `rust-sync-proxy/src/request_scan.rs:18-50` | No place is found twice. |
| `RequestScan.PointersReachTheirNodes` | `rust-sync-proxy/src/request_scan.rs:24-44` | The pointers of a scan are pairwise distinct, and evaluating each leads to a node with the URL it was made for. |
| `Streams.BlobReader.Read` | `rust-sync-proxy/src/blob_runtime.rs:201-211` | A read of arbitrary length delivers the next bytes of the content into the requested part of the buffer, and nothing only at the end. |
| `Base64.DecodeOfEncode` | `rust-sync-proxy/src/request_encode.rs:159-221` | Decoding undoes encoding (section 4 of RFC 4648). |
| `Base64.AcceptsExactlyEncodings` | `rust-sync-proxy/src/upload.rs:786-791` | The strict decoder accepts a text with value b exactly when the text is the encoding of b. |
| `Base64Table.EncodeIsTable` | `rust-sync-proxy/src/request_encode.rs:159-221` | Character i of the text is the entry of the RFC 4648 table at the six bits of the data from bit 6i on, missing bits zero, and padding exactly past the last bit. |
| `Base64Table.DecodeIsTable` | `rust-sync-proxy/src/upload.rs:786-791` | A text is accepted with these bytes as its value exactly if it is made of the table in this way. |
| `Base64.DecodeSplits` | `rust-sync-proxy/src/upload.rs:765-784` | An accepted text cut at a group boundary decodes piecewise to the same bytes. |
| `Base64Encoder.EncodeSlice` | `rust-sync-proxy/src/request_encode.rs:188-189` | Encoding into a buffer fails exactly if the buffer is too small. |
| `Base64Encoder.WriteBytes` | `rust-sync-proxy/src/request_encode.rs:208-221` | Inline bytes are sent and counted as their base64 text; it fails exactly when the writer does. |
| `Base64Encoder.EmitGroups` | `rust-sync-proxy/src/request_encode.rs:181-197` | Sends the whole groups of three in the buffer, never outgrows the output buffer, and carries at most two bytes to the front. |
| `Base64Encoder.WriteStream` | `rust-sync-proxy/src/request_encode.rs:170-206` | For every schedule of short reads the carry-buffer encoder sends and counts exactly the base64 text of the whole blob; it fails exactly when the writer or the reader fails. |
| `Base64Upload.Base64DecodedReader.PollRead` | `rust-sync-proxy/src/upload.rs:811-844` | One poll delivers the next decoded bytes, as many as there is room for, and fails exactly when it needs a byte past a rejected piece. |
| `Base64Upload.FeedHasher` | `rust-sync-proxy/src/upload.rs:765-775` | The hash loop succeeds exactly when no piece is rejected, and is fed exactly what the reader delivers. |
| `Base64Upload.ReaderMatchesDecoder` | `rust-sync-proxy/src/upload.rs:793-844` | For every text the whole-string decoder accepts, the pieces give exactly the decoded bytes and then the end. |
| `Base64Upload.DeliversPrefix` | `rust-sync-proxy/src/upload.rs:811-844` | What polls with buffers of any sizes deliver is the first bytes of the data, as many as there was room for. |
| `Base64Upload.ThenNothing` | `rust-sync-proxy/src/upload.rs:811-844` | Once the buffers had room for all of the data, every later poll delivers nothing. |
| `Base64Upload.PollAll` | `rust-sync-proxy/src/upload.rs:811-844` | A fresh reader over an accepted text, polled with any buffer sizes, never fails and delivers a prefix of the decoded bytes, all of them once there was room, and then end of stream. |
| `Base64Upload.DecodedLenIsExact` | `rust-sync-proxy/src/upload.rs:747-763` | For every accepted text the announced length is the number of decoded bytes. |
| `Base64Upload.PiecesAgreeExactly` | `rust-sync-proxy/src/upload.rs:777-791` | A text whose pieces are all accepted is accepted as a whole exactly when no piece but the last ends in padding. |
| `Base64Upload.PiecesCanAcceptMore` | `rust-sync-proxy/src/upload.rs:777-791` | A padded text of one full piece followed by another text: the pieces decode it, the whole decoder rejects it. |
| `BlobBudget.StepInv` | `rust-sync-proxy/src/blob_runtime.rs:281-312` | Every load, compare-exchange, swap and fetch_sub keeps: the counter is the total of reserved blobs not yet released, within the budget, and no two threads work on one blob. |
| `BlobBudget.NoUnderflow` | `rust-sync-proxy/src/blob_runtime.rs:308-312` | What a release is about to subtract is still in the counter, so it never wraps. |
| `BlobBudget.CounterIsExact` | `rust-sync-proxy/src/blob_runtime.rs:220-237` | Under every interleaving the counter is exact and within the budget, and each blob is released at most once however often its clones are removed. |
| `BlobBudget.QuietCounter` | `rust-sync-proxy/src/blob_runtime.rs:220-237` | When no thread is inside a removal, the counter is the total of the inline blobs never removed. |
| `BlobRefinement.StepIsWhole` | `rust-sync-proxy/src/blob_runtime.rs:281-312` | In every run each atomic step is one whole reservation of what fits at that very moment, one whole release, or nothing to the counter. |
| `BlobRefinement.RefusalIsWhole` | `rust-sync-proxy/src/blob_runtime.rs:281-306` | A thread is turned away exactly when its blob does not fit the limits and the counter it read. |
| `BlobRefinement.ReserveAloneIsWhole` | `rust-sync-proxy/src/blob_runtime.rs:281-306` | The steps of a reservation nobody interrupts are a run with the result of the whole call. |
| `BlobRefinement.RemoveAloneIsWhole` | `rust-sync-proxy/src/blob_runtime.rs:220-237` | Likewise for a removal: it subtracts the blob's bytes once, and nothing if the blob was removed before. |
| `BlobRuntime.SpillPathsDiffer` | `rust-sync-proxy/src/blob_runtime.rs:328-330` | Blobs with different numbers never share a spill file. |
| `BlobRuntime.StoreKeepsOthers` | `rust-sync-proxy/src/blob_runtime.rs:93-105` | A stored blob reads back as what was stored; whether the store succeeds or fails, every other blob reads as before. |
| `BlobRuntime.StoreConserves` | `rust-sync-proxy/src/blob_runtime.rs:93-119` | A blob stays in memory exactly if it is within both limits and the hot bytes leave room; hot and spilled bytes together grow by its size. |
| `BlobRuntime.StoresConserve` | `rust-sync-proxy/src/blob_runtime.rs:93-119` | Over any stores hot and spilled bytes together grow by exactly what was stored, and the spill counter by the blobs that went to disk. |
| `BlobRuntime.RemoveKeepsOthers` | `rust-sync-proxy/src/blob_runtime.rs:228-236` | Removing a spilled blob changes no other blob's content. |
| `BlobRuntime.BlobRuntime.TryInlineReserve` | `rust-sync-proxy/src/blob_runtime.rs:281-306` | Reserves exactly when the size is within both limits and fits the global budget without overflow. |
| `BlobRuntime.BlobRuntime.StoreBytes` | `rust-sync-proxy/src/blob_runtime.rs:93-119` | Makes the specified inline-or-spill choice with all its counters, registers one new handle, and fails exactly when the file system does. |
| `BlobRuntime.BlobRuntime.StoreExternalShared` | `rust-sync-proxy/src/blob_runtime.rs:121-129` | Shares cached bytes without touching budget, spill counters or files. |
| `BlobRuntime.BlobRuntime.StoreStream` | `rust-sync-proxy/src/blob_runtime.rs:131-199` | For any chunking of the same bytes from the same state it ends with the same choice, counters, content and handle as storing them at once; it fails exactly when the reader or the file system does. |
| `BlobRuntime.BlobRuntime.Remove` | `rust-sync-proxy/src/blob_runtime.rs:220-237` | The first removal releases the blob's bytes or deletes its file; any further removal through a clone changes nothing. |
| `BlobRuntime.BlobRuntime.ReadBytes` | `rust-sync-proxy/src/blob_runtime.rs:213-218` | Gives the blob's content; fails exactly when the file is gone or the file system fails. |
| `BlobRuntime.BlobRuntime.OpenReader` | `rust-sync-proxy/src/blob_runtime.rs:201-211` | Opens a reader at the start of the blob's content, under the same conditions. |
| `RequestEncode.ImageText` | `rust-sync-proxy/src/request_encode.rs:137-157` | The pieces written for a replacement are the compact text of its node, because base64 text needs no escapes. |
| `RequestEncode.WriteJsonValue` | `rust-sync-proxy/src/request_encode.rs:67-135` | Sends exactly the compact text of the tree with every outermost replaced node substituted, counts every byte, and fails only if the writer, the file system or a missing blob makes it. |
| `RequestEncode.EncodeRequestBody` | `rust-sync-proxy/src/request_encode.rs:19-65` | The stored body is the compact text of the stripped request with its images substituted, and the content length is its size; fails only on a fault or a missing blob. |
| `RequestMaterialize.UniqueUrls` | `rust-sync-proxy/src/request_materialize.rs:72-78` | Each URL once, and exactly those referenced. |
| `RequestMaterialize.StoreFetched` | `rust-sync-proxy/src/request_materialize.rs:129-195` | Stores what the URL gave under the number taken for it, shared if cached and otherwise kept or spilled; other blobs read as before. |
| `RequestMaterialize.FetchAll` | `rust-sync-proxy/src/request_materialize.rs:80-105` | With up to four fetches under way, interleaved in any order, every URL gets a readable blob of its own content, distinct numbers are given out, and other blobs read as before. |
| `RequestMaterialize.MaterializeRequestImages` | `rust-sync-proxy/src/request_materialize.rs:66-127` | Whatever the interleaving of the fetches, on success every image gets a readable replacement of its own URL's content, equal URLs share one blob, and the new blobs are exactly those of the replacements; also after a failure the new blobs are still there, and the hot-byte count is back where it was exactly if none of them keeps bytes in memory. |
| `RequestMaterialize.FailureKeepsBytes` | `rust-sync-proxy/src/request_materialize.rs:100-105` | A request whose first image is stored inline and whose second cannot be fetched fails with the first image's bytes still counted. |
| `RequestRewrite.StripKeepsImages` | `rust-sync-proxy/src/request_encode.rs:24-29` | Stripping after the scan makes no node an image and keeps every image that stays in the tree. |
| `RequestRewrite.SubstituteIsInlined` | `rust-sync-proxy/src/request_encode.rs:75-83` | Substituting by the scan's pointers in the stripped tree is the same as rewriting every inlineData URL directly: the pointer-keyed map loses nothing. |
| `RewriteMeaning.RewrittenPlaces` | `rust-sync-proxy/src/request_rewrite.rs:63-97` | Place by place and with all names spelled out: the three output settings and all below are gone, every image left has its fetched type and base64 data, every other place outside the images leads to the same scalar, an array of the same length or an object, and no place is new. |
| `RequestRewrite.ReaderReadsBack` | `rust-sync-proxy/src/request_rewrite.rs:96` | The JSON reader is a parser that reads back every compact text. |
| `RequestRewrite.RewriteWith` | `rust-sync-proxy/src/request_rewrite.rs:69-97` | Unless there are too many images, a fetch fails or the file system does, the result is what the parser makes of the text of the stripped and inlined request, the reserved blobs and the hot-byte count are back to what they were, and every new blob is removed. |
| `RequestRewrite.RewrittenReadsBack` | `rust-sync-proxy/src/request_rewrite.rs:96` | Any parser that reads back every compact text makes of that text the stripped request with every image inlined. |
| `RequestRewrite.RewriteRequestInlineData` | `rust-sync-proxy/src/request_rewrite.rs:63-97` | Too many images are refused, a request without images comes back unchanged (not even stripped), any other comes back as the parser reads its stripped and inlined text, with nothing left in memory or on disk. |

## Left out

- One gateway process at a time: recovery has no staleness test for accepted and queued rows, so two overlapping processes break the lifecycle claims. The submit handler shown is the text one; the image submit handler takes the same steps.
- Task identifiers are taken to be never reused (they carry 80 random bits); a reused one is rejected by the primary key in the source and not created in the model.
- Statements and queue operations are atomic: `TryEnqueue` racing with `Close` inside one operation (a send on a closed channel) is not modelled.
- The submit handler, worker loop, heartbeat, cleaner and shutdown are steps of the state machine rather than separate classes; their interleaving is the point. `updated_at` and the columns no statement changes are left out or opaque, and the batch limit and order of the cleaner's deletions are widened to any set of expired rows.
- What the HTTP transport puts on the wire is sent or broken as a whole; a redirect or retry is one more attempt of the same forward, and which answers cause one is not modelled.
- Whether a fresh running row is ever picked up again: the scan runs once per start.
- HTTP, TLS, SQL, authentication, encryption and the extraction of result summaries: outcomes are parameters or arbitrary.
- RateLimit.Limiter.Allow: tokens are exact reals where the source uses float64, and the clock reading is a parameter.
- Integer widths: sizes are unbounded naturals except the shared hot-byte counter and its limits, which are 64 bits wide with the wrap-around of `fetch_sub` written out. Blob and spill counters do not wrap.
- MemoryCaches.GoCache.Set: the list with back pointers is a sequence of URLs, and a cache of size zero or less (nil in the source) is not modelled; the Rust LRU container is modelled by its operations.
- BackgroundFetch: a goroutine that exits through `Goexit`, and the nil receiver and nil function checks. The fetch service of the Rust proxy, the disk cache and its expiry are not part of this model.
- RequestEncode.EncodeRequestBody: the writer and the store run concurrently over a bounded pipe in the source; here the body is written first and then stored from a reader that delivers it in arbitrary pieces. The blob of an aborted store is whatever part of a file it left.
- RequestRewrite.RewriteWith: a URL gives one result per request, a fetch that fails ends the request before any other fetch goes on, and storing one fetched image is one step once its number is taken. Numbers are kept as their text and the last parse is any function.
- RequestRewrite.RewrittenReadsBack: assumes a parser that reads every printed number back, as `ReadJson` does, which keeps numbers as text. serde_json without its `float_roundtrip` feature does not promise that and may miss a printed float by one unit in the last place; then the result differs from the inlined request in such numbers.
- StripOutput.Strip: the source edits the request value it owns in place; here stripping is a function of the value.
- Strings are byte sequences: that they are valid UTF-8 is neither assumed nor used.
- Base64Upload.FeedHasher: the hash itself is a function of the bytes it is fed and is left out, as are the upload requests around it.
- The rewriting for the aiapidev upstream, response-side rewriting, image transcoding, host checks, configuration and the admin pages: one-branch facts and plumbing.
