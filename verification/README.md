# GitLab–Huly bridge: verified model

The bridge keeps a Huly workspace and one or more GitLab projects in step. It receives webhooks and
platform transactions, serialises them per resource, writes each side's changes to the other, and
keeps small caches and guards around the outside calls. This project models the parts whose
correctness depends on many steps at once and proves what they promise over every input, every run
and every interleaving. `dafny verify dfyconfig.toml` checks all of it.

| file | component |
|---|---|
| `Queue.dfy`, `EventQueue.dfy` | the keyed FIFO: its steps, and the object that takes them |
| `Engine.dfy`, `EventFate.dfy`, `ClockedFate.dfy`, `SyncEngine.dfy` | deduplication, durable inflight rows, dispatch, crash and boot; what becomes of every event, for any clocks and for clocks that do not run backwards; the object |
| `Breaker.dfy` | the lazy per-binding circuit breaker |
| `AttachmentLinks.dfy`, `AttachmentIdempotence.dfy`, `AttachmentMirror.dfy`, `Text.dfy` | the Markdown link scanner and rewriter, rewriting twice, and the body mirrors built on them |
| `Suggestions.dfy` | the suggestion-block parser |
| `MixinMigration.dfy` | the split of the legacy merge-request mixin |
| `Issues.dfy`, `IssueCursor.dfy` | the last-write-wins mirror of issues, and the cursor they share |
| `RateLimit.dfy` | the token-bucket limiter with pruning |
| `ApprovalRulesCache.dfy` | the LRU cache with a lifetime |
| `BindingRegistry.dfy` | the registry that re-keys itself in place |
| `TxSubscriber.dfy` | the transaction subscriber, its cold-start buffer and echo filter |
| `Deferral.dfy` | notes that arrive before their parent |
| `Options.dfy` | the type of a value that may be missing |

## How it is modelled

Code between two awaits is one atomic step. Steps of different deliveries interleave freely, and the
process may die between any two of them. Objects whose methods update their fields are classes; each
method is proved to be one step, or a short run of steps, of a state machine written as functions, and
the theorems are about the runs of that machine. Clocks, lookups, uploads and whatever else the outside
answers are parameters, so the theorems hold for every answer.

Time is an integer number of milliseconds. Where a property needs a clock that never runs backwards the
lemma says so. Token counts are reals. A JavaScript `Map` is an insertion-ordered list where its order
matters (the queue's LRU order, the approval-rules cache) and a map where it does not. Deleting a mixin
attribute by setting it to undefined removes the key. A database call that throws is
taken to have changed nothing: an insert that commits and loses its acknowledgement is not modelled, and the
results on "new" answers, losses and surviving rows rest on that. In `EventFate`, "in no continuation" ranges
over every continuation, whatever its clock says; in `ClockedFate`, over those whose clock never falls below the
present. The engine's event carries the queue key that its
kind and record give it. The engine lists its inflight rows before the HTTP server listens
(src/index.ts:169 and 213), so no row is born between the listing and its replay except by a delivery
that a replayed job itself makes; the model allows those.

## What turned out not to hold

Each of these is a lemma, next to the exact condition under which the property does hold.

- Evicting a key that still has a job lets two jobs of that key run at once (`Queue.BusyEvictionRunsTwo`).
  Keys stay serial in exactly the runs that evict no busy key (`Queue.RunSerialExactly`, and
  `EventFate.EngineSerialExactly` for the engine). The key evicted is always the least recently enqueued one
  (`Queue.EvictionIsLeastRecent`, `Queue.EvictsBusyExactly`). The waiters of an evicted key are not told when its job
  ends; they are told when the key is enqueued on and drained again, and not before (`Queue.ToldExactly`,
  `Queue.EvictedWaitsForEnqueue`). `drainAll` does not wait for the job of an evicted key
  (`Queue.DrainMissesEvicted`); without busy evictions it waits for all that was enqueued
  (`Queue.DrainAllCompletes`).
- An event that was marked as seen can be lost for good. It is never handed to the processor in exactly two
  cases: the process dies, or the insert fails, between the dedup mark and the inflight row; or a boot finds
  its row more than an hour old and never handed over (`EventFate.NeverHandedOverExactly`, with a run from the
  start for each way: `EventFate.LostInTheWindow`, `EventFate.LostByALateBoot`, `EventFate.LostByEviction`).
  Unless a clock is set back it is given up sooner: as soon as its row is over an hour old and no delivery,
  queue entry or boot list holds it (`ClockedFate.NeverHandedOverFromNow`), which an evicted event reaches
  while the process runs (`ClockedFate.EvictedIsDoomedInAnHour`).
  An event that is handed over while its breaker is open is dropped without reaching its manager
  (`SyncEngine.SyncEngine.DispatchJob`), and that is final (`EventFate.DispatchIsFinal`, `EventFate.GoneIsFinal`).
- src/sync/attachment-links.ts:101-102 calls the rewrite idempotent. With reachable targets non-empty and
  free of `)` it is so exactly when no target is itself a mapped source with another target
  (`AttachmentLinks.SettledExactly`); that condition alone is not enough for other targets
  (`AttachmentIdempotence.SettledIsNotEnough`), for which `AttachmentIdempotence.IdempotentExactly` gives the
  exact one. The comment at line 35 speaks of an escaped parenthesis; the pattern has no such case, and the
  model follows the pattern.
- The mixin split drops every attribute outside its two key lists from a document read through the legacy
  mixin, `pipelineStatus` among them (`MixinMigration.DroppedExactly`, `MixinMigration.PipelineStatusLost`),
  and between its first two writes the view lacks the review fields (`MixinMigration.HiddenMeanwhileExactly`).
- The issue mirror does not converge when an issue came back to an earlier content, because an unchanged
  newer version does not move the document's timestamp (`Issues.ConvergesExactly`, `Issues.RevertLosesNewest`).
  The cursor that the binding's issues share can move back: it is sure to end at the newest timestamp exactly
  when there is one issue only, and no version comes between two with the newest content
  (`IssueCursor.CursorHighWaterExactly`).
- Pruning the limiter's buckets can be observed, and breaks the window bound, exactly when a bucket does
  not fill up in five minutes, for a capacity of a whole number of tokens (`RateLimit.PruneSafeExactly`).
  Below one token nothing is ever admitted (`RateLimit.BelowOneNothingPasses`). The default rate fills the
  bucket in one minute.
- The composite registry keys merge two instances whose hash prefixes are equal, once they hold different
  bindings for one project number (`BindingRegistry.AnswersAllExactly`); the instances of a workspace are safe
  from it, in every history, exactly when no two of them have the same prefix (`BindingRegistry.InjectiveExactly`).
- The marker helper for update operators leaves no visible mark on the attributes of a create or a mixin
  when they hold `$set` (`TxSubscriber.OperatorMarkOnAttributes`).

## Model

| member | source | states |
|---|---|---|
| Queue.EnqueueKeysAgree | src/sync/queue.ts:53-74 | After an enqueue the LRU order, the active keys and the queue map hold the same keys, at most `capacity` of them, exactly when the capacity is at least one. |
| Queue.RunKeysAgree | src/sync/queue.ts:8-27 | That agreement survives every run of enqueues, completions and waits, evictions of busy keys included. |
| Queue.RunByLastUse | src/sync/queue.ts:13-26 | In every run the LRU order lists its keys by the last job enqueued on each, the oldest first. |
| Queue.EvictionIsLeastRecent | src/sync/queue.ts:53-74 | After any run from the start, with room for at least one key: an enqueue evicts nothing while there is room for its key, and otherwise exactly the key with a queue whose last enqueue is the oldest, dropping the items that wait under it and no others. |
| Queue.EvictsBusyExactly | src/sync/queue.ts:53-74 | After any run from the start, an enqueue evicts a busy key if and only if there is no room for its key and the least recently enqueued key still has a job. |
| Queue.RunConserves | src/sync/queue.ts:53-140 | In every run, for each key, the jobs enqueued are those started, waiting or dropped by an eviction, each exactly once; started is completed plus in flight. Busy evictions included. |
| Queue.RunFifo | src/sync/queue.ts:53-140 | In every run, busy evictions included, the jobs of a key that left its queue, then those waiting, are the jobs enqueued in order; those that left are an order-preserving merge of the started and the dropped ones. |
| Queue.UndroppedInOrder | src/sync/queue.ts:110-118 | A key none of whose jobs was dropped has its jobs started in exactly the order they were enqueued, the rest waiting. |
| Queue.ConservedCount | src/sync/queue.ts:53-140 | The same conservation as an equation between the multiplicities of one job. |
| Queue.EnqueueLogs | src/sync/queue.ts:53-74 | An enqueue adds exactly its own job to the jobs enqueued and completes none, whatever it evicts. |
| Queue.CompleteLogs | src/sync/queue.ts:110-140 | A resumption completes exactly its own job and enqueues none. |
| Queue.EnqueueSerialExactly | src/sync/queue.ts:53-74 | From a state where every key has at most one job in flight, `processing` says so, idle keys have nothing pending, started followed by pending is enqueued and no waiter is forgotten, an enqueue keeps all that exactly when it evicts no busy key. |
| Queue.CompleteSerial | src/sync/queue.ts:110-140 | Resuming any pending job keeps every key serial and in order and forgets no waiter. |
| Queue.WaitSerial | src/sync/queue.ts:97-108 | Waiting for a key keeps the same invariant: the waiter is answered at once or remembered under a key that is not idle. |
| Queue.RunSerialExactly | src/sync/queue.ts:53-140 | All states of a run are serial if and only if no enqueue of the run evicts a busy key. |
| Queue.InitSerial | src/sync/queue.ts:39-51 | The empty queue satisfies the serial, conservation and key-set invariants at any capacity. |
| Queue.BusyEvictionRunsTwo | src/sync/queue.ts:56-73 | Evicting a busy key and enqueueing on it again always puts two jobs of that key in flight. |
| Queue.BusyEvictionLosesWaiter | src/sync/queue.ts:133-149 | After a busy eviction the key's job can finish, leaving the key idle while its waiters are still registered. |
| Queue.ToldExactly | src/sync/queue.ts:133-149 | Over every run, evictions included, a registered waiter is told exactly when the last job of its key ends while the key has a queue. |
| Queue.EvictedWaitsForEnqueue | src/sync/queue.ts:56-73 | A key without a queue does not drain, so its waiters are not told, until something is enqueued on it again. |
| Queue.EvictedWaiterCanBeTold | src/sync/queue.ts:53-149 | With room for one key, a waiter outlives the eviction of its busy key and is told once the key is used again: a run from the empty queue. |
| Queue.QuiescentIsDone | src/sync/queue.ts:97-140 | With no busy eviction so far and nothing in flight, every key is idle, everything enqueued is completed in order and every waiter was answered. |
| Queue.DrainAllToldExactly | src/sync/queue.ts:87-95 | In every run, evictions included, the waiters that `drainAll` registers on its snapshot of the keys are all told if and only if each of these keys was idle at the call or drains afterwards. |
| Queue.DrainAllCompletes | src/sync/queue.ts:87-95 | In a run without a busy eviction, once the waiters of `drainAll` are all told, every job enqueued before the call is completed, in order, whatever was enqueued since. |
| Queue.DrainMissesEvicted | src/sync/queue.ts:56-95 | With room for one key: a run from the empty queue with a busy eviction, after which the waiters of `drainAll` are all told while the evicted key still has a job in flight. |
| Queue.RunLively | src/sync/queue.ts:110-140 | In every run, busy evictions included, a key with waiting items has a job in flight, whose end starts the next one. |
| EventQueue.LruTracker.TouchKey | src/sync/queue.ts:13-16 | Takes the key out of the place it has, if any, and puts it last, in place; the other keys keep their order. |
| EventQueue.LruTracker.EvictOldest | src/sync/queue.ts:19-26 | Removes the front key, from the order and from the active keys, exactly when the capacity is exceeded. |
| EventQueue.EventQueue.EnqueueItem | src/sync/queue.ts:54-74 | The object takes exactly the enqueue step of the state machine, whose evictions `Queue.EvictionIsLeastRecent` describes; the log grows by this job. |
| EventQueue.EventQueue.RunKey | src/sync/queue.ts:110-124 | Up to its await, takes the first waiting item of the key and starts its processor. |
| EventQueue.EventQueue.Resume | src/sync/queue.ts:124-140 | After its await, takes exactly the completion step: next item, or idle and waiters told. |
| EventQueue.EventQueue.WaitFor | src/sync/queue.ts:98-108 | Answers at once on an idle key, otherwise registers the waiter. |
| EventQueue.EventQueue.DrainAll | src/sync/queue.ts:87-90 | Up to its await, registers one waiter for each key that has a queue, in any order, and changes nothing else. |
| EventQueue.EventQueue.PendingCount | src/sync/queue.ts:77-79 | Counts the waiting items of a key, none for an unknown key. |
| EventQueue.EventQueue.QueueIsIdle | src/sync/queue.ts:82-85 | True exactly when the key has neither a job in flight nor waiting items. |
| Engine.NextInv | src/sync/engine.ts:59-250 | Every step, crashes included, keeps the invariant between the durable rows, the deliveries in progress, the boot list and the queue. |
| Engine.RunInv | src/sync/engine.ts:59-250 | So does every run. |
| Engine.DispatchedAtMost | src/sync/engine.ts:111-171 | Over every run a row's event is handed to the processor at most once plus once per crash since the row was written. |
| Engine.GoneRowsAreExplained | src/sync/engine.ts:111-250 | A row that is gone was dispatched, or was older than an hour at a boot, or had an unknown op. |
| Engine.RowLeavesOnlyBy | src/sync/engine.ts:119-250 | The only steps that remove a row are the end of its own dispatch and the boot scan of a stale or unknown row. |
| Engine.SurvivingRowIsSomewhere | src/sync/engine.ts:59-83 | While the process is up, a surviving row is in exactly one place: about to be enqueued, waiting, in flight, dropped by an eviction, or finished with its deletion failed. |
| Engine.NewAnsweredOnce | src/state/dedup.ts:15-41 | Among any interleaved deliveries, over any run with crashes, one (binding, event, version) triple is answered "new" exactly once if it ends up marked and never otherwise. |
| Engine.OneRowPerTriple | src/sync/engine.ts:66-80 | However deliveries interleave and crash, the webhook path writes at most one row for a triple. |
| Engine.NextOwnedOnce | src/sync/engine.ts:66-80 | Every step keeps a triple's mark owned by at most one delivery or row. |
| Engine.LostExactly | src/sync/engine.ts:66-80 | A step leaves a mark with neither a delivery nor a row to its name if and only if it is a crash, or a failed insert of that delivery, between the mark and the row. |
| Engine.LostForever | src/sync/engine.ts:66-70 | Such a mark stays alone in every continuation; redeliveries are dropped as duplicates. |
| EventFate.FateOfMarked | src/sync/engine.ts:59-171 | After any run from the start, a marked event is held by a delivery about to write its row, or its row survives, or it was handed to the processor, or its row was discarded stale without that, or the mark alone is left; it is doomed exactly in the last two cases. |
| EventFate.DoomedExactly | src/sync/engine.ts:59-171 | No continuation whatever hands a marked event to the processor if and only if no delivery holds it and its row, if it had one, is gone and was never handed over. |
| EventFate.NeverHandedOverExactly | src/sync/engine.ts:66-129 | After any run from the start, a marked event will be handed over in no continuation, clocks set back included, if and only if some step of the run was a crash or a failed insert between its mark and its row, or the boot scan of its row more than an hour old and never handed over. |
| ClockedFate.NeverHandedOverFromNow | src/sync/engine.ts:59-171 | After any run from the start and for any present: no continuation whose clock never falls below the present hands a marked event over if and only if no delivery is about to write its row, and the row, if there is one, was never handed over, is not held by its delivery, not waiting in the queue, not ahead in a boot list that would replay it, and is gone or more than an hour old. |
| ClockedFate.DoomedIsFromAllTimes | src/sync/engine.ts:113-129 | The two notions differ by the clock alone: an event is doomed whatever clocks say if and only if it is doomed from every present. |
| ClockedFate.EvictedIsDoomedInAnHour | src/sync/queue.ts:56-60 | With room for one key, an event that waited and was evicted is doomed, with no boot and no crash, from exactly the moment its row is more than an hour old; only a clock set back can save it then. |
| ClockedFate.EngineLively | src/sync/queue.ts:110-140 | Over every engine run, crashes and boots included, a key with waiting items has a job in flight. |
| EventFate.GoneIsFinal | src/sync/engine.ts:245-249 | Once its row is gone, for whatever reason, an event is not handed over again in any continuation. |
| EventFate.LostInTheWindow | src/sync/engine.ts:66-80 | A run from the start that ends in a crash, or a failed insert, right after the mark: the event is doomed. |
| EventFate.LostByALateBoot | src/sync/engine.ts:119-129 | A run from the start with no crash in that window, whose boot comes more than an hour after the row was written: the event is doomed. |
| EventFate.LostByEviction | src/sync/queue.ts:56-60 | A run from the start in which another key evicts the waiting event before such a boot: the event is doomed. |
| EventFate.DispatchIsFinal | src/sync/engine.ts:184-250 | A run from the start in which the event is handed over, for each way its dispatch can end: its row is gone, its mark stays, and no continuation hands it over again. Whether a dispatch ends by an open breaker is decided in `SyncEngine.SyncEngine.DispatchJob`. |
| EventFate.EnqueuedAtMostOnce | src/sync/engine.ts:66-82 | Over any run from the start, crashes included, the webhook path enqueues a triple at most once, and only if it was answered "new". |
| EventFate.EngineSerialExactly | src/sync/engine.ts:59-250 | All states of an engine run, crashes and boots included, have serial queue keys if and only if no step of the run evicts a busy key. |
| EventFate.OneDispatchPerKey | src/sync/queue.ts:29-38 | In a run from the start without a busy eviction, each key has at most one dispatch in flight, and the events of a key are dispatched in the order this process enqueued them. |
| SyncEngine.Store.InsertSeen | src/state/dedup.ts:25-40 | The insert under the unique index succeeds for exactly the first of two racing deliveries. |
| SyncEngine.Store.CreateInflight | src/state/inflight.ts:12-27 | Adds one row under an id that no row has, and nothing else. |
| SyncEngine.Store.DeleteInflight | src/state/inflight.ts:29-34 | Removes that row and nothing else. |
| SyncEngine.SyncEngine.FindSeen | src/state/dedup.ts:21-24 | The lookup's answer decides between duplicate and insert: the engine's find step. |
| SyncEngine.SyncEngine.MarkSeen | src/state/dedup.ts:25-40 | The insert's answer decides between duplicate and new: the engine's mark step. |
| SyncEngine.SyncEngine.CreateRow | src/sync/engine.ts:72-80 | Writes the durable row of a marked delivery. |
| SyncEngine.SyncEngine.EnqueueWritten | src/sync/engine.ts:82-82 | Enqueues the written delivery under its own key as a remote entry with its row id. |
| SyncEngine.SyncEngine.EnqueueWebhookEvent | src/sync/engine.ts:59-83 | The whole call, when nothing comes between its awaits, is the run of its five steps: a duplicate exactly when the triple was marked, otherwise one row written and enqueued. |
| SyncEngine.SyncEngine.EnqueueLocalEvent | src/sync/engine.ts:86-95 | Enqueues the event under its own key as a local entry, without a row. |
| SyncEngine.SyncEngine.EnterDispatch | src/sync/engine.ts:184-204 | Drops the event exactly when an opening of its binding's breaker is in force, or else its kind has no manager; otherwise the manager is called. |
| SyncEngine.SyncEngine.LeaveDispatch | src/sync/engine.ts:228-244 | Records the manager's success or failure for the event's binding and nothing else. |
| SyncEngine.SyncEngine.FinishDispatch | src/sync/engine.ts:245-249 | Whatever the dispatch answered, its row is deleted: the step of the engine that removes a dispatched row. |
| SyncEngine.SyncEngine.DispatchJob | src/sync/engine.ts:184-250 | The whole dispatch, when nothing comes between its awaits: dropped for the breaker exactly when the recorded history has an opening in force, for its kind exactly when there is none and no manager; an outcome is recorded only if the manager was called; the row goes in every case. |
| SyncEngine.SyncEngine.ReplayNext | src/sync/engine.ts:119-167 | One turn of the boot loop: discards a listed row that is older than the cutoff or of an unknown op, and re-enqueues any other under its key, local exactly when its op is. |
| SyncEngine.SyncEngine.Start | src/sync/engine.ts:111-171 | The whole boot, when nothing comes between its awaits, is the run of list, one replay per row, and done; every listed row is resumed or discarded, and `discarded` is the number of rows that went. |
| Breaker.LazyRefinesPure | src/sync/breaker.ts:26-83 | With a clock that never runs backwards the three-state entry represents a two-field machine (failures, openedAt) that is fed with the recorded outcomes alone. |
| Breaker.FoldFindsLastOpening | src/sync/breaker.ts:59-83 | The two fields are determined by the outcomes: fewer than five failures in a row and closed, or at least five with the time of the last opening. |
| Breaker.OpenExactly | src/sync/breaker.ts:35-47 | `isOpen` holds exactly when an opening less than fifteen minutes old is in force, with no success since. |
| Breaker.QueriesUnobservable | src/sync/breaker.ts:35-47 | Two histories with the same outcomes of a binding give it the same state, whatever queries and other bindings' calls they hold. |
| Breaker.OpenFailureLeavesNoTrace | src/sync/breaker.ts:72-75 | A failure recorded while the breaker is open can be erased from the history without changing anything later; it never extends the window. |
| Breaker.InMemoryBindingBreaker.GetState | src/sync/breaker.ts:35-43 | Answers open exactly while an opening is in force and closed exactly while there is none to remember. |
| Breaker.InMemoryBindingBreaker.IsOpen | src/sync/breaker.ts:45-47 | Answers whether an opening is in force in the recorded history. |
| Breaker.InMemoryBindingBreaker.RecordSuccess | src/sync/breaker.ts:49-57 | Records a success: entries stay the run of the history. |
| Breaker.InMemoryBindingBreaker.RecordFailure | src/sync/breaker.ts:59-83 | Records a failure with its two clock readings: entries stay the run of the history. |
| AttachmentLinks.LinkAtIsThePattern | src/sync/attachment-links.ts:34-36 | The scanner finds a link at a position exactly when the text there has the pattern's shape, and then that link. |
| AttachmentLinks.RenderTokenise | src/sync/attachment-links.ts:34-36 | Scanning loses nothing: the tokens of a body spell the body. |
| AttachmentLinks.TokeniseRender | src/sync/attachment-links.ts:34-36 | Every canonical token sequence is the scan of its own text. |
| AttachmentLinks.RewritePreservesTokens | src/sync/attachment-links.ts:107-129 | With non-empty targets free of `)`, the rewritten body scans to the old tokens with only mapped URLs replaced: no link appears, vanishes, merges or moves. |
| AttachmentLinks.OnlyUrlsChange | src/sync/attachment-links.ts:123-128 | The same token by token: characters and links whose trimmed URL is not mapped stay as they are; a mapped link keeps its bang and its text and gets the mapped URL. |
| AttachmentLinks.PreservesTokensExactly | src/sync/attachment-links.ts:107-129 | That holds for all bodies if and only if the reachable targets are non-empty and free of `)`. |
| AttachmentLinks.SettledExactly | src/sync/attachment-links.ts:97-129 | With reachable targets non-empty and free of `)`: rewriting twice is rewriting once, on all bodies, if and only if no target is mapped to something else. |
| AttachmentIdempotence.IdempotentExactly | src/sync/attachment-links.ts:97-129 | For every mapping the function can build, whatever its targets: rewriting twice is rewriting once, on all bodies, if and only if for each reachable target the one link it makes is scanned again without change and leaves no bracket open. |
| AttachmentIdempotence.SettledIsNotEnough | src/sync/attachment-links.ts:123-128 | The mapping of a to b) and of b to c has settled targets and is not idempotent: without the restriction on targets the shorter condition fails. |
| AttachmentIdempotence.RewriteApart | src/sync/attachment-links.ts:34-36 | A text that ends a link and leaves no bracket open is rewritten on its own, whatever text follows it. |
| AttachmentLinks.RewriteRoundTrip | src/sync/attachment-links.ts:107-129 | With an injective mapping to trimmed targets that no other link uses, rewriting with the inverse restores the body. |
| AttachmentLinks.BuildUrlMap | src/sync/attachment-links.ts:113-118 | The map built in order: later mappings win, identity mappings are skipped. |
| AttachmentLinks.LastMappingWins | src/sync/attachment-links.ts:113-118 | Of the mappings of one URL to another, the last is the one in the map. |
| Text.TrimCutsSpace | src/sync/attachment-links.ts:66-66 | Trimming a URL cuts the white space off both ends, all of it and nothing else. |
| AttachmentLinks.ReplaceLinks | src/sync/attachment-links.ts:123-128 | The left-to-right replacing loop produces the substituted token text. |
| AttachmentLinks.RewriteAttachmentLinks | src/sync/attachment-links.ts:107-129 | The whole function, with both early returns, is the rewrite with the mappings' map. |
| AttachmentMirror.FileName | src/sync/attachment-links.ts:149-161 | The last path segment of the decoded URL up to its first question mark, or of the raw URL when decoding throws. |
| AttachmentMirror.ExtractAttachmentLinks | src/sync/attachment-links.ts:53-95 | The loop returns, in the order of the body, exactly the links whose URL is a GitLab or a Huly one by its text, each with the number of links before it, its alt text, its kind and its file name. |
| AttachmentMirror.OriginExactly | src/sync/attachment-links.ts:38-76 | A URL is Huly's if and only if it begins with `attachments://`, and otherwise GitLab's if and only if it begins with `/uploads/`, or has at some position `/uploads/` in any letter case, hexadecimal digits and a slash while there is no base URL or it begins with the base less one trailing slash. |
| AttachmentMirror.ExtractedExactly | src/sync/attachment-links.ts:53-95 | The same if-and-only-if for a single extracted link and the token it stands for. |
| AttachmentMirror.ResolvedExactly | src/sync/attachment-links.ts:135-147 | A relative upload path is put behind the base less one trailing slash and the project less one slash at either end; any other URL stays. |
| AttachmentMirror.CollectMappings | src/sync/attachments.ts:229-237 | One mapping per link that could be mirrored, in order. |
| AttachmentMirror.LastMirrored | src/sync/attachments.ts:229-239 | When one source URL is mirrored more than once, the last answer that is another URL is the one that is written. |
| AttachmentMirror.MirrorBodyGitlabToHuly | src/sync/attachments.ts:218-240 | The body is rewritten by the mappings of its own GitLab links. |
| AttachmentMirror.MirrorBodyHulyToGitlab | src/sync/attachments.ts:250-270 | The body is rewritten by the mappings of its own Huly links. |
| AttachmentMirror.LinksFromExactly | src/sync/attachments.ts:225-226 | The links that a mirror works on are exactly the links of the scan whose URL text is of its side, in the order of the body. |
| AttachmentMirror.MirrorLeavesUnmapped | src/sync/attachments.ts:218-240 | With `attachments://` targets free of `)`, the GitLab links left after mirroring are, in order and at their old indices, exactly those whose source URL was never mirrored. |
| AttachmentMirror.HulyMirrorLeavesUnmapped | src/sync/attachments.ts:250-270 | With non-empty targets free of `)` that are not `attachments://` references themselves, the Huly links left after mirroring are, in order and at their old indices, exactly those whose source URL was never mirrored. |
| AttachmentMirror.LeavesUnmapped | src/sync/attachments.ts:218-270 | The general form for both sides: it is enough that what the links of this body are mirrored to can be captured and does not count as a link of the same side. |
| Suggestions.ParseLegacy | public/user-ui/suggestion-parser.js:69-88 | The index-moving loop returns exactly the marked blocks with their ranges. |
| Suggestions.ParseGfm | public/user-ui/suggestion-parser.js:48-64 | The loop over opening fences returns exactly the fenced blocks, unclosed fences skipped. |
| Suggestions.ParseSuggestions | public/user-ui/suggestion-parser.js:36-42 | All legacy blocks followed by all fenced blocks, for the markers and fences as literally written, each list as described position by position below. |
| Suggestions.LegacyExactly | public/user-ui/suggestion-parser.js:69-88 | For every body: each block starts at the first opening marker behind the one before, its content begins behind the marker and one newline and goes up to the first closing marker without one newline in front of it; behind the last block there is no opening marker or it is not closed. |
| Suggestions.GfmExactly | public/user-ui/suggestion-parser.js:48-64 | For every body: each block starts at the first fence behind the one before that starts a line which ends, its content goes from the next line up to the first closing fence; behind the last block no opening fence is closed. |
| Suggestions.LegacyRoundTrip | public/user-ui/suggestion-parser.js:69-88 | Contents free of the close marker, rendered between texts free of the open marker, are parsed back in order with their exact ranges. |
| Suggestions.GfmRoundTrip | public/user-ui/suggestion-parser.js:48-64 | Contents free of a closing fence, rendered in fences that start a line between texts without opening fences, are parsed back in order with their exact ranges. |
| Suggestions.LegacyOrdered | public/user-ui/suggestion-parser.js:69-88 | For every body the marked blocks have non-empty, disjoint, increasing ranges inside it. |
| Suggestions.GfmOrdered | public/user-ui/suggestion-parser.js:48-64 | For every body the fenced blocks have non-empty, disjoint, increasing ranges inside it. |
| MixinMigration.FieldsKept | src/sync/mixin-migration.ts:189-247 | None of the 17 core and review fields leaves the unified view, and its value changes only if a review field sits in the core mixin, which the declared shapes exclude. |
| MixinMigration.MigratedExactly | src/sync/mixin-migration.ts:189-247 | The whole outcome for one document, attribute by attribute: untouched without a legacy mixin, or without a core mixin and some core field; otherwise the legacy mixin is empty, and a missing core or review mixin holds exactly the legacy fields of its part and the marker. |
| MixinMigration.AffectsExactly | src/sync/mixin-migration.ts:183-230 | Which documents count as stripped, as core written and as review written, in terms of their attributes. |
| MixinMigration.DroppedExactly | src/sync/mixin-migration.ts:236-247 | A field leaves the view if and only if the document was read through its complete legacy mixin and the field is in neither key list. |
| MixinMigration.PipelineStatusLost | src/sync/pipeline.ts:124-130 | `pipelineStatus`, which the pipeline manager keeps on the legacy mixin, is afterwards in none of the three mixins, for every document that is migrated and whose new mixins did not hold it. |
| MixinMigration.HiddenMeanwhileExactly | src/sync/mixin-migration.ts:206-230 | During a run a field is missing from the view if and only if it is a review field of a legacy-only document and just the core write was made. |
| MixinMigration.Idempotent | src/sync/mixin-migration.ts:88-91 | A second run changes nothing, and makes no write on a document that was split. |
| MixinMigration.Converges | src/sync/mixin-migration.ts:186-247 | Any number of runs, each stopped after any number of its writes, followed by one full run ends where one unbroken run ends. |
| MixinMigration.StoreConverges | src/sync/mixin-migration.ts:152-276 | The same for the whole store, every document at its own point of interruption. |
| MixinMigration.PickFields | src/sync/mixin-migration.ts:283-295 | The loop returns the defined attributes of the source among the keys. |
| MixinMigration.WaitForBackfillDrain | src/sync/mixin-migration.ts:312-332 | Drained exactly when there is nothing to wait for or some poll, the last one included, saw the flag cleared. |
| MixinMigration.HulyClient.MigrateDoc | src/sync/mixin-migration.ts:177-267 | Makes exactly the planned writes in order, and reports unresolved, core written, review written and stripped for exactly the documents concerned. |
| MixinMigration.HulyClient.MigrateMixinSplit | src/sync/mixin-migration.ts:97-279 | Makes no write when the drain times out or the binding is active. Otherwise it migrates the issue of every merge-request row of this workspace whose id begins with the binding's prefix, and changes and writes to no other document; `scanned` counts exactly those rows, and the other counters the documents and rows concerned. |
| Issues.ResolveLww | src/sync/conflict.ts:23-49 | The winner is present and not older than a present loser; remote wins ties; nobody wins exactly when both are missing. |
| Issues.ApplyLwwFieldByField | src/sync/conflict.ts:64-80 | The loop decides every field of either side by the scalar resolver. |
| Issues.AreEqualExactly | src/sync/issues.ts:591-605 | Two values count as equal exactly when they are the same, label lists when they have the same length and the same members. |
| Issues.UpdateExactly | src/sync/issues.ts:327-386 | One update of any document, field by field: a version not older than it leaves each of its values there; an older one only fills in what is missing; the timestamp is the version's exactly when something changed. |
| Issues.UpdateCases | src/sync/issues.ts:327-386 | An older version and one with the same content change nothing; any other version replaces all contents and the timestamp. |
| Issues.Converges | src/sync/issues.ts:282-386 | Versions with distinct positive timestamps and pairwise different contents, in any order with any repetitions, leave the newest content and its timestamp. |
| Issues.ConvergesPlainly | src/sync/issues.ts:282-386 | The same in plain terms: afterwards each field of the document is the newest version's value, the label list up to order. |
| Issues.ConvergesExactly | src/sync/issues.ts:370-386 | For distinct timestamps only: every order of delivery ends with the newest content if and only if no version with that content is older than a version with another. |
| Issues.RevertLosesNewest | src/sync/issues.ts:370-386 | Content a at 1, a at 3, b at 2, delivered in that order, ends at b with timestamp 2. |
| IssueCursor.CursorFallsExactly | src/sync/issues.ts:311-386 | After any run over several issues, one more delivery moves the shared cursor back if and only if it is older than the cursor and is the first of its issue, or newer than what the deliveries of its own issue leave in its document. |
| IssueCursor.CursorHighWaterExactly | src/sync/issues.ts:311-386 | For distinct timestamps: in every order of delivery, with any repetitions, the cursor ends at the newest timestamp if and only if all deliveries are of one issue and no version comes between an older one with the newest content and the newest. |
| IssueCursor.IssuesAreApart | src/sync/issues.ts:217-386 | In a run over several issues, the mirror of each is what its own deliveries alone lead to. |
| Issues.IssuesSyncManager.Take | src/sync/issues.ts:353-365 | Adds the field to the update exactly when the remote value wins and differs. |
| Issues.IssuesSyncManager.ApplyRemote | src/sync/issues.ts:217-386 | Creates, updates, or leaves alone (unmapped status, missing document) the one mirrored issue and sets the binding's cursor; every other issue's mirror is unchanged. A version not older than the document leaves each of its values there. |
| RateLimit.TokensInRange | src/http/rate-limit.ts:30-43 | Tokens stay between zero and the capacity over every run with a monotone clock. |
| RateLimit.PruningUnobservable | src/http/rate-limit.ts:21-38 | When a prunable bucket has had time to fill up, every answer is that of a limiter for this key alone that never prunes. |
| RateLimit.WindowBound | src/http/rate-limit.ts:27-45 | Between any two operations T seconds apart one key is admitted at most capacity + T * refill times, in every run where pruning is unobserved. |
| RateLimit.PruneSafeExactly | src/http/rate-limit.ts:21-24 | For a whole capacity: pruning is unobserved in all runs, and the window bound holds in all runs, if and only if 300.001 seconds fill a bucket. |
| RateLimit.BelowOneNothingPasses | src/http/rate-limit.ts:39-42 | With a capacity below one token no request is ever admitted, so pruning is never observed at any rate. |
| RateLimit.DefaultIsSafe | src/http/rate-limit.ts:16-17 | The default refill rate satisfies that condition at every capacity. |
| RateLimit.RetryAfterIsLeast | src/http/rate-limit.ts:39-42 | Waiting w whole seconds is enough if and only if w is at least the `retryAfter` advised. |
| RateLimit.RateLimiter.Handle | src/http/rate-limit.ts:27-45 | Passes a request exactly when the key's own unpruned history would, and otherwise advises from the tokens left. |
| RateLimit.RateLimiter.PruneBuckets | src/http/rate-limit.ts:21-24 | Removes exactly the buckets last refilled more than five minutes ago. |
| ApprovalRulesCache.NeverOverfull | src/adapter/gitlab-client.ts:1075-1085 | At most 256 entries, one per key, after every history. |
| ApprovalRulesCache.HitIsLatest | src/adapter/gitlab-client.ts:1062-1073 | A hit is the value set last for the key, less than ten seconds old and not invalidated since. |
| ApprovalRulesCache.MissNeeds256Others | src/adapter/gitlab-client.ts:1075-1085 | A live value is missed only after at least 256 distinct other keys were set or found since its own last use. |
| ApprovalRulesCache.PresentExactly | src/adapter/gitlab-client.ts:1062-1085 | If nothing was removed since, a live value is found if and only if fewer than 256 others were used. |
| ApprovalRulesCache.Cache.CacheGet | src/adapter/gitlab-client.ts:1062-1073 | Answers as the ordered map does, and never anything but the plain map's value; an expired entry goes, a hit moves to the back. |
| ApprovalRulesCache.Cache.CacheSet | src/adapter/gitlab-client.ts:1075-1085 | Sets the key as the most recent, and the eviction loop leaves at most 256. |
| ApprovalRulesCache.Cache.CacheInvalidate | src/adapter/gitlab-client.ts:1087-1089 | Removes the key's entry. |
| BindingRegistry.KeysEqualExactly | src/sync/multi-instance.ts:43-51 | Two keys are equal if and only if the project numbers are and, in composite form, the hash prefixes. |
| BindingRegistry.KeyForm | src/sync/multi-instance.ts:43-51 | The key in use is the plain project number while all registrations have one base URL, and the prefix, a colon and the number as soon as two differ. |
| BindingRegistry.DecimalExactly | src/sync/multi-instance.ts:43-51 | The number in a key is its decimal form: digits only, without a leading zero, and of the right value. |
| BindingRegistry.RekeyIsReference | src/sync/binding-loader.ts:565-587 | Re-keying takes the map of a one-instance history to the composite map of the same history, and later re-keyings change nothing. |
| BindingRegistry.AnswersAllExactly | src/sync/binding-loader.ts:547-592 | Every registered (base URL, project) pair finds the binding it registered last if and only if, once there are two instances, no two with equal prefixes hold different bindings for one project number. |
| BindingRegistry.InjectiveExactly | src/sync/multi-instance.ts:43-51 | For any given set of instances: every history over them finds all its bindings if and only if no two of the instances have the same hash prefix. |
| BindingRegistry.BindingMap.Rekey | src/sync/binding-loader.ts:565-587 | The loop over the entries, in any order, and the refill of the same map object yield the re-keyed bindings and metadata. |
| BindingRegistry.WorkspaceRegistry.RegisterBaseUrl | src/sync/binding-loader.ts:607-614 | Adds the URL to the workspace's set. |
| BindingRegistry.WorkspaceRegistry.RegisterBinding | src/sync/binding-loader.ts:547-592 | After every registration the shared map is the map from each current key to the binding registered last under it, with nothing lost or merged by re-keying; this registration is found under its key in the form then in use. |
| TxSubscriber.MarkedIsOriginated | src/sync/tx-subscription.ts:80-93 | A payload that went through a marker helper is recognised on every transaction but a remove. |
| TxSubscriber.OperatorMarkOnAttributes | src/sync/originated-marker.ts:23-30 | On the attributes of a create or mixin the operator helper's mark is seen if and only if the root already carries it or there is no `$set` object. |
| TxSubscriber.AcceptExactly | src/sync/tx-subscription.ts:189-316 | A transaction is accepted if and only if it is no echo, its binding resolves, and it is a merge-request or review mixin or a create, update or remove of an issue or a chat message; its entry has that kind, the object's id and the payload as change, `_removed` for a remove. |
| TxSubscriber.ResolveExactly | src/sync/tx-subscription.ts:321-331 | The binding is the resolver's answer, and without a resolver the one binding of a map with one entry. |
| TxSubscriber.DispatchesAcceptedInOrder | src/sync/tx-subscription.ts:174-239 | In a run without a stop the engine gets the first 1024 accepted before it was marked started, then all accepted afterwards, in order of arrival, and nothing before the mark. |
| TxSubscriber.StoppedIsSilent | src/sync/tx-subscription.ts:183-190 | From a stop to the next start nothing is dispatched and the buffer is gone. |
| TxSubscriber.EchoesInvisible | src/sync/tx-subscription.ts:189-207 | Erasing every self-authored or marked transaction from any run changes neither what is dispatched nor what is buffered. |
| TxSubscriber.Subscriber.ResolveBinding | src/sync/tx-subscription.ts:321-331 | The resolver's answer if there is a resolver, else the only binding of a map with one entry. |
| TxSubscriber.Subscriber.OnTx | src/sync/tx-subscription.ts:189-239 | One transaction through the handler: the entry the table gives it is dispatched, or buffered among the first 1024 before the start; any other transaction changes nothing. |
| TxSubscriber.Subscriber.HandleNotify | src/sync/tx-subscription.ts:155-166 | A batch is handled one by one, in order, each transaction with its own answer of the resolver. |
| TxSubscriber.Subscriber.MarkEngineStarted | src/sync/tx-subscription.ts:174-180 | Flushes the buffer in order and switches to direct dispatch. |
| TxSubscriber.Subscriber.StopListening | src/sync/tx-subscription.ts:183-187 | Detaches the handler and clears the buffer. |
| Deferral.Parse | src/sync/notes.ts:63-171 | A hook is a line comment exactly when it is a merge-request note with an id, an iid, a text position and all three hashes; malformed exactly when only hashes are missing; a plain note exactly when it has an id and either an issue parent with an iid or a merge request with an iid and no text position; anything else is rejected. |
| Deferral.EndsAtOnce | src/sync/notes.ts:347-468 | A system note is skipped, and a hook that cannot be read is dropped, at the first dispatch. |
| Deferral.DispatchDecreases | src/sync/deferred-parent.ts:18-22 | Whatever the parent lookup answers, a re-enqueued record is closer to its end in (kind, flags). |
| Deferral.AtMostThree | src/sync/notes.ts:380-461 | One delivery causes at most three dispatches across both managers, for all lookup answers and whatever event ids were seen before. |
| Deferral.MeasureReached | src/sync/notes.ts:380-461 | For every record the measure is the exact maximum: some answers reach it, three for a fresh line comment. |
| Deferral.LineCommentLostExactly | src/sync/notes.ts:396-423 | A fresh line comment is lost if and only if two of the first three lookups miss, or the event id and version under which it is put back had been seen. |
| Deferral.OthersLostExactly | src/sync/mr-review.ts:167-194 | Any other fresh note, and a fresh thread, is lost if and only if its first lookup misses and the retry misses too or its event id and version had been seen. |
| Deferral.MarkAndRetry | src/sync/deferred-parent.ts:18-22 | True exactly the first time for a record and flag; the record itself keeps the flag. |
| Deferral.ApplyNote | src/sync/notes.ts:347-524 | Drops, defers, hands on to the review manager with the flags carried over, or applies. |
| Deferral.ApplyThread | src/sync/mr-review.ts:148-194 | Applies, defers once, or drops. |
| Deferral.RunDelivery | src/sync/notes.ts:347-524 | Both managers and the deduplication of what they put back, over one delivery, end as specified after at most three dispatches. |

## Left out

- HTTP routes, OAuth, cookies, webhook registration, configuration, logging and metrics: input/output and thin validation.
- Encryption, HMAC and SHA-256: foreign calls; the key prefix is any function to eight characters.
- GitLab REST and GraphQL fetching, the mapping of raw payloads to sync records, and the Markdown conversion: calls into code outside the repository. Issue versions are the records as the adapter yields them.
- `withRateLimitRetry`, status maps, label and milestone caches, `BindingLoader.close` and workspace client caching: a reading settles them.
- In the engine's state machine the way a dispatch ends (applied, manager threw, breaker open, no manager) is an input; the object's `DispatchJob` ties it to the breaker and the registered managers.
- Backfill entries of the engine (`enqueueBackfill`): they write no row and add nothing to the recovery claims; local events are modelled without a row, as in the source.
- Two processes sharing the database at once, and the database's own expiry of old rows: one process at a time, and dedup rows live as long as the run.
- The timeout of `drainAll`: the model has the registration and the waiting, not the race against a timer.
- SyncEngine.SyncEngine.Start, SyncEngine.SyncEngine.EnqueueWebhookEvent, SyncEngine.SyncEngine.DispatchJob: the uninterrupted calls; calls whose awaits interleave are runs of the state machine, taken by the methods for the single steps.
- The fetching, size limit and caching of uploads: the upload is an oracle that answers a target or nothing. Percent-decoding is any function that may throw.
- The post-strip verification branch of the migration: the modelled platform removes every attribute it is asked to remove, so the branch never fires.
- Reading mixins through the platform's hierarchy object: the view is read by mixin key.
- Merge requests and the note-body cursor in the convergence theorem: they compare against local values and a binding-wide cursor.
- The outer maps of the binding loader, keyed by workspace: the registry is one workspace's fields. Project numbers are non-negative.
- JSON arrays in transaction payloads: a payload value is a scalar or an object. An exception thrown by the engine inside the flush loop is not modelled.
- The writes of notes and threads once the parent is found, and an open breaker or a crash between two dispatches of one delivery, are outside the deferral model.
- Engine.OneRowPerTriple: says nothing once a dedup row has expired, because rows do not expire in the model.
- RateLimit.PruneSafeExactly: the condition is exact for whole capacities and sufficient for all; for a fractional capacity above one, which token levels a run can reach depends on how the rate divides into milliseconds, so a bucket that is not quite full may go unobserved.
- AttachmentIdempotence.IdempotentExactly: for mappings without identities; the function skips identities when it builds its mapping.
- RateLimit.WindowBound: tokens are reals, so the rounding of floating-point refills is not bounded.
