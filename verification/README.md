# Remem: verified models of its hard parts

Remem stores memories, their attributes, the relations between them, and the background
work that maintains them, in one ordered key-value store. This project models six parts of
it in Dafny and proves what each is trusted for.

* **The attribute row cache.** A cache of decoded rows shared by readers on different
  snapshots and by writers whose commits become visible before their callbacks run. The
  protocol is modelled as interleaved micro-steps (`row_cache_protocol.dfy`), its gate and
  its shards as values (`row_cache_gate.dfy`, `row_cache_shard.dfy`), the marks as exactly
  the open writes (`row_cache_marks.dfy`), eviction over any uses
  (`row_cache_recency.dfy`), and the cache and its reader as the classes they are
  (`row_cache.dfy`).
* **Graph traversal.** Best-first search with a table of the best strength per depth, a
  stale check and a node budget (`traverse.dfy`), against walks as paths
  (`traverse_spec.dfy`). Strengths are reals with an arbitrary order-keeping product that
  never strengthens; rounding to float32 is one such product.
* **The job queue.** Six states over three partitions, leases with fencing tokens, and
  conditional commits. `jobs_protocol.dfy` is the queue as reads and commits interleaved
  without any lock, `jobs_leases.dfy` how long a claim is good for in it, and
  `jobs_queue.dfy` the queue as a class over its rows.
* **Keys, the slot index and ordered selection.** Byte order and prefix ranges
  (`byte_order.dfy`), order-preserving values (`value_order.dfy`), the key layout
  (`keys.dfy`), index maintenance inside transactions (`attr_index.dfy`), predicates and
  their bounds (`attr_predicate.dfy`, `attr_select.dfy`), and the paged walk
  (`attr_walk.dfy`).
* **Lifecycle.** Retention policies (`lifecycle_policy.dfy`), one pass and the schedule that
  has to agree with it (`lifecycle_pass.dfy`), recalls recorded, folded and trimmed
  (`lifecycle_recall.dfy`), what a pass, a fold and a visit do to each field
  (`lifecycle_effects.dfy`), and the code that does it in place (`lifecycle.dfy`).
* **The edge mirror and discovery's writes.** One store of bytes under bytes
  (`storage.dfy`), the two keys of an edge in it (`graph_keys.dfy`), the writers that keep
  both rows in step (`graph_mirror.dfy`), the checker (`graph_verify.dfy`), the rebuild
  (`graph_rebuild.dfy`), and the optimistic writes that link two memories at most once
  (`graph_unique.dfy`).

Conventions. The store is a map and a snapshot a frozen copy of it; a transaction is its
staged writes and the values it expects, checked and applied at once; a condition on a key
already written or already conditioned is ignored. Identifiers are sixteen bytes, and every
identifier or token drawn is new. Clocks, drawn identifiers and codecs are parameters. Bytes are integers
from 0 to 255; machine integers are bounded where their width matters, in keys and
encodings, and unbounded counters elsewhere.

Five properties one might expect turn out to need a condition, and the models say which.

* A lifecycle pass acts when the schedule says so, or on sight of a memory whose health had
  already run out; `LifecyclePass.RunDownIsNotScheduled` is such a memory,
  `LifecyclePass.ScheduleIsExact` the exact condition, and
  `LifecyclePass.AttentionIsLateExactly` when it makes the schedule late.
* A recall window under a millisecond loses recalls:
  `LifecycleRecall.ShorterWindowsLoseRecalls` gives the run for each such window, and
  `LifecycleRecall.EveryRecallIsCountedOnce` holds for every other.
* Enqueuing checks only the new row's own key, so it keeps one row a job exactly when no
  other row has the id (`JobsQueue.Queue.Enqueue`); `JobsQueue.EnqueuedTwice` gives the
  calls that leave two.
* Removing every edge of a record reads the store and not the transaction's own writes, so
  an edge staged there just before can survive (`GraphMirror.StagedEdgeSurvives`);
  `GraphMirror.NothingTouchesExactly` says exactly when none does.
* The graph checker reads an edge key by its tail, so it misses an in-key with bytes to
  spare (`GraphVerify.StrayKeyIsMissed`); `GraphVerify.Verify` says that without findings
  the graph is consistent exactly when its edge keys are whole.

Where a comment and the code differ, the code is modelled. The comment at
internal/jobs/lease.go:119-126 says that a job reclaimed and claimed again with the same
lease lands on the same key; with one forward clock and a positive lease it lands later
(`JobsModel.ClaimedAgainLandsLater`). The protocol here does not order the clocks of
different workers, so the fence is proved sufficient either way.

## Model

| member | source | states |
|---|---|---|
| `RowCacheProtocol.StepKeeps` | internal/attr/cache_gate.go:210-285 | each of the fifteen micro-steps of readers and writers keeps the ten-part invariant tying marks, entries, generations, snapshots and mutexes |
| `RowCacheProtocol.RunKeeps` | internal/attr/cache.go:96-105 | every state of every interleaving satisfies that invariant |
| `RowCacheProtocol.ServedRowIsTheSnapshotsRow` | internal/attr/cache.go:317-345 | in every run, a row the cache serves is the row in that reader's own snapshot |
| `RowCacheProtocol.EveryOpenWriteIsMarked` | internal/attr/cache_gate.go:210-234 | in every run, while the cache is on, each write past its beginning and not yet unmarked has its own mark in its row's shard |
| `RowCacheProtocol.OnlyTheLastWriteRecovers` | internal/attr/cache_gate.go:158-178 | only the last write leaving, with no clearing under way, turns the cache back on |
| `RowCacheProtocol.RecoveryIsQuiet` | internal/attr/cache_gate.go:345-354 | in every run, turning the cache back on leaves no write in flight and no entry from before the clearing; the last write out always turns it on; a balanced run never latches the gate |
| `RowCacheProtocol.UnmarkTakesOnlyItsOwn` | internal/attr/cache_gate.go:288-306 | unmarking leaves every other open write its own mark |
| `RowCacheProtocol.UnmarkedRowAgrees` | internal/attr/cache.go:317-345 | a reader past the off, mark and generation checks agrees with the store on that row |
| `RowCacheProtocol.OfferIsKept` | internal/attr/cache.go:364-389 | an offer that passed every check leaves the reader's row in the cache |
| `RowCacheMarks.StepKeepsMarks` | internal/attr/cache_gate.go:210-306 | every step keeps each mark with an open write of its row, one each |
| `RowCacheMarks.MarksAreTheOpenWrites` | internal/attr/cache.go:71-77 | in every run, the marks of a row are open writes of it, one each, and while the cache is on all of them |
| `RowCacheMarks.NothingInFlightNothingMarked` | internal/attr/cache.go:71-77 | in every run, with no write in flight no row is marked |
| `RowCacheGate.GateRun` | internal/attr/cache_gate.go:108-178 | over every sequence of calls, until an underflow the count is the writes outstanding and the cache is off exactly when more than 65536 have been outstanding and not yet none again; from then on the gate is latched and off for good |
| `RowCacheShard.OperationsKeepTheShardValid` | internal/attr/cache.go:364-389 | marking, finishing, touching and storing keep the recency list an exact, bounded list of the entries |
| `RowCacheShard.StoreRowEntries` | internal/attr/cache.go:364-389 | a stored row is there, marks are untouched, and every other entry is kept as it was or evicted |
| `RowCacheShard.WithoutMarkIsOneLess` | internal/attr/cache_gate.go:288-306 | finishing removes exactly one of the marks, the one that is its own |
| `RowCacheShard.KeysNameRows` | internal/attr/cache.go:419-424 | two rows share a key exactly when tenant, record and namespace agree, an empty namespace being the default one |
| `RowCacheRecency.LeastRecentlyUsedGoes` | internal/attr/cache.go:364-389 | over every run of rows stored and served, the rows held are in order of last use, and a row used and not held was last used before all of them, the shard being full |
| `RowCache.Cache.LookupAt` | internal/attr/cache.go:317-345 | a lookup answers only with an entry of the reader's generation, that generation still current, the row unmarked and the cache on |
| `RowCache.Cache.StoreAt` | internal/attr/cache.go:364-389 | a store happens exactly under the same checks, and evicts down to capacity |
| `RowCache.Cache.Evict` | internal/attr/cache.go:379-388 | the loop keeps exactly the most recently used entries the capacity allows |
| `RowCache.Cache.GiveBack` | internal/attr/cache_gate.go:288-306 | the scan takes one occurrence of the transaction's own mark, and finding none is normal |
| `RowCache.Cache.BeginWrite` | internal/attr/cache_gate.go:210-234 | a write enters the gate, empties every shard if it trips it, and otherwise marks its row and drops its entry |
| `RowCache.Cache.FinishWrite` | internal/attr/cache_gate.go:270-285 | the end of a write moves the tenant's generation, gives its mark back and leaves the gate |
| `RowCache.Cache.ReleaseEverything` | internal/attr/cache_gate.go:345-354 | every shard is emptied of entries and marks |
| `RowCache.CachedReader.Row` | internal/attr/cache_reader.go:72-90 | through the cache or past it, a reader gets its snapshot's row; it is a hit exactly when the cache could answer, a miss the cache admits is kept, and the agreement the call began with still holds |
| `RowCache.AdmittedRowAgrees` | internal/attr/cache.go:96-105 | in any state the protocol reaches, an entry that may be served to a reader is its snapshot's row |
| `RowCache.ReadersAgreeInEveryRun` | internal/attr/cache_reader.go:72-90 | that agreement holds of every reader at every point of every run |
| `TraverseSpec.RoundedProductQualifies` | internal/graph/traverse.go:155-239 | any rounding that keeps order and held numbers gives a product the search may use |
| `TraverseSpec.NeighbourhoodIsReachable` | internal/graph/traverse.go:138-239 | the finite set of level-by-level labels names exactly the nodes some followed walk within the depth reaches |
| `TraverseSpec.TurningRoundReachesTheSame` | internal/graph/store.go:235-240 | turning every edge round and following the other way, or both ways still, reaches the same nodes |
| `Traverse.ResolveBounds` | internal/graph/traverse.go:273-295 | depths over 5 and node counts over 10000 are refused, as are negative ones; zero takes 1 and 200; the rest are kept |
| `Traverse.ScansMeetEveryHop` | internal/graph/traverse.go:210-266 | scanning each direction asked for meets exactly the hops a walk may take: edges out of the node, into it, or both, strong enough and of a type asked for |
| `Traverse.Improves` | internal/graph/traverse.go:155-239 | an arrival is recorded exactly when it beats the node's best at its depth |
| `Traverse.Stale` | internal/graph/traverse.go:243-250 | an entry is stale exactly when the node was reached stronger at no greater depth |
| `Traverse.Pop` | internal/graph/traverse.go:305-319 | the entry taken is beaten by none, and nothing else leaves the frontier |
| `Traverse.WalkIsMet` | internal/graph/traverse.go:155-239 | once the frontier holds nothing better, every followed walk is met by an expanded label no weaker and no longer |
| `Traverse.FirstPopIsBest` | internal/graph/traverse.go:155-239 | the first time a node comes off the frontier it carries its maximum strength, the fewest hops at that strength, and the last edge of such a walk |
| `Traverse.Run` | internal/graph/traverse.go:138-239 | it ends on every finite graph; results are best and in order; truncated exactly when more nodes are reachable than the budget; else exactly the reachable set; truncated, nothing omitted is stronger than anything reported |
| `Traverse.TraverseFrom` | internal/graph/traverse.go:138-239 | the requests refused, and for every other that result, over the hops the options allow and the bounds resolved |
| `JobsProtocol.PlanIsOk` | internal/jobs/lease.go:46-117 | a transition that passes the fence is planned, with a legal move and an accepted history row; every other is a conflict |
| `JobsProtocol.OperationsAreLegal` | internal/jobs/lease.go:148-212 | completing, failing, renewing, saving, releasing and cancelling are legal moves of the row read, so long as copy and row are of one attempt |
| `JobsProtocol.TokensMatchAttempts` | internal/jobs/lease.go:127-141 | a copy whose token the row carries is of that row's job and attempt |
| `JobsProtocol.StepKeeps` | internal/jobs/queue.go:311-332 | each read, commit, enqueue, find and reap keeps the invariant on rows, copies, transactions, tallies and history |
| `JobsProtocol.RunKeeps` | internal/jobs/queue.go:181-188 | every reachable state of every interleaving, with no lock, satisfies it |
| `JobsProtocol.OneRowPerJob` | internal/jobs/codec.go:124-138 | over every run from an empty queue, a job has at most one row, at the key its state and due time determine, and it decodes |
| `JobsProtocol.ExactlyOneRowUntilReaped` | internal/jobs/queue.go:306-332 | over every run from its enqueuing in which it is not reaped, a job has exactly one row |
| `JobsProtocol.LeavingALeaseLosesIt` | internal/jobs/lease.go:227-273 | a committed reclamation, cancellation, finish, release or new claim loses every token granted for the job before |
| `JobsProtocol.LostStaysLost` | internal/jobs/lease.go:119-141 | a lost token never comes back to any row |
| `JobsProtocol.LostHolderConflicts` | internal/jobs/lease.go:127-141 | every operation of a lost holder is refused with a conflict, even where another's row sits at the key it remembers |
| `JobsProtocol.LostTransactionConflicts` | internal/jobs/lease.go:79-113 | a transaction it had already read conflicts at commit |
| `JobsProtocol.OldHolderChangesNothing` | internal/jobs/lease.go:46-141 | over every run after the loss, no read or commit of the old holder changes rows, history or copies |
| `JobsProtocol.FinishedStaysFinished` | internal/jobs/job.go:105-131 | over every run, a finished row is never rewritten; it is only reaped, and then the job never comes back |
| `JobsProtocol.WorkIsNeverChanged` | internal/jobs/lease.go:19-41 | over every run, a job's type, payload, priority, creation time and bound are the ones it was enqueued with |
| `JobsProtocol.NothingIsTakenEarly` | internal/jobs/queue.go:261-292 | in every run, a job is read for a claim only once the time its row names has come, and for a reclamation only once its lease has run out |
| `JobsProtocol.WritersWordIsKept` | internal/jobs/retry.go:79-100 | over every run, a failed job is not read for a claim before its delay is over nor a renewed one for reclamation before its lease is, while the row is the one written; a finished one is read for neither |
| `JobsLeases.LeaseLastsUnlessRenewed` | internal/jobs/queue.go:218-240 | over every run after a claim, a row under its token is not read for reclamation before the claim's instant and lease are up, unless a renewal under that token began |
| `JobsProtocol.AttemptsStayInBounds` | internal/jobs/retry.go:79-100 | waiting rows have an attempt left, running rows have used between one and all, and copies under the row's token agree with it |
| `JobsProtocol.ClaimsAreBounded` | internal/jobs/queue.go:218-240 | a job is claimed exactly its attempts plus its releases while it has a row, and never more than its bound plus its releases |
| `JobsProtocol.AttemptsAreRecordedOnce` | internal/jobs/lease.go:91-110 | no two history rows of one job carry one attempt number |
| `JobsProtocol.HistoryIsNeverRefused` | internal/jobs/execute.go:87-144 | a transition is refused only because the row moved on; its history row is written exactly when it commits |
| `JobsQueue.ScanOrderIsByteOrder` | internal/keys/keys.go:108-113 | due time then id is the byte order of the stored keys of a partition |
| `JobsQueue.Queue.Enqueue` | internal/jobs/queue.go:103-148 | everything left at zero gets its default, field by field, and the rest is kept; a non-waiting state is refused, an occupied key is a conflict; the row is stored where it belongs; one row a job survives exactly when no other row has the id |
| `JobsQueue.EnqueuedTwice` | internal/jobs/queue.go:142-146 | two calls under one id at different times both succeed and leave the job two rows |
| `JobsModel.ClaimedAgainLandsLater` | internal/jobs/lease.go:119-126 | a job whose lease lapsed, reclaimed and claimed again by one forward clock, is at its first key exactly when the lease has no length and no time has passed |
| `JobsQueue.Queue.CarryOut` | internal/jobs/lease.go:46-117 | a call is the protocol's plan and commit: rows, history and the caller's copy all change, or none |
| `JobsQueue.HolderIsNotRefused` | internal/jobs/lease.go:127-141 | whoever holds the row as it stands and may act on it is not refused |
| `JobsQueue.Queue.TransitionWithRun` | internal/jobs/lease.go:46-117 | each operation's state, lease, error, attempts, times and history row afterwards, the rest of the job kept, one row exchanged for the other; refused as invalid, corrupt or a conflict for the reason each names, and then nothing changes; a current holder succeeds |
| `JobsQueue.Queue.Scan` | internal/jobs/queue.go:261-292 | a partition's rows up to a bound, all of them, in due order |
| `JobsQueue.IsWanted` | internal/jobs/queue.go:294-304 | the loop answers whether a type is among those asked for, an empty list asking for all |
| `JobsQueue.Queue.Due` | internal/jobs/queue.go:261-292 | of the first 1024 rows due, those of the wanted types, the oldest first, and all of them unless as many as asked for are found |
| `JobsQueue.Queue.Move` | internal/jobs/queue.go:311-332 | the row moves whole if it is untouched, else nothing changes |
| `JobsQueue.Queue.MoveEach` | internal/jobs/queue.go:218-240 | over any store, exactly the rows still as they were scanned are exchanged for their successors, in order; the others are passed over |
| `JobsQueue.SortByPriority` | internal/jobs/queue.go:212-216 | the rows scanned come out the more urgent first and, within a priority, the oldest first |
| `JobsQueue.Queue.Claim` | internal/jobs/queue.go:189-241 | the oldest wanted due rows, as many as asked for or all a scan sees, the more urgent first; each one's owner, expiry, token, attempt and times are set and the rest kept; it is handed out as stored where it belongs; no other row changes |
| `JobsQueue.Queue.Reclaim` | internal/jobs/lease.go:227-273 | the leases that lapsed first, as many as asked for or all a scan sees, go back to waiting or fail, field by field, and are counted; no other row changes |
| `JobsQueue.Queue.Reap` | internal/jobs/admin.go:244-278 | exactly the oldest finished rows before the cutoff are removed, as many as asked for or all a scan sees |
| `JobsQueue.MovesKeepRows` | internal/jobs/queue.go:306-332 | rows moved one by one leave the others as they were and keep one row a job |
| `ByteOrder.SuccessorIsNext` | internal/attr/select.go:380-384 | nothing lies between a key and that key with a zero byte added |
| `ByteOrder.PrefixBounds` | internal/keys/keys.go:275-292 | the range from a prefix to its end holds exactly the keys that begin with it |
| `ByteOrder.PrefixRange` | internal/keys/keys.go:280-292 | the loop returns that range, unbounded exactly for a prefix of 0xFF bytes |
| `ByteOrder.BigEndianOrders` | internal/keys/order.go:29-31 | big-endian bytes sort as their numbers, whatever follows |
| `ByteOrder.BigEndianDecodes` | internal/keys/order.go:34-39 | decoding undoes encoding |
| `ByteOrder.BigEndianEncodes` | internal/keys/order.go:34-39 | encoding undoes decoding |
| `ValueOrder.Int64Orders` | internal/keys/order.go:47-49 | flipping the sign bit sorts signed integers as bytes |
| `ValueOrder.Int64Decodes` | internal/keys/order.go:52-57 | an encoded signed integer followed by anything decodes to it and what followed |
| `ValueOrder.ScaledIncreases` | internal/keys/order.go:59-69 | within one sign, larger IEEE 754 bits are a larger number, in both widths |
| `ValueOrder.FloatOrders` | internal/keys/order.go:211-237 | the transform orders non-NaN bits as their numbers, negative zero just below positive zero |
| `ValueOrder.FloatBitsReturn` | internal/keys/order.go:211-237 | the transform and its inverse undo each other both ways |
| `ValueOrder.FloatEncodingOrders` | internal/keys/order.go:70-89 | encoded floats sort as their numbers, whatever follows |
| `ValueOrder.FloatDecodes` | internal/keys/order.go:70-98 | bytes decode to a bit pattern and a remainder exactly when they are its encoding followed by it, for every pattern of either width |
| `ValueOrder.PutString` | internal/keys/order.go:167-176 | the loop writes the escaped, terminated string |
| `ValueOrder.GetString` | internal/keys/order.go:180-204 | the loop succeeds exactly on an escaped string followed by anything, and returns that string and the rest |
| `ValueOrder.EscapedOrders` | internal/keys/order.go:154-176 | escaped strings sort as the strings, whatever follows them |
| `ValueOrder.F32` | internal/attr/value.go:91-98 | NaN and negative zero become zero; the number is otherwise kept |
| `ValueOrder.EncodingOrders` | internal/attr/value.go:156-215 | for any two values of one type, byte order is value order, whatever follows each |
| `ValueOrder.EncodingIsInjective` | internal/attr/value.go:156-177 | equal encodings with anything after them are equal values and equal remainders |
| `ValueOrder.PrefixFree` | internal/attr/value.go:156-177 | no encoding is a proper beginning of another of its type |
| `ValueOrder.EncodingDecodes` | internal/keys/order.go:92-152 | a fixed-width encoding followed by anything decodes to its value and what followed |
| `Keys.UvarintLen` | internal/keys/keys.go:527-533 | the loop computes the width of the varint |
| `Keys.ComponentReads` | internal/keys/parse.go:117-134 | a component reads back exactly where it was written; padded and truncated ones are refused |
| `Keys.ScopeReads` | internal/keys/parse.go:74-84 | tenant and namespace parse exactly where the prefix was written |
| `Keys.BodyReads` | internal/keys/keys.go:302-480 | each space's remainder decodes to a body exactly when it is that body's |
| `Keys.BuildersAndParsersAreInverse` | internal/keys/keys.go:302-480 | bytes parse to a key exactly when they are what the builder makes of it |
| `Keys.ParsedKeysAreWellFormed` | internal/keys/keys.go:302-480 | whatever parses rebuilds to the same bytes, in the same space |
| `Keys.BuildIsInjective` | internal/keys/keys.go:302-480 | keys of different scopes, spaces or contents have different bytes |
| `Keys.TenantRange` | internal/keys/keys.go:169-174 | a key is in the range exactly when it names that tenant |
| `Keys.NamespaceRange` | internal/keys/keys.go:176-179 | a byte string is in the range exactly when it names that tenant and namespace |
| `Keys.SpaceRange` | internal/keys/keys.go:181-185 | and, for one space, exactly when that space's byte follows |
| `Keys.JobDueRange` | internal/keys/keys.go:240-247 | a byte string is in the range exactly when it is in that partition and below the bound's end, so a job is exactly when it is due by the bound, at the largest bound too |
| `AttrIndex.StagingIsConsistent` | internal/attr/index.go:181-202 | staged entry writes turn exactly the entries of the row first read into exactly those of the row staged, however often it is staged |
| `AttrIndex.CommittingIsExact` | internal/attr/index.go:74-100 | a commit whose rows are as read keeps the index exact |
| `AttrIndex.IndexStaysExact` | internal/attr/index.go:55-100 | over every interleaving of staging, dropping, committing and discarding, entries are exactly what the rows call for |
| `AttrIndex.CommitGivesTheLastRows` | internal/attr/index.go:74-100 | over every run from a transaction's beginning to its commit, it goes through exactly when no record it staged has changed since it first staged it, and then each has the row last given for it and every other record its own; else nothing changes |
| `AttrIndex.Indexer.CurrentRow` | internal/attr/index.go:162-177 | the row is read through the transaction and made a condition unless the transaction wrote it |
| `AttrIndex.Indexer.StageEntries` | internal/attr/index.go:181-202 | the loop withdraws and writes exactly the entries the two rows differ in |
| `AttrIndex.Indexer.Stage` | internal/attr/index.go:74-100 | the row is staged as given, the row first read is the condition, the entries follow both, and staging stays consistent |
| `AttrIndex.Tx.Commit` | internal/attr/index.go:162-177 | it goes through exactly when every row is as first read; then each record has the row staged, or none, and every other its own; the index is exact before and after |
| `AttrPredicate.CompareMeans` | internal/attr/value.go:187-215 | within a type, comparison is below, equal or above exactly as the values are |
| `AttrPredicate.EvalIsWhatItSays` | internal/attr/predicate.go:70-163 | on rows of the declared types, evaluation is what a predicate says: equal to, between with each end open or closed, all of, not |
| `AttrPredicate.TighteningKeeps` | internal/attr/select.go:338-370 | a value is within the tighter of two bounds exactly when it is within both |
| `AttrPredicate.BoundsAreSound` | internal/attr/predicate.go:186-216 | a row satisfying a predicate has its slot's value within the bounds derived; of a conjunction of ranges of that slot, exactly those rows do |
| `AttrSelect.EntriesParse` | internal/attr/select.go:284-296 | an index key splits into value and record exactly as it was joined |
| `AttrSelect.PrefixesApart` | internal/attr/select.go:126-150 | no key is in the index of two tenants, two namespaces or two slots |
| `AttrSelect.Narrow` | internal/attr/select.go:302-336 | the loop returns the key range of the folded bounds |
| `AttrSelect.NarrowNeverDrops` | internal/attr/select.go:298-336 | every entry of the answer is inside the narrowed range, and a contradiction means there is none |
| `AttrWalk.Iterator.constructor` | internal/storage/memkv/memkv.go:292-307 | an iterator holds exactly the keys of its range, in order |
| `AttrWalk.Iterator.SeekGE` | internal/storage/memkv/memkv.go:313-319 | it lands on the least key not before the one sought |
| `AttrWalk.Iterator.Seek` | internal/attr/select.go:252-270 | a walk starts at the first key strictly after its resume point, in either direction |
| `AttrWalk.Run` | internal/attr/select.go:126-190 | a page is in order and holds precisely the hits after its resume point and up to where it stopped, moves on unless it is the last, and fails only as stated |
| `AttrWalk.Walk` | internal/attr/select.go:158-190 | the loop meets limit, effort and exhaustion as the page reports them |
| `AttrWalk.Chain` | internal/attr/select.go:89-125 | resuming from each page's end terminates and gives every entry of a satisfying row once, in order, for any direction, limit and effort |
| `AttrWalk.AnswerIsTheFilter` | internal/attr/select.go:113-125 | over an exact index, the chained pages list exactly the rows of which all the predicates say so, in the order of their values and then of their ids |
| `AttrWalk.NegationSharesOut` | internal/attr/predicate.go:161-165 | the answers with one more predicate and with its negation share out the answer with neither |
| `AttrWalk.KeyOrderIsValueOrder` | internal/attr/select.go:113-125 | one index key is ahead of another exactly when its row's value is, or they are equal and its id is |
| `AttrWalk.MaintainedIndexIsExact` | internal/attr/index.go:181-202 | the exactness the writers keep is the exactness the walk needs, down to the bytes of the keys |
| `LifecyclePolicy.NewPolicies` | internal/lifecycle/policy.go:232-258 | a table resolves exactly when every override has a good name and validates, and then every policy in force does |
| `LifecyclePolicy.CheckName` | internal/lifecycle/policy.go:319-337 | the loop accepts exactly names of 1 to 64 lower-case letters, digits and underscores |
| `LifecyclePolicy.Validate` | internal/lifecycle/policy.go:344-393 | a policy is accepted exactly when each field is in its range and it promotes to a known policy or not at all |
| `LifecycleEffects.PassHasItsEffect` | internal/lifecycle/apply.go:75-111 | what one pass does to every field, for every memory: promoted, retired, weakened, worn, archived, up for deletion or left, and what it notes |
| `LifecycleEffects.MoreRecallsNeverArchive` | internal/lifecycle/ttl.go:34-65 | more recalls never turn a memory a pass keeps into one it archives |
| `LifecyclePass.PassActsWhenDue` | internal/lifecycle/schedule.go:72-129 | a pass acts exactly when the schedule is due, or on sight of a memory run down |
| `LifecyclePass.ScheduleIsExact` | internal/lifecycle/schedule.go:72-129 | schedule and pass agree exactly when nothing is archived on sight before anything is due; always for the archived and those with health left |
| `LifecyclePass.AttentionIsLateExactly` | internal/lifecycle/schedule.go:56-64 | a pass would act before the memory is scheduled exactly when it would archive it on sight, with nothing due and the cap not yet come; never for the archived or those with health left |
| `LifecyclePass.AttentionAlwaysComes` | internal/lifecycle/schedule.go:14-64 | every memory is scheduled, by its due time if it has one and within thirty days anyway |
| `LifecyclePass.RunDownIsNotScheduled` | internal/lifecycle/archive.go:23-41 | a memory with no health left that a pass acts on the whole attention cap before it is scheduled |
| `LifecyclePass.RepeatedPassDoesNothing` | internal/lifecycle/apply.go:75-111 | a second pass at one instant does nothing unless the first promoted or deleted |
| `LifecyclePass.PromotionMayOweMore` | internal/lifecycle/ttl.go:34-65 | a promoted memory can be owed more at once |
| `LifecyclePass.DecayIsChargedFairly` | internal/lifecycle/decay.go:36-92 | over any passes, the days charged to each clock fit in the time it ran and are more than half of it |
| `LifecyclePass.ChargesNeverExceedElapsedDays` | internal/lifecycle/apply.go:113-125 | over passes in time order, no clock is charged more than the whole days elapsed |
| `LifecyclePass.DecayIsByDaysCharged` | internal/lifecycle/decay.go:36-92 | under one policy, however the passes are spaced, importance is multiplied and health reduced once per day charged, down to zero |
| `LifecyclePass.DeletionWaits` | internal/lifecycle/archive.go:62-85 | a deletion comes at least the retention in force after the pass that archived, whatever passes come between |
| `LifecyclePass.OnlyTheArchivedAreDeleted` | internal/lifecycle/archive.go:43-85 | nothing deletes a memory that was not archived already |
| `Lifecycle.Expire` | internal/lifecycle/ttl.go:34-65 | done exactly when the time to live is up; then promoted with its new policy if it was recalled often enough, else retired, and noted as such; else nothing changes |
| `Lifecycle.DecayImportance` | internal/lifecycle/decay.go:36-58 | whole days are charged and only the decay clock moves |
| `Lifecycle.DecayHealth` | internal/lifecycle/decay.go:71-92 | whole days since reinforcement or check are charged, health clamped, only the health clock moved |
| `Lifecycle.Archive` | internal/lifecycle/archive.go:23-41 | a memory at or below the threshold is retired, and never deleted |
| `Lifecycle.Cleanup` | internal/lifecycle/archive.go:62-85 | deletion is asked for exactly past the retention, and the record is left alone |
| `Lifecycle.Apply` | internal/lifecycle/apply.go:75-111 | every field afterwards is what a pass should leave, and it acts exactly when due or on sight |
| `LifecycleRecall.Store.NewestRecallOf` | internal/events/events.go:334-354 | walking back finds the newest recall |
| `LifecycleRecall.Store.RecallsSince` | internal/events/events.go:364-391 | the recalls strictly after the watermark's millisecond are counted, with the newest |
| `LifecycleRecall.Store.Trim` | internal/events/events.go:399-422 | the oldest rows before the cutoff go, up to the bound, and no other |
| `LifecycleRecall.NewRecallIsLater` | internal/lifecycle/recall.go:65-96 | a recall outside the window falls in a later millisecond than every other and than the watermark |
| `LifecycleRecall.FoldingIsComplete` | internal/lifecycle/recall.go:123-150 | a fold counts exactly what was unfolded, leaves nothing to fold, moves its instants forward to the newest recall, and never lowers health |
| `LifecycleEffects.FoldHasItsEffect` | internal/lifecycle/recall.go:123-150 | what a fold does to every field, over any sorted stream |
| `LifecycleEffects.NewIsOutsideTheWindow` | internal/lifecycle/recall.go:65-96 | a recall is new exactly when every recall in the stream is at least the window before it |
| `LifecycleRecall.TrimmingKeeps` | internal/events/events.go:399-422 | trimming and noting lose no unfolded recall |
| `LifecycleEffects.VisitKeepsTheRest` | internal/events/events.go:399-422 | a visit leaves of the stream all but the front that outlived the retention, 256 rows at most, and then its notes |
| `LifecycleRecall.EveryRecallIsCountedOnce` | internal/lifecycle/recall.go:98-122 | over any mix of recalls and visits, the access count is the recalls recorded before the last visit, and the rest are still in the stream |
| `LifecycleRecall.ShorterWindowsLoseRecalls` | internal/events/events.go:356-391 | under a millisecond, a run records two recalls and counts one |
| `Lifecycle.RecordRecall` | internal/lifecycle/recall.go:65-96 | a recall at the present millisecond is appended exactly when it is outside the window of every earlier one, thirty seconds unless told otherwise |
| `Lifecycle.Fold` | internal/lifecycle/recall.go:123-150 | the recalls not yet counted are added to the count, each worth ten of health up to a hundred, the instants move forward to the newest, and nothing else changes |
| `Lifecycle.Settle` | internal/lifecycle/maintain.go:404-477 | the stream is trimmed of what outlived the retention and noted, or for a deleted memory emptied and noted |
| `Lifecycle.Visit` | internal/lifecycle/maintain.go:404-477 | the fold's effect, then the pass's; nothing else if neither acted; else the stream less the front that outlived the retention, and the notes; of a deleted memory only the notes |
| `Storage.Scan` | internal/storage/memkv/memkv.go:292-307 | the keys of a range, all of them, in order |
| `GraphKeys.KeysApart` | internal/graph/store.go:62-69 | no key of an edge is another edge's, its own other key, or a record's, in any two scopes |
| `GraphKeys.EdgeKeysRead` | internal/graph/rebuild.go:148-167 | a key is an edge's out-key exactly when it is whole, in the out space and reads back to the edge; its in-key likewise, turned round |
| `GraphKeys.RangeIsNearEnd` | internal/keys/keys.go:210-218 | a whole edge key is in a record's range of its space exactly when the record is its near end |
| `GraphMirror.MirrorIsKept` | internal/graph/store.go:71-125 | over every interleaving of transactions that write and remove edges in any scopes among other rows, committed or refused, each edge's out-key is present exactly when its in-key is, with the same bytes |
| `GraphMirror.EdgeIsFoundFromBothEnds` | internal/graph/store.go:82-103 | a committed edge is under both its keys, in the ranges of both its ends, and both keys read back to it |
| `GraphMirror.EdgeStore.Stage` | internal/graph/store.go:82-103 | a valid edge of a named tenant is staged under its out-key and its in-key with one value; any other is refused |
| `GraphMirror.EdgeStore.StageDelete` | internal/graph/store.go:109-125 | both keys are staged for deletion, whether or not they are there |
| `GraphMirror.EdgeStore.Commit` | internal/graph/store.go:71-81 | every staged write applies at once and the mirror holds after as before |
| `GraphMirror.EdgeStore.RemoveSide` | internal/graph/store.go:277-328 | every key of a record's range in one space is read off its tail and that edge staged for deletion; it stops exactly at a key that cannot be |
| `GraphMirror.EdgeStore.RemoveEvery` | internal/graph/service.go:213-235 | every edge the store shows at the record from either side is staged for deletion and nothing else; the count is the keys of the two ranges; it fails exactly where a key cannot be acted on |
| `GraphMirror.NothingTouchesExactly` | internal/graph/service.go:200-235 | with anything staged before, no edge is left at the record after the commit exactly when every edge staged there was one the store showed; every other row is as the earlier staging leaves it |
| `GraphMirror.StagedEdgeSurvives` | internal/graph/service.go:213-235 | an edge staged first, over an empty store, is there after removing every edge of its record and committing |
| `GraphMirror.SeenIsStored` | internal/graph/store.go:277-328 | where edge keys are whole, the store shows an edge at a record exactly when it holds it |
| `GraphVerify.ConsistentExactly` | internal/graph/verify.go:26-46 | rows are consistent exactly when edge keys are whole and no problem of the five kinds exists |
| `GraphVerify.FindingsAreProblems` | internal/graph/verify.go:136-203 | over whole keys, the two passes list a finding exactly when that problem exists |
| `GraphVerify.EdgeFindingsCount` | internal/graph/verify.go:136-203 | an out-edge counts once for being to itself, once for each end missing, and once for an in-row missing or different |
| `GraphVerify.ScanSpace` | internal/graph/verify.go:245-270 | one space's rows in key order, ends the right way round; it fails exactly on a key with no room for an edge |
| `GraphVerify.Verify` | internal/graph/verify.go:136-203 | findings in key order, counted past the cap; none means a consistent graph exactly when edge keys are whole; refused without a tenant, corruption exactly on a key with no room |
| `GraphVerify.StrayKeyIsMissed` | internal/graph/verify.go:183-203 | an in-key one byte too long reads as an edge that exists, so nothing is found though the graph is not consistent |
| `GraphVerify.Report.Add` | internal/graph/verify.go:206-213 | the count goes on past the listing cap, and the list is the first findings |
| `GraphVerify.RecordChecker.Exists` | internal/graph/verify.go:220-238 | the memo answers as the store does |
| `GraphRebuild.ClearRange` | internal/graph/rebuild.go:115-141 | clearing in batches ends with the range empty and the rest untouched |
| `GraphRebuild.WriteIn` | internal/graph/rebuild.go:74-106 | an in-row for each out-key, its bytes copied, in batches; a key with no room stops it with whole batches committed |
| `GraphRebuild.RebuildIn` | internal/graph/rebuild.go:59-108 | the in space is emptied and written from the out-keys in key order, and the rows written are counted; it fails exactly without a tenant or on an out-key with no room |
| `GraphRebuild.OnlyInKeysChange` | internal/graph/rebuild.go:24-58 | finished or cut short, a rebuild changes no key outside the in space and leaves only whole keys in it |
| `GraphRebuild.RebuildMirrors` | internal/graph/rebuild.go:24-58 | from any in space at all, over whole out-keys, each edge's in-key ends holding what its out-key holds |
| `GraphRebuild.RebuildClearsRepairable` | internal/graph/verify.go:64-77 | after a rebuild a problem exists exactly when it did before and is of a kind a rebuild is not said to repair |
| `GraphRebuild.RebuildingAgainFinishes` | internal/graph/rebuild.go:14-22 | however an earlier rebuild left the in space, rebuilding ends where it would have |
| `GraphUnique.CreatedOnce` | internal/graph/service.go:81-123 | however often a relationship is added, its stored creation time is the first one's, or the time it was first added if it gave none |
| `GraphUnique.Tx.Linked` | internal/graph/service.go:299-332 | it answers whether any of the sixteen keys is in sight, and on a no makes the absence of all of them a condition of the commit |
| `GraphUnique.Tx.Add` | internal/graph/service.go:88-123 | an invalid edge is refused; any other is written field for field with the creation time read, given or now, and the time of writing, conditional on the key holding the bytes read, or nothing |
| `GraphUnique.Tx.Write` | internal/discovery/job.go:393-426 | every proposed pair ends linked, each edge written is new and a proposal's, and every pair written is guarded |
| `GraphUnique.CommitKeepsOneEdge` | internal/graph/service.go:261-298 | a commit whose conditions hold adds each edge to a pair that had none |
| `GraphUnique.AtMostOneEdge` | internal/discovery/job.go:375-426 | over every interleaving with conflicts and retries, two memories have at most one edge of any type and direction |

## Left out

- JobsQueue.Queue.Claim: the scan and the moves are one step here; rows that change in between are covered by JobsQueue.Queue.MoveEach, over any store, and by the protocol.
- JobsQueue.Queue.Reclaim: as for the claim.
- JobsQueue.Queue.TransitionWithRun: one tenant's rows in the default namespace.
- GraphMirror.EdgeStore.RemoveEvery: cancellation and errors of the store itself are not modelled, here or below.
- GraphRebuild.RebuildMirrors: over out-keys that are not whole, the last out-key that reads as an edge decides its in-row, as GraphRebuild.WrittenAt says of any key.
- GraphUnique.Tx.Linked: reads one state of the store; reads that fall between other commits are covered by GraphUnique.AtMostOneEdge, which leaves them open.
- Lifecycle.Visit: conflicts with a write to the same memory, its vector and its edges are not modelled; the visit is one step.
- LifecycleRecall.Store.Trim: sequence numbers within a millisecond are the order of appending.
- LifecyclePass.DecayIsByDaysCharged: importance and health are reals; their rounding to float32 is not modelled.
- Access counts, generations and sequence numbers do not wrap.
- Queue scans for administration (List, Counts), job pauses, back-off delays and the worker pool's timers.
- The row and edge codecs, row byte packing and JSON forms: rows are values, and edge bodies are bytes of an arbitrary codec. Strengths are reals, so the refusal of NaN and infinities is not modelled.
- Neighbour pages, edge updates and single removals, which are reads and writes of the same two rows.
- Key spaces without a parser, beyond the ranges above; an empty namespace standing for the default one, outside the row cache.
- The policy registry's cache and the sweep's cursor over memories.
- The embedding service, discovery's choice of candidates, the query planner, the servers, metrics and logging.
