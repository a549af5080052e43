# Verified models of SeedSync's state machines and indexes

SeedSync keeps several structures that are meant to agree with something simpler than themselves: an ingress protocol
that must reach a point after which its accounting is final, an eviction index that must behave like a scan over all
entries, a stream of records that must decode to the tree it came from. This project models those structures in Dafny
and proves the agreement. Protocols are state machines whose steps are single lock sections or single shared reads and
writes, and the theorems range over every sequence of steps with any number of processes. Code that updates fields or
arrays in place is a class whose methods are proved against a specification that does not mention the index, table or
running sum they maintain. Beside what can never go wrong, progress is proved: an undisturbed call, offer, publication or
span achieves what it is for, and a shutdown ends.

| file | component |
|---|---|
| `Ingress.dfy` | breadcrumb admission, lane accounting and the close protocol |
| `Seqlock.dfy` | the policy channel from the collector to worker processes |
| `Spool.dfy`, `SpoolProgress.dfy`, `BatchWriter.dfy`, `DurableRecords.dfy` | the durable spool: lanes, budgets and fairness; what a batch and a whole session leave on disk; what a session achieves |
| `Retention.dfy`, `RetainedWindow.dfy`, `Collector.dfy` | the retention rule, the index that refines it, eviction and coalescing |
| `ScanStream.dfy`, `ScanDecoder.dfy`, `ScanSession.dfy` | scan stream V2: writer, decoder, fingerprints and incremental sessions |
| `CompactIdSet.dfy`, `OwnershipCensus.dfy` | the open-addressing id set and the graph census |
| `IdentityMigration.dfy` | the restart-safe migration of persisted file identities |
| `LftpStatus.dfy` | the two parsers of LFTP's pget sidecar |
| `RemoteDelete.dfy` | AutoQueue's remote-delete lineage |
| `SpanTable.dfy` | the table of running duration spans and its generations |
| `Options.dfy`, `Octets.dfy` | optional values; bytes |

## Conventions

- Clocks, timeouts, I/O outcomes, exceptions of collaborators and scheduling are arbitrary choices: parameters of a step
  or of a method. A process that dies takes no further step.
- JSON text is an encoding with a decoder that inverts it (`IdentityMigration.Codec`) or a length function
  (`ScanStream.Sizes`); SHA-256 is a function, injective only where a lemma says so.
- A dictionary that the source walks in insertion order is visited in an arbitrary order unless the order matters; the
  retained window's order is that of the ascending versions.
- Integers are unbounded. Sixty-four-bit mixing in the id set and the wrap of span ids are written out; C counters of
  shared memory are assumed not to wrap.

## What the proofs show about the code

- The drain that `close` runs again after the in-flight tokens have settled can never find a record: a put happens only
  under the admission lock after the gate was re-read OPEN, so a known-pending count of zero read after the lock-held gate
  close is already final (`Ingress.DrainedMeansEmpty`, `Ingress.CloseQuiescence`).
- The final `empty_size > total_size` test of the LFTP parser never succeeds (`LftpStatus.CoverageArithmetic`).
- None of the spool's and the span table's `max(0, ...)` clamps ever takes effect (`Spool.BudgetAndClamps`,
  `SpanTable.FinishInv`).
- Removing a node from the retained window leaves index and rule in agreement exactly unless the node is a latest decision
  that shadows an older one with no other protection, which `remove` does not re-protect
  (`RetainedWindow.Window.Remove`, `Retention.RemovalBreaksProtectionIff`). Eviction never removes such a node.
- LFTP's parser refuses a segment map with an empty segment strictly inside another one, although the two share no offset
  (`LftpStatus.OverlapMeans`).
- When a batch fails, the records appended before the failing one stay on disk and are counted as written; a failed flush
  takes the whole batch back. Either way disk and counters agree over the whole session (`Spool.DiskAgreesWithHealth`).
- A comment in AutoQueue (src/python/controller/auto_queue.py:987-989) says that a completion seen while its path pair is
  unreconciled is never turned into a remote delete later. The code does so when the old state of that event was QUEUED or
  DOWNLOADING: the event stays in the buffer and deletes on the first reconciled cycle
  (`RemoteDelete.DeferredCompletionStillDeletes`). For all inputs, `RemoteDelete.EarlyCompletionDeletesIff` says across the
  two cycles exactly when it does. The model follows the code.

## Model

| member | source | states |
|---|---|---|
| Ingress.CloseQuiescence | src/python/common/breadcrumb_trace.py:3383-3473 | from any reachable state in which the closer, having closed the gate under the admission lock, read zero in-flight tokens, no continuation changes an enqueued, rejected or reservation counter or puts a record, and both reservation counts are zero |
| Ingress.LateTokensBackOut | src/python/common/breadcrumb_trace.py:1916-1948 | every token counted after settlement is an unconfirmed rejection token; its recheck fails and its only effect is to take itself back |
| Ingress.LaneAccounting | src/python/common/breadcrumb_trace.py:1769-1803 | in every reachable state queued plus in hand is enqueued minus acked plus put-but-uncounted, nothing is duplicated or lost between queue, hand and acked, and each uncounted producer holds a reservation |
| Ingress.DrainedMeansEmpty | src/python/common/breadcrumb_trace.py:3475-3500 | a known-pending count read as zero, by six separate reads after the gate close, means that both lanes are empty and each admitted record was acked exactly once |
| Ingress.TerminalAccounting | src/python/common/breadcrumb_trace.py:4972-5006 | once the closer is ready to terminate, the folded rejection totals equal the shared counters, add up over the lanes and the collector's own calls, and both lanes balance, in every continuation |
| Ingress.UndisturbedCall | src/python/common/breadcrumb_trace.py:1698-1817 | progress, on counters and records: the steps of one idle producer alone end its call; it is refused exactly when the lock is taken, the gate is not OPEN, reconciliation is on or 2112 tokens are out; admitted, its record is in its own lane and counted once; refused while OPEN, one rejection is counted in the total and the lane; otherwise nothing changes |
| Ingress.QuietCloseTerminates | src/python/common/breadcrumb_trace.py:3214-3350 | progress: with nothing in flight the closer alone terminates in 26 steps, with the gate CLOSED, every rejection folded and nothing else changed |
| Ingress.DrainAndClose | src/python/common/breadcrumb_trace.py:3214-3350 | progress of the whole shutdown: from every reachable state with all producers idle, the drainer and then the closer reach a terminal state in which every record ever put was acked and every rejection folded |
| Ingress.TakenAndAcked | src/python/common/breadcrumb_trace.py:6441-6585 | a record taken and acked leaves its queue and is done, once |
| Ingress.FirstCall | src/python/common/breadcrumb_trace.py:1854-1908 | the first call of a fresh facility is admitted |
| Ingress.RejectedAfterAdmission | src/python/common/breadcrumb_trace.py:1735-1817 | when an admitted record is rejected after all: oversized, lock taken, gate no longer OPEN under the lock, or queue full, which releases its reservation |
| Ingress.RejectionEnds | src/python/common/breadcrumb_trace.py:2040-2053 | a rejection counts once in the total and in its lane and gives lock and token back |
| Ingress.SilentCall | src/python/common/breadcrumb_trace.py:1698-1735 | a call while disabled gives its token back and counts nothing |
| Ingress.OtherRejections | src/python/common/breadcrumb_trace.py:5396-5408 | a refused call finds the gate not OPEN and takes no token; a refused collector-owned call counts in the total only |
| Ingress.OutsideSteps | src/python/common/breadcrumb_trace.py:3429-3443 | what the reconcile gate and a forced gate change |
| Ingress.SoloIsLocal | src/python/common/breadcrumb_trace.py:1728-1817 | a producer's own steps depend on nothing but the shared state and its own place |
| Ingress.StepInv | src/python/common/breadcrumb_trace.py:1728-1817 | every atomic step of a producer, the closer, the drainer or a reconciliation keeps the lock, token, lane, seal and closer invariants |
| Ingress.RunInv | src/python/common/breadcrumb_trace.py:1698-1817 | the invariants hold along every interleaving |
| Ingress.ActLock | src/python/common/breadcrumb_trace.py:1854-1908 | a producer step keeps "at this place in the code" equivalent to "owner of the admission lock" and never takes another owner's lock |
| Ingress.ActToken | src/python/common/breadcrumb_trace.py:5349-5408 | the in-flight count moves exactly with the number of places that hold a token, for workers and for collector-owned calls |
| Ingress.ActSealed | src/python/common/breadcrumb_trace.py:1854-1908 | with the gate not OPEN, no producer without a confirmed token can gain one or touch the accounting |
| Ingress.ActReservation | src/python/common/breadcrumb_trace.py:1758-1817 | a lane's reservation count moves exactly with the producers that hold one |
| Ingress.ActRejected | src/python/common/breadcrumb_trace.py:2040-2053 | total rejections minus lane rejections changes only by calls half-way between the two counters |
| Ingress.CloserKeepsSeal | src/python/common/breadcrumb_trace.py:3383-3473 | closing under the lock seals the gate, and a zero token count read afterwards settles it |
| Ingress.CloserKeepsReads | src/python/common/breadcrumb_trace.py:3917-3935 | the six non-atomic reads of the known-pending count establish what their sum claims |
| Ingress.SettledStays | src/python/common/breadcrumb_trace.py:3456-3473 | no step of anyone undoes settlement |
| Ingress.DrainKeepsFlow | src/python/common/breadcrumb_trace.py:6441-6585 | taking and acking a record conserves the lane's records and never lowers its acked count |
| Seqlock.NoTornRead | src/python/common/breadcrumb_trace.py:2016-2038 | in every interleaving with byte-by-byte publications, a reader's outcome is nothing or the whole payload that some publication of the run was given |
| Seqlock.PublishedWasSent | src/python/common/breadcrumb_trace.py:4940-4958 | whatever a generation publishes is, whole, the payload handed to a publication of the run |
| Seqlock.PublicationLands | src/python/common/breadcrumb_trace.py:4940-4958 | an uninterrupted publication of at most 64 KiB takes one step per byte and two more, and leaves the whole payload, its length and a new even generation |
| Seqlock.PublishedIsRead | src/python/common/breadcrumb_trace.py:2016-2038 | end to end: an undisturbed reader then obtains exactly that payload |
| Seqlock.AttemptEnds | src/python/common/breadcrumb_trace.py:2016-2038 | how each attempt to read ends: the current policy if cached or read whole at one even generation and decodable, nothing if a publication is under way, overtook it or did not decode |
| Seqlock.AbandonedThenPublished | src/python/common/breadcrumb_trace.py:4940-4958 | a publication also lands after an abandoned one |
| Seqlock.CacheIsMonotone | src/python/common/breadcrumb_trace.py:2016-2038 | a reader's cached generation never goes backwards and names the publication whose payload it cached |
| Seqlock.PublishedIsFinal | src/python/common/breadcrumb_trace.py:4940-4958 | what a generation published never changes afterwards |
| Seqlock.QuietReadSucceeds | src/python/common/breadcrumb_trace.py:2016-2038 | a reader that no publication overtakes obtains exactly the current policy within its length plus three steps |
| Seqlock.StepInv | src/python/common/breadcrumb_trace.py:4940-4958 | every shared read and write, and an abandoned publication, keep the channel invariant |
| Spool.Conservation | src/python/common/breadcrumb_trace.py:487-596 | in every reachable state offered = written + refused + dropped + queued + in the writer's hand + inside enqueue, as multisets of records and as health counters, and lost = critical lost + normal lost |
| Spool.BudgetAndClamps | src/python/common/breadcrumb_trace.py:487-537 | queued plus in-flight bytes never pass the aggregate cap, both accounts are the exact byte sums of the queues, the record just popped and the batch, and no clamp takes effect |
| Spool.NothingStranded | src/python/common/breadcrumb_trace.py:547-596 | once the writer has exited both lanes are empty for ever and every accepted record was written or counted lost |
| Spool.LaneOrder | src/python/common/breadcrumb_trace.py:678-739 | each lane is taken in the order in which it accepted |
| Spool.BoundedBurst | src/python/common/breadcrumb_trace.py:678-739 | while a normal record waits, at most eight critical records are taken in a row, across batch boundaries |
| Spool.DiskAgreesWithHealth | src/python/common/breadcrumb_trace.py:547-596 | in every run, with any schedule and any I/O failures: rotated and active files together hold what was there before, the session boundary if committed, exactly the records that health counts as written, whole and in order, and then the residue of failed rollbacks, none while output is enabled |
| Spool.NothingLeftBehind | src/python/common/breadcrumb_trace.py:1216-1226 | no residue at all if every rollback that is needed succeeds |
| SpoolProgress.EverythingReachesDisk | src/python/common/breadcrumb_trace.py:547-596 | progress and truth: in every session without I/O faults whose records fit, after a close the writer alone exits, and on disk are, after what was there, the boundary and every accepted record once, whole |
| SpoolProgress.WriterExits | src/python/common/breadcrumb_trace.py:1469-1514 | after a close in any reachable state the writer alone drains both lanes and exits, whatever its I/O does |
| SpoolProgress.RefusedAfterwards | src/python/common/breadcrumb_trace.py:487-537 | after a close or once output is disabled an offer is counted as lost and changes no lane |
| SpoolProgress.FailedBoundaryExits | src/python/common/breadcrumb_trace.py:547-560 | a writer whose session boundary failed drains and exits without a close |
| SpoolProgress.NothingDropped | src/python/common/breadcrumb_trace.py:1099-1214 | in every run without I/O faults and with records that fit, no accepted record is dropped and output stays enabled |
| SpoolProgress.FinishedSession | src/python/common/breadcrumb_trace.py:547-596 | a writer that exited in such a run has everything accepted on disk |
| SpoolProgress.UndisturbedOffer | src/python/common/breadcrumb_trace.py:487-537 | an offer is accepted exactly when nothing is closing, stopped or disabled and record, byte budget and lane have room; it is then last in its own lane, otherwise counted as lost there |
| SpoolProgress.FirstOffer | src/python/common/breadcrumb_trace.py:487-537 | the first offer of a session is accepted if record and capacities allow it |
| SpoolProgress.LanesHoldTheirOwn | src/python/common/breadcrumb_trace.py:487-537 | in every run the critical lane accepts critical records only, the normal lane the others only, and neither exceeds its capacity |
| SpoolProgress.TakesInTurn | src/python/common/breadcrumb_trace.py:678-739 | the next record is the oldest critical one while the burst budget lasts, then the oldest normal one, which renews it; an empty lane yields |
| SpoolProgress.BatchEnds | src/python/common/breadcrumb_trace.py:678-739 | with both lanes empty a batch is written at once if it is empty, a stop is requested or the wait was in vain |
| SpoolProgress.WriterAdvances | src/python/common/breadcrumb_trace.py:547-596 | every step of a stopping writer takes a record or comes closer to the next take or the exit |
| Spool.BatchOnDisk | src/python/common/breadcrumb_trace.py:1099-1214 | one batch extends the files by exactly what it adds to the written records |
| Spool.StepInv | src/python/common/breadcrumb_trace.py:678-739 | every step of a producer, the writer, a close or a disable keeps lanes, bytes, counters and stop state consistent |
| Spool.CountBatchKeeps | src/python/common/breadcrumb_trace.py:1099-1214 | counting a batch in part splits it into written and lost without losing a record or a lane's count |
| BatchWriter.TruthfulBatch | src/python/common/breadcrumb_trace.py:1099-1214 | for every failure point, a missing boundary and an encoding failure included: all files together are what was there, then exactly the records counted as written as whole lines in order, then what a failed rollback left behind, which is nothing unless output is disabled |
| BatchWriter.TruthfulActive | src/python/common/breadcrumb_trace.py:1099-1226 | unless a needed rollback failed, the active file is its content at batch open plus exactly the counted lines; at batch open it is unchanged, or empty with its whole content in a rotated file |
| BatchWriter.FaultlessBatch | src/python/common/breadcrumb_trace.py:1099-1214 | with the boundary committed, output enabled, no failing call and bytes and file within the bound, the whole batch is written and output stays enabled |
| BatchWriter.FaultlessBoundary | src/python/common/breadcrumb_trace.py:598-666 | likewise the session boundary is committed |
| BatchWriter.OpensExactly | src/python/common/breadcrumb_trace.py:891-1019 | exactly when a handle results, and exactly when the active file is rotated away for it |
| BatchWriter.OpenKeepsContent | src/python/common/breadcrumb_trace.py:891-1019 | opening and rotating, failures after the rename included, lose no byte and move at most the whole active file to a rotated one |
| BatchWriter.UndoneContent | src/python/common/breadcrumb_trace.py:1216-1256 | undoing leaves the lines before the record boundary and nothing else, unless it fails |
| BatchWriter.TruthfulBoundary | src/python/common/breadcrumb_trace.py:598-666 | the session boundary is on disk whole if committed; otherwise output is disabled and disk is as it was, up to a failed rollback |
| BatchWriter.Writer.WriteBatch | src/python/common/breadcrumb_trace.py:1099-1214 | the writer leaves exactly that disk and counts each record of the batch once, as written or as lost in its own lane |
| BatchWriter.Writer.WriteOpen | src/python/common/breadcrumb_trace.py:1121-1214 | the same on a file that is already open: a torn append or a failed flush is undone, a clean batch is counted before retention is checked |
| BatchWriter.Writer.AppendRecords | src/python/common/breadcrumb_trace.py:1099-1214 | the loop appends exactly the longest prefix whose appends all succeed |
| BatchWriter.OpenedContent | src/python/common/breadcrumb_trace.py:1099-1214 | on an open file the content grows by exactly the counted lines and the residue |
| BatchWriter.Writer.RotateActive | src/python/common/breadcrumb_trace.py:999-1019 | the active file goes away under a new name, also when retention fails after the rename |
| BatchWriter.Writer.RollBack | src/python/common/breadcrumb_trace.py:1216-1256 | truncates to the boundary, else sets the whole file aside, else leaves it and closes |
| BatchWriter.Writer.OpenFile | src/python/common/breadcrumb_trace.py:891-981 | reuses a handle with room, rotates a file that cannot take the batch, opens or fails, with the files each outcome leaves |
| BatchWriter.Writer.CommitBoundary | src/python/common/breadcrumb_trace.py:598-666 | the session boundary is one committed line before any record, or output is disabled |
| BatchWriter.Writer.AccountFailure | src/python/common/breadcrumb_trace.py:1099-1214 | a failure latches and splits the batch into written and lost |
| BatchWriter.WholeAppends | src/python/common/breadcrumb_trace.py:1099-1214 | the length of the longest prefix of successful appends |
| DurableRecords.Accounted | src/python/common/breadcrumb_trace.py:1193-1213 | written plus lost grows by the batch, and lost stays the sum over the lanes |
| DurableRecords.EachLineInPlace | src/python/common/breadcrumb_trace.py:1110-1120 | each record's encoded text stands whole in the content, right after the lines before it |
| Retention.ProtectedIndices | src/python/common/breadcrumb_trace.py:4899-4926 | the one-pass scan finds exactly the entries with a protected level, a protected category, or a decision type that nothing later in their category has |
| Retention.Renumbering | src/python/common/breadcrumb_trace.py:4899-4926 | numbering by position or by version is the same rule |
| Retention.RuleVictimUnique | src/python/common/breadcrumb_trace.py:2331-2362 | the rule (oldest of the largest unprotected category, all entries when none is unprotected) picks at most one victim |
| Retention.RuleVictimMeans | src/python/common/breadcrumb_trace.py:2331-2362 | the rule on the fields: among the unshielded entries, or all if none is, the victim is in a largest category and older than everything in an equally large one |
| Retention.ProtectedMeans | src/python/common/breadcrumb_trace.py:4895-4926 | protection on the fields: level, category, or newest decision of its category, an absent category counting as unknown |
| Retention.RemovalKeepsProtection | src/python/common/breadcrumb_trace.py:2364-2380 | removing a candidate changes no other entry's protection |
| Retention.RemovalBreaksProtectionIff | src/python/common/breadcrumb_trace.py:2364-2380 | removing any entry keeps the others' protection exactly unless it is a latest decision that shadows an older unprotected one |
| Retention.EvictsToUnique | src/python/common/breadcrumb_trace.py:5727-5756 | eviction by the rule down to the limits has one result |
| RetainedWindow.Window.SelectVictim | src/python/common/breadcrumb_trace.py:2331-2362 | the index picks exactly the rule's victim, and nothing only when nothing is retained |
| RetainedWindow.Window.SelectEligible | src/python/common/breadcrumb_trace.py:2331-2347 | with an unprotected entry, the heaps and counts give the rule's victim |
| RetainedWindow.Window.SelectFallback | src/python/common/breadcrumb_trace.py:2348-2362 | with every entry protected, the count over all entries gives the rule's victim |
| RetainedWindow.Window.FallbackCounts | src/python/common/breadcrumb_trace.py:2348-2362 | per category, the number of entries and the oldest one |
| RetainedWindow.Window.BestEligible | src/python/common/breadcrumb_trace.py:2331-2347 | the champion beats every category |
| RetainedWindow.Window.OldestEligible | src/python/common/breadcrumb_trace.py:2320-2329 | dropping stale heads leaves the smallest eligible sequence on top and changes no count |
| RetainedWindow.Window.InsertEligible | src/python/common/breadcrumb_trace.py:2313-2318 | marks one node and keeps the index, including the heap bound of twice the eligible count plus 34 |
| RetainedWindow.Window.Append | src/python/common/breadcrumb_trace.py:2287-2311 | one entry more, and eligible still means unprotected by the rule |
| RetainedWindow.Window.AppendNode | src/python/common/breadcrumb_trace.py:2287-2311 | the superseded decision, or the new node itself, is what becomes eligible |
| RetainedWindow.Window.Remove | src/python/common/breadcrumb_trace.py:2364-2380 | any node: one node less and a correct index of the others, which still agrees with the rule exactly unless the node was a latest decision shadowing an older one; always, for a candidate |
| RetainedWindow.Window.Clear | src/python/common/breadcrumb_trace.py:2382-2384 | an empty window is valid under every policy |
| RetainedWindow.Window.Rebuild | src/python/common/breadcrumb_trace.py:2386-2419 | keeps exactly the given entries and re-establishes agreement with the rule under a new policy |
| RetainedWindow.Window.ReenterAll | src/python/common/breadcrumb_trace.py:2386-2419 | the first loop enters every node with fresh flags |
| RetainedWindow.Window.ReleaseAll | src/python/common/breadcrumb_trace.py:2386-2419 | the second loop releases every superseded decision of every category |
| RetainedWindow.Window.ReleaseSuperseded | src/python/common/breadcrumb_trace.py:2386-2419 | for one category, every unprotected decision but the latest becomes eligible |
| RetainedWindow.Window.Touch | src/python/common/breadcrumb_trace.py:5580-5613 | resizing an entry in place keeps index and eligibility |
| RetainedWindow.AppendProtection | src/python/common/breadcrumb_trace.py:2287-2311 | a newer decision takes over as latest of its category; nothing else changes protection |
| RetainedWindow.RemoveKeepsIndex | src/python/common/breadcrumb_trace.py:2364-2380 | removal with lazy heap cleaning keeps counts, heap contents and heap bound |
| RetainedWindow.RemoveKeepsEligibleIff | src/python/common/breadcrumb_trace.py:2364-2380 | after removing any node, eligible still means unprotected exactly unless it unshadows an older decision |
| RetainedWindow.RemoveKeepsEligible | src/python/common/breadcrumb_trace.py:2364-2380 | after removing a candidate it does |
| RetainedWindow.RebuiltIsValid | src/python/common/breadcrumb_trace.py:2386-2419 | releasing the superseded decisions of all categories is exactly the rule |
| Collector.Collector.EvictToBudget | src/python/common/breadcrumb_trace.py:5727-5756 | the loop ends, within both limits, having removed exactly the rule's victims one by one, with byte count, coalescing map and last signature consistent |
| Collector.Collector.EvictOne | src/python/common/breadcrumb_trace.py:5734-5752 | while entries remain there is a victim, it is the rule's, and it leaves window, bytes and coalescing map |
| Collector.Collector.RecordEntry | src/python/common/breadcrumb_trace.py:5580-5658 | an entry without a key is absorbed exactly by a newest entry that says the same, one with a key by its holder; otherwise it is appended, or dropped as oversized; every survivor keeps its record and size, retained bytes are the sum of sizes within both limits, and each coalescing signature names a retained node |
| Collector.Collector.Coalesce | src/python/common/breadcrumb_trace.py:5580-5613 | the absorbing entry changes size in place and eviction by the rule follows; the outcome says whether it survived |
| Collector.Collector.Admit | src/python/common/breadcrumb_trace.py:5614-5658 | an oversized entry changes nothing; any other is appended and eviction by the rule follows; the outcome says whether it survived |
| Collector.Collector.Enter | src/python/common/breadcrumb_trace.py:5614-5658 | the bookkeeping of an append before eviction |
| Collector.Collector.ApplyPolicy | src/python/common/breadcrumb_trace.py:4668-4673 | a policy change keeps every entry and its size and re-derives the index |
| Collector.Collector.ClearExcept | src/python/common/breadcrumb_trace.py:5121-5153 | a filtered clear keeps exactly the other entries with their bytes counted anew |
| Collector.Collector.BytesOf | src/python/common/breadcrumb_trace.py:5121-5153 | the sum of the kept sizes |
| Collector.FewerFit | src/python/common/breadcrumb_trace.py:5121-5153 | entries left by a clear fit the limits |
| Collector.EvictionStep | src/python/common/breadcrumb_trace.py:5734-5752 | evicting the rule's victim stays on the way to the rule's result and shrinks the window |
| Collector.EvictionEnd | src/python/common/breadcrumb_trace.py:5727-5756 | where the loop stops is the rule's result |
| ScanStream.WriteRoot | src/python/scan_fs.py:658-703 | the batches concatenate to the preorder records of the tree, each holds between one node and the cap within 64 KiB, none is cut short while it could take the next record, and it fails exactly when one record alone does not fit a line |
| ScanStream.AddToBatch | src/python/scan_fs.py:686-700 | a node joins the batch unless it is full, is refused exactly when it does not fit alone |
| ScanStream.PreorderIds | src/python/scan_fs.py:674-684 | ids are consecutive and as many as the tree has nodes |
| ScanStream.PopRemaining | src/python/scan_fs.py:674-701 | popping, emitting and pushing reversed children leaves the same records to come |
| ScanDecoder.RoundTrip | src/python/scan_fs.py:659-664 | a decoder that keeps only the active ancestors rebuilds every tree from its preorder records |
| ScanDecoder.PreorderInjective | src/python/scan_fs.py:597-622 | different trees have different records |
| ScanDecoder.PopSettles | src/python/scan_fs.py:659-664 | popping to a parent closes exactly the open nodes below it |
| ScanSession.WriteManifest | src/python/scan_fs.py:637-655 | all root names in order in non-empty lines within 64 KiB, failing exactly when a line alone does not fit |
| ScanSession.AddName | src/python/scan_fs.py:641-652 | a name is added after at most one flush, refused exactly when it does not fit alone |
| ScanSession.Fingerprint | src/python/scan_fs.py:597-622 | the stack loop digests exactly the preorder records of the tree without pair identity |
| ScanSession.SameFingerprint | src/python/scan_fs.py:597-622 | with an injective digest, two trees have the same fingerprint exactly when they agree, node by node, in name, size, kind, times and staging flags; pair identity alone is ignored |
| ScanSession.StripMeans | src/python/scan_fs.py:612-615 | stripping drops pair identity and no other field |
| ScanSession.SkippedIff | src/python/scan_fs.py:793-798 | a root is one line exactly when the receiver sent a digest for its name and already has that very tree, pair identity apart |
| ScanSession.StreamRoots | src/python/scan_fs.py:786-803 | one segment per present root in order, every line within 64 KiB; it completes exactly when there was no scan error and no record is too long for a line of its own |
| ScanSession.StreamRoot | src/python/scan_fs.py:793-798 | a known root is one line, any other its full records; failure exactly when a record alone does not fit |
| ScanSession.FailureIsFinal | src/python/scan_fs.py:786-803 | a root that cannot be sent fails the whole stream |
| ScanSession.ReceiveStream | src/python/scan_fs.py:659-664 | the receiver obtains every present root in order, field by field; a root that is new or differs from what it had, exactly |
| ScanSession.StreamSession | src/python/scan_fs.py:777-803 | manifest, roots and completion: every line within 64 KiB, failure exactly on a scan error or a record too long for a line of its own, and every receiver that sent digests of what it has accepts the lines and ends with the present roots in order |
| ScanSession.IncrementalRefinesFull | src/python/scan_fs.py:786-803 | skipping roots whose digests the receiver sent delivers the same root list, field by field but pair identity, as sending all of them |
| CompactIdSet.IdSet.AddIfAbsent | src/python/controller/ownership_census.py:77-92 | the table gains exactly the id, and says whether it was new |
| CompactIdSet.IdSet.Contains | src/python/controller/ownership_census.py:65-75 | the table answers as the set of ids added |
| CompactIdSet.IdSet.Probe | src/python/controller/ownership_census.py:65-92 | every probe ends, at the id if it is present and at an empty slot otherwise |
| CompactIdSet.IdSet.Resize | src/python/controller/ownership_census.py:99-105 | re-insertion into the doubled table keeps the set and needs no further resize |
| CompactIdSet.IdSet.Release | src/python/controller/ownership_census.py:60-63 | a released set is empty and usable |
| CompactIdSet.EmptyMeansAbsent | src/python/controller/ownership_census.py:65-75 | an empty slot on an id's probe path proves its absence |
| CompactIdSet.ProbeEnds | src/python/controller/ownership_census.py:65-75 | a table with an empty slot cannot be probed all the way round |
| CompactIdSet.StoreKeepsTable | src/python/controller/ownership_census.py:77-92 | storing at the end of the probe path keeps all probe paths unbroken |
| CompactIdSet.HasEmptySlot | src/python/controller/ownership_census.py:77-92 | fewer ids than slots leave an empty slot |
| OwnershipCensus.TraverseOwner | src/python/controller/ownership_census.py:264-300 | on any finite graph the traversal ends; a total that is not truncated is the number of nodes reachable from the owner; it is truncated exactly when there are more than the budget or a reachable child list raises, and in the first case alone the budget is used up |
| OwnershipCensus.StructuralTotals | src/python/controller/ownership_census.py:264-300 | the same exactness for every owner independently, for the budget that the owners before it left |
| OwnershipCensus.Census.Build | src/python/controller/ownership_census.py:117-205 | the owners' object counts add up to the visited count, within the cap; only containers and what the values reach are visited, all of it without truncation; with distinct labels each owner is charged for exactly the objects that its root is the first to reach; the cap truncates only if there is more to count |
| OwnershipCensus.CensusIsExact | src/python/controller/ownership_census.py:117-205 | without truncation, when containers' own children are among the values, the visited objects are exactly the containers and everything the values reach |
| OwnershipCensus.Census.CountRoot | src/python/controller/ownership_census.py:172-183 | one root: its container first, the cap ending the census there, then its values, all charged to its own label |
| OwnershipCensus.OwnersNextRoot | src/python/controller/ownership_census.py:172-183 | one more root keeps every owner's charge exact |
| OwnershipCensus.Census.Walk | src/python/controller/ownership_census.py:144-170 | a walk visits only what its value reaches, and, unless truncated, leaves no new node with an unvisited child; a container that raises while iterated has the children it yielded |
| OwnershipCensus.Census.Add | src/python/controller/ownership_census.py:131-142 | a new object is counted once for one owner, or the cap truncates |
| OwnershipCensus.ReachableInside | src/python/controller/ownership_census.py:264-300 | a set closed under children that holds the starts holds everything reachable |
| OwnershipCensus.SumIncrement | src/python/controller/ownership_census.py:131-142 | one more for one owner is one more in total |
| IdentityMigration.CanonicalIdempotent | src/python/controller/controller_persist.py:64-95 | a canonical id is its own canonical id, whatever the default pair |
| IdentityMigration.CanonicalDenotes | src/python/controller/controller_persist.py:64-95 | what the canonical id of each spelling decodes to: an id its own pair and name, a separated spelling its pair unless empty, a UUID and colon that pair, a bare name the default pair, if any |
| IdentityMigration.CanonicalSetStable | src/python/controller/controller_persist.py:97-102 | canonicalising the widened or the canonical set gives the canonical set |
| IdentityMigration.CanonicalizeCounts | src/python/controller/controller_persist.py:104-112 | per canonical id, exactly the largest count of its spellings, whatever the order |
| IdentityMigration.MaxMergedUnique | src/python/controller/controller_persist.py:104-112 | that determines the merged counts |
| IdentityMigration.CanonicalizeTimestamps | src/python/controller/controller_persist.py:114-126 | per canonical id, the explicitly canonical key's value if there is one, otherwise the value of its first spelling in dictionary order |
| IdentityMigration.ChosenUnique | src/python/controller/controller_persist.py:114-126 | that determines the chosen timestamps |
| IdentityMigration.ControllerPersist.CanonicalizeFileIdentities | src/python/controller/controller_persist.py:156-196 | one phase: legacy plus canonical, then canonical only, then nothing |
| IdentityMigration.PhaseOneCounts | src/python/controller/controller_persist.py:178-189 | phase one keeps every legacy key, shrinks no count and leaves keys that are no canonical ids as they were |
| IdentityMigration.PhaseOneStamps | src/python/controller/controller_persist.py:178-189 | likewise for timestamps |
| IdentityMigration.ExpandedCounts | src/python/controller/controller_persist.py:184-187 | merging the widened counts gives the counts merged from the original |
| IdentityMigration.ExpandedStamps | src/python/controller/controller_persist.py:178-195 | choosing from the widened timestamps gives the first choice |
| IdentityMigration.TwoPhases | src/python/controller/controller_persist.py:156-196 | phase one then phase two is exactly the canonicalisation of the original |
| IdentityMigration.RestartSafe | src/python/controller/controller_persist.py:156-196 | for every schedule of crashes, restarts and saves, a finished migration holds exactly the canonicalisation of what was on disk at the start |
| IdentityMigration.SchedulesAgree | src/python/controller/controller_persist.py:156-196 | any two schedules of crashes and restarts from one stored state finish with the same sets, counts and timestamps |
| IdentityMigration.RunOnTrack | src/python/controller/controller_persist.py:156-196 | at every moment disk and memory are untouched, widened or canonical versions of the original |
| IdentityMigration.AtMostTwoPhases | src/python/seedsync.py:299-302 | the third call changes nothing and asks for no save |
| IdentityMigration.MigrateAtStartup | src/python/seedsync.py:299-302 | the driver loop saves at most twice and leaves on disk exactly the canonicalisation of what was stored |
| LftpStatus.ParsePgetStatus | src/python/common/lftp_status.py:42-110 | what it accepts and returns is the status's meaning: the number of offsets that lie in no hole |
| LftpStatus.StatusMeans | src/python/common/lftp_status.py:42-110 | acceptance on the lines and offsets: base-only exactly for segment 0 within the file; up to 256 pairs exactly when each is well-formed, no two share an offset and none is empty strictly inside another, and then the number of offsets in no segment |
| LftpStatus.AcceptedIff | src/python/common/lftp_status.py:78-104 | a segment map is accepted exactly then, and its holes are its segments in order |
| LftpStatus.OverlapMeans | src/python/common/lftp_status.py:99-101 | the overlap test, on offsets |
| LftpStatus.ScannerFileSize | src/python/scan_fs.py:500-570 | the scanner's parser accepts the same inputs with the same covered size |
| LftpStatus.ScannerPairs | src/python/scan_fs.py:500-570 | its loop refuses exactly the malformed, out-of-range or overlapping maps |
| LftpStatus.CoverageArithmetic | src/python/common/lftp_status.py:42-110 | the total minus the sum of disjoint holes is the number of covered offsets and never negative |
| LftpStatus.DisjointSum | src/python/common/lftp_status.py:42-110 | disjoint holes add up to the offsets in them |
| LftpStatus.MeaningInRange | src/python/common/lftp_status.py:42-110 | every accepted covered size is at most the total |
| RemoteDelete.NoDeleteBeforeEvidence | src/python/controller/auto_queue.py:969-1028 | in every run, from the moment an id is in the deferred or the initial set and while it stays in the model, no cycle deletes it remotely until an event about the reconciled file shows an old state of QUEUED or DOWNLOADING or this process published it |
| RemoteDelete.BlockedDeleteIff | src/python/controller/auto_queue.py:978-1028 | a blocked id is deleted in a cycle exactly when a completion event comes with or after such evidence |
| RemoteDelete.EarlyCompletionDeletesIff | src/python/controller/auto_queue.py:982-1028 | for all inputs across two cycles: a completion seen while unreconciled deletes its file in the next faultless cycle, with no new event about it, exactly when it completes the file as it is then and proves a transfer |
| RemoteDelete.EarlyCompletionIsKept | src/python/controller/auto_queue.py:685-704 | a completion seen while unreconciled leaves its id deferred and its event buffered, and deletes nothing |
| RemoteDelete.DeferredDeleteIff | src/python/controller/auto_queue.py:992-1028 | a deferred id whose only buffered event is e is deleted exactly when e completes the current file and itself is evidence |
| RemoteDelete.DeletesAreCompletions | src/python/controller/auto_queue.py:1030-1046 | behind every remote delete is an event about a reconciled, enabled, eligible, matching file in the model with transferable content: EXTRACTING to EXTRACTED, or to DOWNLOADED from a state that is none of DOWNLOADED, EXTRACTED and EXTRACTING with nothing to extract |
| RemoteDelete.FreeCompletionDeletes | src/python/controller/auto_queue.py:982-1028 | the converse: such an event about a file in neither set makes a faultless cycle delete it |
| RemoteDelete.FieldsDecide | src/python/controller/auto_queue.py:1030-1046 | completion and evidence on the fields of event and file |
| RemoteDelete.RemovedIsForgotten | src/python/controller/auto_queue.py:351-355 | a removed id that the cycle does not meet again is in neither set afterwards |
| RemoteDelete.KeptBuffers | src/python/controller/auto_queue.py:690-704 | exactly which announcements and events a faultless cycle keeps |
| RemoteDelete.DeletesComeFromUpdates | src/python/controller/auto_queue.py:969-1046 | over every run from startup, behind each remote delete is an earlier reported update of that file whose old state makes the current one a completion: neither seeding nor new patterns delete |
| RemoteDelete.FirstSeenUnreconciled | src/python/controller/auto_queue.py:978-981 | a file announced while its pair is unreconciled is in the initial set when the cycle ends and is not deleted by it |
| RemoteDelete.DeferredCompletionStillDeletes | src/python/controller/auto_queue.py:984-991 | a two-cycle run in which a completion seen while unreconciled deletes later without a new event |
| RemoteDelete.CycleKeepsBlocked | src/python/controller/auto_queue.py:345-711 | no cycle, faulty or not, releases or deletes an undisturbed blocked id |
| RemoteDelete.AutoQueue.ProcessOnce | src/python/controller/auto_queue.py:345-711 | one cycle as a step of the run: removals, inactive and idle exits, selection, commands, pruning and retention, or the state an exception leaves |
| RemoteDelete.AutoQueue.FileAdded | src/python/controller/auto_queue.py:184-186 | an announcement is a step of the run |
| RemoteDelete.AutoQueue.FileUpdated | src/python/controller/auto_queue.py:188-190 | an update is a step of the run |
| RemoteDelete.AutoQueue.FileRemoved | src/python/controller/auto_queue.py:192-194 | a removal is a step of the run |
| RemoteDelete.AutoQueue.Work | src/python/controller/auto_queue.py:613-711 | the part of the cycle from the selection to the retained buffers, as far as an exception lets it run, also one between the two discards of a single event |
| RemoteDelete.AutoQueue.Select | src/python/controller/auto_queue.py:969-1028 | the selection behind its two switches |
| RemoteDelete.AutoQueue.FilterEvents | src/python/controller/auto_queue.py:982-1028 | the loop selects each id exactly when some event completes it and it was free or proven by then, and leaves exactly the unproven ids in the sets |
| RemoteDelete.AutoQueue.JudgeEvent | src/python/controller/auto_queue.py:982-1027 | what one event does to the two sets and to the selection |
| RemoteDelete.AutoQueue.AnnounceNew | src/python/controller/auto_queue.py:978-981 | exactly the announced unreconciled ids join the initial set |
| RemoteDelete.FilteredMore | src/python/controller/auto_queue.py:982-1028 | judging one more event keeps the description of all events exact |
| RemoteDelete.BufferedWasReported | src/python/controller/auto_queue.py:685-704 | a buffered event was reported by an earlier update of the run |
| SpanTable.CountsAreExact | src/python/common/performance_diagnostics.py:747-832 | in every interleaving with fewer than 2^63 spans: each active count is the number of running spans of its metric, all running spans are of the current generation, at most 32 run |
| SpanTable.RecordedAtMostOnce | src/python/common/performance_diagnostics.py:781-813 | in every such interleaving no span is recorded twice, whoever finishes it |
| SpanTable.NeverRecordedAfterReset | src/python/common/performance_diagnostics.py:953-973 | a recorded span saw no reset and no enable flip between the capture of its generation and its recording |
| SpanTable.NoSpanWhileDisabled | src/python/common/performance_diagnostics.py:622-638 | in every run spans are in the table only while the last observation found diagnostics enabled |
| SpanTable.UndisturbedSpan | src/python/common/performance_diagnostics.py:747-813 | progress: a begin and a finish that nobody disturbs, enabled and with fewer than 32 spans running, record exactly that span and leave neither span nor count behind |
| SpanTable.BeginSteps | src/python/common/performance_diagnostics.py:747-777 | a begin inserts its span under the next id and counts it, or counts the drop at 32; after a disabled time it starts from an empty table of the next generation |
| SpanTable.FinishSteps | src/python/common/performance_diagnostics.py:781-813 | a finish records a running span once and takes it out of table and count |
| SpanTable.StepInv | src/python/common/performance_diagnostics.py:747-832 | every lock section of every thread keeps table, ids, log and thread invariants |
| SpanTable.CommitInv | src/python/common/performance_diagnostics.py:760-774 | inserting, dropping or retiring at the end of a begin keeps the table exact |
| SpanTable.FinishInv | src/python/common/performance_diagnostics.py:797-812 | popping with the looked-up generation keeps the table exact and the clamp at zero never fires |
| SpanTable.ObserveInv | src/python/common/performance_diagnostics.py:603-609 | observing the enable flag, with or without a flip, keeps the table exact |
| SpanTable.Collector.CommitBegin | src/python/common/performance_diagnostics.py:760-777 | the last section of a begin and its token |
| SpanTable.Collector.CommitFinish | src/python/common/performance_diagnostics.py:797-813 | the last section of a finish and whether it records |
| SpanTable.Collector.ObserveEnabled | src/python/common/performance_diagnostics.py:603-609 | a flip starts a generation and empties the table |
| SpanTable.Collector.RetireActive | src/python/common/performance_diagnostics.py:640-648 | empties the table and zeroes every count |
| SpanTable.Collector.ResetAll | src/python/common/performance_diagnostics.py:953-973 | a reset starts a generation and empties the table |

## Left out

- Ingress: exception fallbacks around shared counters (UNKNOWN reservations), the root-progress counters, deadline expiry and the INCOMPLETE snapshot; a lane's queue is a multiset, so its order is not part of the accounting.
- Ingress: what a collector-owned call does to the collector while it holds its token; it only takes part in the gate, token and rejection protocol.
- Disabling and re-enabling durable output: the reconcile path does not drain again after tokens settle, so no claim that everything reaches the old spool.
- Seqlock: the generation counter's 64-bit wrap-around and memory reordering below single shared reads and writes.
- Spool: health sidecar publication, directory validation, fsync, permissions and retention pruning, of which only success or failure is kept.
- BatchWriter: Windows and symlink branches; retention deletes the oldest rotated files, so the files of the theorems are all that were ever detached, deleted since or not.
- RetainedWindow: heapq's array layout, a heap is the set of its sequences; the protected-category patterns are a predicate of the policy.
- Collector: policy allowance, sanitising, timestamps, category counters and the gap log; merged gap ranges do not keep the smallest start, so completeness of that log is not claimed.
- Scan stream: the filesystem walk, JSON and base64 text, and status_sidecar_ready, which is never serialised; the receiver's source is not part of the repository's scanner, so the decoder follows its documented contract.
- OwnershipCensus: byte totals, the failure classification and the platform-specific release of working memory; objects are graph nodes with the children that the traversal follows.
- IdentityMigration: the order of a migrated dictionary beyond that old keys keep their place, resume-source identities and JSON parsing of the persisted file.
- LftpStatus: lexing of lines into key, digits and remainder, and the byte decoding in front of it.
- RemoteDelete: the queue and extract lanes, whose outcome enters only as the set of selected ids, the breadcrumb and trace output, and the controller, model and path-pair manager, which answer through parameters that are fixed during a cycle.
- SpanTable: durations, windows, gauges and samples, and the finish path for start times without a span id, which never touches the table; beyond 2^63 - 1 spans ids are reused and nothing is claimed.
- Config parsing, notifier delivery, logging, process and thread wrappers, and the Angular front end: plumbing or user interface with few structural properties.
