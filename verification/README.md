# FastSync: a verified model

FastSync pushes a source tree to a receiver: a sender scans the tree and streams
frames, a receiver stores files and, under `--delete`, removes what the source no
longer has. This project models the parts of it where a mistake loses data, and
proves what they promise, for every tree, every frame stream, every interleaving of
the threads and every answer of the file system.

The files group as follows.

- `Protocol`, `Receiver`, `ReceiverLoop`, `LateDelete`, `EarlyDelete`, `FinishedRun`: the
  single-threaded receiver.
  The disk is the log of effects performed on it; the file system's answers are
  arbitrary functions of that log. `Receiver` says what each frame does, `ReceiverLoop`
  is the loop with its mutable state, `LateDelete` gives an account of a stream that
  does not mention the loop and proves when a parked keep-set is committed, `EarlyDelete`
  what --delete-before deletes by and when, and `FinishedRun` all that a run does and says
  from the stream and the file system's answers alone.
- `Pipeline`, `PipelineProgress`, `PipelineRefinement`, `PipelineContext`: the same
  receiver as two threads around a bounded queue, every interleaving being a schedule.
- `SourceTree`, `Scanner`, `ScanOrder`, `ScanCoverage`, `FilterChain`: the resumable
  scanner against a recursive account of the tree, and the filter rules it carries.
  `ScanLaws` and `ScanSequence` say from the tree and the options what is sent and in which
  order.
- `ParallelSplit`, `ParallelScan`, `ParallelOrder`, `ParallelCoverage`: the parallel scanner.
- `Inspection`, `InspectionLaws`: how an entry on disk becomes an entry of the scan, links
  included.
- `WirePaths`, `DeleteWalk`, `RemovedPaths`, `RemovalOrder`, `MissingArgs`, `Protection`,
  `SourceRoot`, `Sender`, `SenderBefore`, `EndToEnd`, `Shelter`, `WholeRun`: from scan to
  keep-set to deletion, exactly what the deletion removes and spares, and in which order.
- `AckProtocol`, `Handshake`, `FramedLists`: the other conversations of the two sides.
- `Chmod`, `ChmodMeaning`, `ChmodLaws`, `ChmodRun`, `Batch`, `CliExpand`, `Report`: small languages and codecs.

## What does not hold

Each of these is a lemma with a concrete input, next to the exact condition under
which the property does hold.

- A source root is sent as typed and compared literally. A file sent from below `.`
  under `--delete-after` is stored and then removed by the same run; this happens, whatever
  else is sent, left out or shielded, exactly when the root is not in normal form
  (`SourceRoot.StoredFileDeletedExactly`, `WholeRun.OwnFileDeletedExactly`,
  `SourceRoot.DotRootLosesItsFiles`).
- With `--remove-source-files` the receiver acknowledges every file it is sent, while the
  client remembers only sources that are regular files on disk. Symlinks, files sent for a
  dereferenced link, copied devices and, outside chunks, hard-link siblings therefore go
  astray: the statuses shift by one and a source can be taken for removal although its file
  was not stored, or although the run failed. Only special nodes can fail without ending the
  run, so removal is sound in every run exactly when no entry went astray, or the client
  remembers nothing or waits for more statuses than there are, or the entries astray come
  after every source and no special node was sent (`AckProtocol.RemovalSoundForFiles`,
  `AckProtocol.LinksShiftAcks`); `AckProtocol.RemovalSoundExactly` says it for any set of
  entries that can fail.
- `--chmod` clauses with `X` look at the mode the run started from. A spec changes its own
  result exactly if it sets an execute bit on a file that had none and an `X` would add
  another (`ChmodLaws.IdempotentExactly`); joining two specs with a comma differs from
  applying one after the other exactly if the first changes whether the file is executable
  and an `X` of the second would add a bit the first does not leave anyway
  (`ChmodLaws.CommaComposesExactly`, `ChmodLaws.XReadsTheFirstMode`).
- In a `--chmod` clause without a class, `s` discards a `t` before it; the letters set all
  they name exactly if `u` or `g` is named, or `s` and `t` do not both occur, or a `t`
  follows the last `s` (`ChmodLaws.OrderFreeExactly`, `ChmodLaws.StickyIsLost`).
- The receiver can remove 100000 files, which its own bound allows, and send a list of their
  names that the client's byte budget refuses (`FramedLists.FullListCanBeRefused`); a list is
  accepted exactly within that budget (`FramedLists.StatsPathsExchange`).
- A deletion does not spare the mirror of everything the source has. It spares a path in
  every destination exactly if something was sent as it or below it, or it lies at or below
  a path shielded in the manifest (`Shelter.SurvivesExactly`). Directories that cannot be
  read (a run that met one deletes only under `--ignore-errors`) and directories beyond a
  depth limit are neither
  (`Shelter.UnreadableDirectoryIsLost`, `Shelter.DeepDirectoryIsLost`); of the entries
  dropped on inspection those dropped for their name, their size or by `--safe-links` are
  shielded and the others are not (`Inspection.DropSurvivesExactly`).

Where code and comments disagree the model follows the code: a comment beside
`RECEIVER_QUEUE_MAX_BYTES` says that queued payload stays below that bound, while a
single whole file may be larger than it; the queue then holds that file alone
(`PipelineProgress.BudgetTheorem`).

## Model

| member | source | states |
|---|---|---|
| `ReceiverLoop.ReceiveSession.ReceiveFiles` | src/server/receiver.c:582-708 | the loop with its parked manifest, limit flag, outcomes, statistics and directory times, run over any frame stream, leaves exactly the disk effects, frames and manifest ledger of the specification; in the late timing its disk holds a deletion exactly for the one keep-set of a stream sound up to a timely FINISHED |
| `ReceiverLoop.ReceiveSession.Step` | src/server/receiver.c:526-555 | one frame's dispatch changes every field as the specification of that frame says |
| `ReceiverLoop.ReceiveSession.Save` | src/server/receiver.c:735-787 | storing one entry: disk log, outcome, deferred directory metadata, failure count and statistics |
| `ReceiverLoop.ReceiveSession.HandleLate` | src/server/receiver.c:420-485 | a late manifest is parked once, listed in a dry run, refused and freed when a second arrives |
| `ReceiverLoop.ReceiveSession.HandleEarly` | src/server/receiver.c:420-485 | an early manifest is committed at once and acknowledged, capped or refused |
| `ReceiverLoop.ReceiveSession.SendSuccess` | src/server/receiver.c:805-838 | statistics, publication, directory times and acknowledgements, in that order, as the specification that `FinishedRun.FinishedDisk` and `FinishedRun.FinishedWire` pin down |
| `LateDelete.LoopMeetsAccount` | src/server/receiver.c:582-708 | the loop goes on exactly through streams that are sound by an account that does not mention it, and its disk holds exactly what they asked for |
| `LateDelete.LateDeleteExactly` | src/server/receiver.c:609-657 | a late keep-set is committed if and only if the stream was sound up to a timely FINISHED and carried that keep-set and no other |
| `LateDelete.DeleteAfterEveryStore` | src/server/receiver.c:609-657 | the deletion follows every store, each of which succeeded, and precedes publication and directory times |
| `LateDelete.BrokenStreamOnlyStores` | src/server/receiver.c:559-568 | an abort, bad frame, failed store, time bound or second manifest, at any point, leaves nothing deleted, published or stamped |
| `LateDelete.EveryManifestRetiredOnce` | src/server/receiver.c:559-568 | each manifest read off the wire is committed or freed exactly once, whatever the timing and whatever breaks the stream |
| `LateDelete.DryRunTouchesNothing` | src/server/receiver.c:735-787 | under a dry run no stream stores or deletes anything |
| `EarlyDelete.EarlyDeletesSent` | src/server/receiver.c:420-485 | under --delete-before nothing is deleted but by a manifest the stream carried |
| `EarlyDelete.EarlyDeletesFirst` | src/server/receiver.c:420-485 | a stream that begins with its manifest has the deletion as the first effect on the disk and its result as the first reply, and after a failed deletion nothing else happens |
| `FinishedRun.FinishedDisk` | src/server/receiver.c:805-838 | the disk after a late run that reached its end: everything stored, the deletion, publication exactly under --delay-updates, and unless that failed the times of exactly the directories stored with metadata, in order; it succeeds exactly if neither deletion nor publication failed |
| `FinishedRun.FinishedWire` | src/server/receiver.c:805-838 | all it tells the sender: one echo per keepalive, the statistics as sums over the entries, one answer per entry the sender might remove, and the terminal status, or an error where deletion or publication failed |
| `FinishedRun.BookTallied` | src/server/receiver.c:735-787 | after saving a list of entries the counters, failures, directory times and answers are exactly the sums and selections over what became of each |
| `FinishedRun.CreatedOnce` | src/server/receiver.c:735-787 | every entry and directory created is counted once, under one kind |
| `FinishedRun.BrokenWire` | src/server/receiver.c:559-568 | a late run that breaks off fails and says one error after the echoes, unless the sender aborted, cannot be reached, never spoke, or a batch of checks failed |
| `FinishedRun.EarlyFinishedDisk` | src/server/receiver.c:805-838 | an early run that reached its end publishes exactly under --delay-updates and then stamps exactly the directories stored with metadata |
| `PipelineRefinement.PipelineRefinesSequential` | src/server/server.c:934-1065 | every complete interleaving of the two threads and the join code performs the disk effects of the single-threaded receiver in the same order, succeeds exactly when it does, and on success sends the same frames |
| `PipelineRefinement.PipelineRetiresManifests` | src/server/server.c:980-1006 | whichever thread fails and however they interleave, each manifest read is committed or freed once |
| `PipelineRefinement.EveryStateRelated` | src/server/receiver_pipeline.c:191-328 | in every reachable state what was read, queued, held and written is a split of the sequential plan |
| `PipelineProgress.BudgetTheorem` | src/server/receiver_pipeline.c:110-161 | with a positive limit the byte counter is the payload queued plus held by the writer, the limit is exceeded only by one payload alone in flight, and a release never saturates |
| `PipelineProgress.NeverStuck` | src/server/receiver_pipeline.c:123-161 | a waiting receiver always leaves the writer a move and the other way round, until both have exited |
| `PipelineProgress.EveryRunEnds` | src/server/receiver_pipeline.c:191-328 | a schedule without spurious wake-ups is no longer than a bound fixed by the stream |
| `PipelineContext.Context.EnqueueFile` | src/server/receiver_pipeline.c:123-161 | enqueueing under the mutex is the receiver's move of the machine, waiting included |
| `PipelineContext.Context.NoteBytesReleased` | src/server/receiver_pipeline.c:110-121 | releasing bytes is the writer's move of the machine |
| `PipelineContext.Context.Dequeue` | src/shared/queue.c:159-172 | dequeueing is the writer's move: an entry, an end, or a wait |
| `PipelineContext.FinishTransfer` | src/server/server.c:980-1065 | the code after the joins computes the machine's final outcome, which the refinement equates with the sequential one that `FinishedRun.FinishedDisk` pins down |
| `PipelineContext.ServePipelined` | src/server/server.c:934-1065 | two threads over one context, in the order of any schedule, then the code after the joins: the disk effects, verdict and deletions of the single-threaded receiver, and on success its frames |
| `FilterChain.ApplySide` | src/shared/filter.c:876-886 | the action of the first rule that fires for a side: excluded or protected exactly if it excludes, included or at risk exactly if it includes |
| `FilterChain.FiresExactly` | src/shared/filter.c:840-874 | a rule has an action if and only if its side is asked, the path lies below its owner, and it fits the path, a tail of it or the name, as its anchor and slashes say, or does not fit if negated; which action follows from its kind and side |
| `FilterChain.PlainRuleFires` | src/shared/filter.c:840-874 | a rule without owner, anchor and slash fires exactly if its side is asked and its test of the name comes out against its negation |
| `FilterChain.FirstExactly` | src/shared/filter.c:876-886 | over any list the first rule that fires decides |
| `FilterChain.ChainOutcome` | src/client/scanner_filter.c:60-89 | one walk up a chain of any length gives the hide and protect verdicts of two independent first-match evaluations over the flattened list, each decided by the first rule that fires |
| `FilterChain.PassesSelection` | src/client/scanner_filter.c:272-282 | an entry is left out exactly if filtering is on and it is a rule file to leave behind or the first rule that fires excludes it, and protected by the receiver's side likewise |
| `FilterChain.TwoSidedRulesAgree` | src/shared/filter.c:840-874 | with two-sided rules only, what is hidden is protected and what is included is at risk |
| `ScanOrder.ListingIsCanonical` | src/client/scanner.c:44-52 | whatever order readdir gives and whichever ordered permutation qsort leaves, the scanner walks the same listing |
| `ScanOrder.SortIs` | src/client/scanner.c:67-123 | the buffered directory is ordered and a permutation of what was read |
| `Scanner.StepActs` | src/client/scanner.c:1177-1235 | each step of the stack machine does the first of what the recursive account has left, and leaves the rest |
| `Scanner.DirectoryScanner.OpenNext` | src/client/scanner.c:441-548 | opening a directory, or noting an I/O error, fatal only for the transfer root |
| `Scanner.DirectoryScanner.ProcessEntry` | src/client/scanner.c:1024-1175 | one entry: what is recorded as protected, what is sent, what is collected, whether its directory counts as produced |
| `Scanner.DirectoryScanner.HandleSkipped` | src/client/scanner.c:911-936 | a skipped entry notes a missing referent and protects what a rule or a size limit left out |
| `Scanner.DirectoryScanner.HandleDirectory` | src/client/scanner.c:975-998 | a mount point is sent but not entered under -x and dropped under -xx; any other directory is collected within the depth limit |
| `Scanner.DirectoryScanner.PushPending` | src/client/scanner.c:127-138 | children are stacked in reverse |
| `Scanner.DirectoryScanner.FinishDirectory` | src/client/scanner.c:1003-1019 | a directory from which nothing came is sent as itself; its children are stacked and it is closed |
| `Scanner.DirectoryScanner.Next` | src/client/scanner.c:1177-1235 | what was done and what is left make up the whole; a chunk is what was sent since the last; its payload without its last item is at most chunk_size; it is empty only when the tree is done |
| `Scanner.ScanFrom` | src/client/scanner.c:1177-1235 | the same scan from any directory, as a worker starts it: everything recorded is the recursive account of that directory; only an unreadable transfer root fails it |
| `Scanner.ScanAll` | src/client/scanner.c:1177-1235 | concatenating all chunks gives the depth-first recursive account, independent of chunk_size; every chunk is cut by the item that exceeds the size; the run terminates and fails only for an unreadable root |
| `ScanCoverage.CoversExactly` | src/client/scanner.c:1003-1235 | a scan sends or shields something if and only if a directory reached through directories it goes into gives rise to it |
| `ScanCoverage.SentOnce` | src/client/scanner.c:1024-1175 | no path is sent twice |
| `ScanCoverage.RulesInForce` | src/client/scanner_filter.c:532-567 | the context a directory is scanned under is its own rules, then each ancestor's from the nearest outwards |
| `ScanCoverage.JudgedByLineage` | src/client/scanner.c:449-459 | an entry is left out, or protected, exactly by the first rule that fires over the rule sets on its path from the root and then the command line, rule files aside |
| `ScanLaws.EntersExactly` | src/client/scanner.c:1071-1098 | a directory below the start is entered if and only if a way of readable, chosen directories leads there, crossing no mount point under -x and -xx, and it lies less deep than the depth limit |
| `ScanLaws.FilesSentExactly` | src/client/scanner.c:1100-1175 | a file is sent if and only if it stands in a directory the scan reads, is chosen and supported, and lies no deeper than the depth limit |
| `ScanLaws.DirectoriesSentExactly` | src/client/scanner.c:975-1008 | a directory is sent if and only if it is a mount point under -x and not -xx, or directories are listed, or it gave nothing and empty directories are wanted |
| `ScanLaws.ShieldsExactly` | src/client/scanner.c:1040-1055 | a path is shielded if and only if it was met and left out by rules or on inspection, or protected by rules; and as one of its size exactly if dropped for its size |
| `ScanLaws.ErrorsExactly` | src/client/scanner.c:911-936 | an error is noted if and only if a directory entered cannot be read or a followed link leads nowhere |
| `ScanSequence.SentInOrder` | src/client/scanner.c:1177-1235 | items are sent in order: the entries of a directory in listing order, then what lies below its subdirectories, one after the other |
| `ParallelSplit.BatchFiles` | src/client/scanner_parallel.c:148-211 | root files are partitioned into chunks in order, each file in exactly one, every slot emptied, cut as soon as the size is reached |
| `ParallelSplit.ShareOut` | src/client/scanner_parallel.c:473-546 | worker shares partition the subdirectories in order, none is empty, and they differ by one at most |
| `ParallelCoverage.ScanRootEntry` | src/client/scanner_parallel.c:214-441 | one root entry is shielded, taken as a root file or kept for a worker, under all options: mount points as -x says, neither depth limit nor listing at the root |
| `ParallelCoverage.Prepare` | src/client/scanner_parallel.c:445-652 | root files in order, cut into chunks, and worker shares in order make up the root's own part, under all options |
| `ParallelCoverage.RunWorker` | src/client/scanner_parallel.c:30-96 | a worker's chunks are what scanning each of its directories sends, and its record their whole account |
| `ParallelScan.NullMeansAllDelivered` | src/client/scanner_parallel.c:654-674 | in every interleaving, with workers created late or not at all and workers that fail, a consumer that did not give up is told there are no more chunks only after every created worker completed and the queue drained; it got no chunk twice and, unless the scan counts as failed, every chunk |
| `ParallelOrder.DeliveredInOrder` | src/client/scanner_parallel.c:30-108 | a scan that ends well delivered first what the root pass found, in order, and of each worker all chunks in the order it made them, however the threads interleaved |
| `ParallelScan.NeverStuck` | src/client/scanner_parallel.c:30-108 | with sleeping workers, lost and spurious wake-ups, failing workers, failed thread creation and cancellation, some thread can move until every worker can be joined |
| `ParallelScan.EveryRunEnds` | src/client/scanner_parallel.c:30-108 | a run without spurious wake-ups is no longer than a bound fixed by the work, failures included |
| `ParallelScan.EveryReachableState` | src/client/scanner_parallel.c:30-108 | no chunk is doubled and none is lost before a cancellation, the completion count matches the threads awaited, and no wake-up is lost |
| `ParallelCoverage.AnyDepth` | src/client/scanner_parallel.c:30-96 | without a depth limit a worker's scan from depth 0 does what the sequential scan does deeper down |
| `ParallelCoverage.ParallelEmitsTheSame` | src/client/scanner_parallel.c:654-674 | without depth limit and listing, whatever the interleaving, the items delivered are the multiset of items the sequential scan emits |
| `ParallelCoverage.ScanInParallel` | src/client/scanner_parallel.c:548-674 | the parallel scan from root entries through workers and queue: the items of the sequential scan in every interleaving, and its shields and errors |
| `WirePaths.PathCatJoins` | src/shared/utils.c:651-675 | on clean names path_cat appends one component |
| `WirePaths.WithinMeansPrefix` | src/shared/delete.c:39-50 | on clean paths the string test for "at or below" holds exactly for paths at or below |
| `WirePaths.JoinInjective` | src/shared/utils.c:651-675 | a clean path is determined by its string |
| `DeleteWalk.FindSkip` | src/shared/delete.c:39-50 | whether a path is under a protected prefix, top-level-only ones counting at the root only |
| `DeleteWalk.HasChildPrefix` | src/shared/utils.c:371-388 | the binary search decides whether any kept name lies below a directory |
| `DeleteWalk.RemovedExactly` | src/shared/delete.c:197-415 | a path is removed if and only if no directory on the way to it is shielded and everything at or below it is an extra |
| `RemovedPaths.RemovedPathsExactly` | src/shared/delete.c:197-415 | a path is removed if and only if something stands there, no protected prefix and no rule of the receiver speaks for it or a directory on the way, and nothing at or below it is spoken for, kept, above a kept name, synchronized, or outside every synchronized directory |
| `RemovedPaths.RuledIsSpared` | src/shared/delete.c:251-258 | what a rule of the receiver protects stays with all below it and every directory above it |
| `RemovedPaths.ProtectRulesSpare` | src/shared/delete.c:251-258 | the same for a rule list: the first rule that fires on the receiver's side decides |
| `RemovalOrder.RemovesInOrder` | src/shared/delete.c:222-415 | of two removed paths the first is contents of the second, or dealt with by an earlier pass over their common directory or earlier in the same; nothing is removed twice or after a directory above it |
| `DeleteWalk.WalkAgrees` | src/shared/delete.c:475-530 | --max-delete=N removes exactly the first N entries of the unlimited run, which is what a dry run lists |
| `Protection.KeptIsSpared` | src/shared/delete.c:197-415 | an entry at a kept path is not removed, nor any directory above it |
| `Protection.ProtectedIsSpared` | src/shared/delete.c:197-415 | nothing at or below a protected path is removed |
| `Protection.AboveProtectedIsSpared` | src/shared/delete.c:197-415 | if something stands at a protected path no directory above it is removed |
| `Protection.AboveKeptIsSpared` | src/shared/delete.c:27-33 | a directory with a kept path below it stays even if the kept entry is not there |
| `Protection.SyncedIsSpared` | src/shared/delete.c:67-71 | a directory in the synchronized section is not removed |
| `Protection.WireIsMirror` | src/client/client_manifest.c:43-61 | below a tidy root the name sent for an entry is the walker's name for its mirror |
| `Protection.ShelteredSurvives` | src/shared/delete.c:197-415 | what was sent, what a kept name lies below, and what lies at or below a guarded path is not removed, nor any directory above it |
| `Protection.MirrorSurvives` | src/client/scanner.c:911-970 | the mirror of an entry the scan sent or shielded is not removed, nor any directory above it; under --delete-excluded, one it sent or shielded for its size |
| `Protection.PrunedMirrorSurvives` | src/client/scanner.c:941-970 | what a rule, a name pattern or --safe-links left out keeps its mirror and everything below it; what a size limit left out does so under --delete-excluded too |
| `Protection.ScannedDirectorySurvives` | src/client/scanner.c:404-433 | the mirror of a directory the scan went into stays, if everything below it could be read, as something is sent at or below it |
| `SourceRoot.WireNormalExactly` | src/shared/utils.c:651-675 | names on the wire are in normal form if and only if the source root is |
| `SourceRoot.FileRemovedExactly` | src/shared/delete.c:197-415 | in a plain run a file goes if and only if its own path is not literally kept |
| `SourceRoot.StoredFileDeletedExactly` | src/client/client_manifest.c:43-61 | with any keep-set and any protected prefixes below the root, a file stored and kept under its name on the wire is deleted by the same run if and only if the root is not in normal form |
| `SourceRoot.DotRootLosesItsFiles` | src/client/client_manifest.c:43-61 | under --delete-after the source root "." is such a root |
| `Sender.AddChunk` | src/client/client_manifest.c:43-61 | the manifest gains the wire names of a chunk's entries, one leading slash removed |
| `Sender.LateSender.Run` | src/client/client_send.c:1639-1743 | data goes out in scan order and the manifest lists exactly what was sent, up to the scan's end, the first deadline, abort or failure, an abort being told |
| `Sender.LateSender.Finalize` | src/client/client_send.c:1748-1819 | the completion tail's frames, by cases, the manifest with all four sections; exit 1 exactly without a tail, 23 after an I/O error |
| `Sender.SendLate` | src/client/client_send.c:1639-1819 | a keep-set goes out if and only if deletion was asked for and the scan ran to its end, unfailed, unaborted, in time, with I/O errors tolerated and not leaving it empty; it then follows all data and lists every emitted name; in every run the data is all chunks up to the first one kept back, the tail comes exactly if the run is closed in form, and an abort exactly if one was seen |
| `SenderBefore.ReplaySender.Prepare` | src/client/client_send.c:1521-1579 | the early keep-set is refused, skipped, or sent and awaited; an abort while waiting is told to the receiver, and only an acceptance or a suppressed deletion lets the data pass begin |
| `SenderBefore.ReplaySender.Replay` | src/client/client_send.c:1671-1741 | the data pass takes chunks out of the retained list one by one and sends them in order up to the first that an abort, the deadline or a failure keeps back |
| `SenderBefore.SendBefore` | src/client/client_send.c:1523-1741 | --delete-before: nothing follows the preamble unless the keep-set was accepted or suppressed; then exactly the listed chunks go out up to the first one hindered, all of them and the tail if none is; every chunk destroyed exactly once |
| `SenderBefore.JudgedExactly` | src/client/client_send.c:1521-1579 | the early keep-set goes out exactly after a scan that did not fail and met no error, or was told to ignore errors and found something; a scan with errors not ignored sends its data without deleting |
| `SenderBefore.ClearedExactly` | src/client/client_manifest.c:410-438 | what goes out first and whether data may follow, from the scan and the reply: the abort exactly when the user aborted while waiting, data exactly on acceptance or suppression |
| `SenderBefore.ClosingExactly` | src/client/client_send.c:1671-1741 | the tail comes exactly if the list or the deadline ended the pass and no abort was seen; an abort is told exactly if one stopped it or was seen at its end |
| `EndToEnd.ScanSource` | src/client/client_scan.c:392-470 | a scan hands the sender exactly its items, protected paths and error flags |
| `EndToEnd.KeptExactly` | src/client/client_manifest.c:43-61 | a name is in the keep-set if and only if it is that of an item sent |
| `EndToEnd.ProtectedExactly` | src/client/client_send.c:1479-1512 | a name is in the protected section if and only if it is that of a shielded path, under --delete-excluded one shielded for its size |
| `EndToEnd.ManifestCovers` | src/client/client_manifest.c:348-393 | the manifest keeps everything sent and protects everything shielded; under --delete-excluded everything shielded for its size |
| `EndToEnd.DeletionIsSafe` | src/client/scanner_filter.c:359-387 | for every tree, all options, every tidy root and destination, a scan's own manifest never costs the mirror of anything sheltered, nor a directory above it |
| `Shelter.SurvivesExactly` | src/shared/delete.c:197-415 | a mirror survives a run's own manifest in every destination if and only if something was sent as it, or for a directory below it, or it lies at or below a guarded path |
| `Shelter.UnshelteredGoes` | src/shared/delete.c:197-415 | what is not sheltered is removed from a destination that holds nothing else |
| `Shelter.EntryShelteredExactly` | src/client/scanner.c:1003-1175 | every entry of every directory read is sheltered if and only if a directory above it is guarded, or it is sent or guarded itself, or the scan goes into it and sends something there |
| `Shelter.UnreadableExposed` | src/client/scanner.c:471-507 | a directory that cannot be read is sheltered only by a guard above it |
| `Shelter.TooDeepExposed` | src/client/scanner.c:1081-1098 | so is a directory at the depth limit |
| `Shelter.UnreadableDirectoryIsLost` | src/client/scanner.c:471-507 | a file beside an unreadable directory: under --ignore-errors the keep-set goes out and the directory's mirror is removed |
| `Shelter.DeepDirectoryIsLost` | src/client/scanner.c:1081-1098 | with a depth limit of 1 the mirror of a subdirectory is removed by a run without error |
| `Inspection.InspectEntry` | src/client/scanner_filter.c:572-675 | what lstat, readlink and stat say, the link, name and size options decide whether an entry is dropped, a file or a directory, and on which sink a dropped one goes |
| `Inspection.SafeExactly` | src/shared/file.c:467-514 | a link target is safe if and only if it is relative, goes up only at its start, and followed from the link's directory never leaves the transfer root |
| `InspectionLaws.UnsafeExactly` | src/shared/file.c:467-514 | the same from a second way to take paths apart, with going back said of pairs of components |
| `InspectionLaws.LinksExactly` | src/client/scanner_filter.c:129-163 | a link is followed, held back and protected, carried, or left out, each exactly under its own condition on the options, the target and what it leads to |
| `InspectionLaws.WelcomeExactly` | src/client/scanner_filter.c:644-668 | a name or size is refused exactly if a pattern or limit refuses it |
| `InspectionLaws.FoundExactly` | src/client/scanner_filter.c:572-675 | what inspection finds is the node, link or directory the entry stands for, if name and size are welcome; otherwise it is dropped, with exactly the sink and the error that apply |
| `Inspection.Surveyed` | src/client/scanner_filter.c:572-675 | every directory a scan reaches is one on disk, found through directories and links followed to them |
| `Inspection.DropShelteredExactly` | src/client/scanner.c:911-936 | a dropped entry is sheltered if and only if it was dropped for its size, or without --delete-excluded for its name or by --safe-links, or a directory above it is guarded |
| `Inspection.DropSurvivesExactly` | src/client/scanner.c:911-936 | from the disk to the deletion: under that same condition, and no other, its mirror survives in every destination |
| `WholeRun.CommittedManifest` | src/server/receiver.c:609-657 | what a late receiver deletes by was sent by a run that scanned its source to the end, and is that scan's own manifest |
| `WholeRun.WholeRunIsSafe` | src/server/receiver.c:609-657 | if a late run deletes, then its scan was complete and trusted, and the mirror of anything it sheltered is there after the commit if and only if it lies in no tree removed for a missing argument, whatever the file system answers, the destination holds or the receiver protects besides |
| `WholeRun.EarlyRunIsSafe` | src/client/client_send.c:1521-1579 | the same for --delete-before: what the receiver deletes by is the keep-set of a scan that did not fail and that its errors let through |
| `WholeRun.CommitIsSafe` | src/shared/delete_commit.c:446-488 | a commit of a scan's own manifest, missing arguments first and cut short anywhere, leaves a sheltered mirror standing if and only if it lies in no tree removed for a missing argument |
| `MissingArgs.DeleteMissing` | src/shared/delete_commit.c:218-376 | the loop over missing arguments removes only at or below requested paths, within the budget, and without error or limit exactly the requested trees; a limit means the budget is spent, and an error that a name is invalid or ends in a dot or the system failed |
| `MissingArgs.Serve` | src/shared/delete_commit.c:238-372 | one request fails, stops the loop or exceeds the budget each exactly under its own condition on the name, the destination, the budget and the system |
| `MissingArgs.MissingExactly` | src/shared/delete_commit.c:205-376 | a path with no request at or above it is there afterwards if and only if it was before; once all requests are served, any path is there if and only if it was and lies in none of them |
| `MissingArgs.PresentExactly` | src/shared/delete_commit.c:295-375 | after a series of removals exactly what was there and lies at or below none of them is there |
| `WholeRun.OwnFileDeletedExactly` | src/client/client_manifest.c:43-61 | whatever a scan sent, left out and shielded, its own manifest deletes the copy of a file it sent if and only if the source root is not in normal form |
| `AckProtocol.FinalizeTransfer` | src/client/client_send.c:244-306 | the client's reading of the closing frames: verdict, flags set in place, frames taken |
| `AckProtocol.OutcomesAre` | src/server/receiver.c:775-784 | the receiver's outcome list is one outcome per counted entry, in order |
| `AckProtocol.AlignedExactly` | src/client/client_send.c:200-232 | the j-th status is for the j-th remembered source and there are no others if and only if no entry is acknowledged and not remembered, or remembered and not acknowledged |
| `AckProtocol.AstrayKinds` | src/client/client_send.c:816-938 | the entries of which only one side keeps count: acknowledged ones that are not regular files on disk, and outside chunks hard-link siblings |
| `AckProtocol.AlignedExchange` | src/server/receiver.c:50-67 | when they agree the client takes exactly the receiver's frames, accepts exactly on OK or a capped deletion without failed entries, notes exactly a capped deletion, and a source is up for removal if and only if its own outcome was WRITTEN |
| `AckProtocol.PlainExchange` | src/client/client_send.c:244-306 | without removal the terminal status alone decides, and all frames are taken |
| `AckProtocol.RemovalSoundExactly` | src/client/client_send.c:152-158 | whichever entries can fail, and for any list of sent entries, removal is sound in every run if and only if the client remembers nothing, waits for more statuses than are sent, or remembers the first of the acknowledged entries in order and either there are no others or nothing but those and the next one can fail |
| `AckProtocol.RemovalSoundForFiles` | src/client/client_send.c:816-938 | with special nodes as what can fail, removal is sound in every run if and only if no entry went astray, the client remembers nothing or more than is acknowledged, or the entries astray come after every source and no special node was sent |
| `AckProtocol.LinksShiftAcks` | src/client/client_send.c:244-306 | a symlink carried as such, or a file sent for a dereferenced link, before a file: stored by a file system that skips the second, the client takes the file for removal although it was not stored, in chunks and outside |
| `AckProtocol.RunEndsWithClosing` | src/server/receiver.c:805-838 | every successful run of the receiver ends its frames with the closing frames for its own outcomes, the last status following from a capped deletion and from its own failures |
| `AckProtocol.RemovalFollowsStorage` | src/server/receiver.c:775-784 | from sent entries through the receiver's run to the client: if none went astray, the closing frames are taken whole and a source is up for removal if and only if storing that very entry wrote it |
| `Handshake.Conversation.IncrementalCheck` | src/client/client_send.c:322-440 | the verdict matches the phase the receiver is in; it fails exactly if no usable verdict arrived after the report that may precede it, and otherwise is what that verdict means |
| `Handshake.Conversation.SendAppend` | src/client/client_send.c:495-577 | a tail, a whole file after a refused prefix, or an error, each exactly when the offset and the receiver's answer ask for it, and never a receiver left waiting |
| `Handshake.Conversation.SendSingleFile` | src/client/client_send.c:676-801 | success means exactly one payload, unchanged or failure means none, each exactly when the replies ask for it; a delta goes out exactly for an intact signature when one is possible and pays, a tail for kept bytes, the whole file otherwise |
| `Handshake.WholeOnlyWhenWanted` | src/client/client_send.c:676-801 | in every trace that follows the protocol a whole file is the source and comes right after NEXT, or after NEXT in answer to a signature |
| `Handshake.SignatureAnsweredOnce` | src/client/client_send.c:442-485 | a signature gets exactly one answer: a delta, NEXT or an error |
| `Handshake.PayloadCount` | src/client/client_send.c:676-801 | at most one payload is sent for a file |
| `Handshake.TailIsTheRest` | src/client/client_send.c:495-577 | a tail is sent only for an offset the source exceeds, is exactly the rest of it, and under --append-verify follows an accepted prefix |
| `Handshake.AppendRestores` | src/client/client_send.c:495-577 | kept bytes plus tail are the source exactly if the kept bytes are the source's first; under --append-verify a signature of those was sent for comparison before the tail was accepted |
| `FramedLists.SendDirTimes` | src/client/client_send.c:620-644 | every frame carries between 1 and MAX_MANIFEST_ENTRIES entries, only the last fewer, in order |
| `FramedLists.ReceiveDirTimes` | src/server/receiver.c:149-159 | frames are accepted exactly within the bound, and rebuild the list |
| `FramedLists.DirTimesRoundTrip` | src/client/client_send.c:620-644 | the receiver rebuilds every list |
| `FramedLists.ReceivePaths` | src/client/client_report.c:1010-1044 | the path list is accepted exactly if within the entry bound, valid and within the byte budget, and then retained unchanged |
| `FramedLists.StatsPathsExchange` | src/server/receiver.c:69-95 | the capped list the receiver sends is accepted exactly if its paths are valid and within the byte budget |
| `FramedLists.FullListCanBeRefused` | src/client/client_report.c:1010-1044 | 100000 removed files with distinct valid names of 144 characters: within the receiver's bounds, sent in full, beyond the client's budget |
| `ChmodRun.Apply` | src/shared/chmod.c:25-183 | the one-pass loop on integers, file type and permissions in one word, computes the meaning of the parsed clause list, rejects exactly what does not parse, and keeps the file type bits |
| `ChmodRun.AndWords` | src/shared/chmod.c:70-74 | the bitwise and of two words is the and of their file types and of their permissions |
| `ChmodRun.OrWords` | src/shared/chmod.c:70-74 | likewise the bitwise or |
| `ChmodRun.Masks` | src/shared/chmod.c:42-66 | the registers of a finished clause, umask included, give its and-mask and its or-mask |
| `ChmodMeaning.SpecAccepted` | src/shared/chmod.c:77-183 | a spec without a comma is accepted if and only if it is classes, an operator and letters, or an octal number of twelve bits |
| `ChmodMeaning.SymbolicDoes` | src/shared/chmod.c:42-75 | what a symbolic clause does to each permission of each class, from its letters, the umask, and whether the target is a directory or executable |
| `ChmodMeaning.SymbolicDoesTop` | src/shared/chmod.c:42-75 | what it does to the set-id and sticky bits |
| `ChmodMeaning.NumericDoes` | src/shared/chmod.c:42-75 | a number replaces all twelve bits by its octal value, for the targets D and F let through |
| `ChmodLaws.ArithmeticIsMasking` | src/shared/chmod.c:42-66 | the integer sums, products and differences on the masks are unions, spreads and complements, without carry or borrow |
| `ChmodLaws.OctalIsShift` | src/shared/chmod.c:167-175 | an octal digit multiplies by eight and adds, and is refused exactly above 07777 |
| `ChmodLaws.ProbeDecides` | src/client/client_cli.c:1546-1553 | a probe with mode 0 decides acceptance for every mode |
| `ChmodLaws.CommaJoins` | src/client/client_cli.c:139-155 | a comma join is accepted exactly if both specs are, and means their clauses in sequence |
| `ChmodLaws.OnePair` | src/shared/chmod.c:67-75 | a list of clauses acts as one and-mask and one or-mask |
| `ChmodLaws.XFreeIgnoresExecutable` | src/shared/chmod.c:67-75 | without X that pair is the same for executable files and others |
| `ChmodLaws.IdempotentExactly` | src/shared/chmod.c:25-183 | applying a spec to its own result changes nothing if and only if the file is executable, or the spec sets no execute bit on one that is not, or no X would add a bit |
| `ChmodLaws.IdempotentWithoutX` | src/shared/chmod.c:25-183 | a spec without X is idempotent |
| `ChmodLaws.CommaComposesExactly` | src/client/client_cli.c:139-155 | a comma join is composition if and only if the first spec keeps the file's executability, or no X of the second would add a bit, or the first sets and the second keeps every bit it would add; all said of the starting mode and the mask pairs |
| `ChmodLaws.CommaComposesWithoutX` | src/client/client_cli.c:139-155 | without X in the second spec a comma join is composition |
| `ChmodLaws.OrderFreeExactly` | src/shared/chmod.c:153-161 | for every second half of a clause, the letters set all top bits they name if and only if u or g is named, or s and t do not both occur, or a t follows the last s |
| `ChmodLaws.StickyIsLost` | src/shared/chmod.c:153-161 | "+ts" sets set-uid only |
| `ChmodLaws.XReadsTheFirstMode` | src/shared/chmod.c:28-29 | "u+x,g+X" on 0644 gives 0744, one after the other 0754 |
| `Batch.Input.ReadExact` | src/shared/batch.c:74-93 | all bytes, a clean end before the first, or a failure, however reads are split and whenever one fails |
| `Batch.Input.ReadContainer` | src/shared/batch.c:114-164 | under any splitting of reads, the parse of the whole file, or a failure if a read fails |
| `Batch.WriteContainer` | src/shared/batch.c:25-69 | under any splitting of writes exactly the container, refusing a record over the cap and keeping what precedes it; a failing write leaves a prefix of the container |
| `Batch.ReadsExactlyWritten` | src/shared/batch.c:114-164 | a byte string reads as some content if and only if it is the container written for it and every record is non-empty and within the cap |
| `Batch.PrefixesEndAtRecords` | src/shared/batch.c:133-157 | a prefix is accepted only at a record boundary and reads as the records before it |
| `CliExpand.ExpandShortClusters` | src/client/client_cli.c:2887-2956 | the arrays never exceed the computed capacity and hold the expansion and each token's origin |
| `CliExpand.ClusterExactly` | src/client/client_cli.c:2921-2943 | a cluster is one option per letter up to the first that takes a value; what follows, one '=' aside, is its value, and if nothing does the next argument is |
| `CliExpand.ExpandIdempotent` | src/client/client_cli.c:2887-2956 | expanding twice changes nothing |
| `CliExpand.ValuesAreVerbatim` | src/client/client_cli.c:2903-2911 | an option value, even with a leading dash, and a positional argument is one token of the expansion, unchanged and the only one that comes from it |
| `CliExpand.OriginsAreFaithful` | src/client/client_cli.c:2887-2956 | origins never decrease, every argument is represented, and a token outside clusters maps to itself |
| `Report.DedupKeepsNames` | src/client/client_report.c:692-706 | dropping adjacent duplicates of a sorted list keeps exactly its names, strictly ascending |
| `Report.DedupInPlace` | src/client/client_report.c:692-706 | the read and write indices over one array compute that list |
| `Report.Lookup` | src/client/client_report.c:305-323 | the binary search finds exactly the names present |
| `Report.Announcer.EmitAncestors` | src/client/client_report.c:505-540 | announces the known ancestors not yet announced, outermost first |
| `Report.EveryRunInOrder` | src/client/client_report.c:505-553 | over every run each directory is announced at most once, after the known directories above it and before every entry below it |
| `Report.AncestorsExactly` | src/client/client_report.c:510-517 | the ancestors are exactly the prefixes a slash follows |

## Left out

- Sockets, TLS, authentication, daemon limits, fork and signals: inputs of the model or finite flag checks.
- Send failures and allocation failures: every send succeeds except where a chunk's send is an input.
- Streams with a check request or early deletion are outside the pipeline's refinement: they act on the disk from the receive thread while the writer lags.
- Per-directory delete plans (`--delete-during`, `--delete-delay`): the model covers runs that did not negotiate them, where such a frame is refused.
- `--files-from`, `--relative` prefixes, the `--dirs` generator, hard-link tables, xattrs and device capture in the scanners: further branches without a harder property.
- `Scanner.DirectoryScanner.Next`: the stop deadline inside the scanner is not modelled; it is an input of the sender model, which covers a scan cut short.
- `Scanner.DirectoryScanner.OpenNext`: the record of synchronized directories, which only a --files-from scan keeps, and a per-directory filter file that does not parse.
- `FilterChain.PassesSelection`: the --files-from list.
- Stat calls: what lstat, readlink and stat say of an entry is an input, a link to a directory standing for the finite tree it leads to.
- `DeleteWalk.WalkAgrees`: the walk is a recursive function over a tree whose entries are listed in the walker's order, not the descriptor-based loop; unlink failures are not modelled.
- `Scanner.DirectoryScanner.ProcessEntry`: selection is an arbitrary function of the rules in force; the filter rules are one such function. The sinks are one tagged list.
- `Scanner.ScanAll`: a root typed with two or more trailing slashes, whose relative path the source computes as "/", so that failing to read it is an error like any other and not fatal.
- `Handshake.AppendRestores`: the signature is the source's first bytes themselves and stands for their 64-bit hash; that equal hashes mean equal bytes is not part of the model.
- `MissingArgs.DeleteMissing`: an unlink that fails inside a directory being emptied, and the count of skipped entries.
- `CliExpand.ExpandIdempotent`: "--" is taken not to be an option with a value, as in the option table.
- `Batch.Input.ReadContainer`: decoding and storing a record's chunk is not modelled, only the framing.
- Implied directory times, statistics printing, change lists, option tables, charset conversion.
