# Verified model of the E10 MPI-IO stack

A Dafny model of the parts of this MPI-IO library that move bytes between processes and a
shared file, with proofs that they do what direct reads and writes would do.

The core is the GPFS extended two-phase engine for collective I/O. Every process brings a
sorted list of (offset, length) accesses. The accessed range is cut into block-aligned
file domains, one per aggregator (`Domains`); each access is split along the domains
(`Requests`) and the pieces go to their owners. The aggregators then work in rounds of at
most `cb` bytes: consume the front of every process's list (`Windows`), exchange data
(`Packing`, `Unpacking`), look for holes in the window with a heap merge (`HeapMerge`,
`Holes`, `HoleVariants`), pre-read the window if there are any, and write it (`Writer`).
A background thread writes one half of the buffer while the other half is filled
(`WriteRun`, `WriteSystem`). Reads go the other way and keep part of a window in memory
for requests that overlap (`CarryOver`, `Reader`). `CollectiveWrite` and `BufferedWrite`
put the pieces of a write together, `CollectiveRead`, `ContiguousRead` and `ReadProgram`
those of a read. The specification throughout is "every process reads or writes
its own bytes": an access list is read as the sequence of file offsets it names
(`Extents.Flat`), a file is a total map from offsets to bytes, and a process's part at one
aggregator is its `Share` of the byte stream.

Four smaller cores stand beside it: the token protocol behind the rank-ordered shared
file pointer (`OrderedPointer`), the strided read of the GridFTP driver (`GridFtp`), the
cache queues and extent locks of the BeeGFS driver (`BeeGfs`), and the deferred close of
MPIWRAP (`DeferredClose`).

Check the project with `dafny verify dfyconfig.toml`.

## What turned out not to hold, and exactly when it does

- The contiguous-buffer shortcut (one `buf_idx` per rank, advanced by the bytes exchanged)
  is right for every write; a read is right for every file if and only if no access
  reaches past the domain in which a later access begins (`Shortcut.ShortcutIff`,
  `ContiguousRead.ContiguousReadIff`, `Shortcut.OverlapBreaksShortcut`).
- The pairwise hole check can report a hole that is none (`Holes.NestedFalseHole`). It is
  right about a window exactly if the window has a real gap or no request stops short of
  the next one (`Holes.PairwiseExactIff`); it never misses a hole, so the cost is an
  unneeded pre-read. Without common bytes it agrees with the coalescing check
  (`HoleVariants.HolesAgree`).
- If the background thread cannot be created its window is dropped silently
  (`DroppedWindow.FailedThreadDropsWindow`); all other windows are still right
  (`CollectiveWrite.CollectiveWriteExact`).
- Two ordered calls in a row can mix unless the collective transfer makes the processes
  wait for each other, which it does not when collective buffering is disabled
  (`OrderedPointer.OrderedIff`, `OrderedPointer.CallsMix`).
- The GridFTP extent check rejects a legal read of overlapping blocks exactly when every
  block taken ends below the number of bytes asked for (`GridFtp.ReadDiscontig`).
- A BeeGFS extent lock is never given back if the write fails, or if flushing is off
  (`BeeGfs.LocksReturnedIff`).
- A file opened before the first guard file and closed after it is never really closed
  (`DeferredClose.EarlyHandleIff`). A handle opened under a guard is closed exactly once if
  and only if the application never closes it while closes are not deferred, which it may
  do after a failed guard open (`DeferredClose.ClosedOnceIff`,
  `DeferredClose.FailedGuardClosesTwice`).

Where comments and code differ the model follows the code: the comment at
romio/adio/ad_gpfs/ad_gpfs_aggrs.c:265-277 puts the smaller domains first, the code puts
the larger ones first.

## Model

| member | source | states |
|---|---|---|
| `CollectiveWrite.CollectiveWriteIsDirect` | romio/adio/ad_gpfs/ad_gpfs_wrcoll.c:491-878 | after any run of all aggregators in which threads can be created, every byte of the file is as if each process had written its accesses directly, in rank order; a byte nobody asked for is unchanged although whole windows are read and written back |
| `CollectiveWrite.CollectiveWriteExact` | romio/adio/ad_gpfs/ad_gpfs_wrcoll.c:777-823 | the same without that condition: exactly the windows whose thread could not be created keep their old contents, all else is written |
| `CollectiveWrite.SoleWriter` | romio/adio/ad_gpfs/ad_gpfs_wrcoll.c:491-878 | a byte that one process alone asked for holds that process's data |
| `BufferedWrite.SendRounds` | romio/adio/ad_gpfs/ad_gpfs_wrcoll.c:1177-1280 | the sending side over all rounds: what a process packs from its user buffer for an aggregator in round k is exactly what that aggregator receives in its window k, and nothing once it is done |
| `BufferedWrite.SendRound` | romio/adio/ad_gpfs/ad_gpfs_wrcoll.c:1467-1496 | the same for one round, with sent_to_proc |
| `BufferedWrite.NextIsReceived` | romio/adio/ad_gpfs/ad_gpfs_wrcoll.c:706-717 | the next bytes of a process's share, as many as the aggregator asks for, are those of its requests in the window |
| `BufferedWrite.UserByteWritten` | romio/adio/ad_gpfs/ad_gpfs_wrcoll.c:491-878 | the write from user buffers: a byte that one process alone accesses, as its k-th, ends up with data byte k of its buffer |
| `DroppedWindow.FailedThreadDropsWindow` | romio/adio/ad_gpfs/ad_gpfs_wrcoll.c:805-807 | a run with a failed thread creation after which a written byte is missing from the file, whatever the byte and the file |
| `CollectiveWrite.GoalIsDirect` | romio/adio/ad_gpfs/ad_gpfs_aggrs.c:547-600 | at the bytes an aggregator owns, writing the shares it was sent equals writing all processes' accesses |
| `CollectiveWrite.HeldExactlyOnce` | romio/adio/ad_gpfs/ad_gpfs_aggrs.c:685-832 | after the transpose each requested byte of each process is held by the aggregator of its domain, as often as the process asked for it, and by no other |
| `CollectiveWrite.RequestedAt` | romio/adio/ad_gpfs/ad_gpfs_aggrs.c:685-832 | a byte is requested at an aggregator if and only if it is requested at all and that aggregator owns it |
| `CollectiveWrite.SpanOwned` | romio/adio/ad_gpfs/ad_gpfs_wrcoll.c:547-560 | the span from an aggregator's first to its last requested byte lies in its own domain, so windows of different aggregators never meet |
| `CollectiveRead.ReadIsDirect` | romio/adio/ad_gpfs/ad_gpfs_rdcoll.c:414-750 | for any messages that, over any number of rounds, add up to what the aggregators have to send, and any unpacking of them round by round: the user buffer ends up with the file's bytes at the accesses, in order, even where they overlap, and nothing else in it changes |
| `CollectiveRead.CollectiveReadIsDirect` | romio/adio/ad_gpfs/ad_gpfs_rdcoll.c:414-750 | the same from the aggregators' side: each sends in as many rounds as it needs, and those that are done send nothing while the others finish |
| `ReadProgram.ReadStridedColl` | romio/adio/ad_gpfs/ad_gpfs_rdcoll.c:91-411 | the collective read as one program, from access lists to user buffers: split, transpose, every aggregator's windowed reads, every process's unpacking; afterwards each process has its file bytes in its buffer, in order, and the rest of the buffer is unchanged |
| `ReadProgram.SplitAccesses` | romio/adio/ad_gpfs/ad_gpfs_aggrs.c:454-624 | my_req of every process, by the two-pass split |
| `ReadProgram.Transpose` | romio/adio/ad_gpfs/ad_gpfs_aggrs.c:685-832 | others_req of a rank: what every process asks of it |
| `ReadProgram.AggregateAll` | romio/adio/ad_gpfs/ad_gpfs_rdcoll.c:414-750 | every aggregator sends each process the file bytes of the process's pieces in its domain |
| `ReadProgram.Route` | romio/adio/ad_gpfs/ad_gpfs_rdcoll.c:1132-1137 | what a process gets in a round: from each aggregator its portion, from others nothing |
| `ReadProgram.UnpackRounds` | romio/adio/ad_gpfs/ad_gpfs_rdcoll.c:1143-1162 | a process that unpacks every round's messages has its file bytes in its buffer |
| `CollectiveRead.ArriveJoined` | romio/adio/ad_gpfs/ad_gpfs_rdcoll.c:1070-1137 | nothing is lost or added between aggregators and process, also when some aggregators finish earlier |
| `CollectiveRead.SentIsShare` | romio/adio/ad_gpfs/ad_gpfs_rdcoll.c:414-750 | what one aggregator sends a process over all rounds is that process's share of its file bytes |
| `CollectiveRead.ReadRequestsSorted` | romio/adio/ad_gpfs/ad_gpfs_rdcoll.c:544-552 | the pieces an aggregator gets for a read are sorted and non-empty even if the accesses overlap: what the carry-over scan relies on |
| `CollectiveRead.DeliveredRestores` | romio/adio/ad_gpfs/ad_gpfs_rdcoll.c:1150-1162 | if over the rounds each aggregator delivers its share, in whatever portions, the buffer ends up holding the data |
| `ContiguousRead.ReceiveContig` | romio/adio/ad_gpfs/ad_gpfs_rdcoll.c:1153-1162 | one round into a contiguous buffer: every place holds what the last message over it put there, every buf_idx has moved on by its message |
| `ContiguousRead.ContiguousReadIff` | romio/adio/ad_gpfs/ad_gpfs_rdcoll.c:1153-1162 | for every file, portioning and earlier contents the contiguous read leaves the file's bytes at the accesses if and only if no access reaches past the domain in which a later access begins |
| `ContiguousRead.ContigReadIsDirect` | romio/adio/ad_gpfs/ad_gpfs_rdcoll.c:1153-1162 | under that condition, over all rounds, the buffer equals the direct read |
| `ContiguousRead.ReturnUncovers` | romio/adio/ad_gpfs/ad_gpfs_rdcoll.c:1153-1162 | without it some place of the buffer is covered by no message |
| `ContiguousRead.ContigInside` | romio/adio/ad_gpfs/ad_gpfs_rdcoll.c:1153-1162 | with or without it no message goes outside the buffer |
| `RunCover.Uncovered` | romio/adio/ad_gpfs/ad_gpfs_aggrs.c:482-489 | if a domain is left and returned to along the stream, the runs that start at the domains' first bytes overlap and leave a position uncovered |
| `Domains.CalcFileDomains` | romio/adio/ad_gpfs/ad_gpfs_aggrs.c:189-444 | for every non-empty range, block size, aggregator count and distribution the domains are consecutive, cover exactly [min, max] and start on block boundaries from the second on, also with fewer blocks than aggregators; no two differ by more than one block; in the plain distribution the first n % naggs get n / naggs + 1 blocks, which fixes every start; in the balanced one the larger ones are dealt breadth-first over the bridges; the block size is the hint if positive, else 1048576 |
| `Domains.CutRange` | romio/adio/ad_gpfs/ad_gpfs_aggrs.c:236-434 | the same for one range and block size: partition, alignment, and how many blocks each domain covers |
| `Domains.Bounds` | romio/adio/ad_gpfs/ad_gpfs_aggrs.c:222-228 | the least start and the greatest end over all processes |
| `Domains.CalcSizes` | romio/adio/ad_gpfs/ad_gpfs_aggrs.c:236-426 | sizes come from a deal of the range's blocks, even and in the order of its distribution, trimmed at both ends |
| `Domains.PlainSizes` | romio/adio/ad_gpfs/ad_gpfs_aggrs.c:389-395 | the first `large` domains get one block more, and the blocks are given out exactly |
| `Domains.LayOut` | romio/adio/ad_gpfs/ad_gpfs_aggrs.c:428-434 | starts and ends are the running sums of the sizes |
| `Domains.PlanIsPartition` | romio/adio/ad_gpfs/ad_gpfs_aggrs.c:425-434 | any block plan, trimmed and laid out, is an aligned partition of the range |
| `Domains.PlanBlocks` | romio/adio/ad_gpfs/ad_gpfs_aggrs.c:425-434 | the domains laid out from a deal cover just the blocks dealt, so each start is fixed by it |
| `Domains.SizesTile` | romio/adio/ad_gpfs/ad_gpfs_aggrs.c:425-434 | the sizes add up to max - min + 1, counting a negative last size |
| `Domains.OwnerUnique` | romio/adio/ad_gpfs/ad_gpfs_aggrs.c:428-434 | each byte of the range lies in exactly one domain |
| `Domains.BlockNotShared` | romio/adio/ad_gpfs/ad_gpfs_aggrs.c:181-183 | no file-system block is owned by two aggregators |
| `Domains.BridgeListOffsets` | romio/adio/ad_gpfs/ad_gpfs_aggrs.c:316-322 | offset of each bridge's first aggregator |
| `Domains.FindBridge` | romio/adio/ad_gpfs/ad_gpfs_aggrs.c:334-361 | the cyclic search stops at the next bridge with an aggregator left, and the source's one-pass assertion never fails |
| `Domains.Enlarge` | romio/adio/ad_gpfs/ad_gpfs_aggrs.c:344-350 | makes one aggregator large that was small, within bounds |
| `Domains.DealOne` | romio/adio/ad_gpfs/ad_gpfs_aggrs.c:333-362 | one more large block goes to the next bridge in turn that has room; bridges have had the same number of turns, or one more before the place the search goes on from |
| `Domains.BridgeSizes` | romio/adio/ad_gpfs/ad_gpfs_aggrs.c:299-364 | the round robin enlarges exactly naggs_large distinct entries, conserves the number of blocks and is breadth-first: no bridge with a small domain left is two large ones behind another, or one behind a later bridge, and within a bridge the large ones come first |
| `Requests.CalcAggregator` | romio/adio/ad_gpfs/ad_gpfs_aggrs.c:97-173 | the bisection that keeps the probed index terminates on any such domain list, returns the unique owner and trims the length to what lies in its domain |
| `Requests.CountPass` | romio/adio/ad_gpfs/ad_gpfs_aggrs.c:494-526 | the first pass counts, per rank, the pieces of the split |
| `Requests.CountAccess` | romio/adio/ad_gpfs/ad_gpfs_aggrs.c:497-525 | the same for one access |
| `Requests.StoreAccess` | romio/adio/ad_gpfs/ad_gpfs_aggrs.c:552-601 | the second pass stores the pieces of one access within the allocated room and keeps buf_idx |
| `Requests.StoreAt` | romio/adio/ad_gpfs/ad_gpfs_aggrs.c:592-598 | a stored piece fits: the first pass left room for it |
| `Requests.Allocate` | romio/adio/ad_gpfs/ad_gpfs_aggrs.c:535-545 | one array per rank, of exactly the counted size |
| `Requests.CalcMyReq` | romio/adio/ad_gpfs/ad_gpfs_aggrs.c:454-624 | the fill pass stores for each rank exactly the pieces the counting pass allocated, in order; buf_idx is the stream position of a rank's first piece |
| `Requests.SplitAllTiles` | romio/adio/ad_gpfs/ad_gpfs_aggrs.c:547-601 | the pieces in order tile the accesses: no gap, no overlap, nothing reordered |
| `Requests.SplitInside` | romio/adio/ad_gpfs/ad_gpfs_aggrs.c:556-600 | every piece is non-empty and lies inside its access and its owner's domain |
| `Requests.SplitAllIsClip` | romio/adio/ad_gpfs/ad_gpfs_aggrs.c:547-601 | a domain's pieces are the accesses clipped to the domain |
| `Requests.SplitAllShare` | romio/adio/ad_gpfs/ad_gpfs_aggrs.c:547-601 | a domain's pieces name exactly the bytes of the stream the domain owns, in stream order |
| `Requests.MineIsIn` | romio/adio/ad_gpfs/ad_gpfs_aggrs.c:566-578 | with distinct aggregator ranks a rank's requests are those of its domain |
| `Shares.PutShare` | romio/adio/ad_gpfs/ad_gpfs_wrcoll.c:1177-1280 | writing only a domain's share has the full effect on that domain's bytes |
| `Shares.ShareIndex` | romio/adio/ad_gpfs/ad_gpfs_wrcoll.c:1229-1279 | a stream position is entry number (owned positions before it) of its owner's share |
| `Shares.MonotoneIsSlice` | romio/adio/ad_gpfs/ad_gpfs_aggrs.c:482-489 | if owners never go back along the stream, each share is one slice starting at its first byte |
| `Shortcut.ShortcutIff` | romio/adio/ad_gpfs/ad_gpfs_aggrs.c:482-489 | advancing buf_idx addresses the right bytes for every aggregator if and only if no access reaches past the domain in which a later access begins |
| `Shortcut.OrderedNoReturn` | romio/adio/ad_gpfs/ad_gpfs_wrcoll.c:665-668 | sorted accesses without overlap satisfy that condition |
| `Shortcut.OverlapBreaksShortcut` | romio/adio/ad_gpfs/ad_gpfs_rdcoll.c:1153-1162 | overlapping read accesses that break it |
| `Shortcut.BufIdxIsFirst` | romio/adio/ad_gpfs/ad_gpfs_aggrs.c:559-563 | buf_idx of a rank is the stream position of its first byte, -1 if it has none |
| `Shortcut.ContiguousSend` | romio/adio/ad_gpfs/ad_gpfs_wrcoll.c:1467-1475 | for writes, the bytes taken at buf_idx in any round are the next bytes of the rank's share |
| `Windows.Peer.TakeOne` | romio/adio/ad_gpfs/ad_gpfs_wrcoll.c:689-738 | one request: taken whole, taken up to the window's end with the rest kept as partial_recv, or left |
| `Windows.Peer.Consume` | romio/adio/ad_gpfs/ad_gpfs_wrcoll.c:686-741 | the pieces taken in a round are the process's list clipped to the window, each placed at file offset minus window start; the overlap error does not fire |
| `Rounds.CoversStep` | romio/adio/ad_gpfs/ad_gpfs_wrcoll.c:684-684 | each window is non-empty, at most cb bytes, and starts where the last one ended |
| `Rounds.CoversAll` | romio/adio/ad_gpfs/ad_gpfs_wrcoll.c:564-568 | the ceiling-division number of windows covers the span exactly |
| `Rounds.WindowTarget` | romio/adio/ad_gpfs/ad_gpfs_wrcoll.c:1555-1582 | inside a window, writing what was received in its round is writing all requests |
| `WriteSystem.RoundsTakeAll` | romio/adio/ad_gpfs/ad_gpfs_wrcoll.c:661-741 | over the rounds every requested byte of a process is received exactly once, in order |
| `HeapMerge.SiftDown` | romio/adio/ad_gpfs/ad_gpfs_wrcoll.c:1317-1347 | the loop terminates and restores the heap below its start, only exchanging entries |
| `HeapMerge.FillHeap` | romio/adio/ad_gpfs/ad_gpfs_wrcoll.c:1299-1306 | one heap entry per process that sends anything |
| `HeapMerge.BuildHeap` | romio/adio/ad_gpfs/ad_gpfs_wrcoll.c:1311-1348 | the array becomes a heap of the same lists |
| `HeapMerge.PopRoot` | romio/adio/ad_gpfs/ad_gpfs_wrcoll.c:1350-1399 | takes the least head and leaves a heap of the rest, never reading past a list |
| `HeapMerge.Merge` | romio/adio/ad_gpfs/ad_gpfs_wrcoll.c:1284-1402 | the output is nondecreasing in offset and, as a multiset of pairs, all the inputs |
| `Holes.CoalesceHole` | romio/adio/ad_gpfs/ad_gpfs_wrcoll.c:972-986 | reports a hole exactly when the window is not fully covered |
| `Holes.PairwiseHole` | romio/adio/ad_gpfs/ad_gpfs_wrcoll.c:1519-1531 | never misses a hole; reports one exactly if the front is open, the last request stops short, or a request stops before the next one starts; exact whenever the merged requests also end in order |
| `Holes.PairwiseExactIff` | romio/adio/ad_gpfs/ad_gpfs_wrcoll.c:1519-1531 | the pairwise check is right about a window if and only if its front is open, or nothing up to some request reaches the next one, or no request stops short of the next one |
| `Holes.CoveredIff` | romio/adio/ad_gpfs/ad_gpfs_wrcoll.c:972-986 | a window is covered exactly if its front is, and up to every request something reaches the next one or the window's end |
| `Holes.DisjointEndsSorted` | romio/adio/ad_gpfs/ad_gpfs_wrcoll.c:1519-1531 | requests that share no byte do end in order |
| `Holes.NestedFalseHole` | romio/adio/ad_gpfs/ad_gpfs_wrcoll.c:1527-1531 | nested requests of different processes that cover the window and for which a hole is reported (an unneeded pre-read) |
| `Holes.NestedRightReport` | romio/adio/ad_gpfs/ad_gpfs_wrcoll.c:1527-1531 | nested requests that end out of order and are judged rightly all the same |
| `HoleVariants.HolesAgree` | romio/adio/ad_gpfs/ad_gpfs_wrcoll.c:930-986 | when different processes ask for different bytes the two checks agree, although one sees last lengths cut off at the window's end and the other does not; both then report exactly whether some byte of the window is not requested |
| `DisjointLists.MergedEndsSorted` | romio/adio/ad_gpfs/ad_gpfs_wrcoll.c:1510-1531 | merging lists without common bytes gives a list that ends in order |
| `Writer.FindSpan` | romio/adio/ad_gpfs/ad_gpfs_wrcoll.c:547-560 | first and last requested byte, both requested themselves; -1 and -1 exactly when there is none |
| `Writer.ConsumeAll` | romio/adio/ad_gpfs/ad_gpfs_wrcoll.c:682-741 | the window step for every process |
| `Writer.Collect` | romio/adio/ad_gpfs/ad_gpfs_wrcoll.c:1506-1513 | the lists handed to the merge touch, inside the window, just what was requested |
| `Writer.FindHole` | romio/adio/ad_gpfs/ad_gpfs_wrcoll.c:1506-1531 | no hole reported means every byte of the window was requested; if the processes' pieces have no byte in common, a hole is reported exactly when some byte was not requested |
| `Writer.ScatterOne` | romio/adio/ad_gpfs/ad_gpfs_wrcoll.c:1566-1573 | the pieces of one process overlay the window at their offsets |
| `Writer.ScatterAll` | romio/adio/ad_gpfs/ad_gpfs_wrcoll.c:1555-1582 | after the scatter each byte of the window is its old value overwritten by all processes, in rank order; outside it nothing changed |
| `Writer.FillWindow` | romio/adio/ad_gpfs/ad_gpfs_wrcoll.c:1405-1588 | the filled window holds, byte for byte, what the file must hold there, with or without the pre-read; it is to be written exactly if anything was requested in it |
| `Writer.NextSlices` | romio/adio/ad_gpfs/ad_gpfs_wrcoll.c:1440-1496 | what each process sends in a round is the slice of its stream that falls into the window |
| `Writer.Round` | romio/adio/ad_gpfs/ad_gpfs_wrcoll.c:661-817 | one round carries 'all requested bytes below here are in place, the rest untouched' on by one window; it writes the window exactly if anything was requested in it |
| `Writer.RunRounds` | romio/adio/ad_gpfs/ad_gpfs_wrcoll.c:661-817 | the loop over all windows; one write for each window in which anything was requested, in order |
| `Writer.ExchAndWrite` | romio/adio/ad_gpfs/ad_gpfs_wrcoll.c:491-878 | one aggregator's whole run: the file equals the direct writes of all processes in rank order; the writes made are one for each window of cb bytes, from the first to the last requested byte, in which anything was requested; every curr_offlen_ptr is at its count and no partial length remains |
| `WriteRun.AggStepOk` | romio/adio/ad_gpfs/ad_gpfs_wrcoll.c:661-823 | every step of one aggregator or its thread keeps the invariant: earlier windows written, later ones untouched, the in-flight half intact |
| `WriteRun.ScatterOk` | romio/adio/ad_gpfs/ad_gpfs_wrcoll.c:1538-1582 | filling a window, pre-read or not, gives its half the right contents and leaves the in-flight half alone |
| `WriteRun.LaunchOk` | romio/adio/ad_gpfs/ad_gpfs_wrcoll.c:788-807 | handing the filled half to a thread and swapping halves keeps it; so does a failed thread creation, with the window recorded as lost |
| `WriteRun.WriteByteOk` | romio/adio/ad_gpfs/ad_gpfs_wrcoll.c:796-806 | a thread's next byte is the right one |
| `WriteSystem.WriterSafe` | romio/adio/ad_gpfs/ad_gpfs_wrcoll.c:777-823 | in every state of every interleaving: at most one write in flight per aggregator, its half is not the one being filled, the current window is not the one being written, all earlier windows are complete, later ones untouched |
| `WriteSystem.WindowsWritten` | romio/adio/ad_gpfs/ad_gpfs_wrcoll.c:818-823 | an aggregator gets to its trailing exchanges only with all its windows written (or lost) |
| `WriteSystem.RunsEnd` | romio/adio/ad_gpfs/ad_gpfs_wrcoll.c:661-823 | every run is finite: each step uses up work |
| `WriteSystem.SystemNotStuck` | romio/adio/ad_gpfs/ad_gpfs_wrcoll.c:661-823 | no state is stuck before all aggregators are done, even if in every round each waits for all others to get to it |
| `FlatTypes.BufferCursor.Incr` | romio/adio/ad_gpfs/ad_gpfs_wrcoll.c:1129-1147 | moving the cursor by n is moving n data bytes on, over empty blocks and into the next repetition |
| `FlatTypes.BufferCursor.CopyOut` | romio/adio/ad_gpfs/ad_gpfs_wrcoll.c:1150-1175 | copies the next n data bytes of the user buffer, in data order |
| `FlatTypes.BufferCursor.CopyIn` | romio/adio/ad_gpfs/ad_gpfs_rdcoll.c:907-932 | writes n bytes to the places of the next n data bytes and nowhere else |
| `FlatTypes.AddrAt` | romio/adio/ad_gpfs/ad_gpfs_wrcoll.c:1141-1143 | where byte w of block j of repetition n lies |
| `Packing.PackPiece` | romio/adio/ad_gpfs/ad_gpfs_wrcoll.c:1237-1273 | of one piece, just the bytes with share index in [done, done + send_size) are copied; the counters stay exact |
| `Packing.PackAccess` | romio/adio/ad_gpfs/ad_gpfs_wrcoll.c:1218-1276 | all pieces of one access |
| `Packing.FillSendBuffer` | romio/adio/ad_gpfs/ad_gpfs_wrcoll.c:1177-1280 | although every round walks all accesses again, send_buf[p] gets exactly bytes [sent, sent + size) of p's share, and sent_to_proc moves on by size |
| `Unpacking.UnpackPiece` | romio/adio/ad_gpfs/ad_gpfs_rdcoll.c:1002-1034 | of one piece, just the bytes that arrived in this round are stored; the counters stay exact |
| `Unpacking.UnpackAccess` | romio/adio/ad_gpfs/ad_gpfs_rdcoll.c:983-1036 | all pieces of one access |
| `Unpacking.FillUserBuffer` | romio/adio/ad_gpfs/ad_gpfs_rdcoll.c:934-1043 | exactly the stream positions whose share index lies in this round's slice get their byte; every other place of the buffer keeps its contents |
| `RoundTrip.RestoredStep` | romio/adio/ad_gpfs/ad_gpfs_rdcoll.c:934-1043 | unpacking what packing took out restores the bytes moved in the round |
| `RoundTrip.PackUnpackRestores` | romio/adio/ad_gpfs/ad_gpfs_wrcoll.c:1129-1280 | pack then unpack restores the user data for any sequence of round sizes that moves everything |
| `RoundTrip.ExchangeRound` | romio/adio/ad_gpfs/ad_gpfs_rdcoll.c:886-1043 | one packed and unpacked round, as calls of the two walks |
| `CarryOver.Asker.TakeOne` | romio/adio/ad_gpfs/ad_gpfs_rdcoll.c:592-636 | one request of a read: sent whole, sent up to the window's end, or left; reports how many bytes to keep for later requests |
| `CarryOver.Asker.ScanWindow` | romio/adio/ad_gpfs/ad_gpfs_rdcoll.c:590-638 | the pieces sent continue the process's stream and lie inside the buffer; no pending request starts before the bytes kept; the carry is at most the window held, and no larger than the first waiting request needs |
| `CarryOver.KeepEnough` | romio/adio/ad_gpfs/ad_gpfs_rdcoll.c:619-633 | keeping from the next request on is enough for all later ones |
| `Reader.ScanAll` | romio/adio/ad_gpfs/ad_gpfs_rdcoll.c:583-638 | one carry covers all processes and is the least that does, and a carry forces the next window to be read |
| `Reader.PackSend` | romio/adio/ad_gpfs/ad_gpfs_rdcoll.c:1094-1113 | the bytes sent are the file's bytes at the pieces |
| `Reader.ReadWindow` | romio/adio/ad_gpfs/ad_gpfs_rdcoll.c:647-653 | after the read the buffer is the file's window from real_off on, including the bytes kept |
| `Reader.KeepTail` | romio/adio/ad_gpfs/ad_gpfs_rdcoll.c:694-704 | the tail of the window moves to the front of a buffer with room for the next window |
| `Reader.ReadRound` | romio/adio/ad_gpfs/ad_gpfs_rdcoll.c:578-707 | one round keeps: bytes kept mirror the file and are no more than needed, nothing pending starts before them, streams sent are the file's bytes |
| `Reader.ReadAndExch` | romio/adio/ad_gpfs/ad_gpfs_rdcoll.c:414-750 | after the last round every process was sent the file bytes of its requests, in order, even where they overlap, and all cursors are at the end; the rounds are as many as windows of cb bytes from the first to the last requested byte |
| `OrderedPointer.OrderedRuns` | romio/mpi-io/write_ord.c:82-114 | in every interleaving of separated calls rank r gets start plus all earlier calls' and lower ranks' increments, and at most one token exists |
| `OrderedPointer.NotStuck` | romio/mpi-io/read_ord.c:79-99 | no reachable unfinished state is stuck, with any number of calls, whether or not the transfer synchronises |
| `OrderedPointer.RunAccounted` | romio/mpi-io/write_ord.c:88-102 | tokens are neither lost nor made: those on their way to a rank are what the rank below sent and it has not received |
| `OrderedPointer.PlaceNext` | romio/mpi-io/write_ord.c:82-99 | regions follow each other without gap in rank order, call after call |
| `OrderedPointer.RegionsApart` | romio/mpi-io/read_ord.c:79-95 | regions do not overlap |
| `OrderedPointer.OrderedIff` | romio/mpi-io/write_ord.c:82-114 | places are right in every interleaving if and only if the transfer synchronises, or there is one process, or one call |
| `OrderedPointer.CallsMix` | romio/mpi-io/write_ord.c:86-114 | otherwise two calls in a row can mix: a run in which rank 1 is put after rank 0's second region |
| `OrderedPointer.StepTurn` | romio/mpi-io/write_ord.c:88-102 | every step keeps 'it is one rank's turn' and the turn moves in rank order |
| `GridFtp.ExtentWalk` | romio/adio/ad_gridftp/ad_gridftp_read.c:249-275 | terminates for any filetype with data; the extent is the greatest end of the blocks the read takes |
| `GridFtp.InsideExtent` | romio/adio/ad_gridftp/ad_gridftp_read.c:342-365 | every byte the second walk copies lies inside that extent |
| `GridFtp.ScatterWalk` | romio/adio/ad_gridftp/ad_gridftp_read.c:342-365 | terminates and fills the buffer with the data bytes in order |
| `GridFtp.ReadDiscontig` | romio/adio/ad_gridftp/ad_gridftp_read.c:249-366 | the buffer gets the first bytes of the filetype's data stream; the extent error is returned exactly when every block taken ends below the number of bytes asked for, and then the buffer is untouched |
| `GridFtp.ExtentSuffices` | romio/adio/ad_gridftp/ad_gridftp_read.c:276-285 | for blocks in order and apart the extent error never fires |
| `GridFtp.OverlapTooSmall` | romio/adio/ad_gridftp/ad_gridftp_read.c:276-285 | overlapping blocks for which it fires |
| `BeeGfs.SyncThread.Enqueue` | romio/adio/ad_beegfs/ad_beegfs_cache_sync.c:54-56 | a request goes to the end of the pending queue |
| `BeeGfs.SyncThread.Start` | romio/adio/ad_beegfs/ad_beegfs_cache_sync.c:119-138 | flushes the range at the front of the submitted queue |
| `BeeGfs.SyncThread.FlushPending` | romio/adio/ad_beegfs/ad_beegfs_cache_sync.c:61-73 | all pending requests are flushed in order and wait, the submitted queue is empty again |
| `BeeGfs.SyncThread.WaitAll` | romio/adio/ad_beegfs/ad_beegfs_cache_sync.c:78-114 | one flush_wait in every mode, then all waiting requests are unlocked in order (coherent mode) and gone |
| `BeeGfs.SyncThread.WriteContig` | romio/adio/ad_beegfs/ad_beegfs_write.c:40-101 | lock, partial writes, fp_sys_posn, queueing and flushing; on a failed pwrite it stops without queueing or unlocking |
| `BeeGfs.SyncThread.Flush` | romio/adio/ad_beegfs/ad_beegfs_flush.c:24-34 | flush and wait, or, where there is no queue, fsync of an open file |
| `BeeGfs.RunWrites` | romio/adio/ad_beegfs/ad_beegfs_write.c:53-75 | in every mode and every run the bytes written to the cache are, in order, all of the extent of each write that succeeds and what was written until then of each that fails |
| `BeeGfs.RunWritesLocked` | romio/adio/ad_beegfs/ad_beegfs_write.c:42-75 | in coherent mode data are written only inside the extent locked just before |
| `BeeGfs.FlushedWhen` | romio/adio/ad_beegfs/ad_beegfs_write.c:84-101 | with immediate flushing every successful write is flushed at once, otherwise just those before the last flush call |
| `BeeGfs.WaitsPerFlush` | romio/adio/ad_beegfs/ad_beegfs_flush.c:24-40 | each flush call waits exactly once if there are queues, and otherwise makes one fsync if the file is open; nothing else waits or syncs |
| `BeeGfs.FlushFinishes` | romio/adio/ad_beegfs/ad_beegfs_cache_sync.c:78-90 | a flush call ends only when every range flush so far is finished |
| `BeeGfs.RunPosn` | romio/adio/ad_beegfs/ad_beegfs_write.c:60-77 | fp_sys_posn is the end of the last write, or -1 if it failed |
| `BeeGfs.RunEndsClean` | romio/adio/ad_beegfs/ad_beegfs_cache_sync.c:61-114 | over any run of cached writes ending in a flush: all queues empty, each written extent flushed once in write order and every flush finished, each unlocked in order, never before its flush is finished |
| `BeeGfs.RunInOrder` | romio/adio/ad_beegfs/ad_beegfs_cache_sync.c:61-114 | at any time in a run: flushed then pending are the writes so far, unlocked then waiting are those flushed |
| `BeeGfs.LocksReturnedIff` | romio/adio/ad_beegfs/ad_beegfs_write.c:42-68 | every lock is given back if and only if no lock is taken, or nothing is written, or flushing is on and no write fails |
| `BeeGfs.FailedWriteKeepsLock` | romio/adio/ad_beegfs/ad_beegfs_write.c:60-68 | a failed write whose extent stays locked |
| `DeferredClose.Wrapper.CloseAll` | mpiwrap/mpiwrap.cpp:446-470 | all listed files are closed, first opened first |
| `DeferredClose.Wrapper.FileOpen` | mpiwrap/mpiwrap.cpp:419-532 | a guard open closes the listed files and starts a new list; other files join the list only if it is not empty; a failed open joins nothing |
| `DeferredClose.Wrapper.FileClose` | mpiwrap/mpiwrap.cpp:534-549 | passed on only while the list is empty |
| `DeferredClose.Wrapper.Finalize` | mpiwrap/mpiwrap.cpp:363-381 | closes what is still listed |
| `DeferredClose.ListIff` | mpiwrap/mpiwrap.cpp:441-522 | in every run the list is non-empty if and only if the last guard open succeeded, and it holds the latest handles in open order |
| `DeferredClose.SinceGuard` | mpiwrap/mpiwrap.cpp:499-549 | from the first guard open on, if opens succeed, the list is never empty between calls and the handles before it are closed, in open order |
| `DeferredClose.AllClosedInOrder` | mpiwrap/mpiwrap.cpp:363-381 | after Finalize the closes passed on are those made before the first guard open and then every handle from the guard's on, once each, in open order |
| `DeferredClose.ClosedAtNextGuard` | mpiwrap/mpiwrap.cpp:441-470 | a guard open closes just the handles opened since the last one |
| `DeferredClose.ListSinceGuard` | mpiwrap/mpiwrap.cpp:441-549 | while closes are deferred, in every run: the list is exactly the handles opened from the last guard open on, and nothing was really closed since |
| `DeferredClose.ClosesExactly` | mpiwrap/mpiwrap.cpp:363-549 | in every run, failed opens included, what is really closed, in order, is: at each guard open the handles opened since the last one if that succeeded, at each close by the application its handle unless closes are deferred, and at Finalize the rest |
| `DeferredClose.EarlyHandleIff` | mpiwrap/mpiwrap.cpp:534-549 | a handle opened before the first guard is really closed if and only if the application closes it before that guard is opened |
| `DeferredClose.EarlyHandleLeaks` | mpiwrap/mpiwrap.cpp:534-549 | a run in which such a handle is never closed |
| `DeferredClose.ClosedAsOften` | mpiwrap/mpiwrap.cpp:363-549 | in every run, failed opens included: a handle is really closed once if it was opened by a guard open or while closes were deferred, and once more for each close the application makes while they are not |
| `DeferredClose.ClosedOnceIff` | mpiwrap/mpiwrap.cpp:441-549 | a handle opened under a guard is really closed exactly once if and only if the application never closes it while closes are not deferred |
| `DeferredClose.UnlistedClosedIff` | mpiwrap/mpiwrap.cpp:534-549 | any other handle is really closed if and only if the application closes it while closes are not deferred |
| `DeferredClose.FailedGuardClosesTwice` | mpiwrap/mpiwrap.cpp:441-494 | a failed guard open after which a handle it closed is closed a second time |

## Left out

- Transport: message passing is a value handed over; the all-to-all exchanges are the transposition of the request lists and the handing over of each round's bytes, and a trailing exchange moves nothing at an aggregator that is done.
- Per-process counters of the exchange (send and receive counts, `sent_to_proc`, `buf_idx`) are sequences that the methods replace, not shared arrays.
- The heap merge and hole check are skipped when nothing was received; the source runs them and does not use the result.
- Received data are scattered in rank order, as in the all-to-all exchange; with individual receives the order among processes that write the same byte is open, so only bytes of one writer are settled there.
- Domains.CalcFileDomains: says nothing about the domains when no process accesses anything (least start above greatest end).
- WriteRun.ScatterOk: filling one half from received data is one step; pre-reads and thread writes go byte by byte.
- ReadProgram.ReadStridedColl: runs the aggregators one after the other and then the processes; the rounds are exchanged as values. Noncontiguous buffers only; the contiguous path is in `ContiguousRead`.
- CollectiveRead.ReadIsDirect: the messages and the unpacking steps enter as values; `ReadProgram.ReadStridedColl` makes the calls.
- CollectiveRead.CollectiveReadIsDirect: as for `CollectiveRead.ReadIsDirect`.
- OrderedPointer.NotStuck: sends are buffered, and fetching the shared pointer never fails (after a failure the source does not pass the token on).
- BeeGfs.SyncThread.WriteContig: explicit offsets only; with individual file pointers the lock is taken on an offset that is then replaced, and the pointer is advanced twice.
- Machine integer widths and the source's checks of them; offsets are unbounded.
- End of file, short reads, I/O errors other than the failing write of BeeGFS, and error codes.
- The flattening of datatypes, the calculation of access lists from them, the common (not GPFS) file domains, and the point-to-point aggregation variant.
- GPFS access hints, tuning from the environment, profiling and debugging output, hint processing, open and the driver tables.
- The MPI-IO entry points around these operations, non-blocking test and wait, external32 conversion, atomic mode.
- The configuration file and hint matching of MPIWRAP: whether a name is a guard name is given with each open.
