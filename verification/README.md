# Wuild: verified models of its scheduler, logs, protocol and arithmetic

Wuild distributes the compilation of a project over remote hosts. It carries a fork of ninja, whose scheduler feeds a
local and a remote command runner, and a framed socket protocol between hosts. This project models the parts of it
whose correctness is decided by the code alone, and proves what they are for:

- **The build.** `Pools`, `PlanSpec`, `PlanInvariant`, `PlanProgress`, `PlanTargets` and `PlanRestat` specify the build
  plan and prove its invariant; the classes in `Plan` and `Builder` do the same work in place, and `BuildTrace` counts
  the failures in a history. Two arbitrary runners drive the main loop. The exit that the program calls a bug is dead,
  every run is a legal history that starts nothing after the last failure allowed, each other exit has its exact
  condition, and a successful build has run everything it ever wanted or found it unnecessary.
- **The dependency scan.** `DirtySpec` defines dirty and ready by recursion; `DirtyScan` is the depth-first walk with its
  explicit stack, which agrees with the definition and finds cycles exactly.
- **The deps log.** `DepsLogFormat` and `DepsLogReplay` are the bytes and what they mean, `DepsLog` the object that writes,
  loads and recompacts them, `DepsLogRecovery` the exact limits of its promises.
- **The socket protocol.** `ByteStream`, `ByteBuffer`, `FrameCodec` and `SocketFrame` are scalars, buffers and frames;
  `FrameProtocol` specifies one end, `FrameHandler` is that end in place, and `FrameDelivery`, `FrameConnection` and
  `FrameRuns` prove delivery, conservation of acknowledgements and the window over all runs of two ends. `FrameCutOff`,
  `FrameRelief` and `FrameStalls` tell exactly when an end that waits for acknowledgements ever writes again, `FrameWindow`
  what the window has to do with the buffers, and `FrameService` what single writes send and reads refuse.
- **The calendar.** `Calendar` has the truncating and wrapping arithmetic between days and dates.
- **String algorithms.** `CanonicalPath`, `EditDistance`, `PostProcess`, `ShellQuoting` and `Win32Quoting`.

Methods are proved equal to specification functions on values (`View()`), and the theorems are about these functions.
Edges, nodes and pools are numbers; an ordered set of edge pointers is a set of numbers whose least element comes first.
A behaviour of the outside world (disk, clocks, runners, sockets) is a parameter, and every statement is about all of
its values.

Where a promise fails, the exact condition is proved:

- A path that ends with a NUL comes back from the deps log only if the NUL cannot be taken for padding, and a crash that
  leaves one to three bytes of a record's length leaves a file that must not be appended to although it is: the next load
  loses a short record written behind such a tail (`DepsLogRecovery`).
- Scalars of 64 bits: `src/Platform/ByteOrderStream_macro.h:29` defines a name for big-endian hosts that
  `src/Platform/ByteOrderStream.h:54` does not use, so such a host is compiled for big-endian bytes and words but
  little-endian dwords. `ByteStream.BigEndianHost` says what follows, `ByteStream.HostsAgreeExactlyWhen` which hosts
  understand each other.
- A frame of another type than the one before it may stay in the read buffer although it has arrived: everything that
  arrived is delivered exactly if its segments are of one type (`FrameRuns.PromptUnlessSwitched`).
- An end whose window is used up may wait for an acknowledgement that the other end cannot send, because the window is
  checked before an acknowledgement is considered (`src/Platform/SocketFrameHandler.cpp:443-455`).
  `FrameRelief.WritesAgainExactlyWhen` is the exact condition, for socket buffers of at least the recommended size, a
  minimum of at least four unacknowledged bytes (the program asks for more than five) and ends that have taken what
  arrived; `FrameStalls.CutOffExactlyWithoutRoom` reduces it to the room for one acknowledgement. `FrameStalls` has the
  ways into it: both ends fill the window, with an example under default settings; a minimum that is not below the
  window; a segment that is larger than the window; and an acknowledgement behind a frame of another type.
- The first window assumes a receive buffer of four kilobytes (`src/Platform/SocketFrameHandler.cpp:39`). What is in
  flight fits the receive buffer in every run exactly if that buffer has at least 3276 bytes
  (`FrameWindow.AlwaysFitsExactlyWhen`); with a smaller one, bytes sent before its size was known may exceed it.
- The remote runner is not offered a remote edge that a finishing edge let out of their common pool
  (`3rdparty/ninja/src/build.cc:450-456`); `PlanInvariant.RemoteRequestFinds` says that it is offered all others.
- The canonical form of the root is the empty path, which is refused (`CanonicalPath.RootIsEmpty`,
  `CanonicalPath.CanonicalTwice`).
- Post-processing with equal strings never ends once the string occurs (`PostProcess.EndsExactlyWhen`); the configuration
  checks the lengths only (`src/ConfiguredApplication/ConfiguredApplication.cpp:50-61`). An item may bring back the needle
  of an earlier one; `PostProcess.AllNeedlesGone` is a condition on the configuration under which none does.
- Empty strings do not survive quoting, nor do tabs on Windows without a space or quote beside them (`ShellQuoting`,
  `Win32Quoting`).

## Model

| member | source | states |
|---|---|---|
| Pools.RetrieveReadyConserves | 3rdparty/ninja/src/state.cc:42-53 | retrieval moves delayed edges to the ready ones without losing or duplicating any, takes one slot for each, never overfills the pool, and leaves edges delayed only if the pool is full |
| Pools.RetrieveReadyTakesLeast | 3rdparty/ninja/src/state.cc:42-53 | edges leave the waiting set in order: everything handed out comes before everything left |
| Pools.Pool.RetrieveReadyEdges | 3rdparty/ninja/src/state.cc:42-53 | the in-place loop adds to the queue exactly the edges that the specification hands out, and leaves the pool as it says |
| Pools.Pool.EdgeScheduled | 3rdparty/ninja/src/state.cc:27-30 | a slot is taken in a limited pool, and nothing changes in an unlimited one |
| Pools.Pool.EdgeFinished | 3rdparty/ninja/src/state.cc:32-35 | a slot is given back in a limited pool, and nothing changes in an unlimited one |
| PlanInvariant.ScheduleKeeps | 3rdparty/ninja/src/build.cc:419-446 | scheduling a wanted edge whose inputs are ready keeps the whole invariant: counters, both queues, pool accounting, the three facts about wants, and a legal history; the queue of the remote runner is exactly the ready remote edges that no finishing edge let out of their pool |
| PlanInvariant.ScheduleKeepsPlaces | 3rdparty/ninja/src/build.cc:419-446 | after scheduling, the scheduled edges are exactly the ready, running, failed and delayed ones, each in one place, and every limited pool counts exactly its ready and running edges |
| PlanInvariant.ScheduleOffersRemote | 3rdparty/ninja/src/build.cc:426-446 | scheduling offers the remote runner every remote edge that it makes ready and nothing else, and takes nothing away from either queue |
| PlanInvariant.RemoteRequestFinds | 3rdparty/ninja/src/build.cc:395-417 | in every state of a plan a request for the remote runner finds the first ready remote edge that was not let out of its pool by a finishing edge, and nothing exactly if there is none; the edges let out are the only ready remote ones the remote runner is not offered |
| PlanInvariant.LocalRequestFinds | 3rdparty/ninja/src/build.cc:395-417 | a request for the local runner finds the first ready edge, and nothing exactly if none is ready |
| PlanInvariant.FindWorkKeeps | 3rdparty/ninja/src/build.cc:395-417 | popping an edge for either runner takes a ready, scheduled edge, a remote one for the remote runner, and keeps the invariant |
| PlanInvariant.EdgeFailedKeeps | 3rdparty/ninja/src/build.cc:448-474 | a failed edge gives its slot back, lets delayed edges of its pool through, keeps its place in the plan, and keeps the invariant |
| PlanInvariant.RetireKeeps | 3rdparty/ninja/src/build.cc:448-474 | striking a finished edge off the plan keeps the invariant except for its dependents, which have yet to be looked at |
| PlanInvariant.LegalTraceExtends | 3rdparty/ninja/src/build.cc:395-512 | when one more start, completion or failure keeps the history legal: each edge starts and completes at most once, after everything that feeds it, and never after it failed |
| PlanProgress.EdgeSucceededKeeps | 3rdparty/ninja/src/build.cc:448-512 | finishing an edge with all the propagation through the mutually recursive functions keeps the invariant: whatever became ready was scheduled or passed over, and no other running edge is touched |
| PlanProgress.CheckOutEdgesKeeps | 3rdparty/ninja/src/build.cc:476-497 | looking at the out-edges of a finished node leaves none of them unexamined |
| PlanProgress.EdgeMaybeReadyKeeps | 3rdparty/ninja/src/build.cc:499-512 | an edge that became ready is scheduled, or passed over with propagation if it is not wanted itself; the invariant is kept |
| PlanProgress.IdlePoolsDelayNothing | 3rdparty/ninja/src/state.cc:42-53 | while no slot is taken, no edge waits for one |
| PlanProgress.NothingLeft | 3rdparty/ninja/src/build.cc:886-1009 | on an acyclic graph with nothing failed, ready or running, no edge is left in the plan |
| PlanProgress.NeverStuck | 3rdparty/ninja/src/build.cc:1000-1007 | a plan that still wants something, with nothing failed and nothing running, has something ready: the exit called a bug is dead |
| PlanProgress.NothingMoreToDo | 3rdparty/ninja/src/build.cc:886-1013 | when the loop ends, every non-phony edge ever wanted finished after it was started, or was un-wanted |
| PlanTargets.AddSubTargetKeeps | 3rdparty/ninja/src/build.cc:335-383 | adding a target to a plan over a scanned graph keeps the invariant, only adds to the plan, and leaves what makes the target ready or planned |
| PlanTargets.AddSubTargetPlans | 3rdparty/ninja/src/build.cc:335-383 | a plan wants only edges with a dirty output, and provides for the target and for all that its edges read: a source file is there, and what makes a file is done or planned, and wanted if the file is dirty |
| PlanTargets.EnlistKeeps | 3rdparty/ninja/src/build.cc:350-368 | entering one edge keeps the invariant, except that its inputs have yet to be entered |
| PlanTargets.MissingIsDirtySource | 3rdparty/ninja/src/build.cc:337-346 | the file reported missing is a dirty file that no edge makes |
| PlanTargets.BecomeWantedKeeps | 3rdparty/ninja/src/build.cc:385-393 | an edge that becomes wanted is counted once in each counter that concerns it |
| PlanRestat.CleanNodeKeeps | 3rdparty/ninja/src/build.cc:514-571 | cleaning a node keeps the invariant, makes clean only that node and outputs of edges it un-wants, un-wants only edges that have not been scheduled and whose regular inputs are clean and outputs up to date, and leaves no reader of a cleaned node wanted without need |
| PlanRestat.RestatKeeps | 3rdparty/ninja/src/build.cc:1094-1116 | restat of a finished command keeps the invariant and touches nothing scheduled; its untouched outputs are clean afterwards, whatever else became clean is an output of an edge un-wanted in the same step, nothing at all changes without untouched outputs, and only edges that need not run are un-wanted |
| PlanRestat.UnwantKeeps | 3rdparty/ninja/src/build.cc:548-558 | un-wanting an edge that has not been scheduled keeps the invariant |
| Plan.Plan.ScheduleWork | 3rdparty/ninja/src/build.cc:419-446 | does what the specification says to the plan and the pools in place |
| Plan.Plan.AddSubTarget | 3rdparty/ninja/src/build.cc:335-383 | the recursion over the inputs, in place, equals the specification, with the same missing file |
| Plan.Plan.FindWork | 3rdparty/ninja/src/build.cc:395-417 | the edge popped and the new plan are those of the specification |
| Plan.Plan.EdgeFinished | 3rdparty/ninja/src/build.cc:448-474 | success and failure both change the plan, the pools and the ready flags as specified |
| Plan.Plan.NodeFinished | 3rdparty/ninja/src/build.cc:476-497 | the loop over out-edges equals the specification |
| Plan.Plan.EdgeMaybeReady | 3rdparty/ninja/src/build.cc:499-512 | equals the specification |
| Plan.Plan.CleanNode | 3rdparty/ninja/src/build.cc:514-571 | marking a node clean and the recursion it starts equal the specification |
| Plan.Plan.NeedsNoRun | 3rdparty/ninja/src/build.cc:518-546 | answers exactly whether the edge is wanted, its dependencies are known, its regular inputs are clean and none of its outputs is out of date |
| Plan.Plan.Release | 3rdparty/ninja/src/build.cc:450-456 | a finishing edge gives its slot back if it was wanted, and the pool hands out what is free, as specified |
| Builder.ScanServesPlan | 3rdparty/ninja/src/graph.cc:71-175 | a finished scan leaves exactly what the plan relies on: visited edges are closed under what feeds them, and one that is not ready has an unready input or only dirty outputs |
| Builder.RescanKeeps | 3rdparty/ninja/src/build.cc:827-840 | scanning a further target keeps the plan made so far in order |
| Builder.RescanKeepsPlanned | 3rdparty/ninja/src/build.cc:827-840 | what was planned is still wanted for a dirty output and still provided for after a further target is scanned |
| Builder.CommandSucceededKeeps | 3rdparty/ninja/src/build.cc:1092-1145 | restat followed by finishing keeps the invariant and affects no other running edge; exactly the untouched outputs and outputs of edges it un-wants become clean, nothing without untouched outputs; it leaves un-wanted only edges whose dependencies are known, whose regular inputs are clean and whose outputs are up to date |
| Builder.Builder.AddTarget | 3rdparty/ninja/src/build.cc:827-840 | a target that is added or up to date has no reachable cycle, and what is planned is provided for and wanted for a dirty output; a failed scan names a cycle or something unreadable, a missing file is a dirty source; the builder stays ready for more targets |
| Builder.Builder.FinishCommand | 3rdparty/ninja/src/build.cc:1050-1145 | a command that comes back leaves the running edges, and a failed one joins the failed edges; outputs of a restat command with the time stamp the scan saw are clean afterwards, and nothing else becomes clean but outputs of edges un-wanted with them; nothing becomes clean if the command failed or has no restat |
| Builder.Builder.StartOne | 3rdparty/ninja/src/build.cc:888-909 | the first edge of the queue is started and handed to the one runner asked for, or finished at once if it is phony; nothing is found exactly if the queue is empty, and then nothing changed |
| Builder.Builder.Step | 3rdparty/ninja/src/build.cc:886-1010 | one turn of the loop under any behaviour of both runners: never stuck; success exactly with nothing left to do; given up for failures exactly with no failure left and nothing pending locally or reported remotely, for earlier errors exactly after a failure with nothing ready or running, interrupted exactly when a local command is pending, nothing can be started and no report comes; with no failures left nothing is started, and otherwise the first edge of the queue of the runner that is asked, the remote one first; each edge is with the runner it was started for |
| Builder.Builder.Build | 3rdparty/ninja/src/build.cc:846-1014 | over any number of turns and with every outcome: never stuck, history always legal, nothing started after the last failure that is allowed; given up for failures only after that many; on success every non-phony edge ever wanted was started and finished, or its dependencies are known, its regular inputs clean and its outputs up to date |
| BuildTrace.NoStartAfterLastFailure | 3rdparty/ninja/src/build.cc:888-1005 | in a history within its budget no start comes after as many failures as are allowed |
| BuildTrace.OneMoreEvent | 3rdparty/ninja/src/build.cc:888-1005 | a history stays within its budget with one more event, if that is no start or failures are left |
| BuildTrace.BudgetMeans | 3rdparty/ninja/src/build.cc:998-1005 | no failures are left exactly if as many commands failed as may, and some but not all are left exactly if some failed and fewer than may |
| DirtySpec.ScanAgrees | 3rdparty/ninja/src/graph.cc:38-175 | at every finished edge the flags of the scan are the recursive definition of dirty and ready, whatever the order of visits |
| DirtySpec.ScanFinds | 3rdparty/ninja/src/graph.cc:71-321 | the flags of the scan without the way they are computed: outputs of an edge are dirty if its dependencies are unknown, a regular input is dirty, or some output is missing, older than a regular input (unless restat recorded a time that is not), recorded before one, made by another command or never recorded (generators excepted), or, for a phony edge, if it has no inputs and an output is missing; and only then |
| DirtySpec.ScanFindsReady | 3rdparty/ninja/src/graph.cc:100-174 | an edge is ready exactly if all that makes its inputs is ready and its outputs are clean or it is phony without inputs; a source file is dirty exactly if it is missing |
| DirtySpec.OutOfDateExactlyWhen | 3rdparty/ninja/src/graph.cc:229-321 | an output is out of date exactly if it has one of five defects, or is a missing output of a phony edge without inputs |
| Plan.OutOfDateMeans | 3rdparty/ninja/src/build.cc:532-546 | the same for the judgement that restat takes over from the scan |
| DirtySpec.ScansAgree | 3rdparty/ninja/src/graph.cc:38-175 | two scans of one graph and one disk agree wherever both went, however the targets were split over calls |
| DirtySpec.OrderIsTopology | 3rdparty/ninja/src/graph.cc:38-175 | the order in which edges finish is a linear extension of the dependency order |
| DirtySpec.NoCycleFromKnown | 3rdparty/ninja/src/graph.cc:59-69 | after a successful visit no cycle is reachable from the node |
| DirtyScan.StackedEdgeIsCycle | 3rdparty/ninja/src/graph.cc:177-214 | meeting an edge on the stack closes a genuine cycle, also after the start is replaced, and it is reachable from the root of the walk |
| DirtyScan.EnterKeeps | 3rdparty/ninja/src/graph.cc:66-74 | pushing an edge keeps the invariant of the scan, in which an edge is marked as on the stack exactly if some stacked node is its output |
| DirtyScan.LeaveKeeps | 3rdparty/ninja/src/graph.cc:148-174 | popping an edge settles it and keeps the invariant |
| DirtyScan.ProgressStep | 3rdparty/ninja/src/graph.cc:119-146 | taking one input into account keeps the partial judgement: dirty so far, newest clean regular input, readiness of the inputs seen |
| DirtyScan.DependencyScan.RecomputeDirty | 3rdparty/ninja/src/graph.cc:38-175 | unless a file or dependency record cannot be read, the scan fails exactly if a cycle is reachable from the target, and what it reports is a cycle; on success everything known before is unchanged |
| DirtyScan.DependencyScan.VerifyDAG | 3rdparty/ninja/src/graph.cc:177-214 | succeeds exactly off the stack; otherwise the reported path is a cycle that begins with the node |
| DirtyScan.DependencyScan.Visit | 3rdparty/ninja/src/graph.cc:43-175 | a visit makes the node known, keeps the invariant and changes nothing known before, or names a genuine reason |
| DirtyScan.DependencyScan.RecomputeOutputsDirty | 3rdparty/ninja/src/graph.cc:216-230 | answers whether some output is out of date, which `DirtySpec.OutOfDateExactlyWhen` takes apart |
| DirtyScan.State.AllInputsReady | 3rdparty/ninja/src/graph.cc:332-341 | answers whether everything that makes an input has its outputs ready |
| DepsLogFormat.TimeRoundTrip | 3rdparty/ninja/src/deps_log.cc:118-128 | every signed 64-bit time stamp survives its split into two words |
| DepsLogFormat.RecordReadsBack | 3rdparty/ninja/src/deps_log.cc:190-246 | reading undoes writing one record at a time, whatever follows |
| DepsLogFormat.PathLayout | 3rdparty/ninja/src/deps_log.cc:372-398 | where the bytes of a path record are: size, path, NULs up to a multiple of four, and the complement of the id, in little-endian words |
| DepsLogFormat.DepsLayout | 3rdparty/ninja/src/deps_log.cc:105-131 | where the bytes of a deps record are: size with the top bit set, id, time stamp as its twos complement with the low word first, and the ids of the inputs |
| DepsLogFormat.CutRecordIsDamaged | 3rdparty/ninja/src/deps_log.cc:190-208 | a record that is cut short reads as damaged, or as the end of the file if fewer than four bytes of it are left |
| DepsLogFormat.StripUndoesPadding | 3rdparty/ninja/src/deps_log.cc:225-231 | taking up to three NULs off undoes the padding exactly for paths that do not end with a NUL that could be padding |
| DepsLogReplay.LoadReplays | 3rdparty/ninja/src/deps_log.cc:152-288 | loading a whole file gives exactly the memory that its records replay to, with the counts that decide on recompaction |
| DepsLogReplay.LoadPrefix | 3rdparty/ninja/src/deps_log.cc:184-275 | loading any prefix ends after exactly the whole records in it |
| DepsLogReplay.CrashRecovery | 3rdparty/ninja/src/deps_log.cc:184-275 | for every byte prefix after the header, loading ends with the memory of the longest prefix of whole records, and cuts the file back to that boundary when it cuts it |
| DepsLogReplay.AppendRecord | 3rdparty/ninja/src/deps_log.cc:100-143 | appending a fitting record to a well-formed file keeps it well-formed and replays to one more step |
| DepsLogReplay.CrashWhileAppending | 3rdparty/ninja/src/deps_log.cc:100-143 | a crash in the middle of what a session appended loses nothing older and brings back exactly the new records that are complete |
| DepsLogReplay.ReplaySound | 3rdparty/ninja/src/deps_log.cc:209-256 | every id in a deps record is defined by an earlier path record |
| DepsLogRecovery.PathComesBackExactlyWhenReadable | 3rdparty/ninja/src/deps_log.cc:214-246 | a path record reads back as the path that was written if and only if the path does not end with a NUL taken for padding |
| DepsLogRecovery.PathWithTrailingNul | 3rdparty/ninja/src/deps_log.cc:225-231 | a concrete path that does not come back |
| DepsLogRecovery.RecoveryLeavesLogExactlyWhen | 3rdparty/ninja/src/deps_log.cc:190-275 | after recovery the file is again a log that can be appended to if and only if the crash did not leave one to three bytes of a length, which are neither read nor cut off |
| DepsLogRecovery.RecordBehindTailIsLost | 3rdparty/ninja/src/deps_log.cc:190-208 | a record of less than 128 bytes appended behind such a tail is lost by the next load, which cuts the file back to the last complete record before the crash |
| DepsLog.DepsLog.RecordDeps | 3rdparty/ninja/src/deps_log.cc:66-143 | the index is updated for the output only; nothing is written if the log already says it; it fails exactly if a new path or the list is too long, leaving the index as it was; the file only grows |
| DepsLog.DepsLog.RecordId | 3rdparty/ninja/src/deps_log.cc:372-404 | a new path gets the next dense id, and file and memory agree; it fails without any change exactly if the record is too long |
| DepsLog.DepsLog.GetDeps | 3rdparty/ninja/src/deps_log.cc:290-296 | answers what the index says of a path |
| DepsLog.DepsLog.ReloadsToMemory | 3rdparty/ninja/src/deps_log.cc:152-288 | at every moment, loading the bytes of the file gives the paths, ids and dependencies in memory |
| DepsLog.DepsLog.Load | 3rdparty/ninja/src/deps_log.cc:152-288 | a file without the right header is dropped, and only such a file; otherwise memory, truncation and the wish to recompact are those of the specification, and the log can be used from then on exactly if the file that is left is a log |
| DepsLog.DepsLog.Recompact | 3rdparty/ninja/src/deps_log.cc:298-349 | every live output keeps its time and its inputs, dead ones vanish, only paths in use keep ids, and the new file is valid and has its header; it never fails |
| DepsLog.DepsLog.OpenForWrite | 3rdparty/ninja/src/deps_log.cc:48-59 | a session begins by recompacting the log if the load asked for it, and leaves it alone otherwise |
| DepsLog.RecordThenCrash | 3rdparty/ninja/src/deps_log.cc:66-143 | a crash while dependencies are recorded, followed by the next load: what is found is what was known before the call, or after it if all its bytes reached the disk, so a call happens as a whole or not at all |
| DepsLog.LoadedFile | 3rdparty/ninja/src/deps_log.cc:263-275 | a file that was cut back by a load loads to the same memory again |
| DepsLog.CompactedView | 3rdparty/ninja/src/deps_log.cc:315-333 | copying the live entries one after the other gives the old index restricted to live outputs |
| DepsLog.NewId | 3rdparty/ninja/src/deps_log.cc:372-404 | giving a new path the next id keeps ids dense and leaves the index as it was |
| ByteStream.WireRoundTrip | src/Platform/ByteOrderStream.h:307-370 | every scalar of 1, 2, 4 or 8 bytes survives writing and reading under every byte-order mask |
| ByteStream.WireOrder | src/Platform/ByteOrderStream.h:51-61 | mask 0 writes the least significant byte first, mask 7 the same bytes in the opposite order |
| ByteStream.FourByteWire | src/Platform/ByteOrderStream.h:307-370 | four bytes under mask 0 are the digits of the number to base 256 |
| ByteStream.HostWriteIsWire | src/Platform/ByteOrderStream.h:51-61 | a host compiled for its own byte order writes the form that the protocol mask alone determines |
| ByteStream.HostsUnderstandEachOther | src/Platform/ByteOrderStream.h:51-61 | hosts of any byte orders, each compiled for its own, read each other's scalars |
| ByteStream.WireFormExactlyWhenDeclaredRight | src/Platform/ByteOrderStream.h:51-61 | a host writes all scalars of a size in the protocol's form if and only if the order it was compiled for agrees with its own, modulo that size |
| ByteStream.HostsAgreeExactlyWhen | src/Platform/ByteOrderStream.h:51-61 | two hosts, each compiled for any order, read each other's scalars of a size if and only if both were compiled equally wrong, modulo that size |
| ByteStream.BigEndianHost | src/Platform/ByteOrderStream.h:54 | a big-endian host, which is compiled for little-endian dwords only, has scalars of up to four bytes right and those of eight wrong; two such hosts still understand each other |
| ByteBuffer.ByteOrderBuffer.SetSize | src/Platform/ByteOrderBuffer.h:73-85 | bytes are cut off or filled with zeros, and a position beyond the new end goes back to the beginning |
| ByteBuffer.ByteOrderBuffer.PosRead | src/Platform/ByteOrderBuffer.h:45-52 | tells whether so many bytes are left and remembers if not |
| ByteBuffer.ByteOrderBuffer.PosWrite | src/Platform/ByteOrderBuffer.h:54-61 | grows the buffer by exactly what is missing |
| ByteBuffer.ByteOrderBuffer.RemoveFromStart | src/Platform/ByteOrderBuffer.h:124-134 | drops bytes from the beginning, and the positions stay at their bytes |
| ByteBuffer.DataStream.ReadScalar | src/Platform/ByteOrderStream.h:95-113 | reads the scalar of the protocol's form and moves on, or sets the end flag and stays |
| ByteBuffer.DataStream.WriteScalar | src/Platform/ByteOrderStream.h:189-201 | writes the protocol's form at the write position |
| ByteBuffer.DataStream.ReadBlock | src/Platform/ByteOrderStream.h:164-174 | reads exactly so many bytes, or none and sets the end flag |
| ByteBuffer.DataStream.Gather | src/Platform/ByteOrderStream.h:307-338 | placing byte i at mask^i is the same permutation as taking byte mask^i for i |
| FrameCodec.EncodeReadsBack | src/Platform/ByteOrderStream.h:95-172 | decoding undoes encoding for scalars, strings and nested vectors or maps, whatever follows, and takes exactly the bytes written |
| FrameCodec.DecodeStable | src/Platform/ByteOrderStream.h:95-172 | more bytes do not change what was already decoded |
| FrameCodec.PrefixRunsOut | src/Platform/ByteOrderStream.h:95-172 | every proper prefix of what was written runs into the end |
| FrameCodec.FrameReadsBack | src/Platform/SocketFrame.cpp:33-77 | reading a frame undoes writing it and consumes exactly its bytes, whatever follows |
| FrameCodec.FrameLayout | src/Platform/SocketFrame.cpp:33-77 | the length of a frame counts the bytes after it, and is followed by the time of creation and the two identifiers, each if the type has it |
| FrameCodec.CutFrameWaits | src/Platform/SocketFrame.cpp:33-52 | while a byte of a frame is missing the read is incomplete |
| SocketFrame.FrameStream.ReadFrame | src/Platform/SocketFrame.cpp:33-52 | the frame is there exactly if the state is good and the end was not met, and then the values and the position are those of the specification |
| SocketFrame.FrameStream.WriteFrame | src/Platform/SocketFrame.cpp:54-77 | writing zero for the length, the fields, and then the length over the zero gives the specified bytes at the write position |
| FrameDelivery.SplitAllCarries | src/Platform/SocketFrameHandler.cpp:513-534 | cutting frames into segments loses nothing, keeps the order, and makes only segments that the receiver accepts |
| FrameDelivery.WholeMessage | src/Platform/SocketFrameHandler.cpp:323-409 | a message at the front of the read buffer is taken and has its effect, or left if it is a segment of another kind than the pending frames |
| FrameDelivery.CutMessage | src/Platform/SocketFrameHandler.cpp:323-409 | a message that is not all there is left in place, and the room made for a segment is given back |
| FrameDelivery.TakeMessages | src/Platform/SocketFrameHandler.cpp:275-287 | however the stream was cut into reads, messages are taken one by one, in order, until the next one is cut or of another kind |
| FrameDelivery.FramesTaken | src/Platform/SocketFrameHandler.cpp:291-306 | every whole frame in the frame data is delivered, in order, and what is left is a part of the next one |
| FrameDelivery.ReadKeepsLink | src/Platform/SocketFrameHandler.cpp:252-321 | a read keeps the direction: delivered and expected frames make up the queued ones, expected frames are exactly the bytes in the frame data, on the wire, in segments and queued; nothing broken is ever met |
| FrameDelivery.WriteKeepsLink | src/Platform/SocketFrameHandler.cpp:440-570 | a write keeps the direction, moves acknowledgements without changing their sum, and stays within the window |
| FrameDelivery.SendableFits | src/Platform/SocketFrameHandler.cpp:539-567 | what one write sends fits the window, and the unsigned subtraction does not wrap |
| FrameConnection.StepKeeps | src/Platform/SocketFrameHandler.cpp:252-570 | every queueing, reading or writing step of either end keeps both directions and the balance of acknowledgements |
| FrameRuns.MirrorIsRun | src/Platform/SocketFrameHandler.cpp:252-570 | a run seen from the other end is a run, so every statement about one end holds of both |
| FrameRuns.DeliveredInOrder | src/Platform/SocketFrameHandler.cpp:252-438 | in every run, at every moment, each end has delivered an in-order prefix of the frames queued at the other, however reads are cut and acknowledgements and line tests interleave |
| FrameRuns.NothingIsLost | src/Platform/SocketFrameHandler.cpp:252-438 | when everything queued was cut up, sent and read, everything was delivered |
| FrameRuns.ReadsSucceed | src/Platform/SocketFrameHandler.cpp:252-321 | no read of a run finds a broken message, an unknown type or another version |
| FrameRuns.AcknowledgementsAddUp | src/Platform/SocketFrameHandler.cpp:335-339 | bytes waiting equal the bytes in the channel plus those read and unacknowledged plus those covered by acknowledgements queued or on their way back; so no acknowledgement exceeds what is waiting |
| FrameRuns.FlightWithinWindow | src/Platform/SocketFrameHandler.cpp:539-567 | while the window is at most a limit, bytes waiting and bytes in flight are at most that limit |
| FrameWindow.WindowWithinBuffers | src/Platform/SocketFrameHandler.cpp:355 | the window is at most eight tenths of either buffer, and eight tenths of the smaller one rounded down exactly if that can be computed in 32 bits |
| FrameWindow.ReadingSetsWindow | src/Platform/SocketFrameHandler.cpp:345-355 | however the bytes are cut into reads, the window after a read is what the last connection options taken say |
| FrameWindow.WindowOfRun | src/Platform/SocketFrameHandler.cpp:345-361 | at every moment of every run at most one message with connection options is still to be read; until then the window is the first one, from then on the negotiated one |
| FrameWindow.WindowOnceRead | src/Platform/SocketFrameHandler.cpp:345-361 | once the connection options were read the window is eight tenths of the smaller of the two buffers |
| FrameWindow.FlightFitsBuffer | src/Platform/SocketFrameHandler.cpp:539-567 | in every run what is in flight is at most 3276 bytes or eight tenths of both buffers, so it fits a receive buffer of at least 3276 bytes |
| FrameWindow.FlightStaysWithin | src/Platform/SocketFrameHandler.cpp:539-567 | once an end has the negotiated window and no more is waiting, what is in flight stays within eight tenths of both buffers for the rest of the run |
| FrameWindow.AlwaysFitsExactlyWhen | src/Platform/SocketFrameHandler.cpp:39 | what is in flight fits the receive buffer at every moment of every run if and only if that buffer has at least 3276 bytes |
| FrameWindow.FlightMayExceed | src/Platform/SocketFrameHandler.cpp:39 | for every smaller buffer there is a run in which more is in flight even after the connection options were read |
| FrameService.MessageLayout | src/Platform/SocketFrameHandler.cpp:455-520 | where the kind, the numbers and the part of a frame are in the bytes of each message |
| FrameService.WriteOrder | src/Platform/SocketFrameHandler.cpp:455-534 | what a write finds to send, in order, and when an acknowledgement, a line test, a status and the connection options are among it |
| FrameService.WritesWhatFits | src/Platform/SocketFrameHandler.cpp:440-567 | a write sends the longest prefix of it that fits the window and the socket; it changes nothing while the window is used up |
| FrameService.RefusesVersion | src/Platform/SocketFrameHandler.cpp:356-359 | connection options of another version end the connection |
| FrameService.RefusesUnknownKind | src/Platform/SocketFrameHandler.cpp:374-377 | a frame type without a reader empties the buffers, and nothing is delivered |
| FrameService.RefusesLargeSegment | src/Platform/SocketFrameHandler.cpp:379-398 | so does a segment that says it is longer than segments are |
| FrameRuns.PromptUnlessSwitched | src/Platform/SocketFrameHandler.cpp:371-372 | after every read that brought bytes, all frames that arrived as a whole were delivered, if and only if the segments that had arrived as a whole when it began to look at them carry frames of one type |
| FrameRuns.OneKindIsPrompt | src/Platform/SocketFrameHandler.cpp:252-321 | with one type of frame every read delivers all that has wholly arrived |
| FrameRuns.MixedKindsWait | src/Platform/SocketFrameHandler.cpp:371-372 | two frames of different types in one read: the second stays in the read buffer until more bytes arrive |
| FrameRuns.ReadOneFrame | src/Platform/SocketFrameHandler.cpp:252-321 | either of them alone is delivered by the read that brings it |
| FrameDelivery.TakenIsWhole | src/Platform/SocketFrameHandler.cpp:286-303 | one read takes all the messages that arrived as a whole if and only if their segments are of one type, that of the frame begun before |
| FrameCutOff.CutOffLasts | src/Platform/SocketFrameHandler.cpp:443-462 | an end that is cut off never writes another byte, whatever both ends queue, read and write |
| FrameCutOff.WriteOffersNothing | src/Platform/SocketFrameHandler.cpp:455-462 | the other end cannot afford a message that would help by writing something else first |
| FrameRelief.WritesAgainExactlyWhen | src/Platform/SocketFrameHandler.cpp:440-567 | with buffers of the recommended size and both ends having taken what arrived, an end writes again in some continuation if and only if it is not cut off: it can write now, relief is on its way, or the other end has the room to send relief after reading everything |
| FrameRelief.RunWritesAgainExactlyWhen | src/Platform/SocketFrameHandler.cpp:440-567 | the same at every moment of every run in which each end sends frames of one type |
| FrameRelief.ReadFirst | src/Platform/SocketFrameHandler.cpp:252-321 | the first message on its way can be read alone, whatever was read before |
| FrameStalls.CutOffExactlyWithoutRoom | src/Platform/SocketFrameHandler.cpp:455-462 | if the other end leaves less than a window unacknowledged, an end whose window is used up is cut off exactly if that end has not the room for one acknowledgement |
| FrameStalls.StarvedIsCutOff | src/Platform/SocketFrameHandler.cpp:455-462 | an end is cut off, however wide the window of the other is, once the other has read no more than it leaves unacknowledged |
| FrameStalls.OversizeIsNeverSent | src/Platform/SocketFrameHandler.cpp:544-548 | a segment larger than every window the end has or will have is never sent, nor is anything behind it |
| FrameStalls.HeldUpNeverWrites | src/Platform/SocketFrameHandler.cpp:371-372 | an acknowledgement behind a frame of another type, already in the read buffer, does not help two ends that may not write |
| FrameStalls.StalledIsCutOff | src/Platform/SocketFrameHandler.cpp:443-462 | each of two ends that have used up their windows, with no acknowledgement on its way, is cut off |
| FrameStalls.StallLasts | src/Platform/SocketFrameHandler.cpp:443-454 | once both ends have used up their windows with no acknowledgement on its way, neither writes another byte, because the window is checked before an acknowledgement is considered |
| FrameStalls.StallIsReached | src/Platform/SocketFrameHandler.cpp:443-462 | such a stall is reached from the start of a connection when both ends fill the window before they read |
| FrameStalls.ExampleStalls | src/Platform/SocketFrameHandler.cpp:443-462 | a concrete one: default settings, buffers of four kilobytes, and one frame of 3189 bytes from each end |
| FrameHandler.SocketFrameHandler.ReadFrames | src/Platform/SocketFrameHandler.cpp:252-321 | result and new state are those of the specification |
| FrameHandler.SocketFrameHandler.ConsumeReadBuffer | src/Platform/SocketFrameHandler.cpp:323-409 | outcome, position and state after one message are those of the specification, with each branch as in the program; `FrameWindow` ties the window it sets to the two buffers |
| FrameHandler.SocketFrameHandler.MoveBlock | src/Platform/SocketFrameHandler.cpp:397-405 | moves the segment, or gives back exactly the room it made when the read buffer runs out |
| FrameHandler.SocketFrameHandler.ConsumeFrameBuffer | src/Platform/SocketFrameHandler.cpp:411-438 | delivers the frame exactly if it is all there |
| FrameHandler.SocketFrameHandler.WriteFrames | src/Platform/SocketFrameHandler.cpp:440-570 | result, new state and bytes sent are those of the specification |
| FrameHandler.SocketFrameHandler.SendSegments | src/Platform/SocketFrameHandler.cpp:537-567 | sends exactly the segments that fit the window and the socket |
| FrameHandler.SocketFrameHandler.WriteSegments | src/Platform/SocketFrameHandler.cpp:503-534 | the loop over offsets cuts the serialized frame as specified |
| FrameHandler.SocketFrameHandler.WriteStatus | src/Platform/SocketFrameHandler.cpp:478-491 | a status is put in front unless one is there already, told by its first byte |
| FrameHandler.SocketFrameHandler.QueueFrame | src/Platform/SocketFrameHandler.cpp:175-183 | appends the frame to the queue |
| Calendar.DaysRoundTrip | src/Platform/TimePoint.cpp:79-113 | every day number is the number of its date, and that date exists in the Gregorian calendar |
| Calendar.DateRoundTrip | src/Platform/TimePoint.cpp:79-113 | every Gregorian date is the date of its day number |
| Calendar.CivilFollows | src/Platform/TimePoint.cpp:97-113 | the date of the next day number is the next day under the 4/100/400 rule, and day zero is 1 January 1970 |
| Calendar.NextDayIsNext | src/Platform/TimePoint.cpp:79-91 | the number of the next day is the next number |
| Calendar.Ranges | src/Platform/TimePoint.cpp:97-113 | the values on the way stay in the ranges stated in the comments, for day numbers of either sign |
| Calendar.NoOverflow | src/Platform/TimePoint.cpp:93-113 | inside the stated range no signed intermediate value leaves its type |
| Calendar.YearOfDay | src/Platform/TimePoint.cpp:103-106 | the division formula finds the year of the era for each of its 146097 days |
| Calendar.WeekdaysFollow | src/Platform/TimePoint.cpp:115-118 | days of the week follow each other modulo seven from a Thursday at the epoch, also before it |
| Calendar.DayOfYearCounts | src/Platform/TimePoint.cpp:144-166 | the day of the year is the number of days in the months before plus the day of the month |
| Calendar.TmRoundTrip | src/Platform/TimePoint.cpp:144-186 | broken-down time is in range and sets back to the same second, also before the epoch |
| Calendar.TimePoint.GetTm | src/Platform/TimePoint.cpp:144-173 | the program's sequence of subtractions gives the specified fields |
| Calendar.TimePoint.SetTm | src/Platform/TimePoint.cpp:176-186 | the program's sum of parts gives the specified number of microseconds |
| CanonicalPath.CanonicalizePath | 3rdparty/ninja/src/util.cc:117-214 | the in-place loop leaves exactly the canonical path, no longer than the path given, or reports the empty path or more than sixty components |
| CanonicalPath.CopyName | 3rdparty/ninja/src/util.cc:180-186 | copying to the left with the write position never ahead of the read position changes nothing that is still to be read |
| CanonicalPath.CanonicalTwice | 3rdparty/ninja/src/util.cc:117-214 | a canonical path is its own canonical path; only the root, which becomes empty, is refused the second time |
| CanonicalPath.RootIsEmpty | 3rdparty/ninja/src/util.cc:117-214 | the canonical path of the root is the empty path |
| CanonicalPath.CanonicalLeads | 3rdparty/ninja/src/util.cc:117-214 | from every directory the canonical path leads where the path leads, in a tree without links; the empty path stands for the root |
| CanonicalPath.CanonicalDecides | 3rdparty/ninja/src/util.cc:117-214 | two relative paths have the same canonical path if and only if they lead to the same place from every directory |
| CanonicalPath.CanonicalForm | 3rdparty/ninja/src/util.cc:117-214 | a canonical path has ordinary names with single separators between them, and ".." only in front of all others |
| CanonicalPath.TooManyExactlyWhen | 3rdparty/ninja/src/util.cc:128-182 | sixty names are never too many, and names without detours are refused exactly if there are more than sixty |
| EditDistance.EditDistance | 3rdparty/ninja/src/edit_distance.cc:22-71 | without a bound the exact distance; with a positive bound the exact distance if it is within the bound and a greater value otherwise; with a negative bound what the program returns |
| EditDistance.NextRow | 3rdparty/ninja/src/edit_distance.cc:44-64 | one row is overwritten by the next from left to right, and the least value of it is found |
| EditDistance.LastRowAbove | 3rdparty/ninja/src/edit_distance.cc:66-67 | the least value of a row never decreases from row to row |
| EditDistance.CellIsDistance | 3rdparty/ninja/src/edit_distance.cc:53-62 | the program's formula for a cell is the recursive distance, with and without replacements |
| EditDistance.DistanceIsLeast | 3rdparty/ninja/src/edit_distance.cc:22-71 | the distance is the least number of single-character insertions, deletions and, if allowed, replacements that turn one string into the other |
| PostProcess.EndsExactlyWhen | src/Configs/RemoteToolClientConfig.cpp:36-51 | the loop of an item ends if and only if its two strings differ or the needle does not occur |
| PostProcess.OnceDecreases | src/Configs/RemoteToolClientConfig.cpp:36-45 | every round moves the data, read as a number, strictly in one direction |
| PostProcess.NoNeedleLeft | src/Configs/RemoteToolClientConfig.cpp:46-51 | when the loop of an item ends its needle does not occur any more |
| PostProcess.DifferentItemsEnd | src/Configs/RemoteToolClientConfig.cpp:46-51 | with different strings in every item the whole post-processing ends, whatever the data |
| PostProcess.LastNeedleGone | src/Configs/RemoteToolClientConfig.cpp:46-51 | at the end the needle of the last item is gone |
| PostProcess.EarlierNeedleReturns | src/Configs/RemoteToolClientConfig.cpp:46-51 | an earlier needle may be back at the end |
| PostProcess.AllNeedlesGone | src/Configs/RemoteToolClientConfig.cpp:46-51 | if no replacement overlaps a needle of an earlier item in agreement, all needles are gone at the end, whatever the data |
| PostProcess.FirstNeedleReturnsExactlyWhen | src/Configs/RemoteToolClientConfig.cpp:46-51 | two items, the second needle without a byte in common with the first needle and the second replacement: some data ends with the first needle in it if and only if the second replacement overlaps the first needle in agreement |
| PostProcess.MeetingNeedNotReturn | src/Configs/RemoteToolClientConfig.cpp:46-51 | two items for which an overlap exists and the first needle is gone at the end all the same |
| PostProcess.Apply | src/Configs/RemoteToolClientConfig.cpp:36-51 | the in-place loops give the specified data, of the same length |
| ShellQuoting.ShellUndoes | 3rdparty/ninja/src/util.cc:258-282 | a shell splits a line of quoted arguments into exactly these arguments |
| ShellQuoting.ShellUndoesExactlyWhen | 3rdparty/ninja/src/util.cc:258-282 | one string comes back as one word if and only if it is not empty |
| ShellQuoting.QuotedExactlyWhen | 3rdparty/ninja/src/util.cc:219-282 | a string is left alone exactly if it has letters, digits and "_+-./" only; otherwise quoting adds two characters and three for each quote |
| ShellQuoting.GetShellEscapedString | 3rdparty/ninja/src/util.cc:258-282 | copying spans gives every single quote as a quote outside of the quotes |
| Win32Quoting.ParserUndoes | 3rdparty/ninja/src/util.cc:285-318 | the CommandLineToArgvW rules take a line of quoted arguments apart into exactly these arguments |
| Win32Quoting.ParserUndoesExactlyWhen | 3rdparty/ninja/src/util.cc:285-318 | one string comes back as one argument if and only if it is not empty and has no tab without a space or quote |
| Win32Quoting.QuotedExactlyWhen | 3rdparty/ninja/src/util.cc:235-318 | a string is left alone exactly if it has no space and no quote |
| Win32Quoting.GetWin32EscapedString | 3rdparty/ninja/src/util.cc:285-318 | counting backslashes in one pass doubles them before quotes and at the end |

## Left out

- Dyndep files: loading them changes the graph while it is built, so no node is taken to have one pending.
- `Plan::Reset`: it is not called in the build that is modelled.
- Buddy nodes and preprocessing edges: the code that sets them up is not part of this model. The warning about phony edges that name themselves is not modelled.
- Implicit dependencies: the scan and the plan see them as already loaded; whether they could be loaded is a parameter.
- Builder.Builder.Step: reports of a runner about edges it does not have are ignored, and a local runner with nothing to do is assumed to accept a command.
- Builder.Builder.FinishCommand: a disk or log failure while a command is finished ends the build, and the plan is not looked at again.
- Plan.Plan.CleanNode: uses the time stamps that the scan read, as the program does through the nodes; a file changed meanwhile is not modelled.
- Pools.RetrieveReadyTakesLeast: edges have weight one, as in the program, so their order is that of their numbers.
- DepsLog.DepsLog.RecordDeps: asks for paths without a trailing NUL that could be padding and for at most 2^31 paths; `DepsLogRecovery` says what happens to other paths.
- DepsLog.DepsLog.Load: words are little-endian, as on the hosts the program writes the log on; a file from a log written under another contract ends in a status of its own.
- File operations of the deps log: opening, buffering, renaming and their errors.
- Reconnection and the acknowledgement timer: buffers and counters are not reset between connections, so statements are about one connection until its first timeout.
- FrameConnection.StepKeeps: a read that ends inside the connection options is excluded, because the program then uses uninitialised values.
- FrameHandler.SocketFrameHandler.ConsumeReadBuffer: acknowledgements, line tests, connection options and channel types are always on, as by default; connection status is optional. The callback for a status is not modelled.
- FrameHandler.SocketFrameHandler.WriteFrames: a write of the socket takes a whole segment or nothing; failed writes end the connection. The number in a status is a parameter.
- FrameHandler.SocketFrameHandler.QueueFrame: the transaction number that a frame with a notifier gets is part of its fields, and notifiers are not modelled.
- FrameRelief.WritesAgainExactlyWhen: with smaller socket buffers the window shrinks when the connection options arrive; then only one half is proved, that being cut off lasts (`FrameCutOff.CutOffLasts`).
- FrameStalls.HeldUpNeverWrites: that such a state is reached is not shown.
- PostProcess.AllNeedlesGone: the converse is proved for two items without common bytes only (`PostProcess.FirstNeedleReturnsExactlyWhen`); in general later rounds may undo what a replacement began (`PostProcess.MeetingNeedNotReturn`), which is a question about string rewriting.
- DepsLogRecovery.RecordBehindTailIsLost: a longer record behind a tail may be misread in other ways.
- Routing of replies to notifiers and reply timeouts.
- FrameCodec.FrameReadsBack: frame types list their fields; conversions of a field to a richer type, broken frames and exceptions of user code are not modelled.
- ByteBuffer.DataStream.ReadScalar: a little-endian host; `ByteStream` has hosts of other orders. Floating-point scalars are their bytes.
- Calendar.TimePoint.SetTm: the program adds to a duration that it does not initialise; the model starts from zero. `SetTime` and local time are not modelled.
- CanonicalPath.CanonicalizePath: the POSIX branch only; the overload on strings only passes its buffer on.
- CanonicalPath.CanonicalDecides: relative paths only; an absolute path that goes above the root keeps its "..", so two absolute paths to one place may differ in canonical form.
- ShellQuoting.ShellUndoes: quoting by backslash and single quotes and splitting at blanks only; any other special character outside of quotes makes the model give up, and quoted output never has one.
- Win32Quoting.ParserUndoes: arguments, not the program name, which follows other rules.
- Parsers of manifests, dependency files and compiler output, the build log, hashing, status output, configuration, compression, tool balancing and the coordinator.
