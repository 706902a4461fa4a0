# Verified models of the Workbench's stateful cores

Codex Workbench installs files for two agents, bridges a host to a reconnectable MCP child, and
decides about repairs, amendments and evidence. This project models the parts of it that keep
state or rest on an algorithm, and proves what they promise for all inputs, all faults and all
runs. `dafny verify dfyconfig.toml` checks everything.

| file | what it models |
|---|---|
| `EndpointSwap.dfy` | a disk whose every durable step may raise or be the process's last, and the swap loop that both installers write alike |
| `UndoSteps.dfy` | a rollback step by step: how far a tape of outcomes lets it get with each endpoint |
| `CodeAsHarness.dfy`, `Archify.dfy` | the file and the directory installer: rollback, finalization, recovery, handler |
| `BridgeLog.dfy`, `Bridge.dfy`, `EventReplay.dfy` | the MCP bridge: messages and what a log of them means, write fence, catalog gate, replies; event memory |
| `RepairGraph.dfy` | dependency graph, cycle check and reachability worklists of accepted-source repair |
| `SnapshotRollback.dfy` | snapshots and rollback of the MacBook and macOS installers |
| `TimeoutEditor.dfy`, `TimeoutTable.dfy` | the line editor for MCP timeouts |
| `PolicyBlock.dfy`, `PolicyFile.dfy` | the managed policy block, and the file it is written into |
| `LoginLimiter.dfy` | the login limiter |
| `VendorFraming.dfy` | the framing of the vendor tree digest |
| `QuotaEvidence.dfy` | the quota verdicts |
| `Amendment.dfy` | the acceptance amendment |
| `RadarStore.dfy` | the radar registry |

Faults, the child, the clock and the network are parameters: a tape of outcomes, one for each
durable step or interaction, over which the theorems quantify. A kill is a fault like any other.

## What does not hold

- An error that finalization raises is handled by a rollback although the committed record is
  already durable. It happens exactly if the first fault of the install is an error at a step of
  finalization (`CommitStagedFiles`, `InstallStaged`); kills alone never do it (`InstallUnderKills`).
  The tape then says how many steps the rollback takes each endpoint, and both `LateEnd` predicates
  what it comes to after any recoveries. Files: if the rollback is cut short and some endpoint was
  taken exactly one step, a committed record stands beside a missing target for ever (`GetsStuck`,
  `NeverRecovers`); else each target is old or new by whether it was taken a step. Trees: blocked
  for ever exactly if the rollback is cut short and a target is missing or without its marker; else a
  recovery succeeds and keeps what the rollback left, which may be part of the new tree or of the old
  one (`TruncatedSurvives`). Both `LateFailureOutcome` lemmas say which targets are old and new.
- `record_server` changes the catalog in memory before the state file is written. If that write
  fails, a changed catalog does not shut the gate, and the next reconnect no longer sees a change.
  `ShutMeans` says when the gate is shut, `SlippedMeans` when it is open against the promise,
  `ServeSessions` that a write leaves against the promise exactly then, and `GateSlips` is the run.
- A notification during which the state file cannot be written is answered by a line with a null
  id: exactly then by `Run`, and it happens in `NotificationAnswered`.
- The timeout editor is not idempotent where a timeout has a comment and its line ends at a break
  other than a newline, such as a form feed: repeating the update adds another empty line
  (`IdempotentUnlessGrowing`, `GrowthHappens`).
- A rollback of snapshots is cut short by a symlink that the installation left on the way of an
  entry, because `SystemExit` is not caught there (`RollbackEnds`, `LinkStopsRollback`); and it
  reports an error for an entry that an outer one restores afterwards (`RollbackFails` against
  `RollbackRestores`, `FailedYetRestored`).
- `preserve_existing_app` names the application before it sets it aside. If the backup name is
  taken or the rename fails, the rollback takes the old application for a new one and deletes it
  (`PreserveThenRollBack`).
- `active` migrates the projection also when reading the database failed, and so can replace a
  newer snapshot by an older one: exactly when, `RegressesExactly` says; `FailedReadRegresses` is
  a run. `ingest` compares with what `active` returns, and so can commit an older snapshot then
  (`IngestRegressesExactly`, `OlderIsIngested`).
- `updated_policy` decodes the policy file with universal newlines, and the result is staged as it
  is: an update keeps what stands outside the block exactly if no carriage return does
  (`OutsideSurvives`, `ReturnsAreLost`).

## Model

| member | source | states |
|---|---|---|
| `EndpointSwap.NewRecord` | scripts/install-code-as-harness.py:490-502 | The first record says of every endpoint whether its target exists. |
| `EndpointSwap.SwapEndpoint` | scripts/install-code-as-harness.py:641-651 | One endpoint, cut anywhere: rolling back would restore its old content; if it completes, new content is live and the old is its backup; it takes two or four durable steps. |
| `EndpointSwap.SwapEndpoints` | scripts/install-code-as-harness.py:635-653 | Whatever cuts the swap short, every endpoint can still be rolled back to its old content; a committed record is durable exactly if it completes. |
| `EndpointSwap.Disk.WriteRecord` | scripts/install-code-as-harness.py:451-469 | A record replaces the old one at once or not at all. |
| `UndoSteps.UndoneRestores` | scripts/install-code-as-harness.py:567-581 | Rolling an endpoint back step by step: what it would restore is the same after any number of steps, each step leaves one less to do, and after all of them that content is live and nothing else is left. |
| `UndoSteps.CompletesAndOne` | scripts/install-code-as-harness.py:562-589 | Endpoints are taken last first, and an error ends the turn of one only: all are completed and the record is gone exactly if nothing goes wrong from the first step to the removal of the record. |
| `CodeAsHarness.RollbackEndpoint` | scripts/install-code-as-harness.py:567-581 | What a rollback would restore never changes on the way; each durable step lowers the cost left by one; it exits exactly if something replaced is missing both live and in backup. Else the endpoint is taken back exactly as many steps as the tape lets through before its first fault, and is old with nothing left over exactly if these are all. |
| `CodeAsHarness.RollbackTransaction` | scripts/install-code-as-harness.py:562-589 | All endpoints are restored and the record is gone, or the record stays and a further rollback would restore the same. Where nothing is missing, the tape says exactly how many steps each endpoint is taken back, after an error at another one and after a kill, and the record is gone exactly if nothing goes wrong. |
| `CodeAsHarness.FinalizeCommittedTransaction` | scripts/install-code-as-harness.py:592-605 | Targets are never touched; leftovers go endpoint by endpoint; the record goes last; it exits only if a target is missing; after a complete swap the number of steps says how far it came. |
| `CodeAsHarness.Recover` | scripts/install-code-as-harness.py:608-620 | From every state that a kill can leave: recovery ends all new or all old by the durable state alone, or leaves such a state again with strictly fewer steps to go; beside a committed record with a missing target it never succeeds and keeps the record. |
| `CodeAsHarness.FinalizeOrRollBack` | scripts/install-code-as-harness.py:654-664 | The handler around finalization: if it raises after some endpoints are finalized, the rollback that follows takes each endpoint back as many steps as the tape lets it, from new with or without a backup. |
| `CodeAsHarness.SwapOrRollBack` | scripts/install-code-as-harness.py:635-664 | An error before the committed record: all old, or a record from which recovery still makes all old. |
| `CodeAsHarness.CommitStagedFiles` | scripts/install-code-as-harness.py:623-664 | The whole install under every tape of faults. The first fault decides: without one before it, the swap commits; a late failure is exactly an error, first of all faults, at a step of finalization, and its position is the endpoint. Without it the result is all or nothing, by whether the committed record was durable. With it the rollback begins right after the error, and the tape says exactly how many steps of it each endpoint was taken and whether the record is gone. |
| `CodeAsHarness.InstallUnderFaults` | scripts/install-code-as-harness.py:562-664 | Kill or fail any step of the install and of any number of recoveries. Unless the first fault is an error at a step of finalization, recovery comes to an end, every target is new or every target is old, and as soon as the first record was durable nothing else is left. If it is, the disk ends stuck exactly if something goes wrong in the rollback and some endpoint is taken exactly one step of it; else nothing but targets is left, old where the rollback took a step and new where it took none. |
| `CodeAsHarness.InstallUnderKills` | scripts/install-code-as-harness.py:608-664 | If no step raises, however many kills there are and wherever they fall: all new or all old; once the first record is durable nothing is left over, and it is all new exactly if no kill falls into the swap. |
| `CodeAsHarness.NeverRecovers` | scripts/install-code-as-harness.py:592-620 | A committed record beside a missing target: however often recovery runs, it never succeeds and the record stays. |
| `CodeAsHarness.GetsStuck` | scripts/install-code-as-harness.py:562-664 | It happens: a first install whose last step of finalization raises, and whose rollback is killed right after it removed the target. |
| `CodeAsHarness.RecoverCommitted` | scripts/install-code-as-harness.py:592-620 | Recovery of any committed transaction, however its targets came to be: run more often than there are faults, all leftovers go and the targets stay, unless one is missing. |
| `CodeAsHarness.RecoverLate` | scripts/install-code-as-harness.py:592-620 | From what a late failure left, however its rollback was cut short, to the end that `InstallUnderFaults` states. |
| `CodeAsHarness.LateFailureOutcome` | scripts/install-code-as-harness.py:654-664 | Where it does not end stuck, all is old exactly if every endpoint the rollback did not touch had the same content before, and all is new exactly if every one it touched had. |
| `CodeAsHarness.StopsAt` | scripts/install-code-as-harness.py:592-605 | The position of the one error decides at which endpoint finalization stops. |
| `Archify.RemoveTree` | scripts/install-archify.py:268-276 | A tree is removed entry by entry; cut anywhere, a part of it is left, and the steps taken plus the entries left are the entries there were. |
| `Archify.RollbackEndpoint` | scripts/install-archify.py:422-436 | As for files, with the removal of trees cut at any entry: the endpoint is taken back exactly as many entries and moves as the tape lets through before its first fault. |
| `Archify.RollbackTransaction` | scripts/install-archify.py:418-443 | All endpoints restored and the record gone, or the record stays and the same would be restored. Where nothing is missing, the tape says exactly how many steps each endpoint is taken back, and the record is gone exactly if nothing goes wrong. |
| `Archify.FinalizeCommittedTransaction` | scripts/install-archify.py:446-458 | Targets are never touched; it exits only at a target that is missing or not owned; every entry removed is counted. |
| `Archify.Recover` | scripts/install-archify.py:461-478 | Repeated recovery converges: all new or all old by the durable state, or a consistent state with fewer entries left; the ownership check passes on every committed target; beside a committed record with a target that is missing or lost its marker it never succeeds and keeps the record. |
| `Archify.FinalizeSwapped` | scripts/install-archify.py:446-458 | Finalization after a complete swap: at which endpoint and after how many removed entries the first error stops it, and what a rollback would then restore. |
| `Archify.FinalizeOrRollBack` | scripts/install-archify.py:507-517 | The handler after that: each endpoint is taken back as many steps as the tape lets it, from new and what is left of its backup. |
| `Archify.SwapOrRollBack` | scripts/install-archify.py:487-517 | An error before the committed record: all old, or a record from which recovery still makes all old. |
| `Archify.InstallStaged` | scripts/install-archify.py:538-591 | The whole install under every tape of faults. The first fault decides: a late failure is exactly an error, first of all faults, at a step of finalization, and its position is the endpoint and the number of entries already removed from its backup. Without it the result is all or nothing. With it the tape says exactly how many steps of the rollback each endpoint was taken and whether the record is gone, and the clean-up of the stages takes nothing from that. |
| `Archify.InstallUnderFaults` | scripts/install-archify.py:418-517 | Kill or fail any step or entry removal of the install and of any number of recoveries. Unless the first fault is an error at a step of finalization it ends all new or all old, and as soon as the first record was durable nothing else is left. If it is, it ends blocked exactly if something goes wrong in the rollback and some target is then missing or without its marker; else recovery succeeds and keeps every target as the rollback left it: the new tree, what is left of it, or what was left of the old. |
| `Archify.InstallUnderKills` | scripts/install-archify.py:461-591 | If no step raises, however many kills there are: all new or all old; once the first record is durable, all new exactly if no kill falls into the swap. |
| `Archify.LateFailureOutcome` | scripts/install-archify.py:507-517 | Which targets end new, which old, and so which neither, by the entries lost and the steps of the rollback alone; and when the whole is all old or all new. |
| `Archify.RecoverCommitted` | scripts/install-archify.py:446-478 | Recovery of any committed transaction: all leftovers go and the targets stay, whole or not, unless one is missing or not owned. |
| `Archify.RecoverLate` | scripts/install-archify.py:446-478 | From what a late failure left, however its rollback was cut short, to the end that `InstallUnderFaults` states. |
| `Archify.NeverRecovers` | scripts/install-archify.py:446-478 | A committed record beside a target that is missing or not owned: recovery never succeeds and the record stays. |
| `Archify.TruncatedSurvives` | scripts/install-archify.py:268-276 | It happens with every new Skill: a first install whose last step of finalization raises and whose rollback is killed after one entry. If that entry was the marker no recovery ever succeeds; else recovery succeeds and keeps a tree that is neither old nor new. |
| `Bridge.Bridge.constructor` | scripts/workbench-mcp-bridge.py:204-274 | A bridge starts from the state file: its fences, no connection, gate open. |
| `Bridge.Bridge.Restart` | scripts/workbench-mcp-bridge.py:204-274 | A new process knows what the state file holds, and nothing else. |
| `Bridge.Bridge.Persist` | scripts/workbench-mcp-bridge.py:276-300 | The state file is replaced by the copy in memory or keeps its content; it says in the log at which time it was tried and whether it worked; a fence is never taken back. |
| `Bridge.Bridge.FenceAndSend` | scripts/workbench-mcp-bridge.py:1220-1224 | The key is durable before the write is sent, and the write is sent if the state file could be written. |
| `Bridge.Bridge.SendWrite` | scripts/workbench-mcp-bridge.py:1220-1235 | After the fence the child gets the write at most once, then only status queries for its identity; the answer is the child's own reply to it, a final record of the Authority for this request, or an error; a child that replies has its reply passed on. |
| `Bridge.Bridge.WriteCall` | scripts/workbench-mcp-bridge.py:1212-1235 | A fenced key is never sent again; with the gate closed nothing new is sent; a new write on a connected child leaves right after its fence. A recovery that shows another catalog while the state file cannot be written leaves the gate as it was. |
| `Bridge.Bridge.ResolveWrite` | scripts/workbench-mcp-bridge.py:1144-1171 | Sends nothing but status queries for this identity; the answer is the Authority's completed or rejected record just received, or write_indeterminate. |
| `Bridge.Bridge.QueryOnce` | scripts/workbench-mcp-bridge.py:1104-1142 | Only a report that names this request and is completed or rejected counts. |
| `Bridge.Bridge.ForwardReadOnly` | scripts/workbench-mcp-bridge.py:959-974 | A read is sent at most twice and no write with it; the answer is the child's own reply to this very request, or response_too_large. |
| `Bridge.Bridge.RecoverConnection` | scripts/workbench-mcp-bridge.py:929-957 | No recovery attempt, failed or repeated, sends a host message or opens the gate. |
| `Bridge.Bridge.ObserveCatalog` | scripts/workbench-mcp-bridge.py:822-847 | The gate closes on a recorded changed catalog after a reconnect and opens on a recorded host-requested one; a failed write of the state file leaves the new catalog in memory and the gate as it was, slipped if it had to close and was open. |
| `Bridge.Bridge.HandleToolCall` | scripts/workbench-mcp-bridge.py:1173-1235 | Reads go out as reads only; a write without a usable identity is refused and nothing is sent; a fresh identity is sent if nothing goes wrong; the answer is what the read or the write came to. |
| `Bridge.Bridge.HandleRead` | scripts/workbench-mcp-bridge.py:1261-1275 | A tools/list that is answered with a catalog opens the gate, and nothing else does; a closed gate stays closed otherwise, also if the state file cannot be written. The answer is the child's own reply or an explicit error. |
| `Bridge.Bridge.HandleRequest` | scripts/workbench-mcp-bridge.py:1237-1276 | The answer to a request is the child's own reply to it, the Authority's final record of this write, or an error of its kind; or the state file could not be written meanwhile. The child gets at most two reads and the write of this request; only a catalog in answer to the host's tools/list opens the gate. |
| `Bridge.Bridge.Await` | scripts/workbench-mcp-bridge.py:602-631 | Notifications are handed on, and of the responses only one with the id of the request is taken; any other is a transport failure. |
| `Bridge.Bridge.HandleNotification` | scripts/workbench-mcp-bridge.py:1242-1258 | A notification sends no request; without a child it changes nothing but what initialized says; it fails exactly if the state file could not be written. |
| `Bridge.Bridge.ConnectForInitialize` | scripts/workbench-mcp-bridge.py:911-927 | An initialize opens no gate; its answer is the child's own reply to it; a child that starts and accepts is connected. |
| `Bridge.Bridge.Run` | scripts/workbench-mcp-bridge.py:1278-1300 | Over a session, message by message: a line says that the state file is unavailable exactly if a write of it failed while this message was handled, for a notification too, then with a null id; otherwise a notification gets no line, and a request one with its own id and an answer that fits it. Only a catalog handed to the host opens the gate, and a list-changed notification leaves it shut. It stops early only by a kill. |
| `Bridge.Bridge.ShutMeansNow` | scripts/workbench-mcp-bridge.py:822-854 | After every message the gate is shut exactly as the messages say, and open against the promise exactly if it slipped. |
| `BridgeLog.OnceMeans` | scripts/workbench-mcp-bridge.py:354-367 | What the summary of a log calls once is: no two writes with one key. |
| `BridgeLog.RespectedMeans` | scripts/workbench-mcp-bridge.py:1214-1224 | Every write of the log left while the gate was open; the state file is written right after a catalog that has to be recorded. |
| `BridgeLog.PromiseMeans` | scripts/workbench-mcp-bridge.py:822-854 | Read off the messages alone: a promise stands exactly if in this process a list change was announced or a reconnect showed another catalog than the one before, and no tools/list of the host has returned a catalog since. |
| `BridgeLog.ShutMeans` | scripts/workbench-mcp-bridge.py:822-854 | Read off the messages: the gate is shut exactly if in this process a list change was announced, or a changed catalog recorded, and since then no catalog that the host asked for was recorded with none such after it. |
| `BridgeLog.SlippedMeans` | scripts/workbench-mcp-bridge.py:822-847 | A promise stands while the gate is open exactly if a changed catalog was just shown and has still to be recorded, or could not be recorded while the gate was open, and nothing since has shut the gate or kept the promise. |
| `BridgeLog.FailuresMean` | scripts/workbench-mcp-bridge.py:276-300 | The count of failures grows between two moments exactly if a write of the state file failed between them. |
| `Bridge.ServeSessions` | scripts/workbench-mcp-bridge.py:1237-1300 | Any number of sessions on one state file, killed anywhere: no key is written twice, every written key is on the disk and was not there before, and no write leaves while the gate is shut: after an announced list change or a recorded changed catalog none does before the host has a fresh catalog. A write leaves against the promise exactly where a changed catalog could not be recorded while the gate was open. |
| `Bridge.GateSlips` | scripts/workbench-mcp-bridge.py:822-847 | It does happen, from the first message on: no child starts at first, a later one shows another catalog while the state file cannot be written, and the next new write goes out. |
| `Bridge.NotificationAnswered` | scripts/workbench-mcp-bridge.py:1287-1297 | It does happen: a notification to a lost child, while the state file cannot be written, is answered by an error line with a null id. |
| `EventReplay.EventState.RecordEvents` | scripts/workbench-mcp-bridge.py:378-459 | The loop computes the batch, cursors and memory of the specification; without an event list only the cursor moves. |
| `EventReplay.CursorsAdvance` | scripts/workbench-mcp-bridge.py:391-396 | A cursor never decreases, reaches every cursor the batch names, and takes no other value. |
| `EventReplay.KnownMeans` | scripts/workbench-mcp-bridge.py:408-417 | The keys known after a batch are those known before and those the batch mentions. |
| `EventReplay.KeptExactly` | scripts/workbench-mcp-bridge.py:434-453 | Deduplication returns, in order, exactly the events whose key was neither stored nor mentioned before. |
| `EventReplay.KeptAll` | scripts/workbench-mcp-bridge.py:449-450 | Without deduplication everything is returned. |
| `EventReplay.MemoryStaysTidy` | scripts/workbench-mcp-bridge.py:454-457 | Stored key lists stay free of repetitions, and those a batch touches are at most 512 long. |
| `EventReplay.ReplayYieldsKeyless` | scripts/workbench-mcp-bridge.py:378-459 | The same batch again yields keyless events only, exactly if every key of the batch survived the cut to 512. |
| `EventReplay.ReplayYieldsKeylessWhenItFits` | scripts/workbench-mcp-bridge.py:378-459 | It does if each list fits in 512. |
| `RepairGraph.Dependencies` | src/codex_workbench/accepted_source_repair.py:741-761 | The graph is built exactly if every list is made of distinct names of nodes; then all edges stay in the graph. |
| `RepairGraph.CycleCheck.Visit` | src/codex_workbench/accepted_source_repair.py:768-777 | One call of the recursive visit keeps the finished nodes topologically sorted, and fails only on a cycle. |
| `RepairGraph.AssertAcyclic` | src/codex_workbench/accepted_source_repair.py:764-780 | Returns normally if and only if no walk along dependencies comes back to its start. |
| `RepairGraph.SortedIsAcyclic` | src/codex_workbench/accepted_source_repair.py:764-780 | A topologically sorted graph has no cycle. |
| `RepairGraph.CoverAncestors` | src/codex_workbench/accepted_source_repair.py:788-796 | The first worklist computes exactly the requested owners and what they depend on. |
| `RepairGraph.ChildrenOf` | src/codex_workbench/accepted_source_repair.py:797-800 | The child map is the converse of the dependencies. |
| `RepairGraph.DescendantsCovered` | src/codex_workbench/accepted_source_repair.py:801-817 | The second worklist meets an uncovered accepted strict descendant exactly if there is one. |
| `RepairGraph.RequireRepairedAcceptedDescendants` | src/codex_workbench/accepted_source_repair.py:783-817 | Raises if and only if an accepted strict descendant of a requested owner is neither requested nor something a requested owner depends on. |
| `RepairGraph.AncestorsOf` | src/codex_workbench/accepted_source_repair.py:252-259 | The worklist of a blocked consumer computes exactly what it depends on. |
| `RepairGraph.RequireAncestors` | src/codex_workbench/accepted_source_repair.py:251-264 | Passes if and only if the consumer depends on every requested owner. |
| `SnapshotRollback.Transaction.Snapshot` | scripts/install-macos.py:349-367 | Refused exactly at a link on the way; else the whole subtree is kept. |
| `SnapshotRollback.Transaction.PreserveExistingApp` | scripts/install-macos.py:372-383 | The application is set aside whole under a free name in an existing directory, or the rename is refused and nothing changes. |
| `SnapshotRollback.Transaction.Rollback` | scripts/install-macos.py:518-572 | The loops compute the specified file system; clean exactly if no entry failed and the application is back. |
| `SnapshotRollback.Transaction.CleanCreated` | scripts/install-macbook-client.py:475-485 | Sweeping the created directories deepest first removes exactly those that hold nothing but directories. |
| `SnapshotRollback.RollbackEnds` | scripts/install-macbook-client.py:459-461 | The symlink check ends a rollback exactly if a link is on the way of an entry and no later entry covers it. |
| `SnapshotRollback.RollbackFails` | scripts/install-macbook-client.py:459-474 | An entry fails exactly if it is reached and a file is on its way that no later entry covers. |
| `SnapshotRollback.LinkStopsRollback` | scripts/install-macbook-client.py:459-461 | Such a stop: an entry below the link in the list is not put back. |
| `SnapshotRollback.FailedYetRestored` | scripts/install-macbook-client.py:459-474 | An entry that fails although an outer one restores it. |
| `SnapshotRollback.RollbackRestores` | scripts/install-macbook-client.py:457-488 | Unless it is stopped, a rollback restores every snapshotted subtree, nested and overlapping ones included, exactly if no file outside all entries is in the way. |
| `SnapshotRollback.RollbackSpares` | scripts/install-macbook-client.py:457-488 | Elsewhere it only makes directories again that were there, and removes directories in created ones. |
| `SnapshotRollback.PreservedAppReturns` | scripts/install-macos.py:538-556 | The application comes back in its place, untouched, and its backup is gone. |
| `SnapshotRollback.PreserveThenRollBack` | scripts/install-macos.py:372-383 | Whatever has been snapshotted, created and installed: if the transaction is rolled back after preserving and not stopped by a link, the application is there again exactly if it could be set aside, otherwise it is deleted; if it is stopped, the application stays where it is. |
| `LoginLimiter.Limiter.RecordFailedLogin` | src/codex_workbench/api.py:198-222 | The table and the delay are those of the specification. |
| `LoginLimiter.Limiter.ClearLoginFailures` | src/codex_workbench/api.py:224-226 | The address is forgotten, and nobody else. |
| `LoginLimiter.RunKept` | src/codex_workbench/api.py:198-226 | Over every run with a clock that does not go back: at most 256 addresses, listed by last touch, and for each address at most five recorded failures in any 60 seconds. |
| `LoginLimiter.AlwaysLimited` | src/codex_workbench/api.py:198-226 | So it is from the empty table on. |
| `LoginLimiter.WindowKept` | src/codex_workbench/api.py:200-222 | One step keeps the window of any watched address. |
| `LoginLimiter.BoundKept` | src/codex_workbench/api.py:215-221 | One step keeps the table at 256. |
| `LoginLimiter.EvictsLeastRecent` | src/codex_workbench/api.py:215-217 | Who makes room was touched before all others. |
| `LoginLimiter.RefusedExactly` | src/codex_workbench/api.py:204-214 | A failure is refused exactly if five recorded ones are less than 60 seconds old; the delay is in 1 to 60 and sufficient. |
| `LoginLimiter.WaitedOut` | src/codex_workbench/api.py:198-222 | After the delay the next failure is recorded, not refused. |
| `VendorFraming.VendorContentTree` | src/codex_workbench/archify.py:330-355 | The digest input is the framed stream of the files that are not excluded, the count is theirs, and it is refused exactly at a symlink. |
| `VendorFraming.RoundTrip` | src/codex_workbench/archify.py:347-353 | A decoder gets the exact list of files back, whatever they contain. |
| `VendorFraming.ListingUnique` | src/codex_workbench/archify.py:339 | A tree has one listing in path order. |
| `VendorFraming.StreamIdentifiesTree` | src/codex_workbench/archify.py:330-355 | Two trees have the same stream if and only if they are equal. |
| `VendorFraming.CoreLists` | src/codex_workbench/archify.py:330-355 | What the loop frames of entries in path order is the one listing of their tree. |
| `VendorFraming.DigestIdentifiesTree` | src/codex_workbench/archify.py:330-355 | Two vendor trees feed the digest the same bytes if and only if their files that are not excluded are the same. |
| `PolicyBlock.PolicyMarkersSensible` | scripts/install-code-as-harness.py:220-221 | An empty line is no marker line. |
| `PolicyBlock.PolicyBlockWellFormed` | scripts/install-code-as-harness.py:127-146 | Around a body without marker lines the block has one of each, first and last. |
| `PolicyBlock.MatchesMean` | scripts/install-code-as-harness.py:220-221 | The matches are exactly the marker lines. |
| `PolicyBlock.UpdateWrites` | scripts/install-code-as-harness.py:310-337 | An update of decoded text is refused exactly if the marker lines are neither absent nor one of each in order; otherwise it keeps all lines before and after. |
| `PolicyBlock.OneBlock` | scripts/install-code-as-harness.py:310-337 | After it there is one marker line of each kind, around the block. |
| `PolicyBlock.LastUpdateWins` | scripts/install-code-as-harness.py:310-337 | A second update undoes the first and leaves the surroundings alone; with the same block it changes nothing. |
| `PolicyFile.OutsideIsThere` | scripts/install-code-as-harness.py:324-337 | What is called before and after the block is what the file holds around it, as it stands. |
| `PolicyFile.UpdateDecodes` | scripts/install-code-as-harness.py:310-337 | Of the file: what stands before and after the block is written back decoded, every carriage return with or without a newline as a newline, around the block. |
| `PolicyFile.OutsideSurvives` | scripts/install-code-as-harness.py:314-337 | What stands outside the block survives an update character by character if and only if it holds no carriage return. |
| `PolicyFile.LastFileUpdateWins` | scripts/install-code-as-harness.py:310-337 | A second update of the file undoes the first, whatever the line ends of the file were. |
| `PolicyFile.ReturnsAreLost` | scripts/install-code-as-harness.py:314 | A file of one line with carriage return and newline loses the carriage return. |
| `TimeoutTable.WithMcpTimeouts` | scripts/install-macbook-client.py:846-903 | The loops that edit the list of lines compute the specified text. |
| `TimeoutTable.EditTable` | scripts/install-macbook-client.py:875-894 | The delete-while-scanning loop ends, edits each line of the table once and no line outside it, and has seen exactly the settings that are there. |
| `TimeoutTable.UpdateReads` | scripts/install-macbook-client.py:846-903 | Read back, the updated text has the same lines before and after the first Workbench table; in the table no timeout in milliseconds, and each of the two others with its value. |
| `TimeoutTable.IdempotentUnlessGrowing` | scripts/install-macbook-client.py:846-903 | A second update changes nothing if and only if no timeout line of the table has a comment and ends at a break that is neither a newline nor completed to one. |
| `TimeoutTable.GrowthHappens` | scripts/install-macbook-client.py:840-843 | A comment that ends at a form feed is such a line. |
| `TimeoutTable.HeadersSensible` | scripts/install-macbook-client.py:32-34 | A header line sets nothing, and stays a header when its newline is completed. |
| `TimeoutEditor.EditedAgain` | scripts/install-macbook-client.py:875-894 | Editing an edited text leaves it as it is, or makes it longer, exactly by whether a line grows. |
| `TimeoutEditor.SplitConcat` | scripts/install-macbook-client.py:849 | Cutting into lines distributes over a clean cut. |
| `TimeoutEditor.RewrittenAgain` | scripts/install-macbook-client.py:889-892 | A rewritten setting is rewritten to itself, unless it grows. |
| `QuotaEvidence.QuotaSamples` | src/codex_workbench/acceptance.py:608-627 | Only compatible, complete and readable snapshots become samples, in order. |
| `QuotaEvidence.QuotaCoverage` | src/codex_workbench/acceptance.py:594-605 | Every window keeps its own samples in order of time, unless some remaining value rises. |
| `QuotaEvidence.SortSorts` | src/codex_workbench/acceptance.py:603-604 | The samples of a window are put in order, none lost. |
| `QuotaEvidence.MinimumBelow` | src/codex_workbench/acceptance.py:553-554 | The minimum is below a limit exactly if the first value is a number and some value is below. |
| `QuotaEvidence.ErrorMeans` | src/codex_workbench/acceptance.py:553-557 | The verdict is an error exactly then, whatever the coverage. |
| `QuotaEvidence.OkExactly` | src/codex_workbench/acceptance.py:558-565 | Otherwise it is ok exactly if as many windows as required show, in order of time, the span, the gaps and no rise. |
| `QuotaEvidence.FiveHourOk` | src/codex_workbench/acceptance.py:542-565 | On snapshots of the ledger an ok verdict rests on two windows with at least nine samples each, over four hours and thirty minutes apart at most; between any two samples of them, adjacent or not, no remaining value rises; and every value of every sample is at least 20. |
| `QuotaEvidence.WeeklyOk` | src/codex_workbench/acceptance.py:568-591 | On snapshots of the ledger an ok verdict rests on a window with at least thirteen samples over six days, twelve hours apart at most, in which no remaining value ever rises; and every value of every sample is at least 20. |
| `QuotaEvidence.LedgerValidated` | src/codex_workbench/store.py:15202-15212 | Whatever is written, the ledger only holds validated snapshots, with every value in 0 to 100. |
| `QuotaEvidence.StoredErrorMeans` | src/codex_workbench/acceptance.py:553-557 | On snapshots of the ledger the verdict is an error exactly if some value is below 20. |
| `QuotaEvidence.CoverTakesSamples` | src/codex_workbench/acceptance.py:637-647 | A covered span takes more samples than gaps fit into it. |
| `QuotaEvidence.NeverRises` | src/codex_workbench/acceptance.py:630-634 | Without a NaN between, no later value exceeds an earlier one. |
| `QuotaEvidence.NaNHides` | src/codex_workbench/acceptance.py:553-557 | The check by itself does not see a value below the reserve behind a NaN; it relies on the ledger not to hold one. |
| `Amendment.ClientTscIndex` | src/codex_workbench/acceptance_amendment.py:310-350 | The search loop with its early refusals finds the specified index. |
| `Amendment.ClientIndexMeans` | src/codex_workbench/acceptance_amendment.py:310-350 | An index is found if and only if there is one build, the fixed Client one, and no Host prerequisite. |
| `Amendment.PlanInserts` | src/codex_workbench/acceptance_amendment.py:402-432 | A plan keeps all else of the contract and all commands, and puts the two Host commands right before the Client build. |
| `Amendment.PlanOnce` | src/codex_workbench/acceptance_amendment.py:310-350 | No plan is made for an amended contract. |
| `Amendment.StepKeeps` | src/codex_workbench/acceptance_amendment.py:550-594 | Each access of each request leaves the commands alone, or commits: then it is no dry run, its expectations and fingerprint match the binding and plan as they stand, the contract becomes the plan, the revision rises by one and one event is added. |
| `Amendment.AtMostOneCommit` | src/codex_workbench/acceptance_amendment.py:527-602 | Over every interleaving of requests and outside changes at most one request commits. |
| `RadarStore.Registry.PersistDatabase` | src/codex_radar_provider/provider.py:1448-1555 | One transaction stores the snapshot and makes it active, or nothing changes. |
| `RadarStore.Registry.Active` | src/codex_radar_provider/provider.py:1157-1174 | Over every tape of read and write faults: with an active snapshot read from the database the database is left alone; else, and also when the read fails, the projected one is adopted if it can be written; what comes back and what is stored are exact. |
| `RadarStore.Registry.Project` | src/codex_radar_provider/provider.py:1561-1576 | Three writes in this order, of which any number may have happened when it is cut. |
| `RadarStore.ProjectedInOrder` | src/codex_radar_provider/provider.py:1561-1576 | Cut anywhere, the files project a complete snapshot, the old or the new; after all three the new. |
| `RadarStore.Registry.Ingest` | src/codex_radar_provider/provider.py:1393-1446 | Over every tape of reads and writes the result and the database are exact. A failed ingestion leaves the database, or what looking made of it; once the database has committed, the new snapshot is what is observed, whatever the projection writes come to. |
| `RadarStore.IngestRegressesExactly` | src/codex_radar_provider/provider.py:1393-1446 | An ingestion replaces the active snapshot by an older one if and only if the first read fails, the snapshot that is then seen, if any, is not newer, and the write works. |
| `RadarStore.IngestKeeps` | src/codex_radar_provider/provider.py:1393-1446 | If no read fails, the snapshot committed is not older than the active one, and nothing else changes what is observed. |
| `RadarStore.OlderIsIngested` | src/codex_radar_provider/provider.py:1393-1446 | Such a run. |
| `RadarStore.IngestAll` | src/codex_radar_provider/provider.py:1393-1577 | Over any ingestions, processes and faults the commits are recorded in order and every stored snapshot is valid; if no read fails, the observed snapshot is the last one committed, and none is older than the one before it. |
| `RadarStore.AdoptedIsActive` | src/codex_radar_provider/provider.py:1462-1553 | The active pointer always names a stored valid snapshot. |
| `RadarStore.MigratedOnce` | src/codex_radar_provider/provider.py:1157-1174 | Looking twice is looking once. |
| `RadarStore.FilesDoNotMatter` | src/codex_radar_provider/provider.py:1170-1174 | Once the database has an active snapshot the projection is not looked at. |
| `RadarStore.RegressesExactly` | src/codex_radar_provider/provider.py:1157-1174 | One look replaces the active snapshot by an older one if and only if the first read fails, the next write works, and the projection has an older snapshot that can be adopted. |
| `RadarStore.FailedReadRegresses` | src/codex_radar_provider/provider.py:1170-1174 | Such a run. |

## Left out

- CodeAsHarness.CommitStagedFiles: the checks that a record or path is a plain file, the temporary file of a record, and the phases, which recovery does not read.
- Archify.InstallStaged: staging, symlink and permission checks are preconditions; the marker of ownership is one entry of the tree; a tree is the list of its entries in the order of their removal, the same at every removal.
- Bridge.Bridge.ForwardReadOnly: the cursor put into event reads and the filtering of their replies; `RecordEvents` models what is remembered.
- Bridge.Bridge.Run: threads and queues of the child transport, backoff times, diagnostics, and responses the host sends; the initialize answer is handed on without the `listChanged` flag put into it.
- EventReplay.EventState.RecordEvents: the write of the state file at its end, which `Persist` models.
- RepairGraph.AssertAcyclic: Python's recursion limit.
- SnapshotRollback.Transaction.Rollback: input and output errors other than a file in the way, SQLite snapshots, directory modes and times, and a created directory replaced by a link to another one.
- SnapshotRollback.PreservedAppReturns: application, backup and entries are taken to be apart, as the installer lays them out.
- TimeoutTable.UpdateReads: TOML beyond the lines the patterns look at, such as a setting inside a multi-line string.
- PolicyBlock.LastUpdateWins: a block whose body contains a marker line.
- LoginLimiter.RunKept: rounding of clock values, and the lock around the table.
- VendorFraming.StreamIdentifiesTree: SHA-256 itself; path text is its UTF-8 bytes.
- QuotaEvidence.QuotaSamples: the texts that parse as a number or a time.
- Amendment.AtMostOneCommit: shell quoting and parsing, the JSON of contracts and events, and the fields of the binding, which are one value; digests stand for what they digest.
- RadarStore.Registry.Ingest: normalization and validation of payloads, the refresh interval, and raw files that do not parse.
- Subprocesses, launch services, SSH, HTTP serving, rendering, argument parsing, payload and receipt validation, the SQLite safe point of the macOS installer: no state of their own worth a proof, or locks outside the program.
- The store of tasks and worktrees, delivery and dependency inputs.
