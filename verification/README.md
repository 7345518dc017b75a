# Verified model of LogPilot

LogPilot collects container logs and Kubernetes events. A node agent reads log directories, transforms
the records, writes them to an output and remembers its position; agents share cluster policies through
a lease; a webhook injects log volumes into pods; an operator creates the components and cleans up
behind a finalizer. This project models those parts in Dafny and proves what they guarantee over every
input and every run. `dafny verify dfyconfig.toml` checks all of it.

| file | models |
|---|---|
| `Basics.dfy` | optional values, two sequence facts |
| `Lines.dfy` | cutting bytes into records, and what "the non-empty lines" of a file are |
| `Listing.dfy` | listing a directory, oldest file first |
| `DirReader.dfy` | the directory reader's steps over one directory snapshot; termination of a batch |
| `DirStream.dfy` | the record stream of the reader over any sequence of batches |
| `DirRestart.dfy` | commit, pruning, load: restarting is invisible |
| `DirGrowth.dfy` | a file that grows while it is read |
| `DirRotation.dfy` | a file renamed, replaced or truncated, while the agent runs or while it is down |
| `DirSwitch.dfy` | what is appended to a file after the reader has left it |
| `DirInput.dfy` | the reader as the mutable object, method by method |
| `Transforms.dfy` | json, label and drop, in place on a batch |
| `Runner.dfy` | the pipeline: main loop, retries, drain, cleaning |
| `AtLeastOnce.dfy` | main loop and reader together under crashes and failing commits |
| `Lease.dfy` | the cluster-policy lease, any number of agents, skewed clocks |
| `Registry.dfy`, `Watcher.dfy` | the runner registry as functions, and the object that maintains it |
| `EventWatch.dfy`, `EventQueue.dfy` | the event input's list/watch protocol, its queue and lag counter |
| `Finalizer.dfy` | the operator's reconcile loop with users, crashes and a lagging cache |
| `Injector.dfy`, `LogPaths.dfy` | the webhook's pod mutation; agreement of its paths with the agent's |
| `DnsName.dfy` | lease names as DNS labels |

Code that changes state step by step is a class or a method with loops, proved equal to a function of
its old state; the theorems are lemmas about those functions. Protocols are state machines: a run is a
sequence of steps, a step that does not fit the state does nothing, and a theorem speaks about the state
after every such sequence.

What the environment decides is a parameter: the directory snapshot; when a deadline or a context ends
(`cut`, `stop`, `expireAt`); what reads return and whether writes are taken (`read`, `accepts`); clocks
(within `skew` of true time); API replies; whether a state file could be written; JSON decoding and
encoding, label selectors and Unicode lower-casing (functions).

## Where the code does less than one might expect

Each of these is proved, most with the exact condition under which the code does meet the expectation.

- A file renamed away while it is read loses its unread tail if another file is left to go on with. If none
  is, because the rename is seen before the new file exists, the reader forgets its place and starts over at
  the oldest file, which it has usually read already (`DirRotation.RotationTurn`, `DirRotation.RotationExact`,
  and `DirRotation.ReadTwice` for a run that reads a line twice).
- A file truncated in place is marked done under its own inode, so its new content is not read unless the
  reader has to start over at it (`DirRotation.TruncatedInPlace`).
- A file replaced while the agent is down is read from the saved offset on, or, if it is shorter than that,
  not at all: its inode is marked done unread. It is read from its first byte only if the offset was 0 or the
  reader has to start over at it (`DirRotation.ReplacedWhileDown`, `DirRotation.ReplacedStream`).
- A file renamed while the agent is down is read again from its first byte under its new name, because its
  inode is not in the state file (`DirRotation.VanishedWhileDown`, `DirRotation.RenamedWhileDown`).
- A reader at the end of a file moves on to another unread one and marks the first as done: what is appended
  to it later is read only if the reader starts over at it, so of two files written at the same time one loses
  everything after the first switch (`DirSwitch.LeftForGood`).
- A line comes out in pieces if a read starts inside it, unless that read takes only the line end
  (`DirGrowth.LinesWhole`).
- A reader told to start at the newest file still reads all older ones afterwards (`DirStream.NewestTheorem`).
- A shutdown can lose two batches for good, and the log files are deleted although the main loop gave up
  a batch: the comment above `shutdown` promises deletion only when all data was sent, the flag it uses
  covers the drain alone. When that happens is read off from what the input returns, what the output takes
  and when the contexts end (`Runner.LossBoundTight`, `Runner.CleanCondition`, `Runner.CleanAfterLoss`).
- An event input that resumes from a saved version skips the events up to the version its list returns
  (`EventWatch.ResumeLoses`). Namespaces share one version field: if it holds another namespace's version when
  this one connects again, a later version makes it skip events and an earlier one makes it repeat them
  (`EventWatch.SharedVersionExact`). A list enqueues its items only if the field was empty when the list read
  it, or the request expired: of two namespaces on a first start, the second loses its listed items if it
  reads the field after the first has stored its version (`EventWatch.ListEnqueues`,
  `EventWatch.TwoNamespaces`).
- A container with no mount of its own at a policy's path writes where the agent reads only if the first
  policy to claim the path has the same log type, and the deliveries, the variables and the log directory fit
  together: of two policies with one path the second stays empty (`LogPaths.PathsAgree`,
  `LogPaths.PathClaimedTwice`). With a mount of its own it does so only if source and sub-path lead there; an
  emptyDir that the pod declares never serves a bestEffort policy (`LogPaths.OwnMountExact`,
  `LogPaths.OwnEmptyDir`).
- A cluster policy first seen with an unknown input type is not started while it stays listed and its lease
  held, even if the type is corrected; it can be started once it was dropped (`Registry.ClusterRunExact`,
  `Registry.DroppedThenStarted`).
- A pod that was never fully accepted and that vanishes between two resyncs keeps the runners it had
  (`Registry.OrphanExact`, `Registry.OrphanLeft`).

## Model

| member | source | states |
|---|---|---|
| `Lines.ChunkLen` | internal/log-pilot-agent/input/dir.go:159-162 | one read returns the bytes through the next newline, or all that is left, and never an earlier newline |
| `Lines.RecordsAreLines` | internal/log-pilot-agent/input/dir.go:159-178 | reading chunk by chunk and stripping line ends emits exactly the non-empty lines: split at newlines, carriage returns stripped, empty ones dropped |
| `Lines.RecordsSplit` | internal/log-pilot-agent/input/dir.go:159-178 | cutting a stream after whole lines does not change its records |
| `Listing.ListFiles` | internal/log-pilot-agent/input/dir.go:324-363 | the listing holds every regular file that passes the filter once, oldest modification time first |
| `Listing.ListingUnique` | internal/log-pilot-agent/input/dir.go:354-356 | with distinct modification times the order does not depend on the sort |
| `DirReader.IterateShrinks` | internal/log-pilot-agent/input/dir.go:87-114 | every turn of the reading loop that goes on shrinks (files not done, how settled the reader is, bytes left), from any reader state, also at an offset past the end |
| `DirReader.ReadBatch` | internal/log-pilot-agent/input/dir.go:77-116 | a batch terminates for every deadline, also one that never comes; from any reader state; it holds at most `size` records and is full exactly when it has `size`; a reader on the file its path names stays so |
| `DirReader.BatchCut` | internal/log-pilot-agent/input/dir.go:87-95 | a batch has at most as many records as turns before its deadline, and is cut only at a turn that finds the deadline passed |
| `DirReader.NextChunk` | internal/log-pilot-agent/input/dir.go:159-178 | a read returns bytes exactly when the offset lies inside the file |
| `DirReader.ReadLine` | internal/log-pilot-agent/input/dir.go:141-178 | end of file is reported exactly when no byte was consumed |
| `DirStream.IdleMeansExhausted` | internal/log-pilot-agent/input/dir.go:106-113 | from any state, closed, open, or with the file rotated away: a batch neither filled nor cut leaves an open file read to its end and every other listed readable file done |
| `DirStream.AdvanceKeeps` | internal/log-pilot-agent/input/dir.go:236-280 | at the end of a file the reader moves to the first listed file not yet read, or finds none, and nothing due is dropped or repeated |
| `DirStream.OpenKeeps` | internal/log-pilot-agent/input/dir.go:182-232 | opening leaves the remaining stream as it was |
| `DirStream.IterateKeeps` | internal/log-pilot-agent/input/dir.go:97-113 | loop invariant: what a turn emits followed by what is left after it is what was left before it |
| `DirStream.BatchKeeps` | internal/log-pilot-agent/input/dir.go:77-116 | the same for a whole batch of any size with any deadline; after an uncut unfilled batch nothing is left |
| `DirStream.StreamTheorem` | internal/log-pilot-agent/input/dir.go:77-116 | for every sequence of batch sizes and deadlines a fresh reader has read a prefix of all non-empty lines of all listed files in listing order, and exactly all of them, each once, at the first uncut unfilled batch |
| `DirStream.StreamByTime` | internal/log-pilot-agent/input/dir.go:324-363 | with a listing by modification time of files of different ages, that is the lines of the oldest file, then of the oldest of the others, and so on, whatever the sort |
| `DirStream.NewestTheorem` | internal/log-pilot-agent/input/dir.go:194-200 | a reader starting at the newest file skips that file's present content and then yields exactly the lines of all older files |
| `DirRestart.PruneKeepsChoice` | internal/log-pilot-agent/input/dir.go:446-469 | pruning never changes which file `advanceFile` picks |
| `DirRestart.PruneExact` | internal/log-pilot-agent/input/dir.go:464-468 | pruning removes exactly the inodes that no file in the directory has, and keeps the offsets of the others |
| `DirRestart.RestartTransparent` | internal/log-pilot-agent/input/dir.go:399-441 | on an unchanging directory, for every reader state: commit with pruning, kill and load gives the same records for every later sequence of batches as never restarting |
| `DirRestart.ReloadRemaining` | internal/log-pilot-agent/input/dir.go:399-469 | reloading keeps the remaining stream |
| `DirGrowth.ChunksConserve` | internal/log-pilot-agent/input/dir.go:97-101 | over every interleaving of appends and reads the raw chunks concatenate to the file from the start offset to the current one, each holds a newline only at its end, rotation is never reported and the reader stays on the file |
| `DirGrowth.WholeLineWriter` | internal/log-pilot-agent/input/dir.go:159-178 | if the writer appends whole lines, the records are exactly the non-empty lines of the bytes passed over |
| `DirGrowth.PieceExact` | internal/log-pilot-agent/input/dir.go:159-178 | one more chunk keeps the records equal to the lines of the bytes passed over if and only if they were equal and the chunk does not continue a line, unless it holds only line ends |
| `DirGrowth.LinesWhole` | internal/log-pilot-agent/input/dir.go:159-178 | over every interleaving of appends and reads the records are the non-empty lines of the bytes passed over if and only if, judging by what the file held at the times of reading, no read starts inside a line except to take the rest of its end |
| `DirGrowth.PartialLineSplits` | internal/log-pilot-agent/input/dir.go:170-172 | a line read before it is finished becomes two records |
| `DirRotation.RotationTurn` | internal/log-pilot-agent/input/dir.go:149-157 | when the path is gone, names another inode or a shorter file, the reader goes on with every listed file not done except the old inode; if there is none it keeps no current file and starts over |
| `DirRotation.StartsOver` | internal/log-pilot-agent/input/dir.go:189-200 | without a current file and with every listed file done, the oldest file is due again from its first byte, or nothing if reading starts at the newest |
| `DirRotation.RotationExact` | internal/log-pilot-agent/input/dir.go:149-157 | after a rename or removal, whether or not a new file has the name yet, nothing is lost and nothing read again if and only if: there is a file to go on with, or none to start over at, and the old one was read to its last non-empty line; or the reader starts over at the old file of which nothing was emitted; or at another that holds just the lines left |
| `DirRotation.SuffixExact` | internal/log-pilot-agent/input/dir.go:159-178 | reading from an offset yields the same records as reading from the start if and only if what lies before yields none and no line is cut |
| `DirRotation.ReadTwice` | internal/log-pilot-agent/input/dir.go:189-200 | a run: a file is read to its end and renamed, the reader notices before a new file exists, and the next batch brings the line again |
| `DirRotation.BatchIsTurns` | internal/log-pilot-agent/input/dir.go:77-116 | a batch is a number of turns, so what holds after every number of turns holds in every sequence of batches |
| `DirRotation.RotatedRestart` | internal/log-pilot-agent/input/dir.go:149-157 | after a rotation a file that is done is read from its first byte again if and only if no file is left to go on with and it is the one to start over at |
| `DirRotation.TruncatedInPlace` | internal/log-pilot-agent/input/dir.go:297-299 | the new content of a file truncated in place is read from its first byte under just that condition |
| `DirRotation.UnreadIsRead` | internal/log-pilot-agent/input/dir.go:236-280 | every file that is listed, not done and not the current one is read from its first byte after finitely many turns |
| `DirRotation.ReusedInode` | internal/log-pilot-agent/input/dir.go:446-469 | a file that gets the inode of a finished and removed one is read from its first byte if a commit saw the directory without that inode, and never otherwise |
| `DirRotation.ReplacedWhileDown` | internal/log-pilot-agent/input/dir.go:33-37 | a file that took the saved name while the agent was down is read from its first byte if and only if the saved offset is 0, or past its end while nothing else is left and it is the one to start over at |
| `DirRotation.ReplacedStream` | internal/log-pilot-agent/input/dir.go:182-232 | for every saved offset, what the restarted reader emits: the lines behind the offset and the other files; if the file is shorter, the other files alone, or what starting over brings |
| `DirRotation.VanishedWhileDown` | internal/log-pilot-agent/input/dir.go:203-208 | if the saved path is gone, the reader goes on with every listed file not done, from its first byte, or starts over if there is none |
| `DirRotation.RenamedWhileDown` | internal/log-pilot-agent/input/dir.go:203-208 | a file renamed while the agent was down is read again from its first byte; what is emitted is what was due if and only if nothing of it had been emitted |
| `DirRotation.RunningNotices` | internal/log-pilot-agent/input/dir.go:291-296 | a running reader reads the replacing file from its first byte, with all others not done |
| `DirSwitch.LeftForGood` | internal/log-pilot-agent/input/dir.go:257-268 | after the reader has left a file, over every sequence of turns, commits and restarts while the file stays listed and grows: bytes of it are read if and only if some turn starts over at it |
| `DirSwitch.LeftForGoodNewest` | internal/log-pilot-agent/input/dir.go:194-200 | a reader that starts at the newest file reads nothing more of the file before a turn starts over at it |
| `DirSwitch.AwayForGood` | internal/log-pilot-agent/input/dir.go:236-264 | up to the first turn that starts over at the file no turn takes bytes out of it |
| `DirInput.Input.constructor` | internal/log-pilot-agent/input/dir.go:63-75 | starts closed from the state file if there is one, else fresh |
| `DirInput.Input.UpdateLag` | internal/log-pilot-agent/input/dir.go:386-396 | the lag is the number of unread bytes of the open file, never negative |
| `DirInput.Input.OpenFile` | internal/log-pilot-agent/input/dir.go:182-232 | the new state and result are those of the specification; the lag is current after opening |
| `DirInput.Input.DetectRotation` | internal/log-pilot-agent/input/dir.go:285-301 | true exactly for a vanished path, another inode, or a file shorter than the offset |
| `DirInput.Input.MarkCurrentDone` | internal/log-pilot-agent/input/dir.go:303-310 | records the inode with its offset unless it is 0 |
| `DirInput.Input.StripLine` | internal/log-pilot-agent/input/dir.go:166-169 | the loop strips every trailing newline and carriage return |
| `DirInput.Input.ReadLine` | internal/log-pilot-agent/input/dir.go:141-178 | line, byte count, end of file and new state are those of the specification |
| `DirInput.Input.AdvanceFile` | internal/log-pilot-agent/input/dir.go:236-280 | the loop over the listing computes the specified state and result |
| `DirInput.Input.Turn` | internal/log-pilot-agent/input/dir.go:97-113 | one loop body is one turn of the specification |
| `DirInput.Input.ReadBatch` | internal/log-pilot-agent/input/dir.go:77-116 | records and state are those of the specification, a stopped reader does nothing, every record is counted, and the lag stays current |
| `DirInput.Input.PruneStaleInodes` | internal/log-pilot-agent/input/dir.go:446-469 | exactly the finished inodes still in the directory remain |
| `DirInput.Input.Commit` | internal/log-pilot-agent/input/dir.go:399-422 | prunes; the state file holds the pruned position, or what it held before when the write fails |
| `DirInput.Input.Close` | internal/log-pilot-agent/input/dir.go:125-135 | stops, commits and closes the file, keeping the position |
| `Transforms.OneMeans` | internal/log-pilot-agent/transform/drop.go:19-27 | a record disappears only through a drop whose key has the given value, a missing key counting as empty; otherwise exactly the transform's fields are added and the data is kept |
| `Transforms.SurvivorKeeps` | internal/log-pilot-agent/runner/runner.go:123-132 | through a whole chain the data of a record never changes and no field disappears |
| `Transforms.SurvivorExact` | internal/log-pilot-agent/runner/runner.go:123-132 | every transform is applied to a record, in order, each to what the one before made of it, until one drops it |
| `Transforms.WayExists` | internal/log-pilot-agent/runner/runner.go:123-132 | every record reaches the end of its way or a transform that drops it |
| `Transforms.DroppedExact` | internal/log-pilot-agent/runner/runner.go:123-132 | a record disappears if and only if some transform drops what the ones before it made of it |
| `Transforms.DropInPlace` | internal/log-pilot-agent/transform/drop.go:19-27 | refilling the front of the same array yields the order-preserving filter and never overwrites an unread record |
| `Transforms.MapInPlace` | internal/log-pilot-agent/transform/label.go:19-27 | label and json rewrite every record's fields in place as specified and touch nothing else |
| `Transforms.ApplyTransforms` | internal/log-pilot-agent/runner/runner.go:123-132 | the loop with its early exit leaves exactly what the whole chain leaves |
| `Transforms.ChainIsPerRecord` | internal/log-pilot-agent/runner/runner.go:123-132 | the chain keeps order and treats each record on its own |
| `Transforms.BatchingIrrelevant` | internal/log-pilot-agent/runner/runner.go:123-132 | however a stream is cut into batches, the concatenated results are the chain applied to the whole stream |
| `Runner.LossBound` | internal/log-pilot-agent/runner/runner.go:62-93 | over a whole run with its shutdown the acknowledged records are, in order, the transformed stream of everything read except at most one batch of the main loop and one of the drain, so at most 2 * batchLen records; also for an input that returns records after its context is done |
| `Runner.LossBoundTight` | internal/log-pilot-agent/runner/runner.go:134-182 | some run loses two full batches |
| `Runner.AllAccounted` | internal/log-pilot-agent/runner/runner.go:62-91 | the outcomes of a run are, in order, those of all non-empty batches that the input returned to the main loop before the stop and to the drain before it ended |
| `Runner.CleanCondition` | internal/log-pilot-agent/runner/runner.go:154-198 | files are deleted if and only if the drain reads the end of the input before its context expires; nothing at all is lost if and only if no batch was being refused at the stop and none at the expiry, each read off from the environment; so a loss before a deletion means just that the stop found the main loop in a refused write |
| `Runner.DrainStartUnique` | internal/log-pilot-agent/runner/runner.go:62-91 | the environment determines when the drain begins |
| `Runner.Passes` | internal/log-pilot-agent/runner/runner.go:62-91 | the times at which a loop reads form one chain |
| `Runner.CleanAfterLoss` | internal/log-pilot-agent/runner/runner.go:154-198 | a run that deletes the files although a batch was lost |
| `Runner.Write` | internal/log-pilot-agent/runner/runner.go:134-152 | a batch is given up only once its context is done, and reported written only if the output took it after refusing every earlier attempt |
| `Runner.OneRound` | internal/log-pilot-agent/runner/runner.go:66-90 | a round processes exactly the batch that was read, and calls it filtered only if the chain leaves nothing of it |
| `Runner.Backoff` | internal/log-pilot-agent/runner/runner.go:138-150 | delays are 0.2, 0.4, 0.8, 1.6, 3.2 or 6.4 seconds |
| `Runner.Pipeline.constructor` | internal/log-pilot-agent/runner/runner.go:37-42 | a new runner has empty histories |
| `Runner.Pipeline.Stop` | internal/log-pilot-agent/runner/runner.go:112-121 | a stop before the run is remembered |
| `Runner.Pipeline.WriteBatch` | internal/log-pilot-agent/runner/runner.go:134-152 | retries until taken or the context is done; the output grows by the batch exactly on success; the i-th wait is the i-th backoff |
| `Runner.Pipeline.DoRound` | internal/log-pilot-agent/runner/runner.go:66-90 | one round is the specified one, the logs grow by its outcome, and the input is committed exactly after an acknowledged batch |
| `Runner.Pipeline.RunLoop` | internal/log-pilot-agent/runner/runner.go:62-91 | the main loop is the specified phase and logs its outcomes |
| `Runner.Pipeline.Shutdown` | internal/log-pilot-agent/runner/runner.go:156-199 | the drain is the specified phase; the committed position ends behind every batch read, lost or not; files are deleted exactly if the drain succeeded |
| `Runner.Pipeline.Run` | internal/log-pilot-agent/runner/runner.go:46-93 | batches read, records acknowledged, `sent` as their number, commit and cleaning are those of the specified run; a stop before the run leaves only the drain |
| `AtLeastOnce.AtLeastOnceTheorem` | internal/log-pilot-agent/runner/runner.go:62-91 | for every interleaving of reads, writes, commits that succeed or silently fail, and crashes with restart: every surviving record up to the furthest position processed is acknowledged, the output is the transformed records in acknowledgement order, and a record acknowledged twice was so in different lives of the process and lies behind the position its later life restarted from |
| `AtLeastOnce.SavedIsLastCommit` | internal/log-pilot-agent/input/dir.go:399-422 | over every run the state file holds what the last commit that could be written saved, at the position the reader then had, or what the agent was first started with |
| `AtLeastOnce.LifeBegins` | internal/log-pilot-agent/input/dir.go:424-441 | every life but the first begins with a crash, at the position saved then |
| `AtLeastOnce.CrashReturns` | internal/log-pilot-agent/input/dir.go:424-441 | a crash puts the agent back to the last commit |
| `AtLeastOnce.RepeatsBehindCommit` | internal/log-pilot-agent/runner/runner.go:62-91 | a record acknowledged again in a later life lies behind the last position committed before that life began |
| `AtLeastOnce.RoundCommits` | internal/log-pilot-agent/runner/runner.go:66-90 | an undisturbed round moves the state file up to what was read if and only if some record of the batch survives the transforms |
| `AtLeastOnce.CommitForgets` | internal/log-pilot-agent/input/dir.go:446-469 | a commit forgets exactly the inodes that are gone, also when the state file cannot be written |
| `AtLeastOnce.NextKeeps` | internal/log-pilot-agent/runner/runner.go:66-90 | each step keeps reader, state file, batch, acknowledgements and output consistent with one position in the stream |
| `AtLeastOnce.FreshStream` | internal/log-pilot-agent/input/dir.go:424-441 | without a state file that stream is every non-empty line of every file, oldest first |
| `Lease.LeaseExclusion` | internal/log-pilot-agent/watcher/watcher.go:447-510 | over every interleaving of any number of agents with clocks within `skew` of true time: of two successful writes by different agents the later one's expiry check comes more than 30 s - 2 * skew after the earlier one's clock reading |
| `Lease.SharedClock` | internal/log-pilot-agent/watcher/watcher.go:447-510 | with a shared clock no other agent writes the lease until more than 30 s after the stored renew time |
| `Lease.AcquireTimeKept` | internal/log-pilot-agent/watcher/watcher.go:493-499 | renewing and taking over keep the acquire time once set |
| `Lease.Acquire` | internal/log-pilot-agent/watcher/watcher.go:447-510 | an acquisition returns true exactly when one of its at most three attempts wrote the lease, all attempts before it having lost a race |
| `Lease.AttemptExact` | internal/log-pilot-agent/watcher/watcher.go:459-505 | an attempt gives up if and only if the get failed or the lease found is another agent's and has not expired; otherwise it sends its own name and clock reading, the version found, and the acquire time found or its clock reading |
| `Lease.TakenExact` | internal/log-pilot-agent/watcher/watcher.go:457-507 | an attempt during which nobody else writes between its fetch and its write takes or renews the lease if and only if no other agent held it unexpired at the check |
| `Lease.Succession` | internal/log-pilot-agent/watcher/watcher.go:486-501 | once 30 s and two clock errors have passed without a write, any agent that makes an undisturbed attempt gets the lease |
| `Registry.KeyInjective` | internal/log-pilot-agent/watcher/watcher.go:304-306 | runner keys are injective for uids and container names without '/' |
| `Registry.PodKeyPrefix` | internal/log-pilot-agent/watcher/watcher.go:261-266 | the prefix test selects exactly the keys of that pod |
| `Registry.RegistryTheorem` | internal/log-pilot-agent/watcher/watcher.go:122-194 | over every sequence of pod events, resyncs and cluster passes: a pod in `seen` has a runner for every container policy it was accepted with, and registered cluster runners are among the cluster policies seen |
| `Registry.AddRunnersExact` | internal/log-pilot-agent/watcher/watcher.go:197-254 | looking at a pod goes through all its policies and registers exactly the runners that exist or can be made; it succeeds if and only if all are there |
| `Registry.SeePodExact` | internal/log-pilot-agent/watcher/watcher.go:177-182 | after an event a runner of its pod is registered if and only if it was, or the pod was not accepted and the runner can be made; the pod is accepted if and only if it was, its annotation does not parse, or all its runners are there |
| `Registry.ResyncExact` | internal/log-pilot-agent/watcher/watcher.go:122-150 | the same for every pod listed by a resync |
| `Registry.FirstResync` | internal/log-pilot-agent/watcher/watcher.go:122-150 | after a restart of the agent every pod on the node has the runners that can be made |
| `Registry.DeleteExact` | internal/log-pilot-agent/watcher/watcher.go:257-270 | deleting a pod removes exactly that pod's runners |
| `Registry.ClusterRunnersHeld` | internal/log-pilot-agent/watcher/watcher.go:348-379 | after a pass each cluster runner belongs to a listed policy whose lease was acquired in that pass |
| `Registry.ClusterPassExact` | internal/log-pilot-agent/watcher/watcher.go:348-445 | a listed policy runs after the pass if and only if its lease was acquired and it either ran before, or was not seen before, has a known type and could be built; it counts as seen also with an unknown type |
| `Registry.ClusterRunExact` | internal/log-pilot-agent/watcher/watcher.go:348-445 | over every run a policy has a runner if and only if, of the passes since it was last unlisted or its lease not held, the first that found an unknown type or could build the runner found a known type |
| `Registry.DroppedThenStarted` | internal/log-pilot-agent/watcher/watcher.go:387-390 | a policy settled with an unknown type is not started by a pass that sees it corrected, but is by such a pass after it was dropped |
| `Registry.OrphanExact` | internal/log-pilot-agent/watcher/watcher.go:122-150 | when nothing more is heard of a pod, a runner of it remains after a resync if and only if it was there and the pod never accepted, and then for good |
| `Registry.OrphanLeft` | internal/log-pilot-agent/watcher/watcher.go:122-150 | a run that leaves a runner of a vanished pod behind |
| `Watcher.Agent.constructor` | internal/log-pilot-agent/watcher/watcher.go:61-69 | a new watcher has no runners and has seen nothing |
| `Watcher.Agent.OnPodAdd` | internal/log-pilot-agent/watcher/watcher.go:197-254 | registers a runner for each container policy that has none and could be built; true exactly when all are there |
| `Watcher.Agent.OnPodEvent` | internal/log-pilot-agent/watcher/watcher.go:177-182 | only a pod not yet accepted is looked at, and it is accepted when all its runners are ready |
| `Watcher.Agent.OnPodDeleted` | internal/log-pilot-agent/watcher/watcher.go:257-270 | collecting and deleting removes the keys with the pod's prefix and no others |
| `Watcher.Agent.OnDeleteEvent` | internal/log-pilot-agent/watcher/watcher.go:183-185 | the pod and its runners are gone |
| `Watcher.Agent.SyncPods` | internal/log-pilot-agent/watcher/watcher.go:122-150 | listed pods are looked at, pods that disappeared are dropped with their runners; a failed list changes nothing |
| `Watcher.Agent.StopRunner` | internal/log-pilot-agent/watcher/watcher.go:532-548 | removes that runner only |
| `Watcher.Agent.StartClusterPolicyRunner` | internal/log-pilot-agent/watcher/watcher.go:381-445 | registers a runner exactly for a known type without one that could be built; reports success also for unknown types and existing runners |
| `Watcher.Agent.ReconcileOne` | internal/log-pilot-agent/watcher/watcher.go:354-370 | one listed policy is handled as specified |
| `Watcher.Agent.ReconcileClusterPolicies` | internal/log-pilot-agent/watcher/watcher.go:348-379 | a pass leaves the specified registry; a failed list changes nothing |
| `EventWatch.After` | internal/log-pilot-agent/input/k8sevent.go:118-120 | a watch from a version starts at the first later event of the log |
| `EventWatch.WatchTheorem` | internal/log-pilot-agent/input/k8sevent.go:76-172 | over every run with failures, disconnects, expiries, relists and other namespaces storing and clearing the shared version at any time: the queue received, epoch by epoch, the items of a list, or of the state the server sends to a watch without a version, and then exactly the non-deletion events after the version the epoch began at, each once and in log order |
| `EventWatch.WatchCatchesUp` | internal/log-pilot-agent/input/k8sevent.go:116-155 | a connection from a version brings, when all is received, exactly the non-deletion events after it |
| `EventWatch.FreshWatchCatchesUp` | internal/log-pilot-agent/input/k8sevent.go:116-155 | a connection without a version brings the server's state and then the non-deletion events after it |
| `EventWatch.FailedRelist` | internal/log-pilot-agent/input/k8sevent.go:121-125 | after an expiry the client lists, and if that fails watches again with whatever the field then holds |
| `EventWatch.FailedFirstList` | internal/log-pilot-agent/input/k8sevent.go:76-86 | a first list that fails is tried again |
| `EventWatch.NoExpiryTheorem` | internal/log-pilot-agent/input/k8sevent.go:76-172 | one namespace without expiry: everything enqueued is the listed items followed by exactly the non-deletion events after the list version up to the last version seen |
| `EventWatch.ResumeLoses` | internal/log-pilot-agent/input/k8sevent.go:90-114 | a start from a saved version loses nothing if and only if no non-deletion event lies between that version and the one the list returned |
| `EventWatch.ResumeLosesWitness` | internal/log-pilot-agent/input/k8sevent.go:104-107 | a run in which an event is skipped that way |
| `EventWatch.SharedVersionExact` | internal/log-pilot-agent/input/k8sevent.go:118-120 | over every run, connecting again with any version in the field, and every continuation without expiry or another store: exactly the non-deletion events after that version are enqueued, and once both versions are passed this is what was due if and only if no non-deletion event lies between it and the last one enqueued before |
| `EventWatch.LaterVersionLoses` | internal/log-pilot-agent/input/k8sevent.go:118-120 | a run that skips an event because of a later version |
| `EventWatch.EarlierVersionRepeats` | internal/log-pilot-agent/input/k8sevent.go:118-120 | a run that enqueues an event twice because of an earlier one |
| `EventWatch.ListEnqueues` | internal/log-pilot-agent/input/k8sevent.go:90-114 | over every run, the reply to a list has its items enqueued if and only if the field was empty when the list read it, or the request expired since |
| `EventWatch.FieldExact` | internal/log-pilot-agent/input/k8sevent.go:90-123 | over every run the field is empty if and only if since a start without a saved version, or since some namespace cleared it, no namespace has stored one |
| `EventWatch.TwoNamespaces` | internal/log-pilot-agent/input/k8sevent.go:90-113 | whether the second namespace's items are enqueued depends on whether it read the field before the first stored its version |
| `EventQueue.LagTheorem` | internal/log-pilot-agent/input/k8sevent.go:157-194 | in every reachable state lag = queue length - increments pending + decrements pending, between -(number of producers) and 1001, exact when nothing is pending; items are received once and in order |
| `EventQueue.ReadsEmpty` | internal/log-pilot-agent/input/k8sevent.go:174-194 | the reader empties the queue whatever the producers have still to count |
| `EventQueue.SendExact` | internal/log-pilot-agent/input/k8sevent.go:157-172 | a producer can send if and only if the queue is not full, and then queue and counter rise by one |
| `EventQueue.NewestReadExact` | internal/log-pilot-agent/input/k8sevent.go:183-186 | the version read is that of the last record that carries one, and unchanged if none does |
| `EventQueue.EventInput.constructor` | internal/log-pilot-agent/input/k8sevent.go:42-53 | starts empty, with the saved version if a path is configured |
| `EventQueue.EventInput.ReadBatch` | internal/log-pilot-agent/input/k8sevent.go:174-194 | takes a prefix of the queue, short of `size` only if the queue ran dry or the context was done; lag falls by its length; the read version is that of the last record carrying one |
| `EventQueue.EventInput.Commit` | internal/log-pilot-agent/input/k8sevent.go:196-215 | saves the version of the last record read, or of the last event seen if none was read; nothing without a path or a version; a failed write keeps the old file and is reported |
| `Finalizer.CleanupCoversCreation` | internal/log-pilot-operator/deploy.go:165-182 | cleanup deletes exactly the keys that a reconcile creates |
| `Finalizer.KeysExact` | internal/log-pilot-operator/deploy.go:165-182 | which managed objects there are, by kind |
| `Finalizer.SharedKeys` | internal/log-pilot-operator/deploy.go:165-182 | LogPilots in different namespaces share no managed object but the webhook |
| `Finalizer.FinalizerSafety` | internal/log-pilot-operator/logpilot_controller.go:59-130 | over every run with users, failing calls, crashes anywhere and a cache that lags: a managed object exists only while the stored LogPilot carries the finalizer |
| `Finalizer.UserKeeps` | internal/log-pilot-operator/logpilot_controller.go:59-130 | user steps at any point of a reconcile keep the invariant |
| `Finalizer.ControllerKeeps` | internal/log-pilot-operator/logpilot_controller.go:59-130 | every controller step, failed or not, keeps it |
| `Finalizer.CreateAll` | internal/log-pilot-operator/logpilot_controller.go:96-126 | the creating loop is a run of controller steps and leaves exactly the objects before the first failing call, all of them if no call fails |
| `Finalizer.CleanUp` | internal/log-pilot-operator/deploy.go:343-350 | the cleanup loop and the update after it are a run of controller steps: exactly the objects before the first failing call are deleted, and the finalizer is removed if and only if no call failed and the version read is still current |
| `Finalizer.DoReconcile` | internal/log-pilot-operator/logpilot_controller.go:59-130 | an uninterrupted reconcile is a run of controller steps; with no failing call it leaves all objects, or none and no finalizer, or for an unmarked LogPilot just the finalizer, each provided the version read is current; where there is nothing to do it does nothing |
| `Finalizer.Recover` | internal/log-pilot-operator/logpilot_controller.go:59-130 | from every reachable state, in the middle of whatever reconcile, a crash and at most two reconciles of the current version without failing calls settle everything |
| `Finalizer.AlwaysStorable` | internal/log-pilot-operator/logpilot_controller.go:66-76 | in every run a LogPilot being deleted is stored only while it carries some finalizer |
| `Finalizer.LifeCycle` | internal/log-pilot-operator/logpilot_controller.go:59-130 | a LogPilot that is created gets its finalizer and all objects, and goes with all of them when it is deleted |
| `Finalizer.Heal` | internal/log-pilot-operator/logpilot_controller.go:96-126 | a managed object that someone deletes is created again |
| `Finalizer.HeldByOthers` | internal/log-pilot-operator/logpilot_controller.go:66-76 | a LogPilot held by others' finalizers outlives our cleanup without ours, and goes when they let go |
| `Injector.InjectIdempotent` | internal/log-pilot-api/injector.go:34-71 | injecting twice equals injecting once |
| `Injector.ContainerConserves` | internal/log-pilot-api/injector.go:73-120 | existing variables and mounts stay as prefixes; additions repeat no name and no mount path and use the log volume; every path of a policy for the container other than "-" is mounted; a container without a policy is unchanged |
| `Injector.InjectConserves` | internal/log-pilot-api/injector.go:34-71 | a pod that no policy matches is unchanged; otherwise every container is injected, existing volumes stay as a prefix, the volume that every added mount names is declared, and of the annotations only the policy annotation changes, holding the encoded policies |
| `Injector.InjectEnvVars` | internal/log-pilot-api/injector.go:73-83 | the loop with its `existing` map adds the variables that are missing |
| `Injector.InjectVolumeMounts` | internal/log-pilot-api/injector.go:104-120 | the loop adds a mount for every new path |
| `Injector.MatchedPolicies` | internal/log-pilot-api/injector.go:47-52 | the container policies with the container's name, in order |
| `Injector.NamedExact` | internal/log-pilot-api/injector.go:47-52 | each container policy with the container's name is kept at its place, each other left out |
| `Injector.CollectExact` | internal/log-pilot-api/injector.go:35-40 | each matching policy contributes its container policies at its place, each other nothing |
| `Injector.Pod.EnsureLogVolume` | internal/log-pilot-api/injector.go:134-154 | adds the log volume unless present: an emptyDir exactly when all policies are bestEffort |
| `Injector.Pod.CollectPolicies` | internal/log-pilot-api/injector.go:35-40 | the container policies of all matching policies, in order |
| `Injector.Pod.InjectEach` | internal/log-pilot-api/injector.go:45-58 | every container is injected as specified |
| `Injector.Pod.InjectPod` | internal/log-pilot-api/injector.go:34-71 | the pod and the result are those of the specification, also when encoding fails |
| `LogPaths.ExpandGuaranteed` | internal/log-pilot-api/injector.go:125-130 | the sub-path expression expands to the path made of the three variables' values |
| `LogPaths.InjectedDownward` | internal/log-pilot-api/injector.go:73-102 | a container that does not define the three variables gets the pod's values |
| `LogPaths.MountAfter` | internal/log-pilot-api/injector.go:104-120 | after injection a path is mounted as before, or else for the first policy that claims it |
| `LogPaths.PathsAgree` | internal/log-pilot-agent/watcher/symlink.go:17-42 | for every policy of every injected container, it writes where the agent reads if and only if its own mount at the path leads there; or, without one, the first policy to claim the path has the same log type and, for a bestEffort policy, all of the pod's policies are bestEffort, and for a guaranteed one, the first is guaranteed and the container's directory is the same for both |
| `LogPaths.StdoutExact` | internal/log-pilot-agent/watcher/symlink.go:23-27 | for the path "-" the agent reads the kubelet's own directory for that container |
| `LogPaths.OwnMountExact` | internal/log-pilot-agent/watcher/symlink.go:30-40 | a mount of the container's own leads there if and only if: for an emptyDir and a bestEffort policy, it is the log volume with the policy's sub-path; otherwise its source begins the agent's path and its sub-path expands to the rest |
| `LogPaths.OwnEmptyDir` | internal/log-pilot-agent/watcher/symlink.go:30-36 | an emptyDir of the container's own with the policy's sub-path is not where the agent looks |
| `LogPaths.SameRootExact` | internal/log-pilot-agent/watcher/watcher.go:287-290 | that directory is the same if and only if the agent uses the default log directory and the three variables have the pod's values |
| `LogPaths.PathsAgreePlain` | internal/log-pilot-agent/watcher/symlink.go:17-42 | the same for a container that has no mount at the path and does not define the variables |
| `LogPaths.PathClaimedTwice` | internal/log-pilot-api/injector.go:109-112 | of two guaranteed policies of a container with one path, the second's log path is not where the container writes |
| `DnsName.NameIsLabel` | internal/log-pilot-agent/watcher/watcher.go:512-530 | for every input the name is a valid label: 1 to 63 lower-case letters, digits and hyphens, alphanumeric at both ends |
| `DnsName.LabelIsFixed` | internal/log-pilot-agent/watcher/watcher.go:512-530 | a valid label is its own name |
| `DnsName.NameExact` | internal/log-pilot-agent/watcher/watcher.go:512-530 | when some character is kept, the name is the sanitized text from its first to its last character that is not a hyphen, cut at 63 and back to the last such character |
| `DnsName.FallbackExact` | internal/log-pilot-agent/watcher/watcher.go:526-528 | when none is, the name is the fallback |
| `DnsName.NameIdempotent` | internal/log-pilot-agent/watcher/watcher.go:512-530 | naming twice equals naming once |
| `DnsName.Build` | internal/log-pilot-agent/watcher/watcher.go:512-530 | the builder loop computes that name |

## Left out

- A directory that changes inside one `ReadBatch`; changes between reads are modelled for a growing file and for a rename.
- Read errors other than end of file, and files of inode 0 that change under the reader.
- Symbolic links in a log directory: `Stat` follows them and the directory entry does not.
- A truncated file that has grown past the old offset again: neither the code nor the model can tell.
- A runner without an output, and partial delivery of a batch that the output rejects.
- The goroutines behind the registry: starting, stopping, waiting, status updates and log path removal.
- An old lease holder's runner between losing the lease and its next pass: the theorem is about lease writes.
- Truncation of the stored renew time to microseconds: it is part of the clock error.
- Deletion or editing of the lease by anyone but the agents.
- Items that a watch without a version did not deliver before it was cut: the next connection begins at the version of the last one delivered, and the theorem counts what was delivered.
- Ordinary sub-paths of a container's own mounts: one is a sub-path expression without references.
- Two LogPilots sharing the cluster-scoped webhook object, and caches that go back in time after a restart.
- Contents of the managed Kubernetes objects; only their keys matter to the finalizer.
- Aliasing of metadata maps between records: no input shares them.
- The file-tail and object-state inputs: the reading is done by a library in the one, and the other copies object fields and queues them as the event input does.
- The outputs: an output is the answer to each write; its network and file access stay out.
- The clean strategies, the status server, the factories, policy validation and command-line entry points: they delete, report, or build from configuration and keep no state across calls.
- Log types that contain '$' or '/', and volume names that contain '/', in the agreement of paths: the first would be expanded by the kubelet, the second moves the boundary between the path segments.
