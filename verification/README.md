# procnet: a verified model of the accounting pipeline

procnet shows how much network traffic each process causes. BPF programs count bytes per process in a
per-CPU map; the daemon `procnetd` reads the map once a tick, reports what changed, and broadcasts
snapshots over a Unix socket; the client decodes them and shows a sorted, scrollable table. This
project models that path from the probe to the screen and proves what each stage promises and what
the stages promise together.

`dafny verify dfyconfig.toml` checks the whole project.

| part | modules |
|---|---|
| Kernel: probes, maps, interleavings | `Kernel` (step machine and history), `KernelProofs` (invariant), `KernelTheorems` (what every log says), `KernelProgress` (the log against the schedule), `Probes` (the programs as code, under any schedule) |
| Collector: merge, deltas, deaths | `Merge`, `Collector` (the class), `CollectorRuns` (all runs) |
| Kernel and collector together | `Watch` (the daemon hears of every process), `EndToEnd` (and reports its bytes) |
| Wire: bincode layout, frames, reading | `Codec`, `Layout`, `Framing`, `Reader` |
| Daemon: clock, connections, fan-out | `Daemon`, `Handover`, `Cuts` (where a replaced reader starts), `Broadcast` (the fan-out machine), `Server` (its code), `Delivery` |
| The whole daemon | `Service` (one run of everything in it), `App` (the loop as code, under any schedule), `AppRuns` (its run against the schedule) |
| From the probe to the client | `Pipeline` |
| Client: table and cursor | `View`, `Cursor`, `Tui` |
| Vocabulary | `Words`, `Names`, `StatsTypes` |

The main results:

1. `Pipeline.ClientAddsUp`: kernel, daemon and clients in one run, following one process through one
   lifetime of its map entry. The deltas a client decodes, if no snapshot since the baseline was last
   zeroed is missing, add up to the bytes the kernel credited, exactly when these fit in 64 bits, and
   never to more. `Pipeline.DecodedRowsShowCredits`: whatever was dropped, each decoded row shows the
   credits its collect copied, and the addresses that came with them.
2. `EndToEnd.ReportedEqualsCredited`: the same up to the collector, for every interleaving of kernel
   steps on any CPUs with ticks, start events and resets. The lookup may copy the slots one by one
   while the kernel keeps counting.
3. `KernelProgress.EveryByteIsSettled`, `KernelProgress.EveryByteIsAdded`, `KernelTheorems.LossHasReason`,
   `Probes.RunSchedule`: under every race of senders, exits, evictions and a full map, the bytes that a
   thread's calls moved, counted from the schedule, are those added to a slot, those lost and those of the
   call in progress. Once the thread has had four turns none is in progress, and none was lost unless its
   insert was refused, 512 other processes had an entry, or its leader exited in between.
   `KernelProgress.CallAloneIsCredited`: a call that runs undisturbed leaves exactly its bytes and its
   address in one slot, from whatever a run has led to.
4. `KernelTheorems.SlotAddrIsCaptured`, `CreditUsesOwnCapture`, `CapturesConsumedOnce`,
   `StartEventsPerLifetime`: probe pairing under arbitrary eviction, down to the address stored in a
   slot, and one start event in the ring per entry lifetime.
5. `Collector.StatsCollector.CollectRows`, `CollectorRuns.HistoryExact`, `CollectorRuns.ScanDetermined`:
   the scan that removes with `swap_remove` is a filter, and over all runs the collector's state, down
   to which deaths are remembered in which order, is determined by its events and the map's answers:
   the dead list is, index by index, the newest twenty deaths.
6. `App.RunDaemon`, `AppRuns.JobsAreDone`, `AppRuns.StoppedAt`, `Service.PublishedIsCurrent`: the daemon's
   code under any schedule is a run of `Service` in which every job of the schedule has had its effect, up
   to the one job that stopped it, if any, and every snapshot says how things stand.
   `Service.DecodedTicksIncrease`: what a client decodes from any prefix of its bytes is an in-order part
   of what was published since it registered, with ticks that increase between resets.
   `Delivery.KeptUpDecodesAll`: from any moment of any run, once its writer is let run, it decodes every
   snapshot that found room in its queue, and all since it registered if none was dropped.
7. `Cuts.ConnectionExact`: the exact condition under which replacing the first reader of a connection
   invents no command and no panic, for exactly the points at which its read-ahead can have ended.
   `Cuts.ConnectionMeans`: what is then applied, in terms of what was sent.
8. `Watch.EveryEntryIsHeardOf`: in every run of kernel and daemon, with collects that overlap with
   everything else, a process with a map entry is on the daemon's list, or its start event is in the
   ring, is about to go there, or was refused by it.
9. `View.ViewIsCanonical`, `View.TableShowsMatches`, `Cursor.LockOverRuns`, `Cursor.MoveThenRender`,
   `Cursor.MovesAddUp`: the table holds the rows whose name or written PID contains the filter's text and
   does not depend on their order, n moves go n rows, and the cursor follows its PID exactly as long as that
   stays in view.

## How the kernel is modelled

A thread runs one probe at a time. A step is one map operation, so the first lookup, the insert, the
second lookup and the start event of `account_bytes` interleave with every other thread's steps, with
process exits and with LRU evictions. These assumptions are built in: a lookup that hits and the
addition to this CPU's slot are one step; the daemon's copy of one CPU's 80-byte slot is one step too
(the slots of one entry are copied at different moments); an update of an address map stores the value
(it may be evicted at once); the ring, and the STATS map below its limit, may refuse at any time. Every
step that matters is logged, misses, refusals and evictions included, and bytes are counted from the log in
unbounded integers; the slots wrap at 2^64. The log itself is judged against the schedule: every event has its
cause there (`KernelProgress.EveryEventHasCause`), nothing that went wrong is in order without its reason
(`KernelTheorems.RunsAreOrdered`), and no byte that a call moved is missing from it.

`Kernel.Step` is a total function of the state and the action. `Probes.BpfMaps` writes the same programs
as code over shared maps, one method per stretch between two map operations. Each method keeps the
machine's invariant and takes exactly that step; `Probes.RunSchedule` runs them under an arbitrary
schedule and states what the maps conserve.

## Where code and documentation differ

- `docs/plan.md:10` calls PID reuse a display quirk of one tick. The end-to-end claim is therefore made
  per lifetime of a map entry, not per PID.
- A snapshot above 65535 bytes is not dropped: `write_msg` fails and the daemon's loop ends
  (`app.rs:70`). `Framing.FullMapNeverFits` shows that a full map with names of four bytes or more ends it.
- Replacing the first reader of a connection discards what it had read ahead (`server.rs:128-134`). If
  that ends on a frame boundary, a suffix of the commands sent is applied; if it ends inside a frame,
  nothing is applied, unless the bytes from there on spell a frame of their own, and then that is
  served as a command. An `Interval` can spell any command, and every command spells a `Run` when a
  `Run` follows it. `Cuts.HandoverExact` and `Cuts.ConnectionExact` state exactly when; a client that
  sends no `Interval` and no second `Run`, as the shipped one, is safe (`Cuts.NoIntervalNoMisread`).
  `Cuts.MisreadServed` is a connection on which an interval resets the daemon; on that of
  `Cuts.PhantomRunServed` the daemon goes down.
- The cursor does not stay put in the dead view when a PID occurs twice (`Cursor.RepeatedPidJumps`);
  `Cursor.MoveThenRender` states exactly when it does.

## Model

| member | source | states |
|---|---|---|
| `Pipeline.ClientAddsUp` | crates/procnet-core/src/stats.rs:218-267 | A client that decodes a snapshot and, without a gap, all those since the process's baseline was last zeroed sees deltas that add up to at most the bytes the kernel had credited when the slots were copied for it, and to exactly these if and only if they are below 2^64; these lie between all that was credited to the entry when that lookup began and when it ended |
| `Pipeline.DecodedRowsShowCredits` | crates/procnetd/src/app.rs:59-70 | Whatever frames were dropped: every decoded snapshot published since the process was heard of comes from a collect in its lifetime and has a row for it, whose cumulative counts are the credits that collect copied, wrapped per slot and capped once, and whose addresses are those of the last credits on the first CPU that has any |
| `Pipeline.SnapshotsExact` | crates/procnetd/src/app.rs:52-78 | The same of every published snapshot, in every run of kernel, daemon and clients |
| `EndToEnd.ReportedEqualsCredited` | crates/procnet-core/src/stats.rs:192-267 | After any collect in an entry's lifetime, for every counter: reported since the baseline was zeroed never exceeds the bytes credited to the copied slots, and equals them if and only if they are below 2^64; these lie between all bytes credited when the lookup began and when it ended |
| `EndToEnd.QuietCollectIsExact` | crates/procnetd/src/bpf/procnet.bpf.c:124-173 | When no kernel step falls inside the lookup, reported equals all bytes credited to the entry if and only if these are below 2^64 |
| `EndToEnd.StaysHonest` | crates/procnet-core/src/stats.rs:218-267 | The relation behind it, kept by every kernel step, start event, reset and collect: the stored baseline is the credits last seen, wrapped per slot and capped once |
| `EndToEnd.LookupShowsCredits` | crates/procnet-core/src/stats.rs:280-295 | Merging slots that were copied at different moments gives the bytes credited on each CPU at its moment, modulo 2^64 per slot, capped in sum |
| `EndToEnd.CopyIsBetween` | crates/procnet-core/src/stats.rs:283 | On every CPU the copied credits are at least those at the start of the lookup and at most those at its end |
| `EndToEnd.ReportStep` | crates/procnet-core/src/stats.rs:230-238 | A saturating delta between two wrapped and capped readings keeps a reported sum at or below the truth, and equal to it exactly while the truth is below 2^64 |
| `EndToEnd.RowShowsCredits` | crates/procnet-core/src/stats.rs:243-255 | A collect in the lifetime reports the process in a row, whose cumulative counts are the merged slots and whose addresses are those that the kernel stored with the last credits |
| `EndToEnd.LookupShowsAddr` | crates/procnet-core/src/stats.rs:275-277 | The address read is, in CPU order, the first of the addresses of the last credits on each CPU when its slot was copied |
| `EndToEnd.SeenIsBetween` | crates/procnet-core/src/stats.rs:283 | What a collect copied lies between all bytes credited to the entry when its lookup began and when it ended |
| `Watch.EveryEntryIsHeardOf` | crates/procnetd/src/app.rs:52-61 | In every run of programs and daemon in which the start events applied are those taken out of the ring: a process with a map entry is tracked, or its event is in the ring, about to be emitted, or was refused since the entry was created |
| `Watch.OnlyRefusalsHide` | crates/procnetd/src/app.rs:55-57 | Right after a drain, a live entry that no thread is about to announce is tracked unless the ring refused its event |
| `Watch.HeardTracks` | crates/procnetd/src/events.rs:44-48 | Applying a drained batch tracks exactly its processes besides those tracked before |
| `Watch.MissedIsAwaited` | crates/procnet-core/src/stats.rs:218-267 | A process that a collect did not find, and so forgets, but that has an entry when the collect is over, has its new event on the way or refused |
| `Watch.LifetimeBegins` | crates/procnetd/src/app.rs:55-57 | A drained event of a live entry is where a lifetime of `EndToEnd` begins, with the rest of the batch still to be applied |
| `KernelProofs.SlotsConserveBytes` | crates/procnetd/src/bpf/procnet.bpf.c:124-173 | In every run at most 512 entries, one slot per CPU, each slot holding exactly the bytes credited on its CPU since the entry was created, modulo 2^64 |
| `KernelProofs.SlotsHoldLastAddr` | crates/procnetd/src/bpf/procnet.bpf.c:131-141 | In every run each slot holds, per protocol, the address of the latest credit on its CPU since the entry was created, or the default if there was none |
| `KernelProofs.EntryHoldsEveryCredit` | crates/procnetd/src/bpf/procnet.bpf.c:144-173 | In every run the slots of a live entry add up to at most the bytes credited since its creation, and to exactly these if and only if no slot was credited 2^64 or more |
| `KernelProofs.CreditsAddUp` | crates/procnetd/src/bpf/procnet.bpf.c:150-170 | Counting credits call by call or CPU by CPU gives the same total: every credit is in exactly one slot |
| `KernelProofs.StepInv` | crates/procnetd/src/bpf/procnet.bpf.c:144-290 | Every step of every thread keeps the invariant that ties maps, slots, saved addresses and thread positions to the log |
| `KernelTheorems.RunsAreOrdered` | crates/procnetd/src/bpf/procnet.bpf.c:144-290 | In every run each logged event happened when it was allowed to: after its own thread's preceding step, with the entry present or absent as it requires, an unmatched exit only with no address outstanding, a failed insert only on a present entry, 512 entries or a refusal |
| `KernelTheorems.CallsSettleOnce` | crates/procnetd/src/bpf/procnet.bpf.c:144-173 | Per thread and counter: calls begun are calls settled plus the one in progress, and bytes asked for are bytes added plus bytes lost plus those in progress |
| `KernelTheorems.LossHasReason` | crates/procnetd/src/bpf/procnet.bpf.c:160-170 | Bytes are lost only after the call's own insert failed because the map refused, or because 512 other processes had an entry, or because the entry was there and its leader exited before the second lookup |
| `KernelTheorems.CreatedTwiceMeansExit` | crates/procnetd/src/bpf/procnet.bpf.c:160-167 | Racing first senders never both create an entry: between two creations for one tgid its group leader exited |
| `KernelTheorems.StartEventsPerLifetime` | crates/procnetd/src/bpf/procnet.bpf.c:156-167 | In every run the start events of a tgid, drained so far or still in the ring, plus those the ring refused plus those about to be emitted equal the creations of its entry |
| `KernelTheorems.RingIsQueue` | crates/procnetd/src/bpf/procnet.bpf.c:84-97 | In every run what was drained and what is in the ring are the announced events, tgid and command name, in order |
| `KernelTheorems.CreditUsesOwnCapture` | crates/procnetd/src/bpf/procnet.bpf.c:175-202 | What an exit probe credits or loses carries the address of the same thread's most recent entry probe for that call, and that call's return value in that call's counter and in no other |
| `KernelTheorems.SlotAddrIsCaptured` | crates/procnetd/src/bpf/procnet.bpf.c:124-142 | In every run the address stored in a slot is empty or came with a credit there, and if an exit probe's, it is what the same thread's most recent entry probe for that call captured |
| `KernelTheorems.CleanupCounts` | crates/procnetd/src/bpf/procnet.bpf.c:204-214 | Bytes cleaned up from a receive buffer are asked for as received TCP bytes and nothing else |
| `KernelTheorems.CapturesConsumedOnce` | crates/procnetd/src/bpf/procnet.bpf.c:217-273 | Under any evictions a capture is consumed at most once, and each consumption by a call that returned bytes accounts them exactly once, unless the thread is just about to |
| `KernelTheorems.UnmatchedExitCreditsNothing` | crates/procnetd/src/bpf/procnet.bpf.c:192-193 | An exit probe without a saved address changes no slot and asks for no bytes |
| `KernelProgress.EveryEventHasCause` | crates/procnetd/src/bpf/procnet.bpf.c:144-290 | In every run each logged event was logged by one action of the schedule, of the same thread, call, address and byte count, that can cause it |
| `KernelProgress.EveryByteIsSettled` | crates/procnetd/src/bpf/procnet.bpf.c:144-214 | In every run, per thread and counter: the bytes of its calls that returned with an address outstanding and of its buffer cleanups, counted from the schedule, are the bytes added plus the bytes lost plus those of the call in progress |
| `KernelProgress.FourTurnsSettle` | crates/procnetd/src/bpf/procnet.bpf.c:144-214 | Once a thread has had four turns without beginning a probe, whatever the others did, it is idle and all its bytes were added or lost |
| `KernelProgress.NothingLost` | crates/procnetd/src/bpf/procnet.bpf.c:160-170 | A thread whose inserts are not refused, whose leader does not exit and that never meets a full map loses nothing, in every interleaving |
| `KernelProgress.EveryByteIsAdded` | crates/procnetd/src/bpf/procnet.bpf.c:144-214 | So after its four turns every byte of its calls was added |
| `KernelProgress.CallAloneIsCredited` | crates/procnetd/src/bpf/procnet.bpf.c:144-202 | From any state that has one slot per CPU in every entry, as every run keeps it: a call that returns n > 0 bytes and runs undisturbed, with an entry or room for one, leaves this CPU's slot grown by n in its one counter with the address captured on entry, a new entry's start event in the ring, nothing else changed, and n more bytes credited |
| `KernelProgress.CleanupAloneIsCredited` | crates/procnetd/src/bpf/procnet.bpf.c:144-214 | The same for received TCP bytes |
| `KernelProgress.ExitTakesEntry` | crates/procnetd/src/bpf/procnet.bpf.c:275-290 | An idle leader's exit removes its process's entry and no other; another thread's exit removes none |
| `KernelProgress.DrainTakesAll` | crates/procnetd/src/app.rs:55-57 | A drain empties the ring, takes what was in it and leaves the entries alone |
| `Probes.RunSchedule` | crates/procnetd/src/bpf/procnet.bpf.c:144-290 | The programs under any schedule: every entry holds its credits and the last addresses, the ring and what was drained from it are the announcements and balance the creations, and every byte that a thread's calls moved in the schedule was added, lost or is in progress |
| `Probes.BpfMaps.Dispatch` | crates/procnetd/src/bpf/procnet.bpf.c:144-290 | Whatever comes next, on whatever thread and CPU, the maps keep the invariant and take the machine's step; a drain hands over what was in the ring |
| `Probes.BpfMaps.EntryProbe` | crates/procnetd/src/bpf/procnet.bpf.c:175-184 | Keeps the invariant and takes the machine's `Enter` step: the address is saved under the thread's id, and no other saved address changes |
| `Probes.BpfMaps.ExitProbe` | crates/procnetd/src/bpf/procnet.bpf.c:186-195 | Keeps the invariant and takes the machine's `Return` step: with a saved address the thread goes on with that address and the return value; without one nothing happens |
| `Probes.BpfMaps.ExitProbeDelete` | crates/procnetd/src/bpf/procnet.bpf.c:196-201 | Keeps the invariant and takes the step that deletes the saved address and, exactly if the call returned bytes, asks for these in the call's one counter |
| `Probes.BpfMaps.CleanupProbe` | crates/procnetd/src/bpf/procnet.bpf.c:204-214 | Keeps the invariant and takes the machine's `Cleanup` step: received TCP bytes are asked for exactly if there are any |
| `Probes.BpfMaps.UpdateStats` | crates/procnetd/src/bpf/procnet.bpf.c:124-142 | Changes one slot of one entry only: both counters of the protocol, wrapping, and its address |
| `Probes.BpfMaps.AccountLookup` | crates/procnetd/src/bpf/procnet.bpf.c:149-154 | Keeps the invariant and takes the first-lookup step of `account_bytes`: done if the entry is there, on to the insert if not |
| `Probes.BpfMaps.AccountInsert` | crates/procnetd/src/bpf/procnet.bpf.c:156-167 | Keeps the invariant and takes the insert step: a new entry if and only if there was none, fewer than 512 were there and the map did not refuse; otherwise nothing changes and the thread looks again |
| `Probes.BpfMaps.AccountLookupAgain` | crates/procnetd/src/bpf/procnet.bpf.c:169-173 | Keeps the invariant and takes the second-lookup step: the bytes are added if the entry is there by now, otherwise lost |
| `Probes.BpfMaps.EmitStartEvent` | crates/procnetd/src/bpf/procnet.bpf.c:84-97 | Keeps the invariant and takes the announcement step: one event with the process's id and name at the end of the ring, or none when it is full |
| `Probes.BpfMaps.ProcessExit` | crates/procnetd/src/bpf/procnet.bpf.c:275-290 | Keeps the invariant and takes the machine's `Exit` step: the group leader's exit removes the process's entry, any other thread's nothing |
| `Merge.MergeValues` | crates/procnet-core/src/stats.rs:280-295 | Folding with saturating additions gives, per counter, the true sum over readable records capped once, and per protocol the first non-default address |
| `Merge.MergeIgnoresCpuOrder` | crates/procnet-core/src/stats.rs:287-292 | The merged counters are the same for every order of the CPUs |
| `Merge.MergedAddrIsWhole` | crates/procnet-core/src/stats.rs:275-277 | The merged address is taken whole from the first record that has one, and is the default if and only if none has |
| `Layout.FromBytesExact` | crates/procnet-core/src/stats.rs:298-306 | A per-CPU value is read if and only if it has the record's 80 bytes, and is read as the record whose bytes it is |
| `Collector.LiveMap.Read` | crates/procnet-core/src/stats.rs:280-295 | Asks the changing map once for one PID and returns the merged answer |
| `Collector.StatsCollector.constructor` | crates/procnet-core/src/stats.rs:179-184 | Nothing tracked, nobody dead |
| `Collector.StatsCollector.Reset` | crates/procnet-core/src/stats.rs:192-199 | Every baseline is zeroed, names and order are kept, the dead list is emptied |
| `Collector.StatsCollector.ApplyEvent` | crates/procnet-core/src/stats.rs:201-216 | A tracked PID gets the new lower-case name and a zero baseline in place, an unknown one is appended; PIDs stay distinct |
| `Collector.StatsCollector.CollectRows` | crates/procnet-core/src/stats.rs:218-267 | Although removal moves the last process into the gap: every tracked PID is asked for exactly once, in the order that the answers dictate; those found and those not found partition the list as multisets, each in that order; row i is the growth of process i of the final list; the dead list is the newest 20, by index, of itself and the removed |
| `Collector.StatsCollector.Visit` | crates/procnet-core/src/stats.rs:223-266 | One turn of the loop takes one more answer into the scan, in place, and shortens length minus index |
| `Collector.ScanningSound` | crates/procnet-core/src/stats.rs:223-266 | Whatever the answers, a scan in progress has asked once for each process it visited, and has split those into kept and removed without loss |
| `Collector.TurnsAreOrder` | crates/procnet-core/src/stats.rs:257-259 | Its lookups follow the visiting order: the next index, or on a miss the process swapped in |
| `Collector.SwapRemoveAt` | crates/procnet-core/src/stats.rs:259 | Removal puts the last element in the gap and leaves every other where it is |
| `Collector.StatsCollector.PushDead` | crates/procnet-core/src/stats.rs:260-264 | The newcomer is last on the dead list; the oldest goes when there are more than 20, and the others stay in order |
| `CollectorRuns.HistoryExact` | crates/procnet-core/src/stats.rs:192-267 | Over every mix of events, collects and resets: live PIDs distinct; a PID is tracked exactly when its calls say so, with the name and totals they dictate; the dead list is, index by index, the newest 20 deaths since the last reset, the latest last, each collect's deaths being exactly the processes it stopped tracking, in the order it looked them up, each as last remembered |
| `CollectorRuns.RowsAreNamed` | crates/procnet-core/src/stats.rs:201-250 | In every run each reported row carries the name of its PID's last start event, in lower case |
| `CollectorRuns.DeathsAreNamed` | crates/procnet-core/src/stats.rs:201-264 | And so does every process that died, as of the collect of the run that missed it |
| `CollectorRuns.ScanDetermined` | crates/procnet-core/src/stats.rs:218-267 | What was tracked and what the map answered determine a collect: the order of its lookups, its rows, its list and its deaths in order |
| `CollectorRuns.CollectReports` | crates/procnet-core/src/stats.rs:226-255 | All that a collect reports for a found PID is its reading minus the remembered baseline, saturating |
| `CollectorRuns.BaselineIsLatest` | crates/procnet-core/src/stats.rs:240-241 | The remembered baseline is the latest reading since it was zeroed, or zero |
| `CollectorRuns.ReportedIsLatestPlusFalls` | crates/procnet-core/src/stats.rs:226-253 | For arbitrary readings the deltas sum to the latest reading plus the size of every fall |
| `CollectorRuns.ReportedSum` | crates/procnet-core/src/stats.rs:226-253 | So the sum is at least the latest reading, with equality if and only if no reading fell |
| `Layout.SnapshotExact` | crates/procnet-core/src/ipc.rs:54-60 | A snapshot decodes from its bytes followed by anything, leaving that, and whatever decodes is the encoding of what it decodes to; a name that is not UTF-8 is refused |
| `Names.LowerKeepsUtf8` | crates/procnet-core/src/stats.rs:202 | Lower-casing ASCII in place keeps a name UTF-8 |
| `Names.LowerMeans` | crates/procnet-core/src/stats.rs:202 | The 26 capital letters become the small letters of the same place, and no other byte changes |
| `Names.Utf8Exact` | crates/procnet-core/src/ipc.rs:54-60 | The bytes accepted as a name are exactly the UTF-8 encodings of sequences of Unicode scalar values |
| `Layout.CommandExact` | crates/procnet-core/src/ipc.rs:40-51 | The same for commands: a `u32` variant number, then the fields; other numbers are refused |
| `Layout.CommandLayout` | crates/procnet-core/src/ipc.rs:40-51 | Each command's bytes written out |
| `Layout.SnapshotLayout` | crates/procnet-core/src/ipc.rs:54-70 | The snapshot's bytes written out: interval, tick, row count and rows, dead count and dead |
| `Layout.RowLayout` | crates/procnet-core/src/stats.rs:113-121 | A row's bytes written out, 124 plus the name |
| `Layout.InfoLayout` | crates/procnet-core/src/stats.rs:90-96 | A dead process's bytes written out, 44 plus the name |
| `Layout.RecordLayout` | crates/procnetd/src/bpf/procnet.bpf.c:46-49 | A kernel record's bytes written out, 80 in all |
| `Codec.LittleEndian` | crates/procnet-core/src/ipc.rs:73-83 | The bytes of a 16-, 32- and 64-bit word, the lowest first |
| `Codec.EncAllAppend` | crates/procnet-core/src/ipc.rs:54-70 | The elements of a vector are encoded one after another, first to last |
| `Framing.WriteMsg` | crates/procnet-core/src/ipc.rs:73-83 | The buffer ends up holding one frame whatever it held before, if and only if the payload is at most 65535 bytes; otherwise `Oversized`, with the prefix left zero |
| `Framing.FrameLayout` | crates/procnet-core/src/ipc.rs:73-83 | A frame is the payload's length in two bytes, the low one first, and the payload |
| `Framing.SnapshotFits` | crates/procnet-core/src/ipc.rs:54-83 | A snapshot is accepted if and only if 32 + (124 + name) per row + (44 + name) per dead process is at most 65535 |
| `Framing.FullMapNeverFits` | crates/procnet-core/src/ipc.rs:79 | 512 rows with names of four bytes or more are always refused |
| `Framing.SmallEnoughFits` | crates/procnet-core/src/ipc.rs:79 | With names of at most n bytes, a count of rows and dead processes that always fits |
| `Framing.CutStream` | crates/procnet-core/src/ipc.rs:85-110 | Cutting a stream of frames at any byte gives exactly the messages whose frames lie wholly before the cut, then end of input |
| `Framing.StreamRoundTrip` | crates/procnet-core/src/ipc.rs:73-110 | The frames of any list of messages that fit read back as that list, then end of input |
| `Framing.WholeFramesExact` | crates/procnet-core/src/ipc.rs:90-95 | The number of messages in a cut stream is the number of frames that end at or before the cut |
| `Framing.ReadAllAfter` | crates/procnet-core/src/ipc.rs:85-100 | Whatever bytes follow a list of frames, a reader gets the whole list and then what these say |
| `Framing.BadFrameEnds` | crates/procnet-core/src/ipc.rs:85-100 | A frame that does not decode ends the reading with an error after the messages before it |
| `Reader.BufReader.ReadExact` | crates/procnet-core/src/ipc.rs:102-110 | For every chunking of the socket: exactly the next n bytes, or end of input, or the error; and exactly how many bytes are then buffered and how many not fetched yet |
| `Reader.ReadMsg` | crates/procnet-core/src/ipc.rs:85-100 | For every chunking: the next message and the bytes after it, a decoding error, or the end |
| `Reader.ReadLoop` | crates/procnet/src/main.rs:44-53 | A client's loop yields exactly the messages of the byte stream up to the first error |
| `Daemon.DaemonState.constructor` | crates/procnetd/src/state.rs:62-70 | Interval 1000, tick 0, an empty collector |
| `Daemon.DaemonState.SetInterval` | crates/procnetd/src/state.rs:27-29 | The interval becomes the request clamped to 100..5000 |
| `Daemon.DaemonState.AdvanceTick` | crates/procnetd/src/state.rs:37-39 | The tick goes up by one |
| `Daemon.DaemonState.Update` | crates/procnetd/src/state.rs:46-59 | What each command does to interval, tick and collector, and that it leaves the rest alone; the interval stays in range and no step underflows |
| `Daemon.ClockOverRuns` | crates/procnetd/src/state.rs:27-59 | After every run of commands and iterations the interval is in 100..5000 and the tick is the iterations since start or reset, modulo 2^64 |
| `Daemon.PublishedTick` | crates/procnetd/src/app.rs:61-68 | A published tick is the number of iterations since start or the last reset, hence at least 1 |
| `Daemon.RepeatedSteps` | crates/procnetd/src/state.rs:56-57 | n increases give min(5000, i + 100n), n decreases max(100, i - 100n) |
| `Daemon.IntervalIgnoresTime` | crates/procnetd/src/state.rs:27-59 | In every run the interval is what the interval commands alone make of 1000: ticks and resets leave it |
| `Daemon.IntervalIsNearest` | crates/procnetd/src/state.rs:55 | A requested interval is granted when in range, and otherwise the one nearest to it |
| `Daemon.TicksIncrease` | crates/procnetd/src/app.rs:52-68 | Of two snapshots published with no reset between them the later has the larger tick |
| `App.Sample` | crates/procnetd/src/app.rs:59-61 | One legal collect, whose lookups are made of the map once per tracked PID and whose answers are what the map gave, and the tick goes up once |
| `App.Iterate` | crates/procnetd/src/app.rs:52-78 | The loop body is the run's start events and then its tick: the snapshot carries the new tick, the interval, the rows just collected and the dead list, and is broadcast as one frame; one too large stops the daemon and reaches nobody; the lookups made are the run's |
| `App.RunDaemon` | crates/procnetd/src/app.rs:35-93 | Under any schedule of connections, commands, iterations and clients' steps the daemon does these jobs, each as its move of one legal run, and no others; its state and clients are where that run leaves them, every client's socket holds what the run wrote, and the run's answers are those the map gave, lookup by lookup |
| `App.ClientsSaidRun` | crates/procnetd/src/server.rs:117-165 | Under any schedule the clients are exactly the connections whose first command was `Run` |
| `AppRuns.JobsAreDone` | crates/procnetd/src/app.rs:35-93 | Under any schedule, while the daemon is up: its collector has had every start event, one scan an iteration and every reset, its clock every command and iteration, its network every client step, each exactly once and in the schedule's order, and every iteration has published; no connection has said `Run` twice |
| `AppRuns.StoppedAt` | crates/procnetd/src/app.rs:52-70 | A daemon that is down went down at one job, a second `Run` or an iteration whose snapshot does not fit a frame; every job before it was done, it published nothing, and nothing was applied or published after it |
| `App.Command` | crates/procnetd/src/server.rs:138-141 | A command other than `Run` is one move of the daemon's run |
| `App.ServeConnection` | crates/procnetd/src/server.rs:105-165 | A connection served from its first byte is a stretch of the run: the commands it applied as moves, in order, a panic if it met a second `Run`, and a new client if and only if its first command was `Run` |
| `App.TrackedIsVec` | crates/procnetd/src/app.rs:63-70 | Distinct PIDs keep the row count within the wire's 64-bit length |
| `Handover.Serve` | crates/procnetd/src/server.rs:105-153 | For every chunking: a first command other than `Run` is applied alone; after `Run`, which makes the connection a client's, exactly the commands in the bytes that the first reader had not fetched are applied in order, and a second `Run` panics; applying moves the clock and, on `Reset`, zeroes the baselines and empties the dead list; what was fetched is determined by the chunks and less than a buffer's 8192 bytes beyond the first command |
| `Handover.ServeCommands` | crates/procnetd/src/server.rs:137-152 | The second reader applies exactly the commands in its bytes, up to the first error or `Run`, to the clock and to the collector, and panics exactly if there is such a `Run` |
| `Handover.BeforeRunMeans` | crates/procnetd/src/server.rs:136-152 | The commands applied are those before the first `Run`, all of them and in order |
| `Cuts.AlignedHandoverIsSuffix` | crates/procnetd/src/server.rs:128-134 | If the discarded read-ahead ends on a frame boundary, the commands seen are a suffix of those sent |
| `Cuts.NothingLostIffNothingBuffered` | crates/procnetd/src/server.rs:128-134 | Wherever the read-ahead ended, all the commands after the first are seen if and only if nothing of them was read ahead |
| `Cuts.CutInside` | crates/procnetd/src/server.rs:128-134 | A reader that starts inside a frame reads nothing if and only if the bytes from there do not spell a frame that the rest of the stream can hold; otherwise it reads a command, and whether that is a `Run` |
| `Cuts.HandoverExact` | crates/procnetd/src/server.rs:105-153 | For every list of commands and every range of cuts: wherever the read-ahead ended in it, the messages from that boundary on are read, or none when it is no boundary, if and only if no command after the first spells such a frame in that range |
| `Cuts.ServedMeans` | crates/procnetd/src/server.rs:136-152 | Then a suffix of the commands sent is applied, or nothing, and the second reader panics only at a `Run` that was sent and not read ahead |
| `Cuts.ConnectionExact` | crates/procnetd/src/server.rs:105-153 | The same for a connection that starts with `Run`, over exactly the ends of the read-ahead that some chunking gives |
| `Cuts.ConnectionMeans` | crates/procnetd/src/server.rs:105-153 | In terms of the commands sent: a first command other than `Run` is applied and nothing after it; after `Run`, with nothing read ahead, all that follows is applied in order up to the next `Run`, which panics; and wherever the read-ahead ended without inventing a command, all from there on, or nothing |
| `Cuts.CanComeExactly` | crates/procnetd/src/server.rs:105-134 | These are the ends that hold the first command and less than a buffer beyond it |
| `Cuts.NoIntervalNoMisread` | crates/procnetd/src/server.rs:128-134 | Without an interval after the first command, for every end of the read-ahead: a suffix of the commands sent is applied, and none off a boundary; without a second `Run` as well, nothing is invented and nothing panics |
| `Cuts.ServeInChunks` | crates/procnetd/src/server.rs:105-153 | Every end of the read-ahead that a reader can have happens, up to a whole buffer beyond the first command, on a socket that delivers suitable chunks |
| `Cuts.MisreadServed` | crates/procnetd/src/server.rs:128-153 | `Run` and one interval, delivered twelve bytes at a time: the daemon applies a `Reset` that was never sent |
| `Cuts.PhantomRunServed` | crates/procnetd/src/server.rs:128-153 | `Run` and one interval, delivered twelve bytes at a time: the daemon goes down on a second `Run` that was never sent |
| `Server.Channel.TrySend` | crates/procnetd/src/server.rs:193-196 | Queued at the end if the receiver is there and fewer than four frames wait; otherwise nothing changes |
| `Server.SenderList.UpdateStreams` | crates/procnetd/src/server.rs:190-199 | The run's next broadcast: every client on the list is offered the frame once, full ones miss it, and exactly those whose receiver is gone leave the list |
| `Server.SenderList.OfferAll` | crates/procnetd/src/server.rs:193-196 | The loop behind it, over the channels themselves |
| `Server.SenderList.Register` | crates/procnetd/src/server.rs:160-165 | A new client joins the run with an empty queue |
| `Server.SenderList.Receive` | crates/procnetd/src/server.rs:167 | The writer's `recv` is the run's receive step: if the last frame is out and one waits, the oldest is taken off the queue |
| `Server.SenderList.Write` | crates/procnetd/src/server.rs:168 | Bytes that `write_all` gets out are the next of the current frame, appended to the socket |
| `Server.SenderList.Fail` | crates/procnetd/src/server.rs:168-174 | A failed write ends the writer and drops its receiver |
| `Broadcast.RunsAreSound` | crates/procnetd/src/server.rs:160-199 | In every run, per client: taken then queued frames are the accepted broadcasts in order, and the bytes written are a prefix of the taken frames |
| `Broadcast.BroadcastConserves` | crates/procnetd/src/server.rs:160-199 | At most 4 frames wait; taken, waiting and dropped add up to the broadcasts since registration; a drop happens exactly on a full queue; a client is listed until the first broadcast after its receiver is gone and no longer |
| `Broadcast.ReceiveTakesOldest` | crates/procnetd/src/server.rs:167 | With the receiver there, the last frame out and any frame waiting, a receive takes the oldest |
| `Broadcast.WriteGetsOut` | crates/procnetd/src/server.rs:168 | A write appends the next bytes of the current frame, up to all of them |
| `Broadcast.WriterGetsAllOut` | crates/procnetd/src/server.rs:160-174 | From any moment of any run, nine steps of its writer or fewer leave nothing waiting: every frame ever accepted for the client is on its socket, whole and in order |
| `Broadcast.ReceiverUntilFail` | crates/procnetd/src/server.rs:160-174 | In every run a client's receiver is there, and the client listed, from its registration until its write fails, and the receiver no longer |
| `Broadcast.FailedStaysSilent` | crates/procnetd/src/server.rs:168-199 | Whatever happens after a failed write, the client's bytes, queue and taken frames stay as they are, and it is listed until the next broadcast |
| `Delivery.WrittenIsPrefix` | crates/procnetd/src/server.rs:167-174 | A client's bytes, partial last write included, are a prefix of the stream of the messages its writer took |
| `Delivery.ClientDecodes` | crates/procnetd/src/server.rs:160-198 | For every run, any prefix of a client's bytes decodes to the first messages its writer took, an in-order subsequence of those published since it registered, and then ends |
| `Delivery.KeptUpDecodesAll` | crates/procnetd/src/server.rs:160-198 | From any moment of any run in which its receiver is there, once its writer is let run, a client decodes exactly the messages that found room, and all published since it registered if none was dropped |
| `Service.DecodedTicksIncrease` | crates/procnetd/src/app.rs:52-78 | In every run of the daemon the snapshots a client decodes from any prefix of its bytes were published since it registered, in that order; every interval is in 100..5000, every tick is the iterations since start or the last reset and at least 1, and of two with no reset between them the later has the larger |
| `Service.RunsAreFaithful` | crates/procnetd/src/app.rs:52-78 | In every run each broadcast is the frame of one snapshot, and snapshot i carries the clock of iteration i |
| `Service.PublishedIsCurrent` | crates/procnetd/src/app.rs:55-70 | In every run a snapshot has a row for exactly the processes then tracked, under the names of their last start events in lower case, the newest 20 deaths since the last reset, the iterations since then as its tick, and the interval |
| `View.CompareOrder` | crates/procnet/src/tui/view.rs:23-40 | The comparison is antisymmetric and transitive, and undecided only on equal PIDs |
| `View.SortIndices` | crates/procnet/src/tui/view.rs:22-65 | The sorted indices are a permutation, in order, and what compares equal keeps its order |
| `View.DecimalSpells` | crates/procnet/src/tui/view.rs:117 | A PID is spelled with digits, none a leading zero, that read from left to right give it |
| `View.SpelledOnce` | crates/procnet/src/tui/view.rs:117 | There is one such spelling |
| `View.MatchesMeans` | crates/procnet/src/tui/view.rs:112-119 | A row passes the filter if and only if the text is empty or, in lower case, occurs in its name or its written PID |
| `View.TableShowsMatches` | crates/procnet/src/tui/view.rs:104-124 | With distinct PIDs the table is strictly sorted and shows exactly the rows whose name, or whose PID as it is written, contains the filter's text in lower case; all of them without a text |
| `View.TableInOrder` | crates/procnet/src/tui/view.rs:25-39 | An earlier row has the smaller value in the chosen column (the larger when descending; names as in a dictionary), or the same value and the smaller PID |
| `View.SortedUnique` | crates/procnet/src/tui/view.rs:22-41 | Two strictly sorted tables with the same rows are the same |
| `View.ViewIsCanonical` | crates/procnet/src/tui/view.rs:104-124 | The same rows in any order give the same table |
| `View.DeadInOrder` | crates/procnet/src/tui/view.rs:43-65 | Dead processes are ordered by the chosen column of their totals, then by PID, then as in the snapshot |
| `View.ViewShowsWanted` | crates/procnet/src/tui/view.rs:104-153 | For live rows and dead processes alike, repeated PIDs included: the view holds the indices of the entries the filter wants, once each, and no others |
| `Cursor.ClampIsNearest` | crates/procnet/src/tui/view.rs:76-102 | The clamped offset shows the row, leaves no empty space, and is strictly nearer to the old offset than any other that does |
| `Cursor.ClampIdempotent` | crates/procnet/src/tui/view.rs:76-102 | Clamping twice is clamping once |
| `Cursor.LockOverRuns` | crates/procnet/src/tui/view.rs:216-252 | In every run, after a move and until the next: the lock is the PID of the row moved to if and only if the view was not switched and every non-empty view drawn since contained that PID; while it holds the cursor is on that PID's first row of the last non-empty view, and otherwise it is released |
| `Cursor.InputsConsistent` | crates/procnet/src/tui/view.rs:219-252 | Any draw, move or switch leaves the cursor in range and in the window of a non-empty view, on row 0 if unlocked, on a row of the locked PID if locked |
| `Cursor.DrawMovesWindowLeast` | crates/procnet/src/tui/view.rs:230-252 | A draw moves the window no further than it takes to show the cursor's row |
| `Cursor.LockFollowsPid` | crates/procnet/src/tui/view.rs:216-228 | A lock survives a draw exactly when its PID is in the view, and then sits on its first row; otherwise the cursor returns to the top |
| `Cursor.MoveLands` | crates/procnet/src/tui/input.rs:75-97 | Up goes to the row above, or stays on the first; down to the row below, or stays on the last; the lock is that row's PID and the window moves no further than it must |
| `Cursor.MovesAddUp` | crates/procnet/src/tui/input.rs:75-97 | n moves go n rows, or as far as there are rows |
| `Cursor.MoveThenRender` | crates/procnet/src/tui/input.rs:75-97 | A move followed by a draw of the same view at the same height keeps row, PID and offset if and only if no earlier row has that PID; always with distinct PIDs |
| `Cursor.RepeatedPidJumps` | crates/procnet/src/tui/view.rs:299-333 | Two dead rows with one PID: the cursor jumps back |
| `Tui.TuiState.Render` | crates/procnet/src/tui/view.rs:104-252 | Rebuilds the view as the entries whose name or written PID contains the filter's text, once each, sorted, and places the cursor on it |
| `Tui.TuiState.MoveCursor` | crates/procnet/src/tui/input.rs:75-111 | Moves the cursor one row in the main pane, stopping at both ends, and locks it there; moves the picker in the unit pane, and nothing elsewhere |
| `Tui.TuiState.ToggleMode` | crates/procnet/src/tui/keys.rs:232-238 | Switches the mode, releases the lock and goes to the top |

## Left out

- Kernel.Step: a lookup that hits and the addition are one step, so an interrupt on the same CPU between them, and writing through a pointer to a deleted and recycled entry, are not modelled.
- Kernel.Step: two probes of one thread do not nest, and an LRU map always stores what it is given (it may evict it at once).
- EndToEnd.ReportedEqualsCredited: one lifetime of a map entry is fixed; PID reuse while the old process is tracked, and entries recreated by threads outliving the leader, are outside it.
- Watch.EveryEntryIsHeardOf: a drain and the application of what it drained are one move; every event in the ring is whole, so the length check of `parse_proc_event` never skips one.
- EndToEnd.LookupShowsCredits: the copy of one CPU's 80-byte slot is one step; a copy torn inside a slot is not modelled.
- Daemon.PublishedTick: assumes fewer than 2^64 iterations since the last reset; the modelled tick wraps there.
- Merge.MergeStats: a function of values, where the original updates its argument.
- View.SortIndices: an insertion sort on index sequences stands in for the standard library's stable sort, in place on a slice.
- App.ServeConnection: the connection is served in one go; commands of several connections between iterations are jobs of `App.RunDaemon`.
- Server.SenderList.UpdateStreams: the list holds one sender per channel, as `accept_loop` makes them.
- Input and output errors other than a stream that breaks at its end, timeouts, and the length of the sleep.
- Socket binding, stale sockets, permissions, signals, and panics other than that of a second `Run`.
- Loading the BPF programs, ring-buffer callbacks, the names looked up in `/proc`, reading addresses from kernel sockets: their results are arbitrary inputs.
- Filter editing, unit choice, panes, widgets, themes, number formatting, help text.
- Command-line parsing and packaging.
