# A verified model of the network scanner agent

The agent scans subnets, keeps an inventory of hosts and open ports in a SQLite file, announces changes, and
watches a second agent. The modules below model the parts that carry state, concurrency or arithmetic, and prove
properties of them over every input, every schedule or every run.

| module | what it models |
|---|---|
| `ScanPool`, `ScanPoolProgress`, `ScanPoolDeadlock`, `ScanPoolResults`, `ScanPoolWinners`, `ScanPoolCancel` | one `Scan` call as a step system over its semaphore: launching loop, host tasks, port tasks, cancellation at any point; its progress, its deadlocks, its cancelled runs and what it hands to the classifier |
| `Liveness`, `Classify`, `Labels` | the first-answer probe, the device classifier and the exact condition of each of its labels |
| `Addresses`, `Arith` | in-place increment, prefix containment, size guard and enumeration of a network |
| `Migrations` | processes that migrate one database: stale snapshots, write lock, second look, apply, record, commit, error, crash, restart |
| `Store` | the host and port tables with their keys, the cascade, the id counters and second-granular timestamps |
| `Config`, `Agent`, `AgentRuns`, `AgentEvents`, `Trigger` | profiles, the scan cycle, and theorems over runs of cycles: cadence, pruning, event replay, on-demand scans |
| `Health`, `Watchdog`, `PeerHealth` | the published status, the `/health` answer, the failure counter, its detection time, and when a working agent is counted down |
| `NeighbourTable` | the parser of the binary IPv4 neighbour table |
| `Paging` | filtered host lists, windows, the pager and the walk along its links |
| `Counting`, `Options` | how many positions of a list satisfy a predicate; values that may be absent |

Code that updates state in place is a class or a method (`Addresses.IncrementIP`, `Store.Repo`, `Agent.ScanLoop`,
`Health.Tracker`, `Watchdog.Dog`, `Migrations.Run`, `Paging.ApiHosts`), each proved equal to a specification function;
the theorems are lemmas about those functions. The two protocols with real interleaving, the worker pool and the
migrations, are step systems, as is the trigger channel. What the network, the store, the clock and the scheduler
answer is a step's choice or a parameter.

## Where the code does not do what one expects

- **Deadlock.** A host task keeps its slot while its deep or UDP stage asks for another one. Without a
  cancellation a state has no way to return exactly when every slot is held by a host task that still has a port to
  dial (`CanReturnExactly`), and it has no step at all exactly when those tasks are all waiting and the rest is done
  (`StuckExactly`). Both kinds of state can be reached exactly when there are at least as many addresses as slots and
  some liveness port leaves another port to dial (`DeadlockReachableExactly`, `StuckReachableExactly`). After a
  cancellation nothing is ever stuck and at most one more address is launched (`CancelStopsLaunching`), but a returned
  Scan may leave port tasks behind that still hold slots (`ReturnedCount`, `OrphanHoldsSlot`).
- **Failed first snapshot.** The comment at `internal/agent/agent.go:308-310` says that a failed listing before the
  cycle leads to no events. The code (lines 316 and 329-334) compares with an empty map, so every address in the
  inventory is announced as discovered and vanished ones are missed (`FailedSnapshotAnnouncesAll`, with the exact
  condition in `ReplayExactly`).
- **Time to live.** A host that is seen in every scan is never pruned when the time to live is at least the scan
  interval plus one second less two nanoseconds. The bound is exact (`LiveHostSurvives`, `ShorterTtlPrunes`): the
  store truncates `last_seen` to whole seconds.
- **A peer that never finished a scan** is answered with 200 for as long as it says it is healthy
  (`FrozenStatusDetectedExactly`); the freshness limit applies only after a first scan.
- **Repeated ports** in a deep list can change a device type, through the length test of the last classifier rule:
  exactly when one list has at most three entries and the other more, SSH is open, no earlier rule applies and the
  banner is no OpenSSH greeting (`RepeatsExactly`).
- **The liveness winner** can change a device type, through the ports and through the banner, which is read from the
  winning port (`internal/scanner/scanner.go:248`). Every uncancelled schedule classifies a host as a sequential scan
  with the same winner would (`TypeIsSequential`), and every answering probe port can win (`CandidateWins`), so the
  type is settled exactly when the sequential scan gives one type for all of them, each with its own banner
  (`WinnerIrrelevantExactly`). A deep list without repeats that covers the probe list is not enough: with it the type
  is settled exactly when a rule before the SSH greeting applies or the banners of the winners agree
  (`CoveringListExactly`). With the default lists a host that answers on the four probe ports and greets with OpenSSH
  is a linux-host when port 22 wins and gets no type when port 80 does (`BannerWinnerMatters`).
  `ListedWinnersExactly` is the condition for any two listed winners; `RepeatedWinnerMatters` and
  `UnlistedWinnerMatters` are runs in which the ports decide.
- **Silent cycles.** What changes in a cycle that emits nothing, because a scan or the second listing failed, is not
  announced by later cycles either (`SilentChangeIsLost`); what a consumer believes after any run is
  `BelievedExactly`.
- **Slow profiles.** The freshness limit is three times the global interval (`cmd/internal/runtime/runtime.go:125`),
  while the agent ticks at the shortest profile interval (`internal/agent/agent.go:139-154`); nothing compares the two.
  A clean agent is refused exactly when its cycles end further apart than the limit (`NeverRefusedExactly`), and with
  the default five minutes an agent with hourly profiles is counted down between two clean cycles
  (`HourlyProfileCountedDown`). `CountedDownExactly` is the exact condition.
- **Scheduling by subnet** needs unique subnets. With two profiles on one subnet the shorter interval is not kept
  (`SharedSubnetBreaksCadence`); `Resolve` refuses such lists.
- **The size guard** is what makes the enumeration loop stop: with an empty mask every address is contained
  (`EmptyMaskContainsAll`). The second size check can never fire (`ScanAddresses`).
- The API's `port` filter looks at the number and the open state only, under any protocol
  (`internal/admin/api.go:104`), and is modelled that way.
- Port 0 doubles as "nothing open yet" in the probe, so a success on port 0 is not seen; `MaxFailures` below one never
  counts a peer as down.

## Model

| member | source | states |
|---|---|---|
| `ScanPool.InvStep` | internal/scanner/scanner.go:228-302 | every step of the pool, a cancellation included, keeps slots, counters, launch order and the tie between port tasks and their parents |
| `ScanPool.SlotConservation` | internal/scanner/scanner.go:228-235 | in every reachable state the slots in use are the live host tasks plus the live port tasks, never above Workers; launched addresses are a prefix of the list, one task each |
| `ScanPool.ReturnedCount` | internal/scanner/scanner.go:234-308 | a Scan returns the number of hosts whose first upsert succeeded; launched hosts split into probe successes and failures; slots left are those of port tasks that outlived their parents |
| `ScanPool.UncancelledReturn` | internal/scanner/scanner.go:232-308 | when an uncancelled Scan returns, every address was probed, every slot is free and no port task is left |
| `ScanPoolProgress.StepDecreases` | internal/scanner/scanner.go:228-308 | every step lowers the work left, whatever the answers, the schedule and the moment of cancellation |
| `ScanPoolProgress.RunsAreFinite` | internal/scanner/scanner.go:228-308 | no run is longer than the work in its first state |
| `ScanPoolProgress.ScanStepBound` | internal/scanner/scanner.go:191-309 | an explicit bound on the steps of a Scan from its address and port counts |
| `ScanPoolProgress.StuckExactly` | internal/scanner/scanner.go:389-419 | an uncancelled, unfinished reachable state has no enabled step exactly when all Workers slots are held by host tasks waiting for another slot and nothing else is left to do |
| `ScanPoolProgress.CancelledNeverStuck` | internal/scanner/scanner.go:393-397 | after a cancellation some step is enabled until Scan has returned |
| `ScanPoolProgress.CancelledRunsReturn` | internal/scanner/scanner.go:440-444 | every maximal run after a cancellation has returned |
| `ScanPoolDeadlock.CanReturnExactly` | internal/scanner/scanner.go:228-302 | without a cancellation some run returns exactly when not every slot is held by a host task that needs one more |
| `ScanPoolDeadlock.DoomedStays` | internal/scanner/scanner.go:389-419 | once every slot is committed no step frees one |
| `ScanPoolDeadlock.DoomedForever` | internal/scanner/scanner.go:389-419 | from a state with all slots committed no uncancelled run returns |
| `ScanPoolDeadlock.DoomedEndsWedged` | internal/scanner/scanner.go:393-400 | a maximal uncancelled run from such a state ends with all slots held by waiting host tasks |
| `ScanPoolDeadlock.WayOut` | internal/scanner/scanner.go:228-302 | from any other state a schedule that returns is constructed |
| `ScanPoolDeadlock.PickStep` | internal/scanner/scanner.go:228-302 | from an unfinished state that is not doomed some step leads to one that is not doomed |
| `ScanPoolDeadlock.NoDeadlock` | internal/scanner/scanner.go:268-279 | with fewer answering addresses than slots, or both extra stages off, something is always enabled and a return stays possible |
| `ScanPoolDeadlock.DeadlockReachableExactly` | internal/scanner/scanner.go:228-283 | a state with all slots committed is reachable exactly with as many addresses as slots and a liveness port that leaves another port to dial |
| `ScanPoolDeadlock.StuckReachableExactly` | internal/scanner/scanner.go:228-302 | a stuck, unreturned, uncancelled state is reachable for exactly those configurations |
| `ScanPoolDeadlock.QuietRunsReturn` | internal/scanner/scanner.go:228-302 | a maximal uncancelled run with fewer answers than slots, or both extra stages off, has returned |
| `ScanPoolDeadlock.CommitFirst` | internal/scanner/scanner.go:228-274 | the schedule that launches n hosts, lets each answer and stops them at their first deep port is a run |
| `ScanPoolCancel.CancelStopsLaunching` | internal/scanner/scanner.go:228-232 | after a cancellation nothing is launched but for one address whose send was already past the context test |
| `ScanPoolCancel.CancelledCount` | internal/scanner/scanner.go:228-308 | a cancelled Scan returns at most the number of hosts launched by then, plus one if a send was pending |
| `ScanPoolCancel.StagesInOrder` | internal/scanner/scanner.go:278-284 | in every run the deep stage ends only into the UDP stage and that only into the tally, handing over what was heard |
| `ScanPoolCancel.HeardIsTrue` | internal/scanner/scanner.go:382-473 | in every run, cancelled or not, the classifier gets only ports that answer: the winner and ports of the two lists |
| `ScanPoolCancel.SwitchesRespected` | internal/scanner/scanner.go:274-284 | port tasks dial only the deep list when deep probing is on and the UDP list, and none without a port store |
| `ScanPoolCancel.SwitchedLists` | internal/scanner/scanner.go:274-284 | a classified host was asked for exactly the lists that are switched on |
| `ScanPoolCancel.SpawnsAfterCancel` | internal/scanner/scanner.go:393-397 | a reachable cancelled state in which a stage may give up or still start a port task |
| `ScanPoolCancel.OrphanHoldsSlot` | internal/scanner/scanner.go:393-397 | a cancelled Scan that returns while a port task holds a slot |
| `ScanPoolResults.ListsStep` | internal/scanner/scanner.go:382-420 | every uncancelled step keeps, for every port, the balance of heard, in-flight and walked occurrences |
| `ScanPoolResults.FinalLists` | internal/scanner/scanner.go:268-289 | the classifier gets the liveness port once and each other answering deep or UDP port as often as its list holds it |
| `ScanPoolResults.ScheduleIndependent` | internal/scanner/scanner.go:268-289 | for a fixed network, vendor, winner and hence banner every uncancelled schedule gives the same device type |
| `ScanPoolWinners.RefinesSequential` | internal/scanner/scanner.go:382-420 | the lists of every uncancelled schedule are, up to order, those of a scan of one port after the other |
| `ScanPoolWinners.TypeIsSequential` | internal/scanner/scanner.go:268-289 | the device type is that of the sequential scan with the same winner |
| `ScanPoolWinners.KnownByAnswers` | internal/scanner/scanner.go:268-289 | what the classifier knows of a scanned host is which listed ports answer, and the winner |
| `ScanPoolWinners.ScannedLabel` | internal/scanner/scanner.go:268-289 | the label of a scanned host is that of the most specific signal among its answering ports, vendor and banner |
| `ScanPoolWinners.ScannedOnePort` | internal/scanner/scanner.go:268-289 | a host on which one TCP port answers gets that port's label |
| `ScanPoolWinners.CandidateWins` | internal/scanner/scanner.go:343-354 | every answering probe port of every address wins in some schedule that classifies the host |
| `ScanPoolWinners.WinnerIsCandidate` | internal/scanner/scanner.go:343-354 | and only those do, with a second slot or nothing to dial |
| `ScanPoolWinners.WinnerIrrelevantExactly` | internal/scanner/scanner.go:237-289 | with the banner read from the winning port, the device type does not depend on the schedule exactly when the sequential scan gives one type for all ports that can win |
| `ScanPoolWinners.ListedWinnersExactly` | internal/scanner/scanner.go:237-289 | two listed winners give one type exactly when a rule before the greeting applies or their banners and list lengths agree |
| `ScanPoolWinners.WinnerIndependent` | internal/scanner/scanner.go:343-354 | for winners the deep list holds equally often, at least once, the exact condition on their banners |
| `ScanPoolWinners.CoveringListExactly` | internal/scanner/scanner.go:237-289 | a deep list without repeats that covers the probe list settles a type exactly when an earlier rule applies or the banners of the possible winners agree |
| `ScanPoolWinners.OneHintSettles` | internal/scanner/classify.go:158-168 | under such a list banners with one hint, in particular none, settle every type |
| `ScanPoolWinners.BannerWinnerMatters` | internal/scanner/scanner.go:24-34 | with the default lists two runs over one network whose types differ through the greeting on port 22 |
| `ScanPoolWinners.RepeatedWinnerMatters` | internal/scanner/scanner.go:268-354 | two runs over one network with a repeated port and different types |
| `ScanPoolWinners.UnlistedWinnerMatters` | internal/scanner/scanner.go:268-354 | two runs over one network without a deep list and with different types |
| `Liveness.Probe` | internal/scanner/scanner.go:320-355 | the port of the first successful dial in arrival order, alive exactly when there is one; a success on port 0 is not seen |
| `Classify.IndexSet` | internal/scanner/classify.go:189-198 | the lookup holds exactly the listed ports, all true |
| `Classify.OrderIrrelevant` | internal/scanner/classify.go:15-184 | reordering the port lists does not change the device type |
| `Labels.PlatformLabels` | internal/scanner/classify.go:21-94 | the exact conditions of printer, router, hypervisor, kubernetes-node, container-host and nas |
| `Labels.DatabaseLabels` | internal/scanner/classify.go:66-83 | the exact conditions of the six database labels: the first open port of the six, without a platform signal |
| `Labels.WindowsLabels` | internal/scanner/classify.go:96-168 | the exact conditions of windows-dc, windows-server and windows-host, the greeting included |
| `Labels.ServiceLabels` | internal/scanner/classify.go:120-156 | the exact conditions of mail-server, dns-server, iot-broker, embedded and camera |
| `Labels.LastLabels` | internal/scanner/classify.go:158-184 | the exact conditions of linux-host, appliance and no label |
| `Labels.FirstSignalDecides` | internal/scanner/classify.go:12-184 | the most specific of 24 signals decides the label, whatever else is open; without any there is none |
| `Labels.SomeFirst` | internal/scanner/classify.go:12-184 | there always is a most specific signal, or none at all |
| `Labels.AddedSignalDecides` | internal/scanner/classify.go:12-184 | an added signal that is more specific than all before decides the label |
| `Labels.OnePort` | internal/scanner/classify.go:15-184 | the label of a host without vendor and banner for each single TCP port |
| `Labels.ContainsSlice` | internal/scanner/classify.go:32-168 | containing a text is having it as a slice |
| `Labels.CaseIgnored` | internal/scanner/classify.go:18-19 | the case of vendor and banner does not matter |
| `Classify.SameTypeExactly` | internal/scanner/classify.go:155-184 | two banners and two lists of the same ports give one type exactly when an earlier rule applies or the OpenSSH hints and lengths agree |
| `Classify.RepeatsExactly` | internal/scanner/classify.go:15-184 | two lists of the same ports give the same device type unless their lengths are on different sides of the limit of three, SSH is open, no earlier rule applies and the banner gives no hint |
| `Classify.SshAndWeb` | internal/scanner/classify.go:170-181 | ports 22 and 80 without vendor and banner give linux-host exactly for at most three listed TCP ports |
| `Addresses.CarryStep` | internal/scanner/scanner.go:643-649 | the carry adds one to the number, or gives zero at the all-ones address, for every length |
| `Addresses.CarryIsPlusOne` | internal/scanner/scanner.go:643-649 | the carry is plus one modulo 256 to the length |
| `Addresses.CarryFrame` | internal/scanner/scanner.go:643-649 | only a suffix changes: wrapped bytes after at most one byte that did not wrap |
| `Addresses.BranchesAgree` | internal/scanner/scanner.go:637-642 | on four bytes the big-endian word branch equals the carry loop, wrap included |
| `Addresses.IncrementIP` | internal/scanner/scanner.go:637-649 | the in-place increment leaves the array holding the carried address, for every length |
| `Addresses.ContainsByValue` | internal/scanner/scanner.go:616-628 | byte-wise masked equality is equality of the network parts of the numbers |
| `Addresses.MembersByValue` | internal/scanner/scanner.go:616-628 | a network holds exactly 2^h consecutive numbers from its base |
| `Addresses.NextLeaves` | internal/scanner/scanner.go:616-628 | the address after the last one is outside the network, also when the increment wraps |
| `Addresses.EmptyMaskContainsAll` | internal/scanner/scanner.go:198-207 | with an empty mask the loop condition never fails |
| `Addresses.UsableIPs` | internal/scanner/scanner.go:616-628 | terminates and lists every address once in ascending order, without its ends exactly for IPv4 prefixes of /30 or shorter; 2^h or 2^h - 2 addresses |
| `Addresses.EnumerationIsExact` | internal/scanner/scanner.go:616-628 | an address is listed exactly when the network contains it and it is not an end of an IPv4 network of /30 or shorter; no duplicates; 2^h or 2^h - 2 addresses |
| `Addresses.ScanAddresses` | internal/scanner/scanner.go:202-214 | succeeds exactly within both guards; the second max-hosts check never fires |
| `Migrations.InvStep` | internal/sqlite/migrations/migrate.go:56-116 | every step of every process, errors and crashes included, keeps the protocol invariant |
| `Migrations.CommitsNext` | internal/sqlite/migrations/migrate.go:85-113 | a commit publishes exactly the next version of the list, or nothing |
| `Migrations.RecordedPrefix` | internal/sqlite/migrations/migrate.go:30-116 | recorded versions are always a prefix of the list and the schema is that prefix applied in order, each version once |
| `Migrations.DoneMeansAll` | internal/sqlite/migrations/migrate.go:20-119 | a process that returns without error leaves every version recorded |
| `Migrations.SkipsAreSound` | internal/sqlite/migrations/migrate.go:61-99 | a skip by snapshot or second look never skips an unrecorded version; only the next version is applied |
| `Migrations.OnlyCommitsChange` | internal/sqlite/migrations/migrate.go:101-116 | only a commit changes the database, by appending the next version; errors and crashes change nothing |
| `Migrations.SnapshotsGoStale` | internal/sqlite/migrations/migrate.go:85-99 | a process can reach the write lock for a version a peer recorded meanwhile, so the second look is needed |
| `Migrations.UpToDateNeverLocks` | internal/sqlite/migrations/migrate.go:30-64 | a process that starts on an up-to-date database never asks for the write lock, whatever the others do |
| `Migrations.LocksOnlyForMissing` | internal/sqlite/migrations/migrate.go:61-74 | a process asks for the write lock only for versions its snapshot lacks |
| `Migrations.NeverStuck` | internal/sqlite/migrations/migrate.go:70-83 | a running process, or the lock holder it waits for, can always go on |
| `Migrations.RunsToCompletion` | internal/sqlite/migrations/migrate.go:20-119 | a running process left alone, with the lock free or its own, brings the database to the full list |
| `Migrations.RecoversAfterCrash` | internal/sqlite/migrations/migrate.go:20-119 | a failed or crashed process that is started again and left alone records every version |
| `Migrations.FirstBroken` | internal/sqlite/migrations/migrate.go:101-104 | the position of the first script of a list that fails, or its length |
| `Migrations.Run` | internal/sqlite/migrations/migrate.go:20-119 | from any recorded set an undisturbed run applies and records the pending versions in order up to the first failing script, and succeeds exactly when none fails |
| `Migrations.RunFromPrefix` | internal/sqlite/migrations/migrate.go:20-119 | from a recorded prefix such a run leaves a recorded prefix, the whole list exactly when it succeeds, which is when no script after the prefix fails |
| `Store.Stamp` | internal/sqlite/host.go:27-36 | the stored time is the whole second at or before the moment |
| `Store.UpsertHostMeaning` | internal/sqlite/host.go:25-47 | one row per address with the new facts, seen now; a known address keeps id and first_seen, a new one gets a fresh id; other rows unchanged |
| `Store.UpsertPortMeaning` | internal/sqlite/port.go:20-35 | one row per host, number and protocol with the new service and state, seen now; a known key keeps id and first_seen; an unknown host changes nothing; other rows unchanged |
| `Store.InvDo` | internal/sqlite/migrations/001_initial.sql:1-23 | each statement keeps unique keys, references, id marks and first_seen at or before last_seen |
| `Store.InvHistory` | internal/sqlite/migrations/001_initial.sql:1-23 | the store invariant holds after any sequence of upserts and deletes |
| `Store.IdsNeverReused` | internal/sqlite/host.go:25-47 | a host row whose id was given out before a history is a row that was there, with the same address and first_seen |
| `Store.LivingKeepsId` | internal/sqlite/host.go:25-47 | a host that is not deleted keeps id, address and first_seen through any history |
| `Store.PortIdsNeverReused` | internal/sqlite/port.go:20-35 | a port row whose id was given out before a history is a row that was there, with the same key and first_seen |
| `Store.LivingPortKeepsId` | internal/sqlite/port.go:20-35 | a port whose host and whose host's ports are not removed keeps key, id and first_seen through any history |
| `Store.Repo.PutHost` | internal/sqlite/host.go:25-47 | the upsert leaves both tables and the returned id as the statement's function of the old tables |
| `Store.Repo.PutPort` | internal/sqlite/port.go:20-35 | the port upsert, refused without effect when its host does not exist |
| `Store.Repo.Delete` | internal/sqlite/host.go:135-140 | afterwards exactly the other hosts and exactly the ports of other hosts are left, and the id marks stay |
| `Store.Repo.DeleteByHost` | internal/sqlite/port.go:65-72 | afterwards exactly the ports of other hosts are left; hosts and id marks stay |
| `Config.Resolve` | internal/config/config.go:220-247 | succeeds exactly when at most one list is set and every entry names a subnet of its own; result in order, defaulted, unique; the error is that of the first bad entry |
| `Config.ResolvedIsFixed` | internal/config/config.go:249-284 | resolving is idempotent, set fields win over any defaults, and a bare profile takes every default |
| `Config.EachFieldAlone` | internal/config/config.go:249-284 | each field of a profile is its own value when set and the global one otherwise, whatever the others are |
| `Health.FrozenStatusDetectedExactly` | internal/health/server.go:158-173 | a frozen status is refused for good from some moment exactly when it is unhealthy, or has a recorded scan and the freshness check is on |
| `Agent.DueProfiles` | internal/agent/agent.go:169-174 | exactly the configured profiles that are forced, unscheduled or due |
| `Agent.ScanLoop.Trigger` | internal/agent/agent.go:95-103 | queues exactly when nothing is pending; a token is pending afterwards |
| `Agent.ScanLoop.TickInterval` | internal/agent/agent.go:139-154 | the shortest positive interval, floored at one second |
| `Agent.ScanLoop.PruneStale` | internal/agent/agent.go:263-285 | the store after deleting the stale rows one by one, with failed deletes skipped, and their number |
| `Agent.ScanLoop.SnapshotByIp` | internal/agent/agent.go:311-322 | the inventory keyed by address |
| `Agent.ScanLoop.Announce` | internal/agent/agent.go:332-346 | one event for each address the other snapshot lacks, in any map order, with the facts of its row |
| `Agent.ScanLoop.EmitChangeEvents` | internal/agent/agent.go:328-361 | appends the diff of the two snapshots, or nothing when the second listing fails |
| `Agent.ScanLoop.SelectDue` | internal/agent/agent.go:169-174 | the due profiles in configured order |
| `Agent.ScanLoop.ScanDue` | internal/agent/agent.go:180-203 | the store, the schedule, the host total and the health flag after the scans of a cycle |
| `Agent.ScanLoop.RunCycle` | internal/agent/agent.go:159-252 | schedule, store, events and reported status after a cycle: scan, then prune, events only on a healthy cycle |
| `AgentRuns.DueTimes` | internal/agent/agent.go:182-203 | over any run the schedule holds for each profile the start of its latest successful scan plus its interval; a failed scan leaves it |
| `AgentRuns.CadenceExactly` | internal/agent/agent.go:169-203 | a cycle scans a profile exactly when forced, never scanned without error, or an interval or more after its latest successful scan |
| `AgentRuns.SharedSubnetBreaksCadence` | internal/agent/agent.go:200-202 | with a shared subnet the profile with the shorter interval is not scanned when its interval has passed |
| `AgentRuns.ScanGap` | internal/agent/agent.go:109-203 | with cycle starts at most d apart the next scan of a profile starts less than its interval plus d after a successful one |
| `AgentRuns.HealthyExactly` | internal/agent/agent.go:180-198 | a cycle is healthy exactly when no scan it ran failed |
| `AgentRuns.StatusAfterRun` | internal/agent/agent.go:222-234 | after any run the tracker shows one scan a cycle, the end and the health of the last one, and the inventory size; /health answers 200 exactly while that cycle was clean and recent enough |
| `AgentRuns.ReportedCount` | internal/agent/agent.go:222-234 | the reported host count is the inventory size, or, when it cannot be counted, the sum over the due scans in an unhealthy cycle |
| `AgentRuns.PruneExact` | internal/agent/agent.go:263-285 | pruning leaves exactly the hosts last seen at or after the cutoff and those whose delete failed, and exactly the ports of hosts not removed |
| `AgentRuns.CyclePrunes` | internal/agent/agent.go:205-208 | a cycle prunes whether or not its scans succeeded, and exactly the stale rows; without a time to live or a listing it removes nothing |
| `AgentRuns.NoStaleHostLeft` | internal/agent/agent.go:205-285 | after any run no deletable host is older than the time to live before its last cycle |
| `AgentRuns.SweepIsHistory` | internal/agent/agent.go:182-203 | the scans of a cycle leave the store as the statements of the due profiles do, in configured order |
| `AgentRuns.CycleKeepsLive` | internal/agent/agent.go:182-208 | one cycle keeps a live host and its last sighting recent enough for the next |
| `AgentRuns.LiveHostSurvives` | internal/agent/agent.go:182-285 | with the time to live covering interval and truncation a live host is in the store after every cycle of every run |
| `AgentRuns.ShorterTtlPrunes` | internal/agent/agent.go:263-285 | for any shorter time to live a run of two cycles, free of failures unless it is under a second, prunes a live host |
| `AgentRuns.TinyTtlPrunesAtOnce` | internal/agent/agent.go:263-285 | under a second less a nanosecond a failure-free cycle prunes the host it has just seen |
| `AgentEvents.DiffReplays` | internal/agent/agent.go:328-361 | for every map order a diff turns the first address set into the second and flips each address it names |
| `AgentEvents.ReplayExactly` | internal/agent/agent.go:218-220 | the exact condition under which the events of a cycle keep a consumer in step with the store |
| `AgentEvents.FailedSnapshotAnnouncesAll` | internal/agent/agent.go:308-334 | after a failed first snapshot a healthy cycle announces every address as discovered; no events exactly for an empty inventory |
| `AgentEvents.EventsTellFacts` | internal/agent/agent.go:332-359 | each event carries the start of the cycle and the facts of its row, after the cycle for a discovery, before it for a vanishing |
| `AgentEvents.CycleBelief` | internal/agent/agent.go:218-361 | what a cycle of any kind does to any belief about an address |
| `AgentEvents.BelievedExactly` | internal/agent/agent.go:162-361 | in any run an address is believed present exactly when it was in the inventory after the latest cycle whose events name it, or at first |
| `AgentEvents.SilentChangeIsLost` | internal/agent/agent.go:218-220 | a change in a cycle that emits nothing is never announced later while first listings work and the address rests |
| `AgentEvents.CycleReplays` | internal/agent/agent.go:162-220 | a healthy cycle with both listings turns the old inventory into the new one |
| `AgentEvents.EventReplay` | internal/agent/agent.go:162-361 | replaying the events of a run of healthy cycles gives the inventory after every cycle, and every event flips its address |
| `AgentEvents.EventsAlternate` | internal/agent/agent.go:162-361 | the events of each address strictly alternate, the first telling whether it was absent at the start |
| `Trigger.PendingExactly` | internal/agent/agent.go:87-132 | in every interleaving a token is pending exactly when a request came after the last one taken; accepted minus taken is 0 or 1 |
| `Trigger.EveryRequestLeavesAToken` | internal/agent/agent.go:95-103 | accepted or refused, a request leaves a token pending; it is refused exactly when one was waiting |
| `Trigger.NoRequestLost` | internal/agent/agent.go:95-132 | after a request a forced cycle starts, or the token is still pending |
| `Trigger.OneAcceptedBetweenTakes` | internal/agent/agent.go:121-132 | between two tokens taken in a row exactly one request was accepted |
| `Watchdog.Dog.Check` | internal/watchdog/watchdog.go:92-145 | on every path the counter, the metric and the published view: the peer's host and scan counts, the stale flag at twice the interval and the drift after a fetch, zeros and an error otherwise |
| `Watchdog.FailuresAreTrailing` | internal/watchdog/watchdog.go:108-131 | after any history the counter is the length of the trailing run of failures |
| `Watchdog.DownsCountOutages` | internal/watchdog/watchdog.go:112-114 | the peer-down metric is the number of failure runs that reached MaxFailures; it stays zero for MaxFailures below one |
| `Watchdog.PublishedView` | internal/watchdog/watchdog.go:98-131 | the published count is that run and Reachable holds exactly when it is zero |
| `Watchdog.StaleBeforeRefused` | internal/watchdog/watchdog.go:149-164 | the stale flag precedes a refusal for age by exactly three peer intervals less two of the watchdog's own, for any two intervals |
| `Watchdog.FailuresCoverTime` | internal/health/server.go:158-173 | once the last scan is too old the count times the tick spacing covers the time since, whatever earlier ticks saw |
| `Watchdog.WedgedPeerDetected` | cmd/internal/runtime/runtime.go:125 | a watchdog running before or after the last scan at T has counted MaxFailures failures at every tick from T + 3*ScanInterval + MaxFailures*W on, or MaxFailures*W after its own start if that is later, even though the server answers |
| `Watchdog.DetectedInTime` | internal/watchdog/watchdog.go:108-117 | if ticks go on that long, one at or before the bound reaches the count |
| `Watchdog.NoFalseAlarm` | internal/watchdog/watchdog.go:108-119 | the count stays 0 exactly when every ping reaches a healthy peer whose scan is at most 3*ScanInterval old |
| `Watchdog.DriftIsPercentage` | internal/watchdog/watchdog.go:168-202 | drift is symmetric, between 0 and 100, and 100 when one side has no hosts |
| `Watchdog.DriftIsClose` | internal/watchdog/watchdog.go:168-202 | the drift is within half a tenth of the difference in percent of the larger count, or 0 without scans or hosts |
| `PeerHealth.RefusedExactly` | internal/health/server.go:158-173 | at a moment of a clean run the agent refuses exactly when its last cycle ended longer ago than the limit |
| `PeerHealth.NeverRefusedExactly` | cmd/internal/runtime/runtime.go:125 | a clean run is never refused exactly when consecutive cycles end at most the limit apart |
| `PeerHealth.CountedDownExactly` | internal/watchdog/watchdog.go:108-117 | ticks w apart can count m failures of a clean run exactly when two consecutive cycles end further apart than the limit and m - 1 ticks |
| `PeerHealth.SlowProfileCountedDown` | internal/agent/agent.go:139-154 | a profile slower than that gives a clean run that is counted down |
| `PeerHealth.HourlyProfileCountedDown` | internal/config/config.go:373-405 | with the default intervals and failure limit an hourly profile is enough |
| `NeighbourTable.TextInjective` | internal/scanner/arp_windows.go:71-77 | equal texts of equally long hardware addresses come from equal bytes |
| `NeighbourTable.TextByValue` | internal/scanner/arp_windows.go:71-77 | byte k of the text is two hexadecimal digits, high digit first, at 3k, with colons between |
| `NeighbourTable.LittleEndian` | internal/scanner/arp_windows.go:54-66 | the words of the buffer are little-endian |
| `NeighbourTable.ZeroTextExactly` | internal/scanner/arp_windows.go:71-77 | comparing with the zero text is testing for an all-zero address |
| `NeighbourTable.SearchFindsFirst` | internal/scanner/arp_windows.go:54-80 | the search gives the address of the first matching row in range, empty when it is zero or there is none |
| `NeighbourTable.ParseIPNetTable` | internal/scanner/arp_windows.go:54-80 | stays in bounds for every buffer and returns what the search specifies |
| `NeighbourTable.BuiltRow` | internal/scanner/arp_windows_test.go:13-27 | row k of a built table reads back as row k |
| `NeighbourTable.ParsesBuiltTables` | internal/scanner/arp_windows_test.go:13-27 | on a table laid out from any rows the parser finds what a direct search of the rows finds |
| `Paging.ListingUnique` | internal/sqlite/host.go:69-93 | the rows determine the listing, so all pages of one state are cut from the same list |
| `Paging.BeforeExactly` | internal/sqlite/host.go:69-73 | the order of a listing is by first differing character, a prefix first |
| `Paging.ParsePagination` | internal/admin/api.go:251-271 | accepted exactly for absent or in-range numbers; limit 1 to 1000, offset not negative, defaults and clamping |
| `Paging.ApiHosts` | internal/admin/api.go:70-138 | the total is the number of listed hosts that pass the filter, the rows are a window of them and all pass |
| `Paging.AnyOpen` | internal/admin/api.go:98-110 | whether the host has the port open, under any protocol |
| `Paging.MatchingExactly` | internal/admin/api.go:273-293 | a host matches exactly when it is listed, its vendor and type are the filter's, a slice of its lower-cased hostname is the filter's text, its address lies in the network and an open port row has the number |
| `Paging.HostnameFilter` | internal/admin/api.go:282-284 | the hostname filter is a search for a slice up to case |
| `Paging.PortFilter` | internal/admin/api.go:96-110 | over the port table the port filter asks for an open port row of the host, under any protocol |
| `Paging.MatchingSorted` | internal/admin/api.go:112-117 | the matching list keeps the order of the listing |
| `Paging.NewPager` | internal/admin/render.go:95-116 | From and To are the shown rows, Next exists exactly when rows follow and starts after To, Prev exists exactly off the start and lies one page back or at a smaller offset |
| `Paging.PagerShows` | internal/admin/render.go:71-116 | From and To name the rows of the page, both 0 exactly when it is empty; Prev leads to the page that ends where this one starts |
| `Paging.WalkAt` | internal/admin/render.go:95-116 | page k of a walk starts k limits after its first offset and has a Next link exactly when a page follows |
| `Paging.WalkCovers` | internal/admin/render.go:95-116 | following Next shows the rest of the list in order, each row once, and stops |
| `Paging.WalkLinks` | internal/admin/render.go:95-116 | on the walk from offset 0 the From/To ranges are contiguous from the first row to the last and Prev undoes Next |
| `Paging.HostWalk` | internal/admin/api.go:112-135 | the windows of the host API concatenate to exactly the hosts that pass the filter, in store order |
| `Paging.StorePageIsWindow` | internal/sqlite/host.go:95-125 | the store's page equals the window of the unfiltered list |
| `Paging.StorePageDefaults` | internal/sqlite/host.go:95-103 | no positive limit is no limit, a negative offset is none, an offset past the end is empty |

## Left out

- Dialling, TLS, DNS, ARP look-ups and UDP exchanges: each is an answer chosen by the step that consumes it, and a dial always returns in the end. A host's vendor and the banner of each of its ports are parameters.
- The port and host upserts of the pool's tasks are steps without a table: the pool model keeps whether the first host upsert succeeded, and the table side is in `Store`. The second upsert, with the device type, is not a step of the pool.
- Setters without a law of their own (`Tracker`, `Repo.Count`, the migration transaction) have contracts but no row above; `StatusAfterRun`, `PublishedView`, `OnlyCommitsChange` and `Run` say what they add up to.
- Several Scans on one semaphore: the pool model starts one Scan on an empty pool. A Scan that follows a cancelled one can find slots still held by its port tasks; that is not modelled.
- The wait groups are modelled as "every task started has signalled"; the mutexes around `count`, `out`, the tracker and the repositories as atomic steps.
- A cancelled Scan's classification: a deep or UDP stage that gives up returns what it has heard so far, and the classifier theorems are about uncancelled Scans.
- SQLite itself: statements and transactions are atomic, there is one writer, a delete cascades, and a busy timeout is an error of the process that meets it. How many ids an upsert that updates burns is a parameter.
- The `.sql` suffix filter of the migration list: the embed pattern lets nothing else in (`internal/sqlite/migrations/migrate.go:58`).
- IPv4-mapped IPv6 addresses inside Go's `net` package: addresses are 4 or 16 bytes and masks are canonical, so the AND with a mask byte is clearing its low bits.
- The text of addresses: `Addresses` enumerates byte strings, and the filter of the host API takes the address parser as a parameter.
- Unicode in `strings.ToLower`: only ASCII letters are lowered.
- The row loops of `List`, `ListPage` and `ListByHost`: the order comes from the query, so a listing is any list `Paging.IsListing` admits, and a port listing is a function parameter that may fail.
- Overflow of `offset + limit`: integers are unbounded here.
- Paging and pruning of the scan history, whose sort key is not unique.
- Explicitly empty port lists in the configuration: lists are absent or taken as they are.
- CIDR parsing and validation of profiles.
- The choice the scan loop makes when a tick and a trigger are both ready: any choice is a run. `NoRequestLost` does not promise that a pending token is ever taken.
- Clocks: the peer's and the watchdog's clock are one, and nanoseconds are integers.
- Rounding of floating point in the drift: it is computed over reals. The drift threshold only selects a log level.
- Alert sinks, metrics text, admin authentication, templates, terminal interface, logging, tracing and configuration overrides.
