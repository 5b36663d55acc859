# Verified model of the thermal-aware adapter runtime

This project models the safety-relevant core of the repository in Dafny and
proves what it is supposed to guarantee: the C watchdog daemon, the telemetry
path from the sensors through the socket to the Python decision, the Python
executor that guards a child process, the adapter registry over its native
allocator, the CUDA gradient kernel with the low-rank layer it differentiates,
and adapter files.

`dafny verify dfyconfig.toml` checks everything.

## How the model is cut

- **Environment.** Schedules, signals, `malloc`, the child process, sockets,
  directory listings and clocks are parameters. Every theorem holds for all of
  their behaviours that the stated assumptions allow.
- **Arithmetic.** Matrix entries, temperatures and times are reals. The
  roundings that matter are kept: `%.3f` and Python's `round`, both to the
  nearest with ties to even (`Rounding.dfy`).
- **Form.** Code that changes state is imperative here too: the native heap and
  allocator, the adapter manager, the layer, the child process, the kernel's
  buffer. Methods equate the new state with a specification function, and the
  theorems are lemmas about that function. The daemon is a transition system
  because its difficulty is the interleaving of three threads of control.

| file | content |
|---|---|
| `DaemonProtocol.dfy` | main loop, watchdog threads, shutdown and signal delivery as interleaved steps |
| `Telemetry.dfy` | samples, the daemon's limits, the Python policy, one watchdog thread |
| `ThermalReader.dfy` | the C and the Python reader of a sysfs tree, and when they agree |
| `TelemetryWire.dfy` | line printing, partial writes and receives, parsing, decisions behind the wire |
| `SharedTelemetry.dfy` | zones, daemon, wire and client together |
| `Executor.dfy` | the guarded executor: polling loop, verdict, termination, reclamation |
| `EloraAllocator.dfy` | raw heap, ownership of blocks, the native allocator |
| `AdapterRegistry.dfy` | specification of the manager as a budgeted map; theorems over whole runs |
| `NativeBlocks.dfy`, `AdapterManager.dfy` | the manager itself, proved against that specification |
| `GradientKernel.dfy` | the kernel, its grid and any interleaving of its threads; the gradient theorem |
| `PluginLayer.dfy` | the layer: forward pass, gradient gate, share of active rows |
| `LayerGradient.dfy` | the kernel's output as the gradient of the layer's forward pass |
| `Persistence.dfy` | saving and loading adapter files |
| `Rounding.dfy`, `Sets.dfy`, `Sums.dfy`, `Matrices.dfy`, `Text.dfy`, `Wrappers.dfy` | shared mathematics and text |

## Where code and documentation disagree

The model follows the code. For each point there is an input on which the two
differ, and the exact condition under which they agree.

- `main` calls the line after the server "only reached via graceful shutdown"
  (src/daemon/watchdogd_main.c:225). The server can also give up on a socket
  error, already in the first turn (`DaemonProtocol.GivingUpIsReachable`), and
  then main's own next steps end with two signal sources at once
  (`DaemonProtocol.EarlyReturnDoublesSources`). With such returns allowed, a
  state of the loop, whatever led to it, stays at one signal source at most in
  every continuation exactly if the shutdown was requested and there is at most
  one source, counting the watchdog that main may be about to spawn
  (`DaemonProtocol.SafeForGoodIff`). The shutdown alone does not suffice: it can
  come while main already sets up the turn after an early return
  (`DaemonProtocol.ShutdownCanBeTooLate`). Without early returns every run is
  safe (`DaemonProtocol.DaemonSafety`).
- The socket reader is said to let Python "read the exact same number" as the
  daemon (src/python/msp/thermal.py:233), and the executor's decisions to track
  the daemon's exactly (src/python/msp/watchdog_control.py:107-108). The line
  carries three decimals: a finite number arrives unchanged exactly if it is a
  whole number of thousandths (`TelemetryWire.SameNumberIff`), and under the
  daemon's own limits a violation is missed exactly when nothing but
  85 < t <= 85.0005 is wrong (`TelemetryWire.DecisionsAgree`). The maximum over
  the zones never gets there (`SharedTelemetry.MaxReadingsAgree`); the mean does,
  for example over 85000, 85000 and 85001 millidegrees
  (`SharedTelemetry.MeanMissedIff`, `SharedTelemetry.MeanCanBeMissed`).
- The C reader's comment says that its fallback for unreadable types matches
  Python and no filter but the empty one (src/daemon/thermal_reader.c:112-114).
  The readers differ on an empty type file and on directory names without an
  index (`ThermalReader.ReadersCanDisagree`); `ThermalReader.CompatibleIsExact`
  is the exact condition on names and types, for "temp" files in which both find
  the same integer; spellings that only one of them accepts are left out. An unreadable type matches every filter that is part
  of "unknown", and no other (`ThermalReader.UnreadableTypeMatchesIff`,
  `ThermalReader.UnreadableTypeCanMatch`).
- `raise_if_error` is documented as quiet after a fallback and for a child that
  did not complete (src/python/msp/watchdog_control.py:252-256). It is not after
  a telemetry error (`Executor.FallbackCanRaise`) and after a child that left no
  result (`Executor.MissingResultRaises`), and these are the only cases
  (`Executor.RaiseMatchesDocumentationIff`).
- `save_adapter` promises that every layer is reconstructed exactly
  (src/python/msp/persistence.py:47-49), and `load_adapter` documents a
  `KeyError` for differing names (src/python/msp/persistence.py:104-107). With
  equal names a layer comes back exactly if its base has the saved shape and the
  adapter's own element type (`Persistence.LayerRoundTripIff`,
  `Persistence.RoundTripIff`). On a base of another shape loading fails
  (`Persistence.LoadableIff`, `Persistence.WidthMatters`), unless the differing
  dimensions have size one: then other weights come back without an error
  (`Persistence.SilentlyStretched`). An adapter that was given an element type
  of its own comes back with that of its base, and so with another size
  (`Persistence.SilentlyConverted`).
- `freeze_ratio` is called the fraction of rows that remain active
  (src/python/msp/thermal.py:42-46). Of ten rows at 0.4 five remain, not four
  (`PluginLayer.ShareCanDiffer`). The fraction is met exactly under the condition
  of `PluginLayer.ShareExactIff`, and otherwise approximated within the bounds of
  `PluginLayer.ActiveShareAtLeast` and `PluginLayer.ActiveShareBelow`.

## Model

| member | source | states |
|---|---|---|
| DaemonProtocol.StepKeepsInv | src/daemon/watchdogd_main.c:161-230 | every step of main, of any watchdog ever spawned, of the shutdown handler and of signal delivery keeps the inductive invariant, as long as the server does not give up early |
| DaemonProtocol.RunKeepsInv | src/daemon/watchdogd_main.c:161-230 | so does every run |
| DaemonProtocol.DaemonSafety | src/daemon/watchdogd_main.c:161-230 | in every interleaving at most one signal can still reach main, none during the cooldown, main never dies of a signal or jumps to a dead frame, and each kill is one jump or the one signal under way |
| DaemonProtocol.EverySignalJumps | src/daemon/sandbox_watchdog.c:21-49 | every signal that reaches main inside the loop finds the handler armed with a jump point set in the present turn, comes after the violation was flagged, and leads to a cooldown without further sources |
| DaemonProtocol.FiringsAreViolations | src/daemon/sandbox_watchdog.c:73-93 | in every run, early returns included, the watchdogs that fired are exactly as many as the polls that read a violating sample |
| DaemonProtocol.FiresAtItsViolation | src/daemon/sandbox_watchdog.c:73-97 | each watchdog reads at most one violating sample, and has fired exactly if it did |
| DaemonProtocol.KillsNeverExceedViolations | src/daemon/sandbox_watchdog.c:79-94 | no signal without a violation: the kills of a run never exceed its violating polls |
| DaemonProtocol.HandlerJumpsIffArmed | src/daemon/sandbox_watchdog.c:21-35 | the installed handler jumps exactly if it is armed, and otherwise leaves main alone |
| DaemonProtocol.FlagMeansShutdown | src/daemon/watchdogd_main.c:52-61 | the loop's flag is down exactly if the shutdown handler ran |
| DaemonProtocol.LeavesOnlyThen | src/daemon/watchdogd_main.c:161-234 | main leaves its loop only after a shutdown or at a watchdog that cannot be started, and at the latter at once |
| DaemonProtocol.ShutdownLeadsOut | src/daemon/watchdogd_main.c:161-234 | after a shutdown main's own steps lead out from every state of the loop |
| DaemonProtocol.EarlyReturnDoublesSources | src/daemon/watchdogd_main.c:223-229 | without the assumption on the server this fails: from every serving state its early return leads to two signal sources |
| DaemonProtocol.GivingUpIsReachable | src/daemon/watchdogd_main.c:161-223 | the first turn leads to a state of the invariant in which the server can give up |
| DaemonProtocol.ReachServer | src/daemon/watchdogd_main.c:161-223 | before a shutdown main's own steps lead to the server from every state of the loop, and lose no signal source on the way |
| DaemonProtocol.EarlyReturnAddsSource | src/daemon/watchdogd_main.c:161-229 | from every serving state an early return adds a signal source, and the next one can follow |
| DaemonProtocol.ShutdownStepAddsNone | src/daemon/watchdogd_main.c:161-230 | after a shutdown no step of anyone adds to the signal sources, counting the watchdog that main may be about to spawn |
| DaemonProtocol.SafeForGoodIff | src/daemon/watchdogd_main.c:161-230 | with early returns of the server allowed, and from any state of the loop, no continuation ever has two signal sources if and only if the shutdown was requested and there is at most one source, counting the watchdog that main may be about to spawn |
| DaemonProtocol.ShutdownCanBeTooLate | src/daemon/watchdogd_main.c:161-230 | a run after which the shutdown was requested, one source is there, and main's next steps add a second one |
| DaemonProtocol.WatchdogStepCounts | src/daemon/sandbox_watchdog.c:66-98 | a watchdog's step hands its signal on or retires it, and only its kill raises the number of signalling watchdogs |
| DaemonProtocol.TestKeepsInv | src/daemon/watchdogd_main.c:161-162 | starting a new turn with a lowered violation flag cannot hide a violation under way |
| DaemonProtocol.SpawnKeepsInv | src/daemon/watchdogd_main.c:185-206 | re-raising the shared stop flag revives no watchdog of an earlier turn |
| Telemetry.MakePolicy | src/python/msp/watchdog_control.py:191-195 | exactly the policies with a positive interval and a non-negative limit are accepted, and they carry the given arguments |
| Telemetry.EvaluateIsMostSevere | src/python/msp/watchdog_control.py:197-211 | a policy reports nothing exactly for samples that break none of its limits, and otherwise the most severe reason that applies: security, then temperature, then memory |
| Telemetry.LimitsAreAllowed | src/daemon/sandbox_watchdog.c:75-77 | 85 degrees and 512 MB are no violation, anything above is, and NaN alone is not |
| Telemetry.MirrorAgrees | src/python/msp/watchdog_control.py:202-211 | a policy with the daemon's limits decides like the daemon on every sample, infinities and NaN included |
| Telemetry.TelemetryWatchdogDaemon | src/daemon/sandbox_watchdog.c:66-98 | the polling loop produces a run that the flag and the samples allow |
| Telemetry.WatchdogRunUnique | src/daemon/sandbox_watchdog.c:66-98 | and they allow only one |
| Telemetry.SignalsExactlyAtFirstViolation | src/daemon/sandbox_watchdog.c:69-96 | a watchdog signals once, at sample k, if and only if k is the first violating sample and the flag was up until then |
| ThermalReader.ContainsCi | src/daemon/thermal_reader.c:64-85 | the nested-loop search finds exactly the case-folded contiguous substrings |
| ThermalReader.ReadZone | src/daemon/thermal_reader.c:100-127 | an entry contributes exactly if name, path length, type and reading admit it |
| ThermalReader.Read | src/daemon/thermal_reader.c:94-143 | the single pass returns the mean or the maximum of exactly the matching readable zones, or fails if there are none |
| ThermalReader.ReportIsReading | src/daemon/thermal_reader.c:127-142 | the three accumulators determine the right mean and maximum |
| ThermalReader.ReadingUnique | src/daemon/thermal_reader.c:136-142 | there is one right reading of a list of zones |
| ThermalReader.FirstLineParts | src/daemon/thermal_reader.c:29 | what fgets delivers: a prefix that fits, ends with the first line end, and is no shorter than it must be |
| ThermalReader.TrimLineEndParts | src/daemon/thermal_reader.c:34-37 | all line ends at the end are removed, and nothing else |
| ThermalReader.LongTypesAreCut | src/daemon/thermal_reader.c:110-111 | of a longer type the C reader sees 63 characters |
| ThermalReader.AdmittedPathsFit | src/daemon/thermal_reader.c:100-108 | a zone is skipped exactly if its path with the terminator does not fit 300 bytes, or its name does not start as it should |
| ThermalReader.KeptZones | src/python/msp/thermal.py:118-126 | what the Python reader keeps exists and is a thermal zone |
| ThermalReader.KeepZone | src/python/msp/thermal.py:118-131 | a zone is kept exactly if its temp file exists, its name has an index and its type passes the filter |
| ThermalReader.Discover | src/python/msp/thermal.py:182-195 | the constructor keeps exactly those zones, in listing order |
| ThermalReader.PyRead | src/python/msp/thermal.py:198-220 | the Python call returns the mean or the maximum of exactly its matching readable zones |
| ThermalReader.Combine | src/python/msp/thermal.py:212-220 | the aggregate of the collected readings is the right reading |
| ThermalReader.SelectedMultiset | src/daemon/thermal_reader.c:98-125 | selecting keeps how often each counting entry is listed |
| ThermalReader.TotalOfPermutation | src/daemon/thermal_reader.c:128 | the sum does not depend on the order |
| ThermalReader.ListingOrderIrrelevant | src/daemon/thermal_reader.c:98-143 | neither does the reading depend on the order in which readdir lists the zones |
| ThermalReader.CompatibleIsExact | src/daemon/thermal_reader.c:110-120 | the two readers treat an entry alike under every filter if and only if they accept the same name and clean its type alike |
| ThermalReader.PlainTypesAgree | src/daemon/thermal_reader.c:19-39 | short, trimmed one-line type files are read alike on both sides |
| ThermalReader.PlainIsCompatible | src/python/msp/thermal.py:123-131 | so such zones are compatible |
| ThermalReader.ReadersAgree | src/python/msp/thermal.py:182-220 | on compatible directories both readers return the same value, or both none, for any filter, aggregate and listing orders |
| ThermalReader.ReadersCanDisagree | src/daemon/thermal_reader.c:111-120 | two concrete entries on which they differ |
| ThermalReader.UnreadableTypeMatchesIff | src/daemon/thermal_reader.c:111-120 | for both readers a zone with an unreadable type matches exactly the filters contained in "unknown" |
| ThermalReader.UnreadableTypeCanMatch | src/daemon/thermal_reader.c:111-120 | one of them is not empty |
| ThermalReader.FailsHot | src/daemon/thermal_reader.c:146-156 | a poll at which no matching zone is readable makes the watchdog signal |
| ThermalReader.MeanViolationIsMaxViolation | src/daemon/thermal_reader.c:136-142 | a violation under the mean is one under the maximum |
| TelemetryWire.LineIsShort | src/daemon/telemetry_server.c:105-111 | for every float and 64-bit size the line has at most 68 characters, so the truncation never happens |
| TelemetryWire.PayloadFits | src/daemon/telemetry_server.c:105-111 | of any line at most the first 127 characters are sent |
| TelemetryWire.LineByExample | src/daemon/telemetry_server.c:106-108 | the layout of a line, by example |
| TelemetryWire.NegativeByExample | src/daemon/telemetry_server.c:106-108 | negative temperatures, by example, negative zero included |
| TelemetryWire.InfinityByExample | src/daemon/telemetry_server.c:106-108 | the line of a failed read |
| TelemetryWire.AcceptedIsWritten | src/daemon/telemetry_server.c:24-37 | the loop's counter is the sum of what the calls report, up to the length |
| TelemetryWire.WriteAll | src/daemon/telemetry_server.c:23-40 | the bytes sent are the prefix whose length is the sum of what the calls report to have written; the buffer counts as sent exactly if that sum covers it, interrupts are retried, and no call follows a failed one |
| TelemetryWire.ReadFull | src/python/msp/thermal.py:264-291 | the client parses exactly the bytes delivered, in whatever pieces, and fails if the stream does not end |
| TelemetryWire.JoinedInOrder | src/python/msp/thermal.py:266-281 | every received piece stands where the pieces before it end |
| TelemetryWire.DeliveryByExample | src/python/msp/thermal.py:264-279 | what counts as a delivery, by example: pieces up to the end of the stream, and none without it |
| TelemetryWire.AcceptedHaveThreeFields | src/python/msp/thermal.py:281-284 | only ASCII texts of exactly three fields are accepted |
| TelemetryWire.DeliveryUnique | src/python/msp/thermal.py:266-271 | the received pieces are determined by the events |
| TelemetryWire.ParsePrintedTemp | src/python/msp/thermal.py:286 | float() of a printed temperature is that temperature rounded to three decimals, for every value |
| TelemetryWire.ParseLine | src/python/msp/thermal.py:281-291 | parsing a printed line gives the rounded temperature, the exact size and the exact flag |
| TelemetryWire.Received | src/python/msp/thermal.py:281-291 | so what the client makes of a complete line is the sample with a rounded temperature |
| TelemetryWire.PrefixSafety | src/python/msp/thermal.py:281-290 | a strict prefix is rejected, except that a missing line end changes nothing |
| TelemetryWire.EndToEnd | src/daemon/telemetry_server.c:102-112 | printer, truncation and parser together: of any part of the payload that is sent the client makes the rounded sample if it is all of it, and otherwise an error or that same sample |
| TelemetryWire.Query | src/python/msp/thermal.py:250-291 | one query through writing, a lossy network and reading: the rounded sample or an error, and no error if the line was sent and delivered |
| TelemetryWire.SameNumberIff | src/python/msp/thermal.py:231-237 | Python reads the daemon's number exactly if that is no finite number or a whole number of thousandths |
| TelemetryWire.RoundedAboveCritical | src/daemon/telemetry_server.c:106 | rounding keeps a temperature above 85 exactly if it exceeds 85.0005 |
| TelemetryWire.DecisionsAgree | src/python/msp/watchdog_control.py:202-211 | deciding on the parsed reading, Python never sees a violation the daemon does not, and misses one exactly in the stated band |
| TelemetryWire.MillidegreesAgree | src/daemon/thermal_reader.c:127 | readings of whole millidegrees arrive unchanged and are judged alike |
| SharedTelemetry.MaxReadingsAgree | src/daemon/thermal_reader.c:127-142 | under the maximum both sides act on the same number and decide alike, for all zones and for failed reads |
| SharedTelemetry.MeanMissedIff | src/daemon/thermal_reader.c:140-142 | under the mean a violation is missed exactly if the mean lies in the band |
| SharedTelemetry.MeanCanBeMissed | src/daemon/thermal_reader.c:140-142 | three zones with such a mean |
| Executor.ChildProcess.Join | src/python/msp/watchdog_control.py:481-484 | join returns by its timeout, and at the death of a child that dies by then |
| Executor.TerminateChild | src/python/msp/watchdog_control.py:470-484 | a live child gets SIGTERM at once, and SIGKILL exactly if it is still there after the grace period; a dead child is left alone; afterwards it is dead or was sent SIGKILL |
| Executor.Reclaim | src/python/msp/watchdog_control.py:457-465 | the finally clause leaves the child dead or killed |
| Executor.PollLoop | src/python/msp/watchdog_control.py:364-401 | the loop ends at the first turn that the environment makes final, with the locals and the time that this turn implies |
| Executor.EndChild | src/python/msp/watchdog_control.py:404-467 | _terminate and the finally clause together: which signals are sent, when, and by when the child is gone |
| Executor.Finish | src/python/msp/watchdog_control.py:403-467 | each way out of the loop yields its result, within its time, with exactly the signals that the child's behaviour calls for |
| Executor.GracePeriodIsGranted | src/python/msp/watchdog_control.py:403-484 | once a run is decided, no child is killed that ends within the grace period after SIGTERM, and no child is left alive without SIGTERM |
| Executor.ExitMeans | src/python/msp/watchdog_control.py:364-401 | what each way out of a turn says about queue and child: the queue counts as empty only after the drain, and telemetry is asked only for a live child without a message |
| Executor.NextPollFollowsProbe | src/python/msp/watchdog_control.py:364-396 | a poll starts when the probe before it has ended |
| Executor.Execute | src/python/msp/watchdog_control.py:364-467 | a call reports exactly the first final turn |
| Executor.FallbackIsSound | src/python/msp/watchdog_control.py:382-416 | a fallback carries the first sample that breaks the policy, with the most severe reason that applies, or the first probe error when errors count; all probes before were in policy, and no message had arrived |
| Executor.FallbackWithException | src/python/msp/watchdog_control.py:242-248 | fallback and exception together happen exactly for telemetry errors |
| Executor.RaiseMatchesDocumentationIff | src/python/msp/watchdog_control.py:251-258 | raise_if_error does what it documents exactly for completed children and for fallbacks other than telemetry errors |
| Executor.FallbackCanRaise | src/python/msp/watchdog_control.py:251-258 | a first probe that fails is a fallback that raises |
| Executor.MissingResultRaises | src/python/msp/watchdog_control.py:251-258 | a child that exits without publishing makes a run without fallback raise |
| Executor.NoResultLost | src/python/msp/watchdog_control.py:365-380 | without a fallback the child's message is returned exactly if it is visible by the end of the last bounded wait, also when the child is already dead |
| Executor.OnlyDeathIsSilent | src/python/msp/watchdog_control.py:270-291 | every target that returns or raises leads to a message, picklable or not |
| Executor.TargetOutcomeReported | src/python/msp/watchdog_control.py:261-291 | end to end, value, exception or pickling failure of the target come back unchanged |
| Executor.EarlierTurnsHarmless | src/python/msp/watchdog_control.py:364-401 | before the final turn nothing was published, nothing had died and no probe mattered |
| Executor.LoopEnds | src/python/msp/watchdog_control.py:364-380 | a child that publishes or exits by time d ends the loop by turn d / p, rounded up |
| Executor.PollsBounded | src/python/msp/watchdog_control.py:364-369 | at most d / p + 1 polls time out |
| Executor.TimeBounded | src/python/msp/watchdog_control.py:364-484 | run returns by d + p + t + 2g, plus twice the lag of its own steps, with the child gone |
| EloraAllocator.Heap.Malloc | src/cpp/elora_allocator.cpp:11-26 | any request may be refused, and a granted one gets any fresh address |
| EloraAllocator.Heap.Free | src/cpp/elora_allocator.cpp:28-34 | only a live block may be freed, so a double free would not verify |
| EloraAllocator.Allocator.AllocateKvContext | src/cpp/elora_allocator.cpp:47-57 | zero sizes and refusals change nothing; otherwise one block is appended to the entry, and every live block stays owned exactly once |
| EloraAllocator.Allocator.ExecuteDependencyEviction | src/cpp/elora_allocator.cpp:59-69 | exactly the blocks of the entry are freed, each once, and the entry is gone |
| EloraAllocator.Allocator.BytesResidentFor | src/cpp/elora_allocator.cpp:71-81 | the loop sums the sizes of the entry's blocks, zero if there is none |
| EloraAllocator.Allocator.Destroy | src/cpp/elora_allocator.cpp:36-45 | nothing stays allocated |
| EloraAllocator.TotalSizeSplit | src/cpp/elora_allocator.cpp:76-80 | a total counts every size once |
| EloraAllocator.LiveDetermined | src/cpp/elora_allocator.cpp:47-69 | the dependency tree determines the live heap, so restoring one restores the other |
| EloraAllocator.OwnsPush | src/cpp/elora_allocator.cpp:55 | appending a fresh block keeps every live block owned exactly once |
| EloraAllocator.OwnsEvict | src/cpp/elora_allocator.cpp:64-67 | so does an eviction: no leak and no dangling entry |
| EloraAllocator.EvictedBytes | src/cpp/elora_allocator.cpp:59-81 | an eviction lowers the live bytes by what the entry reported |
| NativeBlocks.ReserveBlocks | src/python/msp/adapter_manager.py:124-142 | one block per layer with bytes, in order; if the k-th request is refused, for any k, tree and live heap are as before |
| NativeBlocks.ReserveUntilRefused | src/python/msp/adapter_manager.py:124-129 | the loop stops at the first refused request and has touched one entry only |
| AdapterManager.Manager.Create | src/python/msp/adapter_manager.py:63-76 | budgets that are not positive are rejected; otherwise the manager starts empty |
| AdapterManager.Manager.ResidentBytes | src/python/msp/adapter_manager.py:87-89 | the sum over all resident layers, whatever the order |
| AdapterManager.Manager.LoadAdapter | src/python/msp/adapter_manager.py:100-142 | refines the registry's load; a failed load leaves registry, active id, id map, tree and live heap as they were |
| AdapterManager.Manager.Admit | src/python/msp/adapter_manager.py:118-142 | the part behind the two checks refines the registry's load and keeps the native side coupled to it |
| AdapterManager.Manager.Remove | src/python/msp/adapter_manager.py:150-161 | removing a resident adapter keeps the native side coupled |
| AdapterManager.Manager.UnloadAdapter | src/python/msp/adapter_manager.py:144-161 | refines the registry's unload; no gradient hook of the adapter's layers survives |
| AdapterManager.Manager.Activate | src/python/msp/adapter_manager.py:163-166 | a resident adapter becomes the active one; otherwise an error, and nothing changes |
| AdapterManager.Manager.Swap | src/python/msp/adapter_manager.py:171-180 | a resident target becomes the active adapter and nothing is unloaded; otherwise an error, and nothing changes |
| AdapterManager.PerformAll | src/python/msp/adapter_manager.py:100-180 | any run of calls ends in the state the registry's run gives, still coupled |
| AdapterManager.NativeHeapWithinBudget | src/python/msp/adapter_manager.py:106-118 | the native heap holds exactly the resident bytes, hence at most the budget |
| AdapterManager.BackedAdapterCount | src/cpp/elora_allocator.cpp:83-85 | asked through the manager, the allocator's count is the number of resident adapters that occupy memory |
| AdapterManager.ClearHooks | src/python/msp/adapter_manager.py:153-154 | every hook of the given layers is removed and the layers stay well formed |
| AdapterRegistry.RunKeepsSound | src/python/msp/adapter_manager.py:100-166 | over every run the resident bytes stay within the budget, the active id is none or resident, and the native ids fit the registry |
| AdapterRegistry.BytesConserved | src/python/msp/adapter_manager.py:87-161 | resident bytes plus bytes unloaded equal initial bytes plus bytes loaded |
| AdapterRegistry.ResidentIffLoaded | src/python/msp/adapter_manager.py:100-150 | an adapter is resident exactly if a load of it succeeded and no unload followed |
| AdapterRegistry.ResidentHasLoadedSizes | src/python/msp/adapter_manager.py:118 | and then it has the sizes of that load |
| AdapterRegistry.ActiveIffSwitched | src/python/msp/adapter_manager.py:155-180 | over every run an adapter is active exactly if a successful activate or swap named it and since then it was not unloaded and no other one was activated |
| AdapterRegistry.LoadFaultIff | src/python/msp/adapter_manager.py:106-142 | exactly when a load succeeds and which error it gives otherwise, in the source's order; a load that fills the budget to the last byte succeeds |
| AdapterRegistry.IdsNeverReused | src/python/msp/adapter_manager.py:120-123 | successful loads of a run receive strictly growing native ids |
| AdapterRegistry.UnloadUndoesLoad | src/python/msp/adapter_manager.py:118-161 | loading and unloading again restores everything but the counters |
| AdapterRegistry.TotalRemove | src/python/msp/adapter_manager.py:89 | a total may be taken in any order |
| AdapterRegistry.RequestsAfter | src/python/msp/adapter_manager.py:124-129 | granted requests count one each, up to the first refused one |
| AdapterRegistry.CoupledLoad | src/python/msp/adapter_manager.py:118-128 | adding an entry under the next id keeps tree and registry coupled |
| AdapterRegistry.CoupledUnload | src/python/msp/adapter_manager.py:150-161 | removing an adapter and its entry keeps them coupled |
| AdapterRegistry.NativeBytesMatch | src/cpp/elora_allocator.cpp:71-81 | what the allocator reports for an adapter is its byte size, zero-size layers or not |
| AdapterRegistry.EntryIffBytes | src/cpp/elora_allocator.cpp:47-69 | an adapter has an entry in the tree exactly if it occupies memory |
| AdapterRegistry.TreeCountsAdapters | src/cpp/elora_allocator.cpp:83-85 | so the allocator's count is the number of resident adapters that occupy memory |
| EloraAllocator.LiveBytesOfTree | src/cpp/elora_allocator.cpp:71-81 | the live heap holds as many bytes as all entries report together |
| AdapterRegistry.HeapHoldsResidentBytes | src/cpp/elora_allocator.cpp:36-81 | the live heap holds as many bytes as the registry counts |
| GradientKernel.GridCoversOnce | src/cuda/fused_msp_backward_kernel.cu:100-105 | every cell belongs to exactly one thread of the ceiling-division grid |
| GradientKernel.GridIsTight | src/cuda/fused_msp_backward_kernel.cu:141-143 | the grid has no more blocks of 256 threads than it needs |
| GradientKernel.NoStrideFreezesAll | src/cuda/fused_msp_backward_kernel.cu:107-113 | while throttling, a stride that is not positive leaves the whole buffer unchanged |
| GradientKernel.FlatInBounds | src/cuda/fused_msp_backward_kernel.cu:117-119 | flat indices stay in bounds |
| GradientKernel.FlatInjective | src/cuda/fused_msp_backward_kernel.cu:119 | flat indices never collide |
| GradientKernel.KernelThread | src/cuda/fused_msp_backward_kernel.cu:100-119 | one thread writes its own active cell with the full batch sum and nothing else |
| GradientKernel.StepThread | src/cuda/fused_msp_backward_kernel.cu:100-119 | one step of a thread between any steps of the others |
| GradientKernel.EffectOnCell | src/cuda/fused_msp_backward_kernel.cu:119 | a store changes only its owner's cell |
| GradientKernel.ProgressStep | src/cuda/fused_msp_backward_kernel.cu:100-119 | a step of any thread keeps the description of the half-finished buffer |
| GradientKernel.RunGrid | src/cuda/fused_msp_backward_kernel.cu:141-149 | under every schedule that lets each thread finish, active cells hold their batch sums and frozen cells are unchanged |
| GradientKernel.KernelResultUnique | src/cuda/fused_msp_backward_kernel.cu:89-120 | so the buffer does not depend on the schedule |
| GradientKernel.LossIsGradientDot | src/cuda/fused_msp_backward_kernel.cu:76-80 | interchanging the triple sum turns the loss into the product with the kernel's cells |
| GradientKernel.KernelIsGradient | src/cuda/fused_msp_backward_kernel.cu:76-80 | for every perturbation the loss moves by its entrywise product with the kernel's output |
| GradientKernel.KernelIsPartialDerivative | src/cuda/fused_msp_backward_kernel.cu:76-80 | each cell is the partial derivative of the loss by its entry of A |
| GradientKernel.LaunchIsGradient | src/cuda/fused_msp_backward_kernel.cu:115-119 | what an unthrottled launch leaves in memory is the gradient of the loss at every A, for every perturbation and whatever the buffer held before |
| GradientKernel.GradientUnique | src/cuda/fused_msp_backward_kernel.cu:76-80 | and no matrix with other entries is |
| LayerGradient.KernelIsLayerGradient | src/python/msp/plugin_layer.py:117-126 | fed with s G B, the kernel yields the gradient of the layer's own output loss: for every perturbation of A the loss of forward moves by its product with the kernel's output |
| LayerGradient.LaunchIsLayerGradient | src/cuda/fused_msp_backward_kernel.cu:115-119 | the same for the buffer that an unthrottled launch leaves in memory |
| LayerGradient.OutputLossSplits | src/python/msp/plugin_layer.py:117-126 | the loss of the layer's output is the frozen layer's loss and the loss that the kernel differentiates |
| LayerGradient.InnerAdjoint | src/python/msp/plugin_layer.py:122-125 | the upstream gradient passes through B |
| PluginLayer.Layer.Create | src/python/msp/plugin_layer.py:63-98 | ranks that are not positive are rejected; a new layer has a zero B and an open gate |
| PluginLayer.Layer.ResetParameters | src/python/msp/plugin_layer.py:100-111 | B becomes zero whatever A becomes |
| PluginLayer.ForwardIsMerged | src/python/msp/plugin_layer.py:117-126 | with the gate open every output is the input's row times the row of W + s B A, plus the bias if there is one |
| PluginLayer.ForwardIsBase | src/python/msp/plugin_layer.py:93-111 | a zero B, for any A, or a closed gate gives the frozen layer's output, weight and bias |
| PluginLayer.MergedProduct | src/python/msp/plugin_layer.py:121-126 | the two products and the scaling are one product with the merged weight |
| PluginLayer.BuildMask | src/python/msp/plugin_layer.py:179-180 | the strided assignment marks exactly the multiples of the stride |
| PluginLayer.RunHook | src/python/msp/plugin_layer.py:176-181 | the hook zeroes exactly the other rows, and only while throttling |
| PluginLayer.Layer.GateGradients | src/python/msp/plugin_layer.py:172-189 | afterwards exactly two hooks with the new stride are registered, one for A's rows and one for B's, however often it is called |
| PluginLayer.Layer.ParameterBytes | src/python/msp/plugin_layer.py:200-201 | rank times the sum of the base's sides times the element size |
| PluginLayer.KernelAgreesWithGate | src/python/msp/plugin_layer.py:172-181 | on a zeroed buffer with equal thresholds and strides the kernel leaves exactly the gradient that the Python hook returns, whatever the stride |
| PluginLayer.ProjectIsMatMul | src/cuda/fused_msp_backward_kernel.cu:78 | the map the kernel differentiates is the layer's own first product |
| PluginLayer.ActiveRowsBracket | src/python/msp/plugin_layer.py:180 | n / stride rounded up rows stay active |
| PluginLayer.ActiveRowsCounted | src/python/msp/plugin_layer.py:180 | active rows are the ones that the mask marks |
| PluginLayer.ActiveRowsIff | src/python/msp/plugin_layer.py:180 | m rows stay active if and only if n <= m s < n + s |
| PluginLayer.ShareExactIff | src/python/msp/plugin_layer.py:173-180 | the requested share is met exactly if it is a whole number of rows that the stride yields |
| PluginLayer.ShareCanDiffer | src/python/msp/plugin_layer.py:173-180 | ten rows at 0.4: five stay active |
| PluginLayer.ActiveShareAtLeast | src/python/msp/plugin_layer.py:173-180 | at least 2nr / (2 + r) rows stay active for every ratio r, in spite of half-even rounding |
| PluginLayer.ActiveShareBelow | src/python/msp/plugin_layer.py:173-180 | fewer than 2nr / (2 - r) + 1 rows stay active |
| Matrices.MatMulAssociative | src/python/msp/plugin_layer.py:122-125 | the two products of the forward pass may be regrouped |
| Matrices.TransposeOfProduct | src/python/msp/plugin_layer.py:122-125 | and their transposed factors merged |
| Persistence.KeysInjective | src/python/msp/persistence.py:72-73 | tensor keys never collide, whatever dots or suffixes the layer names contain |
| Persistence.KeysByExample | src/python/msp/persistence.py:72-73 | the tensor keys of one layer, by example |
| Persistence.PutKeepsFile | src/python/msp/persistence.py:62-81 | adding a layer overwrites no earlier tensor or entry |
| Persistence.SaveAdapter | src/python/msp/persistence.py:56-90 | nothing to save and foreign values are rejected; otherwise the file holds every layer, two tensors each, and nothing besides |
| Persistence.LoadAdapter | src/python/msp/persistence.py:109-152 | which error occurs, in order, or else one fresh layer per base layer with the restored weights |
| Persistence.RestoreLayer | src/python/msp/persistence.py:140-150 | a layer is rebuilt exactly if rank, keys and shapes allow it |
| Persistence.FaultIsExplained | src/python/msp/persistence.py:140-148 | each error about a layer says what is wrong with it, and a layer is restored only if nothing is |
| Persistence.StretchedEntries | src/python/msp/persistence.py:147-148 | which entries a stretched layer has |
| Persistence.LoadableIff | src/python/msp/persistence.py:127-150 | with equal names a saved file loads if and only if every layer is attachable to its namesake |
| Persistence.LayerRoundTripIff | src/python/msp/persistence.py:140-149 | an attachable layer loads without error, and comes back as saved exactly if the base has the saved shape and element type |
| Persistence.RoundTripIff | src/python/msp/persistence.py:62-152 | with equal names, loading succeeds and gives back A, B, rank, scaling, gate and element type of every layer if and only if every base has the saved shape and element type |
| Persistence.WidthMatters | src/python/msp/persistence.py:146-148 | a family of files and bases, decided by their widths: which load, and which come back |
| Persistence.SilentlyStretched | src/python/msp/persistence.py:146-148 | a layer of width one that loads on a base of width three, as other weights |
| Persistence.SilentlyConverted | src/python/msp/persistence.py:141-148 | an adapter of 56 bytes that loads on its own base as one of 28, with the base's element type |
| Persistence.SaveAndLoad | src/python/msp/persistence.py:45-152 | saving and then loading on the same names succeeds exactly if all bases are attachable, and gives back everything exactly if they match in shape and element type |
| Text.FoldsOnlyCase | src/daemon/thermal_reader.c:76 | folding identifies the two cases of each letter and nothing else |
| Text.StripParts | src/python/msp/thermal.py:128 | strip() removes white space at both ends and nothing else |
| Rounding.NearestEvenUnique | src/python/msp/plugin_layer.py:173 | rounding to nearest with ties to even determines its result |

## Left out

- Integrity checks (src/daemon/integrity_check.c): OpenSSL's cryptography.
- Sockets, `select`, `accept`, sysfs access, pybind11 and the safetensors container: only the bytes and results they deliver are modelled.
- Socket errors of the telemetry server: a single early return stands for all of them.
- Everything after main leaves its loop, including a signal that arrives then; process teardown races are not modelled.
- The two steps of arming (handler, jump point) cannot fail in the daemon model; `sigaction` errors are not modelled.
- A `violation_flag` that is null: main always passes one.
- Floating-point rounding in matrix products, in `alpha / rank * rank`, in means, and the cast of temperatures to 32 bits: reals are used.
- 32-bit overflow of kernel indices and of native ids.
- CUDA streams and launch errors; an empty grid simply runs no thread, and the block size is the launcher's 256.
- Random initialisation, optimisers, training and `forward_async`.
- `msp_allocate_isolated_region`: platform behaviour.
- `ThermalMonitor`, `ScriptedThermalReader` and the probe builders: one-line wrappers around the readers and decisions that are modelled. The hook receives the monitor's reading and threshold as arguments.
- The class invariant of layers: the manager's callers keep the layers they share with it well formed.
- `AdapterManager.get_layer` and `resident_adapter_ids`: plain look-ups. Layers of an adapter are therefore a sequence without their names.
- A layer whose parameters are replaced by ones of another shape while it is resident: layers keep the shapes of their construction.
- Aggregates other than max and mean, which the Python reader rejects.
- EloraAllocator.Allocator.ResidentAdapterCount: only returns the size of the tree; AdapterManager.BackedAdapterCount says what that counts.
- ThermalReader.PyRead: sees one state of the directory, both at construction and at the call, and "no reading" stands for either of the reader's two RuntimeErrors.
- ThermalReader.Read: the "temp" file enters as the integer found in it. C and Python accept slightly different spellings (C ignores what follows the number), and this difference is not modelled.
- ThermalReader.ContainsCi: folds ASCII letters only. NUL bytes in type files, other alphabets, and the daemon's own cut of long filters are not modelled.
- ThermalReader.KeepZone: accepts digits as a zone index; the further spellings that `int()` allows (sign, underscores, spaces) are not modelled.
- TelemetryWire.ParsePrintedTemp: parses decimal numerals and the names of infinities and NaN. Exponents and underscores, which are never printed, count as malformed, and a negative NaN is printed like a positive one.
- TelemetryWire.ReadFull: a pause that is too long is the end of the events.
- Executor.TargetOutcomeReported: pickling a picklable value and unpickling it is the identity; the child's traceback text is not modelled.
- Executor.Execute: exceptions that arrive in the parent while it terminates or joins the child are not modelled, and a poll that times out takes exactly the poll interval, later delays being lags of the turn.
- Persistence.LoadAdapter: a KeyError for a missing tensor and a RuntimeError for a shape are error values. A conversion to the base's element type changes the type and the size of a layer but, over the reals, not its entries. Gradient hooks are no part of a file: a loaded layer has none.
- Persistence.SaveAdapter: writing the file cannot fail.
