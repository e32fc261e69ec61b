# A verified model of sysc-metrics

sysc-metrics turns raw kernel counters into rates, shares and aggregates. Reading the files is plumbing;
what can go wrong is the state kept between samples: baselines, half-read reports, open counters, retry
clocks, caches. This project models that state in Dafny 4.11 and proves what the samplers promise over
whole runs and over every input. `dafny verify dfyconfig.toml` checks all of it.

How it is laid out:

- `Text`, `TextMeaning`, `Folds`, `Quotients`, `Ledger`, `Wrappers`: byte strings and number parsing as Go does
  them, sums over sets in any order, an auditor for resources that are opened, used and closed.
- `NvidiaStream`, `NvidiaFraming`: the framer for nvidia-smi output, and its independence of chunks, the
  origin of every served report, and the print/frame round trip.
- `NvidiaChild`, `NvidiaRuns`, `NvidiaServing`, `NvidiaFallback`: the child's life under GPUSampler, its ledger,
  the spacing of starts, what Sample answers in terms of the child's own output, and without a child.
- `PciAddress`, `PmuMapping`, `PmuMatching`: address spellings, the greedy GPU/PMU matching, its optimality.
- `PmuEngine`, `PmuSampler`, `PmuRuns`: one engine counter over time, a GPU's usage, ownership of open
  counters, and whole runs in which GPUs come and go.
- `Fdinfo`, `FdinfoReading`, `FdinfoUsage`, `FdinfoWalk`: usage from DRM clients in any map order, what it is in
  the clients' own counters, and the walk back-off.
- `DeltaHistory`, `Block`, `Network`, `Cpu`: the baseline rule the delta samplers share, against the full
  history of samples, and conservation of counts by rates.
- `ProcessSampler`, `ProcessWindow`: the two-read window around a process walk.
- `ProcessStat`, `PciNames`, `PciTables`, `MountField`, `Battery`, `BatteryTheorems`, `BatteryMeaning`, `FreeBsd`,
  `FreeBsdMemory`: the parsers, the name cache and the aggregations.

Objects that the code updates in place are classes whose methods are proved equal to a function of the old
state; whole-run results are lemmas about that function. Go maps are walked by picking any remaining key.
Times are integers in nanoseconds, a zero `time.Time` is `None`, a byte string is a string with one
character per byte, floating point numbers are reals. `Wrap` stands where 64-bit arithmetic is unchecked.

Two properties do not hold as one might state them; each has concrete cases and the exact condition:

- A served nvidia-smi report can mix two reports. When one stops early, the rows of the next are joined to
  it if it stopped between rows and their counts are equal; and if it stopped inside a row, that row and the
  next report's first line run together, whatever the counts (`MixedReportExample` has both, and a third with
  no whole row pending). For a report cut at any byte, in any chunks, the next complete report is served alone
  exactly when nothing of the first was printed, or it stopped at the end of a row and the counts differ
  (`TruncatedThenComplete`). The only other way to end with that report as the tick and nothing pending is
  that it was the tick before: one row, whose count runs together with the cut one into a number too large
  to be a count, is dropped. `TruncatedServes` names what is served in every case.
- The restart delay grows only with failed starts. A child that starts and is then lost, even at its first
  read, is retried after exactly two seconds (`LostChildRetriedAfterTwoSeconds`), and n such losses in a row
  come two seconds apart (`CrashLoopNeverBacksOff`). The delay after a failed start is exactly that of the
  failures since the child last ran, of which its loss is one (`FailedStartRetriedAfterDelay`).

## Model

| member | source | states |
|---|---|---|
| NvidiaStream.Stream.Feed | gpu_nvidia_linux.go:195-209 | Framing one chunk line by line ends in the state of one batch read of everything buffered: split at newlines, trim, drop blanks, add rows |
| NvidiaStream.Stream.AddLine | gpu_nvidia_linux.go:213-231 | A row without a count abandons the report, another count starts a new one, the last row of a report publishes it |
| NvidiaStream.Stream.Drain | gpu_nvidia_linux.go:178-192 | Draining a child reads up to its first silent or closing read and frames exactly those bytes |
| NvidiaStream.DrainedUpTo | gpu_nvidia_linux.go:178-192 | The bytes drained are those up to the first read that is silent or ends the child, that one included; the child is gone exactly when that read ended it |
| NvidiaStream.Stream.Serve | gpu_nvidia_linux.go:169-175 | The newest report is served unless there is none, the child is gone, or it is stale |
| NvidiaStream.FramedIsSettled | gpu_nvidia_linux.go:195-209 | Line-by-line framing equals the batch read on every buffer, and leaves no complete line behind |
| NvidiaStream.FeedingInParts | gpu_nvidia_linux.go:195-209 | Feeding two texts in turn equals feeding their concatenation, wherever the cut falls |
| NvidiaFraming.ChunksIrrelevant | gpu_nvidia_linux.go:178-231 | After any chunks at any instants, buffered tail, pending rows, count and tick are those of one feed of the whole text |
| NvidiaFraming.ServedReportStood | gpu_nvidia_linux.go:213-231 | On any rows whatever, a served report is n consecutive rows that each announce n, and no later report was completed; none is served exactly while none was completed |
| NvidiaFraming.ServedReportStoodInOutput | gpu_nvidia_linux.go:169-231 | The same for output in any chunks: whatever is served stood there as n consecutive non-blank lines that announce n |
| NvidiaFraming.RowCountOfPrinted | gpu_nvidia_linux.go:252-262 | Parsing the count prefix of a printed row returns the count and the row |
| NvidiaFraming.CutOutputServesLastReport | gpu_nvidia_linux.go:169-231 | Complete reports followed by the next one cut at any byte, in any chunks: the tick is exactly the last complete report, empty when there is none |
| NvidiaFraming.TruncatedServes | gpu_nvidia_linux.go:195-231 | After a report that stops after m whole rows and any part of the next, then a complete report, the tick is named row by row in every case |
| NvidiaFraming.TruncatedThenComplete | gpu_nvidia_linux.go:169-231 | A report cut at any byte, then a complete one, in any chunks: the complete one is served with nothing pending exactly when the cut is empty, or it ends a row and the counts differ (or the count run together is too large and the same readings were the tick before) |
| NvidiaFraming.JoinedCount | gpu_nvidia_linux.go:252-262 | A row cut inside its count takes the digits of both counts, more than the next report's count, or is refused when they do not fit an int; cut later it keeps its count and its data differs from the next report's |
| NvidiaFraming.MixedReportExample | gpu_nvidia_linux.go:213-231 | Three outputs with their bytes: a mix between rows with equal counts, inside a row with different counts, and with nothing pending |
| NvidiaChild.GpuSampler.NvidiaBackoff | gpu_linux.go:617-626 | Caps the failure count so the shifted delay stays far inside 64 bits, and returns the capped delay |
| NvidiaChild.GpuSampler.StartStream | gpu_linux.go:574-585 | A start makes the next child with a clean framer and clears the failures; a failed start counts and holds the next one back |
| NvidiaChild.GpuSampler.NvidiaRows | gpu_linux.go:526-570 | Serve, stay quiet, fall back, give up and back off: the state, rows, fault and child events of one call |
| NvidiaChild.GpuSampler.Close | gpu_linux.go:631-634 | Stops a live child and clears the retry instant, keeping the failure count |
| NvidiaRuns.RunKeepsBooks | gpu_linux.go:526-595 | After any run of samples and closes the log of starts, reads and stops is accepted by the auditor and its live children are exactly the sampler's own |
| NvidiaRuns.ChildLifecycle | gpu_linux.go:526-643 | Every child started was stopped once or is the current one; a stopped child is never read, stopped or reused |
| NvidiaRuns.NothingLiveAfterClose | gpu_linux.go:631-634 | After Close every child ever started has been stopped |
| NvidiaRuns.StartsAreSpaced | gpu_linux.go:526-585 | With a clock that does not run back and no Close, the next start attempt comes at least min(2^m, 30) s after m failed starts in a row, 2 s after a good one |
| NvidiaRuns.AttemptsInWindow | gpu_nvidia_linux.go:33-47 | In any such run, no window of length T holds more than T/2s + 1 start attempts |
| NvidiaRuns.FailuresAreCounted | gpu_linux.go:526-585 | Over any run without Close the failure count is the failed starts in a row plus the loss of the child before them, capped; none while the child runs |
| NvidiaRuns.FailedStartRetriedAfterDelay | gpu_linux.go:574-626 | After any run without Close a failed start holds the next one back by exactly min(2^m, 30) s, m being the failures since the child last ran |
| NvidiaRuns.Delays | gpu_nvidia_linux.go:33-47 | The delays are 2, 4, 8 and 16 seconds, and 30 from the fifth failure on |
| NvidiaRuns.LostChildRetriedAfterTwoSeconds | gpu_linux.go:554-570 | In every reachable state a child lost, also in the call that started it, is retried exactly two seconds later |
| NvidiaRuns.CrashLoopNeverBacksOff | gpu_linux.go:526-570 | A child started and lost in each of n samples two seconds apart: n starts, and the next is due after two seconds again |
| NvidiaServing.FrameIsHeard | gpu_linux.go:526-594 | In every reachable state the running child's frame is one framing of all that was read from that child since its start |
| NvidiaServing.ServedRowsAreFresh | gpu_linux.go:526-570 | After any run, what a running child answers is its newest report: it stood in that child's own output as n lines that announce n, is dated by the read that completed it, and is at most two periods old; a child is given up for the one-shot run only when gone or silent for longer |
| NvidiaServing.LinesOfJoined | gpu_nvidia_linux.go:264-273 | An answer is text whose lines, each ended, are exactly the rows of the report |
| NvidiaServing.SampleAnswersLastPrinted | gpu_linux.go:526-594 | A running child that printed complete reports and part of the next, read in any pieces over any samples: the lines Sample answers are the rows of the last complete one |
| NvidiaFallback.OneShotAnswersUntilRetry | gpu_linux.go:526-545 | While the next start is held back, or when the sampler runs no child, the one-shot run answers every sample and no child is touched |
| NvidiaFallback.OneShotAnswersAfterFault | gpu_linux.go:526-585 | After any run, once a child is lost or a start failed, that is so for every sample before the retry instant |
| NvidiaFallback.FaultsAreReported | gpu_linux.go:554-585 | A fault is reported exactly when a child was lost and the one-shot run answers; a failed start has no rows |
| NvidiaFallback.PeriodFollowsConsumer | gpu_linux.go:599-614 | A child started after any run loops at the gap since the last sample, at least half a second and at most five, one second without a sample |
| Ledger.AuditMeaning | gpu_pmu_linux.go:287-291 | In an accepted log a resource is opened once, used only while open, closed at most once and silent afterwards |
| Ledger.AuditLive | gpu_pmu_linux.go:287-291 | The auditor's live set is exactly what was opened and not closed |
| TextMeaning.TrimsAllSpace | process_linux.go:46-66 | Trimming takes exactly the white space of Unicode, in UTF-8, off both ends |
| TextMeaning.ParsesExactlyNumbers | process_linux.go:67-86 | A text parses as an unsigned number exactly when it is that number's decimal digits and fits 64 bits |
| TextMeaning.ParsesSignedNumbers | gpu_nvidia_linux.go:252-262 | With a sign it is the signed number, in the range of 64 bits |
| PciAddress.MatchAcrossWidths | gpu_linux.go:429-452 | Two spellings match exactly when domain and slot are the same, whatever the width of the domain; a bare address is in domain zero |
| PciAddress.CaseDoesNotMatter | gpu_linux.go:429-452 | Spellings that differ in case only match the same addresses |
| PciAddress.NameBDFRoundTrip | gpu_pmu_linux.go:138-155 | Recovering the address from a per-device PMU name undoes naming the PMU after it |
| PciAddress.OnlyAddressesAreNames | gpu_pmu_linux.go:138-155 | A name that is not the driver's, or whose rest is no full address, gives none |
| PmuMapping.AssignByAddress | gpu_pmu_linux.go:224-235 | Each GPU in turn gets its first free fitting PMU, and a PMU is claimed exactly when some GPU has it |
| PmuMapping.MapGPUPMUs | gpu_pmu_linux.go:216-258 | The address matching, plus the only lonely GPU with the only spare PMU when there is exactly one of each |
| PmuMatching.FitsIsSameKey | gpu_linux.go:432-436 | Driver and address fitting is equality of a key, hence an equivalence on parseable addresses |
| PmuMatching.GreedyIsMaximum | gpu_pmu_linux.go:224-235 | The greedy stage is a valid injective matching, and no valid injective assignment matches more GPUs |
| PmuMatching.GreedyIsMaximal | gpu_pmu_linux.go:224-235 | A GPU stays unmatched only when every PMU that fits it went to an earlier GPU |
| PmuMatching.MappingIsSound | gpu_pmu_linux.go:210-258 | No PMU serves two GPUs, address matches stand, and the fallback adds a GPU exactly when one GPU and one PMU are left over |
| PmuMatching.FallbackIsExact | gpu_pmu_linux.go:236-257 | The fallback in plain terms: exactly one GPU of the driver without a PMU and exactly one unclaimed PMU without address named after the driver are put together, else nothing is added |
| PmuEngine.EngineBusy | gpu_pmu_linux.go:264-273 | A fraction exists exactly for a non-negative advance no larger than a positive interval, is within 0 and 1, and times the interval is the advance |
| PmuEngine.BaselineIsLastReading | gpu_linux.go:745-759 | An engine's baseline is always the reading of the sample just before, or none |
| PmuEngine.EngineKnows | gpu_linux.go:714-744 | From the environment's answers alone: an open is tried exactly when none succeeded and no denial is less than a minute old, and a counter is held exactly from the first open that succeeds |
| PmuEngine.FailedOpenIsRetried | gpu_linux.go:726-737 | An open that failed without being denied is tried again in the next sample |
| PmuEngine.UsageComesFromTwoReadings | gpu_linux.go:706-766 | Over any run, an engine has a usage exactly when its counter was open and read successfully in this sample and the one before and the values fit; it is the advance over the time between the reads |
| PmuEngine.ReportedBusyTelescopes | gpu_linux.go:750-760 | Fraction times elapsed, summed over usable samples, is the counter's advance |
| PmuEngine.DeniedOpenWaits | gpu_linux.go:720-744 | After a denied open no attempt is made for a minute, and the denial stays reported |
| PmuSampler.MaxBusyFraction | gpu_pmu_linux.go:277-285 | The largest of the fractions, 0 without any |
| PmuSampler.IntelSampler.SampleGPU | gpu_linux.go:706-766 | Every engine takes its turn in order, usage is the largest fraction or none, and the books of open counters hold |
| PmuSampler.IntelSampler.CloseCounters | gpu_linux.go:768-780 | Closes every open counter of one GPU once and touches no other GPU |
| PmuSampler.IntelSampler.ApplyIntelPMU | gpu_linux.go:648-688 | GPUs that stay keep their baselines, new and returning ones start fresh, vanished ones are closed and dropped, in any map order |
| PmuSampler.IntelSampler.Close | gpu_linux.go:631-643 | Nothing is open afterwards |
| PmuSampler.TurnKeepsBooks | gpu_linux.go:714-760 | Whatever an engine does in its turn, open counters and held counters stay the same set, each held once |
| PmuSampler.OpenCountersAreHeld | gpu_linux.go:648-688 | A counter was opened and never closed exactly when an engine holds it |
| PmuSampler.EnginesAreIndependent | gpu_linux.go:714-760 | Inside a GPU each engine goes through its own run, whatever the others do |
| PmuSampler.GpuUsageIsSound | gpu_linux.go:699-766 | A GPU has a usage exactly when every engine was read now and just before with values that fit; it is the largest of their advances over time, within 0 and 1 |
| PmuSampler.HealthyGpuHasUsage | gpu_linux.go:706-766 | When every open and read succeeds, a GPU has a usage in every sample from its second on exactly when the values read are in order, and it is the largest advance over the time between the last two reads |
| PmuRuns.SamplerHoldsLives | gpu_linux.go:648-688 | After any run of samples and closes, with GPUs coming and going, the sampler holds exactly the GPUs of the last sample, each in the state of its own samples since it last appeared |
| PmuRuns.UsageOverRuns | gpu_linux.go:648-766 | In any such run a GPU has a usage exactly when every engine was read in this sample and the one before of that life with readings that fit; none in the sample in which it appears or returns |
| Fdinfo.Accumulate | gpu_fdinfo_linux.go:156-185 | For every class and any map order, the accumulators hold the 64-bit sum, largest total and largest capacity over exactly the clients with a baseline |
| Fdinfo.Busy | gpu_fdinfo_linux.go:238-273 | The reading is the largest clamped share over the readable classes, for every visiting order, and exists exactly when a class is readable |
| Fdinfo.FdinfoBusy | gpu_fdinfo_linux.go:229-236 | The larger of the engine-time and cycle readings, or the only one |
| FdinfoReading.UsageIsUnique | gpu_fdinfo_linux.go:221-273 | A device has one usage only, whatever the map order, between 0 and 1; it exists exactly when some class can be read from time or cycles |
| FdinfoUsage.ClassShareIsExact | gpu_fdinfo_linux.go:198-273 | In the clients' own counters: the users of a class are those in both samples that have it in both and in which no counter got smaller; its share times their largest capacity times the window is the sum of their advances |
| FdinfoUsage.UsageIsLargestShare | gpu_fdinfo_linux.go:221-273 | The usage is the largest such share over all classes, by time or cycles, at most 1, and exists exactly when some class has a user |
| FdinfoReading.ShareIsExact | gpu_fdinfo_linux.go:267-272 | A readable class's share times capacity times window is its clients' advance, with positive factors, while that advance fits 64 bits |
| FdinfoReading.NewcomerDoesNotMatter | gpu_fdinfo_linux.go:198-236 | A client seen for the first time, or one that regressed, does not change the usage |
| FdinfoReading.LeaverDoesNotMatter | gpu_fdinfo_linux.go:221-236 | A client that exited does not change the usage |
| FdinfoWalk.FdinfoSampler.ApplyFDInfo | gpu_fdinfo_linux.go:285-340 | Walk or skip, report giving up, replace the baseline only on a walk, and fill each missing usage from the two walks |
| FdinfoWalk.RunsAreConsistent | gpu_fdinfo_linux.go:293-302 | In every reachable state samples are skipped only after three empty walks, and fewer than 30 |
| FdinfoWalk.StreakBudget | gpu_fdinfo_linux.go:13-24 | N empty samples make exactly min(N,3) + max(0,N-3)/30 walks and one report of giving up |
| FdinfoWalk.StreaksArePaidAnew | gpu_fdinfo_linux.go:285-314 | A sample in which no GPU lacks usage, or a walk that finds data, ends the streak: the next one costs the same again and is reported again |
| FdinfoWalk.EffectOfSample | gpu_fdinfo_linux.go:293-314 | A sample walks exactly when some GPU lacks usage and fewer than three walks were empty or 29 samples were skipped, and reports giving up exactly with the third empty walk |
| FdinfoWalk.ClientIsFound | gpu_fdinfo_linux.go:296-314 | From any reachable state a client that appears is found by the first walk, at most 30 samples later |
| DeltaHistory.BaselineIsLatest | block_linux.go:138-163 | After any run the baseline is the earliest of the latest samples, restricted to keys present in every sample since |
| DeltaHistory.RateBase | network_linux.go:151-173 | A rate is computed from exactly that sample; a key absent from the sample before, accepted or not, has none |
| DeltaHistory.RatesConserveCounts | block_linux.go:114-163 | What rates account for plus what lost intervals would have is last minus first, however many stalled or backward samples lie between |
| DeltaHistory.ResetLosesOneInterval | block_linux.go:114-117 | Counters reset once lose at most one interval, none without a reset |
| DeltaHistory.ResetLosesExactly | network_linux.go:133-173 | A reset costs exactly the interval that crosses it when some counter has gone back there, and none otherwise |
| Block.BlockSampler.SampleBlock | block_linux.go:138-173 | The next baseline and every device's rates, from the old baseline and the sample |
| Block.RatesTimesSeconds | block_linux.go:114-136 | Rates exist exactly when time and every counter went forward; each times the seconds is its own counter's advance, and the busy share is 1 when busy time outruns the clock |
| Block.RatesSinceLatest | block_linux.go:138-163 | After any samples a device's rates are those since the latest sample, while it was present in every one from there on, and it has none otherwise |
| Block.RateConservation | block_linux.go:114-163 | Each of the four rates accounts exactly for its counter over a run; with one reset only that interval is missing |
| Network.NetworkSampler.SampleNetwork | network_linux.go:151-182 | The next baseline and every interface's rates; interfaces without an index take no part |
| Network.RatesTimesSeconds | network_linux.go:133-149 | Rates exist exactly when time and every counter went forward; each times the seconds is its own counter's advance |
| Network.RatesSinceLatest | network_linux.go:151-182 | After any samples an interface's rates are those since the latest sample, while it was present in every one from there on, and it has none otherwise or without an index |
| Network.RateConservation | network_linux.go:133-173 | Each of the four rates accounts exactly for its counter over a run; with one reset only that interval is missing |
| Cpu.Total | cpu_linux.go:97-107 | The sum of a row, or nothing exactly when it does not fit 64 bits |
| Cpu.CpuUsage | cpu_linux.go:109-149 | The code's guards and sums give the busy share of exact arithmetic |
| Cpu.UsageIsShare | cpu_linux.go:109-149 | On the named counters: a usage exists exactly when all but iowait went forward and some time passed, and is what user, nice, system, irq, softirq and steal advanced of that and what idle and iowait did; a backward iowait counts as none |
| Cpu.WaitingNeverRaises | cpu_linux.go:109-149 | Time that goes to idle or iowait alone never raises the usage |
| Cpu.UsageSinceLatest | cpu_linux.go:203-250 | After any samples a core's usage is that since the latest sample, while it was present in every one from there on |
| Cpu.CPUSampler.SampleCPU | cpu_linux.go:203-250 | Aggregate and cores follow the shared baseline rule, and each usage is computed against its own baseline |
| ProcessSampler.ProcessSampler.Sample | process_linux.go:335-489 | A failure at any of the three reads leaves the baseline alone; a complete sample commits the opening total with this walk's ticks and computes every share against the old pair |
| ProcessWindow.RunCovers | process_linux.go:483-487 | Over any sequence of complete and failed walks, the kept total was read before every kept process reading |
| ProcessWindow.CoveringWindow | process_linux.go:329-457 | For any timing of the reads on a sound kernel, every process with a baseline gets a share when the aggregate advanced, and the shares add up to at most 1 |
| ProcessWindow.ShareIsExact | process_linux.go:329-457 | After any walks, a share times what the total advanced since the last complete walk opened is exactly what the process ran between its two visits; a process that walk did not visit has none |
| ProcessSampler.FractionExactly | process_linux.go:430-451 | A share exists exactly for an advance that fits the window, on any kernel, and lies within 0 and 1 |
| ProcessStat.ParseUndoesPrint | process_linux.go:46-87 | Parsing a printed line returns PID, name, parent, ticks and start time for every name; it is refused exactly for an empty name, zero PID or start, or overflowing ticks |
| ProcessStat.BadFieldsAreRefused | process_linux.go:46-87 | A line with a counter or start time that is not in digits is refused |
| PciNames.ParsePCINames | gpu_linux.go:321-348 | The index of a table finds for every key what a scan of its lines finds first |
| PciNames.ScanLines | gpu_linux.go:321-348 | A scan returns the name on the first line that names the key, and nothing when none does |
| PciNames.FirstTableDecides | gpu_linux.go:287-302 | Over several tables the first in path order that names the device decides |
| PciTables.LookupInPrintedTable | gpu_linux.go:321-348 | Looking a device up in a printed pci.ids table, its ids in any case and with or without 0x, finds the name on the first line that carries its id under its vendor, and nothing when none does |
| PciNames.SameStampsIsEquality | gpu_linux.go:306-316 | The stamp comparison with anything is map equality exactly when no stamp is the zero value; a stat of a real file never is |
| PciNames.PciNameCache.Refresh | gpu_linux.go:279-304 | After any file changes the index again agrees with a fresh scan of all tables |
| PciNames.PciNameCache.Lookup | gpu_linux.go:269-275 | A lookup returns what the first table in path order that names the device says, or the empty string |
| MountField.DecodeMountField | filesystem_linux.go:78-103 | The index loop computes the decoded field |
| MountField.DecodeUndoesMangle | filesystem_linux.go:78-103 | Decoding undoes octal escaping for every byte string and escape set with the backslash |
| MountField.AcceptedExactly | filesystem_linux.go:84-100 | A field is accepted exactly when every backslash starts a byte in octal, and then shrinks by three bytes per escape |
| Battery.ReadSupplyIsWellFormed | battery_linux.go:99-198 | Whatever sysfs says, full charges are positive and the charge is the ratio of the counters kept with it |
| BatteryMeaning.ChargeOfSupply | battery_linux.go:110-179 | The state of charge is the ratio of the energy counters, else of the charge counters, else the percentage, else missing |
| BatteryMeaning.EnergyOfSupply | battery_linux.go:110-157 | Joules from microwatt-hours, or from microampere-hours and microvolts, in their units |
| BatteryMeaning.WattsOfSupply | battery_linux.go:180-196 | Watts are the magnitude of the power, or of current times voltage |
| BatteryMeaning.CapacityOfSupply | battery_linux.go:118-171 | Full and factory capacity come from one family of counters |
| Battery.AggregateSupplies | battery_linux.go:255-379 | The one-pass accumulators and the snapshot are those of the sums over the supplies |
| BatteryTheorems.OrderIrrelevant | battery_linux.go:281-322 | The accumulators, and so the snapshot, do not depend on supply order |
| BatteryMeaning.TotalsAreSums | battery_linux.go:281-310 | Every accumulator is the plain sum of one reading over the packs it is taken from |
| BatteryMeaning.FleetCharge | battery_linux.go:335-362 | The charge is energy over full energy of the packs with energy counters, else charge over full charge when every pack with a charge has counters for it, else the mean |
| BatteryMeaning.FleetSummary | battery_linux.go:255-379 | Energy, rate and the report of mixed packs |
| BatteryTheorems.SumsOverDevices | battery_linux.go:255-310 | Aggregate energy and rate are the sums over the listed devices |
| BatteryTheorems.DeviceReadings | battery_linux.go:204-253 | A device's charge and health lie within 0 and 1 and equal their ratios inside that range; health exists exactly when both full counters do and the design is positive |
| BatteryTheorems.FleetState | battery_linux.go:312-333 | The fleet charges when one pack does, else discharges when one does, and is full exactly when all packs are |
| BatteryMeaning.StateOfStatus | battery_linux.go:217-228 | Which status words, in any case, name which state |
| BatteryTheorems.ChargeBetweenPacks | battery_linux.go:335-362 | On all three paths the aggregate charge lies between the charges of two packs that decide it |
| BatteryTheorems.FleetChargeBetweenPacks | battery_linux.go:99-362 | The same for any sysfs contents |
| BatteryTheorems.TimeIsSane | battery_linux.go:363-377 | A valid time left is positive, fits a duration, and is energy over drain to the nanosecond |
| BatteryMeaning.TimeIsExact | battery_linux.go:363-377 | A time left exists exactly while discharging with positive energy and drain that last a nanosecond or more and fit a duration; it is joules over watts in nanoseconds |
| FreeBsd.ParseTicks | freebsd.go:44-62 | A row is accepted exactly when it has five counters that parse and whose total fits 64 bits |
| FreeBsd.Usage | freebsd.go:64-80 | The unchecked running sum never wraps between parsed rows: the result is that of exact arithmetic and a share |
| FreeBsd.UsageIsShare | freebsd.go:64-80 | On the named counters: worked ticks over all that passed, exactly when none ran back and some passed |
| FreeBsd.IdleNeverRaises | freebsd.go:64-80 | Idle ticks never raise the usage |
| FreeBsd.CPUSampler.SampleCPU | freebsd.go:82-126 | The output is accepted exactly when its three rows parse; it then becomes the baseline, and each usage is against the same core of the one before; else the baseline stays |
| FreeBsd.OutputIsPrinted | freebsd.go:82-115 | Reading undoes printing for every state; the load row is accepted exactly when it lists three numbers |
| FreeBsdMemory.SumSwap | freebsd.go:157-194 | For any number of lines the running sums never wrap, used and available make up the total, and refusal is exactly a malformed line or an overflow |
| FreeBsdMemory.ReadsPrintedRow | freebsd.go:163-190 | A printed swapinfo line gives its device's blocks, whatever spaces the path has; it is refused exactly when its counters contradict each other, the device is too large, or the percentage is above 100 |
| FreeBsdMemory.SwapLinesOfPrinted | freebsd.go:157-161 | The device lines are those behind a header that starts with Device |
| FreeBsdMemory.SumPages | freebsd.go:151-155 | Accepted page counts give exact products that make up the whole |
| FreeBsdMemory.ParseMemory | freebsd.go:138-196 | The whole parse succeeds exactly on good counters and good swap lines, with exact totals |

## Left out

- Files, procfs, sysfs, processes, pipes, perf events and links: what they answer is an input of each method.
- Error texts and issues: a failed step is `Err`, `None` or a flag; only whether it is reported matters here.
- Floating point rounding, NaN and infinities: numbers are reals, so the guards against non-finite results have nothing to do. At the upper end of a duration the rounded comparison in the code is looser than the exact one.
- Integer widths of counters: counters are natural numbers; 64-bit wrapping is modelled where a sum is unchecked.
- Clock readings that a later one overwrites: all rows framed in one drain share one instant, so a report's instant is that of its drain.
- Lower-casing of non-ASCII letters: `ToLower` is ASCII.
- Order of the result slices: rates and usages are listed in input order, before the code sorts its devices.
- NvidiaStream.Stream.Drain: the child is a finite script of reads; its pipe, process and reaping are not modelled.
- Fdinfo.Busy: one method, with a parameter for the kind of counter, stands for the two functions that differ only in that.
- PmuSampler.IntelSampler.SampleGPU: engine states are values in a map, so the aliasing between the map and the pointer handed around is not captured; errors from closing a counter are not either.
- Battery.ReadSupply: a record filled field by field in the code is one expression here.
- Battery.AggregateSupplies: asks for well-formed supplies, which every reading produces; on others the code would divide by zero.
- Issues dropped once fdinfo covers every i915 GPU (gpu_fdinfo_linux.go:345-358), and the merging of nvidia-smi rows into the snapshot.
- Process status, I/O rates, memory and arguments; disk, network, CPU and memory table parsing; load, frequency, thermal, fan and LED readings: keyed parsers and single-pass selections with only easy claims.
- PMU discovery, format masks and CPU masks: they only feed the mapping.
- FreeBSD's load values: whether a text is a finite number that is not negative is an input.
- `readProcessFile` (process_linux.go:260-291): it adds the byte count before it looks at the error, so its result on an interrupted read depends on the system call.
