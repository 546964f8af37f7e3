# Verified model of heimwatch

This project models the parts of heimwatch that keep history: the tiered metric store and its
retention sweep, the kernel probes and the collectors that read them, the focus tracker, and the
attribution of power to apps. Everything is Dafny 4.11; `dafny verify dfyconfig.toml` checks it all.

| file | what it holds |
|---|---|
| `Metrics.dfy` | metric kinds, payloads and records |
| `Keys.dfy` | lexicographic byte order; key encoding, decoding and scan bounds |
| `Calendar.dfy` | day, month and year floors, subtraction of months |
| `Aggregation.dfy` | combining a group of records; rollups of any depth |
| `Tiers.dfy` | one tree as a value: groups, heads, what a stage writes, totals |
| `Stages.dfy` | a whole sweep as a function of four trees: idempotence, counts, losses |
| `Sweep.dfy` | the sweep as a state machine with interleaved inserts and crashes |
| `History.dfy` | which inserted records each stored record stands for, through every run |
| `Storage.dfy` | the byte-keyed storage layer, shown to carry out `Stages` |
| `Service.dfy` | the storage layer in service, shown to be a run of `Sweep` |
| `Queries.dfy` | range queries and the tier that answers them |
| `Kernel.dfy` | the probes' bounded maps and the scheduler they observe |
| `Collectors.dfy` | cumulative counters turned into per-poll deltas |
| `Focus.dfy` | the focus session loop |
| `Power.dfy` | power attribution |

## Main results

**The store loses and invents nothing.** The store is a machine of atomic batches
(`Sweep.Db`): a sweep gathers and applies one batch per metric kind and stage, inserts may fall between
any two of those micro-steps, and a crash may end the sweep after any of them. `Sweep.RunConserves` shows
that over every run the total of each additive field, per app and calendar year, changes by exactly
what inserts bring and the last deletion removes; `Sweep.CompletedSweepAccounts` shows that whenever a
sweep finishes, after any number of crashed ones, the four trees add up to that total.
`Sweep.RerunAsUninterrupted` is the exact form of crash recovery: stop a sweep after any number of its batches, with
any inserts between them, and sweep again with the same cutoffs; the four trees are those of an uninterrupted sweep, plus
the inserts. The reason is the invariant `Sweep.Adjacent`: an aggregate takes the timestamp of its group's earliest
record, so a leftover always sits under a key the rerun overwrites (`Sweep.RerunForgetsLeftovers`, for any later
cutoffs). And `History.CrashesLeaveTotals`: two runs that inserted the same records agree on stored plus expired totals,
however either was interrupted and whenever it was rerun.

**Every stored record is explained.** `History.RecordsAreRollups`: in every reachable state each record
that counts is a rollup of exactly the records ever inserted into its series from its own timestamp up to the
next record that counts, all of one day, month or year according to its tree. Inserts may come in any order above
the raw cutoff and may replace each other. From this follow, for the store itself, that each record has the sums,
last values and first values of one direct aggregation of what it stands for (`History.StoredFusion`,
`History.CompletedSweepFuses`), that each average stays within the raw readings beneath it and exists exactly when
one of them did (`History.StoredHull`), that every insert of a year that has not expired is counted exactly once
(`History.CountedOnce`), and that joining all that is stored of a year gives what joining everything inserted for
it gives (`History.HistorySurvives`). Where part of a year has expired, `History.StoryIsRaw` says what remains.

**The layers fit.** `Storage.StorageLayer.CleanupTiered` works on byte-keyed maps with range scans and
is proved to compute `Stages.SweepTiers`; `Sweep.SweepRun` shows that the undisturbed machine computes
the same function in 56 micro-steps. `Service.ServiceIsRun` joins them: inserts and sweeps on the class, at a clock that
never goes back, are a valid run of the machine, so its theorems hold of the class (`Service.ServedHistory`).

**What is false, and exactly when.** Adding a premise where the code has none would hide these:
- subtracting months lands earlier exactly when it stays after 1970 or falls off the date library's range
  (`Calendar.SubtractMonthsEarlierIff`); in between the cast wraps, so keeping a century of yearly records
  puts the cutoff in the far future (`Calendar.CenturyOfRetentionWraps`) and every sweep erases the yearly tree
  (`Storage.YearlyTreeErased`);
- the sweep's report balances exactly when no stage finds a record under the key of an aggregate
  (`Stages.ReportBalancesIff`); after a crash between the two batches of a stage it does not (`Sweep.CrashLeavesTwice`,
  `Stages.TwiceUnbalances`);
- a stage conserves a total exactly when the records it overwrites carry none of it
  (`Stages.StageConservesIff`, with `Stages.LateInsertLoses` as an instance, reached from an empty store in
  `Stages.LateInsertForgets`);
- a scan's upper bound misses names that sort after `~` at its last second (`Keys.RangeScanExact`), although
  the comment on the bound promises all records up to and including the timestamp;
- decoding undoes encoding exactly for seven of the eight kinds and for names without a colon
  (`Keys.DecodeRoundTrip`);
- a record a sweep leaves in an aggregate tree can be reached by some fallback scan of that tree exactly when a scan
  up to one second before the tree's upper boundary reaches it (`Queries.ReachableIff`). So records at the very second
  of the raw window, of the start of the month or of a year back, kept in the daily, monthly or yearly tree, are not
  found by any query at that moment (`Queries.BoundarySecondHidden`, `Queries.BoundaryRecordLost`). In the first day of a month a record at the raw
  window's second goes on to the monthly tree instead, and is found there;
- CPU time credited to a name never exceeds its time on CPU (`Kernel.CreditIsSound`) and falls short by exactly
  what the schedule loses when two CPUs run the name at once (`Kernel.CreditLaw`, with `Kernel.OverlapLosesTime`
  as an instance and `Kernel.CreditIsExact` for schedules that never do);
- deltas are reported exactly once over every run if and only if the process names have distinct app names
  (`Collectors.ExactlyOnceIff`). For names that are not distinct, `Collectors.PollReports` says what a poll reports,
  `Collectors.PollTalliesIff` exactly when it keeps the tally, and `Collectors.IdlePollSilentIff` exactly when a poll
  repeats itself although nothing moved: when the entry read last does not hold the most.

## Where the source's comments differ from its code

The model follows the code.
- `subtract_months` is described as returning the start of a month; it returns midnight of the same day of
  the month, clamped to the month's length (crates/heimwatch-storage/src/aggregation.rs:62-72).
- The upper scan bound is described as including all records up to the timestamp
  (crates/heimwatch-storage/src/keys.rs:73-77); names after `~` at the last second are not included.
- The probes' maps are described as evicting old entries (bpf/heimwatch-ebpf/src/main.rs:25-27); a full map
  refuses new names instead.
- `comm_to_string` is described as rejecting invalid UTF-8 (crates/heimwatch-collector/src/util.rs:17); it
  replaces it.

## Model

| member | source | states |
|---|---|---|
| Keys.EncodeInjective | crates/heimwatch-storage/src/keys.rs:16-20 | two keys are equal exactly when kind, timestamp and app all are |
| Keys.KeyOrder | crates/heimwatch-storage/src/keys.rs:1-20 | within a kind, byte order of keys is time order with the app name as tie-break |
| Keys.DecimalOrder | crates/heimwatch-storage/src/keys.rs:5-7 | zero padding makes lexicographic order agree with numeric order |
| Keys.RangeScanExact | crates/heimwatch-storage/src/keys.rs:67-82 | a key lies between the scan bounds exactly when kind matches, the timestamp is in range, and at the last second the name does not sort after `~` |
| Keys.DecodeRoundTrip | crates/heimwatch-storage/src/keys.rs:24-60 | decoding returns the encoded triple exactly for the seven known kinds and colon-free names; every other key is an error |
| Keys.DecodeExact | crates/heimwatch-storage/src/keys.rs:24-60 | any bytes decode to a triple exactly when they are a known prefix, a number and a name separated by two colons and containing no other |
| Keys.DecodeErrors | crates/heimwatch-storage/src/keys.rs:24-56 | which error a malformed key gives: no text, a wrong number of colons, an unknown prefix, a bad number, in that order |
| Keys.ParseLaws | crates/heimwatch-storage/src/keys.rs:52-54 | numbers parse with or without a plus sign if they fit in 64 bits; an empty text or another byte does not |
| Keys.KnownTexts | crates/heimwatch-storage/src/keys.rs:16-82 | the prefix of each kind and the marks of a key, as text |
| Calendar.BucketsAreFloors | crates/heimwatch-storage/src/aggregation.rs:5-60 | each bucket is at most its argument, idempotent and monotone, and year, month and day floors are ordered |
| Calendar.BucketsNest | crates/heimwatch-storage/src/aggregation.rs:5-60 | month of day is month, year of month is year, year of day is year |
| Calendar.SameBucketSameYear | crates/heimwatch-storage/src/aggregation.rs:5-60 | two moments in one bucket of any size lie in one calendar year |
| Calendar.MonthStep | crates/heimwatch-storage/src/aggregation.rs:20-27 | consecutive months abut, each with its RFC 3339 length |
| Calendar.KnownDates | crates/heimwatch-storage/src/aggregation.rs:457-479 | the day, month and year floors the repository's tests give for 2024-03-31 |
| Calendar.FloorsAreDates | crates/heimwatch-storage/src/aggregation.rs:5-60 | two moments share a floor exactly when they lie on one day, in one month, in one year |
| Calendar.KnownMonths | crates/heimwatch-storage/src/aggregation.rs:20-27 | the first days of the months of 2023 and of years around the century rule |
| Calendar.DayMonthsBeforeMonotone | crates/heimwatch-storage/src/aggregation.rs:66-74 | the date months earlier, end-of-month clamping included, is monotone in the date and antitone in the months |
| Calendar.SubtractMonthsEarlierIff | crates/heimwatch-storage/src/aggregation.rs:66-82 | the result is not later than the argument exactly when it stays in or after 1970-01 or leaves the representable years; otherwise it lies after every representable timestamp |
| Calendar.SubtractMonthsMonotone | crates/heimwatch-storage/src/aggregation.rs:66-82 | while they stay after 1970-01, results move forward with the clock and back with the months |
| Calendar.SubtractMonthsCount | crates/heimwatch-storage/src/aggregation.rs:66-74 | while it stays after 1970-01 the result lies exactly that many calendar months back |
| Calendar.SubtractMonthsDay | crates/heimwatch-storage/src/aggregation.rs:66-72 | and is the midnight of the same day of the month, or of the month's last day if it is too short |
| Calendar.KnownSubtractions | crates/heimwatch-storage/src/aggregation.rs:66-72 | one and twelve months before 2024-03-31: 2024-02-29 and 2023-03-31 |
| Calendar.SubtractMonthsOutside | crates/heimwatch-storage/src/aggregation.rs:66-82 | where the date library has no answer a month counts for thirty days, down to zero; timestamps it takes for days before 1970 give wrapped results |
| Calendar.LibraryRange | crates/heimwatch-storage/src/aggregation.rs:66-70 | the date library knows the years -262143 to 262142 and subtracts at most 2^31 - 1 months |
| Calendar.SubtractMonthsIsU64 | crates/heimwatch-storage/src/aggregation.rs:66-82 | the result is a 64-bit count for every 64-bit timestamp, those whose signed cast is a date before 1970 included, and every number of months |
| Calendar.CenturyOfRetentionWraps | crates/heimwatch-storage/src/aggregation.rs:72 | 1200 months before March 2024 wraps to a later moment |
| Aggregation.AggregateSums | crates/heimwatch-storage/src/aggregation.rs:91-200 | an aggregate has its group's kind, and each additive field is the sum over the group |
| Aggregation.AggregateEssence | crates/heimwatch-storage/src/aggregation.rs:91-451 | sums, last values and first values of an aggregate are those of the group joined record by record |
| Aggregation.RollupFusion | crates/heimwatch-storage/src/aggregation.rs:84-90 | rolling up through any number of tiers, split in any way, gives the same sums, last values and first values as aggregating all raw records at once |
| Aggregation.AggregateNatReading | crates/heimwatch-storage/src/aggregation.rs:113-165 | averaged counts and byte sizes are the mean of the readings present, rounded or truncated field by field as the source does |
| Aggregation.AggregateRealReading | crates/heimwatch-storage/src/aggregation.rs:201-299 | averaged real readings are the mean of the readings present, and absent when none is |
| Aggregation.AggregateCurrentReading | crates/heimwatch-storage/src/aggregation.rs:268-273 | the averaged battery current times the number of readings is their sum less a remainder smaller than that number and of the sum's sign; none without a reading |
| Aggregation.TotalsAdd | crates/heimwatch-storage/src/aggregation.rs:113-299 | the sums behind averages: zero for none, the value for one, additive over joined lists |
| Aggregation.ReadingsJoin | crates/heimwatch-storage/src/aggregation.rs:113-442 | the readings of joined groups are the joined readings, of one record its own if it has one |
| Aggregation.RoundedDivNearest | crates/heimwatch-storage/src/aggregation.rs:113 | rounded averages are nearest, a half going up |
| Aggregation.TruncatedDivTowardZero | crates/heimwatch-storage/src/aggregation.rs:269-273 | the signed battery current average truncates toward zero |
| Aggregation.AggregateHull | crates/heimwatch-storage/src/aggregation.rs:113-442 | one aggregation stays inside any bounds its parts share and has a reading exactly when some part had one |
| Aggregation.RollupHull | crates/heimwatch-storage/src/aggregation.rs:84-451 | through any number of tiers every average stays between the bounds of the raw values beneath it, and exists exactly when some raw value did |
| Aggregation.AggregatePowerLoop | crates/heimwatch-storage/src/aggregation.rs:201-299 | the collecting loop of the power arm computes the specified aggregate |
| Aggregation.AggregateGpuLoop | crates/heimwatch-storage/src/aggregation.rs:300-401 | the two passes of the GPU arm compute the specified aggregate |
| Aggregation.AggregateGpuProcLoop | crates/heimwatch-storage/src/aggregation.rs:402-443 | the per-process GPU arm computes the specified aggregate |
| Aggregation.AggregateRecords | crates/heimwatch-storage/src/aggregation.rs:91-451 | nothing for an empty slice, otherwise the first record's app, the given timestamp and the aggregate of the payloads |
| Tiers.HeadWeight | crates/heimwatch-storage/src/db.rs:471-480 | the aggregate written for a group weighs exactly what the group weighs, in the same app and calendar year |
| Tiers.RollUpConserves | crates/heimwatch-storage/src/db.rs:447-488 | what a stage writes weighs exactly what it will consume |
| Tiers.RolledUpIgnoresLater | crates/heimwatch-storage/src/db.rs:454-469 | records beyond the cutoff have no influence on what a stage writes |
| Tiers.EveryConsumedHasHead | crates/heimwatch-storage/src/db.rs:461-474 | every consumed record belongs to a group with an earliest record |
| Stages.SweepIsQuiet | crates/heimwatch-storage/src/db.rs:631-651 | after a sweep no tree holds a record its own cutoff reaches |
| Stages.StageByCalendar | crates/heimwatch-storage/src/db.rs:461-480 | in calendar terms: for each kind and app a stage writes one record per day, month or year with consumed records, under the key of the earliest, combining all of that period |
| Stages.SweepIdempotent | crates/heimwatch-storage/src/db.rs:591-667 | a second sweep with the same cutoffs changes no tree and reports zeros |
| Stages.SweepAccounting | crates/heimwatch-storage/src/db.rs:631-666 | for any trees, live records drop by what each stage deletes beyond what it writes, by the yearly records removed, and by the records aggregates replaced |
| Stages.ReportBalancesIff | crates/heimwatch-storage/src/db.rs:631-666 | the reported counts balance exactly when no stage finds a record under the key of an aggregate |
| Stages.DisjointBalances | crates/heimwatch-storage/src/db.rs:631-666 | trees that share no record stay so, and the report of their sweep balances |
| Stages.TwiceUnbalances | crates/heimwatch-storage/src/db.rs:631-651 | a record left in the raw and the daily tree makes the next report miss one |
| Sweep.CrashLeavesTwice | crates/heimwatch-storage/src/db.rs:631-634 | a crash between the two batches of a stage leaves such a record, from an empty store in five events |
| Stages.StageExactLoss | crates/heimwatch-storage/src/db.rs:471-484 | for any trees, a stage loses exactly the records of the next tree that sit under an aggregate's key |
| Stages.StageConservesIff | crates/heimwatch-storage/src/db.rs:471-484 | a stage conserves a total exactly when the records it overwrites carry none of it |
| Stages.LateInsertLoses | crates/heimwatch-storage/src/db.rs:471-484 | a late insert under an existing aggregate's key makes the next sweep forget that aggregate |
| Stages.LateInsertForgets | crates/heimwatch-storage/src/db.rs:471-484 | from an empty store: insert, sweep, insert again for the same second, sweep; the first record is gone |
| Sweep.StepKeepsInv | crates/heimwatch-storage/src/db.rs:591-667 | every micro-step, insert, begin and crash keeps the relations between the four trees |
| Sweep.RunKeepsInv | crates/heimwatch-storage/src/db.rs:591-667 | those relations hold in every reachable state |
| Sweep.SettledAfterDelete | crates/heimwatch-storage/src/db.rs:422-444 | after a stage's deletion no leftover aggregate remains: all of the next tree precedes what is left |
| Sweep.StepConserves | crates/heimwatch-storage/src/db.rs:447-667 | one micro-step changes a total by exactly what the event brings or removes |
| Sweep.RunConserves | crates/heimwatch-storage/src/db.rs:591-667 | over every run of inserts, sweeps and crashes the total is accounted for exactly, and in settled states it is what the four trees add up to |
| Sweep.CompletedSweepAccounts | crates/heimwatch-storage/src/db.rs:631-666 | when a sweep finishes, whatever came before, nothing is left over and the four trees add up to all inserted, less replaced and expired |
| Sweep.SweepTerminates | crates/heimwatch-storage/src/db.rs:591-667 | an undisturbed sweep runs to its end and leaves the trees settled |
| Sweep.RerunForgetsLeftovers | crates/heimwatch-storage/src/db.rs:474-484 | a sweep after crashed ones ends with the same trees as if their aggregates had never been written |
| Sweep.StepKeepsTarget | crates/heimwatch-storage/src/db.rs:447-667 | no batch of a sweep changes what sweeping anew with its cutoffs would give, and an insert only adds itself |
| Sweep.RerunAsUninterrupted | crates/heimwatch-storage/src/db.rs:591-667 | a sweep stopped after any batches, with any inserts between, and rerun with the same cutoffs ends with the trees of an uninterrupted sweep plus the inserts |
| Sweep.ScrubbedTotal | crates/heimwatch-storage/src/db.rs:474-484 | leftover aggregates carry none of the total |
| Sweep.InsertSurvives | crates/heimwatch-daemon/src/lib.rs:151-202 | a record newer than every raw cutoff stays in the raw tree through any run |
| Sweep.AggregatesFit | crates/heimwatch-storage/src/aggregation.rs:99-112 | no additive sum a sweep computes exceeds what was inserted for that field, app and year |
| Sweep.RunKeepsWithin | crates/heimwatch-storage/src/aggregation.rs:113-442 | bounds on the inserted readings of one app, kind and year hold for its records in every tree in every reachable state, leftover aggregates included |
| Sweep.SettledIsDisjoint | crates/heimwatch-storage/src/db.rs:631-651 | once a sweep has finished, and until one is cut short, no record is stored in two trees |
| Sweep.SweepRun | crates/heimwatch-storage/src/db.rs:591-667 | the undisturbed machine computes the sweep function in 56 micro-steps |
| History.MergedSegment | crates/heimwatch-storage/src/db.rs:461-480 | what an aggregate stands for is what its group stood for, no more and no less |
| History.GroupIsRollup | crates/heimwatch-storage/src/db.rs:471-480 | what a stage writes for a group is a rollup of everything the group stands for |
| History.StepKeepsProvenance | crates/heimwatch-storage/src/db.rs:447-667 | every insert, begin, crash and micro-step keeps each record that counts a rollup of its stretch of inserts |
| History.RecordsAreRollups | crates/heimwatch-storage/src/db.rs:591-667 | in every reachable state each record that counts is a rollup of exactly the inserts from its timestamp to the next such record, within one day, month or year |
| History.SegmentsDisjoint | crates/heimwatch-storage/src/db.rs:591-667 | no insert is counted in two records |
| History.CountedOnce | crates/heimwatch-storage/src/db.rs:591-667 | each insert of a year after the yearly cutoffs is counted in exactly one record |
| History.StoredFusion | crates/heimwatch-storage/src/aggregation.rs:84-90 | a stored record has the sums, last values and first values of one direct aggregation of the inserts it stands for |
| History.CompletedSweepFuses | crates/heimwatch-storage/src/db.rs:631-666 | when a sweep finishes, the same for every record of every tree, each standing for inserts of one day, month or year |
| History.StoredHull | crates/heimwatch-storage/src/aggregation.rs:113-442 | a stored average lies within the raw readings it stands for and exists exactly when one of them did |
| History.ReadingsFit | crates/heimwatch-storage/src/aggregation.rs:99-165 | no sum behind an average exceeds the largest reading times the number of inserts of that app, kind and year |
| History.CurrentsFit | crates/heimwatch-storage/src/aggregation.rs:269-273 | the same for the signed battery current, in either direction |
| History.StoryIsRaw | crates/heimwatch-storage/src/db.rs:591-667 | joining what is stored of a year gives what joining its inserts gives, from its oldest stored record on |
| History.StepKeepsStory | crates/heimwatch-storage/src/db.rs:447-667 | no step but an insert or an expiry changes the joined history of a year |
| History.HistorySurvives | crates/heimwatch-storage/src/db.rs:591-667 | over every run in which nothing of the year expires, with inserts in any order, joining all that is stored of it gives the sums, last values and first values of everything inserted for it |
| History.HistoryFromStart | crates/heimwatch-storage/src/db.rs:591-667 | the same from an empty store for every year that starts after the yearly cutoffs used |
| History.LedgerBalances | crates/heimwatch-storage/src/db.rs:591-667 | over every run, what counts in the store plus what has expired is the total of all that was ever inserted |
| History.StoredPlusExpired | crates/heimwatch-storage/src/db.rs:591-667 | in a settled state the same for what the four trees add up to |
| History.CrashesLeaveTotals | crates/heimwatch-storage/src/db.rs:591-667 | two runs with the same inserts, interrupted or not, agree on stored plus expired totals once settled |
| Storage.Range | crates/heimwatch-storage/src/db.rs:461 | a range scan yields the keys between the bounds, in byte order |
| Storage.GatherKind | crates/heimwatch-storage/src/db.rs:454-480 | grouping by bucket and app in key order and aggregating each group yields one kind of the stage's output |
| Storage.GroupMatchesHead | crates/heimwatch-storage/src/db.rs:461-480 | a gathered group has one kind and one app, starts with its earliest record and lists it chronologically |
| Storage.RollUp | crates/heimwatch-storage/src/db.rs:447-488 | a stage merges its whole output into the next tree and counts its groups |
| Storage.DeleteBefore | crates/heimwatch-storage/src/db.rs:422-444 | exactly the records a scan up to the cutoff reaches are removed and counted |
| Storage.CutsAdvance | crates/heimwatch-storage/src/db.rs:632-648 | the rolling cutoffs move forward with the clock while the months kept do not reach before 1970 |
| Storage.CutsMeaning | crates/heimwatch-storage/src/db.rs:632-651 | the cutoffs lie exactly the configured hours, months and years back, and at the start of the month |
| Storage.CutsSaturate | crates/heimwatch-storage/src/db.rs:632-651 | a raw window longer than the clock starts at zero, and the years kept count for at most 2^32 - 1 months |
| Storage.CutsOrdered | crates/heimwatch-storage/src/db.rs:641-651 | yearly records are kept at least as long as monthly ones if configured so |
| Storage.YearlyTreeErased | crates/heimwatch-storage/src/db.rs:645-651 | if the years kept reach before 1970, and not off the date library's range, every sweep empties the yearly tree of representable records |
| Storage.StorageLayer.constructor | crates/heimwatch-storage/src/db.rs:45-53 | a new store has four empty trees |
| Storage.StorageLayer.InsertMetric | crates/heimwatch-storage/src/db.rs:99-106 | the record is stored under the key of its own kind, timestamp and app; the other trees stay |
| Storage.StorageLayer.InsertMetricsBatch | crates/heimwatch-storage/src/db.rs:111-124 | all records are stored at once, a later one replacing an earlier one with the same key |
| Storage.LastInsertWins | crates/heimwatch-storage/src/db.rs:111-124 | of several records of a batch with one key the last is stored |
| Storage.OtherKeysStay | crates/heimwatch-storage/src/db.rs:111-124 | keys no record of the batch has stay as they were |
| Storage.StorageLayer.AggregateRawToDaily | crates/heimwatch-storage/src/db.rs:447-488 | the daily tree gains the raw stage's output; the count is the number of groups |
| Storage.StorageLayer.AggregateDailyToMonthly | crates/heimwatch-storage/src/db.rs:491-532 | the monthly tree gains the daily stage's output; the count is the number of groups |
| Storage.StorageLayer.AggregateMonthlyToYearly | crates/heimwatch-storage/src/db.rs:535-582 | the yearly tree gains the monthly stage's output; the count is the number of groups |
| Storage.StorageLayer.CleanupTiered | crates/heimwatch-storage/src/db.rs:591-667 | the four trees become the sweep function of the old ones, the report gives each stage's counts, and every entry still sits under its own key |
| Service.Serve | crates/heimwatch-daemon/src/lib.rs:151-202 | a sequence of inserts and sweeps on the class does to its trees what the functions say |
| Service.ServiceIsRun | crates/heimwatch-daemon/src/lib.rs:151-202 | at a clock that never goes back, such a sequence is a valid run of the sweep machine ending with the same trees |
| Service.ServedHistory | crates/heimwatch-storage/src/db.rs:591-667 | joining all the class holds of a year gives what joining everything put for it gives |
| Queries.ScanTree | crates/heimwatch-storage/src/db.rs:145-154 | a scan returns each record in the key range once, in key order and hence in time order |
| Queries.SortByTimestamp | crates/heimwatch-storage/src/db.rs:204 | a stable sort by timestamp: records of one second keep their order, and a list already in time order stays |
| Queries.ScanTiers | crates/heimwatch-storage/src/db.rs:145-200 | raw is scanned first, then the aggregate trees over their sub-ranges while nothing has been found |
| Queries.GetMetricsByType | crates/heimwatch-storage/src/db.rs:135-206 | for any trees: the raw tree's records in range if there are any; otherwise those the first of the daily, monthly and yearly trees has to offer between its boundaries; otherwise nothing; sorted by time |
| Queries.RouteSelects | crates/heimwatch-storage/src/db.rs:145-200 | the route taken selects that tree and those records |
| Queries.KnownBoundaries | crates/heimwatch-storage/src/db.rs:160-162 | the three boundaries at 13:00 on 2024-03-31 |
| Queries.FallbackExact | crates/heimwatch-storage/src/db.rs:158-200 | right after a sweep with the default windows a fallback scan finds exactly its tree's records inside the query and strictly below the tree's upper boundary, apart from names after `~` at the last second |
| Queries.NothingOutside | crates/heimwatch-storage/src/db.rs:135-206 | whatever tree answers, no record of another kind or outside the query comes back |
| Queries.ReachableIff | crates/heimwatch-storage/src/db.rs:158-200 | a record a sweep leaves in an aggregate tree is reached by some fallback scan of it exactly when a scan up to one second before the tree's upper boundary reaches it |
| Queries.BoundarySecondHidden | crates/heimwatch-storage/src/db.rs:164-195 | in all three aggregate trees, no fallback scan reaches a record at the tree's boundary second |
| Queries.SweptQueryExact | crates/heimwatch-storage/src/db.rs:135-206 | right after a sweep, if the raw tree has nothing in range, a query returns exactly the selected tree's records inside the range and below its boundary |
| Queries.SweepThenQuery | crates/heimwatch-storage/src/db.rs:135-206 | the same for the two operations run one after the other |
| Stages.LoneRecordLands | crates/heimwatch-storage/src/db.rs:631-651 | a sweep carries a lone raw record to the first tree whose cutoff spares it |
| Queries.LoneRecordFoundIff | crates/heimwatch-storage/src/db.rs:158-200 | a lone record swept into an aggregate tree is returned by some query exactly under that condition |
| Queries.BoundaryRecordLost | crates/heimwatch-storage/src/db.rs:164-195 | a lone record at the boundary second is kept, and no query returns it |
| Queries.LostOnLastOfMarch | crates/heimwatch-storage/src/db.rs:164-170 | an instance: on 2024-03-31 at 13:00, a record of 13:00 the day before |
| Kernel.KernelMaps.SchedSwitch | bpf/heimwatch-ebpf/src/main.rs:213-252 | a context switch credits the outgoing name, clears its stamp and stamps the incoming name |
| Kernel.KernelMaps.SendMsg | bpf/heimwatch-ebpf/src/main.rs:114-141 | a send adds its size to the sent counter of the name |
| Kernel.KernelMaps.RecvMsg | bpf/heimwatch-ebpf/src/main.rs:163-197 | a positive result adds to the received counter; errors and empty reads leave no trace |
| Kernel.KernelMaps.BlockRqIssue | bpf/heimwatch-ebpf/src/main.rs:274-320 | a block request adds to the read or written counter of a non-empty name |
| Kernel.Directions | bpf/heimwatch-ebpf/src/main.rs:292-295 | `R` and `r` read, `W` and `w` write, nothing else does |
| Kernel.RequestCounts | bpf/heimwatch-ebpf/src/main.rs:292-318 | a request adds its bytes to the read or the written counter of its name by its letter, and to no other |
| Kernel.NamelessUntracked | bpf/heimwatch-ebpf/src/main.rs:220-249 | a name that starts with a zero byte never gets a CPU entry |
| Kernel.CreditIsSound | bpf/heimwatch-ebpf/src/main.rs:213-252 | for any number of CPUs and any run, a name is never credited with more time than it spent on at least one CPU |
| Kernel.CreditIsExact | bpf/heimwatch-ebpf/src/main.rs:220-249 | if no two CPUs run the name at once and the map has room, the map accounts for its time on CPU exactly |
| Kernel.CreditLaw | bpf/heimwatch-ebpf/src/main.rs:213-252 | for every schedule, time accounted plus time the schedule loses is exactly time on CPU, so the account is exact if and only if nothing is lost |
| Kernel.OverlapLosesTime | bpf/heimwatch-ebpf/src/main.rs:220-249 | two overlapping tasks of one name are credited with the overlap alone; the time before and after it is lost |
| Kernel.CreditsTileTime | bpf/heimwatch-ebpf/src/main.rs:220-249 | on one CPU the credits of all names add up to the time since the first switch |
| Kernel.FirstSwitch | bpf/heimwatch-ebpf/src/main.rs:236-249 | the first switch on an empty map starts that account |
| Kernel.CountersExact | bpf/heimwatch-ebpf/src/main.rs:114-197 | a name with an entry has counted every transfer up to the 64-bit ceiling; a name without one met a full map |
| Kernel.MapsStayBounded | bpf/heimwatch-ebpf/src/main.rs:25-50 | no probe grows a map beyond 10240 entries |
| Collectors.AppNamesDistinct | crates/heimwatch-collector/src/util.rs:18-29 | zero-padded names that decode without loss keep distinct app names |
| Collectors.AppNameLaws | crates/heimwatch-collector/src/util.rs:18-29 | a process name is read up to its first zero byte; an empty one is called `(unknown)` |
| Collectors.CpuCollector.CollectCpu | crates/heimwatch-collector/src/cpu/linux.rs:92-153 | a poll emits the non-zero CPU deltas and remembers the counters, or fails and changes nothing |
| Collectors.NetworkCollector.CollectNetwork | crates/heimwatch-collector/src/network/linux.rs:86-135 | the same for the two network counters |
| Collectors.DiskCollector.CollectDisk | crates/heimwatch-collector/src/disk/linux.rs:73-130 | the same for the two disk maps, whose keys always agree |
| Collectors.SwitchGrows | bpf/heimwatch-ebpf/src/main.rs:220-249 | a context switch never lowers a reported counter or drops an entry |
| Collectors.BumpGrows | bpf/heimwatch-ebpf/src/main.rs:114-320 | nor does a transfer |
| Collectors.ExactlyOnce | crates/heimwatch-collector/src/network/linux.rs:98-132 | over every interleaving of kernel activity with successful and failed polls, the deltas of an app add up to what its snapshot remembers, never more than its counter |
| Collectors.PollCatchesUp | crates/heimwatch-collector/src/cpu/linux.rs:105-150 | right after a successful poll what has been reported for an app is exactly its counter |
| Collectors.EveryByteReported | crates/heimwatch-collector/src/disk/linux.rs:84-127 | over every interleaving of transfers with polls, after a successful poll all bytes a tracked process moved have been reported once, up to the 64-bit ceiling |
| Collectors.RecordsCarry | crates/heimwatch-collector/src/network/linux.rs:114-126 | which field of a network, disk or CPU record carries which delta, under which app and time |
| Collectors.EveryByteRecorded | crates/heimwatch-collector/src/disk/linux.rs:84-127 | the same in the fields of the emitted records |
| Collectors.ReportedWithinBusyTime | crates/heimwatch-collector/src/cpu/linux.rs:105-150 | over every interleaving of context switches on any number of CPUs with polls, the nanoseconds reported for a name never exceed its time on CPU |
| Collectors.ReportedIsBusyTime | crates/heimwatch-collector/src/cpu/linux.rs:105-150 | if no two CPUs run the name at once and the map has room, after a successful poll all but the slice still running has been reported |
| Collectors.SwitchAlwaysEnabled | bpf/heimwatch-ebpf/src/main.rs:213-252 | polling never constrains the scheduler |
| Collectors.ExactlyOnceIff | crates/heimwatch-collector/src/network/linux.rs:98-132 | what is reported equals what is remembered over every run exactly when the process names have distinct app names |
| Collectors.PollReports | crates/heimwatch-collector/src/network/linux.rs:101-128 | whatever the names, a poll reports for an app what each entry of that name holds beyond the one remembered pair |
| Collectors.PollSilentIff | crates/heimwatch-collector/src/network/linux.rs:101-128 | a poll is silent about an app exactly when no entry of that name holds more than is remembered |
| Collectors.IdlePollSilentIff | crates/heimwatch-collector/src/network/linux.rs:101-128 | a second poll with nothing moved is silent exactly when the entry read last holds the most |
| Collectors.PollTalliesIff | crates/heimwatch-collector/src/network/linux.rs:101-128 | a poll keeps the tally exactly when the entry read last has not fallen behind and the others hold no more than is remembered |
| Collectors.SharedNameReportsTwice | crates/heimwatch-collector/src/network/linux.rs:101-128 | two names equal up to a zero byte share an app name; an idle poll repeats the difference if the larger counter is read first, and nothing if it is read last |
| Collectors.UsageIsShare | crates/heimwatch-collector/src/cpu/linux.rs:128-132 | usage is the delta's share of the interval's capacity, and zero without capacity |
| Focus.NormalizeLaws | crates/heimwatch-collector/src/focus/linux/mod.rs:159-177 | flatpak prefixes go, snap names keep their last component or their only one, missing names become `Unknown`, others stay |
| Focus.Run | crates/heimwatch-collector/src/focus/linux/mod.rs:94-153 | the loop emits one event per session, with its app and its length in milliseconds |
| Focus.SessionsTile | crates/heimwatch-collector/src/focus/linux/mod.rs:94-153 | sessions are ordered and disjoint, and consecutive ones name different apps |
| Focus.FocusTiling | crates/heimwatch-collector/src/focus/linux/mod.rs:94-153 | over every run that starts with a focus, aborted or not, sessions start at that focus, their milliseconds never exceed the time up to where they reach, no later than the last turn, and miss it by less than one each when the two clock reads coincide |
| Focus.FocusToExit | crates/heimwatch-collector/src/focus/linux/mod.rs:94-153 | in a run that ends with a flush, session time is the time from the first focus to the exit, up to less than a millisecond per session when the two clock reads coincide, and never more |
| Focus.SessionsAreSwitches | crates/heimwatch-collector/src/focus/linux/mod.rs:94-153 | a complete run has exactly one session per switch of the focus: it names the app switched to, starts there, ends at the next switch or the exit, and carries the wall clock read at its end |
| Focus.EventsCarry | crates/heimwatch-collector/src/focus/linux/mod.rs:179-190 | events carry their session's app, end stamp and whole milliseconds |
| Focus.EventsTile | crates/heimwatch-collector/src/focus/linux/mod.rs:94-153 | the emitted milliseconds of a complete run are the time from the first focus to the exit, up to truncation when the two clock reads coincide, and never more |
| Focus.KnownTexts | crates/heimwatch-collector/src/focus/linux/mod.rs:159-177 | the placeholder and prefixes as text |
| Focus.NoFocusNoSessions | crates/heimwatch-collector/src/focus/linux/mod.rs:94-153 | a run that does not start with a focus emits nothing |
| Power.ComputePowerStats | crates/heimwatch-storage/src/power_calc.rs:71-228 | an empty window gives nothing; otherwise one row per app, highest percentage first |
| Power.PercentagesSumTo100 | crates/heimwatch-storage/src/power_calc.rs:203-219 | with a positive total score the percentages add up to exactly 100 |
| Power.ContributionsSumToOne | crates/heimwatch-storage/src/power_calc.rs:208-216 | the six contributions of an app with a positive score add up to exactly 1, each its component's share of the score |
| Power.RaplConserved | crates/heimwatch-storage/src/power_calc.rs:146-151 | with measured watts and some CPU use the CPU components add up to the measurement |
| Power.DominancePct | crates/heimwatch-storage/src/power_calc.rs:109-219 | an app at least as high on all six metrics never gets a lower percentage, whichever branch applies |
| Power.ComponentsMonotone | crates/heimwatch-storage/src/power_calc.rs:109-176 | each component rises with its own metric whatever the other five do |
| Power.GpuMaxIsLargest | crates/heimwatch-storage/src/power_calc.rs:115 | the GPU figure is the largest reading, or zero if none is positive |
| Power.MaximaAreReached | crates/heimwatch-storage/src/power_calc.rs:84-89 | the disk and network scales are the largest values over the apps, or 1 if there are none |
| Power.AtMostFullScale | crates/heimwatch-storage/src/power_calc.rs:120-132 | no app exceeds full scale on disk or network |
| Power.FullScaleScores | crates/heimwatch-storage/src/power_calc.rs:10-17 | an app at full scale on one metric scores that metric's documented weight |
| Power.LogScale | crates/heimwatch-storage/src/power_calc.rs:120-132 | disk and network components are their weight times the logarithm of the app's bytes over that of the largest, zero if the largest is zero |
| Power.CpuComponent | crates/heimwatch-storage/src/power_calc.rs:146-160 | an app's share of the measured watts by CPU use; otherwise two fifths of its CPU average, times the squared frequency ratio if known |
| Power.OtherComponents | crates/heimwatch-storage/src/power_calc.rs:115-176 | the display, memory and GPU components in terms of focus, brightness, memory average and GPU maximum |
| Power.AveragesAndTotals | crates/heimwatch-storage/src/power_calc.rs:84-113 | CPU and memory averages times their number give the sums, and totals add up over apps |
| Power.RowsAreShares | crates/heimwatch-storage/src/power_calc.rs:178-219 | each row names its app, carries its score and has its share of the total; without a positive total it has none |

## Left out

- Fallback arithmetic of the bucket functions for timestamps the date library cannot represent (beyond year 262142), and buckets of timestamps of 2^63 or more, whose signed cast is negative: the model uses the calendar for every timestamp there (`subtract_months` is modelled for all of them).
- Sweep.AggregatesFit: covers the additive sums; for sums behind averages `History.ReadingsFit` gives the bound under which none overflows, the 32-bit sum of thread counts included.
- Bit-exact `f32` and `f64` rounding: averages, percentages and scores are exact integers and reals, and the logarithm is a parameter that is zero at one and strictly increasing.
- sled, serde_json and the file system: a tree is an ordered map with atomic batches, records round-trip, and storage errors do not occur; a crash is the machine's only failure.
- The export of raw records before a sweep, the older single-tree cleanup functions and the retention metadata: they only scan or delete ranges already covered by the scan law.
- `get_metrics_by_app`, top-N queries, storage statistics, and the join of power records by timestamp in `get_power_stats`: thin loops over queries modelled here.
- A scan whose lower bound exceeds its upper bound is taken to be empty.
- Collectors.ExactlyOnce: the map is read in one step; entries that change while an iteration is under way are not modelled.
- Conversion of process names to text is a parameter; its replacement of invalid UTF-8 is covered only by the requirement that app names be distinct.
- The `swapper` filter of the CPU collector has no effect in the source (it only continues an inner loop) and therefore none here.
- Memory, GPU and power collectors, D-Bus and Wayland listeners, the daemon's channels, the TUI and the web stub.
