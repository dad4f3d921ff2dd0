# Batched print-farm scheduling: a Dafny model

This project models the scheduling engine of a print-farm MES demo. The engine turns a bill
of materials into print jobs and batches the jobs. It then builds, for each batch, a
constraint model whose solution assigns every job a printer and a start minute. The solved
batches are laid out one after another on a common time line. The Python code hands the
search to a CP-SAT solver. Everything around that call is integer logic over lists and
dicts, and this project models that logic and proves properties of it:

- **Sliced-build sheet** (`build_sliced_build_ID` in `main.py`): the merged BOM/MPP rows are
  aggregated per part. Each part then becomes `ceil(total / alpha)` sheet rows with the ids
  `MPP_ALL__<part>_R<n>`. Module `SlicedBuild`.
- **Job generation** (`jobgen.py`): the queued sheet rows are exploded into jobs with
  consecutive ids and `_R<n>` titles. Module `JobGen`.
- **Greedy batching** (`main.py`): the jobs are sorted by title and cut, in order, into
  batches of at most `shift_length * max(1, |printers|)` minutes. Modules `Batching` and
  `Sorting`.
- **Constraint model** (`scheduler.py`), covered by five modules:
  - `Compat`: the printers compatible with each job and the rack numbering;
  - `Horizon`: the horizon estimate;
  - `Proximity`: the window of candidate pairs for the operator penalty;
  - `CpModel`: the constraints, restated as a predicate `ValidAssignment` on a concrete
    assignment;
  - `Objective`: the job counts, the makespan and both objective formulas, evaluated on an
    assignment.
- **Multi-batch run** (`main.py`): each batch is built and solved. A batch whose solve comes
  back empty goes to the unscheduled pool. A solved batch is shifted by the running offset,
  which then grows by two shift lengths. Module `Orchestrator`.

The solver is a parameter `solve: Model -> Option<seq<Slot>>`. The only thing assumed of it
is `Sound`: an assignment it reports satisfies `ValidAssignment`. It reports the whole batch
or nothing, as `solve_and_extract` does. Shared modules:
- `Wrappers`: `Option`, `Result`, `Max`, `Abs`;
- `Text`: whitespace stripping, ASCII lower-casing, decimal rendering;
- `SeqUtil`: occurrences, dedup, index;
- `Records`: `Job`, `Printer`, `Slot`.

## Model

| member | source | states |
|---|---|---|
| Compat.CompatiblePrintersExact | scheduler.py:5-12 | an id is compatible exactly when it is the id of a roster printer whose stripped material, technology and model equal the job's stripped values |
| Compat.SupportingPrintersExact | scheduler.py:5-12 | the printers kept by the filter are exactly the roster printers that match on all three stripped fields |
| Compat.CompatibleInRosterOrder | scheduler.py:7-8 | the compatible ids come out in roster (dict) order: they are a subsequence of the roster's ids |
| Compat.Racks | scheduler.py:85 | the listed racks are exactly the roster printers' racks, each listed once |
| Compat.PrinterRackIds | scheduler.py:84-86 | every roster printer gets the id of its rack, and only roster printers get one |
| Compat.RackIdsMatchRacks | scheduler.py:84-86 | two printers get the same rack id exactly when their rack strings are equal |
| Horizon.TallyWork | scheduler.py:97-99 | `work_per_type` holds, for every type of the batch, the total duration of that type; its keys come in order of first appearance |
| Horizon.TallyPrinters | scheduler.py:102-104 | `printers_per_type` holds the number of printers of every raw (material, technology) type; a type missing from it has no printer |
| Horizon.BusiestType | scheduler.py:106-117 | the loop finds the largest `floor(3 * work / (minutes_per_day * count))` over the types that have printers, and 0 when none has |
| Horizon.EstimateHorizon | scheduler.py:89-124 | the horizon is `minutes_per_day * (floor(3 * max days) + 2)`, computed exactly in integers |
| Horizon.TypesExact | scheduler.py:97-99 | the types tallied are exactly the types that occur in the batch |
| Horizon.TypesDistinct | scheduler.py:97-99 | each type is tallied under a single key |
| Horizon.HorizonAtLeastTwoDays | scheduler.py:119-124 | the horizon is never below two days of `minutes_per_day` |
| Horizon.HorizonMonotone | scheduler.py:97-124 | making jobs longer, types unchanged, never shortens the horizon |
| Horizon.HorizonIgnoresUnsupported | scheduler.py:107-115 | a job of a type that no printer has (by raw count) leaves the horizon unchanged |
| Proximity.ByDurationFacts | scheduler.py:162 | `jobs_sorted` is a permutation of the keyed jobs, ordered by duration and stable for equal durations |
| Proximity.ScanRow | scheduler.py:164-171 | the inner loop appends exactly the partners of one position, stopping at the first gap above 60 and skipping other technologies |
| Proximity.ScanPairs | scheduler.py:162-171 | the nested scan produces the candidate pairs of the batch |
| Proximity.CandidatePairsExact | scheduler.py:162-171 | a pair is a candidate exactly when, in `jobs_sorted`, the second job lies among the next 19 after the first, within 60 minutes, with the same technology |
| Proximity.CandidatePairsBound | scheduler.py:164-166 | a batch of n jobs has at most `19 * n` candidate pairs |
| Proximity.CandidatePairsWellFormed | scheduler.py:165-171 | every candidate pair names two jobs of the batch with the same required technology |
| CpModel.PrinterDomains | scheduler.py:22-38 | every job gets its compatible printers as its domain, or the build fails naming the first job without any |
| CpModel.BuildModel | scheduler.py:82-193 | the built model holds the roster, the batch, the printer domains, rack ids, horizon, buffer and penalty settings, or the error of the first job with no printer |
| CpModel.BuildFailsExactly | scheduler.py:34-35 | building fails exactly when some job has no compatible printer, and the error names the first such job |
| CpModel.ValidOnSupportingPrinter | scheduler.py:36-50 | in a valid assignment every job runs on a roster printer that supports its stripped material, technology and model |
| CpModel.ValidRacksMatch | scheduler.py:54-59 | in a valid assignment two jobs get the same rack id exactly when their printers stand in the same rack |
| CpModel.ValidNoSharedMinute | scheduler.py:46-52 | two jobs on the same printer never share a minute of their buffered intervals |
| CpModel.ValidWithinHorizon | scheduler.py:24-39 | every job starts no earlier than the shift start and ends, buffer included, `duration + buffer` after its start and within the horizon |
| CpModel.LooseCountExample | scheduler.py:102-104 | a job whose only printer has material `"PLA "` can be routed, because compatibility strips the material, but the horizon's raw count gives its type no printer; a 3000-minute job then gets the bare 1440-minute horizon and has no valid assignment |
| Objective.Counts | scheduler.py:195-201 | `job_count_p{pid}` of each roster printer is the size of the set of job positions assigned to it, and is positive exactly when some job runs on it |
| Objective.MaxOf | scheduler.py:202 | `AddMaxEquality` yields a value that bounds every count and equals one of them |
| Objective.UsedExactly | scheduler.py:69-80 | a printer is marked used exactly when some job runs on it |
| Objective.UsedCountExact | scheduler.py:69-80 | `sum(printer_usage.values())` is the number of roster printers that some job runs on |
| Objective.UsedCountAtMostJobs | scheduler.py:69-80 | with distinct printer ids, no more printers are in use than there are jobs or printers |
| Objective.CountsAddUp | scheduler.py:195-201 | with distinct ids and every job on a roster printer, the per-printer counts add up to the number of jobs |
| Objective.ValidCounts | scheduler.py:195-202 | in a valid assignment the counts add up to the batch size, and the busiest count lies between the batch size and its fair share over the roster |
| Objective.MaxJobCountBounds | scheduler.py:195-202 | the busiest printer holds at most the whole batch and at least the per-printer average |
| Objective.MakespanExact | scheduler.py:209-219 | the makespan bounds every true end and equals one of them; it is 0 or more, and within the horizon for a non-empty batch |
| Objective.MakespanWithoutBuffer | scheduler.py:206-219 | the makespan is the latest buffered end minus the buffer |
| Objective.MakespanDominatesUsage | scheduler.py:231-236 | under the default objective, one minute less makespan outweighs any change in the number of used printers |
| Objective.PenaltyAsWrittenAtMostIntended | scheduler.py:157-193 | every flag the code admits is set under the intended reading, so the reported penalty is at most the intended one, which is at most the number of candidate pairs, and the composite as written never exceeds the intended composite |
| Objective.CloseEndsIgnoresBuffer | scheduler.py:173-183 | the penalty compares buffered ends, and since the buffer is common, this is comparing true ends |
| Objective.IntendedFlags | scheduler.py:181-190 | the corrected flags are true exactly for the candidate pairs that end within `diff` minutes on different racks |
| Objective.IntendedFlagsUnique | scheduler.py:189-190 | under the corrected reading the flags, and hence the penalty, are determined by the assignment |
| Objective.PenaltyAsWrittenVanishes | scheduler.py:189-193 | as written, the all-false flags are admissible for every assignment and never give a larger composite objective |
| Objective.PenaltyAsWrittenMissesClosePair | scheduler.py:181-193 | a valid assignment with a close cross-rack pair still admits a penalty of 0 |
| Objective.IntendedPenaltySamples | scheduler.py:181-193 | the corrected penalty is 1 for the close cross-rack pair and 0 once the ends are 20 minutes apart |
| Batching.ByTitleFacts | main.py:196 | `jobs_sorted` is a permutation of the jobs, ordered by title and stable for equal titles |
| Batching.GreedyBatches | main.py:191-210 | the loop produces the greedy partition of the title-sorted jobs |
| Batching.FoldCurrent | main.py:198-208 | `current_total` is always the total of `current_batch`, which is empty only before the first job |
| Batching.BatchesConserve | main.py:196-210 | concatenating the batches gives back the sorted jobs exactly |
| Batching.BatchesWithinCapacity | main.py:192-208 | every batch of two or more jobs fits within `shift_length * max(1, printers)` |
| Batching.LongJobAlone | main.py:201-208 | with durations that are not negative, a job longer than the capacity sits in a batch by itself |
| Batching.BatchesEmptyOnlyFirst | main.py:197-210 | an empty batch can only be the first one, and it is there exactly when the first sorted job alone exceeds the capacity; no jobs means no batches, and the last batch is never empty |
| Batching.PartitionFacts | main.py:191-210 | the batches hold exactly the title-sorted jobs, none lost or repeated, and the multi-job batches fit the capacity |
| Orchestrator.AttemptOfExact | main.py:225-232 | a batch fails to build exactly when `build_model` raises, with its error; it is unscheduled exactly when it builds and the solver finds nothing or it has no jobs; a scheduled batch gets the solver's slots, a valid assignment of the built model with one slot per job |
| Orchestrator.BatchRows | main.py:233-239 | a solved batch gives one row per job in batch order, carrying its batch number and the offset start and end |
| Orchestrator.AttemptBatch | main.py:218-232 | building and solving one batch gives the build error, a failure, or the solver's slots |
| Orchestrator.AdvanceBatch | main.py:228-241 | one iteration: a failed batch joins the unscheduled pool, a solved one adds its rows and moves the offset by two shift lengths, a build error stops the run |
| Orchestrator.SolveBatches | main.py:215-241 | the loop over all batches gives the rows, the unscheduled pool and the final offset of the run, or the first build error |
| Orchestrator.Schedule | main.py:191-241 | the run from the job list is the solving loop over the greedy batches |
| Orchestrator.RunFails | main.py:225-227 | the run fails exactly when some batch's model cannot be built |
| Orchestrator.SolvingFailsExactly | scheduler.py:34-35 | the run fails exactly when some job of some batch has no compatible printer; such a job is never scheduled |
| Orchestrator.RunOffsetAndPool | main.py:229-241 | the offset is `2 * shift_length` times the number of solved batches, and the unscheduled pool holds the jobs of the failed batches, in order |
| Orchestrator.RunConserves | main.py:215-241 | every job of the batches ends up exactly once, as a row or in the unscheduled pool |
| Orchestrator.RunRows | main.py:233-240 | every row is one job of a solved batch, with its batch number and shifted by `2 * shift_length` times the batches solved before it |
| Orchestrator.SolvingRowsTimed | main.py:237-239 | every row ends its duration plus the buffer after its start and starts no earlier than the shift start |
| JobGen.FilterQueued | jobgen.py:18-21 | the filter keeps the queued rows in sheet order |
| JobGen.QueuedRowsExact | jobgen.py:18-21 | a row is kept exactly when its status is missing or lower-cases to `queued` |
| JobGen.ExplodeRows | jobgen.py:31-69 | the nested loop produces the jobs of every row, copy by copy, or the first exception |
| JobGen.GenerateJobsFromSheet | jobgen.py:18-71 | the generated jobs are the explosion of the queued rows |
| JobGen.ExplodeErrSticky | jobgen.py:34-52 | an exception on one row is the result for the whole sheet |
| JobGen.ExplodeIdsAndLength | jobgen.py:33-69 | the job ids are 0, 1, 2, ... and there are as many jobs as the rows' copy counts add up to |
| JobGen.ExplodeJobs | jobgen.py:34-69 | every job is copy i of some row n, with that row's values and the title `_R{i+1}` |
| JobGen.JobFields | jobgen.py:44-67 | a job's material and technology are the row's stripped text cells, or empty when not text, and the required fields equal them; machine model and title come from the row's stripped text; duration and alpha quantity are the row's |
| JobGen.TemplateDefaults | jobgen.py:36-55 | a missing or empty quantity gives one copy, a missing or empty duration gives 30, a missing alpha gives 1 |
| JobGen.TitlesDistinct | jobgen.py:60 | the copies of a row have distinct titles |
| JobGen.TitleNumber | jobgen.py:60 | a title is the sliced id, `_R`, and the copy number, which reads back in decimal |
| SlicedBuild.AggregateParts | main.py:42-71 | the aggregation loop produces the per-part entries, with a key for every part and the parts in first-appearance order |
| SlicedBuild.PartOrderExact | main.py:51-75 | the parts iterated are exactly the part names of the rows, the same as the dict's keys |
| SlicedBuild.AggregateKeys | main.py:51-62 | a part has an entry exactly when some row names it |
| SlicedBuild.AggregateTotal | main.py:54-64 | a part's total is the sum of `Print_Quantity` over its rows |
| SlicedBuild.AggregateFirst | main.py:53-62 | a part keeps the alpha quantity, duration, method, stripped material and machine model of its first row |
| SlicedBuild.AggregatePhases | main.py:61-71 | a part's phases are exactly the phases of its rows |
| SlicedBuild.AggregateDue | main.py:60-69 | the due date is the earliest due date of the part's rows, NaT ones ignored, and stays NaT when the first row's is NaT |
| SlicedBuild.CeilDivPositive | main.py:79 | `ceil(a / b)` for a positive b is the fewest multiples of b that cover a |
| SlicedBuild.CeilDivNegative | main.py:79 | `ceil(a / b)` for a negative b, exactly |
| SlicedBuild.PartRows | main.py:79-105 | a part with a zero alpha quantity raises, and otherwise gets one row per run |
| SlicedBuild.PartRunsCover | main.py:79-105 | a part with a positive alpha gets just enough runs to cover its total, and none when the total is not positive |
| SlicedBuild.PartRowsExact | main.py:105-119 | run row i has id `_R{i+1}`, one run, the part's total, alpha, due date, phases, machine model and method, the inferred material, status `Queued` and the print time |
| SlicedBuild.RunIdInjective | main.py:107 | no two run rows, of one part or of two, share a sliced-build id |
| SlicedBuild.MinutesSpec | main.py:81-92 | the print time is the duration's seconds divided by 60 and truncated toward zero, or 30 when missing or unparsable |
| SlicedBuild.FinalMaterialSpec | main.py:94-100 | an empty material becomes `PETG` for the LFAM and FDM methods; any other material or method is kept |
| SlicedBuild.EmitPart | main.py:79-119 | the run loop of one part produces its rows |
| SlicedBuild.BuildSlicedSheet | main.py:41-119 | the ETL produces the rows of every part in first-appearance order, or the error of the first part with a zero alpha quantity |
| SlicedBuild.ExpandPartsExact | main.py:74-119 | the sheet fails exactly when some part has a zero alpha quantity; otherwise it has one row per run of every part |
| SlicedBuild.SlicedSheetFails | main.py:55-79 | the build fails exactly when the first row of some part has a zero alpha quantity |
| Sorting.SortStable | main.py:196 | the sort keeps elements with equal keys in input order, as Python's `sorted` does |
| Sorting.SortSorted | main.py:196 | the sort's result is ordered |
| Text.NatToStringRoundTrip | jobgen.py:60 | the decimal rendering of a run number reads back as that number |

## Left out

- The CP-SAT search is left out, along with its 100-second limit, its status codes and optimality. The solver is a parameter that is only trusted to return valid assignments. No schedule is claimed optimal, and the objective functions are evaluators, not minimised.
- CP-SAT variable, interval and literal objects are left out. The constraints are restated as predicates over a concrete assignment, and the penalty literals as a sequence of booleans.
- File handling is out: pandas reading and writing, the BOM/MPP merge, `Product_SKU` normalisation, column-header normalisation, argparse, file-existence checks, exporter calls and every `print`. These are I/O.
- `exporter.py`, `ganter_shift_aligned.py`, `printerconfig.py` and `build_sliced_build_ID.py` are not part of this model. They cover formatting, plotting, a constant roster and an alternative ETL that `main` does not call.
- Floats are out. The horizon's `days * 3.0` and `ceil(total / alpha)` are exact integer floor and ceiling, so float rounding on huge values is not modelled.
- `pd.to_timedelta` parsing is out. A duration is already missing, unparsable, or a whole number of seconds. Sub-second durations and the accepted text formats are not modelled.
- Due-date formatting and the sorted joining of project phases are out. They are string formatting of a value the model keeps as a day number and a set. `Created Timestamp` reads the clock and is left out.
- Python's set iteration order for the rack ids is out, because it is arbitrary. Racks are numbered by first appearance instead, which is one of the orders Python may pick. Only rack-id equality is used, and that holds for every numbering.
- Horizon.EstimateHorizon requires a positive shift length. For a zero or negative shift length the source divides by zero or produces a meaningless horizon, and that error path is not modelled.
- CpModel.BuildModel requires distinct printer ids and a positive shift length. The ids are dict keys in the source. The shift length is as in the horizon.
- Objective.MaxJobCount is 0 for an empty roster. CP-SAT would be handed `AddMaxEquality` over an empty list, which the model does not represent.
- JobGen.TemplateOf treats a text cell in a numeric column as an error. Python's `int()` would accept decimal text such as `"12"`; the model reads numbers only from numeric cells.
- JobGen.QueuedRows drops a row whose status cell is empty. When the whole `Status` column is empty, pandas gives it a float type and `.str.lower()` raises; that error path is not modelled, and the model returns no queued rows instead.
- JobGen.TemplateOf reads quantities and durations as whole numbers. `int()` truncates a fractional cell toward zero, and since `Cell.Num` holds integers only, that truncation is not modelled.
- JobGen.AlphaOf keeps an empty or text alpha cell as no number. The source would copy the NaN or text into the job, and the model does not represent it.
- SlicedBuild.MergedRow reads `Required_Material_ID` as text. For an empty (NaN) cell the source's `.strip()` raises, and that crash is not modelled. `Print_Quantity` and `Alpha_Quantity_on_Plate` are integers, so NaN values there are not modelled either.
- Zero-length and negative intervals are treated as the constraints state them, and CP-SAT's own handling of such intervals is not modelled. For example, a job with a negative duration only has to satisfy `end == start + duration + buffer`.

## Findings

| source | as written | input that shows it | evidently intended | confidence | as-written member | corrected member |
|---|---|---|---|---|---|---|
| scheduler.py:189-190 | `penalized` is only enforced to imply `close_end ∧ diff_rack`; nothing forces it true, so the minimiser sets every `penalized` to false and the penalty term is always 0 | two one-hour FDM jobs on printers in racks A and B, ending 10 minutes apart with `diff = 15`: the assignment is valid, the pair is close and cross-rack, and the flags `[false]` are admissible with penalty 0 | `penalized ⇔ close_end ∧ diff_rack`, so that the penalty counts the close cross-rack pairs | not executed | Objective.PenaltyAsWrittenMissesClosePair | Objective.IntendedFlagsUnique |

The objective the model evaluates (`Objective.ObjectiveValue`, `Objective.Composite`) uses the
corrected penalty, `Objective.IntendedPenalty`. `Objective.PenaltyAsWrittenVanishes` shows
the same defect for every assignment: the all-false flags are always admissible and never
make the objective worse.
