/** The scheduling run of `main` after the jobs are known: the greedy batches are built
    and solved in order. A batch the solver cannot schedule, or an empty one, moves its
    jobs to the unscheduled pool; a solved batch contributes one row per job, shifted by
    a running offset that then grows by two shift lengths. A job without a compatible
    printer stops the whole run with the error of `build_model`. The solver is a
    parameter: whatever it returns for a model is a valid assignment of that model, or
    nothing. */
module Orchestrator {
  import opened Wrappers
  import opened SeqUtil
  import opened Records
  import opened Compat
  import opened CpModel
  import opened Batching

  /** The command-line settings that reach the scheduler. */
  datatype Settings = Settings(
    shiftStartHour: int,
    shiftLengthHours: int,
    stagger: int,
    penalty: int,
    buffer: int)

  /** `shift_length` in minutes. */
  function ShiftLength(s: Settings): int {
    s.shiftLengthHours * 60
  }

  /** The `params` dict every batch is built with. */
  function ParamsOf(s: Settings): Parameters {
    Parameters(Some(s.shiftStartHour * 60), Some(s.shiftLengthHours), Some(s.stagger),
               Some(s.penalty), Some(s.buffer))
  }

  /** The objective `main` asks for. */
  const Objective: string := "operator_aware_composite"

  /** One row of a solved batch: the fields `solve_and_extract` reports, the batch number
      `main` attaches, and the start and end shifted by the offset. */
  datatype Row = Row(
    jobId: int,
    title: string,
    start: int,
    end: int,
    duration: int,
    printer: int,
    material: string,
    technology: string,
    machineModel: string,
    alphaQuantityOnPlate: Option<int>,
    batch: nat)

  function RowOf(job: Job, s: Slot, batch: nat, offset: int): Row {
    Row(job.jobId, job.title, s.start + offset, s.end + offset, job.duration, s.printer,
        job.requiredMaterial, job.requiredTechnology, job.machineModel, job.alphaQuantityOnPlate, batch)
  }

  /** The rows of a solved batch, in batch order. */
  function RowsOf(jobs: seq<Job>, slots: seq<Slot>, batch: nat, offset: int): (r: seq<Row>)
    requires |slots| == |jobs|
  {
    seq(|jobs|, k requires 0 <= k < |jobs| => RowOf(jobs[k], slots[k], batch, offset))
  }

  /** A solver: the assignment it found for a model, or nothing. */
  type Solver = Model -> Option<seq<Slot>>

  /** The solver reports only assignments that satisfy every constraint of the model. */
  ghost predicate Sound(solve: Solver) {
    forall m :: solve(m).Some? ==> ValidAssignment(m, solve(m).value)
  }

  /** What `main` needs of the roster and the settings for `build_model` to run. */
  predicate Admissible(roster: seq<Printer>, s: Settings) {
    DistinctIds(roster) && s.shiftLengthHours > 0
  }

  /** What became of one batch: `build_model` raised, the frame came back empty (no
      solution, or no jobs), or the solver scheduled it. */
  datatype Attempt = BuildFailed(error: BuildError) | NotScheduled | Scheduled(slots: seq<Slot>)

  function AttemptOf(roster: seq<Printer>, batch: seq<Job>, s: Settings, solve: Solver): (a: Attempt)
    requires Admissible(roster, s) && Sound(solve)
    ensures a.Scheduled? ==> |a.slots| == |batch|
  {
    var b := BuildSpec(roster, batch, Objective, ParamsOf(s));
    if b.Err? then BuildFailed(b.error)
    else
      var answer := solve(b.value);
      if answer.None? || batch == [] then NotScheduled else Scheduled(answer.value)
  }

  /** The attempt on one batch: a build error is reported as such; otherwise the batch is
      left unscheduled exactly when the solver finds nothing or it has no jobs, and a
      scheduled batch gets the solver's assignment, valid for the built model. */
  lemma AttemptOfExact(roster: seq<Printer>, batch: seq<Job>, s: Settings, solve: Solver)
    requires Admissible(roster, s) && Sound(solve)
    ensures var a := AttemptOf(roster, batch, s, solve);
            var b := BuildSpec(roster, batch, Objective, ParamsOf(s));
            && (a.BuildFailed? <==> b.Err?)
            && (a.BuildFailed? ==> a.error == b.error)
            && (a.NotScheduled? <==> b.Ok? && (solve(b.value).None? || batch == []))
            && (a.Scheduled? ==> b.Ok? && a.slots == solve(b.value).value && ValidAssignment(b.value, a.slots))
  {
  }

  function Attempts(roster: seq<Printer>, batches: seq<seq<Job>>, s: Settings, solve: Solver): (r: seq<Attempt>)
    requires Admissible(roster, s) && Sound(solve)
    ensures |r| == |batches|
    ensures forall i :: 0 <= i < |batches| ==> r[i] == AttemptOf(roster, batches[i], s, solve)
  {
    seq(|batches|, i requires 0 <= i < |batches| => AttemptOf(roster, batches[i], s, solve))
  }

  /** Every scheduled batch has one slot per job. */
  predicate Fits(batches: seq<seq<Job>>, attempts: seq<Attempt>) {
    |attempts| == |batches| &&
    forall i :: 0 <= i < |batches| && attempts[i].Scheduled? ==> |attempts[i].slots| == |batches[i]|
  }

  /** The state of the solving loop: `results` (concatenated), `unscheduled`, `offset`. */
  datatype Outcome = Outcome(rows: seq<Row>, unscheduled: seq<Job>, offset: int)

  /** One iteration of the solving loop; batches are numbered from 1. */
  function Advance(o: Outcome, batch: seq<Job>, a: Attempt, idx: nat, shiftLength: int): Result<Outcome, BuildError>
    requires a.Scheduled? ==> |a.slots| == |batch|
  {
    match a
    case BuildFailed(e) => Err(e)
    case NotScheduled => Ok(Outcome(o.rows, o.unscheduled + batch, o.offset))
    case Scheduled(slots) => Ok(Outcome(o.rows + RowsOf(batch, slots, idx, o.offset), o.unscheduled,
                                        o.offset + shiftLength * 2))
  }

  /** The solving loop over the given batches and what became of each. */
  function Run(batches: seq<seq<Job>>, attempts: seq<Attempt>, shiftLength: int): Result<Outcome, BuildError>
    requires Fits(batches, attempts)
  {
    if batches == [] then Ok(Outcome([], [], 0))
    else
      var n := |batches| - 1;
      match Run(batches[..n], attempts[..n], shiftLength)
      case Err(e) => Err(e)
      case Ok(o) => Advance(o, batches[n], attempts[n], n + 1, shiftLength)
  }

  lemma AttemptsFit(roster: seq<Printer>, batches: seq<seq<Job>>, s: Settings, solve: Solver)
    requires Admissible(roster, s) && Sound(solve)
    ensures Fits(batches, Attempts(roster, batches, s, solve))
  {
  }

  /** The solving loop of `main` over the given batches. */
  function Solving(roster: seq<Printer>, batches: seq<seq<Job>>, s: Settings, solve: Solver): Result<Outcome, BuildError>
    requires Admissible(roster, s) && Sound(solve)
  {
    AttemptsFit(roster, batches, s, solve);
    Run(batches, Attempts(roster, batches, s, solve), ShiftLength(s))
  }

  /** The rows of one solved batch. */
  method BatchRows(batch: seq<Job>, slots: seq<Slot>, idx: nat, offset: int) returns (rows: seq<Row>)
    requires |slots| == |batch|
    ensures rows == RowsOf(batch, slots, idx, offset)
  {
    rows := [];
    for k := 0 to |batch|
      invariant |rows| == k
      invariant forall t :: 0 <= t < k ==> rows[t] == RowOf(batch[t], slots[t], idx, offset)
    {
      rows := rows + [RowOf(batch[k], slots[k], idx, offset)];
    }
  }

  /** `build_model` and `solve_and_extract` on one batch. */
  method AttemptBatch(roster: seq<Printer>, batch: seq<Job>, s: Settings, solve: Solver) returns (a: Attempt)
    requires Admissible(roster, s) && Sound(solve)
    ensures a == AttemptOf(roster, batch, s, solve)
  {
    var built := BuildModel(roster, batch, Objective, ParamsOf(s));
    if built.Err? {
      return BuildFailed(built.error);
    }
    var answer := solve(built.value);
    if answer.None? || batch == [] {
      return NotScheduled;
    }
    a := Scheduled(answer.value);
  }

  /** One iteration of the solving loop: the error of `build_model`, the batch's jobs
      moved to `unscheduled`, or its rows appended and the offset advanced. */
  method AdvanceBatch(o: Outcome, batch: seq<Job>, a: Attempt, idx: nat, shiftLength: int)
    returns (r: Result<Outcome, BuildError>)
    requires a.Scheduled? ==> |a.slots| == |batch|
    ensures r == Advance(o, batch, a, idx, shiftLength)
  {
    match a
    case BuildFailed(e) =>
      r := Err(e);
    case NotScheduled =>
      r := Ok(Outcome(o.rows, o.unscheduled + batch, o.offset));
    case Scheduled(slots) =>
      var rows := BatchRows(batch, slots, idx, o.offset);
      r := Ok(Outcome(o.rows + rows, o.unscheduled, o.offset + shiftLength * 2));
  }

  /** The solving loop of `main`. */
  method SolveBatches(roster: seq<Printer>, batches: seq<seq<Job>>, s: Settings, solve: Solver)
    returns (r: Result<Outcome, BuildError>)
    requires Admissible(roster, s) && Sound(solve)
    ensures r == Solving(roster, batches, s, solve)
  {
    ghost var attempts := Attempts(roster, batches, s, solve);
    AttemptsFit(roster, batches, s, solve);
    var shiftLength := s.shiftLengthHours * 60;
    var state := Outcome([], [], 0);
    for i := 0 to |batches|
      invariant Run(batches[..i], attempts[..i], shiftLength) == Ok(state)
    {
      StepRun(batches, attempts, shiftLength, i);
      var a := AttemptBatch(roster, batches[i], s, solve);
      assert a == attempts[i];
      var next := AdvanceBatch(state, batches[i], a, i + 1, shiftLength);
      if next.Err? {
        RunErrSticky(batches, attempts, shiftLength, i + 1);
        return next;
      }
      state := next.value;
    }
    assert batches[..|batches|] == batches && attempts[..|batches|] == attempts;
    r := Ok(state);
  }

  /** `main` from the job list on: batching, then solving. */
  method Schedule(roster: seq<Printer>, jobs: seq<Job>, s: Settings, solve: Solver)
    returns (r: Result<Outcome, BuildError>)
    requires Admissible(roster, s) && Sound(solve)
    ensures r == Solving(roster, Partition(jobs, ShiftLength(s), |roster|), s, solve)
  {
    var batches := GreedyBatches(jobs, s.shiftLengthHours * 60, |roster|);
    r := SolveBatches(roster, batches, s, solve);
  }

  // ---- properties of the loop, whatever became of each batch -----------------------

  lemma FitsPrefix(batches: seq<seq<Job>>, attempts: seq<Attempt>, i: nat)
    requires Fits(batches, attempts) && i <= |batches|
    ensures Fits(batches[..i], attempts[..i])
  {
  }

  /** The run over one more batch is one more iteration. */
  lemma StepRun(batches: seq<seq<Job>>, attempts: seq<Attempt>, shiftLength: int, i: nat)
    requires Fits(batches, attempts) && i < |batches|
    ensures Fits(batches[..i + 1], attempts[..i + 1])
    ensures Run(batches[..i + 1], attempts[..i + 1], shiftLength) ==
            match Run(batches[..i], attempts[..i], shiftLength)
            case Err(e) => Err(e)
            case Ok(o) => Advance(o, batches[i], attempts[i], i + 1, shiftLength)
  {
    PrefixOfPrefix(batches, i, i + 1);
    PrefixOfPrefix(attempts, i, i + 1);
  }

  /** An error stops the run: it is the result of every longer run. */
  lemma {:induction false} RunErrSticky(batches: seq<seq<Job>>, attempts: seq<Attempt>, shiftLength: int, i: nat)
    requires Fits(batches, attempts) && i <= |batches|
    requires Run(batches[..i], attempts[..i], shiftLength).Err?
    ensures Run(batches, attempts, shiftLength) == Run(batches[..i], attempts[..i], shiftLength)
  {
    if i < |batches| {
      var n := |batches| - 1;
      PrefixOfPrefix(batches, i, n);
      PrefixOfPrefix(attempts, i, n);
      RunErrSticky(batches[..n], attempts[..n], shiftLength, i);
    } else {
      assert batches[..i] == batches && attempts[..i] == attempts;
    }
  }

  /** The run fails exactly when the model of some batch cannot be built. */
  lemma {:induction false} RunFails(batches: seq<seq<Job>>, attempts: seq<Attempt>, shiftLength: int)
    requires Fits(batches, attempts)
    ensures Run(batches, attempts, shiftLength).Err? <==>
            exists i :: 0 <= i < |batches| && attempts[i].BuildFailed?
  {
    if batches != [] {
      var n := |batches| - 1;
      RunFails(batches[..n], attempts[..n], shiftLength);
      if exists i :: 0 <= i < n && attempts[..n][i].BuildFailed? {
        var i :| 0 <= i < n && attempts[..n][i].BuildFailed?;
        assert attempts[i].BuildFailed?;
      }
      if exists i :: 0 <= i < |batches| && attempts[i].BuildFailed? {
        var i :| 0 <= i < |batches| && attempts[i].BuildFailed?;
        if i < n {
          assert attempts[..n][i].BuildFailed?;
        }
      }
    }
  }

  /** The number of batches the solver scheduled. */
  function SolvedCount(attempts: seq<Attempt>): (c: nat)
    ensures c <= |attempts|
  {
    if attempts == [] then 0
    else SolvedCount(attempts[..|attempts| - 1]) + (if attempts[|attempts| - 1].Scheduled? then 1 else 0)
  }

  /** The jobs of the batches the solver did not schedule, in order. */
  function Failed(batches: seq<seq<Job>>, attempts: seq<Attempt>): seq<Job>
    requires |attempts| == |batches|
  {
    if batches == [] then []
    else Failed(batches[..|batches| - 1], attempts[..|batches| - 1]) +
         (if attempts[|batches| - 1].Scheduled? then [] else batches[|batches| - 1])
  }

  /** The offset counts the scheduled batches, two shift lengths each, and the
      unscheduled pool is the failed batches' jobs in order. */
  lemma {:induction false} RunOffsetAndPool(batches: seq<seq<Job>>, attempts: seq<Attempt>, shiftLength: int)
    requires Fits(batches, attempts) && Run(batches, attempts, shiftLength).Ok?
    ensures Run(batches, attempts, shiftLength).value.offset == 2 * shiftLength * SolvedCount(attempts)
    ensures Run(batches, attempts, shiftLength).value.unscheduled == Failed(batches, attempts)
  {
    if batches != [] {
      var n := |batches| - 1;
      RunOffsetAndPool(batches[..n], attempts[..n], shiftLength);
    }
  }

  /** The job ids of the rows, and of a list of jobs. */
  function RowIds(rows: seq<Row>): (r: seq<int>)
    ensures |r| == |rows| && forall t :: 0 <= t < |rows| ==> r[t] == rows[t].jobId
  {
    seq(|rows|, t requires 0 <= t < |rows| => rows[t].jobId)
  }

  function JobIds(jobs: seq<Job>): (r: seq<int>)
    ensures |r| == |jobs| && forall t :: 0 <= t < |jobs| ==> r[t] == jobs[t].jobId
  {
    seq(|jobs|, t requires 0 <= t < |jobs| => jobs[t].jobId)
  }

  lemma JobIdsAppend(a: seq<Job>, b: seq<Job>)
    ensures JobIds(a + b) == JobIds(a) + JobIds(b)
  {
  }

  lemma RowIdsAppend(a: seq<Row>, b: seq<Row>)
    ensures RowIds(a + b) == RowIds(a) + RowIds(b)
  {
  }

  lemma RowIdsOf(jobs: seq<Job>, slots: seq<Slot>, batch: nat, offset: int)
    requires |slots| == |jobs|
    ensures RowIds(RowsOf(jobs, slots, batch, offset)) == JobIds(jobs)
  {
  }

  /** One iteration adds the batch's jobs, as rows or to the pool. */
  lemma AdvanceConserves(o: Outcome, batch: seq<Job>, a: Attempt, idx: nat, shiftLength: int)
    requires a.Scheduled? ==> |a.slots| == |batch|
    requires Advance(o, batch, a, idx, shiftLength).Ok?
    ensures var o2 := Advance(o, batch, a, idx, shiftLength).value;
            multiset(RowIds(o2.rows)) + multiset(JobIds(o2.unscheduled)) ==
            multiset(RowIds(o.rows)) + multiset(JobIds(o.unscheduled)) + multiset(JobIds(batch))
  {
    match a
    case Scheduled(slots) =>
      RowIdsAppend(o.rows, RowsOf(batch, slots, idx, o.offset));
      RowIdsOf(batch, slots, idx, o.offset);
    case NotScheduled =>
      JobIdsAppend(o.unscheduled, batch);
  }

  /** Every job of the batches ends up exactly once, as a row or in the unscheduled pool. */
  lemma {:induction false} RunConserves(batches: seq<seq<Job>>, attempts: seq<Attempt>, shiftLength: int)
    requires Fits(batches, attempts) && Run(batches, attempts, shiftLength).Ok?
    ensures var o := Run(batches, attempts, shiftLength).value;
            multiset(RowIds(o.rows)) + multiset(JobIds(o.unscheduled)) == multiset(JobIds(Flatten(batches)))
  {
    if batches != [] {
      var n := |batches| - 1;
      var b := batches[n];
      RunConserves(batches[..n], attempts[..n], shiftLength);
      var o := Run(batches[..n], attempts[..n], shiftLength).value;
      AdvanceConserves(o, b, attempts[n], n + 1, shiftLength);
      assert Flatten(batches) == Flatten(batches[..n]) + b;
      JobIdsAppend(Flatten(batches[..n]), b);
    }
  }

  /** Every row is one job of a scheduled batch: the job's fields, the batch number, and
      the solver's start and end shifted by two shift lengths per scheduled batch before
      it. */
  lemma {:induction false} RunRows(batches: seq<seq<Job>>, attempts: seq<Attempt>, shiftLength: int, t: nat)
    requires Fits(batches, attempts) && Run(batches, attempts, shiftLength).Ok?
    requires t < |Run(batches, attempts, shiftLength).value.rows|
    ensures exists i, k :: 0 <= i < |batches| && attempts[i].Scheduled? && 0 <= k < |batches[i]| &&
              Run(batches, attempts, shiftLength).value.rows[t] ==
              RowOf(batches[i][k], attempts[i].slots[k], i + 1, 2 * shiftLength * SolvedCount(attempts[..i]))
  {
    var n := |batches| - 1;
    var o := Run(batches[..n], attempts[..n], shiftLength).value;
    if t < |o.rows| {
      RunRows(batches[..n], attempts[..n], shiftLength, t);
      var i, k :| 0 <= i < n && attempts[..n][i].Scheduled? && 0 <= k < |batches[..n][i]| &&
                  o.rows[t] == RowOf(batches[..n][i][k], attempts[..n][i].slots[k], i + 1,
                                     2 * shiftLength * SolvedCount(attempts[..n][..i]));
      PrefixOfPrefix(attempts, i, n);
      assert attempts[..n][i] == attempts[i] && batches[..n][i] == batches[i];
    } else {
      RunOffsetAndPool(batches[..n], attempts[..n], shiftLength);
      var k := t - |o.rows|;
      var rows := RowsOf(batches[n], attempts[n].slots, n + 1, o.offset);
      assert Run(batches, attempts, shiftLength).value.rows == o.rows + rows;
      assert Run(batches, attempts, shiftLength).value.rows[t] == rows[k];
    }
  }

  // ---- properties of the run of `main` ---------------------------------------------

  /** Some job has no compatible printer. */
  predicate Unroutable(roster: seq<Printer>, batches: seq<seq<Job>>) {
    exists i, k :: 0 <= i < |batches| && 0 <= k < |batches[i]| && JobCompatible(roster, batches[i][k]) == []
  }

  /** The run fails exactly when some job of some batch has no compatible printer: such a
      job is never moved to the unscheduled pool. */
  lemma SolvingFailsExactly(roster: seq<Printer>, batches: seq<seq<Job>>, s: Settings, solve: Solver)
    requires Admissible(roster, s) && Sound(solve)
    ensures Solving(roster, batches, s, solve).Err? <==> Unroutable(roster, batches)
  {
    var attempts := Attempts(roster, batches, s, solve);
    RunFails(batches, attempts, ShiftLength(s));
    forall i | 0 <= i < |batches|
      ensures attempts[i].BuildFailed? <==> exists k :: 0 <= k < |batches[i]| && JobCompatible(roster, batches[i][k]) == []
    {
      BuildFailsExactly(roster, batches[i], Objective, ParamsOf(s));
    }
  }

  /** A scheduled batch's slots last their job's duration plus the buffer and start no
      earlier than the shift start. */
  lemma ScheduledTimed(roster: seq<Printer>, batch: seq<Job>, s: Settings, solve: Solver, k: nat)
    requires Admissible(roster, s) && Sound(solve)
    requires AttemptOf(roster, batch, s, solve).Scheduled? && k < |batch|
    ensures var slot := AttemptOf(roster, batch, s, solve).slots[k];
            slot.end == slot.start + batch[k].duration + s.buffer && slot.start >= s.shiftStartHour * 60
  {
    var m := BuildSpec(roster, batch, Objective, ParamsOf(s)).value;
    var slots := AttemptOf(roster, batch, s, solve).slots;
    assert ValidAssignment(m, slots);
    assert SlotValid(m, k, slots[k]);
  }

  /** The slots of every scheduled batch last their job's duration plus `buffer` and
      start no earlier than `earliest`. */
  predicate Timed(batches: seq<seq<Job>>, attempts: seq<Attempt>, buffer: int, earliest: int)
    requires Fits(batches, attempts)
  {
    forall i, k :: 0 <= i < |batches| && attempts[i].Scheduled? && 0 <= k < |batches[i]| ==>
      attempts[i].slots[k].end == attempts[i].slots[k].start + batches[i][k].duration + buffer &&
      attempts[i].slots[k].start >= earliest
  }

  lemma AttemptsTimed(roster: seq<Printer>, batches: seq<seq<Job>>, s: Settings, solve: Solver)
    requires Admissible(roster, s) && Sound(solve)
    ensures Fits(batches, Attempts(roster, batches, s, solve))
    ensures Timed(batches, Attempts(roster, batches, s, solve), s.buffer, s.shiftStartHour * 60)
  {
    var attempts := Attempts(roster, batches, s, solve);
    forall i, k | 0 <= i < |batches| && attempts[i].Scheduled? && 0 <= k < |batches[i]|
      ensures attempts[i].slots[k].end == attempts[i].slots[k].start + batches[i][k].duration + s.buffer &&
              attempts[i].slots[k].start >= s.shiftStartHour * 60
    {
      ScheduledTimed(roster, batches[i], s, solve, k);
    }
  }

  lemma OffsetNonNegative(shiftLength: int, c: nat)
    requires shiftLength >= 0
    ensures 2 * shiftLength * c >= 0
  {
  }

  /** Shifting by a non-negative offset keeps the durations and the earliest start. */
  lemma RunRowsTimed(batches: seq<seq<Job>>, attempts: seq<Attempt>, shiftLength: int, buffer: int,
                     earliest: int, t: nat)
    requires Fits(batches, attempts) && Timed(batches, attempts, buffer, earliest) && shiftLength >= 0
    requires Run(batches, attempts, shiftLength).Ok? && t < |Run(batches, attempts, shiftLength).value.rows|
    ensures var row := Run(batches, attempts, shiftLength).value.rows[t];
            row.end == row.start + row.duration + buffer && row.start >= earliest
  {
    RunRows(batches, attempts, shiftLength, t);
    var i, k :| 0 <= i < |batches| && attempts[i].Scheduled? && 0 <= k < |batches[i]| &&
                Run(batches, attempts, shiftLength).value.rows[t] ==
                RowOf(batches[i][k], attempts[i].slots[k], i + 1, 2 * shiftLength * SolvedCount(attempts[..i]));
    var c := SolvedCount(attempts[..i]);
    OffsetNonNegative(shiftLength, c);
    var slot := attempts[i].slots[k];
    assert slot.end == slot.start + batches[i][k].duration + buffer && slot.start >= earliest;
  }

  /** Every row of the run lasts its job's duration plus the buffer and starts no earlier
      than the shift start. */
  lemma SolvingRowsTimed(roster: seq<Printer>, batches: seq<seq<Job>>, s: Settings, solve: Solver, t: nat)
    requires Admissible(roster, s) && Sound(solve) && Solving(roster, batches, s, solve).Ok?
    requires t < |Solving(roster, batches, s, solve).value.rows|
    ensures var row := Solving(roster, batches, s, solve).value.rows[t];
            row.end == row.start + row.duration + s.buffer && row.start >= s.shiftStartHour * 60
  {
    AttemptsTimed(roster, batches, s, solve);
    RunRowsTimed(batches, Attempts(roster, batches, s, solve), ShiftLength(s), s.buffer, s.shiftStartHour * 60, t);
  }
}
