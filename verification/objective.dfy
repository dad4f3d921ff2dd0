/** The quantities `build_model` minimises, evaluated on a concrete assignment: the job
    count of every printer and their maximum, the printers in use, the makespan without
    the buffer, the total start time, the operator-proximity penalty, and the two
    objective formulas. */
module Objective {
  import opened Wrappers
  import opened SeqUtil
  import opened Records
  import opened Compat
  import opened CpModel

  /** The chosen printer of every job. */
  function ChosenPrinters(slots: seq<Slot>): (r: seq<int>)
    ensures |r| == |slots|
    ensures forall k :: 0 <= k < |slots| ==> r[k] == slots[k].printer
  {
    seq(|slots|, k requires 0 <= k < |slots| => slots[k].printer)
  }

  /** `job_count_p{pid}`: the number of jobs whose presence literal for `pid` is true. */
  function JobCount(slots: seq<Slot>, pid: int): nat {
    Occurrences(ChosenPrinters(slots), pid)
  }

  /** The positions of the jobs that run on printer `pid`. */
  function JobsOn(slots: seq<Slot>, pid: int): set<int> {
    set k | 0 <= k < |slots| && slots[k].printer == pid
  }

  /** The per-printer counts, in roster order: printer `i` counts the jobs that run on it,
      and it counts some exactly when a job runs on it. */
  function Counts(roster: seq<Printer>, slots: seq<Slot>): (r: seq<nat>)
    ensures |r| == |roster|
    ensures forall i :: 0 <= i < |roster| ==> r[i] == |JobsOn(slots, roster[i].id)|
    ensures forall i :: 0 <= i < |roster| ==>
              (r[i] > 0 <==> exists k :: 0 <= k < |slots| && slots[k].printer == roster[i].id)
    ensures forall i :: 0 <= i < |roster| ==> r[i] == JobCount(slots, roster[i].id)
  {
    JobCountsExact(slots);
    seq(|roster|, i requires 0 <= i < |roster| => JobCount(slots, roster[i].id))
  }

  /** `AddMaxEquality` over a non-empty list. */
  function MaxOf(s: seq<int>): (r: int)
    requires s != []
    ensures forall k :: 0 <= k < |s| ==> s[k] <= r
    ensures exists k :: 0 <= k < |s| && s[k] == r
  {
    if |s| == 1 then s[0]
    else
      var m := MaxOf(s[..|s| - 1]);
      assert forall k :: 0 <= k < |s| - 1 ==> s[..|s| - 1][k] == s[k];
      Max(m, s[|s| - 1])
  }

  /** `max_job_count`; 0 for an empty roster. */
  function MaxJobCount(roster: seq<Printer>, slots: seq<Slot>): int {
    if roster == [] then 0 else MaxOf(Counts(roster, slots))
  }

  /** `printer_{pid}_used`: some job's presence literal for `pid` is true. */
  predicate Used(slots: seq<Slot>, pid: int) {
    JobCount(slots, pid) > 0
  }

  /** `sum(printer_usage.values())`. */
  function UsedCount(roster: seq<Printer>, slots: seq<Slot>): (n: nat)
    ensures n <= |roster|
  {
    if roster == [] then 0
    else UsedCount(roster[..|roster| - 1], slots) + (if Used(slots, roster[|roster| - 1].id) then 1 else 0)
  }

  /** `true_end` of every job: its start plus its duration, without the buffer. */
  function TrueEnds(m: Model, slots: seq<Slot>): (r: seq<int>)
    requires |slots| == |m.jobs|
    ensures |r| == |slots|
    ensures forall k :: 0 <= k < |slots| ==> r[k] == slots[k].start + m.jobs[k].duration
  {
    seq(|slots|, k requires 0 <= k < |slots| => slots[k].start + m.jobs[k].duration)
  }

  /** `makespan`: the latest true end, or 0 when the batch is empty. */
  function Makespan(m: Model, slots: seq<Slot>): int
    requires |slots| == |m.jobs|
  {
    if slots == [] then 0 else MaxOf(TrueEnds(m, slots))
  }

  /** The candidate pairs of the model name jobs of the assignment. */
  predicate PairsInRange(m: Model, slots: seq<Slot>) {
    forall q :: 0 <= q < |m.pairs| ==> m.pairs[q].0 < |slots| && m.pairs[q].1 < |slots|
  }

  /** `close_end`: the (buffered) ends are at most `diff` minutes apart. */
  predicate CloseEnds(m: Model, slots: seq<Slot>, q: nat)
    requires PairsInRange(m, slots) && q < |m.pairs|
  {
    Abs(slots[m.pairs[q].0].end - slots[m.pairs[q].1].end) <= m.diff
  }

  /** `diff_rack`. */
  predicate DiffRacks(m: Model, slots: seq<Slot>, q: nat)
    requires PairsInRange(m, slots) && q < |m.pairs|
  {
    slots[m.pairs[q].0].rack != slots[m.pairs[q].1].rack
  }

  function CountTrue(flags: seq<bool>): (n: nat)
    ensures n <= |flags|
  {
    if flags == [] then 0 else CountTrue(flags[..|flags| - 1]) + (if flags[|flags| - 1] then 1 else 0)
  }

  function AllFalse(n: nat): (r: seq<bool>)
    ensures |r| == n && forall q :: 0 <= q < n ==> !r[q]
  {
    seq(n, q => false)
  }

  /** The `penalized` literals as the source constrains them: a true literal implies a
      close, cross-rack pair, and `penalty`, their number, lies in `[0, 1000]`. */
  predicate PenaltyAsWritten(m: Model, slots: seq<Slot>, flags: seq<bool>)
    requires PairsInRange(m, slots)
  {
    && |flags| == |m.pairs|
    && (forall q :: 0 <= q < |flags| && flags[q] ==> CloseEnds(m, slots, q) && DiffRacks(m, slots, q))
    && CountTrue(flags) <= 1000
  }

  /** The composite objective as written, with the `penalized` literals the solver chose. */
  function CompositeAsWritten(m: Model, slots: seq<Slot>, flags: seq<bool>): int
    requires |slots| == |m.jobs|
  {
    Makespan(m, slots) + m.penaltyVal * CountTrue(flags) + 30 * MaxJobCount(m.roster, slots) + TotalStart(slots)
  }

  /** The flags the penalty evidently means: true exactly for the close, cross-rack pairs. */
  function IntendedFlags(m: Model, slots: seq<Slot>): (r: seq<bool>)
    requires PairsInRange(m, slots)
    ensures |r| == |m.pairs|
    ensures forall q :: 0 <= q < |m.pairs| ==> (r[q] <==> CloseEnds(m, slots, q) && DiffRacks(m, slots, q))
  {
    seq(|m.pairs|, q requires 0 <= q < |m.pairs| => CloseEnds(m, slots, q) && DiffRacks(m, slots, q))
  }

  /** The number of candidate pairs that end close together on different racks. */
  function IntendedPenalty(m: Model, slots: seq<Slot>): nat
    requires PairsInRange(m, slots)
  {
    CountTrue(IntendedFlags(m, slots))
  }

  /** The composite objective with the intended penalty. */
  function Composite(m: Model, slots: seq<Slot>): int
    requires |slots| == |m.jobs| && PairsInRange(m, slots)
  {
    Makespan(m, slots) + m.penaltyVal * IntendedPenalty(m, slots) + 30 * MaxJobCount(m.roster, slots) + TotalStart(slots)
  }

  /** The default objective: makespan weighted by one more than the roster size, plus the
      printers in use and the total start time. */
  function PrinterObjective(m: Model, slots: seq<Slot>): int
    requires |slots| == |m.jobs|
  {
    Makespan(m, slots) * (|m.roster| + 1) + UsedCount(m.roster, slots) + TotalStart(slots)
  }

  /** The objective of the model's kind, with the intended penalty. */
  function ObjectiveValue(m: Model, slots: seq<Slot>): int
    requires |slots| == |m.jobs| && PairsInRange(m, slots)
  {
    match m.objective
    case OperatorAwareComposite => Composite(m, slots)
    case MakespanAndPrinters => PrinterObjective(m, slots)
  }

  // ---- counts ---------------------------------------------------------------------

  lemma JobCountSnoc(slots: seq<Slot>, s: Slot, pid: int)
    ensures JobCount(slots + [s], pid) == JobCount(slots, pid) + (if s.printer == pid then 1 else 0)
  {
    assert ChosenPrinters(slots + [s])[..|slots|] == ChosenPrinters(slots);
  }

  /** A printer is used exactly when some job runs on it. */
  lemma UsedExactly(slots: seq<Slot>, pid: int)
    ensures Used(slots, pid) <==> exists k :: 0 <= k < |slots| && slots[k].printer == pid
  {
    var ps := ChosenPrinters(slots);
    if pid in ps {
      var k :| 0 <= k < |ps| && ps[k] == pid;
      assert slots[k].printer == pid;
    }
    if exists k :: 0 <= k < |slots| && slots[k].printer == pid {
      var k :| 0 <= k < |slots| && slots[k].printer == pid;
      assert ps[k] == pid;
    }
  }

  /** `job_count_p{pid}` is the number of jobs that run on `pid`. */
  lemma {:induction false} JobCountExact(slots: seq<Slot>, pid: int)
    ensures JobCount(slots, pid) == |JobsOn(slots, pid)|
  {
    if slots == [] {
      assert JobsOn(slots, pid) == {};
    } else {
      var n := |slots| - 1;
      JobCountExact(slots[..n], pid);
      LastSplit(slots);
      JobCountSnoc(slots[..n], slots[n], pid);
      JobsOnSnoc(slots, pid);
    }
  }

  lemma JobsOnSnoc(slots: seq<Slot>, pid: int)
    requires slots != []
    ensures var n := |slots| - 1;
            n !in JobsOn(slots[..n], pid) &&
            JobsOn(slots, pid) == JobsOn(slots[..n], pid) + (if slots[n].printer == pid then {n} else {})
  {
  }

  lemma JobCountsExact(slots: seq<Slot>)
    ensures forall pid :: JobCount(slots, pid) == |JobsOn(slots, pid)|
    ensures forall pid :: JobCount(slots, pid) > 0 <==> exists k :: 0 <= k < |slots| && slots[k].printer == pid
  {
    forall pid
      ensures JobCount(slots, pid) == |JobsOn(slots, pid)|
      ensures JobCount(slots, pid) > 0 <==> exists k :: 0 <= k < |slots| && slots[k].printer == pid
    {
      JobCountExact(slots, pid);
      UsedExactly(slots, pid);
    }
  }

  /** The roster positions of the printers some job runs on. */
  function UsedPrinters(roster: seq<Printer>, slots: seq<Slot>): set<int> {
    set i | 0 <= i < |roster| && RunsOn(slots, roster[i].id)
  }

  /** Some job of the assignment runs on printer `pid`. */
  predicate RunsOn(slots: seq<Slot>, pid: int) {
    exists k :: 0 <= k < |slots| && slots[k].printer == pid
  }

  /** `sum(printer_usage.values())` is the number of roster printers that received a job. */
  lemma {:induction false} UsedCountExact(roster: seq<Printer>, slots: seq<Slot>)
    ensures UsedCount(roster, slots) == |UsedPrinters(roster, slots)|
  {
    if roster == [] {
      assert UsedPrinters(roster, slots) == {};
    } else {
      var n := |roster| - 1;
      UsedCountExact(roster[..n], slots);
      UsedExactly(slots, roster[n].id);
      UsedPrintersSnoc(roster, slots);
    }
  }

  lemma UsedPrintersSnoc(roster: seq<Printer>, slots: seq<Slot>)
    requires roster != []
    ensures var n := |roster| - 1;
            n !in UsedPrinters(roster[..n], slots) &&
            UsedPrinters(roster, slots) ==
            UsedPrinters(roster[..n], slots) + (if RunsOn(slots, roster[n].id) then {n} else {})
  {
    var n := |roster| - 1;
    assert forall i :: 0 <= i < n ==> roster[..n][i] == roster[i];
  }

  /** Every printer in use holds at least one job. */
  lemma {:induction false} UsedAtMostCounts(roster: seq<Printer>, slots: seq<Slot>)
    ensures UsedCount(roster, slots) <= SumCounts(roster, slots)
  {
    if roster != [] {
      UsedAtMostCounts(roster[..|roster| - 1], slots);
    }
  }

  /** With distinct ids no job is counted on two printers. */
  lemma {:induction false} SumCountsAtMostJobs(roster: seq<Printer>, slots: seq<Slot>)
    requires DistinctIds(roster)
    ensures SumCounts(roster, slots) <= |slots|
  {
    if slots == [] {
      ZeroCounts(roster);
    } else {
      var n := |slots| - 1;
      var pre := slots[..n];
      SumCountsAtMostJobs(roster, pre);
      LastSplit(slots);
      SumCountsSnoc(roster, pre, slots[n]);
      if slots[n].printer in Ids(roster) {
        DistinctIdOnce(roster, slots[n].printer);
      }
    }
  }

  /** There are no more printers in use than jobs, nor than printers. */
  lemma UsedCountAtMostJobs(roster: seq<Printer>, slots: seq<Slot>)
    requires DistinctIds(roster)
    ensures UsedCount(roster, slots) <= |slots| && UsedCount(roster, slots) <= |roster|
  {
    UsedAtMostCounts(roster, slots);
    SumCountsAtMostJobs(roster, slots);
  }

  function SumCounts(roster: seq<Printer>, slots: seq<Slot>): int {
    if roster == [] then 0
    else SumCounts(roster[..|roster| - 1], slots) + JobCount(slots, roster[|roster| - 1].id)
  }

  lemma {:induction false} SumCountsSnoc(roster: seq<Printer>, slots: seq<Slot>, s: Slot)
    ensures SumCounts(roster, slots + [s]) == SumCounts(roster, slots) + Occurrences(Ids(roster), s.printer)
  {
    if roster != [] {
      var n := |roster| - 1;
      SumCountsSnoc(roster[..n], slots, s);
      JobCountSnoc(slots, s, roster[n].id);
      assert Ids(roster)[..n] == Ids(roster[..n]);
    }
  }

  lemma {:induction false} DistinctIdOnce(roster: seq<Printer>, x: int)
    requires DistinctIds(roster) && x in Ids(roster)
    ensures Occurrences(Ids(roster), x) == 1
  {
    var n := |roster| - 1;
    var ids := Ids(roster);
    var pre := Ids(roster[..n]);
    assert ids[..n] == pre;
    if roster[n].id == x {
      assert x !in pre;
    } else {
      var k :| 0 <= k < |ids| && ids[k] == x;
      assert pre[k] == x;
      DistinctIdOnce(roster[..n], x);
    }
  }

  lemma {:induction false} ZeroCounts(roster: seq<Printer>)
    ensures SumCounts(roster, []) == 0
  {
    if roster != [] {
      ZeroCounts(roster[..|roster| - 1]);
    }
  }

  /** Every job is counted on exactly one printer: the counts add up to the batch size. */
  lemma {:induction false} CountsAddUp(roster: seq<Printer>, slots: seq<Slot>)
    requires DistinctIds(roster)
    requires forall k :: 0 <= k < |slots| ==> slots[k].printer in Ids(roster)
    ensures SumCounts(roster, slots) == |slots|
  {
    if slots == [] {
      ZeroCounts(roster);
    } else {
      var n := |slots| - 1;
      var pre := slots[..n];
      assert pre + [slots[n]] == slots;
      assert forall k :: 0 <= k < |pre| ==> pre[k] == slots[k];
      CountsAddUp(roster, pre);
      SumCountsSnoc(roster, pre, slots[n]);
      DistinctIdOnce(roster, slots[n].printer);
    }
  }

  lemma {:induction false} SumCountsAtMost(roster: seq<Printer>, slots: seq<Slot>, bound: int)
    requires forall i :: 0 <= i < |roster| ==> JobCount(slots, roster[i].id) <= bound
    ensures SumCounts(roster, slots) <= |roster| * bound
  {
    if roster != [] {
      var n := |roster| - 1;
      SumCountsAtMost(roster[..n], slots, bound);
      assert |roster| * bound == n * bound + bound;
    }
  }

  /** The busiest printer holds at most the whole batch and at least its share of it. */
  lemma MaxJobCountBounds(roster: seq<Printer>, slots: seq<Slot>)
    requires roster != []
    ensures 0 <= MaxJobCount(roster, slots) <= |slots|
    ensures SumCounts(roster, slots) <= |roster| * MaxJobCount(roster, slots)
  {
    var cs := Counts(roster, slots);
    var mx := MaxOf(cs);
    var i :| 0 <= i < |cs| && cs[i] == mx;
    assert cs[i] == Occurrences(ChosenPrinters(slots), roster[i].id);
    forall j | 0 <= j < |roster| ensures JobCount(slots, roster[j].id) <= mx {
      assert cs[j] == JobCount(slots, roster[j].id);
    }
    SumCountsAtMost(roster, slots, mx);
  }

  /** A valid assignment of a built model runs every job on a roster printer. */
  lemma ValidOnRoster(m: Model, slots: seq<Slot>)
    requires DistinctIds(m.roster) && m.compat == CompatTable(m.roster, m.jobs)
    requires ValidAssignment(m, slots)
    ensures forall k :: 0 <= k < |slots| ==> slots[k].printer in Ids(m.roster)
  {
    forall k | 0 <= k < |slots| ensures slots[k].printer in Ids(m.roster) {
      ValidOnSupportingPrinter(m, slots, k);
      var p :| p in m.roster && p.id == slots[k].printer &&
               Supports(p, m.jobs[k].requiredMaterial, m.jobs[k].requiredTechnology, m.jobs[k].machineModel);
      var i :| 0 <= i < |m.roster| && m.roster[i] == p;
      assert Ids(m.roster)[i] == p.id;
    }
  }

  /** In a valid assignment of a built model the counts add up to the batch size, the
      maximum count is at most the batch size (the domain of `max_job_count`), and the
      busiest printer holds at least its share: `max_job_count * |printers| >= |jobs|`. */
  lemma ValidCounts(m: Model, slots: seq<Slot>)
    requires DistinctIds(m.roster) && m.compat == CompatTable(m.roster, m.jobs)
    requires ValidAssignment(m, slots)
    ensures SumCounts(m.roster, slots) == |slots|
    ensures 0 <= MaxJobCount(m.roster, slots) <= |slots|
    ensures |m.roster| * MaxJobCount(m.roster, slots) >= |slots|
  {
    ValidOnRoster(m, slots);
    CountsAddUp(m.roster, slots);
    if m.roster != [] {
      MaxJobCountBounds(m.roster, slots);
    }
  }

  // ---- makespan -------------------------------------------------------------------

  /** The makespan is the latest true end: no job ends later, some job ends then, and it
      lies within the horizon. */
  lemma MakespanExact(m: Model, slots: seq<Slot>)
    requires ValidAssignment(m, slots)
    ensures forall k :: 0 <= k < |slots| ==> slots[k].start + m.jobs[k].duration <= Makespan(m, slots)
    ensures slots != [] ==> exists k :: 0 <= k < |slots| && slots[k].start + m.jobs[k].duration == Makespan(m, slots)
    ensures 0 <= Makespan(m, slots)
    ensures slots != [] ==> Makespan(m, slots) <= m.horizon
  {
    if slots != [] {
      var ends := TrueEnds(m, slots);
      var k :| 0 <= k < |ends| && ends[k] == MaxOf(ends);
      assert SlotValid(m, k, slots[k]);
    }
  }

  /** The makespan leaves the buffer out: it is the latest buffered end minus the buffer. */
  lemma MakespanWithoutBuffer(m: Model, slots: seq<Slot>)
    requires ValidAssignment(m, slots) && slots != []
    ensures Makespan(m, slots) == MaxOf(seq(|slots|, k requires 0 <= k < |slots| => slots[k].end)) - m.buffer
  {
    var ends := seq(|slots|, k requires 0 <= k < |slots| => slots[k].end);
    var te := TrueEnds(m, slots);
    forall k | 0 <= k < |slots| ensures ends[k] == te[k] + m.buffer {
      assert SlotValid(m, k, slots[k]);
    }
    var i :| 0 <= i < |te| && te[i] == MaxOf(te);
    var j :| 0 <= j < |ends| && ends[j] == MaxOf(ends);
    assert ends[i] <= MaxOf(ends) && te[j] <= MaxOf(te);
  }

  /** With the makespan weighted by `|printers| + 1`, one minute of makespan outweighs any
      difference in the number of printers used. */
  lemma MulStep(x: int, y: int, w: int)
    requires x < y && w >= 1
    ensures x * w + w <= y * w
  {
    var d := y - x;
    assert y * w == x * w + d * w;
    assert (d - 1) * w >= 0;
    assert d * w == (d - 1) * w + w;
  }

  /** With the makespan weighted by `|printers| + 1`, one minute of makespan outweighs any
      difference in the number of printers used. */
  lemma MakespanDominatesUsage(m: Model, a: seq<Slot>, b: seq<Slot>)
    requires |a| == |m.jobs| && |b| == |m.jobs|
    requires Makespan(m, a) < Makespan(m, b) && TotalStart(a) == TotalStart(b)
    ensures PrinterObjective(m, a) < PrinterObjective(m, b)
  {
    MulStep(Makespan(m, a), Makespan(m, b), |m.roster| + 1);
  }

  // ---- the proximity penalty --------------------------------------------------------

  /** Fewer true flags, position by position, count fewer. */
  lemma {:induction false} CountTrueMonotone(a: seq<bool>, b: seq<bool>)
    requires |a| == |b| && forall q :: 0 <= q < |a| && a[q] ==> b[q]
    ensures CountTrue(a) <= CountTrue(b)
  {
    if a != [] {
      var n := |a| - 1;
      assert forall q :: 0 <= q < n ==> a[..n][q] == a[q] && b[..n][q] == b[q];
      CountTrueMonotone(a[..n], b[..n]);
    }
  }

  /** Every flag the source admits is also set under the intended reading, so the reported
      penalty lies between 0 and the intended one, which is at most the number of candidate
      pairs; with a non-negative weight the composite objective as written never exceeds
      the intended one. */
  lemma PenaltyAsWrittenAtMostIntended(m: Model, slots: seq<Slot>, flags: seq<bool>)
    requires PairsInRange(m, slots) && PenaltyAsWritten(m, slots, flags)
    ensures CountTrue(flags) <= IntendedPenalty(m, slots) <= |m.pairs|
    ensures |slots| == |m.jobs| && m.penaltyVal >= 0 ==>
              CompositeAsWritten(m, slots, flags) <= Composite(m, slots)
  {
    CountTrueMonotone(flags, IntendedFlags(m, slots));
    if |slots| == |m.jobs| && m.penaltyVal >= 0 {
      WeightedAtMost(m.penaltyVal, CountTrue(flags), IntendedPenalty(m, slots));
    }
  }

  lemma WeightedAtMost(w: int, a: int, b: int)
    requires w >= 0 && a <= b
    ensures w * a <= w * b
  {
    assert w * b == w * a + w * (b - a);
  }

  /** The buffer is the same for every job, so comparing buffered ends is comparing true
      ends. */
  lemma CloseEndsIgnoresBuffer(m: Model, slots: seq<Slot>, q: nat)
    requires ValidAssignment(m, slots) && PairsInRange(m, slots) && q < |m.pairs|
    ensures var (i, j) := m.pairs[q];
            CloseEnds(m, slots, q) <==>
            Abs((slots[i].start + m.jobs[i].duration) - (slots[j].start + m.jobs[j].duration)) <= m.diff
  {
    var (i, j) := m.pairs[q];
    assert SlotValid(m, i, slots[i]) && SlotValid(m, j, slots[j]);
  }

  lemma {:induction false} CountAllFalse(n: nat)
    ensures CountTrue(AllFalse(n)) == 0
  {
    if n > 0 {
      assert AllFalse(n)[..n - 1] == AllFalse(n - 1);
      CountAllFalse(n - 1);
    }
  }

  /** As written, the `penalized` literals are only bounded above by `close_end` and
      `diff_rack`. Whatever the assignment, setting all of them false is admissible and
      never raises the objective, so a minimising solver can always report a zero penalty:
      the proximity term cannot influence the schedule. */
  lemma PenaltyAsWrittenVanishes(m: Model, slots: seq<Slot>, flags: seq<bool>)
    requires |slots| == |m.jobs| && PairsInRange(m, slots) && m.penaltyVal >= 0
    requires PenaltyAsWritten(m, slots, flags)
    ensures PenaltyAsWritten(m, slots, AllFalse(|m.pairs|))
    ensures CountTrue(AllFalse(|m.pairs|)) == 0
    ensures CompositeAsWritten(m, slots, AllFalse(|m.pairs|)) <= CompositeAsWritten(m, slots, flags)
  {
    CountAllFalse(|m.pairs|);
    assert m.penaltyVal * CountTrue(flags) >= 0;
  }

  /** Under the intended reading the flags are determined by the assignment. */
  lemma IntendedFlagsUnique(m: Model, slots: seq<Slot>, flags: seq<bool>)
    requires PairsInRange(m, slots) && |flags| == |m.pairs|
    requires forall q :: 0 <= q < |flags| ==> (flags[q] <==> CloseEnds(m, slots, q) && DiffRacks(m, slots, q))
    ensures flags == IntendedFlags(m, slots)
    ensures CountTrue(flags) == IntendedPenalty(m, slots)
  {
  }

  /** Two one-hour jobs of the same technology on printers in racks A and B, with `diff`
      15 and a penalty value of 5. */
  function SampleModel(): Model {
    Model([Printer(1, "P1", "PLA", "FDM", "A", "MK4"), Printer(2, "P2", "PLA", "FDM", "B", "MK4")],
          [Job(0, "X_R1", "PLA", "FDM", "PLA", "FDM", "MK4", 60, Some(1)),
           Job(1, "X_R2", "PLA", "FDM", "PLA", "FDM", "MK4", 60, Some(1))],
          OperatorAwareComposite, 480, 720, 1440, 0, 15, 5,
          [[1, 2], [1, 2]], map[1 := 0, 2 := 1], [(0, 1)])
  }

  /** The jobs end 10 minutes apart on different racks. */
  function CloseSlots(): seq<Slot> {
    [Slot(480, 540, 1, 0), Slot(490, 550, 2, 1)]
  }

  /** The jobs end 20 minutes apart on different racks. */
  function ApartSlots(): seq<Slot> {
    [Slot(480, 540, 1, 0), Slot(500, 560, 2, 1)]
  }

  /** The source as written: the assignment is valid and its pair is close and cross-rack,
      yet the all-false flags are admissible, so the reported penalty is 0. */
  lemma PenaltyAsWrittenMissesClosePair()
    ensures ValidAssignment(SampleModel(), CloseSlots())
    ensures PairsInRange(SampleModel(), CloseSlots())
    ensures CloseEnds(SampleModel(), CloseSlots(), 0) && DiffRacks(SampleModel(), CloseSlots(), 0)
    ensures PenaltyAsWritten(SampleModel(), CloseSlots(), [false]) && CountTrue([false]) == 0
  {
    var slots := CloseSlots();
    assert slots[..1][..0] == [];
    assert TotalStart(slots) == 970;
    assert [false][..0] == [];
  }

  /** The intended penalty counts the close cross-rack pair, and only while it is close. */
  lemma IntendedPenaltySamples()
    ensures PairsInRange(SampleModel(), CloseSlots()) && IntendedPenalty(SampleModel(), CloseSlots()) == 1
    ensures PairsInRange(SampleModel(), ApartSlots()) && IntendedPenalty(SampleModel(), ApartSlots()) == 0
  {
    var m := SampleModel();
    var f := IntendedFlags(m, CloseSlots());
    assert f == [true];
    assert f[..0] == [];
    var g := IntendedFlags(m, ApartSlots());
    assert g == [false];
    assert g[..0] == [];
  }
}
