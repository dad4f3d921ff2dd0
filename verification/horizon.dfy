/** The horizon estimate of `build_model`: the work of each (material, technology) type
    divided by the minutes its printers can deliver per day, for the busiest type, times
    the safety factor 3, plus two days of padding.

    The source computes `int(3.0 * max(0, max_t work_t / (minutes_per_day * count_t))) + 2`
    in floating point. For a positive divisor this is the integer
    `max(0, max_t floor(3 * work_t / (minutes_per_day * count_t))) + 2`, which is what the
    model computes; Dafny's `/` on `int` with a positive divisor is floor division. */
module Horizon {
  import opened Wrappers
  import opened SeqUtil
  import opened Records

  /** The key under which `work_per_type` and `printers_per_type` are kept. */
  type JobType = (string, string)

  /** A job's type: its raw required material and technology. */
  function TypeOf(j: Job): JobType {
    (j.requiredMaterial, j.requiredTechnology)
  }

  /** A printer's type: its raw material and technology. Unlike `compatible_printers`,
      the count neither strips whitespace nor looks at the machine model. */
  function PrinterType(p: Printer): JobType {
    (p.material, p.technology)
  }

  /** Minutes of work of type `t` in `jobs`. */
  function Work(jobs: seq<Job>, t: JobType): int {
    if jobs == [] then 0
    else Work(jobs[..|jobs| - 1], t) + (if TypeOf(jobs[|jobs| - 1]) == t then jobs[|jobs| - 1].duration else 0)
  }

  /** Number of printers of type `t`. */
  function PrinterCount(roster: seq<Printer>, t: JobType): nat {
    if roster == [] then 0
    else PrinterCount(roster[..|roster| - 1], t) + (if PrinterType(roster[|roster| - 1]) == t then 1 else 0)
  }

  /** The types of a batch, each once, in the order `work_per_type` first sees them. */
  function Types(jobs: seq<Job>): seq<JobType> {
    if jobs == [] then []
    else
      var d := Types(jobs[..|jobs| - 1]);
      if TypeOf(jobs[|jobs| - 1]) in d then d else d + [TypeOf(jobs[|jobs| - 1])]
  }

  /** `floor(3 * work / (minutes_per_day * count))`. */
  function Days(work: int, minutesPerDay: int, count: int): int
    requires minutesPerDay > 0 && count > 0
  {
    (3 * work) / (minutesPerDay * count)
  }

  /** `floor(3 * days_needed_for_type)`, or nothing (0) for a type without printers. */
  function DaysTerm(jobs: seq<Job>, roster: seq<Printer>, minutesPerDay: int, t: JobType): int
    requires minutesPerDay > 0
  {
    var c := PrinterCount(roster, t);
    if c > 0 then Days(Work(jobs, t), minutesPerDay, c) else 0
  }

  /** The largest `DaysTerm` over `ts`, and at least 0 (the source starts its maximum at 0.0). */
  function MaxDays(ts: seq<JobType>, jobs: seq<Job>, roster: seq<Printer>, minutesPerDay: int): (r: int)
    requires minutesPerDay > 0
    ensures r >= 0
  {
    if ts == [] then 0
    else Max(MaxDays(ts[..|ts| - 1], jobs, roster, minutesPerDay),
             DaysTerm(jobs, roster, minutesPerDay, ts[|ts| - 1]))
  }

  /** `minutes_per_day * (days + 2)`: two days of padding. */
  function Padded(minutesPerDay: int, days: int): int {
    minutesPerDay * (days + 2)
  }

  /** The horizon in minutes: `minutes_per_day * (int(min_days_needed * 3.0) + 2)`. */
  function HorizonSpec(jobs: seq<Job>, roster: seq<Printer>, minutesPerDay: int): int
    requires minutesPerDay > 0
  {
    Padded(minutesPerDay, MaxDays(Types(jobs), jobs, roster, minutesPerDay))
  }

  lemma TypesSnoc(jobs: seq<Job>, i: nat)
    requires i < |jobs|
    ensures var d := Types(jobs[..i]);
            Types(jobs[..i + 1]) == if TypeOf(jobs[i]) in d then d else d + [TypeOf(jobs[i])]
  {
    PrefixOfPrefix(jobs, i, i + 1);
  }

  lemma WorkSnoc(jobs: seq<Job>, i: nat, t: JobType)
    requires i < |jobs|
    ensures Work(jobs[..i + 1], t) == Work(jobs[..i], t) + (if TypeOf(jobs[i]) == t then jobs[i].duration else 0)
  {
    PrefixOfPrefix(jobs, i, i + 1);
  }

  lemma PrinterCountSnoc(roster: seq<Printer>, i: nat, t: JobType)
    requires i < |roster|
    ensures PrinterCount(roster[..i + 1], t) == PrinterCount(roster[..i], t) + (if PrinterType(roster[i]) == t then 1 else 0)
  {
    PrefixOfPrefix(roster, i, i + 1);
  }

  lemma DaysNonPositive(work: int, minutesPerDay: int, count: int)
    requires work <= 0 && minutesPerDay > 0 && count > 0
    ensures Days(work, minutesPerDay, count) <= 0
  {
    assert minutesPerDay * count > 0;
  }

  lemma MaxDaysSnoc(ts: seq<JobType>, k: nat, jobs: seq<Job>, roster: seq<Printer>, minutesPerDay: int)
    requires minutesPerDay > 0 && k < |ts|
    ensures MaxDays(ts[..k + 1], jobs, roster, minutesPerDay) ==
            Max(MaxDays(ts[..k], jobs, roster, minutesPerDay), DaysTerm(jobs, roster, minutesPerDay, ts[k]))
  {
    PrefixOfPrefix(ts, k, k + 1);
  }

  /** `workPerType` holds the work of every type of `jobs`, and `typeOrder` its keys in
      insertion order. */
  ghost predicate WorkTally(jobs: seq<Job>, workPerType: map<JobType, int>, typeOrder: seq<JobType>) {
    && typeOrder == Types(jobs)
    && (forall t :: t in workPerType <==> t in typeOrder)
    && (forall t :: t in workPerType ==> workPerType[t] == Work(jobs, t))
  }

  lemma WorkTallyStep(jobs: seq<Job>, i: nat, workPerType: map<JobType, int>, typeOrder: seq<JobType>)
    requires i < |jobs| && WorkTally(jobs[..i], workPerType, typeOrder)
    ensures var t := TypeOf(jobs[i]);
            var w := if t in workPerType then workPerType[t] else 0;
            WorkTally(jobs[..i + 1], workPerType[t := w + jobs[i].duration],
                      if t in workPerType then typeOrder else typeOrder + [t])
  {
    var t := TypeOf(jobs[i]);
    TypesSnoc(jobs, i);
    forall u ensures Work(jobs[..i + 1], u) == Work(jobs[..i], u) + (if t == u then jobs[i].duration else 0) {
      WorkSnoc(jobs, i, u);
    }
    if t !in workPerType {
      WorkAbsent(jobs[..i], t);
    }
  }

  /** The first loop of the horizon estimate: `work_per_type`, its keys in insertion order. */
  method TallyWork(jobs: seq<Job>) returns (workPerType: map<JobType, int>, typeOrder: seq<JobType>)
    ensures WorkTally(jobs, workPerType, typeOrder)
  {
    workPerType := map[];
    typeOrder := [];
    for i := 0 to |jobs|
      invariant WorkTally(jobs[..i], workPerType, typeOrder)
    {
      var t := TypeOf(jobs[i]);
      WorkTallyStep(jobs, i, workPerType, typeOrder);
      // `work_per_type.get(t, 0) + duration`; a new key goes to the end of the key order
      var w := if t in workPerType then workPerType[t] else 0;
      typeOrder := if t in workPerType then typeOrder else typeOrder + [t];
      workPerType := workPerType[t := w + jobs[i].duration];
    }
    assert jobs[..|jobs|] == jobs;
  }

  /** The second loop: `printers_per_type`. A type without an entry has no printer. */
  method TallyPrinters(roster: seq<Printer>) returns (printersPerType: map<JobType, nat>)
    ensures forall t :: t in printersPerType ==> printersPerType[t] == PrinterCount(roster, t)
    ensures forall t :: t !in printersPerType ==> PrinterCount(roster, t) == 0
  {
    printersPerType := map[];
    for i := 0 to |roster|
      invariant forall t :: t in printersPerType ==> printersPerType[t] == PrinterCount(roster[..i], t)
      invariant forall t :: t !in printersPerType ==> PrinterCount(roster[..i], t) == 0
    {
      var t := PrinterType(roster[i]);
      forall u ensures PrinterCount(roster[..i + 1], u) == PrinterCount(roster[..i], u) + (if t == u then 1 else 0) {
        PrinterCountSnoc(roster, i, u);
      }
      printersPerType := printersPerType[t := (if t in printersPerType then printersPerType[t] else 0) + 1];
    }
    assert roster[..|roster|] == roster;
  }

  /** The third loop: the largest `floor(3 * days_needed)` over the types of the batch that
      have printers, and whether any of them had positive work (`min_days_needed > 0`). */
  method BusiestType(ts: seq<JobType>, jobs: seq<Job>, roster: seq<Printer>, minutesPerDay: int,
                     workPerType: map<JobType, int>, printersPerType: map<JobType, nat>)
    returns (best: int, positive: bool)
    requires minutesPerDay > 0
    requires forall t :: t in ts ==> t in workPerType && workPerType[t] == Work(jobs, t)
    requires forall t :: t in printersPerType ==> printersPerType[t] == PrinterCount(roster, t)
    requires forall t :: t !in printersPerType ==> PrinterCount(roster, t) == 0
    ensures best == MaxDays(ts, jobs, roster, minutesPerDay)
    ensures !positive ==> best == 0
  {
    best := 0;
    positive := false;
    for k := 0 to |ts|
      invariant best == MaxDays(ts[..k], jobs, roster, minutesPerDay)
      invariant !positive ==> best == 0
    {
      var t := ts[k];
      MaxDaysSnoc(ts, k, jobs, roster, minutesPerDay);
      var count := if t in printersPerType then printersPerType[t] else 0;
      if count > 0 {
        var work := workPerType[t];
        var days := Days(work, minutesPerDay, count);
        if work <= 0 {
          DaysNonPositive(work, minutesPerDay, count);
        }
        best := Max(best, days);
        positive := positive || work > 0;
      }
    }
    assert ts[..|ts|] == ts;
  }

  /** The horizon computation of `build_model`. */
  method EstimateHorizon(jobs: seq<Job>, roster: seq<Printer>, shiftHours: int) returns (horizon: int)
    requires shiftHours > 0
    ensures horizon == HorizonSpec(jobs, roster, shiftHours * 60)
  {
    var minutesPerDay := shiftHours * 60;
    var workPerType, typeOrder := TallyWork(jobs);
    var printersPerType := TallyPrinters(roster);
    var best, positive := BusiestType(typeOrder, jobs, roster, minutesPerDay, workPerType, printersPerType);
    // `min_days_needed = 0.1` when it is 0 for a non-empty batch; `int(0.1 * 3.0)` is 0
    var scaled := if !positive && |jobs| > 0 then 0 else best;
    horizon := Padded(minutesPerDay, scaled);
  }

  /** A type that `Types` does not list has no work. */
  lemma {:induction false} WorkAbsent(jobs: seq<Job>, t: JobType)
    requires t !in Types(jobs)
    ensures Work(jobs, t) == 0
  {
    if jobs != [] {
      var n := |jobs| - 1;
      assert Types(jobs[..n]) <= Types(jobs);
      WorkAbsent(jobs[..n], t);
    }
  }

  /** `Types` lists exactly the types that occur in the batch. */
  lemma {:induction false} TypesExact(jobs: seq<Job>, t: JobType)
    ensures t in Types(jobs) <==> exists k :: 0 <= k < |jobs| && TypeOf(jobs[k]) == t
  {
    if jobs != [] {
      var n := |jobs| - 1;
      TypesExact(jobs[..n], t);
      if exists k :: 0 <= k < |jobs| && TypeOf(jobs[k]) == t {
        var k :| 0 <= k < |jobs| && TypeOf(jobs[k]) == t;
        if k < n {
          assert TypeOf(jobs[..n][k]) == t;
        }
      }
      if exists k :: 0 <= k < n && TypeOf(jobs[..n][k]) == t {
        var k :| 0 <= k < n && TypeOf(jobs[..n][k]) == t;
        assert TypeOf(jobs[k]) == t;
      }
    }
  }

  /** ... and each of them once. */
  lemma {:induction false} TypesDistinct(jobs: seq<Job>)
    ensures Distinct(Types(jobs))
  {
    if jobs != [] {
      TypesDistinct(jobs[..|jobs| - 1]);
    }
  }

  /** The horizon always has the two days of padding. */
  lemma HorizonAtLeastTwoDays(jobs: seq<Job>, roster: seq<Printer>, minutesPerDay: int)
    requires minutesPerDay > 0
    ensures HorizonSpec(jobs, roster, minutesPerDay) >= 2 * minutesPerDay
  {
    var d := MaxDays(Types(jobs), jobs, roster, minutesPerDay);
    assert minutesPerDay * (d + 2) == minutesPerDay * d + 2 * minutesPerDay;
    assert minutesPerDay * d >= 0;
  }

  /** Two batches that agree job by job on type and whose durations are ordered. */
  predicate LongerJobs(jobs: seq<Job>, longer: seq<Job>) {
    && |jobs| == |longer|
    && (forall k :: 0 <= k < |jobs| ==> TypeOf(jobs[k]) == TypeOf(longer[k]))
    && (forall k :: 0 <= k < |jobs| ==> jobs[k].duration <= longer[k].duration)
  }

  lemma {:induction false} LongerJobsSameTypes(jobs: seq<Job>, longer: seq<Job>)
    requires LongerJobs(jobs, longer)
    ensures Types(jobs) == Types(longer)
  {
    if jobs != [] {
      var n := |jobs| - 1;
      assert LongerJobs(jobs[..n], longer[..n]);
      LongerJobsSameTypes(jobs[..n], longer[..n]);
    }
  }

  lemma {:induction false} LongerJobsMoreWork(jobs: seq<Job>, longer: seq<Job>, t: JobType)
    requires LongerJobs(jobs, longer)
    ensures Work(jobs, t) <= Work(longer, t)
  {
    if jobs != [] {
      var n := |jobs| - 1;
      assert LongerJobs(jobs[..n], longer[..n]);
      LongerJobsMoreWork(jobs[..n], longer[..n], t);
    }
  }

  lemma MulCancelLess(d: int, x: int, y: int)
    requires d > 0 && d * x < d * y
    ensures x < y
  {
  }

  lemma DivMonotone(a: int, b: int, d: int)
    requires a <= b && d > 0
    ensures a / d <= b / d
  {
    var q, r := a / d, b / d;
    assert d * q <= a;
    assert b < d * r + d;
    assert d * r + d == d * (r + 1);
    MulCancelLess(d, q, r + 1);
  }

  lemma DaysMonotone(work: int, more: int, minutesPerDay: int, count: int)
    requires work <= more && minutesPerDay > 0 && count > 0
    ensures Days(work, minutesPerDay, count) <= Days(more, minutesPerDay, count)
  {
    assert minutesPerDay * count > 0;
    DivMonotone(3 * work, 3 * more, minutesPerDay * count);
  }

  lemma {:induction false} MaxDaysMonotone(ts: seq<JobType>, jobs: seq<Job>, longer: seq<Job>,
                                           roster: seq<Printer>, minutesPerDay: int)
    requires minutesPerDay > 0 && LongerJobs(jobs, longer)
    ensures MaxDays(ts, jobs, roster, minutesPerDay) <= MaxDays(ts, longer, roster, minutesPerDay)
  {
    if ts != [] {
      var t := ts[|ts| - 1];
      MaxDaysMonotone(ts[..|ts| - 1], jobs, longer, roster, minutesPerDay);
      var c := PrinterCount(roster, t);
      if c > 0 {
        LongerJobsMoreWork(jobs, longer, t);
        DaysMonotone(Work(jobs, t), Work(longer, t), minutesPerDay, c);
      }
    }
  }

  /** Making jobs longer never shortens the horizon. */
  lemma HorizonMonotone(jobs: seq<Job>, longer: seq<Job>, roster: seq<Printer>, minutesPerDay: int)
    requires minutesPerDay > 0 && LongerJobs(jobs, longer)
    ensures HorizonSpec(jobs, roster, minutesPerDay) <= HorizonSpec(longer, roster, minutesPerDay)
  {
    LongerJobsSameTypes(jobs, longer);
    var ts := Types(jobs);
    MaxDaysMonotone(ts, jobs, longer, roster, minutesPerDay);
    PaddedMonotone(minutesPerDay, MaxDays(ts, jobs, roster, minutesPerDay),
                   MaxDays(ts, longer, roster, minutesPerDay));
  }

  lemma PaddedMonotone(minutesPerDay: int, a: int, b: int)
    requires minutesPerDay > 0 && a <= b
    ensures Padded(minutesPerDay, a) <= Padded(minutesPerDay, b)
  {
    assert minutesPerDay * (b + 2) - minutesPerDay * (a + 2) == minutesPerDay * (b - a);
  }

  lemma {:induction false} MaxDaysSameTerms(ts: seq<JobType>, jobs: seq<Job>, other: seq<Job>,
                                            roster: seq<Printer>, minutesPerDay: int)
    requires minutesPerDay > 0
    requires forall k :: 0 <= k < |ts| ==>
               DaysTerm(jobs, roster, minutesPerDay, ts[k]) == DaysTerm(other, roster, minutesPerDay, ts[k])
    ensures MaxDays(ts, jobs, roster, minutesPerDay) == MaxDays(ts, other, roster, minutesPerDay)
  {
    if ts != [] {
      MaxDaysSameTerms(ts[..|ts| - 1], jobs, other, roster, minutesPerDay);
    }
  }

  /** A job whose type no printer has (by the raw count) leaves the horizon unchanged. */
  lemma HorizonIgnoresUnsupported(jobs: seq<Job>, j: Job, roster: seq<Printer>, minutesPerDay: int)
    requires minutesPerDay > 0 && PrinterCount(roster, TypeOf(j)) == 0
    ensures HorizonSpec(jobs + [j], roster, minutesPerDay) == HorizonSpec(jobs, roster, minutesPerDay)
  {
    var all := jobs + [j];
    assert all[..|all| - 1] == jobs;
    var ts := Types(jobs);
    forall k | 0 <= k < |ts|
      ensures DaysTerm(all, roster, minutesPerDay, ts[k]) == DaysTerm(jobs, roster, minutesPerDay, ts[k])
    {
    }
    MaxDaysSameTerms(ts, all, jobs, roster, minutesPerDay);
    if TypeOf(j) !in ts {
      assert (ts + [TypeOf(j)])[..|ts|] == ts;
    }
  }
}
