/** The greedy batching of `main`: the jobs are sorted by title and then cut, in order,
    into batches whose total duration stays within `shift_length * max(1, |printers|)`
    minutes. A job that does not fit closes the current batch and opens the next one. */
module Batching {
  import opened Wrappers
  import opened Sorting
  import opened Records
  import opened SeqUtil

  /** The key order of `sorted(jobs, key=lambda j: j['job_title'])`. */
  predicate TitleLess(a: Job, b: Job) {
    StrLt(a.title, b.title)
  }

  lemma TitleLessOrder()
    ensures StrictWeakOrder(TitleLess)
  {
    forall a: Job, b: Job | TitleLess(a, b) ensures !TitleLess(b, a) {
      StrLtAsymmetric(a.title, b.title);
    }
    forall a: Job, b: Job, c: Job | !TitleLess(a, b) && !TitleLess(b, c) ensures !TitleLess(a, c) {
      StrLeTransitive(a.title, b.title, c.title);
    }
  }

  /** `jobs_sorted`. */
  function ByTitle(jobs: seq<Job>): (r: seq<Job>)
    ensures |r| == |jobs|
  {
    Sort(jobs, TitleLess)
  }

  /** `jobs_sorted` holds the same jobs, ordered by title, and jobs with equal titles keep
      their input order. */
  lemma ByTitleFacts(jobs: seq<Job>)
    ensures multiset(ByTitle(jobs)) == multiset(jobs)
    ensures SortedBy(ByTitle(jobs), TitleLess)
    ensures forall x :: Equivalents(ByTitle(jobs), x, TitleLess) == Equivalents(jobs, x, TitleLess)
  {
    TitleLessOrder();
    SortSorted(jobs, TitleLess);
    forall x ensures Equivalents(ByTitle(jobs), x, TitleLess) == Equivalents(jobs, x, TitleLess) {
      SortStable(jobs, x, TitleLess);
    }
  }

  /** `target_minutes_per_batch`. */
  function Capacity(shiftLength: int, printerCount: nat): int {
    shiftLength * Max(1, printerCount)
  }

  /** The total duration of a batch. */
  function Total(batch: seq<Job>): int {
    if batch == [] then 0 else Total(batch[..|batch| - 1]) + batch[|batch| - 1].duration
  }

  /** The batches one after another. */
  function Flatten(batches: seq<seq<Job>>): seq<Job> {
    if batches == [] then [] else Flatten(batches[..|batches| - 1]) + batches[|batches| - 1]
  }

  /** The loop state: the closed batches, `current_batch` and `current_total`. */
  datatype Fill = Fill(closed: seq<seq<Job>>, current: seq<Job>, total: int)

  /** One iteration of the batching loop. */
  function Step(f: Fill, job: Job, capacity: int): Fill {
    if f.total + job.duration <= capacity then Fill(f.closed, f.current + [job], f.total + job.duration)
    else Fill(f.closed + [f.current], [job], job.duration)
  }

  /** The loop state after the given jobs. */
  function Fold(jobs: seq<Job>, capacity: int): Fill {
    if jobs == [] then Fill([], [], 0)
    else Step(Fold(jobs[..|jobs| - 1], capacity), jobs[|jobs| - 1], capacity)
  }

  /** The batches after the loop: the current batch is kept when it is not empty. */
  function Batches(jobs: seq<Job>, capacity: int): seq<seq<Job>> {
    var f := Fold(jobs, capacity);
    if f.current != [] then f.closed + [f.current] else f.closed
  }

  /** The batches of `main`. */
  function Partition(jobs: seq<Job>, shiftLength: int, printerCount: nat): seq<seq<Job>> {
    Batches(ByTitle(jobs), Capacity(shiftLength, printerCount))
  }

  /** The batching loop over the title-sorted jobs. */
  method GreedyBatches(jobs: seq<Job>, shiftLength: int, printerCount: nat) returns (batches: seq<seq<Job>>)
    ensures batches == Partition(jobs, shiftLength, printerCount)
  {
    var capacity := shiftLength * Max(1, printerCount);
    var sorted := ByTitle(jobs);
    batches := [];
    var current: seq<Job> := [];
    var currentTotal := 0;
    for i := 0 to |sorted|
      invariant Fill(batches, current, currentTotal) == Fold(sorted[..i], capacity)
    {
      PrefixOfPrefix(sorted, i, i + 1);
      var job := sorted[i];
      if currentTotal + job.duration <= capacity {
        current := current + [job];
        currentTotal := currentTotal + job.duration;
      } else {
        batches := batches + [current];
        current := [job];
        currentTotal := job.duration;
      }
    }
    assert sorted[..|sorted|] == sorted;
    if current != [] {
      batches := batches + [current];
    }
  }

  // ---- properties -----------------------------------------------------------------

  lemma FlattenSnoc(batches: seq<seq<Job>>, b: seq<Job>)
    ensures Flatten(batches + [b]) == Flatten(batches) + b
  {
    assert (batches + [b])[..|batches|] == batches;
  }

  lemma TotalSnoc(batch: seq<Job>, j: Job)
    ensures Total(batch + [j]) == Total(batch) + j.duration
  {
    assert (batch + [j])[..|batch|] == batch;
  }

  /** `current_total` is the total of the current batch, which is empty only before the
      first job. */
  lemma {:induction false} FoldCurrent(jobs: seq<Job>, capacity: int)
    ensures Fold(jobs, capacity).total == Total(Fold(jobs, capacity).current)
    ensures Fold(jobs, capacity).current == [] <==> jobs == []
  {
    if jobs != [] {
      var n := |jobs| - 1;
      var f := Fold(jobs[..n], capacity);
      FoldCurrent(jobs[..n], capacity);
      if f.total + jobs[n].duration <= capacity {
        TotalSnoc(f.current, jobs[n]);
      } else {
        assert [jobs[n]][..0] == [];
      }
    }
  }

  /** One iteration keeps the jobs seen so far and adds the new one at the end. */
  lemma StepConserves(f: Fill, job: Job, capacity: int)
    ensures var g := Step(f, job, capacity);
            Flatten(g.closed) + g.current == (Flatten(f.closed) + f.current) + [job]
  {
    var pre := Flatten(f.closed);
    if f.total + job.duration <= capacity {
      assert pre + (f.current + [job]) == (pre + f.current) + [job];
    } else {
      FlattenSnoc(f.closed, f.current);
    }
  }

  /** The loop keeps every job, in order: the closed batches followed by the current one
      are the jobs seen so far. */
  lemma {:induction false} FoldConserves(jobs: seq<Job>, capacity: int)
    ensures Flatten(Fold(jobs, capacity).closed) + Fold(jobs, capacity).current == jobs
  {
    if jobs != [] {
      var n := |jobs| - 1;
      FoldConserves(jobs[..n], capacity);
      StepConserves(Fold(jobs[..n], capacity), jobs[n], capacity);
      LastSplit(jobs);
    }
  }

  /** Concatenating the batches gives back the jobs: none is dropped, duplicated or
      reordered. */
  lemma BatchesConserve(jobs: seq<Job>, capacity: int)
    ensures Flatten(Batches(jobs, capacity)) == jobs
  {
    var f := Fold(jobs, capacity);
    FoldConserves(jobs, capacity);
    FoldCurrent(jobs, capacity);
    if f.current != [] {
      FlattenSnoc(f.closed, f.current);
    }
  }

  /** A batch that is closed, or the current one, holds at most the capacity once it has
      two or more jobs. */
  lemma {:induction false} FoldWithinCapacity(jobs: seq<Job>, capacity: int)
    ensures var f := Fold(jobs, capacity);
            (forall i :: 0 <= i < |f.closed| && |f.closed[i]| >= 2 ==> Total(f.closed[i]) <= capacity) &&
            (|f.current| >= 2 ==> Total(f.current) <= capacity)
  {
    if jobs != [] {
      var n := |jobs| - 1;
      var f := Fold(jobs[..n], capacity);
      FoldWithinCapacity(jobs[..n], capacity);
      FoldCurrent(jobs[..n], capacity);
      if f.total + jobs[n].duration <= capacity {
        TotalSnoc(f.current, jobs[n]);
      }
    }
  }

  /** Every batch of two or more jobs fits in the capacity. */
  lemma BatchesWithinCapacity(jobs: seq<Job>, capacity: int)
    ensures forall b :: b in Batches(jobs, capacity) && |b| >= 2 ==> Total(b) <= capacity
  {
    var f := Fold(jobs, capacity);
    FoldWithinCapacity(jobs, capacity);
    forall b | b in Batches(jobs, capacity) && |b| >= 2 ensures Total(b) <= capacity {
      if b != f.current || f.current == [] {
        var i :| 0 <= i < |f.closed| && f.closed[i] == b;
      }
    }
  }

  lemma {:induction false} TotalAtLeastEach(batch: seq<Job>, k: nat)
    requires k < |batch| && forall i :: 0 <= i < |batch| ==> batch[i].duration >= 0
    ensures Total(batch) >= batch[k].duration
  {
    var n := |batch| - 1;
    if k < n {
      TotalAtLeastEach(batch[..n], k);
    }
    TotalNonNegative(batch[..n]);
  }

  lemma {:induction false} TotalNonNegative(batch: seq<Job>)
    requires forall i :: 0 <= i < |batch| ==> batch[i].duration >= 0
    ensures Total(batch) >= 0
  {
    if batch != [] {
      TotalNonNegative(batch[..|batch| - 1]);
    }
  }

  /** With durations that are not negative, a job longer than the capacity sits in a batch
      by itself. */
  lemma LongJobAlone(jobs: seq<Job>, capacity: int, b: seq<Job>, k: nat)
    requires forall i :: 0 <= i < |jobs| ==> jobs[i].duration >= 0
    requires b in Batches(jobs, capacity) && k < |b| && b[k].duration > capacity
    ensures b == [b[k]]
  {
    BatchesWithinCapacity(jobs, capacity);
    BatchesConserve(jobs, capacity);
    var bs := Batches(jobs, capacity);
    forall i | 0 <= i < |b| ensures b[i].duration >= 0 {
      FlattenHolds(bs, b, i);
    }
    if |b| >= 2 {
      TotalAtLeastEach(b, k);
    }
  }

  lemma {:induction false} FlattenHolds(bs: seq<seq<Job>>, b: seq<Job>, i: nat)
    requires b in bs && i < |b|
    ensures b[i] in Flatten(bs)
  {
    var n := |bs| - 1;
    if bs[n] == b {
      assert Flatten(bs) == Flatten(bs[..n]) + b;
      assert Flatten(bs)[|Flatten(bs[..n])| + i] == b[i];
    } else {
      assert b in bs[..n];
      FlattenHolds(bs[..n], b, i);
    }
  }

  /** Only the first closed batch can be empty, and it is exactly when the first job alone
      exceeds the capacity. */
  lemma {:induction false} FoldEmptyBatches(jobs: seq<Job>, capacity: int)
    ensures var f := Fold(jobs, capacity);
            (forall i :: 0 <= i < |f.closed| && f.closed[i] == [] ==> i == 0) &&
            (f.closed != [] && f.closed[0] == [] <==> jobs != [] && jobs[0].duration > capacity)
  {
    if jobs != [] {
      var n := |jobs| - 1;
      var f := Fold(jobs[..n], capacity);
      FoldEmptyBatches(jobs[..n], capacity);
      FoldCurrent(jobs[..n], capacity);
      if n > 0 {
        assert jobs[..n][0] == jobs[0];
      } else {
        assert f == Fill([], [], 0);
      }
    }
  }

  /** An empty batch occurs only first, and only when the first sorted job alone exceeds
      the capacity; with jobs, the last batch is never empty. */
  lemma BatchesEmptyOnlyFirst(jobs: seq<Job>, capacity: int)
    ensures forall i :: 0 <= i < |Batches(jobs, capacity)| && Batches(jobs, capacity)[i] == [] ==> i == 0
    ensures Batches(jobs, capacity) != [] && Batches(jobs, capacity)[0] == [] <==>
            jobs != [] && jobs[0].duration > capacity
    ensures jobs == [] <==> Batches(jobs, capacity) == []
    ensures jobs != [] ==> Batches(jobs, capacity)[|Batches(jobs, capacity)| - 1] != []
  {
    FoldEmptyBatches(jobs, capacity);
    FoldCurrent(jobs, capacity);
  }

  /** The batches of `main` hold exactly the title-sorted jobs. */
  lemma PartitionFacts(jobs: seq<Job>, shiftLength: int, printerCount: nat)
    ensures Flatten(Partition(jobs, shiftLength, printerCount)) == ByTitle(jobs)
    ensures multiset(Flatten(Partition(jobs, shiftLength, printerCount))) == multiset(jobs)
    ensures forall b :: b in Partition(jobs, shiftLength, printerCount) && |b| >= 2 ==>
              Total(b) <= Capacity(shiftLength, printerCount)
  {
    BatchesConserve(ByTitle(jobs), Capacity(shiftLength, printerCount));
    BatchesWithinCapacity(ByTitle(jobs), Capacity(shiftLength, printerCount));
    ByTitleFacts(jobs);
  }
}
