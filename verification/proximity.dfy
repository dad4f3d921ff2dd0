/** The candidate pairs of the operator-proximity penalty in `build_model`: the jobs are
    stably sorted by duration, and each is paired with the following jobs of the same
    technology, looking at most 19 positions ahead and stopping at the first duration that
    differs from its own by more than 60 minutes. */
module Proximity {
  import opened Wrappers
  import opened Sorting
  import opened Records

  /** `range(idx_i + 1, min(idx_i + 20, n))`: at most 19 partners per job. */
  const Window: nat := 20
  /** The scan of a row stops at the first duration gap above this. */
  const MaxGap: int := 60

  /** An element of `jobs_sorted`: a job index and its duration. */
  datatype Keyed = Keyed(job: nat, duration: int)

  /** The key order of `sorted(..., key=lambda x: x[1])`. */
  predicate DurationLess(a: Keyed, b: Keyed) {
    a.duration < b.duration
  }

  lemma DurationLessOrder()
    ensures StrictWeakOrder(DurationLess)
  {
  }

  /** `[(jid, jobs[jid]['duration']) for jid in range(len(jobs))]`. */
  function Keys(jobs: seq<Job>): (r: seq<Keyed>)
    ensures |r| == |jobs|
    ensures forall k :: 0 <= k < |jobs| ==> r[k] == Keyed(k, jobs[k].duration)
  {
    seq(|jobs|, k requires 0 <= k < |jobs| => Keyed(k, jobs[k].duration))
  }

  /** Every entry of `ord` names a job of `jobs` and carries its duration. */
  predicate KeysOf(ord: seq<Keyed>, jobs: seq<Job>) {
    forall a :: 0 <= a < |ord| ==> ord[a].job < |jobs| && ord[a].duration == jobs[ord[a].job].duration
  }

  lemma PermutedKeys(ord: seq<Keyed>, jobs: seq<Job>)
    requires multiset(ord) == multiset(Keys(jobs))
    ensures KeysOf(ord, jobs)
  {
    forall a | 0 <= a < |ord|
      ensures ord[a].job < |jobs| && ord[a].duration == jobs[ord[a].job].duration
    {
      assert ord[a] in multiset(Keys(jobs));
      var k :| 0 <= k < |jobs| && Keys(jobs)[k] == ord[a];
    }
  }

  /** `jobs_sorted`. */
  function ByDuration(jobs: seq<Job>): (ord: seq<Keyed>)
    ensures KeysOf(ord, jobs)
  {
    var ord := Sort(Keys(jobs), DurationLess);
    PermutedKeys(ord, jobs);
    ord
  }

  /** `jobs_sorted` is a permutation of the keyed jobs, ordered by duration, and jobs of
      equal duration keep their index order. */
  lemma ByDurationFacts(jobs: seq<Job>)
    ensures multiset(ByDuration(jobs)) == multiset(Keys(jobs))
    ensures SortedBy(ByDuration(jobs), DurationLess)
    ensures forall x :: Equivalents(ByDuration(jobs), x, DurationLess) == Equivalents(Keys(jobs), x, DurationLess)
  {
    var ord := ByDuration(jobs);
    DurationLessOrder();
    SortSorted(Keys(jobs), DurationLess);
    forall x ensures Equivalents(ord, x, DurationLess) == Equivalents(Keys(jobs), x, DurationLess) {
      SortStable(Keys(jobs), x, DurationLess);
    }
  }

  /** The technologies of the jobs at positions `a` and `b` of `ord` agree. */
  predicate SameTechnology(ord: seq<Keyed>, jobs: seq<Job>, a: nat, b: nat)
    requires KeysOf(ord, jobs) && a < |ord| && b < |ord|
  {
    jobs[ord[a].job].requiredTechnology == jobs[ord[b].job].requiredTechnology
  }

  /** The pairs of row `a` from position `b` on: `for idx_j in range(b, min(a + 20, n))`,
      with its `break` and `continue`. */
  function RowPairs(ord: seq<Keyed>, jobs: seq<Job>, a: nat, b: nat): seq<(nat, nat)>
    requires KeysOf(ord, jobs) && a < |ord|
    decreases |ord| - b
  {
    if b >= |ord| || b >= a + Window then []
    else if Abs(ord[a].duration - ord[b].duration) > MaxGap then []
    else if !SameTechnology(ord, jobs, a, b) then RowPairs(ord, jobs, a, b + 1)
    else [(ord[a].job, ord[b].job)] + RowPairs(ord, jobs, a, b + 1)
  }

  /** The pairs of the first `n` rows, in the order they are appended. */
  function Pairs(ord: seq<Keyed>, jobs: seq<Job>, n: nat): seq<(nat, nat)>
    requires KeysOf(ord, jobs) && n <= |ord|
  {
    if n == 0 then [] else Pairs(ord, jobs, n - 1) + RowPairs(ord, jobs, n - 1, n)
  }

  /** The candidate pairs of a batch, as job indices. */
  function CandidatePairs(jobs: seq<Job>): seq<(nat, nat)> {
    Pairs(ByDuration(jobs), jobs, |jobs|)
  }

  /** The inner loop of the scan: the partners of position `a`, appended in order. */
  method ScanRow(ord: seq<Keyed>, jobs: seq<Job>, a: nat) returns (row: seq<(nat, nat)>)
    requires KeysOf(ord, jobs) && a < |ord|
    ensures row == RowPairs(ord, jobs, a, a + 1)
  {
    row := [];
    var b := a + 1;
    var hi := if a + Window < |ord| then a + Window else |ord|;
    while b < hi
      invariant a + 1 <= b
      invariant row + RowPairs(ord, jobs, a, b) == RowPairs(ord, jobs, a, a + 1)
      decreases hi - b
    {
      if Abs(ord[a].duration - ord[b].duration) > MaxGap {
        assert row == RowPairs(ord, jobs, a, a + 1);
        break;
      }
      if jobs[ord[a].job].requiredTechnology != jobs[ord[b].job].requiredTechnology {
        b := b + 1;
        continue;
      }
      row := row + [(ord[a].job, ord[b].job)];
      b := b + 1;
    }
  }

  /** The nested scan of `build_model` over `jobs_sorted`. */
  method ScanPairs(jobs: seq<Job>) returns (pairs: seq<(nat, nat)>)
    ensures pairs == CandidatePairs(jobs)
  {
    var ord := ByDuration(jobs);
    pairs := [];
    for a := 0 to |ord|
      invariant pairs == Pairs(ord, jobs, a)
    {
      var row := ScanRow(ord, jobs, a);
      pairs := pairs + row;
    }
  }

  /** Position `b` is a partner of position `a`: within the look-ahead, of the same
      technology, and no duration from `a + 1` to `b` more than 60 minutes from `a`'s. */
  predicate InWindow(ord: seq<Keyed>, jobs: seq<Job>, a: nat, b: nat)
    requires KeysOf(ord, jobs)
  {
    && a < b < |ord| && b < a + Window
    && SameTechnology(ord, jobs, a, b)
    && forall c :: a < c <= b ==> Abs(ord[a].duration - ord[c].duration) <= MaxGap
  }

  lemma {:induction false} RowPairsSound(ord: seq<Keyed>, jobs: seq<Job>, a: nat, b0: nat, p: (nat, nat))
    requires KeysOf(ord, jobs) && a < b0 && a < |ord|
    requires forall c :: a < c < b0 && c < |ord| ==> Abs(ord[a].duration - ord[c].duration) <= MaxGap
    requires p in RowPairs(ord, jobs, a, b0)
    ensures exists b :: b0 <= b && InWindow(ord, jobs, a, b) && p == (ord[a].job, ord[b].job)
    decreases |ord| - b0
  {
    var b := b0;
    assert b < |ord| && b < a + Window && Abs(ord[a].duration - ord[b].duration) <= MaxGap;
    if SameTechnology(ord, jobs, a, b) && p == (ord[a].job, ord[b].job) {
      assert InWindow(ord, jobs, a, b);
    } else {
      assert p in RowPairs(ord, jobs, a, b0 + 1);
      RowPairsSound(ord, jobs, a, b0 + 1, p);
    }
  }

  lemma {:induction false} RowPairsComplete(ord: seq<Keyed>, jobs: seq<Job>, a: nat, b0: nat, b: nat)
    requires KeysOf(ord, jobs) && a < b0 <= b && InWindow(ord, jobs, a, b)
    ensures (ord[a].job, ord[b].job) in RowPairs(ord, jobs, a, b0)
    decreases b - b0
  {
    if b0 < b {
      RowPairsComplete(ord, jobs, a, b0 + 1, b);
    }
  }

  lemma {:induction false} PairsSound(ord: seq<Keyed>, jobs: seq<Job>, n: nat, p: (nat, nat))
    requires KeysOf(ord, jobs) && n <= |ord| && p in Pairs(ord, jobs, n)
    ensures exists a: nat, b: nat :: a < n && InWindow(ord, jobs, a, b) && p == (ord[a].job, ord[b].job)
  {
    if p in Pairs(ord, jobs, n - 1) {
      PairsSound(ord, jobs, n - 1, p);
    } else {
      RowPairsSound(ord, jobs, n - 1, n, p);
    }
  }

  lemma {:induction false} PairsComplete(ord: seq<Keyed>, jobs: seq<Job>, n: nat, a: nat, b: nat)
    requires KeysOf(ord, jobs) && a < n <= |ord| && InWindow(ord, jobs, a, b)
    ensures (ord[a].job, ord[b].job) in Pairs(ord, jobs, n)
  {
    if a < n - 1 {
      PairsComplete(ord, jobs, n - 1, a, b);
    } else {
      RowPairsComplete(ord, jobs, a, a + 1, b);
    }
  }

  /** Because `jobs_sorted` is ordered, the "no gap above 60 up to `b`" condition of the
      scan is just the gap between the two ends of the pair. */
  predicate Partners(ord: seq<Keyed>, jobs: seq<Job>, a: nat, b: nat)
    requires KeysOf(ord, jobs)
  {
    && a < b < |ord| && b < a + Window
    && SameTechnology(ord, jobs, a, b)
    && ord[b].duration - ord[a].duration <= MaxGap
  }

  lemma InWindowSorted(ord: seq<Keyed>, jobs: seq<Job>, a: nat, b: nat)
    requires KeysOf(ord, jobs) && SortedBy(ord, DurationLess)
    ensures InWindow(ord, jobs, a, b) <==> Partners(ord, jobs, a, b)
  {
    if Partners(ord, jobs, a, b) {
      forall c | a < c <= b ensures Abs(ord[a].duration - ord[c].duration) <= MaxGap {
        assert !DurationLess(ord[c], ord[a]);
        if c < b {
          assert !DurationLess(ord[b], ord[c]);
        }
      }
    }
  }

  /** A pair of jobs is a candidate exactly when, in `jobs_sorted`, the second comes less
      than 20 positions after the first, both have the same technology, and their
      durations differ by at most 60 minutes. */
  lemma CandidatePairsExact(jobs: seq<Job>, p: (nat, nat))
    ensures var ord := ByDuration(jobs);
            p in CandidatePairs(jobs) <==>
            exists a: nat, b: nat :: Partners(ord, jobs, a, b) && p == (ord[a].job, ord[b].job)
  {
    ByDurationFacts(jobs);
    var ord := ByDuration(jobs);
    if p in CandidatePairs(jobs) {
      PairsSound(ord, jobs, |jobs|, p);
      var a: nat, b: nat :| a < |jobs| && InWindow(ord, jobs, a, b) && p == (ord[a].job, ord[b].job);
      InWindowSorted(ord, jobs, a, b);
    }
    if exists a: nat, b: nat :: Partners(ord, jobs, a, b) && p == (ord[a].job, ord[b].job) {
      var a: nat, b: nat :| Partners(ord, jobs, a, b) && p == (ord[a].job, ord[b].job);
      InWindowSorted(ord, jobs, a, b);
      PairsComplete(ord, jobs, |jobs|, a, b);
    }
  }

  lemma {:induction false} RowPairsCount(ord: seq<Keyed>, jobs: seq<Job>, a: nat, b: nat)
    requires KeysOf(ord, jobs) && a < |ord| && a < b
    ensures |RowPairs(ord, jobs, a, b)| <= if b < a + Window then a + Window - b else 0
    decreases |ord| - b
  {
    if b < |ord| && b < a + Window {
      RowPairsCount(ord, jobs, a, b + 1);
    }
  }

  lemma {:induction false} PairsCount(ord: seq<Keyed>, jobs: seq<Job>, n: nat)
    requires KeysOf(ord, jobs) && n <= |ord|
    ensures |Pairs(ord, jobs, n)| <= (Window - 1) * n
  {
    if n > 0 {
      PairsCount(ord, jobs, n - 1);
      RowPairsCount(ord, jobs, n - 1, n);
    }
  }

  /** Each job has at most 19 partners after it, so there are at most `19 * n` pairs. */
  lemma CandidatePairsBound(jobs: seq<Job>)
    ensures |CandidatePairs(jobs)| <= (Window - 1) * |jobs|
  {
    ByDurationFacts(jobs);
    PairsCount(ByDuration(jobs), jobs, |jobs|);
  }

  /** Every candidate pair names two jobs of the batch with the same technology. */
  lemma CandidatePairsWellFormed(jobs: seq<Job>, p: (nat, nat))
    requires p in CandidatePairs(jobs)
    ensures p.0 < |jobs| && p.1 < |jobs|
    ensures jobs[p.0].requiredTechnology == jobs[p.1].requiredTechnology
  {
    var ord := ByDuration(jobs);
    PairsSound(ord, jobs, |jobs|, p);
  }
}
