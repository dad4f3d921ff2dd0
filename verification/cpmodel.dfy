/** `build_model` and `define_job_variables`: the constants of a batch's constraint model,
    and the constraints restated as a predicate over a concrete assignment. Whatever the
    solver returns for the batch satisfies `ValidAssignment`; the search itself is not part
    of this model. */
module CpModel {
  import opened Wrappers
  import Text
  import opened Records
  import opened Compat
  import opened Horizon
  import opened Proximity
  import opened SeqUtil

  /** `user_parameters`: a key the caller did not pass is `None`. */
  datatype Parameters = Parameters(
    shiftStart: Option<int>,
    shiftHours: Option<int>,
    diff: Option<int>,
    penaltyVal: Option<int>,
    jobBufferMinutes: Option<int>)

  /** `objective_type == "operator_aware_composite"`, or any other string. */
  datatype ObjectiveKind = OperatorAwareComposite | MakespanAndPrinters

  function KindOf(objectiveType: string): ObjectiveKind {
    if objectiveType == "operator_aware_composite" then OperatorAwareComposite else MakespanAndPrinters
  }

  /** Everything the constraints of one batch depend on. `compat[k]` is the domain of the
      printer variable of job `k`; `rackId` is `printer_rack_id`; `pairs` are the candidate
      pairs of the proximity penalty. */
  datatype Model = Model(
    roster: seq<Printer>,
    jobs: seq<Job>,
    objective: ObjectiveKind,
    shiftStart: int,
    minutesPerDay: int,
    horizon: int,
    buffer: int,
    diff: int,
    penaltyVal: int,
    compat: seq<seq<int>>,
    rackId: map<int, nat>,
    pairs: seq<(nat, nat)>)

  /** `ValueError(f"No valid printers for job {jid}: ...")`. */
  datatype BuildError = NoValidPrinters(job: nat)

  function ShiftHours(params: Parameters): int {
    GetOr(params.shiftHours, 12)
  }

  /** The compatible printers of every job of the batch. */
  function CompatTable(roster: seq<Printer>, jobs: seq<Job>): (t: seq<seq<int>>)
    ensures |t| == |jobs|
    ensures forall k :: 0 <= k < |jobs| ==> t[k] == JobCompatible(roster, jobs[k])
  {
    seq(|jobs|, k requires 0 <= k < |jobs| => JobCompatible(roster, jobs[k]))
  }

  /** The model of a batch whose jobs all have a compatible printer. */
  function ModelOf(roster: seq<Printer>, jobs: seq<Job>, objectiveType: string, params: Parameters): Model
    requires DistinctIds(roster) && ShiftHours(params) > 0
  {
    var minutesPerDay := ShiftHours(params) * 60;
    Model(roster, jobs, KindOf(objectiveType),
          GetOr(params.shiftStart, 480), minutesPerDay, HorizonSpec(jobs, roster, minutesPerDay),
          GetOr(params.jobBufferMinutes, 0), GetOr(params.diff, 15), GetOr(params.penaltyVal, 10),
          CompatTable(roster, jobs), PrinterRackIds(roster), CandidatePairs(jobs))
  }

  /** The first position, from `from` on, whose printer domain is empty. */
  function FirstEmpty(table: seq<seq<int>>, from: nat): Option<nat>
    decreases |table| - from
  {
    if from >= |table| then None
    else if table[from] == [] then Some(from)
    else FirstEmpty(table, from + 1)
  }

  /** `build_model`: the model, or the error raised for the first job with no printer. */
  function BuildSpec(roster: seq<Printer>, jobs: seq<Job>, objectiveType: string, params: Parameters): (r: Result<Model, BuildError>)
    requires DistinctIds(roster) && ShiftHours(params) > 0
    ensures r.Ok? ==> r.value.roster == roster && r.value.jobs == jobs && |r.value.compat| == |jobs|
  {
    match FirstEmpty(CompatTable(roster, jobs), 0)
    case Some(k) => Err(NoValidPrinters(k))
    case None => Ok(ModelOf(roster, jobs, objectiveType, params))
  }

  /** The per-job loop of `define_job_variables`: the printer domain of every job, or the
      `ValueError` for the first job that has none. */
  method PrinterDomains(roster: seq<Printer>, jobs: seq<Job>) returns (r: Result<seq<seq<int>>, BuildError>)
    ensures match FirstEmpty(CompatTable(roster, jobs), 0)
            case Some(k) => r == Err(NoValidPrinters(k))
            case None => r == Ok(CompatTable(roster, jobs))
  {
    ghost var table := CompatTable(roster, jobs);
    var compat: seq<seq<int>> := [];
    for k := 0 to |jobs|
      invariant compat == table[..k]
      invariant FirstEmpty(table, 0) == FirstEmpty(table, k)
    {
      var valid := JobCompatible(roster, jobs[k]);
      assert valid == table[k];
      if valid == [] {
        return Err(NoValidPrinters(k));
      }
      compat := compat + [valid];
      PrefixSnoc(table, k);
    }
    assert table[..|jobs|] == table;
    return Ok(compat);
  }

  /** `build_model`. */
  method BuildModel(roster: seq<Printer>, jobs: seq<Job>, objectiveType: string, params: Parameters)
    returns (r: Result<Model, BuildError>)
    requires DistinctIds(roster) && ShiftHours(params) > 0
    ensures r == BuildSpec(roster, jobs, objectiveType, params)
  {
    var rackId := PrinterRackIds(roster);
    var shiftStart := GetOr(params.shiftStart, 480);
    var shiftHours := ShiftHours(params);
    var horizon := EstimateHorizon(jobs, roster, shiftHours);
    var buffer := GetOr(params.jobBufferMinutes, 0);
    var domains := PrinterDomains(roster, jobs);
    if domains.Err? {
      return Err(domains.error);
    }
    var pairs := ScanPairs(jobs);
    var diff := GetOr(params.diff, 15);
    var penaltyVal := GetOr(params.penaltyVal, 10);
    r := Ok(Model(roster, jobs, KindOf(objectiveType), shiftStart, shiftHours * 60, horizon,
                  buffer, diff, penaltyVal, domains.value, rackId, pairs));
  }

  lemma {:induction false} FirstEmptyExact(table: seq<seq<int>>, from: nat)
    ensures match FirstEmpty(table, from)
            case None => forall i :: from <= i < |table| ==> table[i] != []
            case Some(k) => from <= k < |table| && table[k] == [] &&
                            forall i :: from <= i < k ==> table[i] != []
    decreases |table| - from
  {
    if from < |table| && table[from] != [] {
      FirstEmptyExact(table, from + 1);
    }
  }

  /** Building fails exactly when some job has no compatible printer, and the error names
      the first such job. */
  lemma BuildFailsExactly(roster: seq<Printer>, jobs: seq<Job>, objectiveType: string, params: Parameters)
    requires DistinctIds(roster) && ShiftHours(params) > 0
    ensures BuildSpec(roster, jobs, objectiveType, params).Err? <==>
            exists k :: 0 <= k < |jobs| && JobCompatible(roster, jobs[k]) == []
    ensures forall k: nat :: BuildSpec(roster, jobs, objectiveType, params) == Err(NoValidPrinters(k)) ==>
              k < |jobs| && JobCompatible(roster, jobs[k]) == [] &&
              forall i :: 0 <= i < k ==> JobCompatible(roster, jobs[i]) != []
  {
    FirstEmptyExact(CompatTable(roster, jobs), 0);
  }

  /** The constraints on job `k`'s slot: the start and end domains, `end == start +
      duration + buffer`, the printer domain, the rack of the chosen printer, and the
      domain of `true_end`. */
  predicate SlotValid(m: Model, k: nat, s: Slot)
    requires k < |m.jobs| && k < |m.compat|
  {
    var d := m.jobs[k].duration + m.buffer;
    && m.shiftStart <= s.start <= m.horizon - d
    && 0 <= s.end <= m.horizon
    && s.end == s.start + d
    && s.printer in m.compat[k]
    && s.printer in m.rackId && s.rack == m.rackId[s.printer]
    && 0 <= s.start + m.jobs[k].duration <= m.horizon
  }

  /** `AddNoOverlap` over the present intervals of each printer. */
  predicate NoOverlap(slots: seq<Slot>) {
    forall i, j :: 0 <= i < j < |slots| && slots[i].printer == slots[j].printer ==>
      slots[i].end <= slots[j].start || slots[j].end <= slots[i].start
  }

  function TotalStart(slots: seq<Slot>): int {
    if slots == [] then 0 else TotalStart(slots[..|slots| - 1]) + slots[|slots| - 1].start
  }

  /** An assignment of the whole batch satisfying every constraint of `build_model` (the
      domain of `total_start_time` included). */
  predicate ValidAssignment(m: Model, slots: seq<Slot>) {
    && |slots| == |m.jobs| && |m.compat| == |m.jobs|
    && (forall k :: 0 <= k < |slots| ==> SlotValid(m, k, slots[k]))
    && NoOverlap(slots)
    && 0 <= TotalStart(slots) <= m.horizon * |m.jobs|
  }

  /** In a valid assignment of a built model every job runs on a roster printer whose
      stripped material, technology and model are the job's. */
  lemma ValidOnSupportingPrinter(m: Model, slots: seq<Slot>, k: nat)
    requires DistinctIds(m.roster) && m.compat == CompatTable(m.roster, m.jobs)
    requires ValidAssignment(m, slots) && k < |slots|
    ensures exists p :: p in m.roster && p.id == slots[k].printer &&
              Supports(p, m.jobs[k].requiredMaterial, m.jobs[k].requiredTechnology, m.jobs[k].machineModel)
  {
    assert SlotValid(m, k, slots[k]);
    CompatiblePrintersExact(m.roster, m.jobs[k].requiredMaterial, m.jobs[k].requiredTechnology,
                            m.jobs[k].machineModel);
  }

  /** Two jobs of a valid assignment of a built model get the same rack id exactly when
      their printers stand in the same rack. */
  lemma ValidRacksMatch(m: Model, slots: seq<Slot>, i: nat, j: nat, a: nat, b: nat)
    requires DistinctIds(m.roster) && m.rackId == PrinterRackIds(m.roster)
    requires ValidAssignment(m, slots) && i < |slots| && j < |slots|
    requires a < |m.roster| && m.roster[a].id == slots[i].printer
    requires b < |m.roster| && m.roster[b].id == slots[j].printer
    ensures slots[i].rack == slots[j].rack <==> m.roster[a].rack == m.roster[b].rack
  {
    assert SlotValid(m, i, slots[i]) && SlotValid(m, j, slots[j]);
    RackIdsMatchRacks(m.roster, a, b);
  }

  /** No two jobs on the same printer share a minute. */
  lemma ValidNoSharedMinute(m: Model, slots: seq<Slot>, i: nat, j: nat, t: int)
    requires ValidAssignment(m, slots) && i < |slots| && j < |slots| && i != j
    requires slots[i].printer == slots[j].printer
    ensures !(slots[i].start <= t < slots[i].end && slots[j].start <= t < slots[j].end)
  {
    if i < j {
      assert slots[i].end <= slots[j].start || slots[j].end <= slots[i].start;
    } else {
      assert slots[j].end <= slots[i].start || slots[i].end <= slots[j].start;
    }
  }

  /** Every job starts in the shift and finishes, buffer and all, within the horizon. */
  lemma ValidWithinHorizon(m: Model, slots: seq<Slot>, k: nat)
    requires ValidAssignment(m, slots) && k < |slots|
    ensures m.shiftStart <= slots[k].start
    ensures slots[k].end == slots[k].start + m.jobs[k].duration + m.buffer <= m.horizon
  {
    assert SlotValid(m, k, slots[k]);
  }

  /** The horizon estimate counts printers by their raw material and technology, while
      compatibility strips whitespace and checks the model. A job for printers whose
      material is written `"PLA "` is routable, yet its work adds nothing to the horizon:
      a 3000-minute job gets the bare two-day horizon of 1440 minutes and no assignment
      can hold it. */
  lemma LooseCountExample()
    ensures var roster := [Printer(1, "P1", "PLA ", "FDM", "A", "MK4")];
            var jobs := [Job(0, "X_R1", "PLA", "FDM", "PLA", "FDM", "MK4", 3000, Some(1))];
            var params := Parameters(Some(480), Some(12), Some(30), Some(5), Some(0));
            var r := BuildSpec(roster, jobs, "operator_aware_composite", params);
            r.Ok? && r.value.horizon == 1440 && forall slots :: !ValidAssignment(r.value, slots)
  {
    var roster := [Printer(1, "P1", "PLA ", "FDM", "A", "MK4")];
    var job := Job(0, "X_R1", "PLA", "FDM", "PLA", "FDM", "MK4", 3000, Some(1));
    var params := Parameters(Some(480), Some(12), Some(30), Some(5), Some(0));
    LooseSampleRoutable(roster, job);
    LooseSampleHorizon(roster, job);
    var m := ModelOf(roster, [job], "operator_aware_composite", params);
    forall slots
      ensures !ValidAssignment(m, slots)
    {
      NoRoomForFirstJob(m, slots);
    }
  }

  /** The sample job has a compatible printer. */
  lemma LooseSampleRoutable(roster: seq<Printer>, job: Job)
    requires roster == [Printer(1, "P1", "PLA ", "FDM", "A", "MK4")]
    requires job == Job(0, "X_R1", "PLA", "FDM", "PLA", "FDM", "MK4", 3000, Some(1))
    ensures FirstEmpty(CompatTable(roster, [job]), 0) == None
  {
    StripSamples();
    assert Supports(roster[0], "PLA", "FDM", "MK4");
    CompatiblePrintersExact(roster, "PLA", "FDM", "MK4");
    assert roster[0].id in JobCompatible(roster, job);
  }

  /** No printer of the sample roster counts for the sample job's type. */
  lemma LooseSampleHorizon(roster: seq<Printer>, job: Job)
    requires roster == [Printer(1, "P1", "PLA ", "FDM", "A", "MK4")]
    requires job == Job(0, "X_R1", "PLA", "FDM", "PLA", "FDM", "MK4", 3000, Some(1))
    ensures HorizonSpec([job], roster, 720) == 1440
  {
    var jobs := [job];
    assert Types(jobs) == [TypeOf(job)] by {
      assert jobs[..0] == [];
    }
    assert PrinterCount(roster, TypeOf(job)) == 0 by {
      assert roster[..0] == [];
    }
    assert MaxDays(Types(jobs), jobs, roster, 720) == 0 by {
      assert Types(jobs)[..0] == [];
    }
  }

  /** A first job that cannot finish within the horizon leaves no valid assignment. */
  lemma NoRoomForFirstJob(m: Model, slots: seq<Slot>)
    requires |m.jobs| > 0 && m.shiftStart + m.jobs[0].duration + m.buffer > m.horizon
    ensures !ValidAssignment(m, slots)
  {
    if ValidAssignment(m, slots) {
      ValidWithinHorizon(m, slots, 0);
    }
  }

  lemma StripSamples()
    ensures Text.Strip("PLA ") == "PLA" && Text.Strip("PLA") == "PLA"
    ensures Text.Strip("FDM") == "FDM" && Text.Strip("MK4") == "MK4"
  {
    Text.StripOfTrimmed("PLA");
    Text.StripOfTrimmed("FDM");
    Text.StripOfTrimmed("MK4");
    Text.TrimLeftNoLeadingSpace("PLA ");
    assert "PLA "[..3] == "PLA";
  }
}
