/** The part aggregation and run expansion of `build_sliced_build_ID`: the merged BOM/MPP
    rows are folded per part name (total quantity, earliest due date, project phases, and
    the remaining fields of the part's first row), and every part then becomes
    `ceil(total / alpha)` sheet rows with the ids `MPP_ALL__<part>_R1`, `..._R2`, ... */
module SlicedBuild {
  import opened Wrappers
  import opened SeqUtil
  import opened Text

  /** `pd.to_timedelta` of the `Duration` cell: missing (NaT), raising, or a duration of
      whole seconds. */
  datatype DurationCell = Missing | Unparsable | Seconds(s: int)

  /** One row of the BOM/MPP merge; a due date is a day number, `None` for NaT. */
  datatype MergedRow = MergedRow(
    partName: string,
    printQuantity: int,
    requiredMaterialId: string,
    alphaQuantityOnPlate: int,
    duration: DurationCell,
    printingMethod: string,
    machineModel: string,
    dueDate: Option<int>,
    projectPhase: string)

  /** An entry of `aggregated_parts_data`. */
  datatype Part = Part(
    total: int,
    alpha: int,
    duration: DurationCell,
    printingMethod: string,
    material: string,
    machineModel: string,
    due: Option<int>,
    phases: set<string>)

  /** One row of the sliced-build sheet. */
  datatype SheetRow = SheetRow(
    slicedBuildId: string,
    quantityOfRuns: int,
    alphaQuantityOnPlate: int,
    totalRequiredQuantity: int,
    estimatedPrintTimeMinutes: int,
    requiredMaterialId: string,
    technology: string,
    status: string,
    dueDate: Option<int>,
    projectPhases: set<string>,
    machineModel: string)

  /** `math.ceil(total / alpha)` with `alpha == 0`. */
  datatype SheetError = ZeroAlpha(part: string)

  // ---- aggregation ----------------------------------------------------------------

  /** Python's `min(a, b)` on timestamps: `b` replaces `a` only when `b < a`, and every
      comparison with NaT is false. */
  function MinDue(a: Option<int>, b: Option<int>): Option<int> {
    if a.Some? && b.Some? && b.value < a.value then b else a
  }

  /** The entry a part starts with, from its first row. */
  function Fresh(r: MergedRow): Part {
    Part(0, r.alphaQuantityOnPlate, r.duration, r.printingMethod, Strip(r.requiredMaterialId),
         r.machineModel, r.dueDate, {})
  }

  /** One iteration of the aggregation loop. */
  function Absorb(parts: map<string, Part>, r: MergedRow): map<string, Part> {
    var p := if r.partName in parts then parts[r.partName] else Fresh(r);
    parts[r.partName := p.(total := p.total + r.printQuantity, due := MinDue(p.due, r.dueDate),
                           phases := p.phases + {r.projectPhase})]
  }

  /** `aggregated_parts_data` after the given rows. */
  function Aggregate(rows: seq<MergedRow>): map<string, Part> {
    if rows == [] then map[] else Absorb(Aggregate(rows[..|rows| - 1]), rows[|rows| - 1])
  }

  /** The part names in order of first appearance: the dict's iteration order. */
  function PartOrder(rows: seq<MergedRow>): seq<string> {
    if rows == [] then []
    else
      var d := PartOrder(rows[..|rows| - 1]);
      var name := rows[|rows| - 1].partName;
      if name in d then d else d + [name]
  }

  /** Aggregating one more row of a prefix absorbs it and lists its part if it is new. */
  lemma AggregatePrefix(rows: seq<MergedRow>, i: nat)
    requires i < |rows|
    ensures Aggregate(rows[..i + 1]) == Absorb(Aggregate(rows[..i]), rows[i])
    ensures PartOrder(rows[..i + 1]) ==
            if rows[i].partName in PartOrder(rows[..i]) then PartOrder(rows[..i])
            else PartOrder(rows[..i]) + [rows[i].partName]
  {
    PrefixOfPrefix(rows, i, i + 1);
  }

  /** Absorbing a row into the entry its part already has, or a fresh one. */
  lemma AbsorbWith(parts: map<string, Part>, r: MergedRow, p: Part)
    requires p == if r.partName in parts then parts[r.partName] else Fresh(r)
    ensures Absorb(parts, r) == parts[r.partName := p.(total := p.total + r.printQuantity,
                                                      due := MinDue(p.due, r.dueDate),
                                                      phases := p.phases + {r.projectPhase})]
  {
  }

  /** The aggregation loop. */
  method AggregateParts(rows: seq<MergedRow>) returns (parts: map<string, Part>, order: seq<string>)
    ensures parts == Aggregate(rows) && order == PartOrder(rows)
    ensures forall name :: name in parts <==> name in order
  {
    parts := map[];
    order := [];
    for i := 0 to |rows|
      invariant parts == Aggregate(rows[..i]) && order == PartOrder(rows[..i])
    {
      var r := rows[i];
      AggregatePrefix(rows, i);
      PartOrderExact(rows[..i]);
      var p: Part;
      if r.partName !in parts {
        p := Fresh(r);
        order := order + [r.partName];
      } else {
        p := parts[r.partName];
      }
      AbsorbWith(parts, r, p);
      parts := parts[r.partName := p.(total := p.total + r.printQuantity, due := MinDue(p.due, r.dueDate),
                                      phases := p.phases + {r.projectPhase})];
    }
    assert rows[..|rows|] == rows;
    PartOrderExact(rows);
  }

  // ---- expansion ------------------------------------------------------------------

  /** Python's `//`: the floor of the quotient. */
  function FloorDiv(a: int, b: int): int
    requires b != 0
  {
    if b > 0 then a / b else (-a) / (-b)
  }

  /** `math.ceil(a / b)`. */
  function CeilDiv(a: int, b: int): int
    requires b != 0
  {
    -FloorDiv(-a, b)
  }

  /** `int(timedelta.total_seconds() / 60)`: the minutes, truncated toward zero, or 30 when
      the duration is missing or cannot be parsed. */
  function Minutes(d: DurationCell): int {
    match d
    case Seconds(s) => if s >= 0 then s / 60 else -((-s) / 60)
    case _ => 30
  }

  /** An empty material is inferred as PETG for the LFAM and FDM methods. */
  function FinalMaterial(p: Part): string {
    if Strip(p.material) == "" && (p.printingMethod == "LFAM" || p.printingMethod == "FDM") then "PETG" else p.material
  }

  /** `f"MPP_ALL__{part_name}_R{run_idx}"`. */
  function RunId(name: string, runIdx: nat): string {
    "MPP_ALL__" + name + "_R" + NatToString(runIdx)
  }

  function RunRow(name: string, p: Part, runIdx: nat): SheetRow {
    SheetRow(RunId(name, runIdx), 1, p.alpha, p.total, Minutes(p.duration), FinalMaterial(p),
             p.printingMethod, "Queued", p.due, p.phases, p.machineModel)
  }

  /** `range(1, n + 1)` is empty when `n <= 0`. */
  function RunCount(n: int): nat {
    if n < 0 then 0 else n
  }

  /** The rows of one part, or the error of `ceil(total / 0)`. */
  function PartRows(name: string, p: Part): (r: Result<seq<SheetRow>, SheetError>)
    ensures r.Err? <==> p.alpha == 0
    ensures r.Ok? ==> p.alpha != 0 && |r.value| == RunCount(CeilDiv(p.total, p.alpha))
  {
    if p.alpha == 0 then Err(ZeroAlpha(name))
    else
      Ok(RunRows(name, p, RunCount(CeilDiv(p.total, p.alpha))))
  }

  /** The rows of runs 1 to `n` of a part. */
  function RunRows(name: string, p: Part, n: nat): (rs: seq<SheetRow>)
    ensures |rs| == n
  {
    if n == 0 then [] else RunRows(name, p, n - 1) + [RunRow(name, p, n)]
  }

  /** The rows of the given parts in order, or the first error. */
  function ExpandParts(order: seq<string>, parts: map<string, Part>): Result<seq<SheetRow>, SheetError>
    requires forall k :: 0 <= k < |order| ==> order[k] in parts
  {
    if order == [] then Ok([])
    else
      var n := |order| - 1;
      match ExpandParts(order[..n], parts)
      case Err(e) => Err(e)
      case Ok(rs) =>
        match PartRows(order[n], parts[order[n]])
        case Err(e) => Err(e)
        case Ok(more) => Ok(rs + more)
  }

  lemma {:induction false} PartOrderExact(rows: seq<MergedRow>)
    ensures forall name :: name in PartOrder(rows) <==> name in Aggregate(rows)
    ensures forall name :: name in PartOrder(rows) <==> Has(rows, name)
  {
    if rows != [] {
      var n := |rows| - 1;
      PartOrderExact(rows[..n]);
      forall name ensures name in PartOrder(rows) <==> Has(rows, name) {
        HasSnoc(rows, name, "", 0);
      }
      forall name ensures name in Aggregate(rows) <==> Has(rows, name) {
        AggregateKeys(rows, name);
      }
    }
  }

  /** The sliced-build sheet of `build_sliced_build_ID`. */
  function SlicedSheet(rows: seq<MergedRow>): Result<seq<SheetRow>, SheetError> {
    PartOrderExact(rows);
    ExpandParts(PartOrder(rows), Aggregate(rows))
  }

  /** The rows of one part. */
  method EmitPart(name: string, p: Part) returns (r: Result<seq<SheetRow>, SheetError>)
    ensures r == PartRows(name, p)
  {
    if p.alpha == 0 {
      return Err(ZeroAlpha(name));
    }
    var runs := CeilDiv(p.total, p.alpha);
    var out: seq<SheetRow> := [];
    for runIdx := 1 to RunCount(runs) + 1
      invariant out == RunRows(name, p, runIdx - 1)
    {
      out := out + [RunRow(name, p, runIdx)];
    }
    r := Ok(out);
  }

  /** `build_sliced_build_ID` from the merged rows to the sheet rows. */
  method BuildSlicedSheet(rows: seq<MergedRow>) returns (r: Result<seq<SheetRow>, SheetError>)
    ensures r == SlicedSheet(rows)
  {
    var parts, order := AggregateParts(rows);
    var out: seq<SheetRow> := [];
    for k := 0 to |order|
      invariant ExpandParts(order[..k], parts) == Ok(out)
    {
      var more := EmitPart(order[k], parts[order[k]]);
      ExpandPrefix(order, parts, k);
      if more.Err? {
        ExpandErrSticky(order, parts, k + 1);
        return Err(more.error);
      }
      out := out + more.value;
    }
    assert order[..|order|] == order;
    r := Ok(out);
  }

  /** One more part of a prefix either fails or appends its rows. */
  lemma ExpandPrefix(order: seq<string>, parts: map<string, Part>, k: nat)
    requires forall k :: 0 <= k < |order| ==> order[k] in parts
    requires k < |order| && ExpandParts(order[..k], parts).Ok?
    ensures PartRows(order[k], parts[order[k]]).Err? ==>
              ExpandParts(order[..k + 1], parts) == Err(PartRows(order[k], parts[order[k]]).error)
    ensures PartRows(order[k], parts[order[k]]).Ok? ==>
              ExpandParts(order[..k + 1], parts) ==
              Ok(ExpandParts(order[..k], parts).value + PartRows(order[k], parts[order[k]]).value)
  {
    PrefixOfPrefix(order, k, k + 1);
  }

  // ---- properties -----------------------------------------------------------------

  lemma {:induction false} ExpandErrSticky(order: seq<string>, parts: map<string, Part>, i: nat)
    requires forall k :: 0 <= k < |order| ==> order[k] in parts
    requires i <= |order| && ExpandParts(order[..i], parts).Err?
    ensures ExpandParts(order, parts) == ExpandParts(order[..i], parts)
  {
    if i < |order| {
      var n := |order| - 1;
      PrefixOfPrefix(order, i, n);
      ExpandErrSticky(order[..n], parts, i);
    } else {
      assert order[..i] == order;
    }
  }

  /** The sum of `Print_Quantity` over the rows of a part. */
  function QuantityOf(rows: seq<MergedRow>, name: string): int {
    if rows == [] then 0
    else QuantityOf(rows[..|rows| - 1], name) +
         (if rows[|rows| - 1].partName == name then rows[|rows| - 1].printQuantity else 0)
  }

  /** Some row belongs to the part. */
  predicate Has(rows: seq<MergedRow>, name: string) {
    exists k :: 0 <= k < |rows| && rows[k].partName == name
  }

  /** Some row of the part names the phase. */
  predicate HasPhase(rows: seq<MergedRow>, name: string, ph: string) {
    exists k :: 0 <= k < |rows| && rows[k].partName == name && rows[k].projectPhase == ph
  }

  /** Some row of the part is due on day `d`. */
  predicate HasDue(rows: seq<MergedRow>, name: string, d: int) {
    exists k :: 0 <= k < |rows| && rows[k].partName == name && rows[k].dueDate == Some(d)
  }

  /** No row of the part is due before day `d`. */
  predicate DueAtMost(rows: seq<MergedRow>, name: string, d: int) {
    forall k :: 0 <= k < |rows| && rows[k].partName == name && rows[k].dueDate.Some? ==> d <= rows[k].dueDate.value
  }

  /** The fields a part keeps from the row it starts with. */
  predicate FromRow(p: Part, r: MergedRow) {
    p.alpha == r.alphaQuantityOnPlate && p.duration == r.duration && p.printingMethod == r.printingMethod &&
    p.material == Strip(r.requiredMaterialId) && p.machineModel == r.machineModel
  }

  /** The first row of a part. */
  function FirstRow(rows: seq<MergedRow>, name: string): (k: nat)
    requires Has(rows, name)
    ensures k < |rows| && rows[k].partName == name
    ensures forall j :: 0 <= j < k ==> rows[j].partName != name
  {
    if rows[0].partName == name then 0
    else
      var k :| 0 <= k < |rows| && rows[k].partName == name;
      assert rows[1..][k - 1].partName == name;
      1 + FirstRow(rows[1..], name)
  }

  lemma HasSnoc(rows: seq<MergedRow>, name: string, ph: string, d: int)
    requires rows != []
    ensures var pre, r := rows[..|rows| - 1], rows[|rows| - 1];
            (Has(rows, name) <==> Has(pre, name) || r.partName == name) &&
            (HasPhase(rows, name, ph) <==> HasPhase(pre, name, ph) || (r.partName == name && r.projectPhase == ph)) &&
            (HasDue(rows, name, d) <==> HasDue(pre, name, d) || (r.partName == name && r.dueDate == Some(d))) &&
            (DueAtMost(rows, name, d) <==> DueAtMost(pre, name, d) && (r.partName == name && r.dueDate.Some? ==> d <= r.dueDate.value))
  {
    var n := |rows| - 1;
    var pre := rows[..n];
    forall k | 0 <= k < n
      ensures pre[k] == rows[k]
    {
    }
  }

  /** What one iteration of the aggregation loop does to a part's entry. */
  lemma AbsorbAt(parts: map<string, Part>, r: MergedRow, name: string)
    ensures name in Absorb(parts, r) <==> name in parts || name == r.partName
    ensures name != r.partName && name in parts ==> Absorb(parts, r)[name] == parts[name]
    ensures name == r.partName ==>
              var p := if name in parts then parts[name] else Fresh(r);
              Absorb(parts, r)[name] == p.(total := p.total + r.printQuantity, due := MinDue(p.due, r.dueDate),
                                           phases := p.phases + {r.projectPhase})
  {
  }

  /** The parts are exactly the part names of the rows. */
  lemma {:induction false} AggregateKeys(rows: seq<MergedRow>, name: string)
    ensures name in Aggregate(rows) <==> Has(rows, name)
  {
    if rows != [] {
      var n := |rows| - 1;
      AggregateKeys(rows[..n], name);
      HasSnoc(rows, name, "", 0);
      AbsorbAt(Aggregate(rows[..n]), rows[n], name);
    }
  }

  lemma {:induction false} QuantityAbsent(rows: seq<MergedRow>, name: string)
    requires !Has(rows, name)
    ensures QuantityOf(rows, name) == 0
  {
    if rows != [] {
      HasSnoc(rows, name, "", 0);
      QuantityAbsent(rows[..|rows| - 1], name);
    }
  }

  /** A part's total is the sum of the quantities of its rows. */
  lemma {:induction false} AggregateTotal(rows: seq<MergedRow>, name: string)
    requires Has(rows, name)
    ensures name in Aggregate(rows) && Aggregate(rows)[name].total == QuantityOf(rows, name)
  {
    var n := |rows| - 1;
    var pre := rows[..n];
    HasSnoc(rows, name, "", 0);
    AggregateKeys(pre, name);
    AbsorbAt(Aggregate(pre), rows[n], name);
    if Has(pre, name) {
      AggregateTotal(pre, name);
    } else {
      QuantityAbsent(pre, name);
    }
  }

  lemma FirstRowLast(rows: seq<MergedRow>, name: string)
    requires rows != [] && rows[|rows| - 1].partName == name && !Has(rows[..|rows| - 1], name)
    ensures Has(rows, name) && FirstRow(rows, name) == |rows| - 1
  {
    var pre := rows[..|rows| - 1];
    var k := FirstRow(rows, name);
  }

  lemma FirstRowPrefix(rows: seq<MergedRow>, name: string)
    requires rows != [] && Has(rows[..|rows| - 1], name)
    ensures Has(rows, name) && FirstRow(rows, name) == FirstRow(rows[..|rows| - 1], name)
  {
    var pre := rows[..|rows| - 1];
    HasSnoc(rows, name, "", 0);
    var a := FirstRow(rows, name);
    var b := FirstRow(pre, name);
    assert pre[b] == rows[b];
    assert a <= b;
    assert pre[a] == rows[a];
  }

  /** A part keeps the alpha quantity, duration, method, stripped material and machine
      model of its first row. */
  lemma {:induction false} AggregateFirst(rows: seq<MergedRow>, name: string)
    requires Has(rows, name)
    ensures name in Aggregate(rows) && FromRow(Aggregate(rows)[name], rows[FirstRow(rows, name)])
  {
    var n := |rows| - 1;
    var pre := rows[..n];
    HasSnoc(rows, name, "", 0);
    AggregateKeys(pre, name);
    AbsorbAt(Aggregate(pre), rows[n], name);
    if Has(pre, name) {
      AggregateFirst(pre, name);
      FirstRowPrefix(rows, name);
      assert rows[FirstRow(pre, name)] == pre[FirstRow(pre, name)];
    } else {
      FirstRowLast(rows, name);
    }
  }

  /** A part's phases are the phases of its rows. */
  lemma {:induction false} AggregatePhases(rows: seq<MergedRow>, name: string, ph: string)
    requires Has(rows, name)
    ensures name in Aggregate(rows) && (ph in Aggregate(rows)[name].phases <==> HasPhase(rows, name, ph))
  {
    var n := |rows| - 1;
    var pre := rows[..n];
    HasSnoc(rows, name, ph, 0);
    AggregateKeys(pre, name);
    AbsorbAt(Aggregate(pre), rows[n], name);
    if Has(pre, name) {
      AggregatePhases(pre, name, ph);
    } else {
      assert !HasPhase(pre, name, ph);
    }
  }

  /** One more row keeps the earliest-due-date property. */
  lemma DueStep(rows: seq<MergedRow>, name: string, e: Option<int>, d: Option<int>)
    requires rows != []
    requires e.Some? ==> HasDue(rows[..|rows| - 1], name, e.value) && DueAtMost(rows[..|rows| - 1], name, e.value)
    requires d == if rows[|rows| - 1].partName == name then MinDue(e, rows[|rows| - 1].dueDate) else e
    ensures d.Some? <==> e.Some?
    ensures d.Some? ==> HasDue(rows, name, d.value) && DueAtMost(rows, name, d.value)
  {
    if d.Some? {
      HasSnoc(rows, name, "", d.value);
      HasSnoc(rows, name, "", e.value);
    }
  }

  /** The due date stays NaT when the first row's is NaT; otherwise it is the earliest due
      date among the part's rows, NaT ones ignored. */
  lemma {:induction false} AggregateDue(rows: seq<MergedRow>, name: string)
    requires Has(rows, name)
    ensures name in Aggregate(rows)
    ensures Aggregate(rows)[name].due.Some? <==> rows[FirstRow(rows, name)].dueDate.Some?
    ensures Aggregate(rows)[name].due.Some? ==>
              HasDue(rows, name, Aggregate(rows)[name].due.value) && DueAtMost(rows, name, Aggregate(rows)[name].due.value)
  {
    var n := |rows| - 1;
    var pre := rows[..n];
    HasSnoc(rows, name, "", 0);
    AggregateKeys(pre, name);
    AbsorbAt(Aggregate(pre), rows[n], name);
    if Has(pre, name) {
      AggregateDue(pre, name);
      FirstRowPrefix(rows, name);
      assert rows[FirstRow(pre, name)] == pre[FirstRow(pre, name)];
      DueStep(rows, name, Aggregate(pre)[name].due, Aggregate(rows)[name].due);
    } else {
      FirstRowLast(rows, name);
      var d := Aggregate(rows)[name].due;
      if d.Some? {
        HasSnoc(rows, name, "", d.value);
        assert DueAtMost(pre, name, d.value);
      }
    }
  }

  /** `ceil(a / b)` for a positive `b`: the fewest plates of `b` that cover `a`. */
  lemma CeilDivPositive(a: int, b: int)
    requires b > 0
    ensures CeilDiv(a, b) * b >= a
    ensures (CeilDiv(a, b) - 1) * b < a
  {
    var q := (-a) / b;
    var r := (-a) % b;
    assert -a == q * b + r && 0 <= r < b;
    assert CeilDiv(a, b) == -q;
    assert (-q) * b == -(q * b);
    assert (-q - 1) * b == -(q * b) - b;
  }

  lemma MulNonNegative(x: int, y: int)
    requires x >= 0 && y >= 0
    ensures x * y >= 0
  {
  }

  /** `ceil(a / b)` for a negative `b`. */
  lemma CeilDivNegative(a: int, b: int)
    requires b < 0
    ensures CeilDiv(a, b) * b <= a
    ensures (CeilDiv(a, b) - 1) * b > a
  {
    var c := -b;
    var q := a / c;
    var r := a % c;
    assert a == q * c + r && 0 <= r < c;
    assert CeilDiv(a, b) == -q;
    assert (-q) * b == q * c;
    assert (-q - 1) * b == q * c + c;
  }

  /** A part with a positive alpha quantity gets just enough runs to cover its total:
      `runs * alpha >= total > (runs - 1) * alpha`; none when the total is not positive. */
  lemma PartRunsCover(name: string, p: Part)
    requires p.alpha > 0
    ensures PartRows(name, p).Ok?
    ensures p.total > 0 ==> |PartRows(name, p).value| * p.alpha >= p.total > (|PartRows(name, p).value| - 1) * p.alpha
    ensures p.total <= 0 ==> PartRows(name, p).value == []
  {
    CeilDivPositive(p.total, p.alpha);
    var q := CeilDiv(p.total, p.alpha);
    if p.total <= 0 {
      if q >= 1 {
        MulNonNegative(q - 1, p.alpha);
      }
    } else {
      if q <= 0 {
        MulNonNegative(-q, p.alpha);
      }
    }
  }

  /** The run rows of a part: ids `_R1` to `_R{n}`, one run each, the part's total and
      alpha quantity, its earliest due date, status `Queued`. */
  lemma PartRowsExact(name: string, p: Part, i: nat)
    requires PartRows(name, p).Ok? && i < |PartRows(name, p).value|
    ensures var row := PartRows(name, p).value[i];
            row.slicedBuildId == RunId(name, i + 1) && row.quantityOfRuns == 1 &&
            row.totalRequiredQuantity == p.total && row.alphaQuantityOnPlate == p.alpha &&
            row.dueDate == p.due && row.status == "Queued" &&
            row.requiredMaterialId == FinalMaterial(p) && row.technology == p.printingMethod &&
            row.estimatedPrintTimeMinutes == Minutes(p.duration) &&
            row.projectPhases == p.phases && row.machineModel == p.machineModel
  {
    RunRowsAt(name, p, RunCount(CeilDiv(p.total, p.alpha)), i);
  }

  lemma {:induction false} RunRowsAt(name: string, p: Part, n: nat, i: nat)
    requires i < n
    ensures RunRows(name, p, n)[i] == RunRow(name, p, i + 1)
  {
    if i < n - 1 {
      RunRowsAt(name, p, n - 1, i);
    }
  }

  /** A run id names its part and its run: no two runs, of the same part or of two parts,
      share an id, since the run number after the last `_R` has only digits. */
  lemma RunIdInjective(name1: string, i1: nat, name2: string, i2: nat)
    requires RunId(name1, i1) == RunId(name2, i2)
    ensures name1 == name2 && i1 == i2
  {
    var a1, d1 := "MPP_ALL__" + name1 + "_R", NatToString(i1);
    var a2, d2 := "MPP_ALL__" + name2 + "_R", NatToString(i2);
    assert RunId(name1, i1) == a1 + d1 && RunId(name2, i2) == a2 + d2;
    assert a1[|a1| - 1] == 'R' && a2[|a2| - 1] == 'R';
    // the shorter run number would have to hold the other id's `R`
    if |d1| < |d2| {
      ConcatRight(a2, d2, |a1| - 1);
      assert false;
    } else if |d2| < |d1| {
      ConcatRight(a1, d1, |a2| - 1);
      assert false;
    }
    assert d1 == (a1 + d1)[|a1|..] == (a2 + d2)[|a2|..] == d2;
    NatToStringInjective(i1, i2);
    assert a1 == (a1 + d1)[..|a1|] == (a2 + d2)[..|a2|] == a2;
    assert name1 == a1[9..|a1| - 2] == a2[9..|a2| - 2] == name2;
  }

  lemma ConcatRight(a: string, d: string, i: nat)
    requires |a| <= i < |a| + |d|
    ensures (a + d)[i] == d[i - |a|]
  {
  }

  /** The print time: truncated toward zero, within a minute of the seconds, and 30 when
      the duration is missing or cannot be parsed. */
  lemma MinutesSpec(d: DurationCell)
    ensures !d.Seconds? ==> Minutes(d) == 30
    ensures d.Seconds? && d.s >= 0 ==> 0 <= Minutes(d) * 60 <= d.s < Minutes(d) * 60 + 60
    ensures d.Seconds? && d.s < 0 ==> Minutes(d) * 60 - 60 < d.s <= Minutes(d) * 60 <= 0
  {
  }

  /** An empty material becomes PETG for LFAM and FDM; any other material, or method, is
      kept. */
  lemma FinalMaterialSpec(p: Part)
    ensures Strip(p.material) == "" && (p.printingMethod == "LFAM" || p.printingMethod == "FDM") ==> FinalMaterial(p) == "PETG"
    ensures Strip(p.material) != "" || (p.printingMethod != "LFAM" && p.printingMethod != "FDM") ==> FinalMaterial(p) == p.material
  {
  }

  /** The total number of sheet rows, when no part has a zero alpha quantity. */
  function RowCount(order: seq<string>, parts: map<string, Part>): nat
    requires forall k :: 0 <= k < |order| ==> order[k] in parts
  {
    if order == [] then 0
    else
      var n := |order| - 1;
      var p := parts[order[n]];
      RowCount(order[..n], parts) + (if p.alpha == 0 then 0 else RunCount(CeilDiv(p.total, p.alpha)))
  }

  /** Some listed part has a zero alpha quantity. */
  predicate SomeZeroAlpha(order: seq<string>, parts: map<string, Part>)
    requires forall k :: 0 <= k < |order| ==> order[k] in parts
  {
    exists k :: 0 <= k < |order| && parts[order[k]].alpha == 0
  }

  lemma SomeZeroAlphaSnoc(order: seq<string>, parts: map<string, Part>)
    requires order != [] && forall k :: 0 <= k < |order| ==> order[k] in parts
    ensures SomeZeroAlpha(order, parts) <==>
            SomeZeroAlpha(order[..|order| - 1], parts) || parts[order[|order| - 1]].alpha == 0
  {
    var n := |order| - 1;
    forall k | 0 <= k < n
      ensures order[..n][k] == order[k]
    {
    }
  }

  /** The sheet fails exactly when some part has a zero alpha quantity; otherwise it has a
      row per run of every part. */
  lemma {:induction false} ExpandPartsExact(order: seq<string>, parts: map<string, Part>)
    requires forall k :: 0 <= k < |order| ==> order[k] in parts
    ensures ExpandParts(order, parts).Err? <==> SomeZeroAlpha(order, parts)
    ensures ExpandParts(order, parts).Ok? ==> |ExpandParts(order, parts).value| == RowCount(order, parts)
  {
    if order != [] {
      var n := |order| - 1;
      ExpandPartsExact(order[..n], parts);
      SomeZeroAlphaSnoc(order, parts);
    }
  }

  /** A part whose first row has a zero alpha quantity. */
  predicate ZeroAlphaPart(rows: seq<MergedRow>, k: int) {
    0 <= k < |rows| && rows[k].alphaQuantityOnPlate == 0 &&
    forall j :: 0 <= j < k ==> rows[j].partName != rows[k].partName
  }

  /** The build fails exactly when some part's first row has a zero alpha quantity. */
  lemma SlicedSheetFails(rows: seq<MergedRow>)
    ensures SlicedSheet(rows).Err? <==> exists k :: ZeroAlphaPart(rows, k)
  {
    var order, parts := PartOrder(rows), Aggregate(rows);
    PartOrderExact(rows);
    ExpandPartsExact(order, parts);
    if SlicedSheet(rows).Err? {
      assert SomeZeroAlpha(order, parts);
      var j :| 0 <= j < |order| && parts[order[j]].alpha == 0;
      AggregateFirst(rows, order[j]);
      assert ZeroAlphaPart(rows, FirstRow(rows, order[j]));
    }
    if exists k :: ZeroAlphaPart(rows, k) {
      var k :| ZeroAlphaPart(rows, k);
      var name := rows[k].partName;
      assert Has(rows, name);
      AggregateFirst(rows, name);
      assert FirstRow(rows, name) == k;
      var j :| 0 <= j < |order| && order[j] == name;
      assert parts[order[j]].alpha == 0;
      assert SomeZeroAlpha(order, parts);
    }
  }
}
