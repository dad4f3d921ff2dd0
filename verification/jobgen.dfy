/** `generate_jobs_from_excel` after the sheet is loaded: the queued rows are kept, and each
    becomes `Quantity_of_Runs` jobs with consecutive ids, the row's stripped material,
    technology and machine model, its duration (30 minutes by default), and the titles
    `<sliced id>_R1`, `<sliced id>_R2`, ... */
module JobGen {
  import opened Wrappers
  import opened Text
  import opened Records
  import opened SeqUtil

  /** One cell of the sheet: the column is missing, the cell is empty (NaN), or it holds
      text or a whole number. */
  datatype Cell = Absent | Blank | Str(s: string) | Num(n: int)

  /** The columns a row of the sliced-build sheet is read through. */
  datatype SheetRow = SheetRow(
    status: Cell,
    quantityOfRuns: Cell,
    estimatedPrintTimeMinutes: Cell,
    requiredMaterialId: Cell,
    technology: Cell,
    slicedBuildId: Cell,
    machineModel: Cell,
    alphaQuantityOnPlate: Cell)

  /** The exceptions the loop can raise: `int()` of text, and `.strip()` of a value that is
      not text. */
  datatype GenError = NotANumber(row: nat) | NotText(row: nat)

  /** `df['Status'].str.lower() == 'queued'`; a missing column means every row is queued,
      and a cell that is not text is never queued. */
  predicate Queued(r: SheetRow) {
    match r.status
    case Absent => true
    case Str(s) => Lower(s) == "queued"
    case _ => false
  }

  /** The queued rows, in sheet order. */
  function QueuedRows(rows: seq<SheetRow>): (q: seq<SheetRow>)
    ensures |q| <= |rows|
  {
    if rows == [] then []
    else QueuedRows(rows[..|rows| - 1]) + (if Queued(rows[|rows| - 1]) then [rows[|rows| - 1]] else [])
  }

  /** `int(row[col]) if not pd.isna(row[col]) else default`, for a column that may be missing. */
  function IntOr(c: Cell, default: int): Option<int> {
    match c
    case Absent => Some(default)
    case Blank => Some(default)
    case Num(n) => Some(n)
    case Str(_) => None
  }

  /** `raw.strip() if isinstance(raw, str) else ''`. */
  function TextOrEmpty(c: Cell): string {
    match c
    case Str(s) => Strip(s)
    case _ => ""
  }

  /** `row.get(col, '').strip()`: fails on a value that is not text. */
  function StrippedText(c: Cell): Option<string> {
    match c
    case Absent => Some("")
    case Str(s) => Some(Strip(s))
    case _ => None
  }

  /** `row.get('Alpha_Quantity_on_Plate', 1)`; an empty cell or text is kept as no number. */
  function AlphaOf(c: Cell): Option<int> {
    match c
    case Absent => Some(1)
    case Num(n) => Some(n)
    case _ => None
  }

  /** What one row contributes before it is copied. */
  datatype Template = Template(
    quantity: int,
    duration: int,
    material: string,
    technology: string,
    slicedId: string,
    machineModel: string,
    alpha: Option<int>)

  /** The values the loop body reads from a row, in the order it reads them; `idx` is the
      row's position among the queued rows. */
  function TemplateOf(r: SheetRow, idx: nat): Result<Template, GenError> {
    var qty := IntOr(r.quantityOfRuns, 1);
    var dur := IntOr(r.estimatedPrintTimeMinutes, 30);
    var sliced := StrippedText(r.slicedBuildId);
    var model := StrippedText(r.machineModel);
    if qty.None? || dur.None? then Err(NotANumber(idx))
    else if sliced.None? || model.None? then Err(NotText(idx))
    else Ok(Template(qty.value, dur.value, TextOrEmpty(r.requiredMaterialId), TextOrEmpty(r.technology),
                     sliced.value, model.value, AlphaOf(r.alphaQuantityOnPlate)))
  }

  /** `range(qty)` is empty for a negative quantity. */
  function Copies(t: Template): nat {
    if t.quantity < 0 then 0 else t.quantity
  }

  /** The title of copy `i` (from 0). */
  function TitleOf(slicedId: string, i: nat): string {
    slicedId + "_R" + NatToString(i + 1)
  }

  function JobOf(t: Template, jobId: int, i: nat): Job {
    Job(jobId, TitleOf(t.slicedId, i), t.material, t.technology, t.material, t.technology,
        t.machineModel, t.duration, t.alpha)
  }

  /** The jobs of one row, numbered from `firstId`. */
  function Expand(t: Template, firstId: int): (js: seq<Job>)
    ensures |js| == Copies(t)
  {
    seq(Copies(t), i requires 0 <= i < Copies(t) => JobOf(t, firstId + i, i))
  }

  /** The jobs of the given (queued) rows, or the first exception. */
  function Explode(rows: seq<SheetRow>): Result<seq<Job>, GenError> {
    if rows == [] then Ok([])
    else
      var n := |rows| - 1;
      match Explode(rows[..n])
      case Err(e) => Err(e)
      case Ok(js) =>
        match TemplateOf(rows[n], n)
        case Err(e) => Err(e)
        case Ok(t) => Ok(js + Expand(t, |js|))
  }

  /** `generate_jobs_from_excel` on a loaded sheet. */
  function GenerateJobs(rows: seq<SheetRow>): Result<seq<Job>, GenError> {
    Explode(QueuedRows(rows))
  }

  /** The status filter. */
  method FilterQueued(rows: seq<SheetRow>) returns (q: seq<SheetRow>)
    ensures q == QueuedRows(rows)
  {
    q := [];
    for i := 0 to |rows|
      invariant q == QueuedRows(rows[..i])
    {
      PrefixOfPrefix(rows, i, i + 1);
      if Queued(rows[i]) {
        q := q + [rows[i]];
      }
    }
    assert rows[..|rows|] == rows;
  }

  /** The explosion loop: one job per copy of every row, `job_id` counting across rows. */
  method ExplodeRows(rows: seq<SheetRow>) returns (r: Result<seq<Job>, GenError>)
    ensures r == Explode(rows)
  {
    var jobs: seq<Job> := [];
    var jobId := 0;
    for k := 0 to |rows|
      invariant Explode(rows[..k]) == Ok(jobs)
      invariant jobId == |jobs|
    {
      var t := TemplateOf(rows[k], k);
      ExplodePrefix(rows, k);
      if t.Err? {
        ExplodeErrSticky(rows, k + 1);
        return Err(t.error);
      }
      var template := t.value;
      ghost var before := jobs;
      var qty := template.quantity;
      var i := 0;
      while i < qty
        invariant 0 <= i <= Copies(template)
        invariant jobs == before + Expand(template, |before|)[..i]
        invariant jobId == |before| + i
      {
        ExpandSnoc(template, |before|, i);
        jobs := jobs + [JobOf(template, jobId, i)];
        jobId := jobId + 1;
        i := i + 1;
      }
      assert Expand(template, |before|)[..i] == Expand(template, |before|);
    }
    assert rows[..|rows|] == rows;
    r := Ok(jobs);
  }

  /** One more row of a prefix either raises or appends its copies. */
  lemma ExplodePrefix(rows: seq<SheetRow>, k: nat)
    requires k < |rows| && Explode(rows[..k]).Ok?
    ensures TemplateOf(rows[k], k).Err? ==> Explode(rows[..k + 1]) == Err(TemplateOf(rows[k], k).error)
    ensures TemplateOf(rows[k], k).Ok? ==>
              Explode(rows[..k + 1]) ==
              Ok(Explode(rows[..k]).value + Expand(TemplateOf(rows[k], k).value, |Explode(rows[..k]).value|))
  {
    PrefixOfPrefix(rows, k, k + 1);
  }

  /** Copy `i` follows the first `i` copies. */
  lemma ExpandSnoc(t: Template, firstId: int, i: nat)
    requires i < Copies(t)
    ensures Expand(t, firstId)[..i + 1] == Expand(t, firstId)[..i] + [JobOf(t, firstId + i, i)]
  {
  }

  /** `generate_jobs_from_excel` after loading. */
  method GenerateJobsFromSheet(rows: seq<SheetRow>) returns (r: Result<seq<Job>, GenError>)
    ensures r == GenerateJobs(rows)
  {
    var queued := FilterQueued(rows);
    r := ExplodeRows(queued);
  }

  // ---- properties -----------------------------------------------------------------

  /** An exception stops the loop: it is the result for every longer list of rows. */
  lemma {:induction false} ExplodeErrSticky(rows: seq<SheetRow>, i: nat)
    requires i <= |rows| && Explode(rows[..i]).Err?
    ensures Explode(rows) == Explode(rows[..i])
  {
    if i < |rows| {
      var n := |rows| - 1;
      PrefixOfPrefix(rows, i, n);
      ExplodeErrSticky(rows[..n], i);
    } else {
      assert rows[..i] == rows;
    }
  }

  /** A row is kept exactly when its status is missing or lower-cases to "queued". */
  lemma {:induction false} QueuedRowsExact(rows: seq<SheetRow>)
    ensures forall r :: r in QueuedRows(rows) <==> r in rows && Queued(r)
  {
    if rows != [] {
      var n := |rows| - 1;
      QueuedRowsExact(rows[..n]);
      LastSplit(rows);
    }
  }

  /** The number of jobs the rows produce, when none raises. */
  function TotalCopies(rows: seq<SheetRow>): nat {
    if rows == [] then 0
    else
      var n := |rows| - 1;
      TotalCopies(rows[..n]) + (match TemplateOf(rows[n], n) case Ok(t) => Copies(t) case Err(_) => 0)
  }

  /** The jobs carry the ids 0, 1, 2, ... and there are as many as the rows' quantities add
      up to (a missing or empty quantity counting 1, a negative one 0). */
  lemma {:induction false} ExplodeIdsAndLength(rows: seq<SheetRow>)
    requires Explode(rows).Ok?
    ensures |Explode(rows).value| == TotalCopies(rows)
    ensures forall k :: 0 <= k < |Explode(rows).value| ==> Explode(rows).value[k].jobId == k
  {
    if rows != [] {
      var n := |rows| - 1;
      ExplodeIdsAndLength(rows[..n]);
      var js := Explode(rows[..n]).value;
      var t := TemplateOf(rows[n], n).value;
      var all := js + Expand(t, |js|);
      forall k | 0 <= k < |all| ensures all[k].jobId == k {
        if k < |js| {
          assert all[k] == js[k];
        } else {
          assert all[k] == Expand(t, |js|)[k - |js|] == JobOf(t, |js| + (k - |js|), k - |js|);
        }
      }
    }
  }

  /** Every job comes from one copy of one row: its id, title, stripped material and
      technology (each given twice), machine model, duration and alpha quantity. */
  lemma {:induction false} ExplodeJobs(rows: seq<SheetRow>, k: nat)
    requires Explode(rows).Ok? && k < |Explode(rows).value|
    ensures exists n, i :: 0 <= n < |rows| && TemplateOf(rows[n], n).Ok? &&
              0 <= i < Copies(TemplateOf(rows[n], n).value) &&
              Explode(rows).value[k] == JobOf(TemplateOf(rows[n], n).value, k, i)
  {
    ExplodeIdsAndLength(rows);
    var n := |rows| - 1;
    var js := Explode(rows[..n]).value;
    var t := TemplateOf(rows[n], n).value;
    if k < |js| {
      ExplodeJobs(rows[..n], k);
      var m, i :| 0 <= m < n && TemplateOf(rows[..n][m], m).Ok? &&
                  0 <= i < Copies(TemplateOf(rows[..n][m], m).value) &&
                  js[k] == JobOf(TemplateOf(rows[..n][m], m).value, k, i);
      assert rows[..n][m] == rows[m];
    } else {
      ExplodeIdsAndLength(rows[..n]);
      assert Explode(rows).value[k] == Expand(t, |js|)[k - |js|];
    }
  }

  /** The fields of a generated job: material and technology are the row's stripped text,
      or empty when the cell is not text, and `required_material == material`,
      `required_technology == technology`; the machine model and the sliced id are the
      row's stripped text; the job carries the row's duration and alpha quantity. */
  lemma JobFields(t: Template, jobId: int, i: nat, r: SheetRow, idx: nat)
    requires TemplateOf(r, idx) == Ok(t)
    ensures var j := JobOf(t, jobId, i);
            && j.jobId == jobId
            && j.material == TextOrEmpty(r.requiredMaterialId) && j.technology == TextOrEmpty(r.technology)
            && j.requiredMaterial == j.material && j.requiredTechnology == j.technology
            && StrippedText(r.machineModel).Some? && j.machineModel == StrippedText(r.machineModel).value
            && StrippedText(r.slicedBuildId).Some? && j.title == TitleOf(StrippedText(r.slicedBuildId).value, i)
            && IntOr(r.estimatedPrintTimeMinutes, 30) == Some(j.duration)
            && j.alphaQuantityOnPlate == AlphaOf(r.alphaQuantityOnPlate)
            && Strip(j.material) == j.material && Strip(j.technology) == j.technology
            && Strip(j.machineModel) == j.machineModel
  {
    if r.requiredMaterialId.Str? {
      StripIdempotent(r.requiredMaterialId.s);
    }
    if r.technology.Str? {
      StripIdempotent(r.technology.s);
    }
    if r.machineModel.Str? {
      StripIdempotent(r.machineModel.s);
    }
  }

  /** The defaults: a missing or empty quantity gives one copy, a missing or empty
      duration 30 minutes, a missing alpha quantity 1. */
  lemma TemplateDefaults(r: SheetRow, idx: nat)
    requires TemplateOf(r, idx).Ok?
    ensures r.quantityOfRuns in {Absent, Blank} ==> Copies(TemplateOf(r, idx).value) == 1
    ensures r.estimatedPrintTimeMinutes in {Absent, Blank} ==> TemplateOf(r, idx).value.duration == 30
    ensures r.alphaQuantityOnPlate == Absent ==> TemplateOf(r, idx).value.alpha == Some(1)
  {
  }

  /** The copies of one row have distinct titles. */
  lemma TitlesDistinct(slicedId: string, i: nat, j: nat)
    requires TitleOf(slicedId, i) == TitleOf(slicedId, j)
    ensures i == j
  {
    var p := slicedId + "_R";
    assert TitleOf(slicedId, i)[|p|..] == NatToString(i + 1);
    assert TitleOf(slicedId, j)[|p|..] == NatToString(j + 1);
    NatToStringInjective(i + 1, j + 1);
  }

  /** A title ends in `_R` and the copy number, read back in decimal. */
  lemma TitleNumber(slicedId: string, i: nat)
    ensures var t := TitleOf(slicedId, i);
            var p := |slicedId| + 2;
            t[..p] == slicedId + "_R" && (forall c :: p <= c < |t| ==> IsDigit(t[c])) &&
            DigitsValue(t[p..]) == i + 1
  {
    var t := TitleOf(slicedId, i);
    var p := |slicedId| + 2;
    assert t[p..] == NatToString(i + 1);
    NatToStringRoundTrip(i + 1);
  }
}
