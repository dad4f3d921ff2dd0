/** Which printers may run a job (`compatible_printers`) and the numbering of racks that
    `build_model` derives from the roster. */
module Compat {
  import opened Text
  import opened SeqUtil
  import opened Records

  /** A printer can run a job when material, technology and machine model agree once
      surrounding whitespace is stripped from both sides. */
  predicate Supports(p: Printer, material: string, technology: string, machineModel: string) {
    && Strip(p.material) == Strip(material)
    && Strip(p.technology) == Strip(technology)
    && Strip(p.model) == Strip(machineModel)
  }

  /** The supporting printers, in roster order. */
  function SupportingPrinters(roster: seq<Printer>, material: string, technology: string,
                              machineModel: string): (r: seq<Printer>)
    ensures |r| <= |roster|
  {
    if roster == [] then []
    else
      (if Supports(roster[0], material, technology, machineModel) then [roster[0]] else []) +
      SupportingPrinters(roster[1..], material, technology, machineModel)
  }

  lemma {:induction false} SupportingPrintersExact(roster: seq<Printer>, material: string,
                                                   technology: string, machineModel: string)
    ensures forall p :: p in SupportingPrinters(roster, material, technology, machineModel) <==>
              p in roster && Supports(p, material, technology, machineModel)
  {
    if roster != [] {
      SupportingPrintersExact(roster[1..], material, technology, machineModel);
      assert forall p :: p in roster <==> p == roster[0] || p in roster[1..];
    }
  }

  /** `compatible_printers`: the ids of the supporting printers, in roster order. */
  function CompatiblePrinters(roster: seq<Printer>, material: string, technology: string,
                              machineModel: string): (r: seq<int>)
    ensures |r| <= |roster|
  {
    Ids(SupportingPrinters(roster, material, technology, machineModel))
  }

  /** The compatible ids are exactly the ids of the roster printers that support the
      stripped material, technology and model. */
  lemma CompatiblePrintersExact(roster: seq<Printer>, material: string, technology: string,
                                machineModel: string)
    ensures forall x :: x in CompatiblePrinters(roster, material, technology, machineModel) <==>
              exists p :: p in roster && p.id == x && Supports(p, material, technology, machineModel)
  {
    var ps := SupportingPrinters(roster, material, technology, machineModel);
    var r := Ids(ps);
    SupportingPrintersExact(roster, material, technology, machineModel);
    assert forall x :: x in r ==> exists p :: p in ps && p.id == x by {
      forall x | x in r ensures exists p :: p in ps && p.id == x {
        var k :| 0 <= k < |r| && r[k] == x;
        assert ps[k] in ps;
      }
    }
    assert forall p :: p in ps ==> p.id in r by {
      forall p | p in ps ensures p.id in r {
        var k :| 0 <= k < |ps| && ps[k] == p;
        assert r[k] == p.id;
      }
    }
  }

  /** The compatible printers of a job, from its required material, technology and model. */
  function JobCompatible(roster: seq<Printer>, job: Job): seq<int> {
    CompatiblePrinters(roster, job.requiredMaterial, job.requiredTechnology, job.machineModel)
  }

  /** `a` is `b` with some elements left out, the rest kept in order. */
  predicate IsSubsequence<T(==)>(a: seq<T>, b: seq<T>) {
    if a == [] then true
    else if b == [] then false
    else (a[0] == b[0] && IsSubsequence(a[1..], b[1..])) || IsSubsequence(a, b[1..])
  }

  lemma {:induction false} IdsOfSubsequence(a: seq<Printer>, b: seq<Printer>)
    requires IsSubsequence(a, b)
    ensures IsSubsequence(Ids(a), Ids(b))
  {
    if a != [] {
      assert Ids(a) == [a[0].id] + Ids(a[1..]);
      assert Ids(b) == [b[0].id] + Ids(b[1..]);
      if a[0] == b[0] && IsSubsequence(a[1..], b[1..]) {
        IdsOfSubsequence(a[1..], b[1..]);
        assert Ids(a)[1..] == Ids(a[1..]);
      } else {
        IdsOfSubsequence(a, b[1..]);
      }
    }
  }

  lemma {:induction false} SupportingIsSubsequence(roster: seq<Printer>, material: string,
                                                   technology: string, machineModel: string)
    ensures IsSubsequence(SupportingPrinters(roster, material, technology, machineModel), roster)
  {
    if roster != [] {
      var rest := SupportingPrinters(roster[1..], material, technology, machineModel);
      SupportingIsSubsequence(roster[1..], material, technology, machineModel);
      if Supports(roster[0], material, technology, machineModel) {
        assert ([roster[0]] + rest)[1..] == rest;
      } else {
        assert SupportingPrinters(roster, material, technology, machineModel) == [] + rest;
        assert [] + rest == rest;
      }
    }
  }

  /** The compatible ids come out in roster order: they are the roster's ids with the
      unsupported printers left out. */
  lemma CompatibleInRosterOrder(roster: seq<Printer>, material: string,
                                technology: string, machineModel: string)
    ensures IsSubsequence(CompatiblePrinters(roster, material, technology, machineModel), Ids(roster))
  {
    SupportingIsSubsequence(roster, material, technology, machineModel);
    IdsOfSubsequence(SupportingPrinters(roster, material, technology, machineModel), roster);
  }

  /** The rack names of the roster, each once, in order of first appearance. Python numbers
      the distinct racks in the iteration order of a `set`, which is arbitrary; first
      appearance is one such order. */
  function Racks(roster: seq<Printer>): (r: seq<string>)
    ensures forall k :: 0 <= k < |roster| ==> roster[k].rack in r
    ensures forall x :: x in r ==> RackOfRoster(roster, x)
    ensures Distinct(r)
  {
    var names := seq(|roster|, k requires 0 <= k < |roster| => roster[k].rack);
    var r := Dedup(names);
    assert forall k :: 0 <= k < |roster| ==> names[k] == roster[k].rack;
    assert forall x :: x in r ==> x in names;
    r
  }

  /** Some printer of the roster stands in rack `x`. */
  predicate RackOfRoster(roster: seq<Printer>, x: string) {
    exists k :: 0 <= k < |roster| && roster[k].rack == x
  }

  /** The rack id of every printer, `printer_rack_id`. */
  function PrinterRackIds(roster: seq<Printer>): (m: map<int, nat>)
    requires DistinctIds(roster)
    ensures forall k :: 0 <= k < |roster| ==>
              roster[k].id in m && m[roster[k].id] < |Racks(roster)| &&
              Racks(roster)[m[roster[k].id]] == roster[k].rack
    ensures forall x :: x in m ==> x in Ids(roster)
  {
    var racks := Racks(roster);
    map k | 0 <= k < |roster| :: roster[k].id := IndexOf(racks, roster[k].rack)
  }

  /** Two printers share a rack id exactly when their rack strings are equal. */
  lemma RackIdsMatchRacks(roster: seq<Printer>, i: nat, j: nat)
    requires DistinctIds(roster) && i < |roster| && j < |roster|
    ensures var m := PrinterRackIds(roster);
            m[roster[i].id] == m[roster[j].id] <==> roster[i].rack == roster[j].rack
  {
  }
}
