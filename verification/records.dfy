/** The records the scheduling engine passes around: a print job, a printer of the roster,
    and the values the solver chooses for one job. */
module Records {
  import opened Wrappers

  /** One print job as the job generator emits it. `material`/`technology` duplicate
      `requiredMaterial`/`requiredTechnology` in the source's records. */
  datatype Job = Job(
    jobId: int,
    title: string,
    requiredMaterial: string,
    requiredTechnology: string,
    material: string,
    technology: string,
    machineModel: string,
    duration: int,
    alphaQuantityOnPlate: Option<int>)

  /** One roster entry: the printer id (its dict key) and its specification. */
  datatype Printer = Printer(
    id: int,
    name: string,
    material: string,
    technology: string,
    rack: string,
    model: string)

  /** The solver's values for one job: start and (buffered) end minute, the chosen printer
      and the rack id of that printer. */
  datatype Slot = Slot(start: int, end: int, printer: int, rack: int)

  function Ids(roster: seq<Printer>): (r: seq<int>)
    ensures |r| == |roster|
    ensures forall k :: 0 <= k < |roster| ==> r[k] == roster[k].id
  {
    if roster == [] then [] else [roster[0].id] + Ids(roster[1..])
  }

  /** Printer ids are the keys of a dict, so they are distinct. */
  predicate DistinctIds(roster: seq<Printer>) {
    forall i, j :: 0 <= i < j < |roster| ==> roster[i].id != roster[j].id
  }
}
