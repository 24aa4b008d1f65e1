/** What the two reconcilers do to the table, as functions of the table
    before them. The methods in FetchData are proved to do exactly this. */
module Reconcile {
  import opened Payload
  import opened Normalize
  import opened Store

  /** What happened to one BLS point or one metals reading.
      `ParseFailed`: `float(point['value'])` raised, which ends the call. */
  datatype Action = Skipped | Inserted | Updated | Unchanged | ParseFailed

  /** The table after one point, the store calls made for it, and why. */
  datatype Step = Step(table: Table, calls: seq<StoreCall>, action: Action)

  /** The table after a BLS call, its store calls, the two counters, and
      whether it ended with a parse error. */
  datatype Outcome = Outcome(table: Table, calls: seq<StoreCall>, inserted: nat, updated: nat, failed: bool)

  /** The date a BLS point is filed under. */
  function PointDate(point: BlsPoint): string {
    BlsDate(point.year, point.period)
  }

  /** One round of the loop in update_or_insert_bls. `parse` stands for
      Python's `float`, with None where it raises. */
  function BlsStep(t: Table, dataType: string, point: BlsPoint, parse: string -> Option<real>): (r: Step) {
    if IsBlankValue(point.value) then Step(t, [], Skipped)
    else
      var date := PointDate(point);
      var lookup := [Lookup(dataType, date)];
      match parse(point.value.value)
      case None => Step(t, lookup, ParseFailed)
      case Some(value) =>
        match FindRow(t.rows, dataType, date)
        case None =>
          Step(WithInsert(t, dataType, date, value, value, value, BlsRaw(point)),
               lookup + [InsertCall(dataType, date)], Inserted)
        case Some(row) =>
          if row.average != value then
            Step(WithUpdate(t, row.id, value, value, value, BlsRaw(point)),
                 lookup + [UpdateCall(row.id)], Updated)
          else Step(t, lookup, Unchanged)
  }

  /** The loop over `series_data`, from the first point on; a parse error
      stops it, leaving the writes of the earlier points in place. */
  function BlsRun(t: Table, dataType: string, points: seq<BlsPoint>, parse: string -> Option<real>): (r: Outcome)
    decreases |points|
  {
    if points == [] then Outcome(t, [], 0, 0, false)
    else
      var s := BlsStep(t, dataType, points[0], parse);
      if s.action == ParseFailed then Outcome(t, s.calls, 0, 0, true)
      else
        var rest := BlsRun(s.table, dataType, points[1..], parse);
        Outcome(rest.table, s.calls + rest.calls,
                (if s.action == Inserted then 1 else 0) + rest.inserted,
                (if s.action == Updated then 1 else 0) + rest.updated,
                rest.failed)
  }

  /** update_or_insert_bls(data_type, series_data); None or an empty list
      returns at once. */
  function BlsOutcome(t: Table, dataType: string, seriesData: Option<seq<BlsPoint>>, parse: string -> Option<real>): (r: Outcome) {
    if seriesData.None? || seriesData.value == [] then Outcome(t, [], 0, 0, false)
    else BlsRun(t, dataType, seriesData.value, parse)
  }

  /** update_metal_price(metal, metal_data); None returns at once, otherwise
      the row for the reading's day is overwritten or inserted. */
  function MetalOutcome(t: Table, metal: string, metalData: Option<MetalData>): (r: Step) {
    match metalData
    case None => Step(t, [], Skipped)
    case Some(data) =>
      var date := DatePart(data.timestamp);
      var rate := data.rate;
      var lookup := [Lookup(metal, date)];
      match FindRow(t.rows, metal, date)
      case Some(row) =>
        Step(WithUpdate(t, row.id, rate.price, rate.high, rate.low, MetalRaw(data)),
             lookup + [UpdateCall(row.id)], Updated)
      case None =>
        Step(WithInsert(t, metal, date, rate.price, rate.high, rate.low, MetalRaw(data)),
             lookup + [InsertCall(metal, date)], Inserted)
  }

  /** The outcome of a whole run, given what the points already handled
      did and the outcome of the rest. */
  function Resume(rest: Outcome, done: seq<StoreCall>, inserted: nat, updated: nat): Outcome {
    Outcome(rest.table, done + rest.calls, inserted + rest.inserted, updated + rest.updated, rest.failed)
  }

  /** The run ends at the `i`th point when `float` raises on its value; the
      table is the one that point found. */
  lemma BlsRunStops(t0: Table, dataType: string, points: seq<BlsPoint>, parse: string -> Option<real>,
                    i: nat, t: Table, done: seq<StoreCall>, inserted: nat, updated: nat)
    requires i < |points|
    requires BlsRun(t0, dataType, points, parse) == Resume(BlsRun(t, dataType, points[i..], parse), done, inserted, updated)
    requires BlsStep(t, dataType, points[i], parse).action == ParseFailed
    ensures BlsStep(t, dataType, points[i], parse).table == t
    ensures BlsRun(t0, dataType, points, parse) == Outcome(t, done + BlsStep(t, dataType, points[i], parse).calls, inserted, updated, true)
  {
    BlsRunAt(t, dataType, points, i, parse);
  }

  /** One point further into a run: after the `i`th point has left table `u`
      with action `a`, the run goes on from `u` with the rest of the points. */
  lemma BlsRunAdvance(t0: Table, dataType: string, points: seq<BlsPoint>, parse: string -> Option<real>,
                      i: nat, t: Table, done: seq<StoreCall>, inserted: nat, updated: nat, u: Table, a: Action)
    requires i < |points|
    requires BlsRun(t0, dataType, points, parse) == Resume(BlsRun(t, dataType, points[i..], parse), done, inserted, updated)
    requires u == BlsStep(t, dataType, points[i], parse).table && a == BlsStep(t, dataType, points[i], parse).action
    requires a != ParseFailed
    ensures BlsRun(t0, dataType, points, parse) ==
      Resume(BlsRun(u, dataType, points[i + 1..], parse), done + BlsStep(t, dataType, points[i], parse).calls,
             inserted + (if a == Inserted then 1 else 0), updated + (if a == Updated then 1 else 0))
  {
    BlsRunAt(t, dataType, points, i, parse);
    ResumeTwice(BlsRun(u, dataType, points[i + 1..], parse), BlsStep(t, dataType, points[i], parse).calls,
                if a == Inserted then 1 else 0, if a == Updated then 1 else 0, done, inserted, updated);
  }

  lemma ResumeTwice(rest: Outcome, calls: seq<StoreCall>, ins: nat, upd: nat, done: seq<StoreCall>, inserted: nat, updated: nat)
    ensures Resume(Resume(rest, calls, ins, upd), done, inserted, updated) == Resume(rest, done + calls, inserted + ins, updated + upd)
  {
    assert done + (calls + rest.calls) == done + calls + rest.calls;
  }

  /** BlsRun over a non-empty suffix, one point at a time. */
  lemma BlsRunAt(t: Table, dataType: string, points: seq<BlsPoint>, i: nat, parse: string -> Option<real>)
    requires i < |points|
    ensures var s := BlsStep(t, dataType, points[i], parse);
      BlsRun(t, dataType, points[i..], parse) ==
        if s.action == ParseFailed then Outcome(t, s.calls, 0, 0, true)
        else Resume(BlsRun(s.table, dataType, points[i + 1..], parse), s.calls,
                    if s.action == Inserted then 1 else 0,
                    if s.action == Updated then 1 else 0)
  {
    assert points[i..][0] == points[i] && points[i..][1..] == points[i + 1..];
  }
}
