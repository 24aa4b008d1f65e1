/** The two reconcilers of fetch_data.py, run against the store. */
module FetchData {
  import opened Payload
  import opened Normalize
  import opened Store
  import opened Reconcile
  import BlsProperties
  import MetalProperties

  /** update_or_insert_bls: files every non-blank point of `seriesData` under
      `(dataType, year-month-01)`, inserting new dates and rewriting revised
      ones, and counts both. `failed` is true when `parse` (Python's `float`)
      raised on a value; the call then ends right after that point's lookup. */
  method UpdateOrInsertBls(db: MarketData, dataType: string, seriesData: Option<seq<BlsPoint>>, parse: string -> Option<real>)
    returns (inserted: nat, updated: nat, failed: bool)
    modifies db
    ensures var o := BlsOutcome(old(db.State()), dataType, seriesData, parse);
      && db.State() == o.table
      && db.calls == old(db.calls) + o.calls
      && inserted == o.inserted && updated == o.updated && failed == o.failed
    ensures old(db.Valid()) ==> db.Valid()
  {
    inserted, updated, failed := 0, 0, false;
    if seriesData.None? || seriesData.value == [] {
      return;
    }
    var points := seriesData.value;
    ghost var t0 := db.State();
    BlsProperties.RunShape(t0, dataType, points, parse);
    ghost var calls0 := db.calls;
    ghost var done: seq<StoreCall> := [];
    var i := 0;
    while i < |points|
      invariant 0 <= i <= |points|
      invariant db.calls == calls0 + done
      invariant BlsRun(t0, dataType, points, parse) ==
        Resume(BlsRun(db.State(), dataType, points[i..], parse), done, inserted, updated)
    {
      ghost var t := db.State();
      ghost var s := BlsStep(t, dataType, points[i], parse);
      var action := ReconcilePoint(db, dataType, points[i], parse);
      AppendAssoc(calls0, done, s.calls);
      if action == ParseFailed {
        BlsRunStops(t0, dataType, points, parse, i, t, done, inserted, updated);
        done := done + s.calls;
        failed := true;
        return;
      }
      BlsRunAdvance(t0, dataType, points, parse, i, t, done, inserted, updated, db.State(), action);
      done := done + s.calls;
      inserted := inserted + (if action == Inserted then 1 else 0);
      updated := updated + (if action == Updated then 1 else 0);
      i := i + 1;
    }
  }

  lemma AppendAssoc<T>(a: seq<T>, b: seq<T>, c: seq<T>)
    ensures a + b + c == a + (b + c)
  {
  }

  /** The body of the loop over `series_data`, for one point. */
  method ReconcilePoint(db: MarketData, dataType: string, point: BlsPoint, parse: string -> Option<real>)
    returns (action: Action)
    modifies db
    ensures var s := BlsStep(old(db.State()), dataType, point, parse);
      db.State() == s.table && db.calls == old(db.calls) + s.calls && action == s.action
  {
    BlankIffNoContent(point.value);
    if StripsToNothing(point.value) {
      return Skipped;
    }
    var date := BlsDate(point.year, point.period);
    var existing := db.Find(dataType, date);
    var value := parse(point.value.value);
    if value.None? {
      return ParseFailed;
    }
    var v := value.value;
    match existing {
      case Some(row) =>
        if row.average != v {
          db.UpdateById(row.id, v, v, v, BlsRaw(point));
          action := Updated;
        } else {
          action := Unchanged;
        }
      case None =>
        db.Insert(dataType, date, v, v, v, BlsRaw(point));
        action := Inserted;
    }
  }

  /** update_metal_price: files the reading under `(metal, day of its
      timestamp)`, overwriting the row for that day or inserting one. */
  method UpdateMetalPrice(db: MarketData, metal: string, metalData: Option<MetalData>)
    modifies db
    ensures var s := MetalOutcome(old(db.State()), metal, metalData);
      db.State() == s.table && db.calls == old(db.calls) + s.calls
    ensures old(db.Valid()) ==> db.Valid()
  {
    if old(db.Valid()) {
      MetalProperties.KeepsIdsUnique(db.State(), metal, metalData);
    }
    if metalData.None? {
      return;
    }
    var data := metalData.value;
    var rate := data.rate;
    var date := DatePart(data.timestamp);
    var existing := db.Find(metal, date);
    if existing.Some? {
      AppendAssoc(old(db.calls), [Lookup(metal, date)], [UpdateCall(existing.value.id)]);
      db.UpdateById(existing.value.id, rate.price, rate.high, rate.low, MetalRaw(data));
    } else {
      AppendAssoc(old(db.calls), [Lookup(metal, date)], [InsertCall(metal, date)]);
      db.Insert(metal, date, rate.price, rate.high, rate.low, MetalRaw(data));
    }
  }
}
