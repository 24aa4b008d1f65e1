/** What update_metal_price guarantees about the table it reconciles. */
module MetalProperties {
  import opened Payload
  import opened Normalize
  import opened Store
  import opened Reconcile

  /** `None` (no reading) returns before touching the store. */
  lemma NoReadingIsNoOp(t: Table, metal: string)
    ensures MetalOutcome(t, metal, None) == Step(t, [], Skipped)
  {
  }

  /** The reading is filed under the part of its timestamp before the first
      `T` (the whole timestamp when it has none), and afterwards exactly one
      row has that key: it holds the reading's price, high and low and the
      reading itself as raw data. No duplicate key is created. */
  lemma LeavesExactlyOneRow(t: Table, metal: string, data: MetalData)
    requires NoDuplicateKeys(t.rows)
    ensures var s := MetalOutcome(t, metal, Some(data));
      var date := DatePart(data.timestamp);
      var found := FindRow(s.table.rows, metal, date);
      && NoDuplicateKeys(s.table.rows)
      && CountKey(s.table.rows, metal, date) == 1
      && found.Some?
      && found.value.average == data.rate.price
      && found.value.high == data.rate.high
      && found.value.low == data.rate.low
      && found.value.raw == MetalRaw(data)
  {
    var date := DatePart(data.timestamp);
    var rate := data.rate;
    var s := MetalOutcome(t, metal, Some(data));
    match FindRow(t.rows, metal, date)
    case Some(row) =>
      UpdateKeepsKeys(t, row.id, rate.price, rate.high, rate.low, MetalRaw(data));
      FirstMatchSameKeys(t.rows, s.table.rows, metal, date);
      FoundKeyIsUnique(s.table.rows, metal, date);
    case None =>
      var added := Row(t.nextId, metal, date, rate.price, rate.high, rate.low, MetalRaw(data));
      InsertAbsentKeepsNoDuplicates(t, metal, date, rate.price, rate.high, rate.low, MetalRaw(data));
      FindAfterAppend(t.rows, added, metal, date);
      FoundKeyIsUnique(s.table.rows, metal, date);
  }

  /** An existing row for the day is always overwritten, even when it
      already holds the same price, high, low and raw data: one lookup, one
      update of that row by its id, and no other row changes. */
  lemma OverwritesEvenIfEqual(t: Table, metal: string, data: MetalData)
    requires ValidTable(t)
    requires FindRow(t.rows, metal, DatePart(data.timestamp)).Some?
    ensures var s := MetalOutcome(t, metal, Some(data));
      var date := DatePart(data.timestamp);
      var k := FirstMatch(t.rows, metal, date);
      && s.action == Updated
      && s.calls == [Lookup(metal, date), UpdateCall(t.rows[k].id)]
      && s.table.nextId == t.nextId && |s.table.rows| == |t.rows|
      && s.table.rows[k] == t.rows[k].(average := data.rate.price, high := data.rate.high,
                                       low := data.rate.low, raw := MetalRaw(data))
      && forall i :: 0 <= i < |t.rows| && i != k ==> s.table.rows[i] == t.rows[i]
  {
    var k := FirstMatch(t.rows, metal, DatePart(data.timestamp));
    UpdateAt(t, k, data.rate.price, data.rate.high, data.rate.low, MetalRaw(data));
  }

  /** No row for the day yet: exactly one row is appended under the next id. */
  lemma InsertsWhenAbsent(t: Table, metal: string, data: MetalData)
    requires FindRow(t.rows, metal, DatePart(data.timestamp)).None?
    ensures var s := MetalOutcome(t, metal, Some(data));
      var date := DatePart(data.timestamp);
      && s.action == Inserted
      && s.calls == [Lookup(metal, date), InsertCall(metal, date)]
      && s.table == Table(t.rows + [Row(t.nextId, metal, date, data.rate.price, data.rate.high,
                                        data.rate.low, MetalRaw(data))], t.nextId + 1)
  {
  }

  /** Ids stay unique and below the next free id, and the rows already in
      the table keep their ids and keys. */
  lemma KeepsIdsUnique(t: Table, metal: string, metalData: Option<MetalData>)
    requires ValidTable(t)
    ensures var s := MetalOutcome(t, metal, metalData);
      ValidTable(s.table) && Extends(t.rows, s.table.rows)
  {
    if metalData.Some? {
      var data := metalData.value;
      var date := DatePart(data.timestamp);
      var rate := data.rate;
      if FindRow(t.rows, metal, date).Some? {
        UpdateAt(t, FirstMatch(t.rows, metal, date), rate.price, rate.high, rate.low, MetalRaw(data));
      } else {
        InsertKeepsValid(t, metal, date, rate.price, rate.high, rate.low, MetalRaw(data));
      }
    }
  }

  /** Key isolation: rows of another metal or another day are never modified,
      and the only lookup and insert are for this metal. */
  lemma LeavesOtherRows(t: Table, metal: string, data: MetalData, i: nat)
    requires ValidTable(t) && i < |t.rows|
    requires !HasKey(t.rows[i], metal, DatePart(data.timestamp))
    ensures var s := MetalOutcome(t, metal, Some(data));
      && i < |s.table.rows| && s.table.rows[i] == t.rows[i]
      && InSeries(s.calls, metal)
  {
    var date := DatePart(data.timestamp);
    var rate := data.rate;
    if FindRow(t.rows, metal, date).Some? {
      UpdateAt(t, FirstMatch(t.rows, metal, date), rate.price, rate.high, rate.low, MetalRaw(data));
    }
  }

  /** After a poll, the row found for the reading's day already holds the
      reading's price, high, low and raw data. */
  lemma PollSettlesItsDay(t: Table, metal: string, data: MetalData)
    requires ValidTable(t)
    ensures var u := MetalOutcome(t, metal, Some(data)).table;
      var k := FirstMatch(u.rows, metal, DatePart(data.timestamp));
      k < |u.rows| && u.rows[k] == Revised(u.rows[k], data.rate.price, data.rate.high, data.rate.low, MetalRaw(data))
  {
    var date := DatePart(data.timestamp);
    var rate := data.rate;
    var u := MetalOutcome(t, metal, Some(data)).table;
    match FindRow(t.rows, metal, date)
    case Some(row) =>
      var k := FirstMatch(t.rows, metal, date);
      UpdateAt(t, k, rate.price, rate.high, rate.low, MetalRaw(data));
      FirstMatchSameKeys(t.rows, u.rows, metal, date);
    case None =>
      var added := Row(t.nextId, metal, date, rate.price, rate.high, rate.low, MetalRaw(data));
      FindAfterAppend(t.rows, added, metal, date);
  }

  /** Polling twice with the same reading leaves the table as the first
      poll left it (the second poll rewrites the row with the same values). */
  lemma RerunKeepsTable(t: Table, metal: string, data: MetalData)
    requires ValidTable(t)
    ensures var once := MetalOutcome(t, metal, Some(data));
      var twice := MetalOutcome(once.table, metal, Some(data));
      twice.table == once.table && twice.action == Updated
  {
    var once := MetalOutcome(t, metal, Some(data));
    KeepsIdsUnique(t, metal, Some(data));
    PollSettlesItsDay(t, metal, data);
    OverwritesEvenIfEqual(once.table, metal, data);
    var twice := MetalOutcome(once.table, metal, Some(data));
    assert twice.table.rows == once.table.rows;
  }
}
