/** The `market_data` table as the two reconcilers see it: rows addressed by
    `(data_type, date)` for lookups and by `id` for updates. */
module Store {
  import opened Payload

  /** One row of `market_data`. */
  datatype Row = Row(
    id: nat,
    dataType: string,
    date: string,
    average: real,
    high: real,
    low: real,
    raw: Raw)

  /** The table's rows in one fixed order (insertion order, which updates
      do not change; PostgreSQL guarantees no order for a select without
      ORDER BY), and the id the database hands to the next inserted row. */
  datatype Table = Table(rows: seq<Row>, nextId: nat)

  /** The store calls a reconciler makes, in order. */
  datatype StoreCall =
    | Lookup(dataType: string, date: string)
    | InsertCall(dataType: string, date: string)
    | UpdateCall(id: nat)

  /** Every lookup and insert in `calls` is for the data type `dataType`: the
      calls never read or insert a row of another series. */
  ghost predicate InSeries(calls: seq<StoreCall>, dataType: string) {
    forall c :: c in calls && (c.Lookup? || c.InsertCall?) ==> c.dataType == dataType
  }

  predicate HasKey(row: Row, dataType: string, date: string) {
    row.dataType == dataType && row.date == date
  }

  predicate SameKey(a: Row, b: Row) {
    a.dataType == b.dataType && a.date == b.date
  }

  /** Ids are unique and below the next id the database will assign: the
      table's primary key. */
  ghost predicate ValidTable(t: Table) {
    && (forall i :: 0 <= i < |t.rows| ==> t.rows[i].id < t.nextId)
    && (forall i, j :: 0 <= i < j < |t.rows| ==> t.rows[i].id != t.rows[j].id)
  }

  /** No two rows share a `(data_type, date)` key. */
  ghost predicate NoDuplicateKeys(rows: seq<Row>) {
    forall i, j :: 0 <= i < j < |rows| ==> !SameKey(rows[i], rows[j])
  }

  /** Same id and same key: the same row of the table, whatever its values. */
  predicate SameIdAndKey(a: Row, b: Row) {
    a.id == b.id && SameKey(a, b)
  }

  /** `b` holds the rows of `a` in the same places (with the same ids and
      keys, the values may differ), possibly followed by more. */
  ghost predicate Extends(a: seq<Row>, b: seq<Row>) {
    |a| <= |b| && forall i :: 0 <= i < |a| ==> SameIdAndKey(a[i], b[i])
  }

  /** The number of rows with the key. */
  function CountKey(rows: seq<Row>, dataType: string, date: string): nat {
    if rows == [] then 0
    else CountKey(rows[..|rows| - 1], dataType, date) + (if HasKey(rows[|rows| - 1], dataType, date) then 1 else 0)
  }

  /** Index of the first row with the key, or `|rows|` when there is none. */
  function FirstMatch(rows: seq<Row>, dataType: string, date: string): (k: nat)
    ensures k <= |rows|
    ensures k < |rows| ==> HasKey(rows[k], dataType, date)
    ensures forall j :: 0 <= j < k ==> !HasKey(rows[j], dataType, date)
  {
    FirstMatchFrom(rows, dataType, date, 0)
  }

  /** The first row with the key at or after `i`, or `|rows|`. */
  function FirstMatchFrom(rows: seq<Row>, dataType: string, date: string, i: nat): (k: nat)
    requires i <= |rows|
    ensures i <= k <= |rows|
    ensures k < |rows| ==> HasKey(rows[k], dataType, date)
    ensures forall j :: i <= j < k ==> !HasKey(rows[j], dataType, date)
    decreases |rows| - i
  {
    if i == |rows| || HasKey(rows[i], dataType, date) then i
    else FirstMatchFrom(rows, dataType, date, i + 1)
  }

  /** `select * ... eq('data_type', ...).eq('date', ...)` followed by
      `existing.data[0]`: the first row with the key, if any. */
  function FindRow(rows: seq<Row>, dataType: string, date: string): (r: Option<Row>) {
    var k := FirstMatch(rows, dataType, date);
    if k < |rows| then Some(rows[k]) else None
  }

  /** `insert({...})`: a new row with a fresh id at the end. */
  function WithInsert(t: Table, dataType: string, date: string, average: real, high: real, low: real, raw: Raw): (r: Table) {
    Table(t.rows + [Row(t.nextId, dataType, date, average, high, low, raw)], t.nextId + 1)
  }

  /** The row `row` after `update({'average', 'high', 'low', 'raw_data'})`. */
  function Revised(row: Row, average: real, high: real, low: real, raw: Raw): Row {
    row.(average := average, high := high, low := low, raw := raw)
  }

  /** `update({...}).eq('id', id)`: every row with that id is revised; id,
      data_type and date stay as they were. */
  function WithUpdate(t: Table, id: nat, average: real, high: real, low: real, raw: Raw): (r: Table) {
    Table(UpdateRows(t.rows, id, average, high, low, raw), t.nextId)
  }

  function UpdateRows(rows: seq<Row>, id: nat, average: real, high: real, low: real, raw: Raw): (r: seq<Row>)
    ensures |r| == |rows|
    ensures forall i :: 0 <= i < |rows| ==>
      r[i] == if rows[i].id == id then Revised(rows[i], average, high, low, raw) else rows[i]
  {
    if rows == [] then []
    else
      var last := rows[|rows| - 1];
      UpdateRows(rows[..|rows| - 1], id, average, high, low, raw)
        + [if last.id == id then Revised(last, average, high, low, raw) else last]
  }

  /** The first match is determined by its contract. */
  lemma FirstMatchUnique(rows: seq<Row>, dataType: string, date: string, k: nat)
    requires k <= |rows|
    requires k < |rows| ==> HasKey(rows[k], dataType, date)
    requires forall j :: 0 <= j < k ==> !HasKey(rows[j], dataType, date)
    ensures FirstMatch(rows, dataType, date) == k
  {
  }

  /** FindRow answers None exactly when no row has the key. */
  lemma FindRowNone(rows: seq<Row>, dataType: string, date: string)
    ensures FindRow(rows, dataType, date).None? <==> forall i :: 0 <= i < |rows| ==> !HasKey(rows[i], dataType, date)
  {
  }

  /** Appending a row leaves earlier matches alone; when there were none the
      new row is found if it has the key. */
  lemma FindAfterAppend(rows: seq<Row>, row: Row, dataType: string, date: string)
    ensures FindRow(rows + [row], dataType, date) ==
      if FindRow(rows, dataType, date).Some? then FindRow(rows, dataType, date)
      else if HasKey(row, dataType, date) then Some(row)
      else None
  {
    var k := FirstMatch(rows, dataType, date);
    FirstMatchUnique(rows + [row], dataType, date, if k < |rows| || HasKey(row, dataType, date) then k else k + 1);
  }

  /** Lookups only look at keys: tables with the same keys in the same places
      find the same position. */
  lemma FirstMatchSameKeys(a: seq<Row>, b: seq<Row>, dataType: string, date: string)
    requires |a| == |b| && Extends(a, b)
    ensures FirstMatch(a, dataType, date) == FirstMatch(b, dataType, date)
  {
    var k := FirstMatch(a, dataType, date);
    FirstMatchUnique(b, dataType, date, k);
  }

  /** A row that is found stays the first match when rows are revised in
      place or appended. */
  lemma FirstMatchExtends(a: seq<Row>, b: seq<Row>, dataType: string, date: string)
    requires Extends(a, b) && FirstMatch(a, dataType, date) < |a|
    ensures FirstMatch(b, dataType, date) == FirstMatch(a, dataType, date)
  {
    var k := FirstMatch(a, dataType, date);
    assert SameIdAndKey(a[k], b[k]);
    forall j | 0 <= j < k
      ensures !HasKey(b[j], dataType, date)
    {
      assert SameIdAndKey(a[j], b[j]);
    }
    FirstMatchUnique(b, dataType, date, k);
  }

  /** A first match of the longer table that lies among the earlier rows is
      the first match of the earlier rows too. */
  lemma FirstMatchWithin(a: seq<Row>, b: seq<Row>, dataType: string, date: string)
    requires Extends(a, b) && FirstMatch(b, dataType, date) < |a|
    ensures FirstMatch(a, dataType, date) == FirstMatch(b, dataType, date)
  {
    var k := FirstMatch(b, dataType, date);
    assert SameIdAndKey(a[k], b[k]);
    forall j | 0 <= j < k
      ensures !HasKey(a[j], dataType, date)
    {
      assert SameIdAndKey(a[j], b[j]);
    }
    FirstMatchUnique(a, dataType, date, k);
  }

  /** Updating the `k`th row by its id revises that row and no other, keeps
      every key in place, and keeps the table valid. */
  lemma UpdateAt(t: Table, k: nat, average: real, high: real, low: real, raw: Raw)
    requires ValidTable(t) && k < |t.rows|
    ensures var u := WithUpdate(t, t.rows[k].id, average, high, low, raw);
      && ValidTable(u)
      && u.nextId == t.nextId
      && |u.rows| == |t.rows| && Extends(t.rows, u.rows)
      && u.rows[k] == Revised(t.rows[k], average, high, low, raw)
      && forall i :: 0 <= i < |t.rows| && i != k ==> u.rows[i] == t.rows[i]
  {
  }

  /** Updating the row at `k` by its id leaves the lookup of every key that
      row does not have as it was. */
  lemma UpdateKeepsOtherLookups(t: Table, k: nat, average: real, high: real, low: real, raw: Raw,
                                dataType: string, date: string)
    requires ValidTable(t) && k < |t.rows| && !HasKey(t.rows[k], dataType, date)
    ensures FindRow(WithUpdate(t, t.rows[k].id, average, high, low, raw).rows, dataType, date) == FindRow(t.rows, dataType, date)
  {
    var u := WithUpdate(t, t.rows[k].id, average, high, low, raw);
    UpdateAt(t, k, average, high, low, raw);
    FirstMatchSameKeys(t.rows, u.rows, dataType, date);
    var j := FirstMatch(t.rows, dataType, date);
    if j < |t.rows| {
      assert u.rows[j] == t.rows[j];
    }
  }

  /** An insert with the next id keeps ids unique and below the counter. */
  lemma InsertKeepsValid(t: Table, dataType: string, date: string, average: real, high: real, low: real, raw: Raw)
    requires ValidTable(t)
    ensures ValidTable(WithInsert(t, dataType, date, average, high, low, raw))
  {
  }

  /** An insert of an absent key creates no duplicate key. */
  lemma InsertAbsentKeepsNoDuplicates(t: Table, dataType: string, date: string, average: real, high: real, low: real, raw: Raw)
    requires NoDuplicateKeys(t.rows)
    requires FindRow(t.rows, dataType, date).None?
    ensures NoDuplicateKeys(WithInsert(t, dataType, date, average, high, low, raw).rows)
  {
    FindRowNone(t.rows, dataType, date);
  }

  /** An update by id changes no id and no key, so it creates no duplicate. */
  lemma UpdateKeepsKeys(t: Table, id: nat, average: real, high: real, low: real, raw: Raw)
    ensures var u := WithUpdate(t, id, average, high, low, raw);
      |u.rows| == |t.rows| && Extends(t.rows, u.rows) && u.nextId == t.nextId && ValidTable(u) == ValidTable(t)
    ensures NoDuplicateKeys(t.rows) ==> NoDuplicateKeys(WithUpdate(t, id, average, high, low, raw).rows)
  {
  }

  /** Extending is transitive. */
  lemma ExtendsTrans(a: seq<Row>, b: seq<Row>, c: seq<Row>)
    requires Extends(a, b) && Extends(b, c)
    ensures Extends(a, c)
  {
  }

  /** No row has the key: the count is zero. */
  lemma {:induction false} CountKeyNone(rows: seq<Row>, dataType: string, date: string)
    requires forall j :: 0 <= j < |rows| ==> !HasKey(rows[j], dataType, date)
    ensures CountKey(rows, dataType, date) == 0
  {
    if rows != [] {
      CountKeyNone(rows[..|rows| - 1], dataType, date);
    }
  }

  /** Exactly one row, the `k`th, has the key: the count is one. */
  lemma {:induction false} CountKeyOnly(rows: seq<Row>, dataType: string, date: string, k: nat)
    requires k < |rows| && HasKey(rows[k], dataType, date)
    requires forall j :: 0 <= j < |rows| && j != k ==> !HasKey(rows[j], dataType, date)
    ensures CountKey(rows, dataType, date) == 1
  {
    var init := rows[..|rows| - 1];
    if k == |rows| - 1 {
      CountKeyNone(init, dataType, date);
    } else {
      CountKeyOnly(init, dataType, date, k);
    }
  }

  /** In a table without duplicate keys a key that is found occurs exactly once. */
  lemma FoundKeyIsUnique(rows: seq<Row>, dataType: string, date: string)
    requires NoDuplicateKeys(rows)
    requires FindRow(rows, dataType, date).Some?
    ensures CountKey(rows, dataType, date) == 1
  {
    var k := FirstMatch(rows, dataType, date);
    forall j | 0 <= j < |rows| && j != k
      ensures !HasKey(rows[j], dataType, date)
    {
      if j < k {
      } else {
        assert !SameKey(rows[k], rows[j]);
      }
    }
    CountKeyOnly(rows, dataType, date, k);
  }

  /** The `market_data` table as a mutable store. `calls` records the calls
      made to it, in order. */
  class MarketData {
    var rows: seq<Row>
    var nextId: nat
    ghost var calls: seq<StoreCall>

    function State(): Table
      reads this
    {
      Table(rows, nextId)
    }

    ghost predicate Valid()
      reads this
    {
      ValidTable(State())
    }

    /** Opens the store on the table as it stands. */
    constructor (initial: Table)
      requires ValidTable(initial)
      ensures Valid() && State() == initial && calls == []
    {
      rows := initial.rows;
      nextId := initial.nextId;
      calls := [];
    }

    /** The first row with key `(dataType, date)`, or None. */
    method Find(dataType: string, date: string) returns (found: Option<Row>)
      modifies this`calls
      ensures found == FindRow(rows, dataType, date)
      ensures found.Some? ==> HasKey(found.value, dataType, date) && found.value in rows
      ensures found.None? ==> forall i :: 0 <= i < |rows| ==> !HasKey(rows[i], dataType, date)
      ensures calls == old(calls) + [Lookup(dataType, date)]
    {
      FindRowNone(rows, dataType, date);
      found := FindRow(rows, dataType, date);
      calls := calls + [Lookup(dataType, date)];
    }

    /** Appends a row under a fresh id. */
    method Insert(dataType: string, date: string, average: real, high: real, low: real, raw: Raw)
      modifies this
      ensures old(Valid()) ==> Valid()
      ensures State() == WithInsert(old(State()), dataType, date, average, high, low, raw)
      ensures calls == old(calls) + [InsertCall(dataType, date)]
    {
      if Valid() {
        InsertKeepsValid(State(), dataType, date, average, high, low, raw);
      }
      rows := rows + [Row(nextId, dataType, date, average, high, low, raw)];
      nextId := nextId + 1;
      calls := calls + [InsertCall(dataType, date)];
    }

    /** Rewrites the value columns of the row with the given id. */
    method UpdateById(id: nat, average: real, high: real, low: real, raw: Raw)
      modifies this
      ensures old(Valid()) ==> Valid()
      ensures State() == WithUpdate(old(State()), id, average, high, low, raw)
      ensures calls == old(calls) + [UpdateCall(id)]
    {
      rows := WithUpdate(State(), id, average, high, low, raw).rows;
      calls := calls + [UpdateCall(id)];
    }
  }
}
