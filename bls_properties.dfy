/** What update_or_insert_bls guarantees about the table it reconciles. */
module BlsProperties {
  import opened Payload
  import opened Normalize
  import opened Store
  import opened Reconcile

  /** No non-blank point of `points` is filed under `date`. */
  ghost predicate DateNotIn(date: string, points: seq<BlsPoint>) {
    forall k :: 0 <= k < |points| && !IsBlankValue(points[k].value) ==> PointDate(points[k]) != date
  }

  /** The non-blank points of `points` fall on pairwise different dates. */
  ghost predicate DistinctDates(points: seq<BlsPoint>) {
    forall i, j :: 0 <= i < j < |points| && !IsBlankValue(points[i].value) && !IsBlankValue(points[j].value)
      ==> PointDate(points[i]) != PointDate(points[j])
  }

  // ---------------------------------------------------------------------
  // One point

  /** A point whose value is missing, empty or whitespace only makes no store
      call and changes nothing. */
  lemma BlankPointIsInert(t: Table, dataType: string, point: BlsPoint, parse: string -> Option<real>)
    requires StripsToNothing(point.value)
    ensures BlsStep(t, dataType, point, parse) == Step(t, [], Skipped)
  {
    BlankIffNoContent(point.value);
  }

  /** A new date: exactly one row is appended, under the next id, holding the
      value as average, high and low and the point as raw data; it is the row
      a lookup finds from then on. */
  lemma InsertWhenAbsent(t: Table, dataType: string, point: BlsPoint, parse: string -> Option<real>, value: real)
    requires !IsBlankValue(point.value) && parse(point.value.value) == Some(value)
    requires FindRow(t.rows, dataType, PointDate(point)).None?
    ensures var s := BlsStep(t, dataType, point, parse);
      var row := Row(t.nextId, dataType, PointDate(point), value, value, value, BlsRaw(point));
      && s.action == Inserted
      && s.table == Table(t.rows + [row], t.nextId + 1)
      && s.calls == [Lookup(dataType, PointDate(point)), InsertCall(dataType, PointDate(point))]
      && FindRow(s.table.rows, dataType, PointDate(point)) == Some(row)
  {
    var row := Row(t.nextId, dataType, PointDate(point), value, value, value, BlsRaw(point));
    FindAfterAppend(t.rows, row, dataType, PointDate(point));
  }

  /** A revised value: the row found for the date, addressed by its id, gets
      the value as average, high and low and the point as raw data; every
      other row and the id counter stay as they were. */
  lemma UpdateWhenRevised(t: Table, dataType: string, point: BlsPoint, parse: string -> Option<real>, value: real)
    requires ValidTable(t)
    requires !IsBlankValue(point.value) && parse(point.value.value) == Some(value)
    requires FindRow(t.rows, dataType, PointDate(point)).Some?
    requires FindRow(t.rows, dataType, PointDate(point)).value.average != value
    ensures var s := BlsStep(t, dataType, point, parse);
      var k := FirstMatch(t.rows, dataType, PointDate(point));
      && s.action == Updated
      && s.calls == [Lookup(dataType, PointDate(point)), UpdateCall(t.rows[k].id)]
      && s.table.nextId == t.nextId && |s.table.rows| == |t.rows|
      && s.table.rows[k] == t.rows[k].(average := value, high := value, low := value, raw := BlsRaw(point))
      && forall i :: 0 <= i < |t.rows| && i != k ==> s.table.rows[i] == t.rows[i]
  {
    var k := FirstMatch(t.rows, dataType, PointDate(point));
    UpdateAt(t, k, value, value, value, BlsRaw(point));
  }

  /** An unchanged value: one lookup, and the table stays as it is. */
  lemma UnchangedWhenEqual(t: Table, dataType: string, point: BlsPoint, parse: string -> Option<real>, value: real)
    requires !IsBlankValue(point.value) && parse(point.value.value) == Some(value)
    requires FindRow(t.rows, dataType, PointDate(point)).Some?
    requires FindRow(t.rows, dataType, PointDate(point)).value.average == value
    ensures BlsStep(t, dataType, point, parse) == Step(t, [Lookup(dataType, PointDate(point))], Unchanged)
  {
  }

  /** One point keeps the rows it found in place, appends at most one, and
      moves the id counter only when it appends. */
  lemma StepShape(t: Table, dataType: string, point: BlsPoint, parse: string -> Option<real>)
    ensures var s := BlsStep(t, dataType, point, parse);
      && Extends(t.rows, s.table.rows)
      && |s.table.rows| == |t.rows| + (if s.action == Inserted then 1 else 0)
      && s.table.nextId == t.nextId + (if s.action == Inserted then 1 else 0)
      && (s.action == Skipped || s.action == Unchanged || s.action == ParseFailed ==> s.table == t)
  {
    if !IsBlankValue(point.value) {
      var date := PointDate(point);
      match parse(point.value.value)
      case None =>
      case Some(v) =>
        match FindRow(t.rows, dataType, date)
        case None =>
        case Some(row) =>
          if row.average != v {
            UpdateKeepsKeys(t, row.id, v, v, v, BlsRaw(point));
          }
    }
  }

  /** One point keeps ids unique and below the counter, and creates no
      duplicate key. */
  lemma StepKeepsValid(t: Table, dataType: string, point: BlsPoint, parse: string -> Option<real>)
    ensures var s := BlsStep(t, dataType, point, parse);
      && (ValidTable(t) ==> ValidTable(s.table))
      && (NoDuplicateKeys(t.rows) ==> NoDuplicateKeys(s.table.rows))
  {
    if !IsBlankValue(point.value) {
      var date := PointDate(point);
      match parse(point.value.value)
      case None =>
      case Some(v) =>
        match FindRow(t.rows, dataType, date)
        case None =>
          if ValidTable(t) {
            InsertKeepsValid(t, dataType, date, v, v, v, BlsRaw(point));
          }
          if NoDuplicateKeys(t.rows) {
            InsertAbsentKeepsNoDuplicates(t, dataType, date, v, v, v, BlsRaw(point));
          }
        case Some(row) =>
          if row.average != v {
            UpdateKeepsKeys(t, row.id, v, v, v, BlsRaw(point));
          }
    }
  }

  /** One point leaves every row with another key as it was. */
  lemma StepLeavesOtherRows(t: Table, dataType: string, point: BlsPoint, parse: string -> Option<real>, i: nat)
    requires ValidTable(t) && i < |t.rows|
    requires IsBlankValue(point.value) || !HasKey(t.rows[i], dataType, PointDate(point))
    ensures var s := BlsStep(t, dataType, point, parse);
      i < |s.table.rows| && s.table.rows[i] == t.rows[i]
  {
    if !IsBlankValue(point.value) {
      var date := PointDate(point);
      match parse(point.value.value)
      case None =>
      case Some(v) =>
        match FindRow(t.rows, dataType, date)
        case None =>
        case Some(row) =>
          if row.average != v {
            UpdateAt(t, FirstMatch(t.rows, dataType, date), v, v, v, BlsRaw(point));
          }
    }
  }

  /** One point leaves the lookup of every other key as it was. */
  lemma StepKeepsOtherLookups(t: Table, dataType: string, point: BlsPoint, parse: string -> Option<real>,
                              otherType: string, otherDate: string)
    requires ValidTable(t)
    requires IsBlankValue(point.value) || otherType != dataType || otherDate != PointDate(point)
    ensures FindRow(BlsStep(t, dataType, point, parse).table.rows, otherType, otherDate) == FindRow(t.rows, otherType, otherDate)
  {
    if !IsBlankValue(point.value) {
      var date := PointDate(point);
      match parse(point.value.value)
      case None =>
      case Some(v) =>
        match FindRow(t.rows, dataType, date)
        case None =>
          FindAfterAppend(t.rows, Row(t.nextId, dataType, date, v, v, v, BlsRaw(point)), otherType, otherDate);
        case Some(row) =>
          if row.average != v {
            UpdateKeepsOtherLookups(t, FirstMatch(t.rows, dataType, date), v, v, v, BlsRaw(point), otherType, otherDate);
          }
    }
  }

  /** After a non-blank, parsable point its date holds its value. */
  lemma StepSettlesItsDate(t: Table, dataType: string, point: BlsPoint, parse: string -> Option<real>, value: real)
    requires !IsBlankValue(point.value) && parse(point.value.value) == Some(value)
    ensures var found := FindRow(BlsStep(t, dataType, point, parse).table.rows, dataType, PointDate(point));
      found.Some? && found.value.average == value
  {
    var date := PointDate(point);
    match FindRow(t.rows, dataType, date)
    case None =>
      FindAfterAppend(t.rows, Row(t.nextId, dataType, date, value, value, value, BlsRaw(point)), dataType, date);
    case Some(row) =>
      if row.average != value {
        var u := WithUpdate(t, row.id, value, value, value, BlsRaw(point));
        UpdateKeepsKeys(t, row.id, value, value, value, BlsRaw(point));
        FirstMatchSameKeys(t.rows, u.rows, dataType, date);
      }
  }

  // ---------------------------------------------------------------------
  // A whole series

  /** `None` or an empty list returns before touching the store. */
  lemma NoDataIsNoOp(t: Table, dataType: string, seriesData: Option<seq<BlsPoint>>, parse: string -> Option<real>)
    requires seriesData.None? || seriesData.value == []
    ensures BlsOutcome(t, dataType, seriesData, parse) == Outcome(t, [], 0, 0, false)
  {
  }

  /** A blank point anywhere in the series can be dropped without changing
      the outcome: it makes no lookup, no write and no count change. */
  lemma {:induction false} BlankPointDropsOut(t: Table, dataType: string, before: seq<BlsPoint>, point: BlsPoint,
                                              after: seq<BlsPoint>, parse: string -> Option<real>)
    requires IsBlankValue(point.value)
    ensures BlsRun(t, dataType, before + [point] + after, parse) == BlsRun(t, dataType, before + after, parse)
    decreases |before|
  {
    if before == [] {
      assert before + [point] + after == [point] + after;
      assert ([point] + after)[1..] == after;
      assert before + after == after;
    } else {
      var all := before + [point] + after;
      var rest := before + after;
      assert all[0] == before[0] && rest[0] == before[0];
      assert all[1..] == before[1..] + [point] + after;
      assert rest[1..] == before[1..] + after;
      var s := BlsStep(t, dataType, before[0], parse);
      BlankPointDropsOut(s.table, dataType, before[1..], point, after, parse);
    }
  }

  /** The counters: `inserted_count` is the number of rows added (and of
      ids used), and `inserted_count + updated_count` is at most the number of
      points. */
  lemma {:induction false} RunCounts(t: Table, dataType: string, points: seq<BlsPoint>, parse: string -> Option<real>)
    ensures var o := BlsRun(t, dataType, points, parse);
      && |o.table.rows| == |t.rows| + o.inserted
      && o.table.nextId == t.nextId + o.inserted
      && o.inserted + o.updated <= |points|
    decreases |points|
  {
    if points != [] {
      var s := BlsStep(t, dataType, points[0], parse);
      StepShape(t, dataType, points[0], parse);
      RunCounts(s.table, dataType, points[1..], parse);
    }
  }

  /** The run keeps the rows it started with in place (same ids and keys),
      keeps ids unique, and creates no duplicate key. */
  lemma {:induction false} RunShape(t: Table, dataType: string, points: seq<BlsPoint>, parse: string -> Option<real>)
    ensures var o := BlsRun(t, dataType, points, parse);
      && Extends(t.rows, o.table.rows)
      && (ValidTable(t) ==> ValidTable(o.table))
      && (NoDuplicateKeys(t.rows) ==> NoDuplicateKeys(o.table.rows))
    decreases |points|
  {
    if points != [] {
      var s := BlsStep(t, dataType, points[0], parse);
      StepShape(t, dataType, points[0], parse);
      StepKeepsValid(t, dataType, points[0], parse);
      if s.action != ParseFailed {
        RunShape(s.table, dataType, points[1..], parse);
        ExtendsTrans(t.rows, s.table.rows, BlsRun(s.table, dataType, points[1..], parse).table.rows);
      }
    }
  }

  /** Starting from a table without duplicate `(data_type, date)` keys, the
      reconciler creates none. */
  lemma KeepsNoDuplicateKeys(t: Table, dataType: string, seriesData: Option<seq<BlsPoint>>, parse: string -> Option<real>)
    requires NoDuplicateKeys(t.rows)
    ensures NoDuplicateKeys(BlsOutcome(t, dataType, seriesData, parse).table.rows)
  {
    if seriesData.Some? {
      RunShape(t, dataType, seriesData.value, parse);
    }
  }

  /** A row of another series, or of a date no non-blank point is filed
      under, is never modified. */
  lemma {:induction false} LeavesOtherRows(t: Table, dataType: string, points: seq<BlsPoint>, parse: string -> Option<real>, i: nat)
    requires ValidTable(t) && i < |t.rows|
    requires t.rows[i].dataType != dataType || DateNotIn(t.rows[i].date, points)
    ensures var o := BlsRun(t, dataType, points, parse);
      i < |o.table.rows| && o.table.rows[i] == t.rows[i]
    decreases |points|
  {
    if points != [] {
      var s := BlsStep(t, dataType, points[0], parse);
      StepLeavesOtherRows(t, dataType, points[0], parse, i);
      StepShape(t, dataType, points[0], parse);
      StepKeepsValid(t, dataType, points[0], parse);
      if s.action != ParseFailed {
        LeavesOtherRows(s.table, dataType, points[1..], parse, i);
      }
    }
  }

  /** The lookup of a key no point of the series is filed under answers the
      same after the run as before it. */
  lemma {:induction false} KeepsOtherLookups(t: Table, dataType: string, points: seq<BlsPoint>, parse: string -> Option<real>,
                                             otherType: string, otherDate: string)
    requires ValidTable(t)
    requires otherType != dataType || DateNotIn(otherDate, points)
    ensures FindRow(BlsRun(t, dataType, points, parse).table.rows, otherType, otherDate) == FindRow(t.rows, otherType, otherDate)
    decreases |points|
  {
    if points != [] {
      var s := BlsStep(t, dataType, points[0], parse);
      StepKeepsOtherLookups(t, dataType, points[0], parse, otherType, otherDate);
      StepShape(t, dataType, points[0], parse);
      StepKeepsValid(t, dataType, points[0], parse);
      if s.action != ParseFailed {
        KeepsOtherLookups(s.table, dataType, points[1..], parse, otherType, otherDate);
      }
    }
  }

  /** Every lookup and insert of the run is for the reconciled series: a run
      for one series never reads or inserts a row of another. */
  lemma {:induction false} CallsStayInSeries(t: Table, dataType: string, points: seq<BlsPoint>, parse: string -> Option<real>)
    ensures InSeries(BlsRun(t, dataType, points, parse).calls, dataType)
    decreases |points|
  {
    if points != [] {
      var s := BlsStep(t, dataType, points[0], parse);
      assert InSeries(s.calls, dataType);
      if s.action != ParseFailed {
        var rest := BlsRun(s.table, dataType, points[1..], parse);
        CallsStayInSeries(s.table, dataType, points[1..], parse);
        assert BlsRun(t, dataType, points, parse).calls == s.calls + rest.calls;
      }
    }
  }

  /** Whether a run ends with a parse error depends on the points alone. */
  lemma {:induction false} FailureIgnoresTable(t: Table, u: Table, dataType: string, points: seq<BlsPoint>, parse: string -> Option<real>)
    ensures BlsRun(t, dataType, points, parse).failed == BlsRun(u, dataType, points, parse).failed
    decreases |points|
  {
    if points != [] {
      var s := BlsStep(t, dataType, points[0], parse);
      var s' := BlsStep(u, dataType, points[0], parse);
      if s.action != ParseFailed {
        FailureIgnoresTable(s.table, s'.table, dataType, points[1..], parse);
      }
    }
  }

  /** Every point up to the first parse error finds its value already
      stored (or is blank). */
  ghost predicate Settled(t: Table, dataType: string, points: seq<BlsPoint>, parse: string -> Option<real>)
    decreases |points|
  {
    points != [] ==>
      var a := BlsStep(t, dataType, points[0], parse).action;
      a == ParseFailed || ((a == Skipped || a == Unchanged) && Settled(t, dataType, points[1..], parse))
  }

  /** A run over a settled table changes nothing and counts nothing. */
  lemma {:induction false} SettledRunIsInert(t: Table, dataType: string, points: seq<BlsPoint>, parse: string -> Option<real>)
    requires Settled(t, dataType, points, parse)
    ensures var o := BlsRun(t, dataType, points, parse);
      o.table == t && o.inserted == 0 && o.updated == 0
    decreases |points|
  {
    if points != [] && BlsStep(t, dataType, points[0], parse).action != ParseFailed {
      SettledRunIsInert(t, dataType, points[1..], parse);
    }
  }

  lemma DistinctDatesTail(points: seq<BlsPoint>)
    requires points != [] && DistinctDates(points)
    ensures DistinctDates(points[1..])
    ensures !IsBlankValue(points[0].value) ==> DateNotIn(PointDate(points[0]), points[1..])
  {
    var tail := points[1..];
    forall i, j | 0 <= i < j < |tail| && !IsBlankValue(tail[i].value) && !IsBlankValue(tail[j].value)
      ensures PointDate(tail[i]) != PointDate(tail[j])
    {
      assert tail[i] == points[i + 1] && tail[j] == points[j + 1];
    }
    if !IsBlankValue(points[0].value) {
      forall k | 0 <= k < |tail| && !IsBlankValue(tail[k].value)
        ensures PointDate(tail[k]) != PointDate(points[0])
      {
        assert tail[k] == points[k + 1];
      }
    }
  }

  /** After a run over points with distinct dates, the table is settled
      for those points. */
  lemma {:induction false} RunSettles(t: Table, dataType: string, points: seq<BlsPoint>, parse: string -> Option<real>)
    requires ValidTable(t) && DistinctDates(points)
    ensures Settled(BlsRun(t, dataType, points, parse).table, dataType, points, parse)
    decreases |points|
  {
    if points != [] {
      var p := points[0];
      var s := BlsStep(t, dataType, p, parse);
      if s.action != ParseFailed {
        StepShape(t, dataType, p, parse);
        StepKeepsValid(t, dataType, p, parse);
        DistinctDatesTail(points);
        RunSettles(s.table, dataType, points[1..], parse);
        var o := BlsRun(s.table, dataType, points[1..], parse);
        if !IsBlankValue(p.value) {
          var v := parse(p.value.value).value;
          StepSettlesItsDate(t, dataType, p, parse, v);
          KeepsOtherLookups(s.table, dataType, points[1..], parse, dataType, PointDate(p));
        }
        assert BlsStep(o.table, dataType, p, parse).action == Skipped || BlsStep(o.table, dataType, p, parse).action == Unchanged;
      }
    }
  }

  /** Idempotent re-runs: when the series' non-blank points fall on distinct
      dates, running the reconciler again on the table it produced changes no
      row, counts no insert and no update, and fails exactly when the first
      run did. */
  lemma RerunChangesNothing(t: Table, dataType: string, seriesData: Option<seq<BlsPoint>>, parse: string -> Option<real>)
    requires ValidTable(t)
    requires seriesData.Some? ==> DistinctDates(seriesData.value)
    ensures var o := BlsOutcome(t, dataType, seriesData, parse);
      var again := BlsOutcome(o.table, dataType, seriesData, parse);
      again.table == o.table && again.inserted == 0 && again.updated == 0 && again.failed == o.failed
  {
    if seriesData.Some? && seriesData.value != [] {
      var points := seriesData.value;
      var o := BlsRun(t, dataType, points, parse);
      RunSettles(t, dataType, points, parse);
      SettledRunIsInert(o.table, dataType, points, parse);
      FailureIgnoresTable(t, o.table, dataType, points, parse);
    }
  }
}
