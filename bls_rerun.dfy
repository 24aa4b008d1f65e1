/** Re-running update_or_insert_bls on the table its first run left changes
    no row and inserts nothing, whatever dates the points share. The proof
    follows one row at a time: a run touches a row only through the points
    filed under that row's date, and on a single row the series is
    idempotent. */
module BlsRerun {
  import opened Payload
  import opened Normalize
  import opened Store
  import opened Reconcile
  import opened BlsProperties

  /** `float` raises on this point's value: the loop ends here. */
  predicate Fails(point: BlsPoint, parse: string -> Option<real>) {
    !IsBlankValue(point.value) && parse(point.value.value).None?
  }

  /** A point stops the run exactly when `float` raises on its value. */
  lemma FailsIffParseFailed(t: Table, dataType: string, point: BlsPoint, parse: string -> Option<real>)
    ensures BlsStep(t, dataType, point, parse).action == ParseFailed <==> Fails(point, parse)
  {
  }

  /** What one point does to a row of its series: a non-blank value filed
      under the row's date that differs from the stored average rewrites
      average, high, low and raw data. */
  function RowStep(row: Row, point: BlsPoint, parse: string -> Option<real>): (r: Row)
    ensures SameIdAndKey(row, r)
  {
    if IsBlankValue(point.value) then row
    else match parse(point.value.value)
      case None => row
      case Some(v) =>
        if PointDate(point) == row.date && row.average != v then Revised(row, v, v, v, BlsRaw(point)) else row
  }

  /** The points up to the first parse error, applied to one row. */
  function RowRun(row: Row, points: seq<BlsPoint>, parse: string -> Option<real>): (r: Row)
    ensures SameIdAndKey(row, r)
    decreases |points|
  {
    if points == [] || Fails(points[0], parse) then row
    else RowRun(RowStep(row, points[0], parse), points[1..], parse)
  }

  /** Row `i` is the row the series finds when it looks up that row's date. */
  predicate IsFirstMatch(t: Table, dataType: string, i: nat)
    requires i < |t.rows|
  {
    t.rows[i].dataType == dataType && FirstMatch(t.rows, dataType, t.rows[i].date) == i
  }

  // ---------------------------------------------------------------------
  // One row

  /** Two versions of a row with the same id, key and average are written by
      the same points: they end equal, or neither is written at all. */
  lemma {:induction false} SameAverageSameWrites(a: Row, b: Row, points: seq<BlsPoint>, parse: string -> Option<real>)
    requires SameIdAndKey(a, b) && a.average == b.average
    ensures RowRun(a, points, parse) == RowRun(b, points, parse)
         || (RowRun(a, points, parse) == a && RowRun(b, points, parse) == b)
    decreases |points|
  {
    if points != [] && !Fails(points[0], parse) {
      var a' := RowStep(a, points[0], parse);
      var b' := RowStep(b, points[0], parse);
      if a' == a && b' == b {
        SameAverageSameWrites(a, b, points[1..], parse);
      } else {
        assert a' == b';
      }
    }
  }

  /** On one row the series is idempotent: applying it to the row it left
      changes nothing. */
  lemma {:induction false} RowRunIdempotent(row: Row, points: seq<BlsPoint>, parse: string -> Option<real>)
    ensures RowRun(RowRun(row, points, parse), points, parse) == RowRun(row, points, parse)
    decreases |points|
  {
    if points != [] && !Fails(points[0], parse) {
      var p := points[0];
      var z := RowStep(row, p, parse);
      var y := RowRun(z, points[1..], parse);
      RowRunIdempotent(z, points[1..], parse);
      var w := RowStep(y, p, parse);
      if w != y {
        // p is filed under the row's date and its value differs from y's
        // average, while z already holds that value.
        var v := parse(p.value.value).value;
        assert PointDate(p) == row.date && w.average == v && y.average != v && z.average == v;
        SameAverageSameWrites(z, w, points[1..], parse);
      }
    }
  }

  /** A row that point `p` has just inserted ends, when the series is
      repeated from `p` on, as the first pass left it. */
  lemma InsertedRowSettles(ins: Row, p: BlsPoint, rest: seq<BlsPoint>, parse: string -> Option<real>)
    requires !IsBlankValue(p.value) && parse(p.value.value).Some?
    requires var v := parse(p.value.value).value;
      ins == Row(ins.id, ins.dataType, PointDate(p), v, v, v, BlsRaw(p))
    ensures RowRun(RowRun(ins, rest, parse), [p] + rest, parse) == RowRun(ins, rest, parse)
  {
    assert ([p] + rest)[0] == p && ([p] + rest)[1..] == rest;
    RowRunIdempotent(ins, rest, parse);
  }

  /** Points that are blank or filed under other dates leave a row alone. */
  lemma {:induction false} OtherDatesPass(row: Row, before: seq<BlsPoint>, after: seq<BlsPoint>, parse: string -> Option<real>)
    requires forall k :: 0 <= k < |before| && !IsBlankValue(before[k].value) ==>
      parse(before[k].value.value).Some? && PointDate(before[k]) != row.date
    ensures RowRun(row, before + after, parse) == RowRun(row, after, parse)
    decreases |before|
  {
    if before == [] {
      assert before + after == after;
    } else {
      assert (before + after)[0] == before[0] && (before + after)[1..] == before[1..] + after;
      assert !Fails(before[0], parse) && RowStep(row, before[0], parse) == row;
      assert RowRun(row, before + after, parse) == RowRun(row, before[1..] + after, parse);
      OtherDatesPass(row, before[1..], after, parse);
    }
  }

  // ---------------------------------------------------------------------
  // From the table to one row

  /** One point applies RowStep to every row the series finds under its own
      date, and that row stays the one found. */
  lemma StepOnFirstMatch(t: Table, dataType: string, point: BlsPoint, parse: string -> Option<real>, i: nat)
    requires ValidTable(t) && i < |t.rows| && IsFirstMatch(t, dataType, i)
    requires !Fails(point, parse)
    ensures var u := BlsStep(t, dataType, point, parse).table;
      i < |u.rows| && u.rows[i] == RowStep(t.rows[i], point, parse) && IsFirstMatch(u, dataType, i)
  {
    var u := BlsStep(t, dataType, point, parse).table;
    StepShape(t, dataType, point, parse);
    if IsBlankValue(point.value) || !HasKey(t.rows[i], dataType, PointDate(point)) {
      StepLeavesOtherRows(t, dataType, point, parse, i);
    } else {
      var v := parse(point.value.value).value;
      if t.rows[i].average != v {
        UpdateAt(t, i, v, v, v, BlsRaw(point));
      }
    }
    assert SameIdAndKey(t.rows[i], u.rows[i]);
    FirstMatchExtends(t.rows, u.rows, dataType, t.rows[i].date);
  }

  /** One point leaves alone every row the series does not find under its
      own date (another data type, or a later row with a repeated key), and
      the row stays unfound. */
  lemma StepLeavesUnfound(t: Table, dataType: string, point: BlsPoint, parse: string -> Option<real>, i: nat)
    requires ValidTable(t) && i < |t.rows| && !IsFirstMatch(t, dataType, i)
    ensures var u := BlsStep(t, dataType, point, parse).table;
      i < |u.rows| && u.rows[i] == t.rows[i] && !IsFirstMatch(u, dataType, i)
  {
    var u := BlsStep(t, dataType, point, parse).table;
    StepShape(t, dataType, point, parse);
    var row := t.rows[i];
    if IsBlankValue(point.value) || !HasKey(row, dataType, PointDate(point)) {
      StepLeavesOtherRows(t, dataType, point, parse, i);
    } else {
      var k := FirstMatch(t.rows, dataType, row.date);
      match parse(point.value.value)
      case None =>
      case Some(v) =>
        if t.rows[k].average != v {
          UpdateAt(t, k, v, v, v, BlsRaw(point));
        }
    }
    if row.dataType == dataType {
      FirstMatchExtends(t.rows, u.rows, dataType, row.date);
    }
  }

  /** A run leaves every row its series finds as RowRun leaves that row. */
  lemma {:induction false} RunOnFirstMatch(t: Table, dataType: string, points: seq<BlsPoint>, parse: string -> Option<real>, i: nat)
    requires ValidTable(t) && i < |t.rows| && IsFirstMatch(t, dataType, i)
    ensures var u := BlsRun(t, dataType, points, parse).table;
      i < |u.rows| && u.rows[i] == RowRun(t.rows[i], points, parse)
    decreases |points|
  {
    if points != [] {
      FailsIffParseFailed(t, dataType, points[0], parse);
      if !Fails(points[0], parse) {
        var s := BlsStep(t, dataType, points[0], parse);
        StepOnFirstMatch(t, dataType, points[0], parse, i);
        StepKeepsValid(t, dataType, points[0], parse);
        RunOnFirstMatch(s.table, dataType, points[1..], parse, i);
      }
    }
  }

  /** A run leaves every row its series does not find as it was. */
  lemma {:induction false} RunLeavesUnfound(t: Table, dataType: string, points: seq<BlsPoint>, parse: string -> Option<real>, i: nat)
    requires ValidTable(t) && i < |t.rows| && !IsFirstMatch(t, dataType, i)
    ensures var u := BlsRun(t, dataType, points, parse).table;
      i < |u.rows| && u.rows[i] == t.rows[i]
    decreases |points|
  {
    if points != [] {
      FailsIffParseFailed(t, dataType, points[0], parse);
      if !Fails(points[0], parse) {
        var s := BlsStep(t, dataType, points[0], parse);
        StepLeavesUnfound(t, dataType, points[0], parse, i);
        StepKeepsValid(t, dataType, points[0], parse);
        RunLeavesUnfound(s.table, dataType, points[1..], parse, i);
      }
    }
  }

  // ---------------------------------------------------------------------
  // No inserts on the second run

  /** Every point up to the first parse error is blank or finds a row for
      its date in `t`. */
  ghost predicate FoundAll(t: Table, dataType: string, points: seq<BlsPoint>, parse: string -> Option<real>)
    decreases |points|
  {
    points != [] && !Fails(points[0], parse) ==>
      && (IsBlankValue(points[0].value) || FindRow(t.rows, dataType, PointDate(points[0])).Some?)
      && FoundAll(t, dataType, points[1..], parse)
  }

  /** Rows that are found stay found when the table is extended. */
  lemma {:induction false} FoundAllExtends(t: Table, u: Table, dataType: string, points: seq<BlsPoint>, parse: string -> Option<real>)
    requires Extends(t.rows, u.rows) && FoundAll(t, dataType, points, parse)
    ensures FoundAll(u, dataType, points, parse)
    decreases |points|
  {
    if points != [] && !Fails(points[0], parse) {
      if !IsBlankValue(points[0].value) {
        FirstMatchExtends(t.rows, u.rows, dataType, PointDate(points[0]));
      }
      FoundAllExtends(t, u, dataType, points[1..], parse);
    }
  }

  /** After a run, every point it handled finds a row for its date. */
  lemma {:induction false} RunFindsAll(t: Table, dataType: string, points: seq<BlsPoint>, parse: string -> Option<real>)
    ensures FoundAll(BlsRun(t, dataType, points, parse).table, dataType, points, parse)
    decreases |points|
  {
    if points != [] {
      FailsIffParseFailed(t, dataType, points[0], parse);
      if !Fails(points[0], parse) {
        var s := BlsStep(t, dataType, points[0], parse);
        var o := BlsRun(s.table, dataType, points[1..], parse);
        RunFindsAll(s.table, dataType, points[1..], parse);
        if !IsBlankValue(points[0].value) {
          StepSettlesItsDate(t, dataType, points[0], parse, parse(points[0].value.value).value);
          RunShape(s.table, dataType, points[1..], parse);
          FirstMatchExtends(s.table.rows, o.table.rows, dataType, PointDate(points[0]));
        }
      }
    }
  }

  /** A run in which every point finds its row inserts nothing. */
  lemma {:induction false} FoundAllInsertsNothing(t: Table, dataType: string, points: seq<BlsPoint>, parse: string -> Option<real>)
    requires FoundAll(t, dataType, points, parse)
    ensures BlsRun(t, dataType, points, parse).inserted == 0
    decreases |points|
  {
    if points != [] {
      FailsIffParseFailed(t, dataType, points[0], parse);
      if !Fails(points[0], parse) {
        var s := BlsStep(t, dataType, points[0], parse);
        StepShape(t, dataType, points[0], parse);
        FoundAllExtends(t, s.table, dataType, points[1..], parse);
        FoundAllInsertsNothing(s.table, dataType, points[1..], parse);
      }
    }
  }

  // ---------------------------------------------------------------------
  // The rows the first run leaves are fixed points

  /** The points in `done` each blank or parsable with a row for their date. */
  ghost predicate DoneFound(t: Table, dataType: string, done: seq<BlsPoint>, parse: string -> Option<real>) {
    forall k :: 0 <= k < |done| && !IsBlankValue(done[k].value) ==>
      parse(done[k].value.value).Some? && FindRow(t.rows, dataType, PointDate(done[k])).Some?
  }

  /** Every row `t` finds for the series ends, when the whole series
      `done + points` is applied to what the rest of the run leaves in it,
      as the rest of the run left it. */
  ghost predicate FirstMatchesStable(t: Table, dataType: string, done: seq<BlsPoint>, points: seq<BlsPoint>, parse: string -> Option<real>) {
    forall i :: 0 <= i < |t.rows| && IsFirstMatch(t, dataType, i) ==>
      RowRun(RowRun(t.rows[i], points, parse), done + points, parse) == RowRun(t.rows[i], points, parse)
  }

  /** One point further: the row found at `i` after the first of `points`
      keeps the FirstMatchesStable property. */
  lemma FirstMatchStableAfterStep(t: Table, dataType: string, done: seq<BlsPoint>, points: seq<BlsPoint>, parse: string -> Option<real>, i: nat)
    requires ValidTable(t) && DoneFound(t, dataType, done, parse) && FirstMatchesStable(t, dataType, done, points, parse)
    requires points != [] && !Fails(points[0], parse)
    requires var u := BlsStep(t, dataType, points[0], parse).table;
      i < |u.rows| && IsFirstMatch(u, dataType, i)
    ensures var u := BlsStep(t, dataType, points[0], parse).table;
      RowRun(RowRun(u.rows[i], points[1..], parse), done + [points[0]] + points[1..], parse) == RowRun(u.rows[i], points[1..], parse)
  {
    var p := points[0];
    var rest := points[1..];
    var u := BlsStep(t, dataType, p, parse).table;
    assert points == [p] + rest;
    assert done + [p] + rest == done + points;
    StepShape(t, dataType, p, parse);
    if i < |t.rows| {
      FirstMatchWithin(t.rows, u.rows, dataType, u.rows[i].date);
      assert SameIdAndKey(t.rows[i], u.rows[i]);
      assert IsFirstMatch(t, dataType, i);
      StepOnFirstMatch(t, dataType, p, parse, i);
    } else {
      var v := parse(p.value.value).value;
      var ins := u.rows[i];
      assert FindRow(t.rows, dataType, PointDate(p)).None?;
      InsertWhenAbsent(t, dataType, p, parse, v);
      forall k | 0 <= k < |done| && !IsBlankValue(done[k].value)
        ensures parse(done[k].value.value).Some? && PointDate(done[k]) != ins.date
      {
      }
      OtherDatesPass(RowRun(ins, rest, parse), done, [p] + rest, parse);
      InsertedRowSettles(ins, p, rest, parse);
    }
  }

  /** One point further, the handled points still find their rows. */
  lemma DoneFoundAfterStep(t: Table, dataType: string, done: seq<BlsPoint>, p: BlsPoint, parse: string -> Option<real>)
    requires DoneFound(t, dataType, done, parse) && !Fails(p, parse)
    ensures DoneFound(BlsStep(t, dataType, p, parse).table, dataType, done + [p], parse)
  {
    var u := BlsStep(t, dataType, p, parse).table;
    var done' := done + [p];
    StepShape(t, dataType, p, parse);
    forall k | 0 <= k < |done'| && !IsBlankValue(done'[k].value)
      ensures parse(done'[k].value.value).Some? && FindRow(u.rows, dataType, PointDate(done'[k])).Some?
    {
      if k < |done| {
        FirstMatchExtends(t.rows, u.rows, dataType, PointDate(done[k]));
      } else {
        StepSettlesItsDate(t, dataType, p, parse, parse(p.value.value).value);
      }
    }
  }

  /** One point further, every row found keeps the FirstMatchesStable property. */
  lemma FirstMatchesStableAfterStep(t: Table, dataType: string, done: seq<BlsPoint>, points: seq<BlsPoint>, parse: string -> Option<real>)
    requires ValidTable(t) && DoneFound(t, dataType, done, parse) && FirstMatchesStable(t, dataType, done, points, parse)
    requires points != [] && !Fails(points[0], parse)
    ensures FirstMatchesStable(BlsStep(t, dataType, points[0], parse).table, dataType, done + [points[0]], points[1..], parse)
  {
    var u := BlsStep(t, dataType, points[0], parse).table;
    forall i | 0 <= i < |u.rows| && IsFirstMatch(u, dataType, i)
      ensures RowRun(RowRun(u.rows[i], points[1..], parse), done + [points[0]] + points[1..], parse) == RowRun(u.rows[i], points[1..], parse)
    {
      FirstMatchStableAfterStep(t, dataType, done, points, parse, i);
    }
  }

  /** Every row `t` finds for the series is left as it is by `points`. */
  ghost predicate FirstMatchesFixed(t: Table, dataType: string, points: seq<BlsPoint>, parse: string -> Option<real>) {
    forall i :: 0 <= i < |t.rows| && IsFirstMatch(t, dataType, i) ==> RowRun(t.rows[i], points, parse) == t.rows[i]
  }

  /** The induction behind RerunKeepsTable: `done` are the points already
      handled, which left `t`. */
  lemma {:induction false} FirstMatchesSettle(t: Table, dataType: string, done: seq<BlsPoint>, points: seq<BlsPoint>, parse: string -> Option<real>)
    requires ValidTable(t) && DoneFound(t, dataType, done, parse) && FirstMatchesStable(t, dataType, done, points, parse)
    ensures FirstMatchesFixed(BlsRun(t, dataType, points, parse).table, dataType, done + points, parse)
    decreases |points|
  {
    if points == [] {
      assert done + points == done;
    } else if Fails(points[0], parse) {
      FailsIffParseFailed(t, dataType, points[0], parse);
      forall i | 0 <= i < |t.rows| && IsFirstMatch(t, dataType, i)
        ensures RowRun(t.rows[i], done + points, parse) == t.rows[i]
      {
        assert RowRun(t.rows[i], points, parse) == t.rows[i];
      }
    } else {
      var p := points[0];
      var u := BlsStep(t, dataType, p, parse).table;
      var done' := done + [p];
      assert done' + points[1..] == done + points;
      FailsIffParseFailed(t, dataType, p, parse);
      StepKeepsValid(t, dataType, p, parse);
      DoneFoundAfterStep(t, dataType, done, p, parse);
      FirstMatchesStableAfterStep(t, dataType, done, points, parse);
      assert BlsRun(t, dataType, points, parse).table == BlsRun(u, dataType, points[1..], parse).table;
      FirstMatchesSettle(u, dataType, done', points[1..], parse);
    }
  }

  /** Re-running the reconciler with the same series on the table its first
      run left changes no row, inserts nothing, and fails exactly when the
      first run did, whatever dates the points share. */
  lemma RerunKeepsTable(t: Table, dataType: string, seriesData: Option<seq<BlsPoint>>, parse: string -> Option<real>)
    requires ValidTable(t)
    ensures var o := BlsOutcome(t, dataType, seriesData, parse);
      var again := BlsOutcome(o.table, dataType, seriesData, parse);
      again.table == o.table && again.inserted == 0 && again.failed == o.failed
  {
    if seriesData.Some? && seriesData.value != [] {
      var points := seriesData.value;
      var o := BlsRun(t, dataType, points, parse);
      var again := BlsRun(o.table, dataType, points, parse);
      assert [] + points == points;
      forall i | 0 <= i < |t.rows| && IsFirstMatch(t, dataType, i)
        ensures RowRun(RowRun(t.rows[i], points, parse), [] + points, parse) == RowRun(t.rows[i], points, parse)
      {
        RowRunIdempotent(t.rows[i], points, parse);
      }
      FirstMatchesSettle(t, dataType, [], points, parse);
      RunShape(t, dataType, points, parse);
      RunFindsAll(t, dataType, points, parse);
      FoundAllInsertsNothing(o.table, dataType, points, parse);
      RunCounts(o.table, dataType, points, parse);
      forall i | 0 <= i < |o.table.rows|
        ensures again.table.rows[i] == o.table.rows[i]
      {
        if IsFirstMatch(o.table, dataType, i) {
          RunOnFirstMatch(o.table, dataType, points, parse, i);
        } else {
          RunLeavesUnfound(o.table, dataType, points, parse, i);
        }
      }
      assert again.table.rows == o.table.rows;
      FailureIgnoresTable(t, o.table, dataType, points, parse);
    }
  }
}
