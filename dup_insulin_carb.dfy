/** `pre-process/dup-insulin_carb.py`: consecutive `insulin_carb_2` rows that
    share a `date_time` are compared field by field, and the pairs of
    interesting values that disagree are reported.  The printed lines are
    returned as reports. */
module DupInsulinCarb {
  import opened Common

  /** A column value: SQL `NULL`, a string or a number. */
  datatype Value = Null | Text(s: string) | Num(x: real)

  /** Not `None`, not `''` and not zero. */
  predicate Interesting(v: Value) { v != Null && v != Text("") && v != Num(0.0) }

  datatype Field = BasalAmt | BolusType | BolusVolume | Duration | Carbs | Notes

  /** The fields compared, in the order `'basal_amt bolus_type bolus_volume
      duration carbs notes'.split()` gives. */
  const Compared: seq<Field> := [BasalAmt, BolusType, BolusVolume, Duration, Carbs, Notes]

  datatype DupRow = DupRow(
    dateTime: int, recNum: int, basalAmt: Value, bolusType: Value,
    bolusVolume: Value, duration: Value, carbs: Value, notes: Value)

  function Get(row: DupRow, f: Field): Value
  {
    match f
    case BasalAmt => row.basalAmt
    case BolusType => row.bolusType
    case BolusVolume => row.bolusVolume
    case Duration => row.duration
    case Carbs => row.carbs
    case Notes => row.notes
  }

  /** One printed line: the time, both `rec_num`s, the field and both
      values. */
  datatype Disagreement = Disagreement(
    dateTime: int, prevRecNum: int, recNum: int, field: Field, prevValue: Value, value: Value)

  predicate Disagrees(prev: DupRow, row: DupRow, f: Field)
  {
    Interesting(Get(prev, f)) && Interesting(Get(row, f)) && Get(prev, f) != Get(row, f)
  }

  /** The disagreements of `row` with `prev` over `fields`, in order. */
  function FieldReports(prev: DupRow, row: DupRow, fields: seq<Field>): seq<Disagreement>
    decreases |fields|
  {
    if fields == [] then []
    else
      var f := fields[|fields| - 1];
      FieldReports(prev, row, fields[..|fields| - 1]) +
      (if Disagrees(prev, row, f) then [Disagreement(row.dateTime, prev.recNum, row.recNum, f, Get(prev, f), Get(row, f))] else [])
  }

  /** The reports from `prev` on: a row at a new time becomes `prev`; a
      row at `prev`'s time is compared with it and `prev` is kept. */
  function DupScan(prev: DupRow, rows: seq<DupRow>): seq<Disagreement>
    decreases |rows|
  {
    if rows == [] then []
    else if prev.dateTime != rows[0].dateTime then DupScan(rows[0], rows[1..])
    else FieldReports(prev, rows[0], Compared) + DupScan(prev, rows[1..])
  }

  /** The inner `for field in ...` loop. */
  method CompareFields(prev: DupRow, row: DupRow) returns (found: seq<Disagreement>)
    ensures found == FieldReports(prev, row, Compared)
  {
    found := [];
    for j := 0 to |Compared|
      invariant found == FieldReports(prev, row, Compared[..j])
    {
      var field := Compared[j];
      assert Compared[..j + 1][..j] == Compared[..j];
      if Interesting(Get(prev, field)) && Interesting(Get(row, field)) && Get(prev, field) != Get(row, field) {
        found := found + [Disagreement(row.dateTime, prev.recNum, row.recNum, field, Get(prev, field), Get(row, field))];
      }
    }
    assert Compared[..|Compared|] == Compared;
  }

  /** `check_dups()`: the first row becomes `prev` (an empty result makes
      `rows.next()` raise `StopIteration`) and the remaining rows are
      scanned. */
  method CheckDups(rows: seq<DupRow>) returns (r: Result<seq<Disagreement>>)
    ensures rows == [] ==> r == Err(StopIteration)
    ensures rows != [] ==> r == Ok(DupScan(rows[0], rows[1..]))
  {
    if |rows| == 0 {
      return Err(StopIteration);
    }
    var prev := rows[0];
    var allrows := rows[1..];
    var reports: seq<Disagreement> := [];
    var i := 0;
    while i < |allrows|
      invariant i <= |allrows|
      invariant DupScan(rows[0], allrows) == reports + DupScan(prev, allrows[i..])
    {
      var row := allrows[i];
      assert allrows[i..][1..] == allrows[i + 1..];
      if prev.dateTime != row.dateTime {
        prev := row;
      } else {
        var found := CompareFields(prev, row);
        assert reports + (found + DupScan(prev, allrows[i + 1..])) == (reports + found) + DupScan(prev, allrows[i + 1..]);
        reports := reports + found;
      }
      i := i + 1;
    }
    assert allrows[i..] == [] && reports + [] == reports;
    return Ok(reports);
  }

  lemma {:induction false} FieldReportsMeaning(prev: DupRow, row: DupRow, fields: seq<Field>)
    ensures forall d :: d in FieldReports(prev, row, fields) ==>
      d.field in fields && d.dateTime == row.dateTime && d.prevRecNum == prev.recNum && d.recNum == row.recNum &&
      d.prevValue == Get(prev, d.field) && d.value == Get(row, d.field) && Disagrees(prev, row, d.field)
    decreases |fields|
  {
    if fields != [] {
      FieldReportsMeaning(prev, row, fields[..|fields| - 1]);
    }
  }

  /** A field is reported exactly when both values are interesting and
      differ. */
  lemma {:induction false} FieldReportsComplete(prev: DupRow, row: DupRow, fields: seq<Field>, f: Field)
    requires f in fields && Disagrees(prev, row, f)
    ensures Disagreement(row.dateTime, prev.recNum, row.recNum, f, Get(prev, f), Get(row, f)) in FieldReports(prev, row, fields)
    decreases |fields|
  {
    if fields[|fields| - 1] != f {
      assert f in fields[..|fields| - 1];
      FieldReportsComplete(prev, row, fields[..|fields| - 1], f);
    }
  }

  /** Every report is a disagreement between two interesting values of one
      of the six compared fields, at one time. */
  lemma {:induction false} ReportsAreDisagreements(prev: DupRow, rows: seq<DupRow>)
    ensures forall d :: d in DupScan(prev, rows) ==>
      d.field in Compared && Interesting(d.prevValue) && Interesting(d.value) && d.prevValue != d.value
    decreases |rows|
  {
    if rows != [] {
      if prev.dateTime != rows[0].dateTime {
        ReportsAreDisagreements(rows[0], rows[1..]);
      } else {
        FieldReportsMeaning(prev, rows[0], Compared);
        ReportsAreDisagreements(prev, rows[1..]);
      }
    }
  }

  /** Within a run of rows at one time, every row is compared with the
      run's first row. */
  lemma {:induction false} RunComparedWithFirst(prev: DupRow, rows: seq<DupRow>)
    requires forall k :: 0 <= k < |rows| ==> rows[k].dateTime == prev.dateTime
    ensures forall d :: d in DupScan(prev, rows) ==> d.prevRecNum == prev.recNum && d.dateTime == prev.dateTime
    decreases |rows|
  {
    if rows != [] {
      FieldReportsMeaning(prev, rows[0], Compared);
      RunComparedWithFirst(prev, rows[1..]);
    }
  }

  /** Rows whose times all differ from their predecessor's give no
      reports. */
  lemma {:induction false} DistinctTimesNoReports(prev: DupRow, rows: seq<DupRow>)
    requires rows != [] ==> rows[0].dateTime != prev.dateTime
    requires forall k :: 1 <= k < |rows| ==> rows[k].dateTime != rows[k - 1].dateTime
    ensures DupScan(prev, rows) == []
    decreases |rows|
  {
    if rows != [] {
      forall k | 1 <= k < |rows| - 1
        ensures rows[1..][k].dateTime != rows[1..][k - 1].dateTime
      {
        assert rows[1..][k] == rows[k + 1] && rows[1..][k - 1] == rows[k];
      }
      DistinctTimesNoReports(rows[0], rows[1..]);
    }
  }
}
