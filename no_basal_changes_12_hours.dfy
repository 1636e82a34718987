/** `pre-process/old/no-basal-changes-12-hours.py`: despite its name, a scan
    of `cgm_2` for runs of unchanged `mgdl` lasting more than `time_delay`,
    and the row source it reads from.  Times are whole seconds; the printed
    lines are left out. */
module NoBasalChanges12Hours {
  import opened Common

  datatype CgmRow = CgmRow(mgdl: Option<int>, dateTime: int, recNum: int)

  /** The `where` clause `row_generator` adds for the given date parts:
      none without a year. */
  function DateClause(year: Option<int>, month: Option<int>, day: Option<int>): (c: string)
    ensures c == [] <==> year.None?
  {
    if year.Some? && month.Some? && day.Some? then
      " WHERE year(date_time) = " + IntToString(year.value) +
      " and month(date_time) = " + IntToString(month.value) +
      " and day(date_time)=" + IntToString(day.value)
    else if year.Some? then " WHERE year(date_time) = " + IntToString(year.value)
    else ""
  }

  /** The query `row_generator` runs. */
  function RowQuery(query: string, year: Option<int>, month: Option<int>, day: Option<int>): (r: string)
    ensures |r| >= |query| && r[..|query|] == query
    ensures r == query <==> year.None?
  {
    var c := DateClause(year, month, day);
    assert |query + c| == |query| + |c|;
    query + c
  }

  /** `row_generator(query, conn, pipeIn, year, month, day)`: the rows of
      `pipeIn` when one is given, otherwise the rows `run` returns for the
      query with its date clause. */
  function RowGenerator<T>(query: string, pipeIn: Option<seq<T>>, year: Option<int>, month: Option<int>, day: Option<int>,
                           run: string -> seq<T>): (r: seq<T>)
    ensures pipeIn.Some? ==> r == pipeIn.value
    ensures pipeIn.None? ==> r == run(RowQuery(query, year, month, day))
  {
    if pipeIn.Some? then pipeIn.value else run(RowQuery(query, year, month, day))
  }

  /** The scan from `prev` on: the first row seeds `prev`; a row whose
      `mgdl` differs from `prev`'s replaces it; a row more than `delay`
      after `prev` records `prev`. */
  function MgdlScan(prev: Option<CgmRow>, rows: seq<CgmRow>, delay: int): seq<CgmRow>
    decreases |rows|
  {
    if rows == [] then []
    else
      var row := rows[0];
      var seeded := if prev.None? then row else prev.value;
      var p := if row.mgdl != seeded.mgdl then row else seeded;
      (if row.dateTime - p.dateTime > delay then [p] else []) + MgdlScan(Some(p), rows[1..], delay)
  }

  /** `no_basal_changes(time_delay)`, and `longest_no_basal_changes`, whose
      body is the same. */
  method NoBasalChanges(rows: seq<CgmRow>, timeDelay: int) returns (gaps: seq<CgmRow>)
    ensures gaps == MgdlScan(None, rows, timeDelay)
  {
    gaps := [];
    var prev: Option<CgmRow> := None;
    var i := 0;
    while i < |rows|
      invariant i <= |rows|
      invariant i > 0 ==> prev.Some?
      invariant MgdlScan(None, rows, timeDelay) == gaps + MgdlScan(prev, rows[i..], timeDelay)
    {
      var row := rows[i];
      ghost var prev0 := prev;
      if prev.None? {
        prev := Some(row);
      }
      if row.mgdl != prev.value.mgdl {
        prev := Some(row);
      }
      var p := prev.value;
      ScanStep(prev0, rows, i, timeDelay, p);
      ghost var rest := MgdlScan(Some(p), rows[i + 1..], timeDelay);
      if row.dateTime - p.dateTime > timeDelay {
        ConcatAssoc(gaps, [p], rest);
        gaps := gaps + [p];
      } else {
        assert [] + rest == rest;
      }
      i := i + 1;
    }
  }

  /** One row of the scan from position `i`, which leaves `prev` as `p`. */
  lemma ScanStep(prev: Option<CgmRow>, rows: seq<CgmRow>, i: nat, delay: int, p: CgmRow)
    requires i < |rows|
    requires var seeded := if prev.None? then rows[i] else prev.value;
      p == if rows[i].mgdl != seeded.mgdl then rows[i] else seeded
    ensures MgdlScan(prev, rows[i..], delay)
      == (if rows[i].dateTime - p.dateTime > delay then [p] else []) + MgdlScan(Some(p), rows[i + 1..], delay)
  {
    assert rows[i..][1..] == rows[i + 1..];
  }

  function Later(p: CgmRow, delay: int): CgmRow -> bool
  {
    (row: CgmRow) => row.dateTime - p.dateTime > delay
  }

  function Repeat<T>(x: T, n: nat): (r: seq<T>)
    ensures |r| == n && forall k :: 0 <= k < n ==> r[k] == x
  {
    seq(n, _ => x)
  }

  /** Within one run of unchanged `mgdl`, `prev` stays the run's first row
      and every row more than `delay` after it records it again: a long
      flat run gives the same entry many times. */
  lemma {:induction false} FlatRunRepeats(p: CgmRow, rows: seq<CgmRow>, delay: int)
    requires forall k :: 0 <= k < |rows| ==> rows[k].mgdl == p.mgdl
    ensures MgdlScan(Some(p), rows, delay) == Repeat(p, |Filter(rows, Later(p, delay))|)
    decreases |rows|
  {
    if rows != [] {
      FlatRunRepeats(p, rows[1..], delay);
      var n := |Filter(rows[1..], Later(p, delay))|;
      if Later(p, delay)(rows[0]) {
        assert [p] + Repeat(p, n) == Repeat(p, n + 1);
      } else {
        assert [] + Repeat(p, n) == Repeat(p, n);
      }
    }
  }

  /** So a scan over one flat run records its first row once per row more
      than `delay` after it. */
  lemma FlatScan(rows: seq<CgmRow>, delay: int)
    requires rows != []
    requires forall k :: 0 <= k < |rows| ==> rows[k].mgdl == rows[0].mgdl
    ensures MgdlScan(None, rows, delay) == Repeat(rows[0], |Filter(rows, Later(rows[0], delay))|)
  {
    assert MgdlScan(None, rows, delay) == MgdlScan(Some(rows[0]), rows, delay);
    FlatRunRepeats(rows[0], rows, delay);
  }

  /** Every entry recorded is one of the rows. */
  lemma {:induction false} GapsAreRows(prev: Option<CgmRow>, rows: seq<CgmRow>, delay: int)
    ensures forall g :: g in MgdlScan(prev, rows, delay) ==> g in rows || Some(g) == prev
    decreases |rows|
  {
    if rows != [] {
      var row := rows[0];
      var seeded := if prev.None? then row else prev.value;
      var p := if row.mgdl != seeded.mgdl then row else seeded;
      GapsAreRows(Some(p), rows[1..], delay);
    }
  }
}
