/** `pre-process/no-basal-changes.py`: gaps of more than `time_delay`
    between consecutive `insulin_carb_2` rows that have a basal amount.  The
    rows (ordered by `date_time`, in whole seconds) are the input; the
    printed report is left out and each `basal_gap = 1` update is recorded as
    the `rec_num` it writes. */
module NoBasalChanges {
  import opened Common

  datatype BasalRow = BasalRow(basalAmt: Option<real>, dateTime: int, recNum: int)

  predicate HasBasal(row: BasalRow) { row.basalAmt.Some? }

  /** The gaps found from `prev` on: rows without a basal amount are
      skipped; the first row with one becomes `prev` when there is none; a
      row more than `delay` after `prev` records `prev`; the row then becomes
      `prev`. */
  function GapScan(prev: Option<BasalRow>, rows: seq<BasalRow>, delay: int): seq<BasalRow>
    decreases |rows|
  {
    if rows == [] then []
    else
      var row := rows[0];
      if row.basalAmt.None? then GapScan(prev, rows[1..], delay)
      else
        var p := if prev.None? then row else prev.value;
        (if row.dateTime - p.dateTime > delay then [p] else []) + GapScan(Some(row), rows[1..], delay)
  }

  function RecNums(rows: seq<BasalRow>): (r: seq<int>)
    ensures |r| == |rows| && forall k :: 0 <= k < |rows| ==> r[k] == rows[k].recNum
  {
    seq(|rows|, k requires 0 <= k < |rows| => rows[k].recNum)
  }

  /** `no_basal_changes(time_delay, update)`: the gaps, and in update mode
      the rows marked.  The `NULL value got through` raise cannot happen. */
  method NoBasalChanges(rows: seq<BasalRow>, timeDelay: int, update: bool) returns (gaps: seq<BasalRow>, writes: seq<int>)
    ensures gaps == GapScan(None, rows, timeDelay)
    ensures writes == (if update then RecNums(gaps) else [])
  {
    gaps := [];
    writes := [];
    var prev: Option<BasalRow> := None;
    var i := 0;
    while i < |rows|
      invariant i <= |rows|
      invariant prev.Some? ==> HasBasal(prev.value)
      invariant GapScan(None, rows, timeDelay) == gaps + GapScan(prev, rows[i..], timeDelay)
      invariant writes == (if update then RecNums(gaps) else [])
    {
      var row := rows[i];
      assert rows[i..][1..] == rows[i + 1..];
      if row.basalAmt.None? {
        i := i + 1;
        continue;
      }
      if prev.None? {
        prev := Some(row);
      }
      if row.basalAmt.None? || prev.value.basalAmt.None? {
        // `raise Exception('NULL value got through')`
        assert false;
      }
      var p := prev.value;
      ghost var rest := GapScan(Some(row), rows[i + 1..], timeDelay);
      if row.dateTime - p.dateTime > timeDelay {
        assert gaps + ([p] + rest) == (gaps + [p]) + rest;
        gaps := gaps + [p];
        if update {
          writes := writes + [p.recNum];
        }
      } else {
        assert gaps + ([] + rest) == gaps + rest;
      }
      prev := Some(row);
      i := i + 1;
    }
  }

  /** The reference reading: the earlier row of each pair of consecutive
      rows that lie more than `delay` apart. */
  function PairGaps(rows: seq<BasalRow>, delay: int): seq<BasalRow>
    decreases |rows|
  {
    if |rows| < 2 then []
    else (if rows[1].dateTime - rows[0].dateTime > delay then [rows[0]] else []) + PairGaps(rows[1..], delay)
  }

  lemma {:induction false} GapScanFrom(p: BasalRow, rows: seq<BasalRow>, delay: int)
    ensures GapScan(Some(p), rows, delay) == PairGaps([p] + Filter(rows, HasBasal), delay)
    decreases |rows|
  {
    if rows != [] {
      GapScanFrom(if HasBasal(rows[0]) then rows[0] else p, rows[1..], delay);
      var basal := [p] + Filter(rows, HasBasal);
      if HasBasal(rows[0]) {
        assert Filter(rows, HasBasal) == [rows[0]] + Filter(rows[1..], HasBasal);
        assert basal[1] == rows[0] && basal[1..] == [rows[0]] + Filter(rows[1..], HasBasal);
      } else {
        assert Filter(rows, HasBasal) == Filter(rows[1..], HasBasal);
      }
    }
  }

  /** Gaps are measured between consecutive rows that have a basal amount,
      strictly more than `delay` apart.  The first such row has nothing
      before it to measure from, so it is recorded only when `delay` is
      negative. */
  lemma {:induction false} GapScanReference(rows: seq<BasalRow>, delay: int)
    ensures var basal := Filter(rows, HasBasal);
      GapScan(None, rows, delay) == (if delay < 0 && basal != [] then [basal[0]] else []) + PairGaps(basal, delay)
    decreases |rows|
  {
    if rows != [] {
      if HasBasal(rows[0]) {
        GapScanFrom(rows[0], rows[1..], delay);
        assert Filter(rows, HasBasal) == [rows[0]] + Filter(rows[1..], HasBasal);
      } else {
        GapScanReference(rows[1..], delay);
        assert Filter(rows, HasBasal) == Filter(rows[1..], HasBasal);
      }
    }
  }

  lemma {:induction false} PairGapsMembers(rows: seq<BasalRow>, delay: int)
    ensures forall g :: g in PairGaps(rows, delay) ==> g in rows
    decreases |rows|
  {
    if |rows| >= 2 {
      PairGapsMembers(rows[1..], delay);
    }
  }

  /** Every gap recorded is a row with a basal amount. */
  lemma GapsHaveBasal(rows: seq<BasalRow>, delay: int)
    ensures forall g :: g in GapScan(None, rows, delay) ==> g in rows && HasBasal(g)
  {
    GapScanReference(rows, delay);
    FilterMembers(rows, HasBasal);
    PairGapsMembers(Filter(rows, HasBasal), delay);
  }
}
