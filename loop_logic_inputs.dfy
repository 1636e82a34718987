/** The self-contained selection rules of autoapp_to_loop_logic_inputs.py:
    the argmin/argmax helpers and their tie rules, the two de-duplication
    passes over command rows, the single-byte flag decoder, the anchor /
    top-up / carb-anchor choices, the "new data since last migration"
    decision and the start time of a migration run. Database reads become
    sequence inputs; timestamps are integer minutes. */
module LoopLogicInputs {
  import opened Common

  // ---------------------------------------------------------------
  // argmin / argmax
  // ---------------------------------------------------------------

  /** Index the forward scan of `argmin` settles on: it replaces the best
      element only on a strictly smaller key, so ties keep the earliest. */
  function ArgminIndex<T>(s: seq<T>, key: T -> int): (i: nat)
    requires |s| > 0
    ensures i < |s|
    decreases |s|
  {
    if |s| == 1 then 0
    else
      var j := ArgminIndex(s[..|s| - 1], key);
      if key(s[|s| - 1]) < key(s[j]) then |s| - 1 else j
  }

  /** The argmin index has the least key, and every earlier element has a
      strictly larger key (the tie rule of the strict `<`). */
  lemma {:induction false} ArgminIndexIsFirstMinimum<T>(s: seq<T>, key: T -> int)
    requires |s| > 0
    ensures forall j :: 0 <= j < |s| ==> key(s[ArgminIndex(s, key)]) <= key(s[j])
    ensures forall j :: 0 <= j < ArgminIndex(s, key) ==> key(s[j]) > key(s[ArgminIndex(s, key)])
    decreases |s|
  {
    if |s| > 1 {
      var p := s[..|s| - 1];
      ArgminIndexIsFirstMinimum(p, key);
      assert forall j :: 0 <= j < |p| ==> p[j] == s[j];
    }
  }

  /** `argmin(seq, func)`: None on an empty sequence, otherwise the element
      chosen by the forward scan. */
  method Argmin<T>(s: seq<T>, key: T -> int) returns (r: Option<T>)
    ensures s == [] ==> r == None
    ensures s != [] ==> r == Some(s[ArgminIndex(s, key)])
  {
    if |s| == 0 {
      return None;
    }
    var best := 0;
    var bestVal := key(s[0]);
    var i := 0;
    while i < |s|
      invariant 0 <= i <= |s|
      invariant best < |s| && bestVal == key(s[best])
      invariant i == 0 ==> best == 0
      invariant i > 0 ==> best == ArgminIndex(s[..i], key)
    {
      assert s[..i + 1][..i] == s[..i];
      if key(s[i]) < bestVal {
        best, bestVal := i, key(s[i]);
      }
      i := i + 1;
    }
    assert s[..|s|] == s;
    r := Some(s[best]);
  }

  /** Index the forward scan of `argmax` settles on: it replaces the best
      element on `>=`, so ties go to the last such (as its doc-comment says). */
  function ArgmaxIndex<T>(s: seq<T>, key: T -> real): (i: nat)
    requires |s| > 0
    ensures i < |s|
    decreases |s|
  {
    if |s| == 1 then 0
    else
      var j := ArgmaxIndex(s[..|s| - 1], key);
      if key(s[|s| - 1]) >= key(s[j]) then |s| - 1 else j
  }

  /** The argmax index has the greatest key, and every later element has a
      strictly smaller key. */
  lemma {:induction false} ArgmaxIndexIsLastMaximum<T>(s: seq<T>, key: T -> real)
    requires |s| > 0
    ensures forall j :: 0 <= j < |s| ==> key(s[j]) <= key(s[ArgmaxIndex(s, key)])
    ensures forall j :: ArgmaxIndex(s, key) < j < |s| ==> key(s[j]) < key(s[ArgmaxIndex(s, key)])
    decreases |s|
  {
    if |s| > 1 {
      var p := s[..|s| - 1];
      ArgmaxIndexIsLastMaximum(p, key);
      assert forall j :: 0 <= j < |p| ==> p[j] == s[j];
    }
  }

  /** `argmax(seq, func)`: None on an empty sequence, otherwise the element
      chosen by the forward scan. */
  method Argmax<T>(s: seq<T>, key: T -> real) returns (r: Option<T>)
    ensures s == [] ==> r == None
    ensures s != [] ==> r == Some(s[ArgmaxIndex(s, key)])
  {
    if |s| == 0 {
      return None;
    }
    var best := 0;
    var bestVal := key(s[0]);
    var i := 0;
    while i < |s|
      invariant 0 <= i <= |s|
      invariant best < |s| && bestVal == key(s[best])
      invariant i == 0 ==> best == 0
      invariant i > 0 ==> best == ArgmaxIndex(s[..i], key)
    {
      assert s[..i + 1][..i] == s[..i];
      if key(s[i]) >= bestVal {
        best, bestVal := i, key(s[i]);
      }
      i := i + 1;
    }
    assert s[..|s|] == s;
    r := Some(s[best]);
  }

  // ---------------------------------------------------------------
  // remove_repeats
  // ---------------------------------------------------------------

  /** The rows `remove_repeats` keeps: the first row, and every row that
      differs from the row just before it. */
  function Dedup<T(==)>(s: seq<T>): seq<T>
    decreases |s|
  {
    if |s| <= 1 then s
    else Dedup(s[..|s| - 1]) + (if s[|s| - 1] == s[|s| - 2] then [] else [s[|s| - 1]])
  }

  ghost predicate NoAdjacentRepeats<T>(s: seq<T>)
  {
    forall i :: 0 < i < |s| ==> s[i - 1] != s[i]
  }

  lemma {:induction false} DedupLast<T>(s: seq<T>)
    requires |s| > 0
    ensures |Dedup(s)| > 0 && Dedup(s)[|Dedup(s)| - 1] == s[|s| - 1]
    ensures Dedup(s)[0] == s[0]
    decreases |s|
  {
    if |s| > 1 {
      DedupLast(s[..|s| - 1]);
    }
  }

  /** Output of `remove_repeats` has no two equal neighbours. */
  lemma {:induction false} DedupNoAdjacentRepeats<T>(s: seq<T>)
    ensures NoAdjacentRepeats(Dedup(s))
    decreases |s|
  {
    if |s| > 1 {
      var p := s[..|s| - 1];
      DedupNoAdjacentRepeats(p);
      DedupLast(p);
    }
  }

  /** `remove_repeats` loses no value and invents none: exactly the values
      of the input occur in the output. */
  lemma {:induction false} DedupSameElements<T>(s: seq<T>)
    ensures forall x :: x in s <==> x in Dedup(s)
    decreases |s|
  {
    if |s| > 1 {
      var p := s[..|s| - 1];
      DedupSameElements(p);
      assert s == p + [s[|s| - 1]];
      assert s[|s| - 2] in p;
    }
  }

  /** A sequence without adjacent repeats is left as it is, so
      `remove_repeats` is idempotent. */
  lemma {:induction false} DedupIdentity<T>(s: seq<T>)
    requires NoAdjacentRepeats(s)
    ensures Dedup(s) == s
    decreases |s|
  {
    if |s| > 1 {
      DedupIdentity(s[..|s| - 1]);
      assert s[..|s| - 1] + [s[|s| - 1]] == s;
    }
  }

  lemma DedupIdempotent<T>(s: seq<T>)
    ensures Dedup(Dedup(s)) == Dedup(s)
  {
    DedupNoAdjacentRepeats(s);
    DedupIdentity(Dedup(s));
  }

  /** `remove_repeats(rows)`: lists shorter than two are returned as they
      are; otherwise the loop skips a row equal to the last one kept. */
  method RemoveRepeats<T(==)>(rows: seq<T>) returns (results: seq<T>)
    ensures results == Dedup(rows)
  {
    if |rows| < 2 {
      return rows;
    }
    results := [];
    var i := 0;
    while i < |rows|
      invariant 0 <= i <= |rows|
      invariant results == Dedup(rows[..i])
    {
      assert rows[..i + 1][..i] == rows[..i];
      if i > 0 {
        DedupLast(rows[..i]);
      }
      if i > 0 && rows[i] == results[|results| - 1] {
        i := i + 1;
        continue;
      }
      results := results + [rows[i]];
      i := i + 1;
    }
    assert rows[..|rows|] == rows;
  }

  lemma RemoveRepeatsExample()
    ensures Dedup([1, 2, 2, 3, 3, 4]) == [1, 2, 3, 4]
  {
    assert [1, 2, 2, 3, 3, 4][..5] == [1, 2, 2, 3, 3];
    assert [1, 2, 2, 3, 3][..4] == [1, 2, 2, 3];
    assert [1, 2, 2, 3][..3] == [1, 2, 2];
    assert [1, 2, 2][..2] == [1, 2];
    assert [1, 2][..1] == [1];
  }

  // ---------------------------------------------------------------
  // remove_cancel_temporary_basal
  // ---------------------------------------------------------------

  /** A command row `[command_id, user_id, created_timestamp, type, ...]`. */
  datatype CommandRow = CommandRow(commandId: int, userId: int, created: int, kind: string)

  const CancelTempBasal: string := "cancel_temporary_basal"
  const TempBasal: string := "temporary_basal"

  /** Row `k` is dropped exactly when it is a cancel immediately followed by
      a temporary basal with the same timestamp. */
  predicate CancelledAt(rows: seq<CommandRow>, k: nat)
    requires k < |rows|
  {
    k + 1 < |rows| && rows[k].kind == CancelTempBasal && rows[k + 1].kind == TempBasal
    && rows[k].created == rows[k + 1].created
  }

  /** The rows `remove_cancel_temporary_basal` keeps among the first `n`. */
  function KeptBefore(rows: seq<CommandRow>, n: nat): seq<CommandRow>
    requires n <= |rows|
    decreases n
  {
    if n == 0 then []
    else KeptBefore(rows, n - 1) + (if CancelledAt(rows, n - 1) then [] else [rows[n - 1]])
  }

  /** The rows `remove_cancel_temporary_basal` keeps, in their order. */
  function KeptCommands(rows: seq<CommandRow>): seq<CommandRow>
  {
    KeptBefore(rows, |rows|)
  }

  ghost function CancelledPositions(rows: seq<CommandRow>, n: nat): set<nat>
    requires n <= |rows|
  {
    set k: nat | k < n && CancelledAt(rows, k)
  }

  /** Every row that is not a cancel overridden by the next row is kept. */
  lemma {:induction false} KeptBeforeComplete(rows: seq<CommandRow>, n: nat)
    requires n <= |rows|
    ensures forall k :: 0 <= k < n && !CancelledAt(rows, k) ==> rows[k] in KeptBefore(rows, n)
    decreases n
  {
    if n > 0 {
      KeptBeforeComplete(rows, n - 1);
    }
  }

  /** Only such rows are kept. */
  lemma {:induction false} KeptBeforeSound(rows: seq<CommandRow>, n: nat)
    requires n <= |rows|
    ensures forall x :: x in KeptBefore(rows, n) ==> exists k :: 0 <= k < n && !CancelledAt(rows, k) && rows[k] == x
    decreases n
  {
    if n > 0 {
      KeptBeforeSound(rows, n - 1);
      forall x | x in KeptBefore(rows, n)
        ensures exists k :: 0 <= k < n && !CancelledAt(rows, k) && rows[k] == x
      {
        if x !in KeptBefore(rows, n - 1) {
          assert !CancelledAt(rows, n - 1) && rows[n - 1] == x;
        }
      }
    }
  }

  /** The output is shorter than the input by the number of dropped cancels. */
  lemma {:induction false} KeptBeforeLength(rows: seq<CommandRow>, n: nat)
    requires n <= |rows|
    ensures |KeptBefore(rows, n)| == n - |CancelledPositions(rows, n)|
    decreases n
  {
    if n > 0 {
      KeptBeforeLength(rows, n - 1);
      var prev := CancelledPositions(rows, n - 1);
      if CancelledAt(rows, n - 1) {
        assert CancelledPositions(rows, n) == prev + {n - 1};
      } else {
        assert CancelledPositions(rows, n) == prev;
      }
      assert n - 1 !in prev;
    }
  }

  /** The last row is never dropped: nothing follows it. */
  lemma KeptCommandsKeepsLast(rows: seq<CommandRow>)
    requires rows != []
    ensures KeptCommands(rows) == KeptBefore(rows, |rows| - 1) + [rows[|rows| - 1]]
  {
  }

  /** `remove_cancel_temporary_basal(rows)`: pops the previous row from the
      results when it is a cancel that the current row overrides. */
  method RemoveCancelTemporaryBasal(rows: seq<CommandRow>) returns (results: seq<CommandRow>)
    ensures results == KeptCommands(rows)
  {
    if |rows| < 2 {
      assert |rows| == 1 ==> KeptBefore(rows, 1) == [rows[0]];
      return rows;
    }
    results := [];
    var prev: Option<CommandRow> := None;
    var i := 0;
    while i < |rows|
      invariant 0 <= i <= |rows|
      invariant i == 0 <==> prev == None
      invariant i > 0 ==> prev == Some(rows[i - 1])
      invariant i > 0 ==> results == KeptBefore(rows, i - 1) + [rows[i - 1]]
      invariant i == 0 ==> results == []
    {
      var curr := rows[i];
      if prev.Some? && prev.value.created == curr.created
         && prev.value.kind == CancelTempBasal && curr.kind == TempBasal {
        results := results[..|results| - 1];
      }
      results := results + [curr];
      prev := Some(curr);
      i := i + 1;
    }
  }

  /** The example of remove_cancel_temporary_basal_test: ids 2, 4 and 5 remain. */
  lemma RemoveCancelExample()
    ensures
      var rows := [CommandRow(1, 7, 1, CancelTempBasal), CommandRow(2, 7, 1, TempBasal),
                   CommandRow(3, 7, 3, CancelTempBasal), CommandRow(4, 7, 3, TempBasal),
                   CommandRow(5, 7, 5, CancelTempBasal)];
      KeptCommands(rows) == [rows[1], rows[3], rows[4]]
  {
    var rows := [CommandRow(1, 7, 1, CancelTempBasal), CommandRow(2, 7, 1, TempBasal),
                 CommandRow(3, 7, 3, CancelTempBasal), CommandRow(4, 7, 3, TempBasal),
                 CommandRow(5, 7, 5, CancelTempBasal)];
    assert KeptBefore(rows, 1) == [];
    assert KeptBefore(rows, 2) == [rows[1]];
    assert KeptBefore(rows, 3) == [rows[1]];
    assert KeptBefore(rows, 4) == [rows[1], rows[3]];
  }

  // ---------------------------------------------------------------
  // bytes_to_int
  // ---------------------------------------------------------------

  /** A column value as it arrives from the MySQL driver. */
  datatype DbValue = IntValue(i: int) | BytesValue(bytes: seq<bv8>) | OtherValue

  /** `bytes_to_int`: ints pass through, one-byte values decode big-endian,
      longer or empty byte strings raise ValueError, anything else TypeError. */
  function BytesToInt(v: DbValue): (r: Result<int>)
    ensures v.IntValue? ==> r == Ok(v.i)
    ensures v.BytesValue? && |v.bytes| == 1 ==> r.Ok? && 0 <= r.value < 256 && r.value as bv8 == v.bytes[0]
    ensures v.BytesValue? && |v.bytes| != 1 ==> r == Err(ValueError)
    ensures v.OtherValue? ==> r == Err(TypeError)
  {
    match v
    case IntValue(i) => Ok(i)
    case BytesValue(b) => if |b| == 1 then Ok(b[0] as int) else Err(ValueError)
    case OtherValue => Err(TypeError)
  }

  // ---------------------------------------------------------------
  // anchors
  // ---------------------------------------------------------------

  /** A loop_summary row as selected by the anchor queries:
      (loop_summary_id, bolus_type, bolus_value, bolus_timestamp). */
  datatype SummaryRow = SummaryRow(loopSummaryId: int, bolusType: string, bolusValue: real, bolusTimestamp: int)

  function BolusValue(r: SummaryRow): real { r.bolusValue }

  /** `rows.index(x)`: the first position holding `x`. */
  function IndexOf<T(==)>(s: seq<T>, x: T): (k: nat)
    requires x in s
    ensures k < |s| && s[k] == x && x !in s[..k]
  {
    if s[0] == x then 0 else 1 + IndexOf(s[1..], x)
  }

  /** An `UPDATE loop_summary SET anchor = a WHERE loop_summary_id = id`. */
  datatype AnchorUpdate = AnchorUpdate(loopSummaryId: int, anchor: int)

  /** `compute_correction_anchors` over the correction boluses of the
      interval: nothing to do without rows; otherwise the largest bolus
      (last one on ties) becomes anchor 1, and the latest row becomes the
      top-up (anchor 2) when it comes after the anchor. */
  method ComputeCorrectionAnchors(rows: seq<SummaryRow>) returns (updates: seq<AnchorUpdate>)
    ensures rows == [] ==> updates == []
    ensures rows != [] ==> 1 <= |updates| <= 2
    ensures rows != [] ==>
      var a := rows[ArgmaxIndex(rows, BolusValue)];
      && updates[0] == AnchorUpdate(a.loopSummaryId, 1)
      && (forall j :: 0 <= j < |rows| ==> rows[j].bolusValue <= a.bolusValue)
      && (|updates| == 2 <==> IndexOf(rows, a) < |rows| - 1)
      && (|updates| == 2 ==> updates[1] == AnchorUpdate(rows[|rows| - 1].loopSummaryId, 2))
  {
    if |rows| == 0 {
      return [];
    }
    var anchor := Argmax(rows, BolusValue);
    ArgmaxIndexIsLastMaximum(rows, BolusValue);
    var anchorRow := anchor.value;
    updates := [AnchorUpdate(anchorRow.loopSummaryId, 1)];
    var anchorIndex := IndexOf(rows, anchorRow);
    if anchorIndex < |rows| - 1 {
      updates := updates + [AnchorUpdate(rows[|rows| - 1].loopSummaryId, 2)];
    }
  }

  /** With distinct ids the top-up exists exactly when the anchor is not the
      last row, and then it names a different row than the anchor. */
  lemma TopUpDiffersFromAnchor(rows: seq<SummaryRow>)
    requires rows != []
    requires forall i, j :: 0 <= i < j < |rows| ==> rows[i].loopSummaryId != rows[j].loopSummaryId
    ensures var k := ArgmaxIndex(rows, BolusValue);
      IndexOf(rows, rows[k]) == k
      && (k < |rows| - 1 ==> rows[|rows| - 1].loopSummaryId != rows[k].loopSummaryId)
  {
  }

  /** `compute_carb_anchor`: 3 when the new carb bolus beats every carb bolus
      of the preceding interval (or there is none), otherwise None. */
  method ComputeCarbAnchor(currBolusValue: real, rows: seq<SummaryRow>) returns (anchor: Option<int>)
    ensures anchor == (if forall j :: 0 <= j < |rows| ==> rows[j].bolusValue < currBolusValue
                       then Some(3) else None)
  {
    var anchorRow := Argmax(rows, BolusValue);
    if anchorRow.None? {
      return Some(3);
    }
    ArgmaxIndexIsLastMaximum(rows, BolusValue);
    if anchorRow.value.bolusValue < currBolusValue {
      return Some(3);
    }
    return None;
  }

  /** A loop_summary row as selected by carbs_within_interval_without_bolus:
      (loop_summary_id, carb_id, carb_timestamp, carb_value). */
  datatype CarbRow = CarbRow(loopSummaryId: int, carbId: int, carbTimestamp: int, carbValue: real)

  function CarbValue(r: CarbRow): real { r.carbValue }

  /** `carbs_within_interval_without_bolus` over the matching rows: None
      with no match, the row itself with one, and the largest carb value
      (last one on ties) with several. */
  method CarbsWithinIntervalWithoutBolus(rows: seq<CarbRow>) returns (r: Option<CarbRow>)
    ensures rows == [] <==> r == None
    ensures |rows| == 1 ==> r == Some(rows[0])
    ensures r.Some? ==>
      r.value in rows && forall j :: 0 <= j < |rows| ==> rows[j].carbValue <= r.value.carbValue
    ensures |rows| > 1 ==> r == Some(rows[ArgmaxIndex(rows, CarbValue)])
    ensures r.Some? ==>
      exists k :: 0 <= k < |rows| && rows[k] == r.value && forall j :: k < j < |rows| ==> rows[j].carbValue < r.value.carbValue
  {
    if |rows| == 1 {
      assert rows[0] == rows[0];
      return Some(rows[0]);
    }
    if |rows| == 0 {
      return None;
    }
    r := Argmax(rows, CarbValue);
    ArgmaxIndexIsLastMaximum(rows, CarbValue);
    var k := ArgmaxIndex(rows, CarbValue);
    assert rows[k] == r.value;
  }

  // ---------------------------------------------------------------
  // migration times
  // ---------------------------------------------------------------

  /** `get_autoapp_update_times` given the two single-row reads (None when
      the row is missing): the pair comes back only when the stored
      previous update is older than autoapp's last update. */
  function GetAutoappUpdateTimes(lastUpdateRow: Option<int>, prevUpdateRow: Option<int>): (r: (Option<int>, Option<int>))
    ensures r.0.Some? <==> r.1.Some?
    ensures r.0.Some? <==> (lastUpdateRow.Some? && prevUpdateRow.Some? && prevUpdateRow.value < lastUpdateRow.value)
    ensures r.0.Some? ==> r == (prevUpdateRow, lastUpdateRow) && r.0.value < r.1.value
  {
    if lastUpdateRow.None? then (None, None)
    else if prevUpdateRow.None? then (None, None)
    else if prevUpdateRow.value < lastUpdateRow.value then (prevUpdateRow, lastUpdateRow)
    else (None, None)
  }

  /** Minutes to look back for bolus and carb data (OTHER_DATA_TIMEOUT). */
  const OtherDataTimeout: int := 6 * 60

  /** The start time of data migration in `migrate_all`, and the
      prev_update value it will store: an explicit start time wins; no new
      data means nothing to migrate; otherwise the later of prev_update and
      now - 6h, and in the outage case prev_update becomes now. */
  function StartTimeData(altStartTime: Option<int>, prevUpdate: Option<int>, now: int): (r: (Option<int>, Option<int>))
    ensures altStartTime.Some? ==> r == (altStartTime, prevUpdate)
    ensures altStartTime.None? && prevUpdate.None? ==> r == (None, None)
    ensures altStartTime.None? && prevUpdate.Some? && prevUpdate.value > now - OtherDataTimeout ==>
      r == (prevUpdate, prevUpdate)
    ensures altStartTime.None? && prevUpdate.Some? && prevUpdate.value <= now - OtherDataTimeout ==>
      r == (Some(now - OtherDataTimeout), Some(now))
  {
    if altStartTime.Some? then (altStartTime, prevUpdate)
    else if prevUpdate.None? then (None, None)
    else
      var default := now - OtherDataTimeout;
      if prevUpdate.value > default then (prevUpdate, prevUpdate)
      else (Some(default), Some(now))
  }

  /** Without an explicit start time, a migration never reaches further back
      than six hours, and it starts at the stored update when that is newer. */
  lemma StartTimeDataBounded(prevUpdate: int, now: int)
    ensures var r := StartTimeData(None, Some(prevUpdate), now);
      r.0.Some? && r.0.value >= now - OtherDataTimeout
      && (prevUpdate > now - OtherDataTimeout ==> r == (Some(prevUpdate), Some(prevUpdate)))
      && (prevUpdate <= now - OtherDataTimeout ==> r == (Some(now - OtherDataTimeout), Some(now)))
  {
  }

  // ---------------------------------------------------------------
  // col_widths and to_dictionary
  // ---------------------------------------------------------------

  /** Widest rendering of column `idx` over `rows` (0 when none has it). */
  function ColMax(rows: seq<seq<string>>, idx: nat): nat
    decreases |rows|
  {
    if rows == [] then 0
    else
      var last := rows[|rows| - 1];
      Max(ColMax(rows[..|rows| - 1], idx), if idx < |last| then |last[idx]| else 0)
  }

  lemma {:induction false} ColMaxBounds(rows: seq<seq<string>>, idx: nat)
    ensures forall i :: 0 <= i < |rows| && idx < |rows[i]| ==> |rows[i][idx]| <= ColMax(rows, idx)
    ensures ColMax(rows, idx) == 0 || exists i :: 0 <= i < |rows| && idx < |rows[i]| && |rows[i][idx]| == ColMax(rows, idx)
    decreases |rows|
  {
    if rows != [] {
      var p := rows[..|rows| - 1];
      ColMaxBounds(p, idx);
      assert forall i :: 0 <= i < |p| ==> p[i] == rows[i];
    }
  }

  predicate RowFits(rows: seq<seq<string>>, i: nat)
    requires 0 < |rows| && i < |rows|
  {
    |rows[i]| <= |rows[0]|
  }

  /** `col_widths(row_list)`: ValueError on an empty list, IndexError when a
      row is longer than the first, otherwise each column's widest cell. */
  method ColWidths(rows: seq<seq<string>>) returns (r: Result<seq<nat>>)
    ensures rows == [] ==> r == Err(ValueError)
    ensures rows != [] && (exists i :: 0 <= i < |rows| && !RowFits(rows, i)) ==> r == Err(IndexError)
    ensures rows != [] && (forall i :: 0 <= i < |rows| ==> RowFits(rows, i)) ==>
      r.Ok? && |r.value| == |rows[0]| && forall c :: 0 <= c < |rows[0]| ==> r.value[c] == ColMax(rows, c)
  {
    if |rows| == 0 {
      return Err(ValueError);
    }
    var widths := new nat[|rows[0]|](_ => 0);
    var i := 0;
    while i < |rows|
      invariant 0 <= i <= |rows|
      invariant forall k :: 0 <= k < i ==> RowFits(rows, k)
      invariant forall c :: 0 <= c < widths.Length ==> widths[c] == ColMax(rows[..i], c)
    {
      var row := rows[i];
      assert rows[..i + 1][..i] == rows[..i];
      var j := 0;
      while j < |row|
        invariant 0 <= j <= |row| && j <= widths.Length
        invariant forall c :: 0 <= c < j ==> widths[c] == ColMax(rows[..i + 1], c)
        invariant forall c :: j <= c < widths.Length ==> widths[c] == ColMax(rows[..i], c)
      {
        if j >= widths.Length {
          assert !RowFits(rows, i);
          return Err(IndexError);
        }
        widths[j] := Max(widths[j], |row[j]|);
        j := j + 1;
      }
      i := i + 1;
    }
    assert rows[..|rows|] == rows;
    r := Ok(widths[..]);
  }

  /** The values a dictionary (its items, in order) holds for `key`. */
  function ValuesFor<V>(d: seq<(string, V)>, key: string): seq<V>
    decreases |d|
  {
    if d == [] then []
    else ValuesFor(d[..|d| - 1], key) + (if d[|d| - 1].0 == key then [d[|d| - 1].1] else [])
  }

  /** The values every dictionary of the list holds for `key`, in list order. */
  function Collect<V>(ds: seq<seq<(string, V)>>, key: string): seq<V>
    decreases |ds|
  {
    if ds == [] then [] else Collect(ds[..|ds| - 1], key) + ValuesFor(ds[|ds| - 1], key)
  }

  /** What `result.get(key, [])` gives. */
  function Lookup<V>(m: map<string, seq<V>>, key: string): seq<V>
  {
    if key in m then m[key] else []
  }

  /** The map after appending each item's value to the list of its key. */
  function AddAll<V>(m: map<string, seq<V>>, d: seq<(string, V)>): map<string, seq<V>>
    decreases |d|
  {
    if d == [] then m
    else
      var r := AddAll(m, d[..|d| - 1]);
      var (key, val) := d[|d| - 1];
      r[key := Lookup(r, key) + [val]]
  }

  /** The map built from a list of dictionaries, one after another. */
  function AddDicts<V>(ds: seq<seq<(string, V)>>): map<string, seq<V>>
    decreases |ds|
  {
    if ds == [] then map[] else AddAll(AddDicts(ds[..|ds| - 1]), ds[|ds| - 1])
  }

  lemma {:induction false} AddAllLookup<V>(m: map<string, seq<V>>, d: seq<(string, V)>, k: string)
    ensures Lookup(AddAll(m, d), k) == Lookup(m, k) + ValuesFor(d, k)
    ensures k in AddAll(m, d) <==> k in m || ValuesFor(d, k) != []
    decreases |d|
  {
    if d != [] {
      AddAllLookup(m, d[..|d| - 1], k);
    }
  }

  lemma {:induction false} AddDictsLookup<V>(ds: seq<seq<(string, V)>>, k: string)
    ensures Lookup(AddDicts(ds), k) == Collect(ds, k)
    ensures k in AddDicts(ds) <==> Collect(ds, k) != []
    decreases |ds|
  {
    if ds != [] {
      AddDictsLookup(ds[..|ds| - 1], k);
      AddAllLookup(AddDicts(ds[..|ds| - 1]), ds[|ds| - 1], k);
    }
  }

  /** `to_dictionary(dic_list)`: a key is present exactly when some
      dictionary has it, and its list holds that key's values from every
      dictionary, in order. */
  method ToDictionary<V>(ds: seq<seq<(string, V)>>) returns (result: map<string, seq<V>>)
    ensures forall k :: k in result <==> Collect(ds, k) != []
    ensures forall k :: k in result ==> result[k] == Collect(ds, k)
  {
    result := map[];
    var i := 0;
    while i < |ds|
      invariant 0 <= i <= |ds|
      invariant result == AddDicts(ds[..i])
    {
      assert ds[..i + 1][..i] == ds[..i];
      result := AddItems(result, ds[i]);
      i := i + 1;
    }
    assert ds[..|ds|] == ds;
    forall k ensures (k in result <==> Collect(ds, k) != []) && (k in result ==> result[k] == Collect(ds, k)) {
      AddDictsLookup(ds, k);
    }
  }

  /** The inner loop of `to_dictionary`: appends each item's value to the
      list of its key. */
  method AddItems<V>(m: map<string, seq<V>>, d: seq<(string, V)>) returns (result: map<string, seq<V>>)
    ensures result == AddAll(m, d)
  {
    result := m;
    var j := 0;
    while j < |d|
      invariant 0 <= j <= |d|
      invariant result == AddAll(m, d[..j])
    {
      assert d[..j + 1][..j] == d[..j];
      var (key, val) := d[j];
      assert AddAll(m, d[..j + 1]) == result[key := Lookup(result, key) + [val]];
      if key in result {
        result := result[key := result[key] + [val]];
      } else {
        assert Lookup(result, key) + [val] == [val];
        result := result[key := [val]];
      }
      j := j + 1;
    }
    assert d[..|d|] == d;
  }
}
