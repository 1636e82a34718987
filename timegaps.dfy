/** `timegaps.py`: consecutive-row checks over the `cgm_2` table.  The rows
    the query returns (ordered by `rec_num`) are the input sequence, and a
    row is its `rec_num` and its `date_time` as a whole number of seconds. */
module Timegaps {
  import opened Common

  datatype Row = Row(recNum: int, dateTime: int)

  type Pair = (Row, Row)

  /** The pairs `(rows[k], rows[k + 1])`. */
  predicate ArePairsOf(r: seq<Pair>, rows: seq<Row>)
  {
    |r| == (if |rows| < 2 then 0 else |rows| - 1) &&
    forall k :: 0 <= k < |r| ==> r[k] == (rows[k], rows[k + 1])
  }

  /** `gen_row_pairs`: the first row fetched becomes `prev`; each further row
      yields `(prev, curr)` and becomes `prev`.  Fewer than two rows yield
      nothing. */
  method GenRowPairs(rows: seq<Row>) returns (pairs: seq<Pair>)
    ensures ArePairsOf(pairs, rows)
  {
    pairs := [];
    if |rows| == 0 {
      return;
    }
    var prev := rows[0];
    var i := 1;
    while i < |rows|
      invariant 1 <= i <= |rows|
      invariant prev == rows[i - 1]
      invariant |pairs| == i - 1
      invariant forall k :: 0 <= k < |pairs| ==> pairs[k] == (rows[k], rows[k + 1])
    {
      var curr := rows[i];
      pairs := pairs + [(prev, curr)];
      prev := curr;
      i := i + 1;
    }
  }

  /** Consecutive pairs chain: each pair's second row is the next pair's
      first. */
  lemma PairsChain(r: seq<Pair>, rows: seq<Row>, k: nat)
    requires ArePairsOf(r, rows)
    requires k + 1 < |r|
    ensures r[k].1 == r[k + 1].0
  {
    assert r[k] == (rows[k], rows[k + 1]);
    assert r[k + 1] == (rows[k + 1], rows[k + 2]);
  }

  predicate NotSuccessive(pair: Pair) { pair.0.recNum != pair.1.recNum - 1 }

  /** `check_all_consecutive`: the pairs whose `rec_num`s are not successive
      integers, in order.  The printed report is left out. */
  method CheckAllConsecutive(pairs: seq<Pair>) returns (missing: seq<Pair>)
    ensures missing == Filter(pairs, NotSuccessive)
  {
    missing := [];
    var i := 0;
    while i < |pairs|
      invariant i <= |pairs|
      invariant missing == Filter(pairs[..i], NotSuccessive)
    {
      var pair := pairs[i];
      assert pairs[..i + 1] == pairs[..i] + [pair];
      FilterAppend(pairs[..i], [pair], NotSuccessive);
      if pair.0.recNum != pair.1.recNum - 1 {
        missing := missing + [pair];
      }
      i := i + 1;
    }
    assert pairs[..i] == pairs;
  }

  /** A pair is reported exactly when its `rec_num`s are not successive. */
  lemma ConsecutiveMembers(pairs: seq<Pair>, pair: Pair)
    ensures pair in Filter(pairs, NotSuccessive) <==>
            pair in pairs && pair.0.recNum != pair.1.recNum - 1
  {
    FilterMembers(pairs, NotSuccessive);
  }

  /** Rows numbered without a hole give no missing pairs. */
  lemma NoHolesNoGaps(rows: seq<Row>, pairs: seq<Pair>)
    requires ArePairsOf(pairs, rows)
    requires forall k :: 0 <= k < |rows| - 1 ==> rows[k + 1].recNum == rows[k].recNum + 1
    ensures Filter(pairs, NotSuccessive) == []
  {
    forall k | 0 <= k < |pairs|
      ensures !NotSuccessive(pairs[k])
    {
      assert pairs[k] == (rows[k], rows[k + 1]);
    }
    FilterNone(pairs, NotSuccessive);
  }

  predicate NotIncreasing(pair: Pair) { pair.0.dateTime > pair.1.dateTime - 1 }

  /** `check_non_increasing_dates`: the pairs with `a > b - 1`, in order. */
  method CheckNonIncreasingDates(pairs: seq<Pair>) returns (flagged: seq<Pair>)
    ensures flagged == Filter(pairs, NotIncreasing)
  {
    flagged := [];
    var i := 0;
    while i < |pairs|
      invariant i <= |pairs|
      invariant flagged == Filter(pairs[..i], NotIncreasing)
    {
      var pair := pairs[i];
      assert pairs[..i + 1] == pairs[..i] + [pair];
      FilterAppend(pairs[..i], [pair], NotIncreasing);
      if pair.0.dateTime > pair.1.dateTime - 1 {
        flagged := flagged + [pair];
      }
      i := i + 1;
    }
    assert pairs[..i] == pairs;
  }

  /** On whole seconds `a > b - 1` is `a >= b`: a pair is flagged exactly
      when its second time is not later than its first. */
  lemma NonIncreasingMembers(pairs: seq<Pair>, pair: Pair)
    ensures pair in Filter(pairs, NotIncreasing) <==>
            pair in pairs && pair.0.dateTime >= pair.1.dateTime
  {
    FilterMembers(pairs, NotIncreasing);
  }

  /** Strictly increasing times give no flagged pairs. */
  lemma IncreasingNotFlagged(rows: seq<Row>, pairs: seq<Pair>)
    requires ArePairsOf(pairs, rows)
    requires forall k :: 0 <= k < |rows| - 1 ==> rows[k].dateTime < rows[k + 1].dateTime
    ensures Filter(pairs, NotIncreasing) == []
  {
    forall k | 0 <= k < |pairs|
      ensures !NotIncreasing(pairs[k])
    {
      assert pairs[k] == (rows[k], rows[k + 1]);
    }
    FilterNone(pairs, NotIncreasing);
  }
}
