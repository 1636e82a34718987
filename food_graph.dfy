/** `meal_graphs_revised/food_graph.py`: the CGM trace after a meal, the
    traces for a list of dates, and their pointwise average.  The
    `insulin_carb_smoothed_2` table is an input sequence of rows, in the
    order the database returns them; times are whole seconds and dates are
    day numbers. */
module FoodGraph {
  import opened Common

  datatype SmoothedRow = SmoothedRow(rtime: int, carbCode: string, cgm: Option<real>)

  /** MySQL's `date(rtime)`. */
  function DayOf(t: int): int { t / 86400 }

  predicate MealRow(row: SmoothedRow, mealDate: int, meal: string)
  {
    DayOf(row.rtime) == mealDate && row.carbCode == meal
  }

  function IsMeal(mealDate: int, meal: string): SmoothedRow -> bool
  {
    (row: SmoothedRow) => MealRow(row, mealDate, meal)
  }

  function Between(lo: int, hi: int): SmoothedRow -> bool
  {
    (row: SmoothedRow) => lo <= row.rtime <= hi
  }

  function Cgms(rows: seq<SmoothedRow>): (r: seq<Option<real>>)
    ensures |r| == |rows| && forall k :: 0 <= k < |rows| ==> r[k] == rows[k].cgm
  {
    seq(|rows|, k requires 0 <= k < |rows| => rows[k].cgm)
  }

  /** The CGM values of the rows from `lo` to `hi`, in table order. */
  function Window(table: seq<SmoothedRow>, lo: int, hi: int): (r: seq<Option<real>>)
    ensures |r| <= |table|
  {
    Cgms(Filter(table, Between(lo, hi)))
  }

  /** The time of the first row of that day with the meal's carb code. */
  function MealStart(table: seq<SmoothedRow>, mealDate: int, meal: string): Option<int>
  {
    var times := Filter(table, IsMeal(mealDate, meal));
    if times == [] then None else Some(times[0].rtime)
  }

  /** `post_meal_cgm(conn, meal_date, meal, duration)`: `None` when no row
      of that day has the meal's carb code; otherwise the CGM values of the
      rows from the first such row's time to `duration` minutes later. */
  function PostMealCgm(table: seq<SmoothedRow>, mealDate: int, meal: string, duration: int): Option<seq<Option<real>>>
  {
    match MealStart(table, mealDate, meal)
    case None => None
    case Some(start) => Some(Window(table, start, start + duration * 60))
  }

  lemma {:induction false} FilterFirst<T>(s: seq<T>, p: T -> bool)
    requires Filter(s, p) != []
    ensures exists k :: 0 <= k < |s| && p(s[k]) && Filter(s, p)[0] == s[k] && forall j :: 0 <= j < k ==> !p(s[j])
    decreases |s|
  {
    if !p(s[0]) {
      FilterFirst(s[1..], p);
      var k :| 0 <= k < |s[1..]| && p(s[1..][k]) && Filter(s[1..], p)[0] == s[1..][k] && forall j :: 0 <= j < k ==> !p(s[1..][j]);
      assert forall j :: 1 <= j < k + 1 ==> s[j] == s[1..][j - 1];
      assert p(s[k + 1]) && Filter(s, p)[0] == s[k + 1];
    } else {
      assert p(s[0]) && Filter(s, p)[0] == s[0];
    }
  }

  /** The meal starts at the first row of that day with the meal's carb
      code (the comment in the source speaks of the last), and there is no
      start exactly when there is no such row. */
  lemma MealStartFirst(table: seq<SmoothedRow>, mealDate: int, meal: string)
    ensures MealStart(table, mealDate, meal).None? <==>
      forall k :: 0 <= k < |table| ==> !MealRow(table[k], mealDate, meal)
    ensures MealStart(table, mealDate, meal).Some? ==>
      exists k :: 0 <= k < |table| && MealRow(table[k], mealDate, meal) &&
        (forall j :: 0 <= j < k ==> !MealRow(table[j], mealDate, meal)) &&
        MealStart(table, mealDate, meal) == Some(table[k].rtime)
  {
    var p := IsMeal(mealDate, meal);
    if Filter(table, p) != [] {
      FilterFirst(table, p);
      var k :| 0 <= k < |table| && p(table[k]) && Filter(table, p)[0] == table[k] && forall j :: 0 <= j < k ==> !p(table[j]);
      assert MealRow(table[k], mealDate, meal);
      assert forall j :: 0 <= j < k ==> !MealRow(table[j], mealDate, meal);
    } else {
      FilterMembers(table, p);
      forall k | 0 <= k < |table|
        ensures !MealRow(table[k], mealDate, meal)
      {
        assert table[k] in table && !p(table[k]);
      }
    }
  }

  /** The trace holds exactly the CGM values of rows in the window. */
  lemma WindowMembers(table: seq<SmoothedRow>, lo: int, hi: int)
    ensures forall c :: c in Window(table, lo, hi) <==>
      exists row :: row in table && lo <= row.rtime <= hi && row.cgm == c
  {
    var w := Filter(table, Between(lo, hi));
    FilterMembers(table, Between(lo, hi));
    forall c | c in Cgms(w)
      ensures exists row :: row in table && lo <= row.rtime <= hi && row.cgm == c
    {
      var k :| 0 <= k < |w| && Cgms(w)[k] == c;
      assert w[k] in w;
    }
    forall c | exists row :: row in table && lo <= row.rtime <= hi && row.cgm == c
      ensures c in Cgms(w)
    {
      var row :| row in table && lo <= row.rtime <= hi && row.cgm == c;
      assert row in w;
      var k :| 0 <= k < |w| && w[k] == row;
      assert Cgms(w)[k] == c;
    }
  }

  /** The values of the `Some`s of `xs`, in order. */
  function Found<T>(xs: seq<Option<T>>): (r: seq<T>)
    ensures |r| <= |xs|
    decreases |xs|
  {
    if xs == [] then []
    else
      var n := |xs| - 1;
      Found(xs[..n]) + (if xs[n].Some? then [xs[n].value] else [])
  }

  /** The lookup for each date. */
  function Lookups(table: seq<SmoothedRow>, dates: seq<int>, meal: string, duration: int): (r: seq<Option<seq<Option<real>>>>)
    ensures |r| == |dates|
  {
    seq(|dates|, k requires 0 <= k < |dates| => PostMealCgm(table, dates[k], meal, duration))
  }

  /** `post_meal_cgm_traces_for_dates(conn, dates, meal, duration)`: the
      traces found, in the order of `dates`, skipping dates with none. */
  method PostMealCgmTracesForDates(table: seq<SmoothedRow>, dates: seq<int>, meal: string, duration: int)
    returns (traces: seq<seq<Option<real>>>)
    ensures traces == Found(Lookups(table, dates, meal, duration))
  {
    ghost var found := Lookups(table, dates, meal, duration);
    traces := [];
    for i := 0 to |dates|
      invariant traces == Found(found[..i])
    {
      assert found[..i + 1][..i] == found[..i];
      var trace := PostMealCgm(table, dates[i], meal, duration);
      assert trace == found[..i + 1][i];
      if trace.Some? {
        traces := traces + [trace.value];
      }
    }
    assert found[..|dates|] == found;
  }

  /** When every lookup succeeds, there is one value per lookup, in order. */
  lemma {:induction false} FoundAll<T>(xs: seq<Option<T>>)
    requires forall k :: 0 <= k < |xs| ==> xs[k].Some?
    ensures |Found(xs)| == |xs|
    ensures forall k :: 0 <= k < |xs| ==> Found(xs)[k] == xs[k].value
    decreases |xs|
  {
    if xs != [] {
      var n := |xs| - 1;
      assert forall k :: 0 <= k < n ==> xs[..n][k] == xs[k];
      FoundAll(xs[..n]);
    }
  }

  /** Lookups that find nothing contribute nothing. */
  lemma {:induction false} FoundNone<T>(xs: seq<Option<T>>)
    requires forall k :: 0 <= k < |xs| ==> xs[k].None?
    ensures Found(xs) == []
    decreases |xs|
  {
    if xs != [] {
      var n := |xs| - 1;
      assert forall k :: 0 <= k < n ==> xs[..n][k] == xs[k];
      FoundNone(xs[..n]);
    }
  }

  /** Every value is one found, and every value found is kept. */
  lemma {:induction false} FoundMembers<T>(xs: seq<Option<T>>)
    ensures forall x :: x in Found(xs) <==> Some(x) in xs
    decreases |xs|
  {
    if xs != [] {
      var n := |xs| - 1;
      FoundMembers(xs[..n]);
      assert xs == xs[..n] + [xs[n]];
    }
  }

  /** Cell `i` of a trace (absent past its end). */
  function Cell(trace: seq<Option<real>>, i: nat): Option<real>
  {
    if i < |trace| then trace[i] else None
  }

  /** The sum and the count of the values present at position `i`. */
  function ColumnSum(traces: seq<seq<Option<real>>>, i: nat): real
    decreases |traces|
  {
    if traces == [] then 0.0
    else
      var n := |traces| - 1;
      ColumnSum(traces[..n], i) + (if Cell(traces[n], i).Some? then Cell(traces[n], i).value else 0.0)
  }

  function ColumnCount(traces: seq<seq<Option<real>>>, i: nat): nat
    decreases |traces|
  {
    if traces == [] then 0
    else
      var n := |traces| - 1;
      ColumnCount(traces[..n], i) + (if Cell(traces[n], i).Some? then 1 else 0)
  }

  /** The mean of the values present at position `i`. */
  function ColumnMean(traces: seq<seq<Option<real>>>, i: nat): real
  {
    if ColumnCount(traces, i) == 0 then 0.0 else ColumnSum(traces, i) / ColumnCount(traces, i) as real
  }

  predicate SameLength(traces: seq<seq<Option<real>>>)
  {
    forall k :: 0 <= k < |traces| ==> |traces[k]| == |traces[0]|
  }

  /** What `average_cgm_trace` computes: `min` of no lengths raises
      `ValueError`; traces of different lengths give `None`; a position
      where every trace is missing divides by zero; otherwise the mean of
      the present values at each position. */
  function AverageTrace(traces: seq<seq<Option<real>>>): Result<Option<seq<real>>>
  {
    if traces == [] then Err(ValueError)
    else if !SameLength(traces) then Ok(None)
    else
      var n := |traces[0]|;
      if exists i :: 0 <= i < n && ColumnCount(traces, i) == 0 then Err(ZeroDivisionError)
      else Ok(Some(seq(n, i requires 0 <= i < n => ColumnMean(traces, i))))
  }

  /** The inner `for trace in traces` loop. */
  method ColumnTotals(traces: seq<seq<Option<real>>>, i: nat) returns (sum: real, cnt: nat)
    requires forall k :: 0 <= k < |traces| ==> i < |traces[k]|
    ensures sum == ColumnSum(traces, i) && cnt == ColumnCount(traces, i)
  {
    sum, cnt := 0.0, 0;
    for k := 0 to |traces|
      invariant sum == ColumnSum(traces[..k], i) && cnt == ColumnCount(traces[..k], i)
    {
      assert traces[..k + 1][..k] == traces[..k];
      var cgm := traces[k][i];
      if cgm.Some? {
        sum := sum + cgm.value;
        cnt := cnt + 1;
      }
    }
    assert traces[..|traces|] == traces;
  }

  /** `average_cgm_trace(traces)`. */
  method AverageCgmTrace(traces: seq<seq<Option<real>>>) returns (r: Result<Option<seq<real>>>)
    ensures r == AverageTrace(traces)
  {
    if |traces| == 0 {
      return Err(ValueError);
    }
    var lo, hi := |traces[0]|, |traces[0]|;
    ghost var jlo, jhi := 0, 0;
    for k := 1 to |traces|
      invariant forall j :: 0 <= j < k ==> lo <= |traces[j]| <= hi
      invariant 0 <= jlo < k && |traces[jlo]| == lo && 0 <= jhi < k && |traces[jhi]| == hi
    {
      if |traces[k]| < lo {
        lo, jlo := |traces[k]|, k;
      }
      if |traces[k]| > hi {
        hi, jhi := |traces[k]|, k;
      }
    }
    if lo != hi {
      assert |traces[jlo]| != |traces[0]| || |traces[jhi]| != |traces[0]|;
      return Ok(None);
    }
    var n := lo;
    assert SameLength(traces) && n == |traces[0]|;
    var average: seq<real> := [];
    for i := 0 to n
      invariant |average| == i
      invariant forall j :: 0 <= j < i ==> ColumnCount(traces, j) != 0 && average[j] == ColumnMean(traces, j)
    {
      var sum, cnt := ColumnTotals(traces, i);
      if cnt == 0 {
        return Err(ZeroDivisionError);
      }
      average := average + [sum / cnt as real];
    }
    assert !exists i :: 0 <= i < n && ColumnCount(traces, i) == 0;
    assert average == seq(n, i requires 0 <= i < n => ColumnMean(traces, i));
    return Ok(Some(average));
  }

  /** Present values between `lo` and `hi` have a sum between `lo` and
      `hi` times their count. */
  lemma {:induction false} ColumnBounds(traces: seq<seq<Option<real>>>, i: nat, lo: real, hi: real)
    requires forall k :: 0 <= k < |traces| && Cell(traces[k], i).Some? ==> lo <= Cell(traces[k], i).value <= hi
    ensures lo * ColumnCount(traces, i) as real <= ColumnSum(traces, i) <= hi * ColumnCount(traces, i) as real
    decreases |traces|
  {
    if traces != [] {
      var n := |traces| - 1;
      assert forall k :: 0 <= k < n ==> traces[..n][k] == traces[k];
      ColumnBounds(traces[..n], i, lo, hi);
    }
  }

  lemma MeanBetween(sum: real, cnt: real, lo: real, hi: real)
    requires cnt > 0.0 && lo * cnt <= sum <= hi * cnt
    ensures lo <= sum / cnt <= hi
  {
    assert (sum / cnt) * cnt == sum;
  }

  /** Each average lies between the smallest and the largest value present
      in the traces. */
  lemma AverageWithinBounds(traces: seq<seq<Option<real>>>, lo: real, hi: real)
    requires forall k, i :: 0 <= k < |traces| && 0 <= i < |traces[k]| && traces[k][i].Some? ==>
      lo <= traces[k][i].value <= hi
    ensures AverageTrace(traces).Ok? && AverageTrace(traces).value.Some? ==>
      forall i :: 0 <= i < |AverageTrace(traces).value.value| ==> lo <= AverageTrace(traces).value.value[i] <= hi
  {
    if AverageTrace(traces).Ok? && AverageTrace(traces).value.Some? {
      var a := AverageTrace(traces).value.value;
      forall i | 0 <= i < |a|
        ensures lo <= a[i] <= hi
      {
        ColumnBounds(traces, i, lo, hi);
        MeanBetween(ColumnSum(traces, i), ColumnCount(traces, i) as real, lo, hi);
      }
    }
  }

  function Present(t: seq<real>): (r: seq<Option<real>>)
    ensures |r| == |t| && forall i :: 0 <= i < |t| ==> r[i] == Some(t[i])
  {
    seq(|t|, i requires 0 <= i < |t| => Some(t[i]))
  }

  lemma {:induction false} ColumnOfCopies(t: seq<real>, m: nat, i: nat)
    requires i < |t|
    ensures ColumnSum(seq(m, _ => Present(t)), i) == m as real * t[i]
    ensures ColumnCount(seq(m, _ => Present(t)), i) == m
    decreases m
  {
    if m > 0 {
      assert seq(m, _ => Present(t))[..m - 1] == seq(m - 1, _ => Present(t));
      ColumnOfCopies(t, m - 1, i);
    }
  }

  /** The average of copies of one complete trace is that trace. */
  lemma AverageOfCopies(t: seq<real>, m: nat)
    requires m >= 1
    ensures AverageTrace(seq(m, _ => Present(t))) == Ok(Some(t))
  {
    var traces := seq(m, _ => Present(t));
    assert SameLength(traces);
    forall i | 0 <= i < |t|
      ensures ColumnCount(traces, i) == m && ColumnMean(traces, i) == t[i]
    {
      ColumnOfCopies(t, m, i);
    }
    var a := seq(|t|, i requires 0 <= i < |t| => ColumnMean(traces, i));
    assert a == t;
  }
}
