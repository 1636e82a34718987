/** `pdb.py`: the earlier insulin-to-carb analysis.  Its `to_date` is the
    same code as `pandb.py`'s and is `Pandb.ToDate`.  Rows of
    `insulin_carb_2` are sequences; times are minutes; a pandas `NaN` is
    `None`. */
module Pdb {
  import opened Common
  import opened Strptime
  import Pandb

  // ---------------------------------------------------- meal_to_time_range

  /** A restriction on the time of day of `date_time` by a whole hour. */
  datatype Cond = Before(h: nat) | AtOrAfter(h: nat) | Both(x: Cond, y: Cond) | Anything

  /** Whether a time, in minutes after midnight, meets the condition. */
  function Holds(c: Cond, t: int): bool
  {
    match c
    case Before(h) => t < 60 * h
    case AtOrAfter(h) => t >= 60 * h
    case Both(x, y) => Holds(x, t) && Holds(y, t)
    case Anything => true
  }

  /** `HH:00`. */
  function HourText(h: nat): string
  {
    [DigitChar(h / 10 % 10), DigitChar(h % 10)] + ":00"
  }

  /** The SQL text of a condition, spaced as `meal_to_time_range` spaces
      it. */
  function Sql(c: Cond): string
  {
    match c
    case Before(h) => "time(date_time) < '" + HourText(h) + "' "
    case AtOrAfter(h) => "time(date_time) >= '" + HourText(h) + "' "
    case Both(x, y) => Sql(x) + "and " + Sql(y)
    case Anything => "true"
  }

  const Ten: nat := 10
  const Sixteen: nat := 16

  /** The meals' conditions: breakfast before 10:00, lunch from 10:00 to
      16:00, supper from 16:00; any other name restricts nothing. */
  function MealCond(meal: string): Cond
  {
    if meal == "breakfast" then Before(Ten)
    else if meal == "lunch" then Both(AtOrAfter(Ten), Before(Sixteen))
    else if meal == "supper" then AtOrAfter(Sixteen)
    else Anything
  }

  /** `meal_to_time_range`, as written: the lunch clause has no `and`
      between its two comparisons (the source writes it as one literal). */
  function MealToTimeRange(meal: string): (r: string)
  {
    if meal == "breakfast" then "time(date_time) < '10:00' "
    else if meal == "lunch" then "time(date_time) >= '10:00' " + "time(date_time) < '16:00' "
    else if meal == "supper" then "time(date_time) >= '16:00' "
    else "true"
  }

  /** `meal_to_time_range` as evidently intended: the lunch clause is the
      conjunction of its comparisons. */
  function MealToTimeRangeIntended(meal: string): (r: string)
  {
    if meal == "breakfast" then "time(date_time) < '10:00' "
    else if meal == "lunch" then "time(date_time) >= '10:00' " + "and " + "time(date_time) < '16:00' "
    else if meal == "supper" then "time(date_time) >= '16:00' "
    else "true"
  }

  /** The intended clauses are the SQL text of the meals' conditions. */
  lemma IntendedIsSql(meal: string)
    ensures MealToTimeRangeIntended(meal) == Sql(MealCond(meal))
  {
    SqlTexts();
    if meal == "lunch" {
      assert Sql(MealCond(meal)) == Sql(AtOrAfter(Ten)) + "and " + Sql(Before(Sixteen));
    }
  }

  /** The text of each comparison the meals use. */
  lemma SqlTexts()
    ensures Sql(Before(Ten)) == "time(date_time) < '10:00' "
    ensures Sql(AtOrAfter(Ten)) == "time(date_time) >= '10:00' "
    ensures Sql(Before(Sixteen)) == "time(date_time) < '16:00' "
    ensures Sql(AtOrAfter(Sixteen)) == "time(date_time) >= '16:00' "
  {
    assert HourText(Ten) == "10:00" && HourText(Sixteen) == "16:00";
  }

  /** Breakfast, supper and the fallback are written as intended; the lunch
      clause is its two comparisons run together, not their conjunction. */
  lemma LunchMissingAnd(meal: string)
    ensures meal != "lunch" ==> MealToTimeRange(meal) == Sql(MealCond(meal))
    ensures MealToTimeRange("lunch") == Sql(AtOrAfter(Ten)) + Sql(Before(Sixteen))
    ensures MealToTimeRange("lunch") != Sql(MealCond("lunch"))
  {
    SqlTexts();
    var w, i := MealToTimeRange("lunch"), Sql(MealCond("lunch"));
    assert i == Sql(AtOrAfter(Ten)) + "and " + Sql(Before(Sixteen));
    assert w[27] == 't' && i[27] == 'a';
  }

  /** "This definition doesn't leave any time range out": every time of day
      belongs to exactly one of the three meals. */
  lemma MealsPartitionDay(t: int)
    requires 0 <= t < 24 * 60
    ensures Holds(MealCond("breakfast"), t) || Holds(MealCond("lunch"), t) || Holds(MealCond("supper"), t)
    ensures !(Holds(MealCond("breakfast"), t) && Holds(MealCond("lunch"), t))
    ensures !(Holds(MealCond("breakfast"), t) && Holds(MealCond("supper"), t))
    ensures !(Holds(MealCond("lunch"), t) && Holds(MealCond("supper"), t))
  {
  }

  // ----------------------------------------------------------------- floaty

  /** A cell of the data frame: text, or a number (`None` for `NaN`). */
  datatype Cell = Text(s: string) | Number(v: Option<real>)

  /** `floaty`: the empty string is 0.0, anything else goes through
      `float`, which keeps a number and parses text. */
  function Floaty(c: Cell): (r: Result<Option<real>>)
    ensures c == Text("") ==> r == Ok(Some(0.0))
    ensures c.Number? ==> r == Ok(c.v)
    ensures c.Text? && c.s != "" ==> (r.Err? <==> ParseFloat(c.s).Err?)
    ensures c.Text? && c.s != "" && r.Ok? ==> r.value == Some(ParseFloat(c.s).value)
  {
    match c
    case Number(v) => Ok(v)
    case Text(s) =>
      if s == "" then Ok(Some(0.0))
      else match ParseFloat(s)
        case Ok(x) => Ok(Some(x))
        case Err(e) => Err(e)
  }

  /** The text of a natural number reads back as that number. */
  lemma FloatyOfNumeral(n: nat)
    ensures Floaty(Text(NatToString(n))) == Ok(Some(n as real))
    ensures Floaty(Text("-" + NatToString(n))) == Ok(Some(-(n as real)))
  {
    ParseFloatOfInt(n);
  }

  // -------------------------------------- carbs_and_insulin_within_meal_gap

  /** A row of `df_rel`: `rec_num`, `date_time`, `basal_amt`,
      `bolus_volume` and `carbs`. */
  datatype PdbRow = PdbRow(recNum: int, time: int, basal: Option<real>, bolus: Cell, carbs: Cell)

  /** Python's `x and y` over conditions that may raise: `y` is evaluated
      only when `x` holds. */
  function PyAnd(x: Result<bool>, y: Result<bool>): Result<bool>
  {
    if x.Err? then x else if !x.value then Ok(false) else y
  }

  /** Python's `x or y`: `y` is evaluated only when `x` fails. */
  function PyOr(x: Result<bool>, y: Result<bool>): Result<bool>
  {
    if x.Err? then x else if x.value then Ok(true) else y
  }

  /** `floaty(c) > 0`; `NaN > 0` is false. */
  function Gt0(c: Cell): Result<bool>
  {
    match Floaty(c)
    case Err(e) => Err(e)
    case Ok(v) => Ok(Pandb.Positive(v))
  }

  /** The test of the nested loops: rows in `rec_num` order, at most `gap`
      minutes apart, and either `a`'s carbs with `b`'s bolus or `a`'s own
      bolus and carbs, evaluated left to right with short circuits. */
  function WithinGap(gap: int): (q: (PdbRow, PdbRow) -> Result<bool>)
  {
    (a: PdbRow, b: PdbRow) =>
      if a.recNum >= b.recNum then Ok(false)
      else PyAnd(Ok(b.time - a.time <= gap),
                 PyOr(PyAnd(Gt0(a.carbs), Gt0(b.bolus)), PyAnd(Gt0(a.bolus), Gt0(a.carbs))))
  }

  /** The row `pandb` would see for a row whose cells are numbers. */
  function AsIcRow(r: PdbRow): Pandb.IcRow
    requires r.bolus.Number? && r.carbs.Number?
  {
    Pandb.IcRow(r.recNum, r.time, r.carbs.v, r.bolus.v)
  }

  /** On numeric cells the test is `pandb`'s. */
  lemma WithinGapIsTogether(gap: int, a: PdbRow, b: PdbRow)
    requires a.bolus.Number? && a.carbs.Number? && b.bolus.Number? && b.carbs.Number?
    ensures WithinGap(gap)(a, b) == Pandb.Together(gap)(AsIcRow(a), AsIcRow(b))
  {
  }

  /** The short circuits: rows out of order or too far apart are rejected
      without reading a cell, and an unreadable carbs text of `a` raises
      once the time test passes. */
  lemma WithinGapShortCircuits(gap: int, a: PdbRow, b: PdbRow)
    ensures a.recNum >= b.recNum || b.time - a.time > gap ==> WithinGap(gap)(a, b) == Ok(false)
    ensures (a.recNum < b.recNum && b.time - a.time <= gap && a.carbs.Text? && a.carbs.s != ""
             && ParseFloat(a.carbs.s).Err?) ==> WithinGap(gap)(a, b).Err?
  {
  }

  /** The module-level `tups`, to which every accepted pair is appended. */
  class MealGapLog {
    var tups: seq<PdbRow>

    constructor ()
      ensures tups == []
    {
      tups := [];
    }

    /** `carbs_and_insulin_within_meal_gap`: the accepted pairs, `a` then
        `b`; the same rows are appended to `tups`, and a `floaty` that
        raises ends both loops with the pairs appended so far kept in
        `tups`. */
    method CarbsAndInsulinWithinMealGap(rows: seq<PdbRow>, gap: int) returns (r: Result<seq<PdbRow>>)
      modifies this
      ensures var s := Pandb.AllPairs(rows, rows, WithinGap(gap));
        && tups == old(tups) + s.out
        && r == (if s.err.Some? then Err(s.err.value) else Ok(s.out))
    {
      var out, err := Pandb.PairScan(rows, WithinGap(gap));
      tups := tups + out;
      if err.Some? {
        return Err(err.value);
      }
      r := Ok(out);
    }
  }

  /** What the scan returns when it does not raise: `a` then `b` for every
      pair the test accepts, and nothing else. */
  lemma WithinMealGapMeaning(rows: seq<PdbRow>, gap: int)
    ensures var s := Pandb.AllPairs(rows, rows, WithinGap(gap));
      && Pandb.PairsAccepted(s.out, WithinGap(gap))
      && (forall x :: x in s.out ==> x in rows)
      && (s.err.None? ==>
            forall i, j :: (0 <= i < |rows| && 0 <= j < |rows| && WithinGap(gap)(rows[i], rows[j]) == Ok(true)
                            ==> Pandb.HasPair(s.out, rows[i], rows[j])))
  {
    var q := WithinGap(gap);
    Pandb.AllPairsSound(rows, rows, q);
    if Pandb.AllPairs(rows, rows, q).err.None? {
      forall i, j | 0 <= i < |rows| && 0 <= j < |rows| && q(rows[i], rows[j]) == Ok(true)
        ensures Pandb.HasPair(Pandb.AllPairs(rows, rows, q).out, rows[i], rows[j])
      {
        Pandb.AllPairsComplete(rows, rows, q, i, j);
      }
    }
  }

  /** Only cell text can make the scan raise: over numeric cells it always
      finishes. */
  lemma WithinMealGapTotal(rows: seq<PdbRow>, gap: int)
    requires forall k :: 0 <= k < |rows| ==> rows[k].bolus.Number? && rows[k].carbs.Number?
    ensures Pandb.AllPairs(rows, rows, WithinGap(gap)).err.None?
  {
    var q := WithinGap(gap);
    var q' := (a: PdbRow, b: PdbRow) => if a in rows && b in rows then q(a, b) else Ok(false);
    Pandb.AllPairsTotal(rows, rows, q');
    SameScan(rows, rows, q, q');
  }

  /** Two tests that agree on the rows give the same scan. */
  lemma {:induction false} SameScan(firsts: seq<PdbRow>, rows: seq<PdbRow>, q: (PdbRow, PdbRow) -> Result<bool>,
                                    q': (PdbRow, PdbRow) -> Result<bool>)
    requires forall a, b :: a in firsts && b in rows ==> q(a, b) == q'(a, b)
    ensures Pandb.AllPairs(firsts, rows, q) == Pandb.AllPairs(firsts, rows, q')
  {
    if firsts != [] {
      var n := |firsts| - 1;
      assert forall a :: a in firsts[..n] ==> a in firsts;
      SameScan(firsts[..n], rows, q, q');
      SamePairs(firsts[n], rows, q, q');
    }
  }

  lemma {:induction false} SamePairs(a: PdbRow, bs: seq<PdbRow>, q: (PdbRow, PdbRow) -> Result<bool>,
                                     q': (PdbRow, PdbRow) -> Result<bool>)
    requires forall b :: b in bs ==> q(a, b) == q'(a, b)
    ensures Pandb.PairsWith(a, bs, q) == Pandb.PairsWith(a, bs, q')
  {
    if bs != [] {
      var n := |bs| - 1;
      assert forall b :: b in bs[..n] ==> b in bs;
      SamePairs(a, bs[..n], q, q');
    }
  }

  // ----------------------------------------------------- prior_base_insulin

  /** `df.query('rec_num < meal')`: the rows before the meal, in order. */
  function PriorRows(rows: seq<PdbRow>, meal: int): (r: seq<PdbRow>)
    ensures forall x :: x in r <==> x in rows && x.recNum < meal
  {
    if rows == [] then []
    else
      var rest := PriorRows(rows[..|rows| - 1], meal);
      var last := rows[|rows| - 1];
      assert rows == rows[..|rows| - 1] + [last];
      if last.recNum < meal then rest + [last] else rest
  }

  /** The first plausible (positive) basal rate, if any. */
  function FirstPlausible(rows: seq<PdbRow>): Option<real>
  {
    if rows == [] then None
    else if Pandb.Positive(rows[0].basal) then rows[0].basal
    else FirstPlausible(rows[1..])
  }

  function PriorBasalOf(rows: seq<PdbRow>, meal: int): Result<Option<real>>
  {
    var prior := PriorRows(rows, meal);
    if prior == [] then Err(ValueError) else Ok(FirstPlausible(prior))
  }

  /** `prior_base_insulin`: `ValueError` with no row before the meal;
      otherwise the first positive rate in the rows' own order (the
      reversed copy is discarded), or `None` when no rate is positive. */
  method PriorBaseInsulin(rows: seq<PdbRow>, meal: int) returns (r: Result<Option<real>>)
    ensures r == PriorBasalOf(rows, meal)
  {
    var prior := PriorRows(rows, meal);
    if |prior| == 0 {
      return Err(ValueError);
    }
    var i := 0;
    while i < |prior|
      invariant 0 <= i <= |prior|
      invariant FirstPlausible(prior[i..]) == FirstPlausible(prior)
    {
      assert prior[i..][1..] == prior[i + 1..];
      if Pandb.Positive(prior[i].basal) {
        return Ok(prior[i].basal);
      }
      i := i + 1;
    }
    assert prior[i..] == [];
    r := Ok(None);
  }

  /** The first plausible rate is positive and is the rate of a row that
      only implausible rows precede; `None` means no rate is positive. */
  lemma {:induction false} FirstPlausibleMeaning(rows: seq<PdbRow>)
    ensures FirstPlausible(rows).None? <==> forall k :: 0 <= k < |rows| ==> !Pandb.Positive(rows[k].basal)
    ensures FirstPlausible(rows).Some? ==>
      exists k :: 0 <= k < |rows| && rows[k].basal == FirstPlausible(rows) && Pandb.Positive(rows[k].basal)
               && forall j :: 0 <= j < k ==> !Pandb.Positive(rows[j].basal)
  {
    if rows != [] && !Pandb.Positive(rows[0].basal) {
      FirstPlausibleMeaning(rows[1..]);
      assert forall k :: 1 <= k < |rows| ==> rows[1..][k - 1] == rows[k];
      if FirstPlausible(rows[1..]).Some? {
        var k :| 0 <= k < |rows[1..]| && rows[1..][k].basal == FirstPlausible(rows[1..]) && Pandb.Positive(rows[1..][k].basal)
                 && forall j :: 0 <= j < k ==> !Pandb.Positive(rows[1..][j].basal);
        assert rows[k + 1] == rows[1..][k];
      }
    }
  }

  /** `ValueError` exactly when no row precedes the meal; a rate found is
      positive and is the rate of a row before the meal. */
  lemma PriorBasalMeaning(rows: seq<PdbRow>, meal: int)
    ensures PriorBasalOf(rows, meal).Err? <==> forall k :: 0 <= k < |rows| ==> rows[k].recNum >= meal
    ensures PriorBasalOf(rows, meal).Err? ==> PriorBasalOf(rows, meal).error == ValueError
    ensures PriorBasalOf(rows, meal).Ok? && PriorBasalOf(rows, meal).value.Some? ==>
      var v := PriorBasalOf(rows, meal).value.value;
      v > 0.0 && exists x :: x in rows && x.recNum < meal && x.basal == Some(v)
  {
    var prior := PriorRows(rows, meal);
    FirstPlausibleMeaning(prior);
    if prior == [] {
      forall k | 0 <= k < |rows|
        ensures rows[k].recNum >= meal
      {
        assert rows[k] !in prior;
      }
    } else {
      assert prior[0] in rows;
    }
  }

  // ------------------------------------------ excess_basal_insulin_post_meal

  /** One line of `calcs`: the rate, the prior rate, the minutes since the
      last counted row, the excess rate, the hours and the amount. */
  datatype Calc = Calc(curr: real, base: real, minutes: int, excess: real, hrs: real, amt: real)

  /** A row counts when its rate is a number above the prior rate. */
  predicate Exceeds(r: PdbRow, prior: real) { r.basal.Some? && r.basal.value > prior }

  function CalcOf(r: PdbRow, prior: real, priorTime: int): Calc
    requires Exceeds(r, prior)
  {
    var excess := r.basal.value - prior;
    var hrs := Pandb.Hours(r.time - priorTime);
    Calc(r.basal.value, prior, r.time - priorTime, excess, hrs, excess * hrs)
  }

  /** The loop from `priorTime` on: each counted row adds its excess over
      the hours since the last counted row and becomes the new prior
      time; other rows leave both alone. */
  function ExcessFrom(rows: seq<PdbRow>, prior: real, priorTime: int): (seq<Calc>, real)
  {
    if rows == [] then ([], 0.0)
    else if Exceeds(rows[0], prior) then
      var c := CalcOf(rows[0], prior, priorTime);
      var rest := ExcessFrom(rows[1..], prior, rows[0].time);
      ([c] + rest.0, c.amt + rest.1)
    else ExcessFrom(rows[1..], prior, priorTime)
  }

  /** `excess_basal_insulin_post_meal`; `df.date_time[0]` of no rows raises
      `KeyError`. */
  function ExcessBasalOf(rows: seq<PdbRow>, prior: real): Result<(seq<Calc>, real)>
  {
    if rows == [] then Err(KeyError) else Ok(ExcessFrom(rows, prior, rows[0].time))
  }

  method ExcessBasalInsulinPostMeal(rows: seq<PdbRow>, priorBasal: real) returns (r: Result<(seq<Calc>, real)>)
    ensures r == ExcessBasalOf(rows, priorBasal)
  {
    if rows == [] {
      return Err(KeyError);
    }
    var calcs: seq<Calc> := [];
    var priorTime := rows[0].time;
    var total := 0.0;
    var i := 0;
    while i < |rows|
      invariant 0 <= i <= |rows|
      invariant var rest := ExcessFrom(rows[i..], priorBasal, priorTime);
        calcs + rest.0 == ExcessFrom(rows, priorBasal, rows[0].time).0
        && total + rest.1 == ExcessFrom(rows, priorBasal, rows[0].time).1
    {
      assert rows[i..][1..] == rows[i + 1..];
      var row := rows[i];
      if row.basal.Some? && row.basal.value > priorBasal {
        var c := CalcOf(row, priorBasal, priorTime);
        calcs := calcs + [c];
        total := total + c.amt;
        priorTime := row.time;
      }
      i := i + 1;
    }
    assert rows[i..] == [];
    assert calcs + [] == calcs;
    r := Ok((calcs, total));
  }

  /** The amounts of a list of calcs. */
  function Amounts(cs: seq<Calc>): (r: seq<real>)
    ensures |r| == |cs| && forall k :: 0 <= k < |cs| ==> r[k] == cs[k].amt
  {
    seq(|cs|, k requires 0 <= k < |cs| => cs[k].amt)
  }

  /** The running total is the sum of the amounts shown in `calcs`. */
  lemma {:induction false} ExcessTotalIsSum(rows: seq<PdbRow>, prior: real, priorTime: int)
    ensures ExcessFrom(rows, prior, priorTime).1 == Sum(Amounts(ExcessFrom(rows, prior, priorTime).0))
  {
    if rows != [] {
      if Exceeds(rows[0], prior) {
        var c := CalcOf(rows[0], prior, priorTime);
        var rest := ExcessFrom(rows[1..], prior, rows[0].time);
        ExcessTotalIsSum(rows[1..], prior, rows[0].time);
        SumCons(c.amt, Amounts(rest.0));
        assert Amounts([c] + rest.0) == [c.amt] + Amounts(rest.0);
      } else {
        ExcessTotalIsSum(rows[1..], prior, priorTime);
      }
    }
  }

  /** Each line of `calcs` is a counted row's excess over the prior rate,
      which is positive, times its hours. */
  predicate WellFormedCalc(c: Calc, prior: real)
  {
    c.base == prior && c.excess == c.curr - prior && c.excess > 0.0
    && c.amt == c.excess * c.hrs && c.hrs == Pandb.Hours(c.minutes)
  }

  lemma {:induction false} CalcsWellFormed(rows: seq<PdbRow>, prior: real, priorTime: int)
    ensures forall k :: 0 <= k < |ExcessFrom(rows, prior, priorTime).0| ==>
      WellFormedCalc(ExcessFrom(rows, prior, priorTime).0[k], prior)
  {
    if rows != [] {
      if Exceeds(rows[0], prior) {
        var c := CalcOf(rows[0], prior, priorTime);
        var rest := ExcessFrom(rows[1..], prior, rows[0].time);
        CalcsWellFormed(rows[1..], prior, rows[0].time);
        assert WellFormedCalc(c, prior);
        assert forall k :: 1 <= k < |[c] + rest.0| ==> ([c] + rest.0)[k] == rest.0[k - 1];
      } else {
        CalcsWellFormed(rows[1..], prior, priorTime);
      }
    }
  }

  lemma SumCons(x: real, s: seq<real>)
    ensures Sum([x] + s) == x + Sum(s)
  {
    SumAppend([x], s);
    assert [x][..0] == [];
  }

  /** With no rate above the prior one nothing is counted. */
  lemma {:induction false} NoExcessNoTotal(rows: seq<PdbRow>, prior: real, priorTime: int)
    requires forall k :: 0 <= k < |rows| ==> !Exceeds(rows[k], prior)
    ensures ExcessFrom(rows, prior, priorTime) == ([], 0.0)
  {
    if rows != [] {
      assert forall k :: 0 <= k < |rows[1..]| ==> rows[1..][k] == rows[k + 1];
      NoExcessNoTotal(rows[1..], prior, priorTime);
    }
  }

  predicate TimeSorted(rows: seq<PdbRow>)
  {
    forall i, j :: 0 <= i < j < |rows| ==> rows[i].time <= rows[j].time
  }

  lemma NonNegativeProduct(x: real, y: real)
    requires x > 0.0 && y >= 0.0
    ensures x * y >= 0.0
  {
  }

  /** On rows in time order every interval is non-negative, and so is the
      total. */
  lemma {:induction false} SortedTotalNonNegative(rows: seq<PdbRow>, prior: real, priorTime: int)
    requires TimeSorted(rows) && forall k :: 0 <= k < |rows| ==> priorTime <= rows[k].time
    ensures var e := ExcessFrom(rows, prior, priorTime);
      e.1 >= 0.0 && forall k :: 0 <= k < |e.0| ==> e.0[k].minutes >= 0
  {
    if rows != [] {
      assert forall k :: 0 <= k < |rows[1..]| ==> rows[1..][k] == rows[k + 1];
      if Exceeds(rows[0], prior) {
        var c := CalcOf(rows[0], prior, priorTime);
        SortedTotalNonNegative(rows[1..], prior, rows[0].time);
        NonNegativeProduct(c.excess, c.hrs);
        var rest := ExcessFrom(rows[1..], prior, rows[0].time);
        assert forall k :: 1 <= k < |[c] + rest.0| ==> ([c] + rest.0)[k] == rest.0[k - 1];
      } else {
        SortedTotalNonNegative(rows[1..], prior, priorTime);
      }
    }
  }

  /** The whole function: `KeyError` on no rows; otherwise, for rows in
      time order, a non-negative total that is the sum of the calcs. */
  lemma ExcessBasalMeaning(rows: seq<PdbRow>, prior: real)
    ensures ExcessBasalOf(rows, prior) == Err(KeyError) <==> rows == []
    ensures rows != [] ==> ExcessBasalOf(rows, prior).value.1 == Sum(Amounts(ExcessBasalOf(rows, prior).value.0))
    ensures rows != [] && TimeSorted(rows) ==> ExcessBasalOf(rows, prior).value.1 >= 0.0
    ensures (rows != [] && forall k :: 0 <= k < |rows| ==> !Exceeds(rows[k], prior)) ==>
      ExcessBasalOf(rows, prior) == Ok(([], 0.0))
  {
    if rows != [] {
      if forall k :: 0 <= k < |rows| ==> !Exceeds(rows[k], prior) {
        NoExcessNoTotal(rows, prior, rows[0].time);
      }
      ExcessTotalIsSum(rows, prior, rows[0].time);
      if TimeSorted(rows) {
        SortedTotalNonNegative(rows, prior, rows[0].time);
      }
    }
  }
}
