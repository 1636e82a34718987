/** The row pipeline of dynamic_insulin.py: rounding timestamps to the
    five-minute grid, merging rows that share a time, generating virtual
    five-minute rows, trickling basal amounts into every row, the
    minutes-since counters, the dynamic-insulin convolution, meal names,
    carb categorisation over a 13-row window and CGM slopes.

    Times are integer minutes since an epoch. Each generator is modelled
    as a method from the sequence of its input rows to the sequence of its
    output rows; a Python 2 generator whose `rows.next()` raises
    `StopIteration` outside a `try` simply ends, which the models follow. */
module DynamicInsulin {
  import opened Common

  // ---------------------------------------------------------------
  // time_rounded and meal_name
  // ---------------------------------------------------------------

  /** A `datetime` as whole minutes since an epoch plus its `second`. */
  datatype Stamp = Stamp(minutes: int, second: int)

  function MinuteOf(t: int): nat { t % 60 }

  /** Python 2 `round`, which rounds halves away from zero. */
  function Round(q: real): int
  {
    if q >= 0.0 then (q + 0.5).Floor else -((-q + 0.5).Floor)
  }

  /** `roundn(x, n) = int(round(float(x)/float(n))*float(n))`. */
  function RoundN(x: int, n: int): int
    requires n > 0
  {
    Round(x as real / n as real) * n
  }

  /** `time_rounded`: the minute rounded to the nearest multiple of five; a
      result of 60 is built as minute 55 plus a five-minute `timedelta`,
      which carries into the next hour, day or month. */
  function TimeRounded(d: Stamp): Stamp
  {
    var hourStart := d.minutes - MinuteOf(d.minutes);
    var m := RoundN(MinuteOf(d.minutes), 5);
    if m == 60 then Stamp(hourStart + (m - 5) + 5, d.second)
    else Stamp(hourStart + m, d.second)
  }

  lemma RoundNFive(x: nat)
    requires x < 60
    ensures RoundN(x, 5) == 5 * ((x + 2) / 5)
  {
    var q := x as real / 5.0;
    var k := (x + 2) / 5;
    assert (q + 0.5) * 10.0 == (2 * x + 5) as real;
    assert k as real <= q + 0.5 < (k + 1) as real;
  }

  /** The rounded time is on the five-minute grid, at most two minutes
      away (so no grid point is nearer), and keeps the seconds. */
  lemma {:induction false} TimeRoundedNearest(d: Stamp)
    ensures TimeRounded(d).minutes % 5 == 0
    ensures -2 <= TimeRounded(d).minutes - d.minutes <= 2
    ensures forall k: int :: k % 5 == 0 ==>
      Abs(TimeRounded(d).minutes - d.minutes) <= Abs(k - d.minutes)
    ensures TimeRounded(d).second == d.second
  {
    var mi := MinuteOf(d.minutes);
    RoundNFive(mi);
    assert (d.minutes - mi) % 5 == 0;
  }

  function Abs(x: int): nat { if x < 0 then -x else x }

  /** A minute of 58 or 59 rolls over to the start of the next hour. */
  lemma {:induction false} TimeRoundedRollover(d: Stamp)
    requires MinuteOf(d.minutes) >= 58
    ensures TimeRounded(d).minutes == d.minutes - MinuteOf(d.minutes) + 60
    ensures MinuteOf(TimeRounded(d).minutes) == 0
  {
    RoundNFive(MinuteOf(d.minutes));
  }

  const Before6: string := "before6"
  const Breakfast: string := "breakfast"
  const Lunch: string := "lunch"
  const Snack: string := "snack"
  const Dinner: string := "dinner"
  const After9: string := "after9"

  /** Minutes since midnight, `mealtime.hour*60 + mealtime.minute`. */
  function DayMinutes(t: int): nat { ((t / 60) % 24) * 60 + t % 60 }

  /** `meal_name` on minutes since midnight. */
  function MealName(mins: int): string
  {
    if mins < 6 * 60 then Before6
    else if mins < 11 * 60 then Breakfast
    else if mins < 15 * 60 then Lunch
    else if mins < 17 * 60 + 30 then Snack
    else if mins < 21 * 60 then Dinner
    else After9
  }

  /** The position of a meal name in the day, by which they are ordered. */
  function MealRank(name: string): nat
  {
    if name == Before6 then 0 else if name == Breakfast then 1
    else if name == Lunch then 2 else if name == Snack then 3
    else if name == Dinner then 4 else 5
  }

  /** The six names split the day into consecutive intervals: each name
      belongs to exactly one interval, and a later time of day never gets
      an earlier meal. */
  lemma MealNameIntervals(mins: int)
    ensures MealName(mins) == Before6 <==> mins < 360
    ensures MealName(mins) == Breakfast <==> 360 <= mins < 660
    ensures MealName(mins) == Lunch <==> 660 <= mins < 900
    ensures MealName(mins) == Snack <==> 900 <= mins < 1050
    ensures MealName(mins) == Dinner <==> 1050 <= mins < 1260
    ensures MealName(mins) == After9 <==> 1260 <= mins
  { }

  lemma MealNameMonotone(m1: int, m2: int)
    requires m1 <= m2
    ensures MealRank(MealName(m1)) <= MealRank(MealName(m2))
  { }

  /** `DayMinutes` is the time modulo a day, so the meal name of a time
      depends only on its time of day. */
  lemma {:induction false} DayMinutesMod(t: int)
    ensures DayMinutes(t) == t % 1440
    ensures DayMinutes(t + 1440) == DayMinutes(t)
  {
    var h := t / 60;
    assert t == 60 * h + t % 60;
    assert h == 24 * (h / 24) + h % 24;
    assert t == 1440 * (h / 24) + (60 * (h % 24) + t % 60);
    assert (t + 1440) / 60 == h + 24;
    assert (t + 1440) % 60 == t % 60;
  }

  // ---------------------------------------------------------------
  // merge_rows
  // ---------------------------------------------------------------

  /** A column value: a number (`int`, `float` or `Decimal`) or anything else. */
  datatype Cell = Num(x: real) | Other(text: string)

  /** The columns of an `insulin_carb` row the pipeline reads; `rtime`
      is in seconds since the epoch. */
  datatype RawRow = RawRow(
    rtime: int,
    realRow: Option<int>,
    user: Option<string>,
    bolusVolume: Option<Cell>,
    basalAmt: Option<Cell>,
    carbs: Option<Cell>,
    recNum: Option<int>)

  /** `timedelta(minutes=5)` in seconds. */
  const VStep: int := 300

  /** A `datetime` as seconds since the epoch. */
  function Seconds(d: Stamp): int { d.minutes * 60 + d.second }

  /** The nested `combine` on one key: the value `dest` ends up with. */
  function Combine(src: Option<Cell>, dest: Option<Cell>): Result<Option<Cell>>
  {
    if src.None? then Ok(dest)
    else if dest.None? then Ok(src)
    else if src.value.Num? && dest.value.Num? then
      if src.value.x == dest.value.x then Ok(dest)
      else Ok(Some(Num(src.value.x + dest.value.x)))
    else Err(TypeError)
  }

  /** `combine` does not depend on which row is the source, and a value
      combined with itself stays as it was. */
  lemma CombineSymmetric(a: Option<Cell>, b: Option<Cell>)
    ensures Combine(a, b) == Combine(b, a)
    ensures a.None? || a.value.Num? ==> Combine(a, a) == Ok(a)
  {
    if a.Some? && b.Some? && a.value.Num? && b.value.Num? {
      assert a.value.x + b.value.x == b.value.x + a.value.x;
    }
  }

  /** `merge_rows(src, dest)`: combines bolus_volume, Basal_amt and carbs
      in that order into `dest`; everything else of `dest` is kept. */
  function MergeRows(src: RawRow, dest: RawRow): (r: Result<RawRow>)
    ensures r.Ok? ==>
      r.value.rtime == dest.rtime && r.value.user == dest.user && r.value.realRow == dest.realRow
    ensures r.Ok? <==>
      (Combine(src.bolusVolume, dest.bolusVolume).Ok? && Combine(src.basalAmt, dest.basalAmt).Ok?
       && Combine(src.carbs, dest.carbs).Ok?)
  {
    match Combine(src.bolusVolume, dest.bolusVolume)
    case Err(e) => Err(e)
    case Ok(b) =>
      match Combine(src.basalAmt, dest.basalAmt)
      case Err(e) => Err(e)
      case Ok(ba) =>
        match Combine(src.carbs, dest.carbs)
        case Err(e) => Err(e)
        case Ok(c) => Ok(dest.(bolusVolume := b, basalAmt := ba, carbs := c))
  }

  /** Swapping the rows changes only which row's other columns survive. */
  lemma MergeRowsSymmetric(a: RawRow, b: RawRow)
    ensures MergeRows(a, b).Ok? == MergeRows(b, a).Ok?
    ensures MergeRows(a, b).Ok? ==>
      MergeRows(a, b).value.bolusVolume == MergeRows(b, a).value.bolusVolume
      && MergeRows(a, b).value.basalAmt == MergeRows(b, a).value.basalAmt
      && MergeRows(a, b).value.carbs == MergeRows(b, a).value.carbs
  {
    CombineSymmetric(a.bolusVolume, b.bolusVolume);
    CombineSymmetric(a.basalAmt, b.basalAmt);
    CombineSymmetric(a.carbs, b.carbs);
  }

  // ---------------------------------------------------------------
  // gen_insulin_carb_vrows
  // ---------------------------------------------------------------

  /** A virtual row: `rtime`, `real_row` 0, the current row's `user`, and
      every other key None. */
  function Virtual(curr: RawRow, vt: int): RawRow
  {
    RawRow(vt, Some(0), curr.user, None, None, None, None)
  }

  /** What the inner `while True` loop ends with: a new current and next
      row and the unread input, or the current row when `rows.next()`
      raised `StopIteration`. */
  datatype Advance = Advanced(curr: RawRow, next: RawRow, rest: seq<RawRow>) | Exhausted(last: RawRow)

  /** The inner loop: the next row becomes current, one more row is read,
      and while it has no later time the current row is merged into it. */
  function AdvanceRows(next: RawRow, rest: seq<RawRow>): (r: Result<Advance>)
    ensures r.Ok? && r.value.Advanced? ==>
      |r.value.rest| < |rest| && r.value.curr.rtime < r.value.next.rtime
    decreases |rest|
  {
    if rest == [] then Ok(Exhausted(next))
    else if rest[0].rtime > next.rtime then Ok(Advanced(next, rest[0], rest[1..]))
    else match MergeRows(next, rest[0])
      case Err(e) => Err(e)
      case Ok(merged) => AdvanceRows(merged, rest[1..])
  }

  function Cons<T>(x: T, r: Result<seq<T>>): Result<seq<T>>
  {
    match r
    case Err(e) => Err(e)
    case Ok(t) => Ok([x] + t)
  }

  /** The outer loop from virtual time `vt`, with the current row, the
      next row and the unread input. */
  function VRowsFrom(curr: RawRow, next: RawRow, rest: seq<RawRow>, vt: int): Result<seq<RawRow>>
    decreases |rest|, if vt < next.rtime then next.rtime - vt else 0
  {
    var adv := if vt >= next.rtime then AdvanceRows(next, rest) else Ok(Advanced(curr, next, rest));
    match adv
    case Err(e) => Err(e)
    case Ok(Exhausted(last)) => Ok([last])
    case Ok(Advanced(c, n, r)) =>
      Cons(if vt == c.rtime then c else Virtual(c, vt), VRowsFrom(c, n, r, vt + VStep))
  }

  /** `gen_insulin_carb_vrows` over the whole input. */
  function GenVRows(rows: seq<RawRow>): Result<seq<RawRow>>
  {
    if |rows| < 2 then Ok([])
    else if rows[0].rtime == rows[1].rtime then Err(GenericError)
    else VRowsFrom(rows[0], rows[1], rows[2..], rows[0].rtime)
  }

  /** The generator, reading its input one row at a time. */
  method GenInsulinCarbVRows(rows: seq<RawRow>) returns (r: Result<seq<RawRow>>)
    ensures r == GenVRows(rows)
  {
    if |rows| < 2 {
      return Ok([]);
    }
    var curr := rows[0];
    var next := rows[1];
    var i := 2;
    if curr.rtime == next.rtime {
      return Err(GenericError);
    }
    var vt := curr.rtime;
    var out: seq<RawRow> := [];
    assert rows[2..] == rows[i..];
    assert GenVRows(rows) == VRowsFrom(curr, next, rows[i..], vt);
    PrependNil(GenVRows(rows));
    while true
      invariant 2 <= i <= |rows|
      invariant GenVRows(rows) == Prepend(out, VRowsFrom(curr, next, rows[i..], vt))
      decreases |rows| - i, if vt < next.rtime then next.rtime - vt else 0
    {
      ghost var full := VRowsFrom(curr, next, rows[i..], vt);
      ghost var adv := if vt >= next.rtime then AdvanceRows(next, rows[i..]) else Ok(Advanced(curr, next, rows[i..]));
      if vt >= next.rtime {
        while true
          invariant 2 <= i <= |rows|
          invariant AdvanceRows(next, rows[i..]) == adv
          decreases |rows| - i
        {
          curr := next;
          if i == |rows| {
            assert adv == Ok(Exhausted(curr));
            assert full == Ok([curr]);
            return Ok(out + [curr]);
          }
          next := rows[i];
          i := i + 1;
          if next.rtime > curr.rtime {
            break;
          }
          var merged := MergeRows(curr, next);
          if merged.Err? {
            assert adv == Err(merged.error);
            return Err(merged.error);
          }
          next := merged.value;
        }
      }
      assert adv == Ok(Advanced(curr, next, rows[i..]));
      var row := if vt == curr.rtime then curr else Virtual(curr, vt);
      assert full == Cons(row, VRowsFrom(curr, next, rows[i..], vt + VStep));
      PrependCons(out, row, VRowsFrom(curr, next, rows[i..], vt + VStep));
      out := out + [row];
      vt := vt + VStep;
    }
  }

  function Prepend<T>(out: seq<T>, r: Result<seq<T>>): Result<seq<T>>
  {
    match r
    case Err(e) => Err(e)
    case Ok(t) => Ok(out + t)
  }

  lemma PrependNil<T>(r: Result<seq<T>>)
    ensures Prepend([], r) == r
  {
    if r.Ok? {
      assert [] + r.value == r.value;
    }
  }

  lemma PrependCons<T>(out: seq<T>, x: T, r: Result<seq<T>>)
    ensures Prepend(out, Cons(x, r)) == Prepend(out + [x], r)
  {
    if r.Ok? {
      assert out + ([x] + r.value) == (out + [x]) + r.value;
    }
  }

  /** Every row before the last is on the grid `vt, vt + VStep, ...`; a row
      is either a real row at exactly that time or a virtual row carrying
      only the time and the user of the current real row. */
  lemma {:induction false} VRowsFromGrid(curr: RawRow, next: RawRow, rest: seq<RawRow>, vt: int)
    ensures VRowsFrom(curr, next, rest, vt).Ok? ==> |VRowsFrom(curr, next, rest, vt).value| >= 1
    ensures VRowsFrom(curr, next, rest, vt).Ok? ==>
      var out := VRowsFrom(curr, next, rest, vt).value;
      forall k :: 0 <= k < |out| - 1 ==> out[k].rtime == vt + VStep * k
    decreases |rest|, if vt < next.rtime then next.rtime - vt else 0
  {
    var adv := if vt >= next.rtime then AdvanceRows(next, rest) else Ok(Advanced(curr, next, rest));
    if adv.Ok? && adv.value.Advanced? {
      var c, n, r := adv.value.curr, adv.value.next, adv.value.rest;
      VRowsFromGrid(c, n, r, vt + VStep);
      var tail := VRowsFrom(c, n, r, vt + VStep);
      if tail.Ok? {
        var out := VRowsFrom(curr, next, rest, vt).value;
        assert out == [if vt == c.rtime then c else Virtual(c, vt)] + tail.value;
        forall k | 0 <= k < |out| - 1
          ensures out[k].rtime == vt + VStep * k
        {
          if k > 0 {
            assert out[k] == tail.value[k - 1];
          }
        }
      }
    }
  }

  lemma GenVRowsGrid(rows: seq<RawRow>)
    requires GenVRows(rows).Ok? && |rows| >= 2
    ensures |GenVRows(rows).value| >= 1
    ensures forall k :: 0 <= k < |GenVRows(rows).value| - 1 ==>
      GenVRows(rows).value[k].rtime == rows[0].rtime + VStep * k
  {
    VRowsFromGrid(rows[0], rows[1], rows[2..], rows[0].rtime);
  }

  predicate StrictlyIncreasing(rows: seq<RawRow>)
  {
    forall i, j :: 0 <= i < j < |rows| ==> rows[i].rtime < rows[j].rtime
  }

  lemma StrictTail(a: RawRow, s: seq<RawRow>)
    requires StrictlyIncreasing([a] + s)
    ensures StrictlyIncreasing(s)
    ensures s != [] ==> s[0].rtime > a.rtime
  {
    assert forall i :: 0 <= i < |s| ==> s[i] == ([a] + s)[i + 1];
    assert ([a] + s)[0] == a;
  }

  /** A row the generator may emit: an input row, or a virtual row at a
      time after some input row, carrying that row's user. */
  ghost predicate Explained(x: RawRow, input: seq<RawRow>)
  {
    x in input || exists c :: c in input && c.rtime < x.rtime && x == Virtual(c, x.rtime)
  }

  lemma ExplainRow(c: RawRow, vt: int, input: seq<RawRow>)
    requires c in input && c.rtime <= vt
    ensures Explained(if vt == c.rtime then c else Virtual(c, vt), input)
  { }

  lemma ExplainCons(row: RawRow, tail: seq<RawRow>, input: seq<RawRow>)
    requires Explained(row, input)
    requires forall x :: x in tail ==> Explained(x, input)
    ensures forall x :: x in [row] + tail ==> Explained(x, input)
  { }

  /** Without repeated times nothing is merged: every emitted row is
      `Explained`, and the input's last row ends the output. */
  lemma {:induction false} VRowsFromNoMerge(curr: RawRow, next: RawRow, rest: seq<RawRow>, vt: int, input: seq<RawRow>)
    requires StrictlyIncreasing([next] + rest)
    requires curr in input && next in input && forall x :: x in rest ==> x in input
    requires curr.rtime <= vt
    ensures VRowsFrom(curr, next, rest, vt).Ok?
    ensures var out := VRowsFrom(curr, next, rest, vt).value;
      out[|out| - 1] == if rest == [] then next else rest[|rest| - 1]
    ensures forall x :: x in VRowsFrom(curr, next, rest, vt).value ==> Explained(x, input)
    decreases |rest|, if vt < next.rtime then next.rtime - vt else 0, 1
  {
    if vt >= next.rtime {
      if rest == [] {
        assert VRowsFrom(curr, next, rest, vt) == Ok([next]);
      } else {
        NoMergeAdvance(curr, next, rest, vt, input);
      }
    } else {
      VRowsFromNoMerge(curr, next, rest, vt + VStep, input);
      var tail := VRowsFrom(curr, next, rest, vt + VStep).value;
      var row := if vt == curr.rtime then curr else Virtual(curr, vt);
      assert VRowsFrom(curr, next, rest, vt).value == [row] + tail;
      ExplainRow(curr, vt, input);
      ExplainCons(row, tail, input);
    }
  }

  /** A pass that reads a row with a later time advances without merging. */
  lemma VRowsFromAdvance(curr: RawRow, next: RawRow, rest: seq<RawRow>, vt: int)
    requires rest != [] && vt >= next.rtime && rest[0].rtime > next.rtime
    ensures VRowsFrom(curr, next, rest, vt) ==
      Cons(if vt == next.rtime then next else Virtual(next, vt), VRowsFrom(next, rest[0], rest[1..], vt + VStep))
  {
    assert AdvanceRows(next, rest) == Ok(Advanced(next, rest[0], rest[1..]));
  }

  lemma {:induction false} NoMergeAdvance(curr: RawRow, next: RawRow, rest: seq<RawRow>, vt: int, input: seq<RawRow>)
    requires StrictlyIncreasing([next] + rest) && rest != [] && vt >= next.rtime
    requires next in input && forall x :: x in rest ==> x in input
    ensures VRowsFrom(curr, next, rest, vt).Ok?
    ensures var out := VRowsFrom(curr, next, rest, vt).value;
      out[|out| - 1] == rest[|rest| - 1]
    ensures forall x :: x in VRowsFrom(curr, next, rest, vt).value ==> Explained(x, input)
    decreases |rest|, 0, 0
  {
    StrictTail(next, rest);
    StrictTail(rest[0], rest[1..]);
    assert [rest[0]] + rest[1..] == rest;
    assert rest[0] in rest;
    VRowsFromNoMerge(next, rest[0], rest[1..], vt + VStep, input);
    if rest[1..] != [] {
      assert rest[1..][|rest[1..]| - 1] == rest[|rest| - 1];
    }
    var tail := VRowsFrom(next, rest[0], rest[1..], vt + VStep).value;
    var row := if vt == next.rtime then next else Virtual(next, vt);
    VRowsFromAdvance(curr, next, rest, vt);
    ExplainRow(next, vt, input);
    ExplainCons(row, tail, input);
  }

  lemma GenVRowsNoMerge(rows: seq<RawRow>)
    requires |rows| >= 2 && StrictlyIncreasing(rows)
    ensures GenVRows(rows).Ok?
    ensures GenVRows(rows).value[|GenVRows(rows).value| - 1] == rows[|rows| - 1]
    ensures forall x :: x in GenVRows(rows).value ==> Explained(x, rows)
  {
    assert rows == [rows[0], rows[1]] + rows[2..];
    assert [rows[1]] + rows[2..] == rows[1..];
    assert StrictlyIncreasing(rows[1..]);
    assert rows[0] in rows && rows[1] in rows;
    VRowsFromNoMerge(rows[0], rows[1], rows[2..], rows[0].rtime, rows);
    if rows[2..] != [] {
      assert rows[2..][|rows[2..]| - 1] == rows[|rows| - 1];
    }
  }

  // ---------------------------------------------------------------
  // basal_amt_12
  // ---------------------------------------------------------------

  /** The two columns `basal_amt_12` reads. */
  datatype BasalRow = BasalRow(basalAmt: Option<real>, basalGap: Option<int>)

  predicate GapStart(r: BasalRow) { r.basalGap == Some(1) }

  /** The most recent non-null basal since the last gap start, if any:
      the reference for what the generator's `prev_valid_basal` holds. */
  function LatestBasal(rows: seq<BasalRow>): Option<real>
    decreases |rows|
  {
    if rows == [] then None
    else if GapStart(rows[|rows| - 1]) then None
    else if rows[|rows| - 1].basalAmt.Some? then rows[|rows| - 1].basalAmt
    else LatestBasal(rows[..|rows| - 1])
  }

  function Drip(b: Option<real>): Option<real>
  {
    if b.None? then None else Some(b.value / 12.0)
  }

  /** `LatestBasal` finds the row a reader would point at: a value means
      a row with that basal and after it neither a gap start nor another
      non-null basal; no value means every row since the last gap start
      (or since the beginning) has a null basal. */
  lemma {:induction false} LatestBasalMeaning(rows: seq<BasalRow>)
    ensures LatestBasal(rows).Some? ==>
      exists j :: 0 <= j < |rows| && rows[j].basalAmt == LatestBasal(rows) && !GapStart(rows[j])
        && forall k :: j < k < |rows| ==> !GapStart(rows[k]) && rows[k].basalAmt.None?
    ensures LatestBasal(rows).None? ==> forall k :: 0 <= k < |rows| ==>
      rows[k].basalAmt.None? || exists g :: k <= g < |rows| && GapStart(rows[g])
    decreases |rows|
  {
    if rows != [] && !GapStart(rows[|rows| - 1]) && rows[|rows| - 1].basalAmt.None? {
      var init := rows[..|rows| - 1];
      LatestBasalMeaning(init);
      if LatestBasal(rows).Some? {
        var j :| 0 <= j < |init| && init[j].basalAmt == LatestBasal(init)
          && !GapStart(init[j]) && forall k :: j < k < |init| ==> !GapStart(init[k]) && init[k].basalAmt.None?;
        assert rows[j] == init[j];
      } else {
        forall k | 0 <= k < |rows|
          ensures rows[k].basalAmt.None? || exists g :: k <= g < |rows| && GapStart(rows[g])
        {
          if k < |init| && init[k].basalAmt.Some? {
            var g :| k <= g < |init| && GapStart(init[g]);
            assert rows[g] == init[g];
          }
        }
      }
    }
  }

  /** `basal_amt_12`: each row's basal divided by twelve, the previous
      valid basal carried over a null, and None inside a gap. The raise
      for "`prev_valid_basal` is None but not in a gap" cannot happen:
      `in_gap` holds exactly when `prev_valid_basal` is None. */
  method BasalAmt12(rows: seq<BasalRow>) returns (out: seq<Option<real>>)
    ensures |out| == |rows|
    ensures forall i :: 0 <= i < |rows| ==> out[i] == Drip(LatestBasal(rows[..i + 1]))
  {
    var prev: Option<real> := None;
    var inGap := true;
    out := [];
    for i := 0 to |rows|
      invariant |out| == i
      invariant forall j :: 0 <= j < i ==> out[j] == Drip(LatestBasal(rows[..j + 1]))
      invariant prev == LatestBasal(rows[..i]) && inGap == prev.None?
    {
      var row := rows[i];
      assert rows[..i + 1][..i] == rows[..i];
      assert rows[..i + 1][i] == row;
      var startGap := row.basalGap == Some(1);
      if startGap || (inGap && row.basalAmt.None?) {
        inGap := true;
        prev := None;
        out := out + [None];
      } else if row.basalAmt.None? {
        if prev.None? {
          assert false;
        }
        out := out + [Some(prev.value / 12.0)];
      } else {
        inGap := false;
        prev := row.basalAmt;
        out := out + [Some(prev.value / 12.0)];
      }
    }
  }

  // ---------------------------------------------------------------
  // compute_minutes_since
  // ---------------------------------------------------------------

  /** The columns `compute_minutes_since` reads and the two it sets. */
  datatype EventRow = EventRow(
    rtime: int,
    carbCode: Option<string>,
    totalBolusVolume: Option<real>,
    minutesSinceLastBolus: Option<int>,
    minutesSinceLastMeal: Option<int>)

  predicate IsBolus(r: EventRow) { r.totalBolusVolume.Some? && r.totalBolusVolume.value > 0.0 }
  predicate IsMeal(r: EventRow) { r.carbCode.Some? && r.carbCode.value != "rescue" }

  /** The index of the latest of the first `n` rows satisfying `p`. */
  function LastWhere(rows: seq<EventRow>, n: nat, p: EventRow -> bool): (r: Option<nat>)
    requires n <= |rows|
    ensures r.Some? ==> r.value < n && p(rows[r.value])
    decreases n
  {
    if n == 0 then None
    else if p(rows[n - 1]) then Some(n - 1)
    else LastWhere(rows, n - 1, p)
  }

  /** `LastWhere` is the latest such row: none after it, and none at all
      when it finds nothing. */
  lemma {:induction false} LastWhereLatest(rows: seq<EventRow>, n: nat, p: EventRow -> bool)
    requires n <= |rows|
    ensures LastWhere(rows, n, p).Some? ==>
      forall k :: LastWhere(rows, n, p).value < k < n ==> !p(rows[k])
    ensures LastWhere(rows, n, p).None? ==> forall k :: 0 <= k < n ==> !p(rows[k])
    decreases n
  {
    if n > 0 && !p(rows[n - 1]) {
      LastWhereLatest(rows, n - 1, p);
    }
  }

  /** The value a counter column ends with at row `i`. */
  function Since(rows: seq<EventRow>, i: nat, p: EventRow -> bool, old_: Option<int>): Option<int>
    requires i < |rows|
  {
    match LastWhere(rows, i + 1, p)
    case None => old_
    case Some(j) => Some(rows[i].rtime - rows[j].rtime)
  }

  /** The time of the latest matching row among the first `n`. */
  function LastTime(rows: seq<EventRow>, n: nat, p: EventRow -> bool): Option<int>
    requires n <= |rows|
  {
    match LastWhere(rows, n, p)
    case None => None
    case Some(j) => Some(rows[j].rtime)
  }

  lemma LastTimeStep(rows: seq<EventRow>, i: nat, p: EventRow -> bool)
    requires i < |rows|
    ensures LastTime(rows, i + 1, p) == if p(rows[i]) then Some(rows[i].rtime) else LastTime(rows, i, p)
  {
  }

  /** Row `i` with both counters set. */
  function Stamped(rows: seq<EventRow>, i: nat): EventRow
    requires i < |rows|
  {
    rows[i].(
      minutesSinceLastBolus := Since(rows, i, IsBolus, rows[i].minutesSinceLastBolus),
      minutesSinceLastMeal := Since(rows, i, IsMeal, rows[i].minutesSinceLastMeal))
  }

  /** One pass of the loop: the two times after row `i` and the row written. */
  method StampRow(rows: seq<EventRow>, i: nat, bolus0: Option<int>, meal0: Option<int>)
    returns (row: EventRow, bolus: Option<int>, meal: Option<int>)
    requires i < |rows|
    requires bolus0 == LastTime(rows, i, IsBolus) && meal0 == LastTime(rows, i, IsMeal)
    ensures bolus == LastTime(rows, i + 1, IsBolus) && meal == LastTime(rows, i + 1, IsMeal)
    ensures row == Stamped(rows, i)
  {
    LastTimeStep(rows, i, IsBolus);
    LastTimeStep(rows, i, IsMeal);
    bolus, meal := bolus0, meal0;
    row := rows[i];
    var thisTime := row.rtime;
    if row.totalBolusVolume.Some? && row.totalBolusVolume.value > 0.0 {
      bolus := Some(thisTime);
    }
    if row.carbCode.Some? && row.carbCode.value != "rescue" {
      meal := Some(thisTime);
    }
    if bolus.Some? {
      row := row.(minutesSinceLastBolus := Some(thisTime - bolus.value));
    }
    if meal.Some? {
      row := row.(minutesSinceLastMeal := Some(thisTime - meal.value));
    }
  }

  /** `compute_minutes_since`: minutes since the latest row with a
      positive bolus and since the latest row with a non-rescue carb code,
      each left as it was until such a row has been seen. */
  method ComputeMinutesSince(rows: seq<EventRow>) returns (out: seq<EventRow>)
    ensures |out| == |rows|
    ensures forall i :: 0 <= i < |rows| ==> out[i] == rows[i].(
      minutesSinceLastBolus := Since(rows, i, IsBolus, rows[i].minutesSinceLastBolus),
      minutesSinceLastMeal := Since(rows, i, IsMeal, rows[i].minutesSinceLastMeal))
  {
    var lastBolusTime: Option<int> := None;
    var lastMealTime: Option<int> := None;
    out := [];
    for i := 0 to |rows|
      invariant |out| == i
      invariant forall j :: 0 <= j < i ==> out[j] == Stamped(rows, j)
      invariant lastBolusTime == LastTime(rows, i, IsBolus)
      invariant lastMealTime == LastTime(rows, i, IsMeal)
    {
      var row;
      row, lastBolusTime, lastMealTime := StampRow(rows, i, lastBolusTime, lastMealTime);
      out := out + [row];
    }
  }

  /** On a bolus row the bolus counter is 0, and before the first bolus
      row it is left unset; likewise for meals. */
  lemma SinceEventRow(rows: seq<EventRow>, i: nat, p: EventRow -> bool, old_: Option<int>)
    requires i < |rows|
    ensures p(rows[i]) ==> Since(rows, i, p, old_) == Some(0)
    ensures (forall k :: 0 <= k <= i ==> !p(rows[k])) ==> Since(rows, i, p, old_) == old_
  {
    LastWhereLatest(rows, i + 1, p);
  }

  // ---------------------------------------------------------------
  // compute_dynamic_insulin
  // ---------------------------------------------------------------

  /** The columns the convolution reads. */
  datatype InsulinRow = InsulinRow(basalAmt12: Option<real>, totalBolusVolume: Option<real>)

  /** Python's `x or 0.0` on a number that may be None. */
  function OrZero(x: Option<real>): real { if x.None? then 0.0 else x.value }

  function InsulinIn(r: InsulinRow): real { OrZero(r.basalAmt12) + OrZero(r.totalBolusVolume) }

  /** `sum(IAC[k] * ins_in(last[k]) for k < w)`, in loop order. */
  function Convolve(last: seq<InsulinRow>, iac: seq<real>, w: nat): real
    requires w <= |last| && w <= |iac|
    decreases w
  {
    if w == 0 then 0.0 else Convolve(last, iac, w - 1) + iac[w - 1] * InsulinIn(last[w - 1])
  }

  function Min(a: nat, b: nat): nat { if a <= b then a else b }

  /** The newest `min(n, i + 1)` rows up to row `i`, newest first: the
      buffer `lastrows` after row `i`. */
  function Recent(rows: seq<InsulinRow>, i: nat, n: nat): (last: seq<InsulinRow>)
    requires i < |rows|
    ensures |last| == Min(n, i + 1)
  {
    seq(Min(n, i + 1), k requires 0 <= k < Min(n, i + 1) => rows[i - k])
  }

  predicate AnyNullIn(last: seq<InsulinRow>)
  {
    exists k :: 0 <= k < |last| && last[k].basalAmt12.None?
  }

  /** The dynamic insulin of row `i`: None when a buffered row has a null
      basal_amt_12, otherwise the convolution of the buffer with the IAC. */
  function DynamicInsulinAt(rows: seq<InsulinRow>, iac: seq<real>, i: nat): Option<real>
    requires i < |rows|
  {
    var last := Recent(rows, i, |iac|);
    if AnyNullIn(last) then None else Some(Convolve(last, iac, |last|))
  }

  /** The nested `anynull`. */
  method AnyNull(rowSeq: seq<InsulinRow>) returns (b: bool)
    ensures b == AnyNullIn(rowSeq)
  {
    for i := 0 to |rowSeq|
      invariant forall k :: 0 <= k < i ==> rowSeq[k].basalAmt12.Some?
    {
      if rowSeq[i].basalAmt12.None? {
        return true;
      }
    }
    return false;
  }

  /** `compute_dynamic_insulin`, with the IAC given as a parameter. */
  method ComputeDynamicInsulin(rows: seq<InsulinRow>, iac: seq<real>) returns (di: seq<Option<real>>)
    ensures |di| == |rows|
    ensures forall i :: 0 <= i < |rows| ==> di[i] == DynamicInsulinAt(rows, iac, i)
  {
    var n := |iac|;
    var lastrows: seq<InsulinRow> := [];
    di := [];
    for i := 0 to |rows|
      invariant |di| == i
      invariant forall j :: 0 <= j < i ==> di[j] == DynamicInsulinAt(rows, iac, j)
      invariant i > 0 ==> lastrows == Recent(rows, i - 1, n)
      invariant i == 0 ==> lastrows == []
    {
      lastrows := [rows[i]] + lastrows;
      if |lastrows| > n {
        lastrows := lastrows[..|lastrows| - 1];
      }
      assert lastrows == Recent(rows, i, n);
      var d := InsulinAt(lastrows, iac);
      di := di + [d];
    }
  }

  /** The body of the row loop on the buffer: None when a basal value is
      missing, otherwise the convolution over the buffered rows. */
  method InsulinAt(lastrows: seq<InsulinRow>, iac: seq<real>) returns (d: Option<real>)
    requires |lastrows| <= |iac|
    ensures d == if AnyNullIn(lastrows) then None else Some(Convolve(lastrows, iac, |lastrows|))
  {
    var gap := AnyNull(lastrows);
    if gap {
      return None;
    }
    var incr := 0.0;
    var w := Min(|iac|, |lastrows|);
    for k := 0 to w
      invariant incr == Convolve(lastrows, iac, k)
    {
      incr := incr + iac[k] * InsulinIn(lastrows[k]);
    }
    return Some(incr);
  }

  /** The convolution of an impulse: when only the buffered row `k0`
      carries insulin, the sum is that insulin times its IAC weight. */
  lemma {:induction false} ConvolveImpulse(last: seq<InsulinRow>, iac: seq<real>, w: nat, k0: nat)
    requires w <= |last| && w <= |iac|
    requires forall k :: 0 <= k < w && k != k0 ==> InsulinIn(last[k]) == 0.0
    ensures Convolve(last, iac, w) == if k0 < w then iac[k0] * InsulinIn(last[k0]) else 0.0
    decreases w
  {
    if w > 0 {
      ConvolveImpulse(last, iac, w - 1, k0);
    }
  }

  /** A single bolus `b` at row `j0`, with zero basal everywhere, comes
      back as the insulin action curve itself: `IAC[i - j0] * b` for the
      `N` rows from `j0` on, and zero before and after. */
  lemma ImpulseResponse(rows: seq<InsulinRow>, iac: seq<real>, j0: nat, b: real, i: nat)
    requires j0 <= i < |rows|
    requires forall j :: 0 <= j < |rows| ==> rows[j].basalAmt12 == Some(0.0)
    requires forall j :: 0 <= j < |rows| && j != j0 ==> rows[j].totalBolusVolume.None?
    requires rows[j0].totalBolusVolume == Some(b)
    ensures DynamicInsulinAt(rows, iac, i) == Some(if i - j0 < |iac| then iac[i - j0] * b else 0.0)
  {
    var last := Recent(rows, i, |iac|);
    assert !AnyNullIn(last);
    assert DynamicInsulinAt(rows, iac, i) == Some(Convolve(last, iac, |last|));
    assert i - j0 < |last| <==> i - j0 < |iac|;
    forall k | 0 <= k < |last| && k != i - j0
      ensures InsulinIn(last[k]) == 0.0
    {
      assert last[k] == rows[i - k];
    }
    ConvolveImpulse(last, iac, |last|, i - j0);
    if i - j0 < |last| {
      assert last[i - j0] == rows[j0];
      assert InsulinIn(rows[j0]) == b;
      assert Convolve(last, iac, |last|) == iac[i - j0] * b;
    }
  }

  // ---------------------------------------------------------------
  // categorize_carbs
  // ---------------------------------------------------------------

  /** The columns `categorize_carbs` reads and writes. */
  datatype CarbRow = CarbRow(
    rtime: int,
    carbs: Option<real>,
    totalBolusVolume: Option<real>,
    recNums: Option<string>,
    carbCode: Option<string>,
    tags: string,
    rescueCarbs: int,
    correctiveInsulin: int)

  const WinSize: nat := 13
  const Middle: nat := 6
  const Rescue: string := "rescue"

  /** Python 2's `x > 0`, which is False for None. */
  predicate Positive(x: Option<real>) { x.Some? && x.value > 0.0 }

  /** The nested `initRow` on a row read through the cursor's column
      list: the three columns are (re)initialised. */
  function InitRow(r: CarbRow): CarbRow
  {
    r.(tags := "", rescueCarbs := 0, correctiveInsulin := 0)
  }

  predicate AnyCarbs(window: seq<CarbRow>) { exists k :: 0 <= k < |window| && Positive(window[k].carbs) }
  predicate AnyInsulin(window: seq<CarbRow>) { exists k :: 0 <= k < |window| && Positive(window[k].totalBolusVolume) }

  /** The nested `addTag`: a single space separates tags. */
  function AddTag(curr: string, tag: string): string
  {
    if curr != "" then curr + " " + tag else tag
  }

  predicate ValidCarbCode(code: Option<string>)
  {
    code.Some? && code.value in {Before6, Breakfast, Lunch, Snack, Dinner, After9, Rescue}
  }

  /** One pass of the `while True` body on the centre row `mid` of
      `window`: carbs are a meal when the window holds a bolus and rescue
      carbs otherwise; a bolus with no carbs in the window is corrective. */
  function Categorize(window: seq<CarbRow>, mid: CarbRow): (r: CarbRow)
    ensures Positive(mid.carbs) ==> ValidCarbCode(r.carbCode)
    ensures r.rtime == mid.rtime && r.carbs == mid.carbs && r.totalBolusVolume == mid.totalBolusVolume
  {
    var m1 :=
      if Positive(mid.carbs) then
        if AnyInsulin(window) then
          var name := MealName(DayMinutes(mid.rtime));
          mid.(carbCode := Some(name), tags := AddTag(mid.tags, name))
        else
          mid.(tags := AddTag(mid.tags, "rescue_carbs"), rescueCarbs := 1, carbCode := Some(Rescue))
      else mid;
    if Positive(m1.totalBolusVolume) && !AnyCarbs(window) then
      m1.(tags := AddTag(m1.tags, "corrective_insulin"), correctiveInsulin := 1)
    else m1
  }

  /** What a categorised centre row means, given that its window contains
      it: carbs get the meal name of their time exactly when the window
      has a bolus and are rescue carbs otherwise; only bolus-only windows
      are corrective; and a row gets at most one tag. */
  lemma CategorizeMeaning(window: seq<CarbRow>, mid: CarbRow)
    requires mid in window && mid == InitRow(mid)
    ensures var r := Categorize(window, mid);
      && (Positive(mid.carbs) && AnyInsulin(window) ==> r.carbCode == Some(MealName(DayMinutes(mid.rtime))))
      && (Positive(mid.carbs) && !AnyInsulin(window) ==> r.carbCode == Some(Rescue))
      && (r.rescueCarbs == 1 <==> Positive(mid.carbs) && !AnyInsulin(window))
      && (r.correctiveInsulin == 1 <==> Positive(mid.totalBolusVolume) && !AnyCarbs(window))
      && (!Positive(mid.carbs) ==> r.carbCode == mid.carbCode)
      && r.tags in {"", "rescue_carbs", "corrective_insulin", Before6, Breakfast, Lunch, Snack, Dinner, After9}
  {
    var k :| 0 <= k < |window| && window[k] == mid;
    if Positive(mid.carbs) {
      assert AnyCarbs(window);
    }
    if Positive(mid.totalBolusVolume) {
      assert AnyInsulin(window);
    }
  }

  /** The rows of the 13-row window whose centre is row `k + 6`, as
      `initRow` leaves them. */
  function Window(rows: seq<CarbRow>, k: nat): seq<CarbRow>
    requires k + WinSize <= |rows|
  {
    seq(WinSize, j requires 0 <= j < WinSize => InitRow(rows[k + j]))
  }

  /** The debugging trap `rec_nums == '87789&87790'`. */
  predicate Trap(r: CarbRow) { r.recNums == Some("87789&87790") }

  /** The centre rows the generator yields, `rows[6 .. 6 + count]`,
      categorised, or the trap's exception if one of the first `checked`
      centres springs it. */
  function Centres(rows: seq<CarbRow>, count: nat, checked: nat): Result<seq<CarbRow>>
    requires count <= checked && checked + WinSize - 1 <= |rows|
  {
    if exists c :: Middle <= c < checked + Middle && Trap(rows[c]) then Err(GenericError)
    else Ok(seq(count, k requires 0 <= k < count => Categorize(Window(rows, k), InitRow(rows[k + Middle]))))
  }

  /** Sliding the window one row on. */
  lemma WindowShift(rows: seq<CarbRow>, k: nat)
    requires k + WinSize < |rows|
    ensures Window(rows, k)[1..] + [InitRow(rows[k + WinSize])] == Window(rows, k + 1)
  {
  }

  /** The centres yielded so far, when none of them nor the next springs the trap. */
  lemma CentresDone(rows: seq<CarbRow>, out: seq<CarbRow>)
    requires |out| + WinSize <= |rows|
    requires forall k :: 0 <= k < |out| ==> out[k] == Categorize(Window(rows, k), InitRow(rows[k + Middle]))
    requires forall c :: Middle <= c < |out| + 1 + Middle ==> !Trap(rows[c])
    ensures Centres(rows, |out|, |out| + 1) == Ok(out)
  {
    assert !exists c :: Middle <= c < |out| + 1 + Middle && Trap(rows[c]);
    assert out == seq(|out|, k requires 0 <= k < |out| => Categorize(Window(rows, k), InitRow(rows[k + Middle])));
  }

  /** One more categorised centre keeps the yielded rows in step. */
  lemma CentresAppend(rows: seq<CarbRow>, out: seq<CarbRow>, mid: CarbRow)
    requires |out| + WinSize <= |rows|
    requires forall k :: 0 <= k < |out| ==> out[k] == Categorize(Window(rows, k), InitRow(rows[k + Middle]))
    requires mid == Categorize(Window(rows, |out|), InitRow(rows[|out| + Middle]))
    ensures forall k :: 0 <= k < |out| + 1 ==> (out + [mid])[k] == Categorize(Window(rows, k), InitRow(rows[k + Middle]))
  {
  }

  /** A trapped centre among those checked ends the generator. */
  lemma CentresTrapped(rows: seq<CarbRow>, count: nat, checked: nat, c: nat)
    requires count <= checked && checked + WinSize - 1 <= |rows|
    requires Middle <= c < checked + Middle && Trap(rows[c])
    ensures Centres(rows, count, checked) == Err(GenericError)
  {
  }

  /** `categorize_carbs` as written: the window is filled, then each
      centre is categorised, the next row is read and only then is the
      centre yielded, so the centre whose window ends at the last row is
      categorised but never yielded. `pipe.shift` is taken to drop the
      oldest row and append the new one. */
  method CategorizeCarbs(rows: seq<CarbRow>) returns (r: Result<seq<CarbRow>>)
    ensures |rows| < WinSize ==> r == Ok([])
    ensures |rows| >= WinSize ==> r == Centres(rows, |rows| - WinSize, |rows| - WinSize + 1)
  {
    if |rows| < WinSize {
      return Ok([]);
    }
    var window: seq<CarbRow> := [];
    var next := 0;
    while |window| < WinSize
      invariant next == |window| <= WinSize
      invariant window == seq(|window|, j requires 0 <= j < |window| => InitRow(rows[j]))
    {
      window := window + [InitRow(rows[next])];
      next := next + 1;
    }
    var out: seq<CarbRow> := [];
    while true
      invariant WinSize <= next <= |rows|
      invariant window == Window(rows, next - WinSize)
      invariant |out| == next - WinSize
      invariant forall k :: 0 <= k < |out| ==> out[k] == Categorize(Window(rows, k), InitRow(rows[k + Middle]))
      invariant forall c :: Middle <= c < |out| + Middle ==> !Trap(rows[c])
      decreases |rows| - next
    {
      var mid := window[Middle];
      ghost var c := next - WinSize + Middle;
      assert mid == InitRow(rows[c]);
      if mid.recNums == Some("87789&87790") {
        CentresTrapped(rows, |rows| - WinSize, |rows| - WinSize + 1, c);
        return Err(GenericError);
      }
      mid := Categorize(window, mid);
      if Positive(mid.carbs) && !ValidCarbCode(mid.carbCode) {
        assert false;
      }
      if next == |rows| {
        assert !Trap(rows[c]);
        CentresDone(rows, out);
        return Ok(out);
      }
      WindowShift(rows, next - WinSize);
      CentresAppend(rows, out, mid);
      window := window[1..] + [InitRow(rows[next])];
      next := next + 1;
      out := out + [mid];
    }
  }

  /** The source's comment intends to lose only the first six and the last
      six rows. As written the last seven are lost: with exactly thirteen
      rows there is one full window, yet nothing is yielded. */
  lemma CategorizeCarbsDropsLastCentre(rows: seq<CarbRow>)
    requires |rows| == WinSize
    requires forall k :: 0 <= k < |rows| ==> !Trap(rows[k])
    ensures Centres(rows, |rows| - WinSize, |rows| - WinSize + 1) == Ok([])
    ensures CategorizeCarbsIntended(rows) == Ok([Categorize(Window(rows, 0), InitRow(rows[Middle]))])
  {
    assert !Trap(rows[Middle]);
    assert !exists c :: Middle <= c < 1 + Middle && Trap(rows[c]);
    assert seq(1, k requires 0 <= k < 1 => Categorize(Window(rows, k), InitRow(rows[k + Middle])))
      == [Categorize(Window(rows, 0), InitRow(rows[Middle]))];
    assert Centres(rows, 0, 1).Ok? && |Centres(rows, 0, 1).value| == 0;
  }

  /** The behaviour the comment describes: every row with six rows on
      each side is categorised and yielded, in order. */
  function CategorizeCarbsIntended(rows: seq<CarbRow>): Result<seq<CarbRow>>
  {
    if |rows| < WinSize then Ok([])
    else Centres(rows, |rows| - WinSize + 1, |rows| - WinSize + 1)
  }

  lemma CategorizeCarbsIntendedCentres(rows: seq<CarbRow>)
    requires forall k :: 0 <= k < |rows| ==> !Trap(rows[k])
    ensures CategorizeCarbsIntended(rows).Ok?
    ensures |rows| >= WinSize ==> |CategorizeCarbsIntended(rows).value| == |rows| - 2 * Middle
    ensures forall k :: 0 <= k < |rows| - 2 * Middle ==>
      CategorizeCarbsIntended(rows).value[k] == Categorize(Window(rows, k), InitRow(rows[k + Middle]))
  { }

  // ---------------------------------------------------------------
  // compute_cgm_slopes
  // ---------------------------------------------------------------

  /** The columns `compute_cgm_slopes` reads and writes. */
  datatype CgmRow = CgmRow(
    cgm: Option<real>,
    slope10: Option<real>, slope30: Option<real>, slope45: Option<real>,
    deriv10: Option<real>, deriv30: Option<real>, deriv45: Option<real>)

  const CgmWinSize: nat := 10

  /** `curr - prior` when both are present, else the column as it was. */
  function Diff(curr: Option<real>, prior: Option<real>, was: Option<real>): Option<real>
  {
    if curr.Some? && prior.Some? then Some(curr.value - prior.value) else was
  }

  /** The body of the loop on the newest row `curr`, whose predecessors
      are `prev` (at least nine rows, oldest first): `window[-1 - k]` is
      `prev[|prev| - k]`. The slopes are set first and the derivatives
      then read the new slopes. */
  function UpdateRow(prev: seq<CgmRow>, curr: CgmRow): CgmRow
    requires |prev| >= 9
  {
    var p2, p6, p9 := prev[|prev| - 2], prev[|prev| - 6], prev[|prev| - 9];
    var c := curr.(
      slope10 := Diff(curr.cgm, p2.cgm, curr.slope10),
      slope30 := Diff(curr.cgm, p6.cgm, curr.slope30),
      slope45 := Diff(curr.cgm, p9.cgm, curr.slope45));
    c.(
      deriv10 := Diff(c.slope10, p2.slope10, c.deriv10),
      deriv30 := Diff(c.slope30, p6.slope30, c.deriv30),
      deriv45 := Diff(c.slope45, p9.slope45, c.deriv45))
  }

  /** The rows after the generator has updated every row from the tenth
      on, each from the already-updated rows before it. */
  function Slopes(rows: seq<CgmRow>): (r: seq<CgmRow>)
    ensures |r| == |rows|
    decreases |rows|
  {
    if |rows| < CgmWinSize then rows
    else var p := Slopes(rows[..|rows| - 1]); p + [UpdateRow(p, rows[|rows| - 1])]
  }

  /** `compute_cgm_slopes`: a window of ten rows; the newest is updated,
      the oldest is yielded once the next row has been read, and the
      window is flushed at the end, so every row comes out once, in
      order. Fewer than ten rows end the generator before its loop. */
  method ComputeCgmSlopes(rows: seq<CgmRow>) returns (out: seq<CgmRow>)
    ensures |rows| < CgmWinSize ==> out == []
    ensures |rows| >= CgmWinSize ==> out == Slopes(rows)
  {
    if |rows| < CgmWinSize {
      return [];
    }
    var window := rows[..CgmWinSize];
    var next := CgmWinSize;
    out := [];
    assert rows[..next - 1] == Slopes(rows[..next - 1]);
    while true
      invariant CgmWinSize <= next <= |rows|
      invariant |window| == CgmWinSize
      invariant out + window[..CgmWinSize - 1] == Slopes(rows[..next - 1])
      invariant window[CgmWinSize - 1] == rows[next - 1]
      decreases |rows| - next
    {
      ghost var p := Slopes(rows[..next - 1]);
      var curr := UpdateRow(window[..CgmWinSize - 1], window[CgmWinSize - 1]);
      assert curr == UpdateRow(p, rows[next - 1]) by {
        UpdateRowSuffix(p, out, window[..CgmWinSize - 1], rows[next - 1]);
      }
      assert rows[..next][..next - 1] == rows[..next - 1];
      assert Slopes(rows[..next]) == p + [curr];
      window := window[CgmWinSize - 1 := curr];
      if next == |rows| {
        assert rows[..next] == rows;
        assert out + window == Slopes(rows);
        return out + window;
      }
      out := out + [window[0]];
      window := window[1..] + [rows[next]];
      next := next + 1;
    }
  }

  lemma UpdateRowSuffix(p: seq<CgmRow>, out: seq<CgmRow>, w: seq<CgmRow>, curr: CgmRow)
    requires p == out + w && |w| >= 9
    ensures UpdateRow(p, curr) == UpdateRow(w, curr)
  {
    assert p[|p| - 2] == w[|w| - 2] && p[|p| - 6] == w[|w| - 6] && p[|p| - 9] == w[|w| - 9];
  }

  /** The rows before the tenth are yielded as they came; from then on a
      slope is the CGM difference to the row two, six or nine rows back
      when both readings exist. */
  lemma {:induction false} SlopesMeaning(rows: seq<CgmRow>, i: nat)
    requires i < |rows|
    ensures i < CgmWinSize - 1 ==> Slopes(rows)[i] == rows[i]
    ensures i >= CgmWinSize - 1 ==>
      Slopes(rows)[i].cgm == rows[i].cgm
      && Slopes(rows)[i].slope10 == Diff(rows[i].cgm, rows[i - 2].cgm, rows[i].slope10)
      && Slopes(rows)[i].slope30 == Diff(rows[i].cgm, rows[i - 6].cgm, rows[i].slope30)
      && Slopes(rows)[i].slope45 == Diff(rows[i].cgm, rows[i - 9].cgm, rows[i].slope45)
    decreases |rows|
  {
    if i < |rows| - 1 {
      SlopesMeaning(rows[..|rows| - 1], i);
      assert rows[..|rows| - 1][i] == rows[i];
    } else if |rows| >= CgmWinSize {
      var p := Slopes(rows[..|rows| - 1]);
      SlopesKeepCgm(rows[..|rows| - 1]);
      assert p[|p| - 2].cgm == rows[i - 2].cgm;
      assert p[|p| - 6].cgm == rows[i - 6].cgm;
      assert p[|p| - 9].cgm == rows[i - 9].cgm;
    }
  }

  lemma {:induction false} SlopesKeepCgm(rows: seq<CgmRow>)
    ensures forall i :: 0 <= i < |rows| ==> Slopes(rows)[i].cgm == rows[i].cgm
    decreases |rows|
  {
    if |rows| >= CgmWinSize {
      SlopesKeepCgm(rows[..|rows| - 1]);
    }
  }

  /** Once the rows `k` back have their own slopes, a derivative is a
      second difference of the CGM trace: `cgm[i] - 2 cgm[i-k] + cgm[i-2k]`
      (shown here for the 10-minute pair, `k = 2`). */
  lemma SecondDifference10(rows: seq<CgmRow>, i: nat)
    requires CgmWinSize - 1 + 2 <= i < |rows|
    requires rows[i].cgm.Some? && rows[i - 2].cgm.Some? && rows[i - 4].cgm.Some?
    ensures Slopes(rows)[i].deriv10
      == Some(rows[i].cgm.value - 2.0 * rows[i - 2].cgm.value + rows[i - 4].cgm.value)
  {
    SlopesMeaning(rows, i);
    SlopesMeaning(rows, i - 2);
    SlopesPrefix(rows, i);
  }

  /** The updated rows before row `i` are those of the prefix. */
  lemma {:induction false} SlopesPrefix(rows: seq<CgmRow>, i: nat)
    requires CgmWinSize - 1 <= i < |rows|
    ensures Slopes(rows)[i] == UpdateRow(Slopes(rows)[..i], rows[i])
    decreases |rows|
  {
    var p := Slopes(rows[..|rows| - 1]);
    if i < |rows| - 1 {
      SlopesPrefix(rows[..|rows| - 1], i);
      assert rows[..|rows| - 1][i] == rows[i];
      assert Slopes(rows)[..i] == p[..i];
    } else {
      assert Slopes(rows)[..i] == p;
    }
  }
}
