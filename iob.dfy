/** The first insulin-on-board script, iob.py: value coercion, a
    virtual-row generator that repeats the current real row every five
    minutes, and the basal drip. Its `time_rounded` is the one modelled
    in `DynamicInsulin`. */
module Iob {
  import opened Common
  import DI = DynamicInsulin

  /** A column value as MySQLdb hands it over: unicode text or anything else. */
  datatype Raw = Unicode(text: string) | NotUnicode

  /** `float_or_none`: non-empty unicode text is converted by `float`, which
      raises on text that is not a number; anything else is None. */
  function FloatOrNone(x: Raw): (r: Result<Option<real>>)
    ensures !(x.Unicode? && |x.text| > 0) ==> r == Ok(None)
    ensures r.Ok? && r.value.Some? ==> x.Unicode? && ParseFloat(x.text) == Ok(r.value.value)
    ensures r.Err? ==> x.Unicode? && ParseFloat(x.text).Err?
  {
    if x.Unicode? && |x.text| > 0 then
      match ParseFloat(x.text)
      case Ok(v) => Ok(Some(v))
      case Err(e) => Err(e)
    else Ok(None)
  }

  /** Numbers printed as text are read back. */
  lemma FloatOrNoneOfInt(n: nat)
    ensures FloatOrNone(Unicode(NatToString(n))) == Ok(Some(n as real))
    ensures FloatOrNone(Unicode("-" + NatToString(n))) == Ok(Some(-(n as real)))
  {
    ParseFloatOfInt(n);
  }

  /** A coerced row of `insulin_carb`. */
  datatype Row = Row(epoch: DI.Stamp, basalAmt: Option<real>, bolusVolume: Option<real>)

  /** `compute_rtime`, in seconds. */
  function RTime(r: Row): int { DI.Seconds(DI.TimeRounded(r.epoch)) }

  /** `copy(curr_row)` with `rtime` set. */
  datatype VRow = VRow(src: Row, rtime: int)

  /** What `gen_all_rows` produces: the rows yielded and the pairs
      `merge_rows` appended to the global `merged_rows`. */
  datatype Gen = Gen(out: seq<VRow>, merged: seq<(Row, Row)>)

  function Before(out: seq<VRow>, merged: seq<(Row, Row)>, g: Gen): Gen
  {
    Gen(out + g.out, merged + g.merged)
  }

  /** The pair `merge_rows` logs on one pass: when the virtual time equals
      the next row's time. */
  function MergeAt(curr: Row, ct: int, next: Row): seq<(Row, Row)>
  {
    if RTime(next) == ct then [(curr, next)] else []
  }

  /** The `while True` loop of `gen_all_rows`. `ct` is `curr_time`, which is
      the virtual time; the rows advance (at most once per pass) whenever
      the next row is less than five minutes ahead of it. */
  function From(curr: Row, ct: int, next: Row, rest: seq<Row>): Gen
    decreases |rest|, if RTime(next) - ct >= 0 then RTime(next) - ct else 0
  {
    var m := MergeAt(curr, ct, next);
    if RTime(next) - ct < DI.VStep then
      if rest == [] then Gen([], m)
      else Before([VRow(next, RTime(next))], m, From(next, RTime(next) + DI.VStep, rest[0], rest[1..]))
    else Before([VRow(curr, ct)], m, From(curr, ct + DI.VStep, next, rest))
  }

  function GenAll(rows: seq<Row>): Gen
  {
    if |rows| < 2 then Gen([], []) else From(rows[0], RTime(rows[0]), rows[1], rows[2..])
  }

  /** One pass that advances to `next` when `rest` is not empty. */
  lemma FromAdvance(curr: Row, ct: int, next: Row, rest: seq<Row>)
    requires RTime(next) - ct < DI.VStep && rest != []
    ensures From(curr, ct, next, rest) ==
      Before([VRow(next, RTime(next))], MergeAt(curr, ct, next), From(next, RTime(next) + DI.VStep, rest[0], rest[1..]))
  {
  }

  /** The pass that reaches the last row ends the generator. */
  lemma FromLast(curr: Row, ct: int, next: Row)
    requires RTime(next) - ct < DI.VStep
    ensures From(curr, ct, next, []) == Gen([], MergeAt(curr, ct, next))
  {
  }

  /** One pass that emits the current row. */
  lemma FromEmit(curr: Row, ct: int, next: Row, rest: seq<Row>)
    requires RTime(next) - ct >= DI.VStep
    ensures From(curr, ct, next, rest) == Before([VRow(curr, ct)], MergeAt(curr, ct, next), From(curr, ct + DI.VStep, next, rest))
  {
  }

  lemma BeforeBefore(out: seq<VRow>, merged: seq<(Row, Row)>, xs: seq<VRow>, m: seq<(Row, Row)>, g: Gen)
    ensures Before(out, merged, Before(xs, m, g)) == Before(out + xs, merged + m, g)
  {
    ConcatAssoc(out, xs, g.out);
    ConcatAssoc(merged, m, g.merged);
  }

  /** `gen_all_rows`, returning the generated rows and the merge log. */
  method GenAllRows(rows: seq<Row>) returns (out: seq<VRow>, merged: seq<(Row, Row)>)
    ensures Gen(out, merged) == GenAll(rows)
  {
    out := [];
    merged := [];
    if |rows| < 2 {
      return;
    }
    var curr := rows[0];
    var next := rows[1];
    var i := 2;
    var currTime := RTime(curr);
    var nextTime := RTime(next);
    assert rows[2..] == rows[i..];
    while true
      invariant 2 <= i <= |rows|
      invariant nextTime == RTime(next)
      invariant GenAll(rows) == Before(out, merged, From(curr, currTime, next, rows[i..]))
      decreases |rows| - i, if nextTime - currTime >= 0 then nextTime - currTime else 0
    {
      ghost var merged0, curr0, ct0, next0, rest0 := merged, curr, currTime, next, rows[i..];
      ghost var m := MergeAt(curr, currTime, next);
      if nextTime == currTime {
        merged := merged + [(curr, next)];
      }
      assert merged == merged0 + m;
      if nextTime - currTime < DI.VStep {
        if i == |rows| {
          FromLast(curr0, ct0, next0);
          assert out + [] == out;
          return;
        }
        curr := next;
        next := rows[i];
        assert rest0[1..] == rows[i + 1..];
        FromAdvance(curr0, ct0, next0, rest0);
        i := i + 1;
        currTime := RTime(curr);
        nextTime := RTime(next);
      } else {
        FromEmit(curr0, ct0, next0, rest0);
      }
      var vrow := VRow(curr, currTime);
      currTime := currTime + DI.VStep;
      BeforeBefore(out, merged0, [vrow], m, From(curr, currTime, next, rows[i..]));
      out := out + [vrow];
    }
  }

  /** Rows `a .. b - 1` of the run that `src` produces from time `t`. */
  function Run(src: Row, t: int, a: nat, b: nat): (s: seq<VRow>)
    ensures |s| == if a <= b then b - a else 0
    decreases b - a
  {
    if a < b then [VRow(src, t + DI.VStep * a)] + Run(src, t, a + 1, b) else []
  }

  /** How many five-minute steps from a row leave the next one at least
      five minutes ahead. */
  function Steps(gap: int): nat { if gap >= DI.VStep then gap / DI.VStep else 0 }

  lemma StepsMeaning(gap: int, k: nat)
    ensures k < Steps(gap) <==> gap - DI.VStep * k >= DI.VStep
  {
    if gap >= DI.VStep {
      var q := gap / DI.VStep;
      assert DI.VStep * q <= gap < DI.VStep * q + DI.VStep;
      if k < q {
        assert DI.VStep * (k + 1) <= DI.VStep * q;
      } else {
        assert DI.VStep * k >= DI.VStep * q;
      }
    }
  }

  /** The independent description: the first row repeats `Steps(gap)`
      times, every later row but the last at least once and `Steps(gap)`
      times in all, each at five-minute steps from its own time; the last
      row is never emitted. */
  function Runs(curr: Row, rest: seq<Row>): seq<VRow>
    decreases |rest|
  {
    if rest == [] then []
    else
      var n := Steps(RTime(rest[0]) - RTime(curr));
      Run(curr, RTime(curr), 0, if n >= 1 then n else 1) + Runs(rest[0], rest[1..])
  }

  function Expected(rows: seq<Row>): seq<VRow>
  {
    if |rows| < 2 then []
    else Run(rows[0], RTime(rows[0]), 0, Steps(RTime(rows[1]) - RTime(rows[0]))) + Runs(rows[1], rows[2..])
  }

  lemma RunCons(src: Row, t: int, a: nat, b: nat)
    requires a < b
    ensures Run(src, t, a, b) == [VRow(src, t + DI.VStep * a)] + Run(src, t, a + 1, b)
  {
  }

  lemma RunsCons(curr: Row, rest: seq<Row>)
    requires rest != []
    ensures var n := Steps(RTime(rest[0]) - RTime(curr));
      Runs(curr, rest) == Run(curr, RTime(curr), 0, if n >= 1 then n else 1) + Runs(rest[0], rest[1..])
  {
  }

  lemma {:induction false} FromRuns(curr: Row, base: int, a: nat, next: Row, rest: seq<Row>)
    requires a == 0 || a <= Steps(RTime(next) - base)
    ensures From(curr, base + DI.VStep * a, next, rest).out ==
      Run(curr, base, a, Steps(RTime(next) - base)) + Runs(next, rest)
    decreases |rest|, Steps(RTime(next) - base) - a + 2
  {
    var ct := base + DI.VStep * a;
    var n := Steps(RTime(next) - base);
    StepsMeaning(RTime(next) - base, a);
    if a < n {
      FromEmit(curr, ct, next, rest);
      FromRuns(curr, base, a + 1, next, rest);
      assert ct + DI.VStep == base + DI.VStep * (a + 1);
      RunCons(curr, base, a, n);
      ConcatAssoc([VRow(curr, ct)], Run(curr, base, a + 1, n), Runs(next, rest));
    } else if rest == [] {
      FromLast(curr, ct, next);
    } else {
      FromAdvance(curr, ct, next, rest);
      AdvanceRuns(next, rest);
    }
  }

  lemma {:induction false} AdvanceRuns(next: Row, rest: seq<Row>)
    requires rest != []
    ensures [VRow(next, RTime(next))] + From(next, RTime(next) + DI.VStep, rest[0], rest[1..]).out == Runs(next, rest)
    decreases |rest|, 1
  {
    var t := RTime(next);
    var n' := Steps(RTime(rest[0]) - t);
    StepsMeaning(RTime(rest[0]) - t, 0);
    RunsCons(next, rest);
    if n' >= 1 {
      FromRuns(next, t, 1, rest[0], rest[1..]);
      RunCons(next, t, 0, n');
      ConcatAssoc([VRow(next, t)], Run(next, t, 1, n'), Runs(rest[0], rest[1..]));
    } else {
      AdvanceShort(next, rest);
      RunCons(next, t, 0, 1);
    }
  }

  /** When the row after `next` is less than five minutes ahead, emitting
      `next` once leaves the same run as starting from `next`'s own time. */
  lemma {:induction false} AdvanceShort(next: Row, rest: seq<Row>)
    requires rest != [] && RTime(rest[0]) - RTime(next) < DI.VStep
    ensures From(next, RTime(next) + DI.VStep, rest[0], rest[1..]).out == Runs(rest[0], rest[1..])
    decreases |rest|, 0
  {
    var t := RTime(next);
    StepsMeaning(RTime(rest[0]) - t, 0);
    FromRuns(next, t, 0, rest[0], rest[1..]);
    assert t + DI.VStep * 0 == t;
    if rest[1..] != [] {
      FromAdvance(next, t, rest[0], rest[1..]);
      FromAdvance(next, t + DI.VStep, rest[0], rest[1..]);
    } else {
      FromLast(next, t, rest[0]);
      FromLast(next, t + DI.VStep, rest[0]);
    }
  }

  /** `gen_all_rows` yields exactly the runs of `Expected`. */
  lemma GenAllExpected(rows: seq<Row>)
    ensures GenAll(rows).out == Expected(rows)
  {
    if |rows| >= 2 {
      FromRuns(rows[0], RTime(rows[0]), 0, rows[1], rows[2..]);
      assert RTime(rows[0]) + DI.VStep * 0 == RTime(rows[0]);
    }
  }

  /** `merge_rows` is called whenever the virtual time reaches the next
      row's time, not only for rows with equal epochs: three rows five
      minutes apart log two merges and yield two rows. */
  lemma MergeLogOnGrid(r0: Row, r1: Row, r2: Row)
    requires RTime(r1) == RTime(r0) + DI.VStep && RTime(r2) == RTime(r1) + DI.VStep
    ensures GenAll([r0, r1, r2]) == Gen([VRow(r0, RTime(r0)), VRow(r1, RTime(r1))], [(r0, r1), (r1, r2)])
  {
    var t0 := RTime(r0);
    assert [r0, r1, r2][2..] == [r2];
    assert From(r1, RTime(r1) + DI.VStep, r2, []) == Gen([], [(r1, r2)]);
    assert From(r0, t0 + DI.VStep, r1, [r2]) == Gen([VRow(r1, RTime(r1))], [(r0, r1), (r1, r2)]);
  }

  // ---------------------------------------------------------------
  // gen_all_rows_basals
  // ---------------------------------------------------------------

  /** A generated row with `basal_drip`. */
  datatype DripRow = DripRow(row: VRow, basalDrip: real)

  /** The most recent basal setting at or before the end of `xs`. */
  function LatestBasal(xs: seq<VRow>): Option<real>
  {
    if xs == [] then None
    else if xs[|xs| - 1].src.basalAmt.Some? then xs[|xs| - 1].src.basalAmt
    else LatestBasal(xs[..|xs| - 1])
  }

  /** A twelfth of a basal setting, if there is one. */
  function Twelfth(b: Option<real>): Option<real>
  {
    match b
    case None => None
    case Some(v) => Some(v / 12.0)
  }

  /** The rows from `i` on that have a setting at or before them, each
      with a twelfth of the latest one. */
  function Drips(rows: seq<VRow>, i: nat): seq<DripRow>
    requires i <= |rows|
    decreases |rows| - i
  {
    if i == |rows| then []
    else
      var head := match Twelfth(LatestBasal(rows[..i + 1]))
        case None => []
        case Some(d) => [DripRow(rows[i], d)];
      head + Drips(rows, i + 1)
  }

  /** The latest setting up to row `i` is row `i`'s own, or the one before. */
  lemma LatestBasalStep(rows: seq<VRow>, i: nat)
    requires i < |rows|
    ensures LatestBasal(rows[..i + 1]) == if rows[i].src.basalAmt.Some? then rows[i].src.basalAmt else LatestBasal(rows[..i])
  {
    assert rows[..i + 1][..i] == rows[..i];
    assert rows[..i + 1][i] == rows[i];
  }

  /** `gen_all_rows_basals`. */
  method GenAllRowsBasals(rows: seq<VRow>) returns (out: seq<DripRow>)
    ensures out == Drips(rows, 0)
  {
    var curr: Option<real> := None;
    out := [];
    var i := 0;
    assert rows[..0] == [];
    while i < |rows|
      invariant 0 <= i <= |rows|
      invariant curr == Twelfth(LatestBasal(rows[..i]))
      invariant out + Drips(rows, i) == Drips(rows, 0)
    {
      var rowBasal := rows[i].src.basalAmt;
      LatestBasalStep(rows, i);
      if rowBasal.None? && curr.None? {
        i := i + 1;
        continue;
      }
      if curr.None? {
        curr := Some(rowBasal.value / 12.0);
      }
      if rowBasal.Some? {
        curr := Some(rowBasal.value / 12.0);
      }
      var d := DripRow(rows[i], curr.value);
      assert Drips(rows, i) == [d] + Drips(rows, i + 1);
      ConcatAssoc(out, [d], Drips(rows, i + 1));
      out := out + [d];
      i := i + 1;
    }
    assert out + [] == out;
  }

  /** Index of the first row with a basal setting, or the length. */
  function FirstBasal(rows: seq<VRow>): (f: nat)
    ensures f <= |rows|
    ensures forall j :: 0 <= j < f ==> rows[j].src.basalAmt.None?
    ensures f < |rows| ==> rows[f].src.basalAmt.Some?
  {
    if rows == [] then 0
    else if rows[0].src.basalAmt.Some? then 0
    else 1 + FirstBasal(rows[1..])
  }

  lemma {:induction false} LatestBasalBefore(rows: seq<VRow>, i: nat)
    requires i <= |rows|
    ensures LatestBasal(rows[..i]).None? <==> i <= FirstBasal(rows)
  {
    if i > 0 {
      assert rows[..i][..i - 1] == rows[..i - 1];
      assert rows[..i][i - 1] == rows[i - 1];
      LatestBasalBefore(rows, i - 1);
    }
  }

  lemma {:induction false} DripsSkip(rows: seq<VRow>, i: nat)
    requires i <= FirstBasal(rows)
    ensures Drips(rows, i) == Drips(rows, FirstBasal(rows))
    decreases FirstBasal(rows) - i
  {
    if i < FirstBasal(rows) {
      LatestBasalBefore(rows, i + 1);
      DripsSkip(rows, i + 1);
    }
  }

  /** From the first setting on, every row yields one drip row. */
  lemma DripsHead(rows: seq<VRow>, i: nat)
    requires FirstBasal(rows) <= i < |rows|
    ensures LatestBasal(rows[..i + 1]).Some?
    ensures Drips(rows, i) == [DripRow(rows[i], LatestBasal(rows[..i + 1]).value / 12.0)] + Drips(rows, i + 1)
  {
    LatestBasalBefore(rows, i + 1);
  }

  lemma {:induction false} DripsLength(rows: seq<VRow>, i: nat)
    requires FirstBasal(rows) <= i <= |rows|
    ensures |Drips(rows, i)| == |rows| - i
    decreases |rows| - i
  {
    if i < |rows| {
      DripsHead(rows, i);
      DripsLength(rows, i + 1);
    }
  }

  lemma {:induction false} DripsAt(rows: seq<VRow>, i: nat, k: nat)
    requires FirstBasal(rows) <= i && i + k < |rows|
    ensures |Drips(rows, i)| == |rows| - i && LatestBasal(rows[..i + k + 1]).Some? &&
      Drips(rows, i)[k] == DripRow(rows[i + k], LatestBasal(rows[..i + k + 1]).value / 12.0)
    decreases k
  {
    DripsLength(rows, i);
    DripsHead(rows, i);
    if k > 0 {
      DripsAt(rows, i + 1, k - 1);
      assert i + 1 + (k - 1) + 1 == i + k + 1;
    }
  }

  /** `gen_all_rows_basals` skips the rows before the first basal setting
      and gives every later row, in order, a twelfth of the latest setting
      at or before it. */
  lemma DripsMeaning(rows: seq<VRow>)
    ensures var f := FirstBasal(rows);
      |Drips(rows, 0)| == |rows| - f &&
      forall k :: 0 <= k < |rows| - f ==>
        Drips(rows, 0)[k].row == rows[f + k] &&
        Some(Drips(rows, 0)[k].basalDrip * 12.0) == LatestBasal(rows[..f + k + 1])
  {
    var f := FirstBasal(rows);
    DripsSkip(rows, 0);
    DripsLength(rows, f);
    forall k | 0 <= k < |rows| - f
      ensures Drips(rows, 0)[k].row == rows[f + k] && Some(Drips(rows, 0)[k].basalDrip * 12.0) == LatestBasal(rows[..f + k + 1])
    {
      DripsAt(rows, f, k);
    }
  }
}
