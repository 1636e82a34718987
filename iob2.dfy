/** The insulin-on-board pipeline of iob2.py: its own virtual-row
    generator, the basal drip of `gen_all_rows_basals`, the buffered
    convolution of `compute_insulin_on_board` and the rescue-event window
    of `find_rescue_events`.

    iob2.py's `time_rounded`, `merge_rows` and `meal_name` are copies of
    those in dynamic_insulin.py and are used from `DynamicInsulin`. */
module Iob2 {
  import opened Common
  import DI = DynamicInsulin

  // ---------------------------------------------------------------
  // gen_insulin_carb_vrows
  // ---------------------------------------------------------------

  /** A coerced `insulin_carb` row: its `epoch` and the columns copied. */
  datatype IcRow = IcRow(
    epoch: DI.Stamp,
    basalAmt: Option<DI.Cell>,
    bolusVolume: Option<DI.Cell>,
    carbs: Option<DI.Cell>,
    recNum: Option<int>)

  /** `compute_rtime`: the row with its `rtime` (in seconds) set to the
      rounded epoch. */
  function WithRTime(r: IcRow): DI.RawRow
  {
    DI.RawRow(DI.Seconds(DI.TimeRounded(r.epoch)), None, None, r.bolusVolume, r.basalAmt, r.carbs, r.recNum)
  }

  function Timed(rows: seq<IcRow>): (t: seq<DI.RawRow>)
    ensures |t| == |rows|
  {
    seq(|rows|, i requires 0 <= i < |rows| => WithRTime(rows[i]))
  }

  /** An output row: `rtime`, `real_row` and the four copied keys. */
  datatype VRow = VRow(
    rtime: int,
    realRow: bool,
    carbs: Option<DI.Cell>,
    basalAmt: Option<DI.Cell>,
    bolusVolume: Option<DI.Cell>,
    recNum: Option<int>)

  /** The row made at virtual time `vt` from the current real row: the
      keys are copied only when the times agree. */
  function Emit(c: DI.RawRow, vt: int): VRow
  {
    if vt == c.rtime then VRow(vt, true, c.carbs, c.basalAmt, c.bolusVolume, c.recNum)
    else VRow(vt, false, None, None, None, None)
  }

  /** The outer loop; unlike dynamic_insulin.py's version, nothing is
      yielded when the input runs out. */
  function VRowsFrom(curr: DI.RawRow, next: DI.RawRow, rest: seq<DI.RawRow>, vt: int): Result<seq<VRow>>
    decreases |rest|, if vt < next.rtime then next.rtime - vt else 0
  {
    var adv := if vt >= next.rtime then DI.AdvanceRows(next, rest) else Ok(DI.Advanced(curr, next, rest));
    match adv
    case Err(e) => Err(e)
    case Ok(Exhausted(_)) => Ok([])
    case Ok(Advanced(c, n, r)) => DI.Cons(Emit(c, vt), VRowsFrom(c, n, r, vt + DI.VStep))
  }

  function GenVRows(rows: seq<DI.RawRow>): Result<seq<VRow>>
  {
    if |rows| < 2 then Ok([])
    else if rows[0].rtime == rows[1].rtime then Err(GenericError)
    else VRowsFrom(rows[0], rows[1], rows[2..], rows[0].rtime)
  }

  /** What one pass of the outer loop reads before it emits a row. */
  function Pass(curr: DI.RawRow, next: DI.RawRow, rest: seq<DI.RawRow>, vt: int): Result<DI.Advance>
  {
    if vt >= next.rtime then DI.AdvanceRows(next, rest) else Ok(DI.Advanced(curr, next, rest))
  }

  /** A pass that found a later row emits one row and goes on from it. */
  lemma VRowsFromAdvanced(curr: DI.RawRow, next: DI.RawRow, rest: seq<DI.RawRow>, vt: int, c: DI.RawRow, n: DI.RawRow, r: seq<DI.RawRow>)
    requires Pass(curr, next, rest, vt) == Ok(DI.Advanced(c, n, r))
    ensures VRowsFrom(curr, next, rest, vt) == DI.Cons(Emit(c, vt), VRowsFrom(c, n, r, vt + DI.VStep))
  {
  }

  /** A pass that ran out of input ends the output. */
  lemma VRowsFromExhausted(curr: DI.RawRow, next: DI.RawRow, rest: seq<DI.RawRow>, vt: int, last: DI.RawRow)
    requires Pass(curr, next, rest, vt) == Ok(DI.Exhausted(last))
    ensures VRowsFrom(curr, next, rest, vt) == Ok([])
  {
  }

  /** A pass whose merge failed raises. */
  lemma VRowsFromFailed(curr: DI.RawRow, next: DI.RawRow, rest: seq<DI.RawRow>, vt: int, e: Error)
    requires Pass(curr, next, rest, vt) == Err(e)
    ensures VRowsFrom(curr, next, rest, vt) == Err(e)
  {
  }

  /** `gen_insulin_carb_vrows`, computing each row's `rtime` as it is read. */
  method GenInsulinCarbVRows(rows: seq<IcRow>) returns (r: Result<seq<VRow>>)
    ensures r == GenVRows(Timed(rows))
  {
    ghost var timed := Timed(rows);
    if |rows| < 2 {
      return Ok([]);
    }
    var curr := WithRTime(rows[0]);
    var next := WithRTime(rows[1]);
    var i := 2;
    if curr.rtime == next.rtime {
      return Err(GenericError);
    }
    var vt := curr.rtime;
    var out: seq<VRow> := [];
    assert timed[2..] == timed[i..];
    assert GenVRows(timed) == VRowsFrom(curr, next, timed[i..], vt);
    DI.PrependNil(GenVRows(timed));
    while true
      invariant 2 <= i <= |rows|
      invariant GenVRows(timed) == DI.Prepend(out, VRowsFrom(curr, next, timed[i..], vt))
      decreases |rows| - i, if vt < next.rtime then next.rtime - vt else 0
    {
      ghost var c0, n0, r0 := curr, next, timed[i..];
      ghost var adv := Pass(curr, next, timed[i..], vt);
      if vt >= next.rtime {
        while true
          invariant 2 <= i <= |rows|
          invariant DI.AdvanceRows(next, timed[i..]) == adv
          decreases |rows| - i
        {
          curr := next;
          if i == |rows| {
            VRowsFromExhausted(c0, n0, r0, vt, curr);
            assert out + [] == out;
            return Ok(out);
          }
          next := WithRTime(rows[i]);
          assert timed[i] == next && timed[i..][1..] == timed[i + 1..];
          i := i + 1;
          if next.rtime > curr.rtime {
            break;
          }
          var merged := DI.MergeRows(curr, next);
          if merged.Err? {
            VRowsFromFailed(c0, n0, r0, vt, merged.error);
            return Err(merged.error);
          }
          next := merged.value;
        }
      }
      var row := Emit(curr, vt);
      VRowsFromAdvanced(c0, n0, r0, vt, curr, next, timed[i..]);
      DI.PrependCons(out, row, VRowsFrom(curr, next, timed[i..], vt + DI.VStep));
      out := out + [row];
      vt := vt + DI.VStep;
    }
  }

  /** The first of `xs` with time `t`. */
  function Lookup(xs: seq<DI.RawRow>, t: int): Option<DI.RawRow>
    decreases |xs|
  {
    if xs == [] then None else if xs[0].rtime == t then Some(xs[0]) else Lookup(xs[1..], t)
  }

  lemma {:induction false} LookupNone(xs: seq<DI.RawRow>, t: int)
    requires forall x :: x in xs ==> x.rtime != t
    ensures Lookup(xs, t) == None
    decreases |xs|
  {
    if xs != [] {
      assert xs[0] in xs;
      LookupNone(xs[1..], t);
    }
  }

  /** What the generator promises for virtual time `t`: the real row at
      that time with its keys, or a virtual row with none. */
  function Expected(xs: seq<DI.RawRow>, t: int): VRow
  {
    match Lookup(xs, t)
    case Some(x) => Emit(x, t)
    case None => VRow(t, false, None, None, None, None)
  }

  predicate OnGrid(xs: seq<DI.RawRow>, t0: int)
  {
    forall x :: x in xs ==> (x.rtime - t0) % DI.VStep == 0
  }

  /** The rows still pending: the current one and every later one but
      the input's final row. */
  function Pending(curr: DI.RawRow, next: DI.RawRow, rest: seq<DI.RawRow>): seq<DI.RawRow>
  {
    [curr] + ([next] + rest)[..|rest|]
  }

  /** The input's final row. */
  function LastOf(next: DI.RawRow, rest: seq<DI.RawRow>): DI.RawRow
  {
    if rest == [] then next else rest[|rest| - 1]
  }

  /** `out`, read from virtual time `vt`, shows the real rows of `pend`
      at their grid times and virtual rows elsewhere, and stops at
      `lastTime`. */
  predicate Completes(out: seq<VRow>, pend: seq<DI.RawRow>, vt: int, lastTime: int)
  {
    && |out| == (lastTime - vt) / DI.VStep
    && forall k :: 0 <= k < |out| ==> out[k] == Expected(pend, vt + DI.VStep * k)
  }

  /** The invariant `curr <= vrow < next` of the source's comment, for
      input on the five-minute grid in increasing order: the k-th output
      row is the real row at `vt + 5k minutes` if the input (apart from
      its final row) has one, and a virtual row otherwise; the output
      reaches up to the final row's time. */
  lemma {:induction false} VRowsFromComplete(curr: DI.RawRow, next: DI.RawRow, rest: seq<DI.RawRow>, vt: int)
    requires DI.StrictlyIncreasing([next] + rest) && curr.rtime < next.rtime
    requires curr.rtime <= vt <= next.rtime
    requires OnGrid([curr, next] + rest, vt)
    ensures VRowsFrom(curr, next, rest, vt).Ok?
    ensures Completes(VRowsFrom(curr, next, rest, vt).value, Pending(curr, next, rest), vt, LastOf(next, rest).rtime)
    decreases |rest|, next.rtime - vt, 1
  {
    assert (next.rtime - vt) % DI.VStep == 0 by { assert next in [curr, next] + rest; }
    if vt == next.rtime {
      if rest == [] {
        assert VRowsFrom(curr, next, rest, vt) == Ok([]);
      } else {
        CompleteAdvance(curr, next, rest, vt);
      }
    } else {
      assert vt + DI.VStep <= next.rtime;
      OnGridStep([curr, next] + rest, vt);
      VRowsFromComplete(curr, next, rest, vt + DI.VStep);
      VRowsFromAdvanced(curr, next, rest, vt, curr, next, rest);
      ExpectedBeforeNext(curr, next, rest, vt);
      LastAfterNext(next, rest);
      ConsCompletes(Emit(curr, vt), VRowsFrom(curr, next, rest, vt + DI.VStep).value, Pending(curr, next, rest), vt, LastOf(next, rest).rtime);
    }
  }

  /** Between the current row's time and the next row's, the expected row
      is the one the generator emits. */
  lemma ExpectedBeforeNext(curr: DI.RawRow, next: DI.RawRow, rest: seq<DI.RawRow>, vt: int)
    requires DI.StrictlyIncreasing([next] + rest)
    requires curr.rtime <= vt < next.rtime
    ensures Expected(Pending(curr, next, rest), vt) == Emit(curr, vt)
  {
    if curr.rtime != vt {
      forall x | x in ([next] + rest)[..|rest|]
        ensures x.rtime != vt
      {
        assert x in [next] + rest;
        StrictFirst(next, rest, x);
      }
      LookupNone(([next] + rest)[..|rest|], vt);
      ExpectedSkip(curr, ([next] + rest)[..|rest|], vt);
    }
  }

  /** The final row lies at or after the next one. */
  lemma LastAfterNext(next: DI.RawRow, rest: seq<DI.RawRow>)
    requires DI.StrictlyIncreasing([next] + rest)
    ensures LastOf(next, rest).rtime >= next.rtime
  {
    if rest != [] {
      assert rest[|rest| - 1] == ([next] + rest)[|rest|];
      StrictFirst(next, rest, rest[|rest| - 1]);
    }
  }

  lemma DivStep(d: int)
    ensures (d - DI.VStep) / DI.VStep + 1 == d / DI.VStep
  {
    var q := d / DI.VStep;
    var r := d % DI.VStep;
    assert d == DI.VStep * q + r;
    assert d - DI.VStep == DI.VStep * (q - 1) + r;
  }

  /** One more row in front, at the earlier grid time. */
  lemma ConsCompletes(row: VRow, tail: seq<VRow>, pend: seq<DI.RawRow>, vt: int, lastTime: int)
    requires Completes(tail, pend, vt + DI.VStep, lastTime)
    requires row == Expected(pend, vt)
    ensures Completes([row] + tail, pend, vt, lastTime)
  {
    DivStep(lastTime - vt);
    var out := [row] + tail;
    forall k | 0 <= k < |out|
      ensures out[k] == Expected(pend, vt + DI.VStep * k)
    {
      if k > 0 {
        assert out[k] == tail[k - 1];
        assert vt + DI.VStep + DI.VStep * (k - 1) == vt + DI.VStep * k;
      }
    }
  }

  /** A pending row before the output's start changes nothing. */
  lemma CompletesSkip(c: DI.RawRow, tail: seq<VRow>, pend: seq<DI.RawRow>, vt: int, lastTime: int)
    requires Completes(tail, pend, vt, lastTime) && c.rtime < vt
    ensures Completes(tail, [c] + pend, vt, lastTime)
  {
    forall k | 0 <= k < |tail|
      ensures tail[k] == Expected([c] + pend, vt + DI.VStep * k)
    {
      ExpectedSkip(c, pend, vt + DI.VStep * k);
    }
  }

  lemma {:induction false} CompleteAdvance(curr: DI.RawRow, next: DI.RawRow, rest: seq<DI.RawRow>, vt: int)
    requires DI.StrictlyIncreasing([next] + rest) && curr.rtime < next.rtime
    requires vt == next.rtime && rest != []
    requires OnGrid([curr, next] + rest, vt)
    ensures VRowsFrom(curr, next, rest, vt).Ok?
    ensures Completes(VRowsFrom(curr, next, rest, vt).value, Pending(curr, next, rest), vt, LastOf(next, rest).rtime)
    decreases |rest|, 0, 0
  {
    AdvanceOrder(curr, next, rest, vt);
    OnGridAdvance(curr, next, rest, vt);
    VRowsFromComplete(next, rest[0], rest[1..], vt + DI.VStep);
    AdvanceCombine(curr, next, rest, vt);
  }

  /** The output after an advance is the next row's own row in front of
      what the rest of the input yields. */
  lemma AdvanceCombine(curr: DI.RawRow, next: DI.RawRow, rest: seq<DI.RawRow>, vt: int)
    requires vt == next.rtime && rest != [] && curr.rtime < vt && next.rtime < rest[0].rtime
    requires VRowsFrom(next, rest[0], rest[1..], vt + DI.VStep).Ok?
    requires Completes(VRowsFrom(next, rest[0], rest[1..], vt + DI.VStep).value,
      Pending(next, rest[0], rest[1..]), vt + DI.VStep, LastOf(rest[0], rest[1..]).rtime)
    ensures VRowsFrom(curr, next, rest, vt).Ok?
    ensures Completes(VRowsFrom(curr, next, rest, vt).value, Pending(curr, next, rest), vt, LastOf(next, rest).rtime)
  {
    var n := rest[0];
    AdvancePass(curr, next, rest, vt);
    PendAdvance(curr, next, rest);
    assert LastOf(n, rest[1..]) == LastOf(next, rest);
    VRowsFromAdvanced(curr, next, rest, vt, next, n, rest[1..]);
    var tail := VRowsFrom(next, n, rest[1..], vt + DI.VStep).value;
    var p' := Pending(next, n, rest[1..]);
    ExpectedSkip(curr, p', vt);
    CompletesSkip(curr, tail, p', vt + DI.VStep, LastOf(next, rest).rtime);
    ConsCompletes(Emit(next, vt), tail, [curr] + p', vt, LastOf(next, rest).rtime);
  }

  /** After an advance at the next row's time, the following row lies on
      the grid at least five minutes later. */
  lemma AdvanceOrder(curr: DI.RawRow, next: DI.RawRow, rest: seq<DI.RawRow>, vt: int)
    requires DI.StrictlyIncreasing([next] + rest)
    requires vt == next.rtime && rest != []
    requires OnGrid([curr, next] + rest, vt)
    ensures DI.StrictlyIncreasing([rest[0]] + rest[1..]) && next.rtime < rest[0].rtime
    ensures vt + DI.VStep <= rest[0].rtime
  {
    DI.StrictTail(next, rest);
    assert [rest[0]] + rest[1..] == rest;
    assert rest[0] in [curr, next] + rest;
    GridNext(rest[0].rtime - vt);
  }

  lemma GridNext(d: int)
    requires d > 0 && d % DI.VStep == 0
    ensures d >= DI.VStep
  {
  }

  /** The advance reads one row and stops, since that row is later. */
  lemma AdvancePass(curr: DI.RawRow, next: DI.RawRow, rest: seq<DI.RawRow>, vt: int)
    requires vt == next.rtime && rest != [] && next.rtime < rest[0].rtime
    ensures Pass(curr, next, rest, vt) == Ok(DI.Advanced(next, rest[0], rest[1..]))
  {
  }

  lemma StrictFirst(next: DI.RawRow, rest: seq<DI.RawRow>, x: DI.RawRow)
    requires DI.StrictlyIncreasing([next] + rest) && x in [next] + rest
    ensures x.rtime >= next.rtime
  {
    var j :| 0 <= j < |[next] + rest| && ([next] + rest)[j] == x;
    if j > 0 {
      assert ([next] + rest)[0] == next;
    }
  }

  /** A row at another time is passed over by `Lookup`. */
  lemma ExpectedSkip(c: DI.RawRow, p: seq<DI.RawRow>, t: int)
    requires c.rtime != t
    ensures Expected([c] + p, t) == Expected(p, t)
  {
    assert ([c] + p)[1..] == p;
  }

  lemma GridStep(d: int)
    ensures (d - DI.VStep) % DI.VStep == d % DI.VStep
  {
    var q := d / DI.VStep;
    var r := d % DI.VStep;
    assert d == DI.VStep * q + r;
    assert d - DI.VStep == DI.VStep * (q - 1) + r;
  }

  /** The grid is the same seen five minutes later. */
  lemma OnGridStep(xs: seq<DI.RawRow>, vt: int)
    requires OnGrid(xs, vt)
    ensures OnGrid(xs, vt + DI.VStep)
  {
    forall x | x in xs
      ensures (x.rtime - (vt + DI.VStep)) % DI.VStep == 0
    {
      GridStep(x.rtime - vt);
    }
  }

  /** The grid seen from the next row, one step later. */
  lemma OnGridAdvance(curr: DI.RawRow, next: DI.RawRow, rest: seq<DI.RawRow>, vt: int)
    requires rest != [] && OnGrid([curr, next] + rest, vt)
    ensures OnGrid([next, rest[0]] + rest[1..], vt + DI.VStep)
  {
    OnGridStep([curr, next] + rest, vt);
    forall x | x in [next, rest[0]] + rest[1..]
      ensures x in [curr, next] + rest
    {
    }
  }

  /** The pending rows after an advance: the old current row drops off. */
  lemma PendAdvance(curr: DI.RawRow, next: DI.RawRow, rest: seq<DI.RawRow>)
    requires rest != []
    ensures Pending(curr, next, rest) == [curr] + Pending(next, rest[0], rest[1..])
  {
    assert ([next] + rest)[..|rest|] == [next] + rest[..|rest| - 1];
    assert ([rest[0]] + rest[1..])[..|rest[1..]|] == rest[..|rest| - 1];
  }

  /** The whole generator on increasing, on-grid input: no merge happens,
      and output `k` is `Expected` at time `t0 + 5k minutes`, where the
      input's final row only bounds the output. */
  lemma GenVRowsComplete(rows: seq<DI.RawRow>)
    requires |rows| >= 2 && DI.StrictlyIncreasing(rows)
    requires OnGrid(rows, rows[0].rtime)
    ensures GenVRows(rows).Ok?
    ensures |GenVRows(rows).value| == (rows[|rows| - 1].rtime - rows[0].rtime) / DI.VStep
    ensures forall k :: 0 <= k < |GenVRows(rows).value| ==>
      GenVRows(rows).value[k] == Expected(rows[..|rows| - 1], rows[0].rtime + DI.VStep * k)
  {
    SplitRows(rows);
    VRowsFromComplete(rows[0], rows[1], rows[2..], rows[0].rtime);
  }

  /** The input seen as current row, next row and the rest. */
  lemma SplitRows(rows: seq<DI.RawRow>)
    requires |rows| >= 2 && DI.StrictlyIncreasing(rows)
    ensures rows == [rows[0], rows[1]] + rows[2..] && rows[0].rtime < rows[1].rtime
    ensures DI.StrictlyIncreasing([rows[1]] + rows[2..])
    ensures Pending(rows[0], rows[1], rows[2..]) == rows[..|rows| - 1]
    ensures LastOf(rows[1], rows[2..]) == rows[|rows| - 1]
    ensures GenVRows(rows) == VRowsFrom(rows[0], rows[1], rows[2..], rows[0].rtime)
  {
    assert [rows[1]] + rows[2..] == rows[1..];
    assert rows[1..][..|rows| - 2] == rows[1..|rows| - 1];
    assert [rows[0]] + rows[1..|rows| - 1] == rows[..|rows| - 1];
    if rows[2..] != [] {
      assert rows[2..][|rows[2..]| - 1] == rows[|rows| - 1];
    }
  }

  // ---------------------------------------------------------------
  // gen_all_rows_basals
  // ---------------------------------------------------------------

  /** A virtual row with the `basal_amt_12` key added. */
  datatype BasalVRow = BasalVRow(row: VRow, basalAmt12: real)

  /** The basal of a row as `/ 12.0` sees it: a non-number raises. */
  predicate NumericBasal(r: VRow) { r.basalAmt.None? || r.basalAmt.value.Num? }

  function BasalValue(r: VRow): Option<real>
  {
    match r.basalAmt
    case Some(Num(x)) => Some(x)
    case _ => None
  }

  /** The most recent basal setting at or before the end of `xs`. */
  function LatestBasal(xs: seq<VRow>): Option<real>
  {
    if xs == [] then None
    else if BasalValue(xs[|xs| - 1]).Some? then BasalValue(xs[|xs| - 1])
    else LatestBasal(xs[..|xs| - 1])
  }

  function Per5Min(o: Option<real>): Option<real>
  {
    match o
    case None => None
    case Some(b) => Some(b / 12.0)
  }

  /** The rows from `i` on that have a basal setting at or before them,
      each with a twelfth of that setting. */
  function Drips(rows: seq<VRow>, i: nat): seq<BasalVRow>
    requires i <= |rows|
    decreases |rows| - i
  {
    if i == |rows| then []
    else
      var head := match Per5Min(LatestBasal(rows[..i + 1]))
        case None => []
        case Some(d) => [BasalVRow(rows[i], d)];
      head + Drips(rows, i + 1)
  }

  /** The latest setting up to row `i` is row `i`'s own, or the one before. */
  lemma LatestBasalStep(rows: seq<VRow>, i: nat)
    requires i < |rows|
    ensures LatestBasal(rows[..i + 1]) == if BasalValue(rows[i]).Some? then BasalValue(rows[i]) else LatestBasal(rows[..i])
  {
    assert rows[..i + 1][..i] == rows[..i];
    assert rows[..i + 1][i] == rows[i];
  }

  lemma DripsNone(rows: seq<VRow>, i: nat)
    requires i < |rows| && Per5Min(LatestBasal(rows[..i + 1])).None?
    ensures Drips(rows, i) == Drips(rows, i + 1)
  { }

  lemma DripsSome(rows: seq<VRow>, i: nat, d: real)
    requires i < |rows| && Per5Min(LatestBasal(rows[..i + 1])) == Some(d)
    ensures Drips(rows, i) == [BasalVRow(rows[i], d)] + Drips(rows, i + 1)
  { }

  /** `gen_all_rows_basals`. */
  method GenAllRowsBasals(rows: seq<VRow>) returns (r: Result<seq<BasalVRow>>)
    ensures (forall i :: 0 <= i < |rows| ==> NumericBasal(rows[i])) ==> r == Ok(Drips(rows, 0))
    ensures (exists i :: 0 <= i < |rows| && !NumericBasal(rows[i])) ==> r.Err?
  {
    var curr: Option<real> := None;
    var out: seq<BasalVRow> := [];
    var i := 0;
    assert rows[..0] == [];
    while i < |rows|
      invariant 0 <= i <= |rows|
      invariant forall j :: 0 <= j < i ==> NumericBasal(rows[j])
      invariant curr == Per5Min(LatestBasal(rows[..i]))
      invariant out + Drips(rows, i) == Drips(rows, 0)
    {
      var row := rows[i];
      LatestBasalStep(rows, i);
      match row.basalAmt {
        case None =>
          if curr.None? {
            DripsNone(rows, i);
            i := i + 1;
            continue;
          }
        case Some(Num(x)) =>
          curr := Some(x / 12.0);
        case Some(Other(_)) =>
          return Err(TypeError);
      }
      var d := BasalVRow(row, curr.value);
      DripsSome(rows, i, curr.value);
      ConcatAssoc(out, [d], Drips(rows, i + 1));
      out := out + [d];
      i := i + 1;
    }
    assert Drips(rows, |rows|) == [];
    assert out + [] == out;
    return Ok(out);
  }

  /** Index of the first row with a basal setting, or the length. */
  function FirstBasal(rows: seq<VRow>): (f: nat)
    ensures f <= |rows|
    ensures forall j :: 0 <= j < f ==> rows[j].basalAmt.None?
    ensures f < |rows| ==> rows[f].basalAmt.Some?
  {
    if rows == [] then 0
    else if rows[0].basalAmt.Some? then 0
    else 1 + FirstBasal(rows[1..])
  }

  lemma {:induction false} LatestBasalBefore(rows: seq<VRow>, i: nat)
    requires i <= |rows| && forall j :: 0 <= j < |rows| ==> NumericBasal(rows[j])
    ensures LatestBasal(rows[..i]).None? <==> i <= FirstBasal(rows)
  {
    if i > 0 {
      assert rows[..i][..i - 1] == rows[..i - 1];
      assert rows[..i][i - 1] == rows[i - 1];
      LatestBasalBefore(rows, i - 1);
    }
  }

  lemma {:induction false} DripsSkip(rows: seq<VRow>, i: nat)
    requires i <= FirstBasal(rows) && forall j :: 0 <= j < |rows| ==> NumericBasal(rows[j])
    ensures Drips(rows, i) == Drips(rows, FirstBasal(rows))
    decreases FirstBasal(rows) - i
  {
    if i < FirstBasal(rows) {
      LatestBasalBefore(rows, i + 1);
      DripsSkip(rows, i + 1);
    }
  }

  /** From the first setting on, every row yields one row. */
  lemma DripsHead(rows: seq<VRow>, i: nat)
    requires FirstBasal(rows) <= i < |rows| && forall j :: 0 <= j < |rows| ==> NumericBasal(rows[j])
    ensures Per5Min(LatestBasal(rows[..i + 1])).Some?
    ensures Drips(rows, i) == [BasalVRow(rows[i], Per5Min(LatestBasal(rows[..i + 1])).value)] + Drips(rows, i + 1)
  {
    LatestBasalBefore(rows, i + 1);
  }

  lemma {:induction false} DripsLength(rows: seq<VRow>, i: nat)
    requires FirstBasal(rows) <= i <= |rows| && forall j :: 0 <= j < |rows| ==> NumericBasal(rows[j])
    ensures |Drips(rows, i)| == |rows| - i
    decreases |rows| - i
  {
    if i < |rows| {
      DripsHead(rows, i);
      DripsLength(rows, i + 1);
    }
  }

  lemma DripsStep(rows: seq<VRow>, i: nat, j: nat)
    requires FirstBasal(rows) <= i < j < |rows| && forall j :: 0 <= j < |rows| ==> NumericBasal(rows[j])
    requires j - (i + 1) < |Drips(rows, i + 1)|
    ensures j - i < |Drips(rows, i)| && Drips(rows, i)[j - i] == Drips(rows, i + 1)[j - (i + 1)]
  {
    DripsHead(rows, i);
  }

  lemma {:induction false} DripsAt(rows: seq<VRow>, i: nat, j: nat)
    requires FirstBasal(rows) <= i <= j < |rows| && forall j :: 0 <= j < |rows| ==> NumericBasal(rows[j])
    ensures Per5Min(LatestBasal(rows[..j + 1])).Some? && j - i < |Drips(rows, i)|
    ensures Drips(rows, i)[j - i] == BasalVRow(rows[j], Per5Min(LatestBasal(rows[..j + 1])).value)
    decreases j - i
  {
    if i == j {
      DripsHead(rows, i);
    } else {
      DripsAt(rows, i + 1, j);
      DripsStep(rows, i, j);
    }
  }

  lemma LatestOwn(rows: seq<VRow>, j: nat)
    requires j < |rows|
    ensures BasalValue(rows[j]).Some? ==> LatestBasal(rows[..j + 1]) == BasalValue(rows[j])
  {
    assert rows[..j + 1][j] == rows[j];
  }

  /** Output row `k` is input row `f + k` with a twelfth of the latest
      setting, which is its own setting when it has one. */
  predicate DripMeans(rows: seq<VRow>, out: seq<BasalVRow>, f: nat, k: nat)
    requires f + k < |rows| && k < |out|
  {
    && out[k].row == rows[f + k]
    && Some(out[k].basalAmt12) == Per5Min(LatestBasal(rows[..f + k + 1]))
    && (BasalValue(rows[f + k]).Some? ==> Some(out[k].basalAmt12) == Per5Min(BasalValue(rows[f + k])))
  }

  /** `gen_all_rows_basals` drops exactly the rows before the first basal
      setting and keeps every later one, in order, carrying a twelfth of
      the most recent setting at or before it; a row's own setting wins. */
  lemma DripsMeaning(rows: seq<VRow>)
    requires forall j :: 0 <= j < |rows| ==> NumericBasal(rows[j])
    ensures var f := FirstBasal(rows);
      && |Drips(rows, 0)| == |rows| - f
      && forall k :: 0 <= k < |rows| - f ==> DripMeans(rows, Drips(rows, 0), f, k)
  {
    var f := FirstBasal(rows);
    DripsSkip(rows, 0);
    DripsLength(rows, f);
    forall k | 0 <= k < |rows| - f
      ensures DripMeans(rows, Drips(rows, 0), f, k)
    {
      DripsAt(rows, f, f + k);
      LatestOwn(rows, f + k);
    }
  }

  // ---------------------------------------------------------------
  // compute_insulin_on_board
  // ---------------------------------------------------------------

  /** A smoothed row: the two insulin columns and the result column. */
  datatype IobRow = IobRow(basalAmt12: real, bolusVolume: real, activeInsulin: real)

  function Insulin(r: IobRow): real { r.basalAmt12 + r.bolusVolume }

  /** The first `m` terms of the convolution for row `i`: the newest row
      is weighted by `iac[0]`, the one before it by `iac[1]`, and so on. */
  function Conv(rows: seq<IobRow>, iac: seq<real>, i: nat, m: nat): real
    requires i < |rows| && m <= |iac| && m <= i + 1
  {
    if m == 0 then 0.0 else Conv(rows, iac, i, m - 1) + iac[m - 1] * Insulin(rows[i - (m - 1)])
  }

  function MinNat(a: nat, b: nat): nat { if a <= b then a else b }

  /** Row `i` with its active insulin. */
  function WithIob(rows: seq<IobRow>, iac: seq<real>, i: nat): IobRow
    requires i < |rows|
  {
    rows[i].(activeInsulin := Conv(rows, iac, i, MinNat(|iac|, i + 1)))
  }

  function AllWithIob(rows: seq<IobRow>, iac: seq<real>): (p: seq<IobRow>)
    ensures |p| == |rows|
  {
    seq(|rows|, i requires 0 <= i < |rows| => WithIob(rows, iac, i))
  }

  /** The order rows leave the buffer of `n` rows: the oldest is popped
      whenever the buffer overflows, then the buffer is flushed newest
      first. */
  function BufferOrder<T>(p: seq<T>, n: nat): seq<T>
  {
    if |p| <= n then Reverse(p) else p[..|p| - n] + Reverse(p[|p| - n..])
  }

  /** The buffered rows, newest first, are the last `m` of `p[..i]`. */
  predicate Buffered<T(==)>(lastrows: seq<T>, p: seq<T>, i: nat, m: nat)
    requires m <= i <= |p|
  {
    |lastrows| == m && forall k :: 0 <= k < m ==> lastrows[k] == p[i - 1 - k]
  }

  lemma BufferFlush<T>(out: seq<T>, lastrows: seq<T>, p: seq<T>, n: nat)
    requires Buffered(lastrows, p, |p|, MinNat(n, |p|))
    requires out == p[..|p| - MinNat(n, |p|)]
    ensures out + lastrows == BufferOrder(p, n)
  {
    var m := MinNat(n, |p|);
    assert lastrows == Reverse(p[|p| - m..]);
    if |p| <= n {
      assert out == [];
    }
  }

  /** Pushing row `i` onto the buffer: when it overflows, the oldest row
      leaves it and is the next row to go out. */
  lemma BufferPush<T>(lastrows: seq<T>, p: seq<T>, i: nat, n: nat)
    requires i < |p| && Buffered(lastrows, p, i, MinNat(n, i))
    ensures var l := [p[i]] + lastrows;
      if |l| > n then
        && l[|l| - 1] == p[i - MinNat(n, i)]
        && Buffered(l[..|l| - 1], p, i + 1, MinNat(n, i + 1))
        && p[..i - MinNat(n, i)] + [l[|l| - 1]] == p[..i + 1 - MinNat(n, i + 1)]
      else
        && Buffered(l, p, i + 1, MinNat(n, i + 1))
        && p[..i - MinNat(n, i)] == p[..i + 1 - MinNat(n, i + 1)]
  {
    var l := [p[i]] + lastrows;
    if |l| > n {
      assert p[..i - MinNat(n, i)] + [p[i - MinNat(n, i)]] == p[..i - MinNat(n, i) + 1];
    }
  }

  /** The buffer after pushing row `i` holds the insulin of rows `i`, `i - 1`, ... */
  lemma BufferInsulin(lastrows: seq<IobRow>, rows: seq<IobRow>, iac: seq<real>, i: nat, n: nat, row: IobRow)
    requires i < |rows| && Buffered(lastrows, AllWithIob(rows, iac), i, MinNat(n, i))
    requires Insulin(row) == Insulin(rows[i])
    ensures forall j :: 0 <= j < |[row] + lastrows| ==> Insulin(([row] + lastrows)[j]) == Insulin(rows[i - j])
  {
  }

  /** `compute_insulin_on_board`, with `IAC` as `iac`. */
  method ComputeInsulinOnBoard(rows: seq<IobRow>, iac: seq<real>) returns (out: seq<IobRow>)
    ensures out == BufferOrder(AllWithIob(rows, iac), |iac|)
  {
    ghost var p := AllWithIob(rows, iac);
    var lastrows: seq<IobRow> := [];
    out := [];
    var i := 0;
    while i < |rows|
      invariant 0 <= i <= |rows|
      invariant Buffered(lastrows, p, i, MinNat(|iac|, i))
      invariant out == p[..i - MinNat(|iac|, i)]
    {
      lastrows, out := PushRow(rows, iac, i, lastrows, out);
      i := i + 1;
    }
    BufferFlush(out, lastrows, p, |iac|);
    out := out + lastrows;
  }

  /** One pass of the row loop: row `i` gets its active insulin and joins
      the buffer, whose oldest row goes out once it holds more than `|iac|`. */
  method PushRow(rows: seq<IobRow>, iac: seq<real>, i: nat, lastrows0: seq<IobRow>, out0: seq<IobRow>)
    returns (lastrows: seq<IobRow>, out: seq<IobRow>)
    requires i < |rows|
    requires Buffered(lastrows0, AllWithIob(rows, iac), i, MinNat(|iac|, i))
    requires out0 == AllWithIob(rows, iac)[..i - MinNat(|iac|, i)]
    ensures Buffered(lastrows, AllWithIob(rows, iac), i + 1, MinNat(|iac|, i + 1))
    ensures out == AllWithIob(rows, iac)[..i + 1 - MinNat(|iac|, i + 1)]
  {
    ghost var p := AllWithIob(rows, iac);
    var n := |iac|;
    var row := rows[i].(activeInsulin := 0.0);
    BufferInsulin(lastrows0, rows, iac, i, n, row);
    lastrows := [row] + lastrows0;
    var incr := Convolution(lastrows, iac, rows, i);
    lastrows := lastrows[0 := lastrows[0].(activeInsulin := incr)];
    assert lastrows == [p[i]] + lastrows0;
    BufferPush(lastrows0, p, i, n);
    out := out0;
    if |lastrows| > n {
      out := out + [lastrows[|lastrows| - 1]];
      lastrows := lastrows[..|lastrows| - 1];
    }
  }

  /** The inner loop: the buffer, newest first, weighted by the action
      curve. */
  method Convolution(lastrows: seq<IobRow>, iac: seq<real>, ghost rows: seq<IobRow>, ghost i: nat) returns (incr: real)
    requires i < |rows| && |lastrows| == MinNat(|iac|, i) + 1
    requires forall j :: 0 <= j < |lastrows| ==> Insulin(lastrows[j]) == Insulin(rows[i - j])
    ensures incr == Conv(rows, iac, i, MinNat(|iac|, i + 1))
  {
    incr := 0.0;
    var k := 0;
    while k < MinNat(|iac|, |lastrows|)
      invariant 0 <= k <= MinNat(|iac|, |lastrows|)
      invariant incr == Conv(rows, iac, i, k)
    {
      var prevrow := lastrows[k];
      incr := incr + iac[k] * (prevrow.basalAmt12 + prevrow.bolusVolume);
      k := k + 1;
    }
  }

  /** Every row leaves the buffer exactly once, and all but the last
      `|iac|` leave in input order. */
  lemma BufferOrderPermutes<T>(p: seq<T>, n: nat)
    ensures |BufferOrder(p, n)| == |p|
    ensures multiset(BufferOrder(p, n)) == multiset(p)
    ensures |p| > n ==> BufferOrder(p, n)[..|p| - n] == p[..|p| - n]
  {
    ReverseMultiset(p);
    if |p| > n {
      ReverseMultiset(p[|p| - n..]);
      assert p == p[..|p| - n] + p[|p| - n..];
    }
  }

  /** The active insulin is the response to the input through the action
      curve: a single dose `d` at row `j0` and nothing else gives
      `iac[i - j0] * d` for the `|iac|` rows from `j0` on and nothing
      before or after. */
  lemma ImpulseResponse(rows: seq<IobRow>, iac: seq<real>, j0: nat, i: nat)
    requires j0 < |rows| && i < |rows|
    requires forall j :: 0 <= j < |rows| && j != j0 ==> Insulin(rows[j]) == 0.0
    ensures WithIob(rows, iac, i).activeInsulin ==
      if j0 <= i < j0 + |iac| then iac[i - j0] * Insulin(rows[j0]) else 0.0
  {
    ConvImpulse(rows, iac, j0, i, MinNat(|iac|, i + 1));
  }

  lemma {:induction false} ConvImpulse(rows: seq<IobRow>, iac: seq<real>, j0: nat, i: nat, m: nat)
    requires j0 < |rows| && i < |rows| && m <= |iac| && m <= i + 1
    requires forall j :: 0 <= j < |rows| && j != j0 ==> Insulin(rows[j]) == 0.0
    ensures Conv(rows, iac, i, m) == if j0 <= i < j0 + m then iac[i - j0] * Insulin(rows[j0]) else 0.0
  {
    if m > 0 {
      ConvImpulse(rows, iac, j0, i, m - 1);
    }
  }

  // ---------------------------------------------------------------
  // find_rescue_events
  // ---------------------------------------------------------------

  /** The `while True` body on the centre row: carbs with no bolus in the
      window are rescue carbs, a bolus with no carbs is corrective. The
      bolus column is `bolus_volume` here. */
  function Rescue(window: seq<DI.CarbRow>, mid: DI.CarbRow): DI.CarbRow
  {
    var m1 :=
      if DI.Positive(mid.carbs) && !DI.AnyInsulin(window) then
        mid.(tags := DI.AddTag(mid.tags, "rescue_carbs"), rescueCarbs := 1)
      else mid;
    if DI.Positive(m1.totalBolusVolume) && !DI.AnyCarbs(window) then
      m1.(tags := DI.AddTag(m1.tags, "corrective_insulin"), correctiveInsulin := 1)
    else m1
  }

  /** What `Rescue` finds, given a window that contains the initialised
      centre row: both flags as if-and-only-ifs, and the tags they leave;
      a row cannot hold both events. */
  lemma RescueMeaning(window: seq<DI.CarbRow>, mid: DI.CarbRow)
    requires mid in window && mid == DI.InitRow(mid)
    ensures var r := Rescue(window, mid);
      && (r.rescueCarbs == 1 <==> DI.Positive(mid.carbs) && !DI.AnyInsulin(window))
      && (r.correctiveInsulin == 1 <==> DI.Positive(mid.totalBolusVolume) && !DI.AnyCarbs(window))
      && !(r.rescueCarbs == 1 && r.correctiveInsulin == 1)
      && r.tags == (if r.rescueCarbs == 1 then "rescue_carbs" else if r.correctiveInsulin == 1 then "corrective_insulin" else "")
      && r.rtime == mid.rtime && r.carbs == mid.carbs && r.totalBolusVolume == mid.totalBolusVolume
  {
    var k :| 0 <= k < |window| && window[k] == mid;
    if DI.Positive(mid.carbs) {
      assert DI.AnyCarbs(window);
    }
    if DI.Positive(mid.totalBolusVolume) {
      assert DI.AnyInsulin(window);
    }
  }

  /** Row `j` as the generator emits it: rows with six rows on each side
      have been the window's centre once. */
  function RescueAt(rows: seq<DI.CarbRow>, j: nat): (r: DI.CarbRow)
    requires j < |rows|
    ensures r.carbs == rows[j].carbs && r.totalBolusVolume == rows[j].totalBolusVolume
  {
    if DI.Middle <= j < |rows| - DI.Middle then Rescue(DI.Window(rows, j - DI.Middle), DI.InitRow(rows[j]))
    else DI.InitRow(rows[j])
  }

  /** Two windows with the same carbs and boluses categorise alike. */
  lemma SameInputs(window: seq<DI.CarbRow>, w: seq<DI.CarbRow>, mid: DI.CarbRow)
    requires |window| == |w|
    requires forall j :: 0 <= j < |w| ==> window[j].carbs == w[j].carbs && window[j].totalBolusVolume == w[j].totalBolusVolume
    ensures Rescue(window, mid) == Rescue(w, mid)
  {
    if DI.AnyCarbs(window) {
      var j :| 0 <= j < |window| && DI.Positive(window[j].carbs);
      assert DI.Positive(w[j].carbs);
    }
    if DI.AnyCarbs(w) {
      var j :| 0 <= j < |w| && DI.Positive(w[j].carbs);
      assert DI.Positive(window[j].carbs);
    }
    if DI.AnyInsulin(window) {
      var j :| 0 <= j < |window| && DI.Positive(window[j].totalBolusVolume);
      assert DI.Positive(w[j].totalBolusVolume);
    }
    if DI.AnyInsulin(w) {
      var j :| 0 <= j < |w| && DI.Positive(w[j].totalBolusVolume);
      assert DI.Positive(window[j].totalBolusVolume);
    }
  }

  /** The window starting at row `k`: rows before the centre have been
      centres already, the others are as `initRow` left them. */
  predicate WindowAt(window: seq<DI.CarbRow>, rows: seq<DI.CarbRow>, k: nat)
    requires k + DI.WinSize <= |rows|
  {
    && |window| == DI.WinSize
    && (forall j :: 0 <= j < DI.Middle ==> window[j] == RescueAt(rows, k + j))
    && (forall j :: DI.Middle <= j < DI.WinSize ==> window[j] == DI.InitRow(rows[k + j]))
  }

  lemma CentreStep(window: seq<DI.CarbRow>, rows: seq<DI.CarbRow>, k: nat)
    requires k + DI.WinSize <= |rows| && WindowAt(window, rows, k)
    ensures Rescue(window, window[DI.Middle]) == RescueAt(rows, k + DI.Middle)
  {
    SameInputs(window, DI.Window(rows, k), window[DI.Middle]);
  }

  lemma WindowShift(window: seq<DI.CarbRow>, rows: seq<DI.CarbRow>, k: nat)
    requires k + DI.WinSize < |rows| && WindowAt(window, rows, k)
    ensures WindowAt(window[DI.Middle := RescueAt(rows, k + DI.Middle)][1..] + [DI.InitRow(rows[k + DI.WinSize])], rows, k + 1)
  {
  }

  lemma WindowFlush(out: seq<DI.CarbRow>, window: seq<DI.CarbRow>, rows: seq<DI.CarbRow>)
    requires |rows| >= DI.WinSize && WindowAt(window, rows, |rows| - DI.WinSize)
    requires |out| == |rows| - DI.WinSize && forall j :: 0 <= j < |out| ==> out[j] == RescueAt(rows, j)
    ensures var all := out + window[DI.Middle := RescueAt(rows, |rows| - DI.WinSize + DI.Middle)];
      |all| == |rows| && forall j :: 0 <= j < |rows| ==> all[j] == RescueAt(rows, j)
  {
    var k := |rows| - DI.WinSize;
    var all := out + window[DI.Middle := RescueAt(rows, k + DI.Middle)];
    forall j | 0 <= j < |rows|
      ensures all[j] == RescueAt(rows, j)
    {
      if j >= k {
        assert all[j] == window[DI.Middle := RescueAt(rows, k + DI.Middle)][j - k];
      }
    }
  }

  /** The window as first filled: no row has been a centre yet. */
  lemma WindowStart(window: seq<DI.CarbRow>, rows: seq<DI.CarbRow>)
    requires DI.WinSize <= |rows| && |window| == DI.WinSize
    requires forall j :: 0 <= j < |window| ==> window[j] == DI.InitRow(rows[j])
    ensures WindowAt(window, rows, 0)
  {
  }

  /** The oldest row of the window goes out next. */
  lemma OutStep(out: seq<DI.CarbRow>, window: seq<DI.CarbRow>, rows: seq<DI.CarbRow>, mid: DI.CarbRow)
    requires |out| + DI.WinSize <= |rows| && WindowAt(window, rows, |out|)
    requires forall j :: 0 <= j < |out| ==> out[j] == RescueAt(rows, j)
    ensures forall j :: 0 <= j < |out| + 1 ==> (out + [window[DI.Middle := mid][0]])[j] == RescueAt(rows, j)
  {
    assert window[DI.Middle := mid][0] == window[0];
  }

  /** `find_rescue_events`: with fewer than thirteen rows the window never
      fills and nothing is emitted; otherwise every row is emitted once, in
      order, and the window is flushed when the input runs out.
      `pipe.shift` is taken to drop the oldest row and append the new one. */
  method FindRescueEvents(rows: seq<DI.CarbRow>) returns (out: seq<DI.CarbRow>)
    ensures |rows| < DI.WinSize ==> out == []
    ensures |rows| >= DI.WinSize ==>
      |out| == |rows| && forall j :: 0 <= j < |rows| ==> out[j] == RescueAt(rows, j)
  {
    if |rows| < DI.WinSize {
      return [];
    }
    var window: seq<DI.CarbRow> := [];
    var next := 0;
    while |window| < DI.WinSize
      invariant next == |window| <= DI.WinSize
      invariant forall j :: 0 <= j < |window| ==> window[j] == DI.InitRow(rows[j])
    {
      window := window + [DI.InitRow(rows[next])];
      next := next + 1;
    }
    WindowStart(window, rows);
    out := [];
    while true
      invariant DI.WinSize <= next <= |rows|
      invariant WindowAt(window, rows, next - DI.WinSize)
      invariant |out| == next - DI.WinSize
      invariant forall j :: 0 <= j < |out| ==> out[j] == RescueAt(rows, j)
      decreases |rows| - next
    {
      ghost var k := next - DI.WinSize;
      ghost var w0 := window;
      CentreStep(window, rows, k);
      var mid := Rescue(window, window[DI.Middle]);
      window := window[DI.Middle := mid];
      var o := window[0];
      if next == |rows| {
        WindowFlush(out, w0, rows);
        out := out + window;
        return;
      }
      WindowShift(w0, rows, k);
      OutStep(out, w0, rows, mid);
      window := window[1..] + [DI.InitRow(rows[next])];
      next := next + 1;
      out := out + [o];
    }
  }
}
