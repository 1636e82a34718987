/** The June 2021 predictive model (predictive_model_june21.py): the
    notes log, the convolution and smoothing helpers, the ISF lookup by
    two-hour bucket, the test-input builder, and the 20-step prediction
    loop that shifts its insulin and carb inputs. */
module PredictiveModelJune21 {
  import opened Common

  // ---------------------------------------------------------------
  // add_note / all_notes
  // ---------------------------------------------------------------

  /** The module-level `notes` list. */
  class Notes {
    var notes: seq<string>

    constructor ()
      ensures notes == []
    {
      notes := [];
    }

    /** `add_note`. */
    method AddNote(msg: string)
      modifies this
      ensures notes == old(notes) + [msg]
    {
      notes := notes + [msg];
    }

    /** `all_notes`: the notes so far, leaving the list empty. */
    method AllNotes() returns (vals: seq<string>)
      modifies this
      ensures vals == old(notes) && notes == []
    {
      vals := notes;
      notes := [];
    }
  }

  // ---------------------------------------------------------------
  // convolve
  // ---------------------------------------------------------------

  /** The first `m` terms of the convolution at `index`: row `index - j`
      weighted by `curve[j]`. */
  function ConvTerms(xs: seq<real>, index: nat, curve: seq<real>, m: nat): real
    requires index < |xs| && m <= |curve| && m <= index + 1
  {
    if m == 0 then 0.0 else ConvTerms(xs, index, curve, m - 1) + xs[index - (m - 1)] * curve[m - 1]
  }

  function MinNat(a: nat, b: nat): nat { if a <= b then a else b }

  /** `convolve` on the column `xs` (the `key` of every row): the curve
      runs back from `index` until it or the rows run out; an `index`
      past the end raises. */
  function Convolution(xs: seq<real>, index: int, curve: seq<real>): Result<real>
  {
    if index < 0 || |curve| == 0 then Ok(0.0)
    else if index >= |xs| then Err(IndexError)
    else Ok(ConvTerms(xs, index, curve, MinNat(|curve|, index + 1)))
  }

  /** `convolve`, with its loop. */
  method Convolve(xs: seq<real>, index: int, curve: seq<real>) returns (r: Result<real>)
    ensures r == Convolution(xs, index, curve)
  {
    var sum := 0.0;
    var j := 0;
    while j < |curve|
      invariant 0 <= j <= |curve|
      invariant index >= 0 ==> j <= index + 1
      invariant j > 0 ==> 0 <= index < |xs|
      invariant index >= 0 && j > 0 ==> sum == ConvTerms(xs, index, curve, j)
      invariant j == 0 ==> sum == 0.0
    {
      if index - j < 0 {
        break;
      }
      if index - j >= |xs| {
        return Err(IndexError);
      }
      sum := sum + xs[index - j] * curve[j];
      j := j + 1;
    }
    return Ok(sum);
  }

  /** The convolution is causal: it depends only on rows up to `index`. */
  lemma {:induction false} ConvTermsCausal(xs: seq<real>, ys: seq<real>, index: nat, curve: seq<real>, m: nat)
    requires index < |xs| && index < |ys| && xs[..index + 1] == ys[..index + 1]
    requires m <= |curve| && m <= index + 1
    ensures ConvTerms(xs, index, curve, m) == ConvTerms(ys, index, curve, m)
  {
    if m > 0 {
      ConvTermsCausal(xs, ys, index, curve, m - 1);
      assert xs[index - (m - 1)] == xs[..index + 1][index - (m - 1)];
      assert ys[index - (m - 1)] == ys[..index + 1][index - (m - 1)];
    }
  }

  lemma ConvolutionCausal(xs: seq<real>, ys: seq<real>, index: int, curve: seq<real>)
    requires 0 <= index < |xs| && index < |ys| && xs[..index + 1] == ys[..index + 1]
    ensures Convolution(xs, index, curve) == Convolution(ys, index, curve)
  {
    if |curve| > 0 {
      ConvTermsCausal(xs, ys, index, curve, MinNat(|curve|, index + 1));
    }
  }

  /** The test `test_convolve(1)`: a single 2 at row 3 traces the curve. */
  lemma {:induction false} ConvTermsImpulse(xs: seq<real>, index: nat, curve: seq<real>, m: nat, j0: nat, v: real)
    requires index < |xs| && m <= |curve| && m <= index + 1 && j0 < |xs|
    requires forall j :: 0 <= j < |xs| && j != j0 ==> xs[j] == 0.0
    requires xs[j0] == v
    ensures ConvTerms(xs, index, curve, m) == if j0 <= index < j0 + m then v * curve[index - j0] else 0.0
  {
    if m > 0 {
      ConvTermsImpulse(xs, index, curve, m - 1, j0, v);
    }
  }

  // ---------------------------------------------------------------
  // smooth
  // ---------------------------------------------------------------

  /** `smooth`. */
  method Smooth(trace: seq<real>) returns (smoothed: seq<real>)
    ensures |smoothed| == |trace|
    ensures |trace| > 0 ==> smoothed[0] == trace[0] && smoothed[|trace| - 1] == trace[|trace| - 1]
    ensures forall i :: 0 < i < |trace| - 1 ==>
      smoothed[i] == 0.25 * trace[i - 1] + 0.50 * trace[i] + 0.25 * trace[i + 1]
  {
    smoothed := [];
    var end := |trace| - 1;
    var index := 0;
    while index < |trace|
      invariant 0 <= index <= |trace| && |smoothed| == index
      invariant index > 0 ==> smoothed[0] == trace[0]
      invariant forall i :: 0 < i < index && i < end ==>
        smoothed[i] == 0.25 * trace[i - 1] + 0.50 * trace[i] + 0.25 * trace[i + 1]
      invariant index == |trace| && index > 0 ==> smoothed[end] == trace[end]
    {
      if index == 0 {
        smoothed := smoothed + [trace[0]];
      } else if index == end {
        smoothed := smoothed + [trace[|trace| - 1]];
      } else {
        smoothed := smoothed + [0.25 * trace[index - 1] + 0.50 * trace[index] + 0.25 * trace[index + 1]];
      }
      index := index + 1;
    }
  }

  /** The smoothing weights sum to one and are symmetric, so a straight
      line (a constant among them) is left unchanged. */
  lemma SmoothKeepsLines(trace: seq<real>, a: real, d: real, i: nat)
    requires forall k :: 0 <= k < |trace| ==> trace[k] == a + d * k as real
    requires 0 < i < |trace| - 1
    ensures 0.25 * trace[i - 1] + 0.50 * trace[i] + 0.25 * trace[i + 1] == trace[i]
  {
    assert trace[i - 1] == a + d * (i - 1) as real;
    assert trace[i + 1] == a + d * (i + 1) as real;
  }

  // ---------------------------------------------------------------
  // pad, transpose
  // ---------------------------------------------------------------

  /** `pad(len, val)`. */
  function Pad<T>(n: nat, v: T): (r: seq<T>)
    ensures |r| == n && forall i :: 0 <= i < n ==> r[i] == v
  {
    seq(n, i => v)
  }

  /** The length of the shortest row (0 for no rows). */
  function MinLen<T>(m: seq<seq<T>>): (n: nat)
    ensures forall i :: 0 <= i < |m| ==> n <= |m[i]|
    ensures m != [] ==> exists i :: 0 <= i < |m| && n == |m[i]|
  {
    if m == [] then 0
    else if |m| == 1 then |m[0]|
    else
      var n := MinLen(m[1..]);
      assert forall i :: 1 <= i < |m| ==> m[i] == m[1..][i - 1];
      var i :| 0 <= i < |m[1..]| && n == |m[1..][i]|;
      assert n == |m[i + 1]|;
      MinNat(|m[0]|, n)
  }

  /** `transpose`, `list(zip(*rows))`: as many columns as the shortest row. */
  function Transpose<T>(m: seq<seq<T>>): (t: seq<seq<T>>)
    ensures |t| == MinLen(m)
    ensures forall j :: 0 <= j < |t| ==> |t[j]| == |m|
  {
    seq(MinLen(m), j requires 0 <= j < MinLen(m) =>
      seq(|m|, i requires 0 <= i < |m| => m[i][j]))
  }

  lemma TransposeEntries<T>(m: seq<seq<T>>, i: nat, j: nat)
    requires i < |m| && j < MinLen(m)
    ensures Transpose(m)[j][i] == m[i][j]
  {
  }

  /** Transposing a non-empty rectangular table twice gives it back. */
  lemma TransposeTwice<T>(m: seq<seq<T>>, w: nat)
    requires |m| > 0 && w > 0 && forall i :: 0 <= i < |m| ==> |m[i]| == w
    ensures Transpose(Transpose(m)) == m
  {
    var t := Transpose(m);
    assert MinLen(m) == w;
    assert MinLen(t) == |m|;
    var tt := Transpose(t);
    forall i | 0 <= i < |m|
      ensures tt[i] == m[i]
    {
      forall j | 0 <= j < w
        ensures tt[i][j] == m[i][j]
      {
        TransposeEntries(t, j, i);
        TransposeEntries(m, i, j);
      }
    }
  }

  // ---------------------------------------------------------------
  // datetime_quarter, datetime_bucket, estimated_isf_smoothed
  // ---------------------------------------------------------------

  type Month = m: int | 1 <= m <= 12 witness 1
  type Hour = h: int | 0 <= h < 24 witness 0

  /** `datetime_quarter`. */
  function DatetimeQuarter(month: Month): (q: int)
    ensures 1 <= q <= 4
    ensures 3 * (q - 1) < month <= 3 * q
  {
    1 + (month - 1) / 3
  }

  /** `datetime_bucket`: the even hour that starts a two-hour bucket. */
  function DatetimeBucket(hour: Hour): (b: int)
    ensures 0 <= b <= 22 && b % 2 == 0
    ensures b <= hour < b + 2
  {
    hour / 2 * 2
  }

  /** `SMOOTHED_ISF_VALUES`: (bucket, smoothed average ISF). */
  const SmoothedIsfValues: seq<(int, real)> := [
    (0, 5.0), (2, 10.0), (4, 14.0), (6, 18.0), (8, 22.0), (10, 25.0),
    (12, 22.0), (14, 19.0), (16, 16.0), (18, 13.0), (20, 10.0), (22, 7.0)]

  /** `estimated_isf_smoothed`: the row of the table for the hour's bucket. */
  function EstimatedIsfSmoothed(hour: Hour): (isf: real)
    ensures exists k :: 0 <= k < |SmoothedIsfValues| && SmoothedIsfValues[k].0 == DatetimeBucket(hour) && isf == SmoothedIsfValues[k].1
    ensures 5.0 <= isf <= 25.0
  {
    var k := DatetimeBucket(hour) / 2;
    assert SmoothedIsfValues[k].0 == 2 * k;
    SmoothedIsfValues[k].1
  }

  // ---------------------------------------------------------------
  // make_test_inputs
  // ---------------------------------------------------------------

  /** A test row; `insulin` is absent until an event sets it. */
  datatype TestRow = TestRow(
    rtime: int,
    delta: int,
    abg: int,
    carbCode: Option<string>,
    carbs: Option<real>,
    basalAmt12: real,
    insulin: Option<real>)

  /** An event `(dt, insulin, carb_code, carbs)`. */
  datatype Event = Event(dt: int, insulin: Option<real>, carbCode: Option<string>, carbs: Option<real>)

  const DefaultAbg := 120
  const DefaultBasal := 0.1

  /** The rows before any event: one every five minutes of `duration`. */
  function BaseRows(start: int, duration: int): (rows: seq<TestRow>)
    ensures forall k :: 0 <= k < |rows| ==> rows[k].delta == 5 * k && 0 <= rows[k].delta < duration
    ensures forall d :: 0 <= d < duration && d % 5 == 0 ==> d / 5 < |rows|
  {
    var n := if duration <= 0 then 0 else (duration + 4) / 5;
    seq(n, k requires 0 <= k < n => TestRow(start + 5 * k, 5 * k, DefaultAbg, None, Some(0.0), DefaultBasal, None))
  }

  function ApplyEvent(r: TestRow, e: Event): TestRow
  {
    var r1 := if e.insulin.Some? then r.(insulin := e.insulin) else r;
    if e.carbCode.Some? then r1.(carbCode := e.carbCode, carbs := e.carbs) else r1
  }

  /** An event matches exactly one row when its offset is on the grid. */
  predicate OnGrid(e: Event, duration: int) { 0 <= e.dt < duration && e.dt % 5 == 0 }

  /** The rows after the events, or the exception of the first event that
      does not match exactly one row. */
  function ApplyEvents(rows: seq<TestRow>, events: seq<Event>, duration: int): Result<seq<TestRow>>
    requires forall k :: 0 <= k < |rows| ==> rows[k].delta == 5 * k && 0 <= rows[k].delta < duration
    requires forall d :: 0 <= d < duration && d % 5 == 0 ==> d / 5 < |rows|
    decreases |events|
  {
    if events == [] then Ok(rows)
    else if !OnGrid(events[0], duration) then Err(GenericError)
    else
      var k := events[0].dt / 5;
      ApplyEvents(rows[k := ApplyEvent(rows[k], events[0])], events[1..], duration)
  }

  function MatchCount(rows: seq<TestRow>, dt: int): nat
  {
    if rows == [] then 0 else (if rows[0].delta == dt then 1 else 0) + MatchCount(rows[1..], dt)
  }

  lemma {:induction false} MatchCountGrid(rows: seq<TestRow>, dt: int, base: int)
    requires forall k :: 0 <= k < |rows| ==> rows[k].delta == base + 5 * k
    ensures MatchCount(rows, dt) == if base <= dt < base + 5 * |rows| && (dt - base) % 5 == 0 then 1 else 0
    decreases |rows|
  {
    if rows != [] {
      MatchCountGrid(rows[1..], dt, base + 5);
    }
  }

  /** `make_test_inputs`. */
  method MakeTestInputs(start: int, duration: int, events: seq<Event>) returns (r: Result<seq<TestRow>>)
    ensures r == ApplyEvents(BaseRows(start, duration), events, duration)
    ensures r.Ok? <==> forall i :: 0 <= i < |events| ==> OnGrid(events[i], duration)
  {
    var rows := BaseRows(start, duration);
    ghost var base := rows;
    var i := 0;
    ApplyEventsOk(base, events, duration);
    while i < |events|
      invariant 0 <= i <= |events| && |rows| == |base|
      invariant forall k :: 0 <= k < |rows| ==> rows[k].delta == 5 * k && 0 <= rows[k].delta < duration
      invariant forall j :: 0 <= j < i ==> OnGrid(events[j], duration)
      invariant ApplyEvents(base, events, duration) == ApplyEvents(rows, events[i..], duration)
    {
      var evt := events[i];
      MatchCountGrid(rows, evt.dt, 0);
      if MatchCount(rows, evt.dt) != 1 {
        assert !OnGrid(evt, duration);
        return Err(GenericError);
      }
      var k := evt.dt / 5;
      rows := rows[k := ApplyEvent(rows[k], evt)];
      assert events[i..][1..] == events[i + 1..];
      i := i + 1;
    }
    return Ok(rows);
  }

  lemma {:induction false} ApplyEventsOk(rows: seq<TestRow>, events: seq<Event>, duration: int)
    requires forall k :: 0 <= k < |rows| ==> rows[k].delta == 5 * k && 0 <= rows[k].delta < duration
    requires forall d :: 0 <= d < duration && d % 5 == 0 ==> d / 5 < |rows|
    ensures ApplyEvents(rows, events, duration).Ok? <==> forall i :: 0 <= i < |events| ==> OnGrid(events[i], duration)
    decreases |events|
  {
    if events != [] && OnGrid(events[0], duration) {
      var k := events[0].dt / 5;
      ApplyEventsOk(rows[k := ApplyEvent(rows[k], events[0])], events[1..], duration);
      assert forall i :: 1 <= i < |events| ==> events[i] == events[1..][i - 1];
    }
  }

  /** Every row lies on the five-minute grid of the offsets, and the
      builder's rows only change where an event sets a value. */
  lemma ApplyEventsKeepsGrid(rows: seq<TestRow>, events: seq<Event>, duration: int)
    requires forall k :: 0 <= k < |rows| ==> rows[k].delta == 5 * k && 0 <= rows[k].delta < duration
    requires forall d :: 0 <= d < duration && d % 5 == 0 ==> d / 5 < |rows|
    requires ApplyEvents(rows, events, duration).Ok?
    ensures |ApplyEvents(rows, events, duration).value| == |rows|
    ensures forall k :: 0 <= k < |rows| ==>
      ApplyEvents(rows, events, duration).value[k].rtime == rows[k].rtime &&
      ApplyEvents(rows, events, duration).value[k].delta == rows[k].delta &&
      ApplyEvents(rows, events, duration).value[k].basalAmt12 == rows[k].basalAmt12 &&
      ((forall i :: 0 <= i < |events| ==> events[i].dt != rows[k].delta) ==> ApplyEvents(rows, events, duration).value[k] == rows[k])
    decreases |events|
  {
    if events != [] {
      var k := events[0].dt / 5;
      var rows' := rows[k := ApplyEvent(rows[k], events[0])];
      ApplyEventsKeepsGrid(rows', events[1..], duration);
      forall j | 0 <= j < |rows| && (forall i :: 0 <= i < |events| ==> events[i].dt != rows[j].delta)
        ensures ApplyEvents(rows, events, duration).value[j] == rows[j]
      {
        assert events[0].dt != rows[j].delta;
        assert j != k;
        forall i | 0 <= i < |events[1..]|
          ensures events[1..][i].dt != rows'[j].delta
        {
          assert events[1..][i] == events[i + 1];
        }
      }
    }
  }

  // ---------------------------------------------------------------
  // the prediction loop of predictive_model_june21
  // ---------------------------------------------------------------

  /** The loop's inputs once every default has been supplied.
      `pastRTimes` is None when the caller passed `insulin_inputs`, because
      only the database branch binds `past_rtimes`. Times are minutes. */
  datatype Inputs = Inputs(
    timeNow: int,
    bgNow: real,
    bgPrev: real,
    coefBgNow: real,
    coefBgPrev: real,
    coefEffect: real,
    coefCarbs: real,
    insulinInputs: seq<real>,
    carbInputs: seq<real>,
    percentCurve: seq<real>,
    carbCurve: seq<real>,
    basalRate12: real,
    pastRTimes: Option<seq<int>>)

  datatype Prediction = Prediction(
    predictions: seq<real>,
    diValues: seq<real>,
    dcValues: seq<real>,
    diDeltas: seq<real>,
    dcDeltas: seq<real>)

  const PredictionSteps := 20

  /** `sum([x * y for x, y in zip(xs, ys)])`. */
  function Dot(xs: seq<real>, ys: seq<real>): real
  {
    Sum(seq(MinNat(|xs|, |ys|), i requires 0 <= i < MinNat(|xs|, |ys|) => xs[i] * ys[i]))
  }

  /** `xs.append(v); xs.pop(0)`. */
  function Shift(xs: seq<real>, v: real): seq<real> { (xs + [v])[1..] }

  function ShiftN(xs: seq<real>, k: nat, v: real): (r: seq<real>)
    ensures |r| == |xs|
  {
    if k == 0 then xs else Shift(ShiftN(xs, k - 1, v), v)
  }

  /** After `k` steps the inputs are the last `|xs| - k` old ones followed
      by `k` copies of the fill value. */
  lemma {:induction false} ShiftNWindow(xs: seq<real>, k: nat, v: real)
    requires k <= |xs|
    ensures ShiftN(xs, k, v) == xs[k..] + Pad(k, v)
  {
    if k > 0 {
      ShiftNWindow(xs, k - 1, v);
      assert (xs[k - 1..] + Pad(k - 1, v) + [v])[1..] == xs[k..] + Pad(k, v);
    }
  }

  function DiAt(p: Inputs, k: nat): real { Dot(ShiftN(p.insulinInputs, k, p.basalRate12), p.percentCurve) }
  function DcAt(p: Inputs, k: nat): real { Dot(ShiftN(p.carbInputs, k, 0.0), p.carbCurve) }

  /** One step of the model: `bg_next` from the current and previous
      readings, the dynamic insulin and carbs, and the ISF of the time. */
  function NextBg(p: Inputs, bgNow: real, bgPrev: real, di: real, dc: real, isfNow: real): real
  {
    p.coefBgNow * bgNow + p.coefBgPrev * bgPrev + p.coefEffect * (-1.0 * di * isfNow) + p.coefCarbs * dc
  }

  /** `bg_now` at step `k`: the previous prediction. */
  function BgAt(p: Inputs, isf: int -> real, k: nat): real
    decreases k, 0
  {
    if k == 0 then p.bgNow else PredAt(p, isf, k - 1)
  }

  /** The prediction of step `k` as written: `bg_prev` keeps its initial
      value, because the loop assigns the old `bg_now` to `bg_past`. */
  function PredAt(p: Inputs, isf: int -> real, k: nat): real
    decreases k, 1
  {
    NextBg(p, BgAt(p, isf, k), p.bgPrev, DiAt(p, k), DcAt(p, k), isf(p.timeNow + 5 * k))
  }

  /** The predictions of the first `n` steps. */
  function PredTrace(p: Inputs, isf: int -> real, n: nat): (t: seq<real>)
    ensures |t| == n
  {
    if n == 0 then [] else PredTrace(p, isf, n - 1) + [PredAt(p, isf, n - 1)]
  }

  /** The dynamic insulin of the first `n` steps. */
  function DiTrace(p: Inputs, n: nat): (t: seq<real>)
    ensures |t| == n
  {
    if n == 0 then [] else DiTrace(p, n - 1) + [DiAt(p, n - 1)]
  }

  /** The dynamic carbs of the first `n` steps. */
  function DcTrace(p: Inputs, n: nat): (t: seq<real>)
    ensures |t| == n
  {
    if n == 0 then [] else DcTrace(p, n - 1) + [DcAt(p, n - 1)]
  }

  /** The value of step `k - 1`, or the 0 that `prev_di` and `prev_dc`
      start from. */
  function PrevDi(p: Inputs, k: nat): real { if k == 0 then 0.0 else DiAt(p, k - 1) }
  function PrevDc(p: Inputs, k: nat): real { if k == 0 then 0.0 else DcAt(p, k - 1) }

  /** The logged differences `di_deltas` of the first `n` steps. */
  function DiDeltas(p: Inputs, n: nat): (t: seq<real>)
    ensures |t| == n
  {
    if n == 0 then [] else DiDeltas(p, n - 1) + [DiAt(p, n - 1) - PrevDi(p, n - 1)]
  }

  /** The logged differences `dc_deltas` of the first `n` steps. */
  function DcDeltas(p: Inputs, n: nat): (t: seq<real>)
    ensures |t| == n
  {
    if n == 0 then [] else DcDeltas(p, n - 1) + [DcAt(p, n - 1) - PrevDc(p, n - 1)]
  }

  /** The deltas telescope: the first `n` add up to the value of step `n - 1`. */
  lemma {:induction false} DeltasTelescope(p: Inputs, n: nat)
    requires n > 0
    ensures Sum(DiDeltas(p, n)) == DiAt(p, n - 1)
    ensures Sum(DcDeltas(p, n)) == DcAt(p, n - 1)
  {
    if n > 1 {
      DeltasTelescope(p, n - 1);
    }
    assert DiDeltas(p, n)[..n - 1] == DiDeltas(p, n - 1);
    assert DcDeltas(p, n)[..n - 1] == DcDeltas(p, n - 1);
  }

  /** Step `k` of each trace is the closed form of step `k`. */
  lemma {:induction false} TraceEntries(p: Inputs, isf: int -> real, n: nat, k: nat)
    requires k < n
    ensures PredTrace(p, isf, n)[k] == PredAt(p, isf, k)
    ensures DiTrace(p, n)[k] == DiAt(p, k)
    ensures DcTrace(p, n)[k] == DcAt(p, k)
  {
    if k < n - 1 {
      TraceEntries(p, isf, n - 1, k);
    }
  }

  /** The loop's result, or the exception its logging raises. */
  function Predict(p: Inputs, isf: int -> real): Result<Prediction>
  {
    if p.pastRTimes.None? then Err(NameError)
    else if |p.pastRTimes.value| < PredictionSteps || |p.insulinInputs| == 0 then Err(IndexError)
    else
      var n := PredictionSteps;
      Ok(Prediction(PredTrace(p, isf, n), DiTrace(p, n), DcTrace(p, n), DiDeltas(p, n), DcDeltas(p, n)))
  }

  /** `Predict` case by case. */
  lemma PredictCases(p: Inputs, isf: int -> real)
    ensures p.pastRTimes.None? ==> Predict(p, isf) == Err(NameError)
    ensures p.pastRTimes.Some? && (|p.pastRTimes.value| < PredictionSteps || |p.insulinInputs| == 0) ==>
      Predict(p, isf) == Err(IndexError)
  {
  }

  /** `Predict` on the success path, at a step count given by the caller. */
  lemma PredictOk(p: Inputs, isf: int -> real, n: nat)
    requires n == PredictionSteps
    requires p.pastRTimes.Some? && |p.pastRTimes.value| >= n && |p.insulinInputs| > 0
    ensures Predict(p, isf) == Ok(Prediction(PredTrace(p, isf, n), DiTrace(p, n), DcTrace(p, n), DiDeltas(p, n), DcDeltas(p, n)))
  {
  }

  /** One pass of the loop in terms of the closed forms. */
  lemma StepForms(p: Inputs, isf: int -> real, pt: nat)
    ensures DiAt(p, pt) == Dot(ShiftN(p.insulinInputs, pt, p.basalRate12), p.percentCurve)
    ensures DcAt(p, pt) == Dot(ShiftN(p.carbInputs, pt, 0.0), p.carbCurve)
    ensures PredAt(p, isf, pt) == NextBg(p, BgAt(p, isf, pt), p.bgPrev, DiAt(p, pt), DcAt(p, pt), isf(p.timeNow + 5 * pt))
    ensures BgAt(p, isf, pt + 1) == PredAt(p, isf, pt)
    ensures PredTrace(p, isf, pt + 1) == PredTrace(p, isf, pt) + [PredAt(p, isf, pt)]
    ensures DiTrace(p, pt + 1) == DiTrace(p, pt) + [DiAt(p, pt)]
    ensures DcTrace(p, pt + 1) == DcTrace(p, pt) + [DcAt(p, pt)]
    ensures DiDeltas(p, pt + 1) == DiDeltas(p, pt) + [DiAt(p, pt) - PrevDi(p, pt)]
    ensures DcDeltas(p, pt + 1) == DcDeltas(p, pt) + [DcAt(p, pt) - PrevDc(p, pt)]
    ensures PrevDi(p, pt + 1) == DiAt(p, pt) && PrevDc(p, pt + 1) == DcAt(p, pt)
    ensures ShiftN(p.insulinInputs, pt + 1, p.basalRate12) == Shift(ShiftN(p.insulinInputs, pt, p.basalRate12), p.basalRate12)
    ensures ShiftN(p.carbInputs, pt + 1, 0.0) == Shift(ShiftN(p.carbInputs, pt, 0.0), 0.0)
  {
  }

  /** The `for pt in range(20)` loop. */
  method PredictionLoop(p: Inputs, isf: int -> real) returns (r: Result<Prediction>)
    ensures r == Predict(p, isf)
  {
    var insulinInputs := p.insulinInputs;
    var carbInputs := p.carbInputs;
    var bgNow := p.bgNow;
    var timeNow := p.timeNow;
    var predictions: seq<real> := [];
    var diValues: seq<real> := [];
    var dcValues: seq<real> := [];
    var diDeltas: seq<real> := [];
    var dcDeltas: seq<real> := [];
    var prevDi := 0.0;
    var prevDc := 0.0;
    var pt := 0;
    PredictCases(p, isf);
    while pt < PredictionSteps
      invariant 0 <= pt <= PredictionSteps
      invariant insulinInputs == ShiftN(p.insulinInputs, pt, p.basalRate12)
      invariant carbInputs == ShiftN(p.carbInputs, pt, 0.0)
      invariant bgNow == BgAt(p, isf, pt) && timeNow == p.timeNow + 5 * pt
      invariant predictions == PredTrace(p, isf, pt)
      invariant diValues == DiTrace(p, pt) && dcValues == DcTrace(p, pt)
      invariant diDeltas == DiDeltas(p, pt) && dcDeltas == DcDeltas(p, pt)
      invariant prevDi == PrevDi(p, pt) && prevDc == PrevDc(p, pt)
      invariant pt > 0 ==> p.pastRTimes.Some? && pt <= |p.pastRTimes.value| && |p.insulinInputs| > 0
    {
      var dynamicInsulin := Dot(insulinInputs, p.percentCurve);
      var dynamicCarbs := Dot(carbInputs, p.carbCurve);
      if p.pastRTimes.None? {
        return Err(NameError);
      }
      if pt >= |p.pastRTimes.value| || |insulinInputs| == 0 {
        return Err(IndexError);
      }
      var bgNext := NextBg(p, bgNow, p.bgPrev, dynamicInsulin, dynamicCarbs, isf(timeNow));
      StepForms(p, isf, pt);
      predictions := predictions + [bgNext];
      diValues := diValues + [dynamicInsulin];
      diDeltas := diDeltas + [dynamicInsulin - prevDi];
      prevDi := dynamicInsulin;
      dcValues := dcValues + [dynamicCarbs];
      dcDeltas := dcDeltas + [dynamicCarbs - prevDc];
      prevDc := dynamicCarbs;
      insulinInputs := Shift(insulinInputs, p.basalRate12);
      carbInputs := Shift(carbInputs, 0.0);
      bgNow := bgNext;
      timeNow := timeNow + 5;
      pt := pt + 1;
    }
    PredictOk(p, isf, pt);
    return Ok(Prediction(predictions, diValues, dcValues, diDeltas, dcDeltas));
  }

  /** What a successful prediction holds: twenty steps, each the closed
      form above, with deltas that add up to the dynamic insulin and
      carbs of the last step. */
  lemma PredictMeaning(p: Inputs, isf: int -> real)
    requires Predict(p, isf).Ok?
    ensures var r := Predict(p, isf).value;
      && |r.predictions| == PredictionSteps && |r.diValues| == PredictionSteps
      && (forall k :: 0 <= k < PredictionSteps ==>
            r.predictions[k] == PredAt(p, isf, k) && r.diValues[k] == DiAt(p, k) && r.dcValues[k] == DcAt(p, k))
      && Sum(r.diDeltas) == DiAt(p, PredictionSteps - 1)
      && Sum(r.dcDeltas) == DcAt(p, PredictionSteps - 1)
  {
    var r := Predict(p, isf).value;
    forall k | 0 <= k < PredictionSteps
      ensures r.predictions[k] == PredAt(p, isf, k) && r.diValues[k] == DiAt(p, k) && r.dcValues[k] == DcAt(p, k)
    {
      TraceEntries(p, isf, PredictionSteps, k);
    }
    DeltasTelescope(p, PredictionSteps);
  }

  /** The exceptions: no `past_rtimes` without the database branch, and an
      index error for fewer than 20 past times or no insulin inputs. */
  lemma PredictErrors(p: Inputs, isf: int -> real)
    ensures Predict(p, isf).Err? <==>
      p.pastRTimes.None? || |p.pastRTimes.value| < PredictionSteps || |p.insulinInputs| == 0
    ensures p.pastRTimes.None? ==> Predict(p, isf) == Err(NameError)
  {
  }

  /** With the loop's 60-sample inputs both lists keep their length, and
      step `k` sees the old inputs from `k` on followed by `k` basal
      drips (insulin) or zeros (carbs). */
  lemma InputsShift(p: Inputs, k: nat)
    requires k <= |p.insulinInputs| && k <= |p.carbInputs|
    ensures ShiftN(p.insulinInputs, k, p.basalRate12) == p.insulinInputs[k..] + Pad(k, p.basalRate12)
    ensures ShiftN(p.carbInputs, k, 0.0) == p.carbInputs[k..] + Pad(k, 0.0)
  {
    ShiftNWindow(p.insulinInputs, k, p.basalRate12);
    ShiftNWindow(p.carbInputs, k, 0.0);
  }

  /** The recurrence the loop evidently intends: `bg_prev` takes the old
      `bg_now` at every step. */
  function IntendedBgAt(p: Inputs, isf: int -> real, k: nat): real
    decreases k, 0
  {
    if k == 0 then p.bgNow else IntendedPredAt(p, isf, k - 1)
  }

  function IntendedPrevAt(p: Inputs, isf: int -> real, k: nat): real
    decreases k, 1
  {
    if k == 0 then p.bgPrev else IntendedBgAt(p, isf, k - 1)
  }

  function IntendedPredAt(p: Inputs, isf: int -> real, k: nat): real
    decreases k, 2
  {
    NextBg(p, IntendedBgAt(p, isf, k), IntendedPrevAt(p, isf, k), DiAt(p, k), DcAt(p, k), isf(p.timeNow + 5 * k))
  }

  /** The intended model is a second-order recurrence on the predictions,
      and it agrees with the loop as written whenever `coef_bg_prev` is
      zero (its default). */
  lemma IntendedRecurrence(p: Inputs, isf: int -> real, k: nat)
    requires k >= 2
    ensures IntendedPredAt(p, isf, k) ==
      NextBg(p, IntendedPredAt(p, isf, k - 1), IntendedPredAt(p, isf, k - 2), DiAt(p, k), DcAt(p, k), isf(p.timeNow + 5 * k))
  {
    assert IntendedBgAt(p, isf, k) == IntendedPredAt(p, isf, k - 1);
    assert IntendedPrevAt(p, isf, k) == IntendedBgAt(p, isf, k - 1) == IntendedPredAt(p, isf, k - 2);
  }

  lemma {:induction false} IntendedAgreesWithoutPrev(p: Inputs, isf: int -> real, k: nat)
    requires p.coefBgPrev == 0.0
    ensures IntendedPredAt(p, isf, k) == PredAt(p, isf, k)
    ensures IntendedBgAt(p, isf, k) == BgAt(p, isf, k)
  {
    if k > 0 {
      IntendedAgreesWithoutPrev(p, isf, k - 1);
    }
  }

  /** As written, a non-zero `coef_bg_prev` keeps weighting the initial
      `bg_prev` at the second step instead of the first prediction. */
  lemma StalePrevious(p: Inputs, isf: int -> real)
    requires p.coefBgPrev == 1.0 && p.coefBgNow == 0.0 && p.bgPrev == 0.0 && p.bgNow == 100.0
    ensures IntendedPredAt(p, isf, 1) - PredAt(p, isf, 1) == 100.0
  {
  }
}
