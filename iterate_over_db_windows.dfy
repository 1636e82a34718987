/** Dynamic insulin over a circular window (iterate_over_db_windows.py):
    each new sample overwrites the oldest slot of a window as wide as the
    insulin action curve, and the worker convolves the window with the
    curve, newest sample first. */
module IterateOverDbWindows {
  import opened Common

  // ---------------------------------------------------------------
  // the circular window
  // ---------------------------------------------------------------

  /** Python's `a % w` for an `a` less than one window away from the
      range `0 .. w`. */
  lemma ModNearby(a: int, w: int)
    requires w > 0 && -w <= a <= w
    ensures a % w == if a < 0 then a + w else if a == w then 0 else a
  {
    if a < 0 {
      assert a == w * -1 + (a + w);
    } else if a == w {
      assert a == w * 1 + 0;
    } else {
      assert a == w * 0 + a;
    }
  }

  /** How many samples ago slot `s` was written, when the newest sample
      is in slot `index`. */
  function Age(index: int, s: int, w: int): int
  {
    if s <= index then index - s else index - s + w
  }

  // ---------------------------------------------------------------
  // di_worker
  // ---------------------------------------------------------------

  /** The first `m` terms of the worker's sum: curve entry `i` weights the
      slot `i` places before `index`, wrapping around. */
  function WorkerSum(window: seq<real>, index: int, iac: seq<real>, m: nat): real
    requires |window| == |iac| && m <= |iac|
  {
    if m == 0 then 0.0
    else WorkerSum(window, index, iac, m - 1) + iac[m - 1] * window[(index - (m - 1)) % |iac|]
  }

  /** `di_worker`: windows and curves of different lengths are refused. */
  method DiWorker(window: array<real>, index: int, iac: seq<real>) returns (r: Result<real>)
    ensures window.Length != |iac| ==> r == Err(ValueError)
    ensures window.Length == |iac| ==> r == Ok(WorkerSum(window[..], index, iac, |iac|))
  {
    if window.Length != |iac| {
      return Err(ValueError);
    }
    var winWidth := |iac|;
    var sum := 0.0;
    for i := 0 to winWidth
      invariant sum == WorkerSum(window[..], index, iac, i)
    {
      var j := (index - i) % winWidth;
      var weight := iac[i];
      var insulin := window[j];
      sum := sum + weight * insulin;
    }
    return Ok(sum);
  }

  // ---------------------------------------------------------------
  // the reference: a linear convolution with zero history
  // ---------------------------------------------------------------

  /** Sample `u`, with zeros before the first. */
  function XAt(xs: seq<real>, u: int): real
  {
    if 0 <= u < |xs| then xs[u] else 0.0
  }

  /** The first `m` terms of the convolution of `xs` with `iac` at `t`. */
  function LinConv(xs: seq<real>, iac: seq<real>, t: int, m: nat): real
    requires m <= |iac|
  {
    if m == 0 then 0.0 else LinConv(xs, iac, t, m - 1) + iac[m - 1] * XAt(xs, t - (m - 1))
  }

  /** The window after samples `0 .. t` of `xs`, the newest in slot
      `index`: each slot holds the sample written `Age` samples ago, or
      the initial zero. */
  predicate Holds(window: seq<real>, xs: seq<real>, t: int, index: int)
  {
    forall s :: 0 <= s < |window| ==> window[s] == XAt(xs, t - Age(index, s, |window|))
  }

  /** The worker on such a window is the convolution at `t`. */
  lemma {:induction false} WorkerIsConvolution(window: seq<real>, xs: seq<real>, iac: seq<real>, t: int, index: int, m: nat)
    requires |window| == |iac| > 0 && m <= |iac| && 0 <= index < |iac| && Holds(window, xs, t, index)
    ensures WorkerSum(window, index, iac, m) == LinConv(xs, iac, t, m)
  {
    if m > 0 {
      WorkerIsConvolution(window, xs, iac, t, index, m - 1);
      ModNearby(index - (m - 1), |iac|);
    }
  }

  /** Writing sample `t + 1` into the next slot keeps the window in step. */
  lemma WindowAdvance(window: seq<real>, xs: seq<real>, t: int, index: int, x: real)
    requires |window| > 0 && -1 <= index < |window| && Holds(window, xs, t, index) && t + 1 == |xs|
    ensures var k := (index + 1) % |window|;
      0 <= k < |window| && Holds(window[k := x], xs + [x], t + 1, k)
  {
    var w := |window|;
    ModNearby(index + 1, w);
    var k := (index + 1) % w;
    forall s | 0 <= s < w
      ensures window[k := x][s] == XAt(xs + [x], t + 1 - Age(k, s, w))
    {
      if s != k {
        assert Age(k, s, w) == Age(index, s, w) + 1;
      }
    }
  }

  /** The all-zero starting window holds the (empty) history. */
  lemma StartWindow(w: nat)
    requires w > 0
    ensures Holds(seq(w, _ => 0.0), [], -1, -1)
  {
  }

  // ---------------------------------------------------------------
  // di_driver
  // ---------------------------------------------------------------

  /** A value of the insulin column, before `float()` is applied. */
  datatype Sample = Num(x: real) | Text(s: string) | NoValue

  /** `float(insulin)`, with anything it cannot convert taken as 0.0.
      Text is read by `ParseFloat`, so the forms it refuses also give 0.0. */
  function ToFloat(v: Sample): real
  {
    match v
    case Num(x) => x
    case Text(s) => if ParseFloat(s).Ok? then ParseFloat(s).value else 0.0
    case NoValue => 0.0
  }

  function Insulins(vs: seq<Sample>): (xs: seq<real>)
    ensures |xs| == |vs| && forall t :: 0 <= t < |vs| ==> xs[t] == ToFloat(vs[t])
  {
    seq(|vs|, t requires 0 <= t < |vs| => ToFloat(vs[t]))
  }

  const Tolerance: real := 0.000001

  /** The curve must sum to one within the tolerance. */
  predicate CurveOk(iac: seq<real>) { AbsReal(1.0 - Sum(iac)) <= Tolerance }

  /** An empty curve sums to 0 and so is refused. */
  lemma CurveOkNonEmpty(iac: seq<real>)
    requires CurveOk(iac)
    ensures |iac| > 0
  {
  }

  /** The dynamic insulin at sample `t` of `xs`. */
  function DiAt(xs: seq<real>, iac: seq<real>, t: int): real
  {
    LinConv(xs, iac, t, |iac|)
  }

  /** One pass of the driver's loop: sample `t` goes into the slot after
      `index`, and the worker there gives the dynamic insulin at `t`. */
  lemma DriverStep(window: seq<real>, xs: seq<real>, iac: seq<real>, t: nat, index: int)
    requires |window| == |iac| > 0 && t < |xs| && -1 <= index < |iac|
    requires Holds(window, xs[..t], t - 1, index)
    ensures var k := (index + 1) % |iac|;
      && 0 <= k < |iac|
      && Holds(window[k := xs[t]], xs[..t + 1], t, k)
      && WorkerSum(window[k := xs[t]], k, iac, |iac|) == DiAt(xs, iac, t)
  {
    var k := (index + 1) % |iac|;
    WindowAdvance(window, xs[..t], t - 1, index, xs[t]);
    assert xs[..t] + [xs[t]] == xs[..t + 1];
    WorkerIsConvolution(window[k := xs[t]], xs[..t + 1], iac, t, k, |iac|);
    LinConvPrefix(xs, t + 1, iac, t, |iac|);
  }

  /** The body of the driver's loop: the sample goes into the slot after
      `index`, overwriting the oldest, and the worker gives the dynamic
      insulin at sample `t`. */
  method Feed(window: array<real>, index: int, iac: seq<real>, x: real, ghost xs: seq<real>, ghost t: nat)
    returns (next: int, di: real)
    requires window.Length == |iac| > 0 && -1 <= index < |iac| && t < |xs| && x == xs[t]
    requires Holds(window[..], xs[..t], t - 1, index)
    modifies window
    ensures next == (index + 1) % |iac| && 0 <= next < |iac|
    ensures window[..] == old(window[..])[next := x]
    ensures Holds(window[..], xs[..t + 1], t, next) && di == DiAt(xs, iac, t)
  {
    DriverStep(window[..], xs, iac, t, index);
    next := (index + 1) % |iac|;
    window[next] := x;
    var r := DiWorker(window, next, iac);
    di := r.value;
  }

  /** `di_driver` in test-array mode: each entry is replaced, in place, by
      the dynamic insulin at its position. A non-empty array selects this
      mode. */
  method DiDriverTest(testArray: array<Sample>, iac: seq<real>) returns (r: Result<()>)
    requires testArray.Length > 0
    modifies testArray
    ensures r.Err? <==> !CurveOk(iac)
    ensures r.Err? ==> r == Err(ValueError) && testArray[..] == old(testArray[..])
    ensures r.Ok? ==> forall t :: 0 <= t < testArray.Length ==>
      testArray[t] == Num(DiAt(Insulins(old(testArray[..])), iac, t))
  {
    if !(AbsReal(1.0 - Sum(iac)) <= Tolerance) {
      return Err(ValueError);
    }
    CurveOkNonEmpty(iac);
    var winWidth := |iac|;
    var window := new real[winWidth](_ => 0.0);
    var index := -1;
    ghost var input := testArray[..];
    ghost var xs := Insulins(input);
    StartWindow(winWidth);
    assert window[..] == seq(winWidth, _ => 0.0);
    for t := 0 to testArray.Length
      invariant -1 <= index < winWidth && (t > 0 ==> index >= 0)
      invariant Holds(window[..], xs[..t], t - 1, index)
      invariant forall u :: t <= u < testArray.Length ==> testArray[u] == input[u]
      invariant forall u :: 0 <= u < t ==> testArray[u] == Num(DiAt(xs, iac, u))
    {
      var insulin := ToFloat(testArray[t]);
      var di;
      index, di := Feed(window, index, iac, insulin, xs, t);
      testArray[t] := Num(di);
    }
    return Ok(());
  }

  /** Only samples up to `t` matter to the convolution at `t`. */
  lemma {:induction false} LinConvPrefix(xs: seq<real>, n: nat, iac: seq<real>, t: int, m: nat)
    requires n <= |xs| && t < n && m <= |iac|
    ensures LinConv(xs[..n], iac, t, m) == LinConv(xs, iac, t, m)
  {
    if m > 0 {
      LinConvPrefix(xs, n, iac, t, m - 1);
    }
  }

  /** `di_driver` in database mode, with the rows it reads passed in and
      the updates it writes returned: one `(rtime, di)` per row, in order. */
  method DiDriverRows(rows: seq<(int, Sample)>, iac: seq<real>) returns (r: Result<seq<(int, real)>>)
    ensures r.Err? <==> !CurveOk(iac)
    ensures r.Err? ==> r == Err(ValueError)
    ensures r.Ok? ==> |r.value| == |rows| && forall t :: 0 <= t < |rows| ==>
      r.value[t] == (rows[t].0, DiAt(Insulins(seq(|rows|, k requires 0 <= k < |rows| => rows[k].1)), iac, t))
  {
    if !(AbsReal(1.0 - Sum(iac)) <= Tolerance) {
      return Err(ValueError);
    }
    CurveOkNonEmpty(iac);
    var winWidth := |iac|;
    var window := new real[winWidth](_ => 0.0);
    var index := -1;
    ghost var xs := Insulins(seq(|rows|, k requires 0 <= k < |rows| => rows[k].1));
    StartWindow(winWidth);
    assert window[..] == seq(winWidth, _ => 0.0);
    var updates: seq<(int, real)> := [];
    for t := 0 to |rows|
      invariant -1 <= index < winWidth && (t > 0 ==> index >= 0) && |updates| == t
      invariant Holds(window[..], xs[..t], t - 1, index)
      invariant forall u :: 0 <= u < t ==> updates[u] == (rows[u].0, DiAt(xs, iac, u))
    {
      var (rtime, value) := rows[t];
      var insulin := ToFloat(value);
      var di;
      index, di := Feed(window, index, iac, insulin, xs, t);
      updates := updates + [(rtime, di)];
    }
    return Ok(updates);
  }

  /** A single dose traces the curve: `d` units at sample `j0` give
      `d * iac[t - j0]` at the `|iac|` samples from `j0` on, and nothing
      elsewhere, as the test trace in the source is meant to show. */
  lemma {:induction false} ImpulseResponse(xs: seq<real>, iac: seq<real>, j0: nat, d: real, t: int, m: nat)
    requires m <= |iac| && j0 < |xs| && xs[j0] == d
    requires forall u :: 0 <= u < |xs| && u != j0 ==> xs[u] == 0.0
    ensures LinConv(xs, iac, t, m) == if j0 <= t < j0 + m then d * iac[t - j0] else 0.0
  {
    if m > 0 {
      ImpulseResponse(xs, iac, j0, d, t, m - 1);
    }
  }

  /** Doses add: the convolution is linear in the samples. */
  lemma {:induction false} LinConvAdditive(xs: seq<real>, ys: seq<real>, zs: seq<real>, iac: seq<real>, t: int, m: nat)
    requires |xs| == |ys| == |zs| && forall u :: 0 <= u < |zs| ==> zs[u] == xs[u] + ys[u]
    requires m <= |iac|
    ensures LinConv(zs, iac, t, m) == LinConv(xs, iac, t, m) + LinConv(ys, iac, t, m)
  {
    if m > 0 {
      LinConvAdditive(xs, ys, zs, iac, t, m - 1);
      assert XAt(zs, t - (m - 1)) == XAt(xs, t - (m - 1)) + XAt(ys, t - (m - 1));
    }
  }

  /** The two curves defined in the source. */
  const Iac1: seq<real> := [0.0, 0.4, 0.3, 0.2, 0.1]

  lemma Iac1Ok()
    ensures CurveOk(Iac1)
  {
    var s1, s2, s3, s4 := [0.0], [0.0, 0.4], [0.0, 0.4, 0.3], [0.0, 0.4, 0.3, 0.2];
    assert s1[..0] == [] && s2[..1] == s1 && s3[..2] == s2 && s4[..3] == s3 && Iac1[..4] == s4;
    assert Sum(s4) == 0.9;
  }
}
