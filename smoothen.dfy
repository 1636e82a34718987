/** `smoothen.py`: the helpers around the Savitzky-Golay smoothing of the
    insulin action curve.  `set_zero` clears the tail of an array in place;
    `normalize` is `Common.Normalize`; of `savitzky_golay` only the argument
    checks are modelled, the numpy convolution is not. */
module Smoothen {
  import opened Common

  /** What `set_zero(seq, index)` leaves in `s`: Python's
      `for i in range(index, len(seq)): seq[i] = 0`.  A negative `i` indexes
      from the end, so an index in `[-len, 0)` clears everything; below
      `-len` the first assignment raises `IndexError`. */
  function ZeroFrom(s: seq<real>, index: int): (r: Result<seq<real>>)
    ensures r.Err? <==> index < -|s|
    ensures r.Err? ==> r.error == IndexError
    ensures r.Ok? ==> |r.value| == |s|
    ensures 0 <= index <= |s| ==> (r.Ok? &&
      (forall j :: 0 <= j < index ==> r.value[j] == s[j]) &&
      (forall j :: index <= j < |s| ==> r.value[j] == 0.0))
    ensures index >= |s| ==> r == Ok(s)
    ensures -|s| <= index < 0 ==> r.Ok? && forall j :: 0 <= j < |s| ==> r.value[j] == 0.0
  {
    if index < -|s| then Err(IndexError)
    else if index >= |s| then Ok(s)
    else Ok(seq(|s|, j requires 0 <= j < |s| => if index < 0 || j >= index then 0.0 else s[j]))
  }

  /** `set_zero(seq, index)` on a numpy array, in place. */
  method SetZero(a: array<real>, index: int) returns (r: Result<()>)
    modifies a
    ensures ZeroFrom(old(a[..]), index).Err? ==> r == Err(IndexError) && a[..] == old(a[..])
    ensures ZeroFrom(old(a[..]), index).Ok? ==> r == Ok(()) && a[..] == ZeroFrom(old(a[..]), index).value
  {
    var n := a.Length;
    var i := index;
    while i < n
      invariant index <= i && (i <= n || i == index)
      invariant i > index ==> index >= -n
      invariant forall j :: 0 <= j < n ==>
        a[j] == if (index <= j < i) || (index + n <= j < i + n) then 0.0 else old(a[j])
    {
      if i < 0 {
        if i < -n {
          return Err(IndexError);
        }
        a[n + i] := 0.0;
      } else {
        a[i] := 0.0;
      }
      i := i + 1;
    }
    if index < -n {
      // The loop runs at least once from `index`, and the first pass returns.
      assert false;
    }
    return Ok(());
  }

  /** Clearing twice clears as much as clearing once. */
  lemma ZeroFromIdempotent(s: seq<real>, index: int)
    requires index >= -|s|
    ensures ZeroFrom(ZeroFrom(s, index).value, index) == ZeroFrom(s, index)
  {
    var t := ZeroFrom(s, index).value;
    assert ZeroFrom(t, index).value == t;
  }

  function Zeros(n: nat): (r: seq<real>)
    ensures |r| == n && forall j :: 0 <= j < n ==> r[j] == 0.0
  {
    seq(n, _ => 0.0)
  }

  lemma {:induction false} SumZeros(n: nat)
    ensures Sum(Zeros(n)) == 0.0
    decreases n
  {
    if n > 0 {
      assert Zeros(n)[..n - 1] == Zeros(n - 1);
      SumZeros(n - 1);
    }
  }

  /** After `set_zero(seq, k)` the total is that of the first `k` values,
      so the `normalize` that follows in `main` raises exactly when those
      sum to zero. */
  lemma SumZeroFrom(s: seq<real>, k: int)
    requires 0 <= k <= |s|
    ensures Sum(ZeroFrom(s, k).value) == Sum(s[..k])
    ensures Normalize(ZeroFrom(s, k).value).Err? <==> Sum(s[..k]) == 0.0
  {
    assert ZeroFrom(s, k).value == s[..k] + Zeros(|s| - k);
    SumAppend(s[..k], Zeros(|s| - k));
    SumZeros(|s| - k);
  }

  /** An argument of `savitzky_golay` as `np.int` sees it. */
  datatype Number = IntArg(i: int) | FloatArg(x: real) | Unconvertible

  /** `np.int(x)`: a float is truncated toward zero; anything else raises
      `ValueError`. */
  function ToInt(v: Number): (r: Result<int>)
    ensures r.Err? <==> v.Unconvertible?
    ensures v.IntArg? ==> r == Ok(v.i)
    ensures v.FloatArg? ==> r.Ok? && AbsInt(r.value) as real <= AbsReal(v.x) < AbsInt(r.value) as real + 1.0
    ensures v.FloatArg? && r.Ok? ==> (r.value >= 0 <==> v.x > -1.0)
  {
    match v
    case IntArg(i) => Ok(i)
    case FloatArg(x) => Ok(if x >= 0.0 then x.Floor else -((-x).Floor))
    case Unconvertible => Err(ValueError)
  }

  function AbsInt(i: int): nat { if i < 0 then -i else i }

  /** The checked arguments: the window, the order and the half window. */
  datatype Window = Window(windowSize: nat, order: nat, halfWindow: nat)

  /** The guards at the top of `savitzky_golay(y, window_size, order)`:
      both arguments are made non-negative integers (`ValueError` if that
      fails), the window must be odd and positive, and it must exceed the
      order by at least two (`TypeError` otherwise). */
  function SavitzkyGolayGuards(windowSize: Number, order: Number): (r: Result<Window>)
    ensures (ToInt(windowSize).Err? || ToInt(order).Err?) <==> r == Err(ValueError)
    ensures r.Ok? <==> (ToInt(windowSize).Ok? && ToInt(order).Ok? &&
      AbsInt(ToInt(windowSize).value) % 2 == 1 && AbsInt(ToInt(windowSize).value) >= AbsInt(ToInt(order).value) + 2)
    ensures r.Ok? ==> r.value.windowSize == AbsInt(ToInt(windowSize).value) && r.value.order == AbsInt(ToInt(order).value)
    ensures r.Err? && r.error != ValueError ==> r.error == TypeError
  {
    var w := ToInt(windowSize);
    var o := ToInt(order);
    if w.Err? || o.Err? then Err(ValueError)
    else
      var ws := AbsInt(w.value);
      var ord := AbsInt(o.value);
      if ws % 2 != 1 || ws < 1 then Err(TypeError)
      else if ws < ord + 2 then Err(TypeError)
      else Ok(Window(ws, ord, (ws - 1) / 2))
  }

  /** An even window, or a zero one, is refused with `TypeError`. */
  lemma EvenWindowRefused(windowSize: int, order: Number)
    requires order != Unconvertible
    requires windowSize % 2 == 0
    ensures SavitzkyGolayGuards(IntArg(windowSize), order) == Err(TypeError)
  {
    assert AbsInt(windowSize) % 2 == 0 by {
      if windowSize < 0 {
        assert -windowSize == (-windowSize / 2) * 2 by {
          assert windowSize == (windowSize / 2) * 2;
        }
      }
    }
  }

  /** Accepted arguments give a window of `2 * half + 1` points centred on
      each sample and more points than the `order + 1` coefficients of the
      fitted polynomial, so the least-squares fit is overdetermined. */
  lemma AcceptedWindowShape(windowSize: Number, order: Number)
    requires SavitzkyGolayGuards(windowSize, order).Ok?
    ensures var g := SavitzkyGolayGuards(windowSize, order).value;
      g.windowSize == 2 * g.halfWindow + 1 && g.halfWindow >= 1 && g.order + 1 < g.windowSize &&
      g.order <= 2 * g.halfWindow - 1
  {
  }

  /** The defaults of `main` (`win_size=17, degree=3`) pass the guards with
      a half window of 8. */
  lemma MainDefaultsAccepted()
    ensures SavitzkyGolayGuards(IntArg(17), IntArg(3)) == Ok(Window(17, 3, 8))
  {
  }
}
