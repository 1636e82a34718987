/** `action_curves.py`: the insulin and carbohydrate action curves, kept
    internally as floats summing to one and stored as integers summing to
    about 100 000; the curve read back from the database is cached with
    its reversal for the predictive model. */
module ActionCurves {
  import opened Common

  /** The user whose curves are cached. */
  const HughUid: int := 7

  /** The longest JSON text a stored curve may have. */
  const MaxCurveJsonLength: nat := 1000

  // ---------------------------------------------------------------
  // sum_hundred_percent
  // ---------------------------------------------------------------

  /** The curve as floats summing to one: unchanged when its total is
      already within 1/10 000 of one, otherwise divided by the total and
      kept when that sum is within 1/100 000 of one. */
  function SumHundredPercent(xs: seq<real>): (r: Result<seq<real>>)
    ensures r == Err(ValueError) <==> xs == []
    ensures r.Ok? ==> |r.value| == |xs| && AbsReal(Sum(r.value) - 1.0) <= 1.0 / 10000.0
    ensures AbsReal(Sum(xs) - 1.0) <= 1.0 / 10000.0 && xs != [] ==> r == Ok(xs)
    ensures r.Ok? && r.value != xs ==> Sum(xs) != 0.0 && r.value == Scale(xs, Sum(xs))
  {
    if xs == [] then Err(ValueError)
    else if AbsReal(Sum(xs) - 1.0) <= 1.0 / 10000.0 then Ok(xs)
    else if Sum(xs) == 0.0 then Err(ZeroDivisionError)
    else
      var f := Scale(xs, Sum(xs));
      if AbsReal(Sum(f) - 1.0) <= 1.0 / 100000.0 then Ok(f) else Err(GenericError)
  }

  /** With exact arithmetic the guard after the division never fires: a
      non-empty curve normalises exactly when its total is not zero. */
  lemma SumHundredPercentSucceeds(xs: seq<real>)
    requires xs != []
    ensures SumHundredPercent(xs).Ok? <==> Sum(xs) != 0.0
    ensures Sum(xs) == 0.0 ==> SumHundredPercent(xs) == Err(ZeroDivisionError)
  {
    if Sum(xs) != 0.0 {
      SumScale(xs, Sum(xs));
      DivSelf(Sum(xs));
    }
  }

  lemma DivSelf(x: real)
    requires x != 0.0
    ensures x / x == 1.0
  {
  }

  /** A normalised curve is returned unchanged by a second call. */
  lemma SumHundredPercentIdempotent(xs: seq<real>)
    requires SumHundredPercent(xs).Ok?
    ensures SumHundredPercent(SumHundredPercent(xs).value) == SumHundredPercent(xs)
  {
  }

  // ---------------------------------------------------------------
  // sum_ten_thousand
  // ---------------------------------------------------------------

  /** A number as Python holds it: `json.dumps` prints an `int` and a
      `float` differently. */
  datatype PyNum = PyInt(i: int) | PyFloat(x: real)

  function Value(n: PyNum): real
  {
    match n
    case PyInt(i) => i as real
    case PyFloat(x) => x
  }

  function Values(xs: seq<PyNum>): (r: seq<real>)
    ensures |r| == |xs|
  {
    seq(|xs|, k requires 0 <= k < |xs| => Value(xs[k]))
  }

  /** `sum(seq)`. */
  function Total(xs: seq<PyNum>): real { Sum(Values(xs)) }

  /** The stored total must be 100 000 within ten. */
  predicate Okay(v: real) { 99990.0 <= v <= 100010.0 }

  /** Python 3's `round` to an integer: to the nearest, halves to even. */
  function Round(x: real): (n: int)
    ensures -0.5 <= n as real - x <= 0.5
    ensures x - x.Floor as real == 0.5 ==> n % 2 == 0
  {
    var f := x.Floor;
    var d := x - f as real;
    if d < 0.5 then f else if d > 0.5 then f + 1 else if f % 2 == 0 then f else f + 1
  }

  lemma RoundOfInt(k: int)
    ensures Round(k as real) == k
  {
  }

  /** `round(100_000*float(n)/float(total))` for every element. */
  function Rescaled(xs: seq<PyNum>, total: real): (r: seq<PyNum>)
    requires total != 0.0
    ensures |r| == |xs|
    ensures forall k :: 0 <= k < |xs| ==>
      (r[k].PyInt? && -0.5 <= r[k].i as real - 100000.0 * Value(xs[k]) / total <= 0.5)
  {
    seq(|xs|, k requires 0 <= k < |xs| => PyInt(Round(100000.0 * Value(xs[k]) / total)))
  }

  /** The curve as numbers summing to 100 000 within ten: unchanged when
      its total already is, otherwise rescaled and rounded, and kept when
      the rounded values total within range. An empty curve totals zero
      and so fails the final range test without dividing. */
  function SumTenThousand(xs: seq<PyNum>): (r: Result<seq<PyNum>>)
    ensures r.Ok? ==> |r.value| == |xs| && Okay(Total(r.value))
    ensures Okay(Total(xs)) ==> r == Ok(xs)
    ensures r.Ok? && r.value != xs ==> Total(xs) != 0.0 && r.value == Rescaled(xs, Total(xs))
    ensures r == Err(ZeroDivisionError) <==> xs != [] && Total(xs) == 0.0
  {
    var total := Total(xs);
    if Okay(total) then Ok(xs)
    else if xs == [] then Err(GenericError)
    else if total == 0.0 then Err(ZeroDivisionError)
    else
      var ints := Rescaled(xs, total);
      if Okay(Total(ints)) then Ok(ints) else Err(GenericError)
  }

  /** A stored curve is returned unchanged by a second call. */
  lemma SumTenThousandIdempotent(xs: seq<PyNum>)
    requires SumTenThousand(xs).Ok?
    ensures SumTenThousand(SumTenThousand(xs).value) == SumTenThousand(xs)
  {
  }

  /** Two sequences that agree elementwise within one half have sums
      that agree within half their length. */
  lemma {:induction false} SumWithinHalf(a: seq<real>, b: seq<real>)
    requires |a| == |b|
    requires forall k :: 0 <= k < |a| ==> -0.5 <= a[k] - b[k] <= 0.5
    ensures -0.5 * |a| as real <= Sum(a) - Sum(b) <= 0.5 * |a| as real
    decreases |a|
  {
    if a != [] {
      var n := |a| - 1;
      SumWithinHalf(a[..n], b[..n]);
    }
  }

  /** The rounded values total 100 000 within half a unit per element. */
  lemma RescaledTotal(xs: seq<PyNum>)
    requires Total(xs) != 0.0
    ensures -0.5 * |xs| as real <= Total(Rescaled(xs, Total(xs))) - 100000.0 <= 0.5 * |xs| as real
  {
    var t := Total(xs);
    var c := t / 100000.0;
    var exact := Scale(Values(xs), c);
    var ints := Values(Rescaled(xs, t));
    forall k | 0 <= k < |xs| ensures -0.5 <= ints[k] - exact[k] <= 0.5 {
      ScaleByHundredThousandth(Value(xs[k]), t);
    }
    SumWithinHalf(ints, exact);
    SumScale(Values(xs), c);
    ScaleByHundredThousandth(t, t);
  }

  lemma ScaleByHundredThousandth(v: real, t: real)
    requires t != 0.0
    ensures v / (t / 100000.0) == 100000.0 * v / t
  {
  }

  /** Rounding errs by at most half a unit per element, so a curve of at
      most twenty points with a non-zero total always normalises. */
  lemma SumTenThousandShortCurve(xs: seq<PyNum>)
    requires xs != [] && Total(xs) != 0.0 && |xs| <= 20
    ensures SumTenThousand(xs).Ok?
  {
    if !Okay(Total(xs)) {
      RescaledTotal(xs);
    }
  }

  // ---------------------------------------------------------------
  // insert_action_curve
  // ---------------------------------------------------------------

  /** `json.dumps` of one number; the text of a float is left to the
      parameter, since Python's shortest round-trip float printing is not
      part of this model. */
  function JsonNumber(n: PyNum, floatRepr: real -> string): string
  {
    match n
    case PyInt(i) => IntToString(i)
    case PyFloat(x) => floatRepr(x)
  }

  /** `json.dumps` of a list of numbers: `[a, b, c]`. */
  function JsonList(xs: seq<PyNum>, floatRepr: real -> string): string
  {
    "[" + Join(", ", seq(|xs|, k requires 0 <= k < |xs| => JsonNumber(xs[k], floatRepr))) + "]"
  }

  /** The JSON text `insert_action_curve` stores for the curve, or the
      error it raises: that of `sum_ten_thousand`, or a generic one when
      the text is longer than the column allows. */
  function InsertActionCurve(curveValues: seq<PyNum>, floatRepr: real -> string): (r: Result<string>)
    ensures SumTenThousand(curveValues).Err? ==> r == Err(SumTenThousand(curveValues).error)
    ensures r.Ok? ==> SumTenThousand(curveValues).Ok? && |r.value| <= MaxCurveJsonLength
    ensures r.Ok? ==> r.value == JsonList(SumTenThousand(curveValues).value, floatRepr)
    ensures SumTenThousand(curveValues).Ok? && |JsonList(SumTenThousand(curveValues).value, floatRepr)| <= MaxCurveJsonLength ==> r.Ok?
  {
    match SumTenThousand(curveValues)
    case Err(e) => Err(e)
    case Ok(norm) =>
      var data := JsonList(norm, floatRepr);
      if |data| > MaxCurveJsonLength then Err(GenericError) else Ok(data)
  }

  /** A number below `10^k` prints in at most `k` digits. */
  lemma {:induction false} NatToStringDigits(n: nat, k: nat)
    requires k >= 1 && n < Pow10(k)
    ensures |NatToString(n)| <= k
    decreases n
  {
    if n >= 10 {
      assert Pow10(k) == 10 * Pow10(k - 1);
      NatToStringDigits(n / 10, k - 1);
    }
  }

  /** Joining parts of at most six characters with `", "`. */
  lemma {:induction false} JoinLength(parts: seq<string>)
    requires parts != []
    requires forall k :: 0 <= k < |parts| ==> |parts[k]| <= 6
    ensures |Join(", ", parts)| <= 8 * |parts| - 2
    decreases |parts|
  {
    if |parts| > 1 {
      JoinLength(parts[..|parts| - 1]);
    }
  }

  /** Non-negative integers below a million print in at most six digits,
      so a list of at most 125 of them fits the 1000-character column. */
  lemma IntCurveFits(xs: seq<PyNum>, floatRepr: real -> string)
    requires 0 < |xs| <= 125
    requires forall k :: 0 <= k < |xs| ==> xs[k].PyInt? && 0 <= xs[k].i < 1000000
    ensures |JsonList(xs, floatRepr)| <= MaxCurveJsonLength
  {
    var parts := seq(|xs|, k requires 0 <= k < |xs| => JsonNumber(xs[k], floatRepr));
    forall k | 0 <= k < |xs| ensures |parts[k]| <= 6 {
      assert Pow10(6) == 1000000;
      NatToStringDigits(xs[k].i, 6);
    }
    JoinLength(parts);
  }

  lemma {:induction false} SumNonNegative(a: seq<real>)
    requires forall k :: 0 <= k < |a| ==> a[k] >= 0.0
    ensures Sum(a) >= 0.0
    decreases |a|
  {
    if a != [] { SumNonNegative(a[..|a| - 1]); }
  }

  /** No element of a non-negative sequence exceeds the sum. */
  lemma {:induction false} ElementAtMostSum(a: seq<real>, k: nat)
    requires k < |a|
    requires forall j :: 0 <= j < |a| ==> a[j] >= 0.0
    ensures a[k] <= Sum(a)
    decreases |a|
  {
    var n := |a| - 1;
    if k < n {
      ElementAtMostSum(a[..n], k);
    } else {
      SumNonNegative(a[..n]);
    }
  }

  /** A curve of at most 125 non-negative points that has to be rescaled
      is stored whenever the rescaling succeeds: every rounded value is
      at most 100 000. */
  lemma InsertRescaledFits(xs: seq<PyNum>, floatRepr: real -> string)
    requires 0 < |xs| <= 125
    requires forall k :: 0 <= k < |xs| ==> Value(xs[k]) >= 0.0
    requires !Okay(Total(xs)) && SumTenThousand(xs).Ok?
    ensures InsertActionCurve(xs, floatRepr).Ok?
  {
    var t := Total(xs);
    var ints := Rescaled(xs, t);
    assert SumTenThousand(xs).value == ints;
    forall k | 0 <= k < |xs| ensures ints[k].PyInt? && 0 <= ints[k].i < 1000000 {
      RescaledEntryBound(xs, k);
    }
    IntCurveFits(ints, floatRepr);
  }

  /** A rescaled entry of a non-negative curve is between 0 and 100 000. */
  lemma RescaledEntryBound(xs: seq<PyNum>, k: nat)
    requires k < |xs|
    requires forall j :: 0 <= j < |xs| ==> Value(xs[j]) >= 0.0
    requires Total(xs) != 0.0
    ensures Rescaled(xs, Total(xs))[k].PyInt? && 0 <= Rescaled(xs, Total(xs))[k].i <= 100000
  {
    SumNonNegative(Values(xs));
    ElementAtMostSum(Values(xs), k);
    FractionBounds(Value(xs[k]), Total(xs));
  }

  lemma FractionBounds(v: real, t: real)
    requires 0.0 <= v <= t && t > 0.0
    ensures 0.0 <= 100000.0 * v / t <= 100000.0
  {
  }

  // ---------------------------------------------------------------
  // compute_beta_curve
  // ---------------------------------------------------------------

  /** `math.pow(x, k)` for a natural exponent. */
  function Pow(x: real, k: nat): real
  {
    if k == 0 then 1.0 else x * Pow(x, k - 1)
  }

  lemma {:induction false} PowPositive(x: real, k: nat)
    requires x > 0.0
    ensures Pow(x, k) > 0.0
  {
    if k > 0 { PowPositive(x, k - 1); }
  }

  lemma {:induction false} PowNonNegative(x: real, k: nat)
    requires x >= 0.0
    ensures Pow(x, k) >= 0.0
  {
    if k > 0 { PowNonNegative(x, k - 1); }
  }

  /** `t^a (1-t)^b` at `t = i/n` for `i` in `range(n)`. */
  function BetaValues(a: nat, b: nat, n: nat): (y: seq<real>)
    ensures |y| == n
  {
    seq(n, i requires 0 <= i < n => Pow(i as real / n as real, a) * Pow(1.0 - i as real / n as real, b))
  }

  lemma BetaValuesNonNegative(a: nat, b: nat, n: nat)
    ensures forall i :: 0 <= i < n ==> BetaValues(a, b, n)[i] >= 0.0
  {
    forall i | 0 <= i < n ensures BetaValues(a, b, n)[i] >= 0.0 {
      var t := i as real / n as real;
      assert 0.0 <= t < 1.0;
      PowNonNegative(t, a);
      PowNonNegative(1.0 - t, b);
    }
  }

  lemma BetaValuePositive(a: nat, b: nat, n: nat)
    requires n >= 2
    ensures BetaValues(a, b, n)[1] > 0.0
  {
    var t := 1.0 / n as real;
    assert 0.0 < t < 1.0;
    PowPositive(t, a);
    PowPositive(1.0 - t, b);
  }

  /** `compute_beta_curve(a, b, n)`, normalised to sum to one. */
  function ComputeBetaCurve(a: nat, b: nat, n: nat): (r: Result<seq<real>>)
    ensures n == 0 <==> r == Err(ValueError)
    ensures r.Ok? ==> |r.value| == n
  {
    SumHundredPercent(BetaValues(a, b, n))
  }

  /** With at least two points the curve normalises; with a positive
      first exponent it starts at zero, and it is never negative. */
  lemma BetaCurveShape(a: nat, b: nat, n: nat)
    requires n >= 2
    ensures ComputeBetaCurve(a, b, n).Ok?
    ensures a > 0 ==> ComputeBetaCurve(a, b, n).value[0] == 0.0
    ensures forall i :: 0 <= i < n ==> ComputeBetaCurve(a, b, n).value[i] >= 0.0
  {
    var y := BetaValues(a, b, n);
    BetaValuesNonNegative(a, b, n);
    BetaValuePositive(a, b, n);
    ElementAtMostSum(y, 1);
    assert Sum(y) > 0.0;
    SumHundredPercentSucceeds(y);
    NormalisedNonNegative(y);
    if a > 0 {
      assert y[0] == Pow(0.0, a) * Pow(1.0, b);
    }
  }

  /** Normalising keeps non-negative values non-negative and zeros zero. */
  lemma NormalisedNonNegative(y: seq<real>)
    requires forall k :: 0 <= k < |y| ==> y[k] >= 0.0
    requires SumHundredPercent(y).Ok? && Sum(y) > 0.0
    ensures forall k :: 0 <= k < |y| ==>
      (SumHundredPercent(y).value[k] >= 0.0 && (y[k] == 0.0 ==> SumHundredPercent(y).value[k] == 0.0))
  {
    var r := SumHundredPercent(y).value;
    if r != y {
      forall k | 0 <= k < |y| ensures r[k] >= 0.0 && (y[k] == 0.0 ==> r[k] == 0.0) {
        DivNonNegative(y[k], Sum(y));
      }
    }
  }

  lemma DivNonNegative(y: real, s: real)
    requires s > 0.0 && y >= 0.0
    ensures y / s >= 0.0 && (y == 0.0 ==> y / s == 0.0)
  {
  }

  // ---------------------------------------------------------------
  // curve_stats and curve_stats_as_str
  // ---------------------------------------------------------------

  /** `max(curve)`. */
  function Peak(curve: seq<real>): real
    requires curve != []
  {
    if |curve| == 1 then curve[0]
    else
      var p := Peak(curve[..|curve| - 1]);
      if curve[|curve| - 1] > p then curve[|curve| - 1] else p
  }

  lemma {:induction false} PeakIsMax(curve: seq<real>)
    requires curve != []
    ensures forall i :: 0 <= i < |curve| ==> curve[i] <= Peak(curve)
    ensures exists i :: 0 <= i < |curve| && curve[i] == Peak(curve)
  {
    if |curve| > 1 {
      PeakIsMax(curve[..|curve| - 1]);
      var p := Peak(curve[..|curve| - 1]);
      var j :| 0 <= j < |curve| - 1 && curve[..|curve| - 1][j] == p;
      if curve[|curve| - 1] <= p {
        assert curve[j] == Peak(curve);
      }
    } else {
      assert curve[0] == Peak(curve);
    }
  }

  /** `curve.index(v)`: the first position holding `v`, or `|curve|`. */
  function FirstIndex(curve: seq<real>, v: real): (i: nat)
    ensures i <= |curve|
    ensures i < |curve| ==> curve[i] == v
    ensures forall j :: 0 <= j < i ==> curve[j] != v
  {
    if curve == [] then 0 else if curve[0] == v then 0 else 1 + FirstIndex(curve[1..], v)
  }

  /** The peak value, the time of its first occurrence and the duration,
      five minutes per step; `max` raises on an empty curve. */
  function CurveStats(curve: seq<real>): (r: Result<(real, nat, nat)>)
    ensures r.Err? <==> curve == []
    ensures r.Err? ==> r.error == ValueError
    ensures r.Ok? ==> var (peak, peakTime, duration) := r.value;
      (forall i :: 0 <= i < |curve| ==> curve[i] <= peak) &&
      peakTime % 5 == 0 && peakTime / 5 < |curve| && curve[peakTime / 5] == peak &&
      (forall j :: 0 <= j < peakTime / 5 ==> curve[j] < peak) &&
      duration == 5 * |curve|
  {
    if curve == [] then Err(ValueError)
    else
      PeakIsMax(curve);
      var peak := Peak(curve);
      Ok((peak, FirstIndex(curve, peak) * 5, |curve| * 5))
  }

  /** The log line describing a curve. */
  function CurveStatsAsStr(curve: seq<real>, kind: string): (r: Result<string>)
    ensures r.Err? <==> curve == []
    ensures r.Ok? ==> exists t: nat :: (t % 5 == 0 && t < 5 * |curve| &&
      r.value == "The " + kind + " curve peaks at " + NatToString(t) + " and lasts for " + NatToString(5 * |curve|))
  {
    match CurveStats(curve)
    case Err(e) => Err(e)
    case Ok((_, peakTime, duration)) =>
      Ok("The " + kind + " curve peaks at " + NatToString(peakTime) + " and lasts for " + NatToString(duration))
  }

  // ---------------------------------------------------------------
  // get_action_curve and cache_action_curves
  // ---------------------------------------------------------------

  /** The four curves the predictive model uses, in the order they are read. */
  const Kinds: seq<string> := ["rescue", "brunch", "dinner", "insulin"]

  /** `get_action_curve`: the latest stored curve of the kind for the
      user, `store` standing for the database's latest row per user and
      kind; a missing curve raises. */
  function GetActionCurve(store: map<(int, string), seq<real>>, uid: int, kind: string): (r: Result<seq<real>>)
    ensures (uid, kind) !in store ==> r == Err(GenericError)
    ensures (uid, kind) in store ==> r == SumHundredPercent(store[(uid, kind)])
  {
    if (uid, kind) !in store then Err(GenericError) else SumHundredPercent(store[(uid, kind)])
  }

  /** The curves of the given kinds, or the error of the first kind that
      cannot be read. */
  function ReadCurves(store: map<(int, string), seq<real>>, kinds: seq<string>): (r: Result<map<string, seq<real>>>)
    ensures r.Ok? ==> r.value.Keys == set k | k in kinds
    ensures r.Ok? ==> forall k :: k in kinds ==>
      GetActionCurve(store, HughUid, k).Ok? && r.value[k] == GetActionCurve(store, HughUid, k).value
    ensures r.Err? <==> exists k :: k in kinds && GetActionCurve(store, HughUid, k).Err?
  {
    if kinds == [] then Ok(map[])
    else
      match GetActionCurve(store, HughUid, kinds[0])
      case Err(e) => Err(e)
      case Ok(c) =>
        match ReadCurves(store, kinds[1..])
        case Err(e) => Err(e)
        case Ok(m) =>
          assert forall k :: k in kinds <==> k == kinds[0] || k in kinds[1..];
          Ok(m[kinds[0] := c])
  }

  /** Every curve reversed, newest step first. */
  function Reversed(m: map<string, seq<real>>): (rm: map<string, seq<real>>)
    ensures rm.Keys == m.Keys
  {
    map k | k in m :: Reverse(m[k])
  }

  /** What a first call of `cache_action_curves` returns. */
  function LoadCurves(store: map<(int, string), seq<real>>): Result<(map<string, seq<real>>, map<string, seq<real>>)>
  {
    match ReadCurves(store, Kinds)
    case Err(e) => Err(e)
    case Ok(m) => Ok((m, Reversed(m)))
  }

  /** The load succeeds exactly when each of the four curves is stored
      for the user and normalises. */
  lemma LoadCurvesSucceeds(store: map<(int, string), seq<real>>)
    ensures LoadCurves(store).Ok? <==>
      forall k :: k in Kinds ==> (HughUid, k) in store && SumHundredPercent(store[(HughUid, k)]).Ok?
  {
  }

  /** A successful load holds exactly the four kinds, in both maps. */
  lemma LoadCurvesKeys(store: map<(int, string), seq<real>>)
    requires LoadCurves(store).Ok?
    ensures forall k :: k in LoadCurves(store).value.0 <==> k in Kinds
    ensures LoadCurves(store).value.1.Keys == LoadCurves(store).value.0.Keys
  {
  }

  /** Each loaded curve is non-empty and sums to one within 1/10 000. */
  lemma LoadCurvesNormalised(store: map<(int, string), seq<real>>, k: string)
    requires LoadCurves(store).Ok? && k in LoadCurves(store).value.0
    ensures var curve := LoadCurves(store).value.0[k];
      curve != [] && AbsReal(Sum(curve) - 1.0) <= 1.0 / 10000.0
  {
    var m := ReadCurves(store, Kinds).value;
    assert k in Kinds;
    assert m[k] == GetActionCurve(store, HughUid, k).value;
  }

  /** Each reversed entry is the reverse of its curve, and reverses back. */
  lemma LoadCurvesReversed(store: map<(int, string), seq<real>>, k: string)
    requires LoadCurves(store).Ok? && k in LoadCurves(store).value.0
    ensures var (curves, reversed) := LoadCurves(store).value;
      k in reversed && reversed[k] == Reverse(curves[k]) && Reverse(reversed[k]) == curves[k]
  {
    ReverseTwice(LoadCurves(store).value.0[k]);
  }

  /** The two module globals `action_curves` and `action_curves_reversed`. */
  class CurveCache {
    var actionCurves: Option<map<string, seq<real>>>
    var actionCurvesReversed: Option<map<string, seq<real>>>

    /** Both globals are set together, the second from the first. */
    ghost predicate Valid()
      reads this
    {
      (actionCurves.Some? <==> actionCurvesReversed.Some?) &&
      (actionCurves.Some? ==> actionCurvesReversed.value == Reversed(actionCurves.value))
    }

    /** Both start as `None`. */
    constructor()
      ensures Valid() && actionCurves == None && actionCurvesReversed == None
    {
      actionCurves := None;
      actionCurvesReversed := None;
    }

    /** `cache_action_curves`: the cached pair when there is one, else
        the curves read from `store`, which are then cached; a failed read
        leaves the cache empty. */
    method CacheActionCurves(store: map<(int, string), seq<real>>)
      returns (r: Result<(map<string, seq<real>>, map<string, seq<real>>)>)
      requires Valid()
      modifies this
      ensures Valid()
      ensures old(actionCurves).Some? ==>
        r == Ok((old(actionCurves).value, old(actionCurvesReversed).value)) &&
        actionCurves == old(actionCurves) && actionCurvesReversed == old(actionCurvesReversed)
      ensures old(actionCurves).None? ==> r == LoadCurves(store)
      ensures old(actionCurves).None? && r.Ok? ==>
        actionCurves == Some(r.value.0) && actionCurvesReversed == Some(r.value.1)
      ensures old(actionCurves).None? && r.Err? ==> actionCurves == None && actionCurvesReversed == None
    {
      if actionCurves.Some? {
        return Ok((actionCurves.value, actionCurvesReversed.value));
      }
      var curves := ReadCurves(store, Kinds);
      if curves.Err? {
        return Err(curves.error);
      }
      actionCurves := Some(curves.value);
      actionCurvesReversed := Some(Reversed(curves.value));
      r := Ok((actionCurves.value, actionCurvesReversed.value));
    }
  }
}
