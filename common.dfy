/** Shared vocabulary for the whole model: Python's `None` as `Option`,
    raised exceptions as `Result`, and a few sequence and string helpers
    that several of the repository's scripts re-implement. */
module Common {

  /** A value that may be Python's `None`. */
  datatype Option<T> = None | Some(value: T)

  /** The Python exception classes the modelled code raises. */
  datatype Error =
    | ValueError
    | TypeError
    | KeyError
    | IndexError
    | ZeroDivisionError
    | NameError
    | AttributeError
    | StopIteration
    | GenericError

  /** The outcome of a call that may raise. */
  datatype Result<T> = Ok(value: T) | Err(error: Error)

  /** Sum of a sequence of reals, folded from the left as Python's `sum` does. */
  function Sum(s: seq<real>): real
    decreases |s|
  {
    if s == [] then 0.0 else Sum(s[..|s| - 1]) + s[|s| - 1]
  }

  lemma {:induction false} SumAppend(s: seq<real>, t: seq<real>)
    ensures Sum(s + t) == Sum(s) + Sum(t)
    decreases |t|
  {
    if t == [] {
      assert s + t == s;
    } else {
      assert (s + t)[..|s + t| - 1] == s + t[..|t| - 1];
      SumAppend(s, t[..|t| - 1]);
    }
  }

  /** Python's `abs` on a float. */
  function AbsReal(x: real): real { if x < 0.0 then -x else x }

  /** Maximum of two integers (Python's `max(a, b)`). */
  function Max(a: int, b: int): int { if a >= b then a else b }

  /** Decimal digits of a natural number, as Python's `str(n)`. */
  function NatToString(n: nat): (s: string)
    ensures |s| >= 1
    ensures forall i :: 0 <= i < |s| ==> '0' <= s[i] <= '9'
    decreases n
  {
    if n < 10 then [DigitChar(n)] else NatToString(n / 10) + [DigitChar(n % 10)]
  }

  function DigitChar(d: nat): (c: char)
    requires d < 10
    ensures '0' <= c <= '9' && c as int == '0' as int + d
  {
    ('0' as int + d) as char
  }

  /** `str(n)` for a Python int, with a leading '-' when negative. */
  function IntToString(n: int): string
  {
    if n < 0 then "-" + NatToString(-n) else NatToString(n)
  }

  /** A number printed with at least two digits, as `'%02d'` and
      `str(n).padStart(2, '0')` do. */
  function Pad2(n: nat): (s: string)
    ensures |s| >= 2 && AllDigits(s)
    ensures n < 100 ==> |s| == 2
  {
    NatLength(n);
    if n < 10 then "0" + NatToString(n) else NatToString(n)
  }

  /** A number printed with at least four digits, as `'%Y'` does. */
  function Pad4(n: nat): (s: string)
    ensures |s| >= 4 && AllDigits(s)
    ensures n < 10000 ==> |s| == 4
  {
    NatLength(n);
    if n < 10 then "000" + NatToString(n)
    else if n < 100 then "00" + NatToString(n)
    else if n < 1000 then "0" + NatToString(n)
    else NatToString(n)
  }

  /** How many digits `str(n)` has, up to four. */
  lemma {:induction false} NatLength(n: nat)
    ensures n < 10 ==> |NatToString(n)| == 1
    ensures 10 <= n < 100 ==> |NatToString(n)| == 2
    ensures 100 <= n < 1000 ==> |NatToString(n)| == 3
    ensures 1000 <= n < 10000 ==> |NatToString(n)| == 4
    ensures 1000 <= n ==> |NatToString(n)| >= 4
  {
    if n >= 10 {
      NatLength(n / 10);
    }
  }

  /** A calendar date; `Valid` is what `datetime.date` accepts (years with
      four digits). */
  datatype Date = Date(year: nat, month: nat, day: nat)
  {
    predicate Valid() { 1000 <= year <= 9999 && 1 <= month <= 12 && 1 <= day <= DaysIn(year, month) }
  }

  predicate Leap(y: nat) { y % 4 == 0 && (y % 100 != 0 || y % 400 == 0) }

  function DaysIn(y: nat, m: nat): nat
  {
    if m == 2 then (if Leap(y) then 29 else 28)
    else if m in {4, 6, 9, 11} then 30
    else 31
  }

  /** `strftime('%Y-%m-%d')`. */
  function YmdString(d: Date): (s: string)
    ensures d.Valid() ==> |s| == 10 && s[4] == '-' && s[7] == '-'
    ensures d.Valid() ==> AllDigits(s[..4]) && AllDigits(s[5..7]) && AllDigits(s[8..])
  {
    Pad4(d.year) + "-" + Pad2(d.month) + "-" + Pad2(d.day)
  }

  /** Python's `sep.join(parts)`. */
  function Join(sep: string, parts: seq<string>): string
    decreases |parts|
  {
    if parts == [] then ""
    else if |parts| == 1 then parts[0]
    else Join(sep, parts[..|parts| - 1]) + sep + parts[|parts| - 1]
  }

  /** Every element of `s` satisfies `p`, without a quantifier at the call site. */
  predicate All<T>(s: seq<T>, p: T -> bool)
  {
    forall i :: 0 <= i < |s| ==> p(s[i])
  }

  /** How many leading entries of a queue have a time at or before `t`:
      exactly the entries a loop that dequeues while the head is due at
      `t` removes. */
  function ReadyCount<T>(q: seq<T>, time: T -> int, t: int): (n: nat)
    ensures n <= |q|
    decreases |q|
  {
    if |q| > 0 && time(q[0]) <= t then 1 + ReadyCount(q[1..], time, t) else 0
  }

  lemma {:induction false} ReadyCountAll<T>(q: seq<T>, time: T -> int, t: int)
    ensures forall i :: 0 <= i < ReadyCount(q, time, t) ==> time(q[i]) <= t
    ensures ReadyCount(q, time, t) < |q| ==> time(q[ReadyCount(q, time, t)]) > t
    decreases |q|
  {
    if |q| > 0 && time(q[0]) <= t {
      ReadyCountAll(q[1..], time, t);
    }
  }

  /** Dequeuing at a later time continues where the earlier dequeue stopped. */
  lemma {:induction false} ReadyCountSplit<T>(q: seq<T>, time: T -> int, t1: int, t2: int, k: nat)
    requires t1 <= t2 && k <= ReadyCount(q, time, t1)
    ensures ReadyCount(q, time, t2) >= k
    ensures k + ReadyCount(q[k..], time, t2) == ReadyCount(q, time, t2)
    decreases k
  {
    if k > 0 {
      assert |q| > 0 && time(q[0]) <= t1;
      assert ReadyCount(q, time, t1) == 1 + ReadyCount(q[1..], time, t1);
      assert ReadyCount(q, time, t2) == 1 + ReadyCount(q[1..], time, t2);
      ReadyCountSplit(q[1..], time, t1, t2, k - 1);
      assert q[1..][k - 1..] == q[k..];
    }
  }

  predicate IsDigit(c: char) { '0' <= c <= '9' }

  predicate AllDigits(s: string) { forall i :: 0 <= i < |s| ==> IsDigit(s[i]) }

  function DigitValue(c: char): nat
    requires IsDigit(c)
  {
    c as int - '0' as int
  }

  /** The value of a string of decimal digits, as `int(s)` reads it. */
  function DigitsValue(s: string): nat
    requires AllDigits(s)
  {
    if s == [] then 0 else DigitsValue(s[..|s| - 1]) * 10 + DigitValue(s[|s| - 1])
  }

  /** Reading back the digits `str(n)` prints gives `n`. */
  lemma {:induction false} DigitsOfNat(n: nat)
    ensures DigitsValue(NatToString(n)) == n
    decreases n
  {
    var s := NatToString(n);
    if n >= 10 {
      DigitsOfNat(n / 10);
      assert s[..|s| - 1] == NatToString(n / 10);
    }
    assert DigitValue(DigitChar(n % 10)) == n % 10;
  }

  function Pow10(k: nat): (p: nat)
    ensures p >= 1
  {
    if k == 0 then 1 else 10 * Pow10(k - 1)
  }

  /** Position of the first `c` in `s`, or `|s|`. */
  function IndexOf(s: string, c: char): (i: nat)
    ensures i <= |s|
    ensures i < |s| ==> s[i] == c
  {
    if s == [] then 0 else if s[0] == c then 0 else 1 + IndexOf(s[1..], c)
  }

  /** `IndexOf` finds the first occurrence. */
  lemma {:induction false} IndexOfFirst(s: string, c: char)
    ensures forall k :: 0 <= k < IndexOf(s, c) ==> s[k] != c
  {
    if s != [] && s[0] != c {
      IndexOfFirst(s[1..], c);
      assert forall k :: 1 <= k < |s| ==> s[k] == s[1..][k - 1];
    }
  }

  /** An unsigned decimal numeral with an optional fraction. */
  function ParseUnsigned(body: string): Result<real>
  {
    var dot := IndexOf(body, '.');
    var whole := body[..dot];
    var frac := if dot < |body| then body[dot + 1..] else "";
    if |whole| + |frac| > 0 && AllDigits(whole) && AllDigits(frac) then
      Ok(DigitsValue(whole) as real + FracValue(frac))
    else Err(ValueError)
  }

  /** The value of the digits after a decimal point. */
  function FracValue(f: string): (v: real)
    requires AllDigits(f)
    ensures f == "" ==> v == 0.0
  {
    if f == "" then 0.0 else DigitsValue(f) as real / Pow10(|f|) as real
  }

  function Negate(r: Result<real>): Result<real>
  {
    if r.Ok? then Ok(-r.value) else r
  }

  /** Python's `float(s)`, restricted to an optionally signed decimal
      numeral with an optional fraction (`"12"`, `"-0.5"`, `".5"`, `"5."`).
      Every other text gives `ValueError` here, including the forms Python
      also accepts: surrounding whitespace, an exponent, `inf` and `nan`. */
  function ParseFloat(s: string): Result<real>
  {
    if |s| > 0 && s[0] == '-' then Negate(ParseUnsigned(s[1..]))
    else if |s| > 0 && s[0] == '+' then ParseUnsigned(s[1..])
    else ParseUnsigned(s)
  }

  lemma ParseDigits(s: string)
    requires |s| > 0 && AllDigits(s)
    ensures ParseUnsigned(s) == Ok(DigitsValue(s) as real)
  {
    NoDot(s);
    assert s[..|s|] == s;
  }

  lemma {:induction false} NoDot(s: string)
    requires AllDigits(s)
    ensures IndexOf(s, '.') == |s|
  {
    if s != [] {
      assert IsDigit(s[0]);
      NoDot(s[1..]);
    }
  }

  /** `float(str(n)) == n`, and likewise for `-n`. */
  lemma ParseFloatOfInt(n: nat)
    ensures ParseFloat(NatToString(n)) == Ok(n as real)
    ensures ParseFloat("-" + NatToString(n)) == Ok(-(n as real))
  {
    var s := NatToString(n);
    DigitsOfNat(n);
    ParseDigits(s);
    assert ("-" + s)[1..] == s;
  }

  /** Text that is not a numeral is refused: the empty string and a bare
      sign or point. */
  lemma ParseFloatRejects()
    ensures ParseFloat("").Err? && ParseFloat("-").Err? && ParseFloat(".").Err? && ParseFloat("1a").Err?
  {
    assert IndexOf("1a", '.') == 2;
    assert !AllDigits("1a") by { assert !IsDigit("1a"[1]); }
  }

  function Scale(xs: seq<real>, c: real): (r: seq<real>)
    requires c != 0.0
    ensures |r| == |xs| && forall i :: 0 <= i < |xs| ==> r[i] == xs[i] / c
  {
    seq(|xs|, i requires 0 <= i < |xs| => xs[i] / c)
  }

  /** `normalize`, written identically in several files: each element
      divided by the total; a zero total raises. */
  function Normalize(xs: seq<real>): (r: Result<seq<real>>)
    ensures r.Err? <==> Sum(xs) == 0.0
    ensures r.Ok? ==> |r.value| == |xs| && forall i :: 0 <= i < |xs| ==> r.value[i] * Sum(xs) == xs[i]
  {
    if Sum(xs) == 0.0 then Err(ZeroDivisionError) else Ok(Scale(xs, Sum(xs)))
  }

  lemma {:induction false} SumScale(xs: seq<real>, c: real)
    requires c != 0.0
    ensures Sum(Scale(xs, c)) == Sum(xs) / c
    decreases |xs|
  {
    if xs != [] {
      var n := |xs| - 1;
      SumScale(xs[..n], c);
      assert Scale(xs, c)[..n] == Scale(xs[..n], c);
    }
  }

  /** A normalised curve sums to one. */
  lemma NormalizeSumsToOne(xs: seq<real>)
    requires Sum(xs) != 0.0
    ensures Normalize(xs).Ok? && Sum(Normalize(xs).value) == 1.0
  {
    SumScale(xs, Sum(xs));
    assert Sum(xs) / Sum(xs) == 1.0;
  }

  /** Python's `list(reversed(s))`. */
  function Reverse<T>(s: seq<T>): (r: seq<T>)
    ensures |r| == |s|
    ensures forall k :: 0 <= k < |s| ==> r[k] == s[|s| - 1 - k]
  {
    if s == [] then [] else Reverse(s[1..]) + [s[0]]
  }

  lemma {:induction false} ReverseMultiset<T>(s: seq<T>)
    ensures multiset(Reverse(s)) == multiset(s)
  {
    if s != [] {
      ReverseMultiset(s[1..]);
      assert s == [s[0]] + s[1..];
    }
  }

  lemma {:induction false} ReverseTwice<T>(s: seq<T>)
    ensures Reverse(Reverse(s)) == s
  {
    var r := Reverse(s);
    assert |Reverse(r)| == |s|;
    forall k | 0 <= k < |s| ensures Reverse(r)[k] == s[k] {
      assert Reverse(r)[k] == r[|s| - 1 - k];
    }
  }

  /** Concatenation regrouped, as a step for longer proofs. */
  lemma ConcatAssoc<T>(a: seq<T>, b: seq<T>, c: seq<T>)
    ensures a + b + c == a + (b + c)
  {
  }

  /** Apply `f` to each element in order, stopping at the first error, as a
      loop or comprehension that raises does. */
  function MapAll<A, B>(xs: seq<A>, f: A -> Result<B>): (r: Result<seq<B>>)
    ensures r.Ok? ==> |r.value| == |xs|
  {
    if xs == [] then Ok([])
    else
      var n := |xs| - 1;
      match MapAll(xs[..n], f)
      case Err(e) => Err(e)
      case Ok(ys) =>
        match f(xs[n])
        case Err(e) => Err(e)
        case Ok(y) => Ok(ys + [y])
  }

  /** The whole map succeeds exactly when every element does, and then
      holds each element's result. */
  lemma {:induction false} MapAllMeaning<A, B>(xs: seq<A>, f: A -> Result<B>)
    ensures MapAll(xs, f).Ok? <==> forall k :: 0 <= k < |xs| ==> f(xs[k]).Ok?
    ensures MapAll(xs, f).Ok? ==> forall k :: 0 <= k < |xs| ==> MapAll(xs, f).value[k] == f(xs[k]).value
  {
    if xs != [] {
      var n := |xs| - 1;
      MapAllMeaning(xs[..n], f);
      assert forall k :: 0 <= k < n ==> xs[..n][k] == xs[k];
    }
  }

  /** An error of `MapAll` is the error of some element. */
  lemma {:induction false} MapAllFirstErr<A, B>(xs: seq<A>, f: A -> Result<B>)
    ensures MapAll(xs, f).Err? ==> exists k :: 0 <= k < |xs| && f(xs[k]) == Err(MapAll(xs, f).error)
  {
    if xs != [] {
      var n := |xs| - 1;
      MapAllFirstErr(xs[..n], f);
      assert forall k :: 0 <= k < n ==> xs[..n][k] == xs[k];
    }
  }

  lemma MapAllSnoc<A, B>(xs: seq<A>, x: A, f: A -> Result<B>)
    ensures MapAll(xs + [x], f) == match MapAll(xs, f)
      case Err(e) => Err(e)
      case Ok(ys) => (match f(x) case Err(e) => Err(e) case Ok(y) => Ok(ys + [y]))
  {
    assert (xs + [x])[..|xs|] == xs;
  }

  /** A failed prefix fails the whole map. */
  lemma {:induction false} MapAllErr<A, B>(xs: seq<A>, f: A -> Result<B>, i: nat)
    requires i <= |xs| && MapAll(xs[..i], f).Err?
    ensures MapAll(xs, f) == MapAll(xs[..i], f)
    decreases |xs| - i
  {
    if i < |xs| {
      assert xs[..i + 1][..i] == xs[..i];
      MapAllErr(xs, f, i + 1);
    } else {
      assert xs[..i] == xs;
    }
  }

  /** The elements of `s` that satisfy `p`, in order. */
  function Filter<T>(s: seq<T>, p: T -> bool): (r: seq<T>)
    ensures |r| <= |s|
    decreases |s|
  {
    if s == [] then []
    else (if p(s[0]) then [s[0]] else []) + Filter(s[1..], p)
  }

  lemma {:induction false} FilterMembers<T>(s: seq<T>, p: T -> bool)
    ensures forall x :: x in Filter(s, p) <==> x in s && p(x)
    decreases |s|
  {
    if s != [] {
      FilterMembers(s[1..], p);
      assert s == [s[0]] + s[1..];
    }
  }

  lemma {:induction false} FilterAppend<T>(s: seq<T>, t: seq<T>, p: T -> bool)
    ensures Filter(s + t, p) == Filter(s, p) + Filter(t, p)
    decreases |s|
  {
    if s == [] {
      assert s + t == t;
    } else {
      var head := if p(s[0]) then [s[0]] else [];
      assert (s + t)[0] == s[0] && (s + t)[1..] == s[1..] + t;
      assert Filter(s + t, p) == head + Filter(s[1..] + t, p);
      FilterAppend(s[1..], t, p);
      assert head + (Filter(s[1..], p) + Filter(t, p)) == (head + Filter(s[1..], p)) + Filter(t, p);
    }
  }

  lemma {:induction false} FilterNone<T>(s: seq<T>, p: T -> bool)
    requires forall k :: 0 <= k < |s| ==> !p(s[k])
    ensures Filter(s, p) == []
    decreases |s|
  {
    if s != [] {
      assert !p(s[0]);
      FilterNone(s[1..], p);
    }
  }

  /** `k * (w + 1)`, the offset of the `k`-th of a run of `w`-character
      parts separated by single characters. */
  function Stride(k: nat, w: nat): nat
  {
    if k == 0 then 0 else Stride(k - 1, w) + w + 1
  }

  lemma {:induction false} StrideIsProduct(k: nat, w: nat)
    ensures Stride(k, w) == k * (w + 1)
  {
    if k > 0 {
      StrideIsProduct(k - 1, w);
      assert (k - 1) * (w + 1) + w + 1 == k * (w + 1);
    }
  }

  lemma {:induction false} StrideMono(a: nat, b: nat, w: nat)
    requires a <= b
    ensures Stride(a, w) <= Stride(b, w)
    ensures a < b ==> Stride(a + 1, w) <= Stride(b, w)
    decreases b - a
  {
    if a < b {
      StrideMono(a, b - 1, w);
    }
  }

  predicate FixedWidth(sep: string, parts: seq<string>, w: nat)
  {
    |sep| == 1 && parts != [] && forall k :: 0 <= k < |parts| ==> |parts[k]| == w
  }

  lemma {:induction false} JoinFixedLength(sep: string, parts: seq<string>, w: nat)
    requires FixedWidth(sep, parts, w)
    ensures |Join(sep, parts)| == Stride(|parts|, w) - 1
    decreases |parts|
  {
    var n := |parts| - 1;
    if n > 0 {
      assert FixedWidth(sep, parts[..n], w);
      JoinFixedLength(sep, parts[..n], w);
      assert Join(sep, parts) == Join(sep, parts[..n]) + sep + parts[n];
    }
  }

  /** In parts of `w` characters joined with a one-character separator,
      part `k` starts at `Stride(k, w)` ... */
  lemma {:induction false} JoinFixedPart(sep: string, parts: seq<string>, w: nat, k: nat)
    requires FixedWidth(sep, parts, w) && k < |parts|
    ensures Stride(k, w) + w <= |Join(sep, parts)| && Join(sep, parts)[Stride(k, w)..Stride(k, w) + w] == parts[k]
    decreases |parts|
  {
    var n := |parts| - 1;
    if n > 0 {
      var prev := Join(sep, parts[..n]);
      assert FixedWidth(sep, parts[..n], w);
      JoinFixedLength(sep, parts[..n], w);
      var j := Join(sep, parts);
      assert j == prev + (sep + parts[n]);
      if k < n {
        JoinFixedPart(sep, parts[..n], w, k);
        StrideMono(k + 1, n, w);
        SliceOfConcat(prev, sep + parts[n], Stride(k, w), w);
      } else {
        var ps := prev + sep;
        assert j == ps + parts[n];
        assert Stride(k, w) == |ps|;
        SliceOfConcat(ps, parts[n], |ps|, 0);
      }
    }
  }

  lemma SliceOfConcat(a: string, b: string, i: nat, m: nat)
    ensures i + m <= |a| ==> (a + b)[i..i + m] == a[i..i + m]
    ensures i == |a| ==> (a + b)[i..i + |b|] == b
  {
  }

  /** ... and is followed by the separator unless it is the last. */
  lemma {:induction false} JoinFixedSeparator(sep: string, parts: seq<string>, w: nat, k: nat)
    requires FixedWidth(sep, parts, w) && k + 1 < |parts|
    ensures Stride(k, w) + w < |Join(sep, parts)| && Join(sep, parts)[Stride(k, w) + w] == sep[0]
    decreases |parts|
  {
    var n := |parts| - 1;
    var prev := Join(sep, parts[..n]);
    assert FixedWidth(sep, parts[..n], w);
    JoinFixedLength(sep, parts[..n], w);
    var j := Join(sep, parts);
    var ps := prev + sep;
    assert j == ps + parts[n] && ps[|prev|] == sep[0];
    if k + 1 < n {
      JoinFixedSeparator(sep, parts[..n], w, k);
      StrideMono(k + 1, n, w);
      assert j[Stride(k, w) + w] == prev[Stride(k, w) + w];
    } else {
      assert Stride(k, w) + w == |prev| && j[|prev|] == ps[|prev|];
    }
  }
}
