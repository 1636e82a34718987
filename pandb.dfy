/** `pandb.py`: insulin-to-carb analysis over rows of `insulin_carb_2`,
    read as sequences.  Times are minutes; a pandas `NaN` is `None`. */
module Pandb {
  import opened Common
  import opened Strptime

  // ---------------------------------------------------------------- to_date

  /** What `to_date` may be handed: a `datetime.datetime`, a string, or
      anything else (a pandas `Timestamp`, a `date`, ...). */
  datatype DateArg = AsDateTime(dt: DateTime) | AsString(s: string) | AsOther

  /** `to_date`: a `datetime` is returned as it is; a string is parsed with
      `%Y-%m-%d`, then `%Y%m%d`, then `%m/%d/%y`, the first that succeeds
      winning, and `ValueError` when none does.  Any other value makes
      every `strptime` fail and then the error message's `+` raise
      `TypeError`. */
  function ToDate(arg: DateArg): (r: Result<DateTime>)
    ensures r.Ok? && arg.AsString? ==> Constructible(r.value)
    ensures r.Err? <==> (arg.AsOther? || (arg.AsString? && Parse(arg.s, YmdDash).Err?
                                          && Parse(arg.s, YmdCompact).Err? && Parse(arg.s, MdyShort).Err?))
    ensures r.Err? ==> r.error == (if arg.AsOther? then TypeError else ValueError)
  {
    match arg
    case AsDateTime(dt) => Ok(dt)
    case AsOther => Err(TypeError)
    case AsString(s) =>
      var dash := Parse(s, YmdDash);
      if dash.Ok? then dash
      else
        var compact := Parse(s, YmdCompact);
        if compact.Ok? then compact
        else
          var short := Parse(s, MdyShort);
          if short.Ok? then short else Err(ValueError)
  }

  /** A date printed as `%Y-%m-%d` is read back by the first format. */
  lemma ToDateOfDashed(dt: DateTime)
    requires Constructible(dt) && dt.hour == 0 && dt.minute == 0 && dt.second == 0
    ensures ToDate(AsString(Format(YmdDash, dt))) == Ok(dt)
  {
    YmdDashRoundTrip(dt);
  }

  /** A date printed as `%Y%m%d` fails the first format (its fifth
      character is a digit, not `-`) and is read back by the second. */
  lemma ToDateOfCompact(dt: DateTime)
    requires Constructible(dt) && dt.hour == 0 && dt.minute == 0 && dt.second == 0
    ensures ToDate(AsString(Format(YmdCompact, dt))) == Ok(dt)
  {
    var s := Format(YmdCompact, dt);
    YmdCompactRoundTrip(dt);
    CompactDigits(dt);
    DigitsNotDashed(s);
  }

  /** The first five characters of a date printed as `%Y%m%d` are digits. */
  lemma CompactDigits(dt: DateTime)
    requires Constructible(dt)
    ensures var s := Format(YmdCompact, dt);
      DigitAt(s, 0) && DigitAt(s, 1) && DigitAt(s, 2) && DigitAt(s, 3) && DigitAt(s, 4)
  {
    var a, b, c, d := Pad4Digits(dt.year);
    Pad2Chars(dt.month);
    var rest := Format(Then(Month, Then(Day, Done)), dt);
    assert rest == Pad2(dt.month) + Format(Then(Day, Done), dt);
    var s := Pad4(dt.year) + rest;
    assert Format(YmdCompact, dt) == s;
    assert s[4] == rest[0] == DigitChar(dt.month / 10);
    assert s[..4] == Pad4(dt.year);
  }

  /** Text whose fifth character is a digit does not match `%Y-%m-%d`. */
  lemma DigitsNotDashed(s: string)
    requires DigitAt(s, 0) && DigitAt(s, 1) && DigitAt(s, 2) && DigitAt(s, 3) && DigitAt(s, 4)
    ensures Parse(s, YmdDash).Err?
  {
    assert Alternatives(Year4, s, 0) == [4];
    assert Alternatives(Lit('-'), s, 4) == [];
    assert Match(YmdDash.tail, s, 4, Store(Year4, NumeralValue(s[0..4]), Defaults)) == None;
    assert Match(YmdDash, s, 0, Defaults) == None;
  }

  /** The three dates of `test_to_date`. */
  lemma ToDateDashedExample(s: string)
    requires s == "2016-04-03"
    ensures ToDate(AsString(s)) == Ok(DateTime(2016, 4, 3, 0, 0, 0))
  {
    var dt := DateTime(2016, 4, 3, 0, 0, 0);
    YmdDashText(dt);
    Example2016();
    assert Format(YmdDash, dt) == s;
    ToDateOfDashed(dt);
  }

  /** The printed fields of 2016-04-03. */
  lemma Example2016()
    ensures Pad4(2016) == "2016" && Pad2(4) == "04" && Pad2(3) == "03"
  {
    var a, b, c, d := Pad4Digits(2016);
    assert a == 2 && b == 0 && c == 1 && d == 6;
    Pad2Chars(4);
    Pad2Chars(3);
  }

  lemma ToDateCompactExample(s: string)
    requires s == "20160403"
    ensures ToDate(AsString(s)) == Ok(DateTime(2016, 4, 3, 0, 0, 0))
  {
    var dt := DateTime(2016, 4, 3, 0, 0, 0);
    Example2016();
    assert Format(Then(Day, Done), dt) == Pad2(3) + "";
    assert Format(Then(Month, Then(Day, Done)), dt) == Pad2(4) + Pad2(3);
    assert Format(YmdCompact, dt) == Pad4(2016) + (Pad2(4) + Pad2(3));
    assert Format(YmdCompact, dt) == s;
    ToDateOfCompact(dt);
  }

  lemma ToDateShortExample(s: string)
    requires s == "4/3/16"
    ensures ToDate(AsString(s)) == Ok(DateTime(2016, 4, 3, 0, 0, 0))
  {
    assert !DigitAt(s, 1);
    assert Alternatives(Year4, s, 0) == [];
    assert Match(YmdDash, s, 0, Defaults) == None;
    assert Match(YmdCompact, s, 0, Defaults) == None;
    ShortMatch(s);
  }

  /** `%m/%d/%y` reads `4/3/16` one directive at a time. */
  lemma ShortMatch(s: string)
    requires s == "4/3/16"
    ensures Match(MdyShort, s, 0, Defaults) == Some((DateTime(2016, 4, 3, 0, 0, 0), 6))
  {
    var f0, f1, f2 := Defaults.(month := 4), Defaults.(month := 4, day := 3), DateTime(2016, 4, 3, 0, 0, 0);
    assert s[4..6] == "16" && NumeralValue("16") == 16 by {
      assert "16"[..1] == "1" && "1"[..0] == "";
    }
    assert Alternatives(Year2, s, 4) == [2];
    var m5 := Match(Then(Year2, Done), s, 4, f1);
    assert m5 == Some((f2, 6));
    var m4 := Match(Then(Lit('/'), Then(Year2, Done)), s, 3, f1);
    assert Alternatives(Lit('/'), s, 3) == [1];
    assert m4 == m5;
    assert s[2..3] == "3" && NumeralValue("3") == 3 by {
      assert "3"[..0] == "";
    }
    assert Alternatives(Day, s, 2) == [1];
    var m3 := Match(MdyShort.tail.tail, s, 2, f0);
    assert m3 == m4;
    var m2 := Match(MdyShort.tail, s, 1, f0);
    assert Alternatives(Lit('/'), s, 1) == [1];
    assert m2 == m3;
    assert s[0..1] == "4" && NumeralValue("4") == 4 by {
      assert "4"[..0] == "";
    }
    assert Alternatives(Month, s, 0) == [1];
    assert Match(MdyShort, s, 0, Defaults) == m2;
  }

  // ---------------------------------------------------- meal_to_time_range

  /** Minutes after midnight of `datetime.time(h, m)`. */
  function Clock(h: nat, m: nat): nat { 60 * h + m }

  datatype MealRange = Range(start: nat, end: nat) | TrueClause

  /** `meal_to_time_range`: the bounds of breakfast, lunch and supper, and
      the string `'true'` for any other name. */
  function MealToTimeRange(meal: string): (r: MealRange)
    ensures r.TrueClause? <==> meal !in {"breakfast", "lunch", "supper"}
  {
    if meal == "breakfast" then Range(Clock(0, 0), Clock(11, 0))
    else if meal == "lunch" then Range(Clock(11, 0), Clock(13, 0))
    else if meal == "supper" then Range(Clock(17, 30), Clock(21, 30))
    else TrueClause
  }

  /** The three meals lie in order within one day; breakfast ends where
      lunch begins, and 13:00 to 17:30 belongs to no meal. */
  lemma MealRangesOrdered()
    ensures var b, l, s := MealToTimeRange("breakfast"), MealToTimeRange("lunch"), MealToTimeRange("supper");
      && b.Range? && l.Range? && s.Range?
      && 0 == b.start < b.end == l.start < l.end < s.start < s.end < 24 * 60
  {
  }

  // --------------------------------------------------- select_between_times

  /** A row of `insulin_carb_2` as these functions read it. */
  datatype IcRow = IcRow(recNum: int, time: int, carbs: Option<real>, bolus: Option<real>)

  /** A bound handed to `select_between_times`. */
  datatype Bound = Stamp(t: int) | NotStamp

  function Between(rows: seq<IcRow>, start: int, end: int): (r: seq<IcRow>)
    ensures |r| <= |rows|
  {
    if rows == [] then []
    else
      var rest := Between(rows[..|rows| - 1], start, end);
      var last := rows[|rows| - 1];
      if start <= last.time <= end then rest + [last] else rest
  }

  /** `select_between_times`: `TypeError` unless both bounds are
      timestamps; otherwise the rows in the closed interval, in order. */
  function SelectBetweenTimes(rows: seq<IcRow>, start: Bound, end: Bound): (r: Result<seq<IcRow>>)
    ensures r.Err? <==> start.NotStamp? || end.NotStamp?
    ensures r.Err? ==> r.error == TypeError
  {
    if start.NotStamp? || end.NotStamp? then Err(TypeError)
    else Ok(Between(rows, start.t, end.t))
  }

  /** A row is selected exactly when it is one of the rows and lies within
      both bounds, inclusive. */
  lemma {:induction false} BetweenMembers(rows: seq<IcRow>, start: int, end: int)
    ensures forall x :: x in Between(rows, start, end) <==> x in rows && start <= x.time <= end
  {
    if rows != [] {
      var n := |rows| - 1;
      BetweenMembers(rows[..n], start, end);
      assert rows == rows[..n] + [rows[n]];
    }
  }

  /** Selecting twice with the same bounds selects nothing more. */
  lemma {:induction false} BetweenIdempotent(rows: seq<IcRow>, start: int, end: int)
    ensures Between(Between(rows, start, end), start, end) == Between(rows, start, end)
  {
    if rows != [] {
      var n := |rows| - 1;
      BetweenIdempotent(rows[..n], start, end);
      var rest := Between(rows[..n], start, end);
      if start <= rows[n].time <= end {
        assert (rest + [rows[n]])[..|rest|] == rest;
      }
    }
  }

  lemma SelectBetweenTimesMeaning(rows: seq<IcRow>, start: int, end: int)
    ensures SelectBetweenTimes(rows, Stamp(start), Stamp(end)).Ok?
    ensures forall x ::
              (x in SelectBetweenTimes(rows, Stamp(start), Stamp(end)).value <==> x in rows && start <= x.time <= end)
  {
    BetweenMembers(rows, start, end);
  }

  // -------------------------------------------- carbs_and_insulin_together

  /** What a pair scan produced, and the error that stopped it, if any. */
  datatype Scan<T> = Scan(out: seq<T>, err: Option<Error>)

  /** The inner loop for one `a`: `a` then `b` for each `b` the test
      accepts, in order, stopping at the first error the test raises. */
  function PairsWith<T>(a: T, bs: seq<T>, q: (T, T) -> Result<bool>): (r: Scan<T>)
    ensures |r.out| % 2 == 0
  {
    if bs == [] then Scan([], None)
    else
      var n := |bs| - 1;
      var before := PairsWith(a, bs[..n], q);
      if before.err.Some? then before
      else match q(a, bs[n])
        case Err(e) => Scan(before.out, Some(e))
        case Ok(keep) => if keep then Scan(before.out + [a, bs[n]], None) else before
  }

  /** The nested loops over every `(a, b)` of `rows x rows`. */
  function AllPairs<T>(firsts: seq<T>, rows: seq<T>, q: (T, T) -> Result<bool>): (r: Scan<T>)
    ensures |r.out| % 2 == 0
  {
    if firsts == [] then Scan([], None)
    else
      var n := |firsts| - 1;
      var before := AllPairs(firsts[..n], rows, q);
      if before.err.Some? then before
      else
        var row := PairsWith(firsts[n], rows, q);
        Scan(before.out + row.out, row.err)
  }

  /** The nested loops, appending to `results` as they go; an error ends
      both loops with the rows appended so far. */
  method PairScan<T>(rows: seq<T>, q: (T, T) -> Result<bool>) returns (out: seq<T>, err: Option<Error>)
    ensures Scan(out, err) == AllPairs(rows, rows, q)
  {
    out, err := [], None;
    var i := 0;
    while i < |rows|
      invariant 0 <= i <= |rows|
      invariant err.None? && AllPairs(rows[..i], rows, q) == Scan(out, None)
    {
      var mark := out;
      var j := 0;
      while j < |rows|
        invariant 0 <= j <= |rows|
        invariant |mark| <= |out| && out[..|mark|] == mark
        invariant PairsWith(rows[i], rows[..j], q) == Scan(out[|mark|..], None)
      {
        assert rows[..j + 1][..j] == rows[..j];
        var keep := q(rows[i], rows[j]);
        if keep.Err? {
          assert AllPairs(rows[..i + 1], rows, q) == Scan(out, Some(keep.error)) by {
            assert rows[..i + 1][..i] == rows[..i];
            PairsPrefixErr(rows[i], rows, q, j + 1);
            assert out == mark + out[|mark|..];
          }
          AllPairsPrefixErr(rows, rows, q, i + 1);
          return out, Some(keep.error);
        }
        if keep.value {
          out := out + [rows[i], rows[j]];
        }
        j := j + 1;
      }
      assert rows[..i + 1][..i] == rows[..i];
      assert rows[..|rows|] == rows;
      assert out == mark + out[|mark|..];
      i := i + 1;
    }
    assert rows[..|rows|] == rows;
  }

  /** An error in a prefix of the inner loop is the inner loop's result. */
  lemma {:induction false} PairsPrefixErr<T>(a: T, bs: seq<T>, q: (T, T) -> Result<bool>, j: nat)
    requires j <= |bs| && PairsWith(a, bs[..j], q).err.Some?
    ensures PairsWith(a, bs, q) == PairsWith(a, bs[..j], q)
    decreases |bs| - j
  {
    if j < |bs| {
      assert bs[..j + 1][..j] == bs[..j];
      PairsPrefixErr(a, bs, q, j + 1);
    } else {
      assert bs[..j] == bs;
    }
  }

  lemma {:induction false} AllPairsPrefixErr<T>(firsts: seq<T>, rows: seq<T>, q: (T, T) -> Result<bool>, i: nat)
    requires i <= |firsts| && AllPairs(firsts[..i], rows, q).err.Some?
    ensures AllPairs(firsts, rows, q) == AllPairs(firsts[..i], rows, q)
    decreases |firsts| - i
  {
    if i < |firsts| {
      assert firsts[..i + 1][..i] == firsts[..i];
      AllPairsPrefixErr(firsts, rows, q, i + 1);
    } else {
      assert firsts[..i] == firsts;
    }
  }

  /** Each appended pair is a pair the test accepted, first row first. */
  predicate PairsAccepted<T>(out: seq<T>, q: (T, T) -> Result<bool>)
  {
    |out| % 2 == 0 && forall k :: 0 <= k < |out| / 2 ==> q(out[2 * k], out[2 * k + 1]) == Ok(true)
  }

  lemma PairsAcceptedConcat<T>(x: seq<T>, y: seq<T>, q: (T, T) -> Result<bool>)
    requires PairsAccepted(x, q) && PairsAccepted(y, q)
    ensures PairsAccepted(x + y, q)
  {
    var xy := x + y;
    forall k | 0 <= k < |xy| / 2
      ensures q(xy[2 * k], xy[2 * k + 1]) == Ok(true)
    {
      if k < |x| / 2 {
        assert xy[2 * k] == x[2 * k] && xy[2 * k + 1] == x[2 * k + 1];
      } else {
        var m := k - |x| / 2;
        assert xy[2 * k] == y[2 * m] && xy[2 * k + 1] == y[2 * m + 1];
      }
    }
  }

  lemma {:induction false} PairsWithSound<T>(a: T, bs: seq<T>, q: (T, T) -> Result<bool>)
    ensures PairsAccepted(PairsWith(a, bs, q).out, q)
    ensures forall x :: x in PairsWith(a, bs, q).out ==> x == a || x in bs
  {
    if bs != [] {
      var n := |bs| - 1;
      PairsWithSound(a, bs[..n], q);
      var before := PairsWith(a, bs[..n], q);
      if before.err.None? && q(a, bs[n]) == Ok(true) {
        PairsAcceptedConcat(before.out, [a, bs[n]], q);
      }
    }
  }

  /** Soundness: the scan's output is a run of accepted pairs of rows. */
  lemma {:induction false} AllPairsSound<T>(firsts: seq<T>, rows: seq<T>, q: (T, T) -> Result<bool>)
    ensures PairsAccepted(AllPairs(firsts, rows, q).out, q)
    ensures forall x :: x in AllPairs(firsts, rows, q).out ==> x in firsts || x in rows
  {
    if firsts != [] {
      var n := |firsts| - 1;
      AllPairsSound(firsts[..n], rows, q);
      var before := AllPairs(firsts[..n], rows, q);
      if before.err.None? {
        PairsWithSound(firsts[n], rows, q);
        PairsAcceptedConcat(before.out, PairsWith(firsts[n], rows, q).out, q);
      }
    }
  }

  /** Sequence `out` holds the pair `(a, b)` at an even position. */
  ghost predicate HasPair<T>(out: seq<T>, a: T, b: T)
  {
    exists k :: 0 <= k && 2 * k + 1 < |out| && out[2 * k] == a && out[2 * k + 1] == b
  }

  lemma HasPairExtend<T>(x: seq<T>, y: seq<T>, a: T, b: T)
    requires |x| % 2 == 0
    ensures HasPair(x, a, b) ==> HasPair(x + y, a, b)
    ensures HasPair(y, a, b) ==> HasPair(x + y, a, b)
  {
    if HasPair(x, a, b) {
      var k :| 0 <= k && 2 * k + 1 < |x| && x[2 * k] == a && x[2 * k + 1] == b;
      assert (x + y)[2 * k] == a && (x + y)[2 * k + 1] == b;
    }
    if HasPair(y, a, b) {
      var k :| 0 <= k && 2 * k + 1 < |y| && y[2 * k] == a && y[2 * k + 1] == b;
      var m := k + |x| / 2;
      assert (x + y)[2 * m] == a && (x + y)[2 * m + 1] == b;
    }
  }

  lemma {:induction false} PairsWithComplete<T>(a: T, bs: seq<T>, q: (T, T) -> Result<bool>, j: nat)
    requires j < |bs| && q(a, bs[j]) == Ok(true) && PairsWith(a, bs, q).err.None?
    ensures HasPair(PairsWith(a, bs, q).out, a, bs[j])
  {
    var n := |bs| - 1;
    var before := PairsWith(a, bs[..n], q);
    if j == n {
      var k := |before.out| / 2;
      assert (before.out + [a, bs[n]])[2 * k] == a;
    } else {
      assert bs[..n][j] == bs[j];
      PairsWithComplete(a, bs[..n], q, j);
      if q(a, bs[n]) == Ok(true) {
        HasPairExtend(before.out, [a, bs[n]], a, bs[j]);
      }
    }
  }

  /** Completeness: when the scan raises nothing, every accepted `(a, b)`
      with `a` from `firsts` and `b` from `rows` is in the output as a pair. */
  lemma {:induction false} AllPairsComplete<T>(firsts: seq<T>, rows: seq<T>, q: (T, T) -> Result<bool>, i: nat, j: nat)
    requires i < |firsts| && j < |rows| && q(firsts[i], rows[j]) == Ok(true)
    requires AllPairs(firsts, rows, q).err.None?
    ensures HasPair(AllPairs(firsts, rows, q).out, firsts[i], rows[j])
  {
    var n := |firsts| - 1;
    var before := AllPairs(firsts[..n], rows, q);
    var row := PairsWith(firsts[n], rows, q);
    if i == n {
      PairsWithComplete(firsts[n], rows, q, j);
      HasPairExtend(before.out, row.out, firsts[i], rows[j]);
    } else {
      assert firsts[..n][i] == firsts[i];
      AllPairsComplete(firsts[..n], rows, q, i, j);
      HasPairExtend(before.out, row.out, firsts[i], rows[j]);
    }
  }

  /** A test that never raises lets the scan finish. */
  lemma {:induction false} AllPairsTotal<T>(firsts: seq<T>, rows: seq<T>, q: (T, T) -> Result<bool>)
    requires forall a, b :: q(a, b).Ok?
    ensures AllPairs(firsts, rows, q).err.None?
  {
    if firsts != [] {
      AllPairsTotal(firsts[..|firsts| - 1], rows, q);
      PairsWithTotal(firsts[|firsts| - 1], rows, q);
    }
  }

  lemma {:induction false} PairsWithTotal<T>(a: T, bs: seq<T>, q: (T, T) -> Result<bool>)
    requires forall a, b :: q(a, b).Ok?
    ensures PairsWith(a, bs, q).err.None?
  {
    if bs != [] {
      PairsWithTotal(a, bs[..|bs| - 1], q);
    }
  }

  predicate Positive(x: Option<real>) { x.Some? && x.value > 0.0 }

  /** `pandb`'s test: `a` comes before `b` by rec_num, `b` is at most `gap`
      minutes after `a` (or any time before it), and either `a` has carbs
      and `b` a bolus, or `a` has both. */
  function Together(gap: int): (T: (IcRow, IcRow) -> Result<bool>)
  {
    (a: IcRow, b: IcRow) =>
      Ok(a.recNum < b.recNum && b.time - a.time <= gap
         && ((Positive(a.carbs) && Positive(b.bolus)) || (Positive(a.bolus) && Positive(a.carbs))))
  }

  /** `carbs_and_insulin_together`. */
  method CarbsAndInsulinTogether(rows: seq<IcRow>, gap: int) returns (results: seq<IcRow>)
    ensures Scan(results, None) == AllPairs(rows, rows, Together(gap))
  {
    var err;
    results, err := PairScan(rows, Together(gap));
    AllPairsTotal(rows, rows, Together(gap));
  }

  /** What `carbs_and_insulin_together` returns: `a` then `b` for every
      ordered pair the test accepts, nothing else, from the input rows. */
  lemma CarbsAndInsulinTogetherMeaning(rows: seq<IcRow>, gap: int)
    ensures var out := AllPairs(rows, rows, Together(gap)).out;
      && PairsAccepted(out, Together(gap))
      && (forall x :: x in out ==> x in rows)
      && (forall i, j :: 0 <= i < |rows| && 0 <= j < |rows| && Together(gap)(rows[i], rows[j]) == Ok(true)
            ==> HasPair(out, rows[i], rows[j]))
  {
    AllPairsSound(rows, rows, Together(gap));
    AllPairsTotal(rows, rows, Together(gap));
    forall i, j | 0 <= i < |rows| && 0 <= j < |rows| && Together(gap)(rows[i], rows[j]) == Ok(true)
      ensures HasPair(AllPairs(rows, rows, Together(gap)).out, rows[i], rows[j])
    {
      AllPairsComplete(rows, rows, Together(gap), i, j);
    }
  }

  /** A meal row with both carbs and a bolus pairs with every later row
      within the gap, so it is appended once per partner. */
  lemma TogetherRepeats()
    ensures var a, b, c := IcRow(1, 0, Some(30.0), Some(2.0)), IcRow(2, 5, None, None), IcRow(3, 8, None, None);
      AllPairs([a, b, c], [a, b, c], Together(10)).out == [a, b, a, c]
  {
    var a, b, c := IcRow(1, 0, Some(30.0), Some(2.0)), IcRow(2, 5, None, None), IcRow(3, 8, None, None);
    var rows := [a, b, c];
    var q := Together(10);
    assert rows[..2] == [a, b] && rows[..2][..1] == [a] && rows[..1] == [a] && [a][..0] == [];
    assert Positive(a.bolus) && Positive(a.carbs);
    assert a.recNum < b.recNum && b.time - a.time <= 10;
    assert q(a, b) == Ok(a.recNum < b.recNum && b.time - a.time <= 10
         && ((Positive(a.carbs) && Positive(b.bolus)) || (Positive(a.bolus) && Positive(a.carbs))));
    assert q(a, a) == Ok(false) && q(a, b) == Ok(true) && q(a, c) == Ok(true);
    assert q(b, a) == Ok(false) && q(b, b) == Ok(false) && q(b, c) == Ok(false);
    assert q(c, a) == Ok(false) && q(c, b) == Ok(false) && q(c, c) == Ok(false);
    assert [a][..0] == [] && [b][..0] == [] && [c][..0] == [];
    assert [a, b][..1] == [a] && rows[..2] == [a, b];
    PairsWithRow(a, q, [a, b, a, c]);
    PairsWithRow(b, q, []);
    PairsWithRow(c, q, []);
    assert AllPairs([a], rows, q).out == [a, b, a, c];
    assert AllPairs([a, b], rows, q).out == [a, b, a, c];
    assert AllPairs(rows, rows, q).out == [a, b, a, c];
  }

  /** One row's inner loop over the three rows of `TogetherRepeats`. */
  lemma PairsWithRow(x: IcRow, q: (IcRow, IcRow) -> Result<bool>, expected: seq<IcRow>)
    requires var a, b, c := IcRow(1, 0, Some(30.0), Some(2.0)), IcRow(2, 5, None, None), IcRow(3, 8, None, None);
      && q(x, a).Ok? && q(x, b).Ok? && q(x, c).Ok?
      && expected == (if q(x, a).value then [x, a] else []) + (if q(x, b).value then [x, b] else [])
                   + (if q(x, c).value then [x, c] else [])
    ensures var a, b, c := IcRow(1, 0, Some(30.0), Some(2.0)), IcRow(2, 5, None, None), IcRow(3, 8, None, None);
      PairsWith(x, [a, b, c], q) == Scan(expected, None)
  {
    var a, b, c := IcRow(1, 0, Some(30.0), Some(2.0)), IcRow(2, 5, None, None), IcRow(3, 8, None, None);
    var rows := [a, b, c];
    assert rows[..2] == [a, b] && [a, b][..1] == [a] && [a][..0] == [];
    var p1 := PairsWith(x, [a], q);
    assert PairsWith(x, [], q) == Scan([], None);
    assert [] + [x, a] == [x, a];
    assert p1 == Scan(if q(x, a).value then [x, a] else [], None);
    var p2 := PairsWith(x, [a, b], q);
    assert p2.out == p1.out + (if q(x, b).value then [x, b] else []);
  }

  // ---------------------------------------------- excess_basal_insulin_post_meal

  /** A post-meal row: its time and its basal rate (units per hour). */
  datatype BasalRow = BasalRow(time: int, basal: Option<real>)

  /** The closure's `state` dict: the current rate and time, the running
      insulin total and the running time covered (minutes). */
  datatype Tally = Tally(basal: real, time: int, total: real, covered: int)

  function Hours(minutes: int): real { minutes as real / 60.0 }

  /** `incr_excess_basal`: the current rate is charged up to `newTime`,
      then the new rate (unless it is `NaN`) takes over. */
  function Incr(t: Tally, newBasal: Option<real>, newTime: int): Tally
  {
    Tally(if newBasal.Some? then newBasal.value else t.basal, newTime,
          t.total + t.basal * Hours(newTime - t.time), t.covered + (newTime - t.time))
  }

  /** The loop: rows before the change time are skipped and the first row
      after the end time stops it. */
  function ScanPostMeal(rows: seq<BasalRow>, change: int, end: int, t: Tally): Tally
  {
    if rows == [] then t
    else if rows[0].time < change then ScanPostMeal(rows[1..], change, end, t)
    else if rows[0].time > end then t
    else ScanPostMeal(rows[1..], change, end, Incr(t, rows[0].basal, rows[0].time))
  }

  const SixHours := 360

  /** The tally after the loop and after padding with the last rate when
      less than six hours were covered. */
  function FinalTally(rows: seq<BasalRow>, prior: real, change: int): Tally
  {
    var t := ScanPostMeal(rows, change, change + SixHours, Tally(prior, change, 0.0, 0));
    if t.covered < SixHours then Incr(t, None, change + SixHours) else t
  }

  /** `excess_basal_insulin_post_meal`'s number (the HTML explanation is
      not modelled); reading `df.date_time[0]` of no rows raises
      `KeyError`. */
  function ExcessBasalOf(rows: seq<BasalRow>, prior: real, change: int): Result<real>
  {
    if rows == [] then Err(KeyError)
    else Ok(FinalTally(rows, prior, change).total - prior * 6.0)
  }

  method ExcessBasalInsulinPostMeal(rows: seq<BasalRow>, prior: real, change: int) returns (r: Result<real>)
    ensures r == ExcessBasalOf(rows, prior, change)
  {
    if rows == [] {
      return Err(KeyError);
    }
    var end := change + SixHours;
    var state := Tally(prior, change, 0.0, 0);
    var i := 0;
    while i < |rows|
      invariant 0 <= i <= |rows|
      invariant ScanPostMeal(rows[i..], change, end, state) == ScanPostMeal(rows, change, end, Tally(prior, change, 0.0, 0))
    {
      assert rows[i..][1..] == rows[i + 1..];
      var row := rows[i];
      if row.time < change {
        i := i + 1;
        continue;
      }
      if row.time > end {
        break;
      }
      state := Incr(state, row.basal, row.time);
      i := i + 1;
    }
    if i == |rows| {
      assert rows[i..] == [];
    }
    if state.covered < SixHours {
      state := Incr(state, None, end);
    }
    r := Ok(state.total - prior * 6.0);
  }

  /** The loop keeps `covered` equal to the time elapsed since the change,
      and the current time within the six hours. */
  lemma {:induction false} ScanCovers(rows: seq<BasalRow>, change: int, end: int, t: Tally)
    requires t.covered == t.time - change && change <= t.time <= end
    ensures var u := ScanPostMeal(rows, change, end, t);
      u.covered == u.time - change && change <= u.time <= end
  {
    if rows != [] {
      if rows[0].time < change {
        ScanCovers(rows[1..], change, end, t);
      } else if rows[0].time <= end {
        ScanCovers(rows[1..], change, end, Incr(t, rows[0].basal, rows[0].time));
      }
    }
  }

  /** After padding, exactly six hours are covered and the tally has
      reached the end time. */
  lemma CoversSixHours(rows: seq<BasalRow>, prior: real, change: int)
    ensures FinalTally(rows, prior, change).covered == SixHours
    ensures FinalTally(rows, prior, change).time == change + SixHours
  {
    ScanCovers(rows, change, change + SixHours, Tally(prior, change, 0.0, 0));
  }

  predicate KeepsRate(r: BasalRow, prior: real) { r.basal.None? || r.basal == Some(prior) }

  lemma {:induction false} ScanConstant(rows: seq<BasalRow>, change: int, end: int, t: Tally, prior: real)
    requires forall k :: 0 <= k < |rows| ==> KeepsRate(rows[k], prior)
    requires t.basal == prior && t.total == prior * Hours(t.covered)
    ensures var u := ScanPostMeal(rows, change, end, t);
      u.basal == prior && u.total == prior * Hours(u.covered)
  {
    if rows != [] {
      assert forall k :: 0 <= k < |rows[1..]| ==> rows[1..][k] == rows[k + 1];
      if rows[0].time < change {
        ScanConstant(rows[1..], change, end, t, prior);
      } else if rows[0].time <= end {
        var t' := Incr(t, rows[0].basal, rows[0].time);
        IncrConstant(t, rows[0].basal, rows[0].time, prior);
        ScanConstant(rows[1..], change, end, t', prior);
      }
    }
  }

  lemma IncrConstant(t: Tally, b: Option<real>, time: int, prior: real)
    requires b.None? || b == Some(prior)
    requires t.basal == prior && t.total == prior * Hours(t.covered)
    ensures Incr(t, b, time).basal == prior && Incr(t, b, time).total == prior * Hours(Incr(t, b, time).covered)
  {
    var d := time - t.time;
    assert Hours(t.covered + d) == Hours(t.covered) + Hours(d);
    assert prior * (Hours(t.covered) + Hours(d)) == prior * Hours(t.covered) + prior * Hours(d);
  }

  /** With no rate other than the prior one in the six hours, there is no
      excess. */
  lemma NoChangeNoExcess(rows: seq<BasalRow>, prior: real, change: int)
    requires rows != [] && forall k :: 0 <= k < |rows| ==> KeepsRate(rows[k], prior)
    ensures ExcessBasalOf(rows, prior, change) == Ok(0.0)
  {
    var t0 := Tally(prior, change, 0.0, 0);
    ScanConstant(rows, change, change + SixHours, t0, prior);
    var t := ScanPostMeal(rows, change, change + SixHours, t0);
    if t.covered < SixHours {
      IncrConstant(t, None, change + SixHours, prior);
    }
    var f := FinalTally(rows, prior, change);
    assert f.total == prior * Hours(f.covered);
    CoversSixHours(rows, prior, change);
    assert Hours(f.covered) == 6.0;
    assert f.total == prior * 6.0;
  }

  // ------------------------------------------------------ compute_excess_bg

  /** The amounts by which the readings exceed `maxIdeal`, for readings
      strictly above it (`NaN` compares false and is skipped). */
  function Excesses(mgdl: seq<Option<real>>, maxIdeal: real): (r: seq<real>)
    ensures |r| <= |mgdl|
    ensures forall k :: 0 <= k < |r| ==> r[k] > 0.0
  {
    if mgdl == [] then []
    else
      var rest := Excesses(mgdl[..|mgdl| - 1], maxIdeal);
      var last := mgdl[|mgdl| - 1];
      if last.Some? && last.value > maxIdeal then rest + [last.value - maxIdeal] else rest
  }

  function ExcessBgOf(mgdl: seq<Option<real>>, maxIdeal: real): Result<real>
  {
    var e := Excesses(mgdl, maxIdeal);
    if |e| == 0 then Err(ZeroDivisionError) else Ok(Sum(e) / |e| as real)
  }

  /** `compute_excess_bg`; `min_ideal` is accepted and unused. */
  method ComputeExcessBg(mgdl: seq<Option<real>>, minIdeal: real, maxIdeal: real) returns (r: Result<real>)
    ensures r == ExcessBgOf(mgdl, maxIdeal)
  {
    var highSum := 0.0;
    var numVals := 0;
    var i := 0;
    while i < |mgdl|
      invariant 0 <= i <= |mgdl|
      invariant highSum == Sum(Excesses(mgdl[..i], maxIdeal)) && numVals == |Excesses(mgdl[..i], maxIdeal)|
    {
      ExcessesStep(mgdl, i, maxIdeal);
      var cgm := mgdl[i];
      if cgm.Some? && cgm.value > maxIdeal {
        highSum := highSum + (cgm.value - maxIdeal);
        numVals := numVals + 1;
      }
      i := i + 1;
    }
    assert mgdl[..i] == mgdl;
    if numVals == 0 {
      return Err(ZeroDivisionError);
    }
    r := Ok(highSum / numVals as real);
  }

  /** One more reading adds its excess, if any, to the sum and the count. */
  lemma ExcessesStep(mgdl: seq<Option<real>>, i: nat, maxIdeal: real)
    requires i < |mgdl|
    ensures var before, after := Excesses(mgdl[..i], maxIdeal), Excesses(mgdl[..i + 1], maxIdeal);
      if mgdl[i].Some? && mgdl[i].value > maxIdeal
      then Sum(after) == Sum(before) + (mgdl[i].value - maxIdeal) && |after| == |before| + 1
      else after == before
  {
    assert mgdl[..i + 1][..i] == mgdl[..i];
    var x := mgdl[i];
    if x.Some? && x.value > maxIdeal {
      SumAppend(Excesses(mgdl[..i], maxIdeal), [x.value - maxIdeal]);
      assert Sum([x.value - maxIdeal]) == x.value - maxIdeal by {
        assert [x.value - maxIdeal][..0] == [];
      }
    }
  }

  lemma {:induction false} SumPositive(s: seq<real>)
    requires s != [] && forall k :: 0 <= k < |s| ==> s[k] > 0.0
    ensures Sum(s) > 0.0
  {
    if |s| > 1 {
      SumPositive(s[..|s| - 1]);
    }
  }

  /** The result is a positive mean exactly when some reading is above
      `maxIdeal`, and division by zero otherwise. */
  lemma ExcessBgMeaning(mgdl: seq<Option<real>>, maxIdeal: real)
    ensures ExcessBgOf(mgdl, maxIdeal).Err? <==> forall k :: 0 <= k < |mgdl| ==> mgdl[k].None? || mgdl[k].value <= maxIdeal
    ensures ExcessBgOf(mgdl, maxIdeal).Err? ==> ExcessBgOf(mgdl, maxIdeal).error == ZeroDivisionError
    ensures ExcessBgOf(mgdl, maxIdeal).Ok? ==> ExcessBgOf(mgdl, maxIdeal).value > 0.0
  {
    ExcessesEmpty(mgdl, maxIdeal);
    var e := Excesses(mgdl, maxIdeal);
    if |e| > 0 {
      SumPositive(e);
    }
  }

  lemma {:induction false} ExcessesEmpty(mgdl: seq<Option<real>>, maxIdeal: real)
    ensures Excesses(mgdl, maxIdeal) == [] <==> forall k :: 0 <= k < |mgdl| ==> mgdl[k].None? || mgdl[k].value <= maxIdeal
  {
    if mgdl != [] {
      var n := |mgdl| - 1;
      ExcessesEmpty(mgdl[..n], maxIdeal);
      assert forall k :: 0 <= k < n ==> mgdl[..n][k] == mgdl[k];
    }
  }

  /** Readings at or below `maxIdeal`, and `NaN`s, do not move the result. */
  lemma ExcessBgIgnoresLow(mgdl: seq<Option<real>>, x: Option<real>, maxIdeal: real)
    requires x.None? || x.value <= maxIdeal
    ensures ExcessBgOf(mgdl + [x], maxIdeal) == ExcessBgOf(mgdl, maxIdeal)
  {
    assert (mgdl + [x])[..|mgdl|] == mgdl;
    assert Excesses(mgdl + [x], maxIdeal) == Excesses(mgdl, maxIdeal);
  }
}
