/** Python 2.7's `datetime.strptime` and `strftime` for the directives the
    repository's date code uses.  `strptime` compiles its format into a
    regular expression (each directive an alternation tried in order, a
    blank matching a run of whitespace) that is matched at the start of the
    text; text left over, a failed match or a field `datetime` refuses all
    raise `ValueError`. */
module Strptime {
  import opened Common

  datatype Directive =
    | Year4   // %Y  \d\d\d\d
    | Year2   // %y  \d\d, 00-68 in the 2000s and 69-99 in the 1900s
    | Month   // %m  1[0-2]|0[1-9]|[1-9]
    | Day     // %d  3[01]|[12]\d|0[1-9]|[1-9]| [1-9]
    | Hour    // %H  2[0-3]|[0-1]\d|\d
    | Minute  // %M  [0-5]\d|\d
    | Second  // %S  6[0-1]|[0-5]\d|\d
    | Blank   // a blank in the format: \s+
    | Lit(c: char)

  /** A format: its directives in order. */
  datatype Pattern = Done | Then(head: Directive, tail: Pattern)

  /** A `datetime.datetime` (no time zone, no microseconds). */
  datatype DateTime = DateTime(year: nat, month: nat, day: nat, hour: nat, minute: nat, second: nat)
  {
    function DateOf(): Date { Date(year, month, day) }
  }

  /** What `strptime` fills in for fields its format does not name. */
  const Defaults := DateTime(1900, 1, 1, 0, 0, 0)

  /** `'%Y-%m-%d'`, `'%Y%m%d'`, `'%m/%d/%y'` and `'%Y-%m-%d %H:%M:%S'`. */
  const YmdDash := Then(Year4, Then(Lit('-'), Then(Month, Then(Lit('-'), Then(Day, Done)))))
  const YmdCompact := Then(Year4, Then(Month, Then(Day, Done)))
  const MdyShort := Then(Month, Then(Lit('/'), Then(Day, Then(Lit('/'), Then(Year2, Done)))))
  const YmdHms := Then(Year4, Then(Lit('-'), Then(Month, Then(Lit('-'), Then(Day,
    Then(Blank, Then(Hour, Then(Lit(':'), Then(Minute, Then(Lit(':'), Then(Second, Done)))))))))))

  predicate DigitAt(s: string, p: int) { 0 <= p < |s| && IsDigit(s[p]) }

  predicate CharAt(s: string, p: int, lo: char, hi: char) { 0 <= p < |s| && lo <= s[p] <= hi }

  predicate IsSpace(c: char) { c as int in {9, 10, 11, 12, 13, 32} }

  /** Length of the run of whitespace starting at `p`. */
  function SpaceRun(s: string, p: nat): (n: nat)
    requires p <= |s|
    ensures p + n <= |s|
    ensures n == 0 <==> p == |s| || !IsSpace(s[p])
    decreases |s| - p
  {
    if p < |s| && IsSpace(s[p]) then 1 + SpaceRun(s, p + 1) else 0
  }

  /** Whether the two-character alternative of a numeric directive
      (`1[0-2]|0[1-9]` for `%m` and so on) matches at `p`. */
  predicate TwoAt(d: Directive, s: string, p: int)
  {
    match d
    case Month => (CharAt(s, p, '1', '1') && CharAt(s, p + 1, '0', '2')) || (CharAt(s, p, '0', '0') && CharAt(s, p + 1, '1', '9'))
    case Day => (CharAt(s, p, '3', '3') && CharAt(s, p + 1, '0', '1')) || (CharAt(s, p, '1', '2') && DigitAt(s, p + 1))
                || (CharAt(s, p, '0', '0') && CharAt(s, p + 1, '1', '9'))
    case Hour => (CharAt(s, p, '2', '2') && CharAt(s, p + 1, '0', '3')) || (CharAt(s, p, '0', '1') && DigitAt(s, p + 1))
    case Minute => CharAt(s, p, '0', '5') && DigitAt(s, p + 1)
    case Second => (CharAt(s, p, '6', '6') && CharAt(s, p + 1, '0', '1')) || (CharAt(s, p, '0', '5') && DigitAt(s, p + 1))
    case Year2 => DigitAt(s, p) && DigitAt(s, p + 1)
    case _ => false
  }

  /** Whether the one-character alternative matches at `p` (`[1-9]` for
      `%m` and `%d`, `\d` for the clock fields). */
  predicate OneAt(d: Directive, s: string, p: int)
  {
    match d
    case Month => CharAt(s, p, '1', '9')
    case Day => CharAt(s, p, '1', '9')
    case Hour => DigitAt(s, p)
    case Minute => DigitAt(s, p)
    case Second => DigitAt(s, p)
    case _ => false
  }

  /** The lengths of the text the directive's alternatives match at `p`, in
      the order the regular expression tries them.  `%d`'s last
      alternative, ` [1-9]`, is a blank and a digit. */
  function Alternatives(d: Directive, s: string, p: nat): (r: seq<nat>)
    requires p <= |s|
    ensures |r| <= 2
    ensures forall k :: 0 <= k < |r| ==> 1 <= r[k] && p + r[k] <= |s|
  {
    match d
    case Year4 =>
      if DigitAt(s, p) && DigitAt(s, p + 1) && DigitAt(s, p + 2) && DigitAt(s, p + 3) then [4] else []
    case Blank =>
      var n := SpaceRun(s, p);
      if n >= 1 then [n] else []
    case Lit(c) =>
      if p < |s| && s[p] == c then [1] else []
    case Day =>
      if TwoAt(Day, s, p) then [2]
      else if OneAt(Day, s, p) then [1]
      else if CharAt(s, p, ' ', ' ') && CharAt(s, p + 1, '1', '9') then [2]
      else []
    case _ =>
      (if TwoAt(d, s, p) then [2] else []) + (if OneAt(d, s, p) then [1] else [])
  }

  /** The number a matched field spells.  Numeric fields are one, two or
      four characters long, and a leading blank (`%d`'s ` [1-9]`) counts as
      nothing. */
  function NumeralValue(t: string): nat
  {
    if |t| == 1 then Digit(t[0])
    else if |t| == 2 then 10 * Digit(t[0]) + Digit(t[1])
    else if |t| == 4 then 1000 * Digit(t[0]) + 100 * Digit(t[1]) + 10 * Digit(t[2]) + Digit(t[3])
    else 0
  }

  function Digit(c: char): nat { if IsDigit(c) then DigitValue(c) else 0 }

  /** What reading `v` through directive `d` records. */
  function Store(d: Directive, v: nat, f: DateTime): DateTime
  {
    match d
    case Year4 => f.(year := v)
    case Year2 => f.(year := if v <= 68 then 2000 + v else 1900 + v)
    case Month => f.(month := v)
    case Day => f.(day := v)
    case Hour => f.(hour := v)
    case Minute => f.(minute := v)
    case Second => f.(second := v)
    case _ => f
  }

  /** The first match of `fmt` at `p` in the order the regular expression
      backtracks, with the fields read and where it ends. */
  function Match(fmt: Pattern, s: string, p: nat, f: DateTime): (r: Option<(DateTime, nat)>)
    requires p <= |s|
    ensures r.Some? ==> p <= r.value.1 <= |s|
    decreases fmt, 1
  {
    match fmt
    case Done => Some((f, p))
    case Then(d, rest) =>
      var alts := Alternatives(d, s, p);
      var first := if |alts| >= 1 then Try(d, rest, s, p, f, alts[0]) else None;
      if first.Some? then first
      else if |alts| == 2 then Try(d, rest, s, p, f, alts[1])
      else None
  }

  /** Matching the rest of the format after `d` has taken `n` characters. */
  function Try(d: Directive, rest: Pattern, s: string, p: nat, f: DateTime, n: nat): (r: Option<(DateTime, nat)>)
    requires p + n <= |s|
    ensures r.Some? ==> p + n <= r.value.1 <= |s|
    decreases Then(d, rest), 0
  {
    Match(rest, s, p + n, Store(d, NumeralValue(s[p..p + n]), f))
  }

  /** The fields `datetime.datetime` accepts. */
  predicate Constructible(dt: DateTime)
  {
    && 1 <= dt.year <= 9999 && 1 <= dt.month <= 12 && 1 <= dt.day <= DaysIn(dt.year, dt.month)
    && dt.hour <= 23 && dt.minute <= 59 && dt.second <= 59
  }

  /** `datetime.strptime(s, fmt)`. */
  function Parse(s: string, fmt: Pattern): (r: Result<DateTime>)
    ensures r.Ok? ==> Constructible(r.value)
    ensures r.Err? ==> r.error == ValueError
  {
    match Match(fmt, s, 0, Defaults)
    case None => Err(ValueError)
    case Some((dt, end)) =>
      if end != |s| then Err(ValueError)
      else if Constructible(dt) then Ok(dt)
      else Err(ValueError)
  }

  /** The text one directive prints. */
  function Render(d: Directive, dt: DateTime): string
  {
    match d
    case Year4 => Pad4(dt.year)
    case Year2 => Pad2(dt.year % 100)
    case Month => Pad2(dt.month)
    case Day => Pad2(dt.day)
    case Hour => Pad2(dt.hour)
    case Minute => Pad2(dt.minute)
    case Second => Pad2(dt.second)
    case Blank => " "
    case Lit(c) => [c]
  }

  /** `dt.strftime(fmt)`'s text. */
  function Format(fmt: Pattern, dt: DateTime): string
  {
    match fmt
    case Done => ""
    case Then(d, rest) => Render(d, dt) + Format(rest, dt)
  }

  /** `dt.strftime(fmt)`: Python 2.7 refuses years before 1900. */
  function Strftime(fmt: Pattern, dt: DateTime): (r: Result<string>)
    ensures r.Ok? <==> dt.year >= 1900
    ensures r.Ok? ==> r.value == Format(fmt, dt)
  {
    if dt.year < 1900 then Err(ValueError) else Ok(Format(fmt, dt))
  }

  predicate Numeric(d: Directive) { d.Year4? || d.Month? || d.Day? || d.Hour? || d.Minute? || d.Second? }

  /** The field a numeric directive names. */
  function FieldOf(d: Directive, dt: DateTime): nat
  {
    match d
    case Year4 => dt.year case Month => dt.month case Day => dt.day
    case Hour => dt.hour case Minute => dt.minute case Second => dt.second
    case _ => 0
  }

  /** Formats whose printed text reads back unambiguously: no two-digit
      year, literals that are neither digits nor blanks, and every blank
      followed by a number. */
  predicate Plain(fmt: Pattern)
  {
    match fmt
    case Done => true
    case Then(d, rest) =>
      && !d.Year2?
      && (d.Lit? ==> !IsDigit(d.c) && !IsSpace(d.c))
      && (d.Blank? ==> rest.Then? && Numeric(rest.head))
      && Plain(rest)
  }

  /** The fields `fmt` names taken from `dt`, the rest from `f`. */
  function Assign(fmt: Pattern, dt: DateTime, f: DateTime): DateTime
  {
    match fmt
    case Done => f
    case Then(d, rest) => Assign(rest, dt, if Numeric(d) then Store(d, FieldOf(d, dt), f) else f)
  }

  /** The two characters `%02d` prints. */
  lemma Pad2Chars(n: nat)
    requires n < 100
    ensures Pad2(n) == [DigitChar(n / 10), DigitChar(n % 10)]
  {
    if n >= 10 {
      assert NatToString(n / 10) == [DigitChar(n / 10)];
    } else {
      assert n / 10 == 0 && n % 10 == n;
      assert NatToString(n) == [DigitChar(n)];
    }
  }

  /** The four characters `%Y` prints, and the digits they stand for. */
  lemma Pad4Digits(n: nat) returns (a: nat, b: nat, c: nat, d: nat)
    requires n < 10000
    ensures a < 10 && b < 10 && c < 10 && d < 10 && n == 1000 * a + 100 * b + 10 * c + d
    ensures Pad4(n) == [DigitChar(a), DigitChar(b), DigitChar(c), DigitChar(d)]
  {
    a, b, c, d := n / 1000, n / 100 % 10, n / 10 % 10, n % 10;
    assert n / 10 / 10 == n / 100 && n / 100 / 10 == n / 1000;
    assert NatToString(n / 1000 % 10) == [DigitChar(a)];
    if n >= 1000 {
      assert NatToString(n / 100) == [DigitChar(a), DigitChar(b)];
      assert NatToString(n / 10) == [DigitChar(a), DigitChar(b), DigitChar(c)];
    } else if n >= 100 {
      assert a == 0 && NatToString(n / 100) == [DigitChar(b)];
      assert NatToString(n / 10) == [DigitChar(b), DigitChar(c)];
    } else if n >= 10 {
      assert a == 0 && b == 0 && NatToString(n / 10) == [DigitChar(c)];
    } else {
      assert a == 0 && b == 0 && c == 0 && NatToString(n) == [DigitChar(d)];
    }
  }

  lemma NumeralOfTwo(x: nat, y: nat)
    requires x < 10 && y < 10
    ensures NumeralValue([DigitChar(x), DigitChar(y)]) == 10 * x + y
  {
    assert Digit(DigitChar(x)) == x && Digit(DigitChar(y)) == y;
  }

  lemma NumeralOfFour(a: nat, b: nat, c: nat, d: nat)
    requires a < 10 && b < 10 && c < 10 && d < 10
    ensures NumeralValue([DigitChar(a), DigitChar(b), DigitChar(c), DigitChar(d)]) == 1000 * a + 100 * b + 10 * c + d
  {
    assert Digit(DigitChar(a)) == a && Digit(DigitChar(b)) == b;
    assert Digit(DigitChar(c)) == c && Digit(DigitChar(d)) == d;
  }

  /** A two-digit field printed for `v` is read back as `v`, through the
      first alternative. */
  lemma ReadTwo(d: Directive, s: string, p: nat, v: nat)
    requires d.Month? || d.Day? || d.Hour? || d.Minute? || d.Second?
    requires d.Month? ==> 1 <= v <= 12
    requires d.Day? ==> 1 <= v <= 31
    requires d.Hour? ==> v <= 23
    requires d.Minute? || d.Second? ==> v <= 59
    requires p + 2 <= |s| && s[p..p + 2] == Pad2(v)
    ensures |Alternatives(d, s, p)| >= 1 && Alternatives(d, s, p)[0] == 2
    ensures NumeralValue(s[p..p + 2]) == v
  {
    Pad2Chars(v);
    NumeralOfTwo(v / 10, v % 10);
    assert s[p] == DigitChar(v / 10) && s[p + 1] == DigitChar(v % 10);
    assert TwoAt(d, s, p);
  }

  lemma ReadFour(s: string, p: nat, v: nat)
    requires v <= 9999 && p + 4 <= |s| && s[p..p + 4] == Pad4(v)
    ensures Alternatives(Year4, s, p) == [4]
    ensures NumeralValue(s[p..p + 4]) == v
  {
    var t := s[p..p + 4];
    var a, b, c, d := Pad4Digits(v);
    NumeralOfFour(a, b, c, d);
    assert s[p] == t[0] && s[p + 1] == t[1] && s[p + 2] == t[2] && s[p + 3] == t[3];
    assert DigitAt(s, p) && DigitAt(s, p + 1) && DigitAt(s, p + 2) && DigitAt(s, p + 3);
  }

  /** A printed numeric field starts with a digit. */
  lemma RenderStartsWithDigit(d: Directive, dt: DateTime)
    requires Constructible(dt) && Numeric(d)
    ensures |Render(d, dt)| >= 1 && IsDigit(Render(d, dt)[0])
  {
  }

  /** Taking the first alternative: when it leads to a match, that match is
      the answer. */
  lemma MatchFirst(d: Directive, rest: Pattern, s: string, p: nat, f: DateTime, n: nat)
    requires p + n <= |s|
    requires |Alternatives(d, s, p)| >= 1 && Alternatives(d, s, p)[0] == n
    requires Match(rest, s, p + n, Store(d, NumeralValue(s[p..p + n]), f)).Some?
    ensures Match(Then(d, rest), s, p, f) == Match(rest, s, p + n, Store(d, NumeralValue(s[p..p + n]), f))
  {
    assert Try(d, rest, s, p, f, n).Some?;
  }

  /** The directive at the head of a plain format reads back its own
      printed text through its first alternative. */
  lemma {:induction false} ReadHead(d: Directive, rest: Pattern, dt: DateTime, s: string, p: nat, f: DateTime)
    requires Constructible(dt) && Plain(Then(d, rest))
    requires p + |Render(d, dt)| <= |s| && s[p..p + |Render(d, dt)|] == Render(d, dt)
    requires s[p + |Render(d, dt)|..] == Format(rest, dt)
    ensures |Alternatives(d, s, p)| >= 1 && Alternatives(d, s, p)[0] == |Render(d, dt)|
    ensures Store(d, NumeralValue(Render(d, dt)), f) == (if Numeric(d) then Store(d, FieldOf(d, dt), f) else f)
  {
    match d
    case Year4 => ReadFour(s, p, dt.year);
    case Month => ReadTwo(Month, s, p, dt.month);
    case Day => ReadTwo(Day, s, p, dt.day);
    case Hour => ReadTwo(Hour, s, p, dt.hour);
    case Minute => ReadTwo(Minute, s, p, dt.minute);
    case Second => ReadTwo(Second, s, p, dt.second);
    case Blank =>
      RenderStartsWithDigit(rest.head, dt);
      assert s[p + 1] == Render(rest.head, dt)[0];
      assert SpaceRun(s, p + 1) == 0;
    case Lit(c) =>
  }

  lemma SplitAt(s: string, p: nat, t: string, u: string)
    requires p <= |s| && s[p..] == t + u
    ensures p + |t| <= |s| && s[p..p + |t|] == t && s[p + |t|..] == u
  {
    assert s[p..][..|t|] == t && s[p..][|t|..] == u;
  }

  /** Reading back what a plain format printed succeeds and takes every
      field the format names from the printed value. */
  lemma {:induction false} MatchFormat(fmt: Pattern, dt: DateTime, s: string, p: nat, f: DateTime)
    requires Constructible(dt) && Plain(fmt)
    requires p <= |s| && s[p..] == Format(fmt, dt)
    ensures Match(fmt, s, p, f) == Some((Assign(fmt, dt, f), |s|))
  {
    match fmt
    case Done =>
      assert |s[p..]| == 0;
      assert Match(Done, s, p, f) == Some((f, p));
    case Then(d, rest) =>
      var n, g := ReadFirst(d, rest, dt, s, p, f);
      MatchFormat(rest, dt, s, p + n, g);
      MatchFirst(d, rest, s, p, f, n);
  }

  /** The head directive of a plain format takes its printed text, `n`
      characters, through its first alternative, leaving the fields `g`
      and the rest of the printed text. */
  lemma ReadFirst(d: Directive, rest: Pattern, dt: DateTime, s: string, p: nat, f: DateTime) returns (n: nat, g: DateTime)
    requires Constructible(dt) && Plain(Then(d, rest))
    requires p <= |s| && s[p..] == Format(Then(d, rest), dt)
    ensures p + n <= |s| && |Alternatives(d, s, p)| >= 1 && Alternatives(d, s, p)[0] == n
    ensures g == Store(d, NumeralValue(s[p..p + n]), f)
    ensures s[p + n..] == Format(rest, dt)
    ensures Assign(Then(d, rest), dt, f) == Assign(rest, dt, g)
  {
    var t := Render(d, dt);
    assert s[p..] == t + Format(rest, dt);
    SplitAt(s, p, t, Format(rest, dt));
    ReadHead(d, rest, dt, s, p, f);
    n, g := |t|, Store(d, NumeralValue(t), f);
    AssignStep(d, rest, dt, f);
  }

  lemma AssignStep(d: Directive, rest: Pattern, dt: DateTime, f: DateTime)
    requires Store(d, NumeralValue(Render(d, dt)), f) == (if Numeric(d) then Store(d, FieldOf(d, dt), f) else f)
    ensures Assign(Then(d, rest), dt, f) == Assign(rest, dt, Store(d, NumeralValue(Render(d, dt)), f))
  {
  }

  /** `strptime(dt.strftime(fmt), fmt) == dt` for a plain format that names
      every field in which `dt` differs from the defaults. */
  lemma ParseFormat(fmt: Pattern, dt: DateTime)
    requires Constructible(dt) && Plain(fmt) && Covers(fmt, dt)
    ensures Parse(Format(fmt, dt), fmt) == Ok(dt)
  {
    var s := Format(fmt, dt);
    assert s[0..] == s;
    AssignFields(fmt, dt, Defaults);
    MatchFormat(fmt, dt, s, 0, Defaults);
  }

  /** Every field `fmt` does not name has its default value. */
  predicate Covers(fmt: Pattern, dt: DateTime)
  {
    && (Names(fmt, Year4) || dt.year == 1900)
    && (Names(fmt, Month) || dt.month == 1)
    && (Names(fmt, Day) || dt.day == 1)
    && (Names(fmt, Hour) || dt.hour == 0)
    && (Names(fmt, Minute) || dt.minute == 0)
    && (Names(fmt, Second) || dt.second == 0)
  }

  /** Three of the four formats are plain; `%y` is not, as it forgets the
      century. */
  lemma PlainFormats()
    ensures Plain(YmdDash) && Plain(YmdCompact) && Plain(YmdHms)
    ensures !Plain(MdyShort)
  {
  }

  lemma YmdHmsRoundTrip(dt: DateTime)
    requires Constructible(dt)
    ensures Parse(Format(YmdHms, dt), YmdHms) == Ok(dt)
  {
    PlainFormats();
    assert Covers(YmdHms, dt);
    ParseFormat(YmdHms, dt);
  }

  lemma YmdDashRoundTrip(dt: DateTime)
    requires Constructible(dt) && dt.hour == 0 && dt.minute == 0 && dt.second == 0
    ensures Parse(Format(YmdDash, dt), YmdDash) == Ok(dt)
  {
    PlainFormats();
    assert Covers(YmdDash, dt);
    ParseFormat(YmdDash, dt);
  }

  lemma YmdCompactRoundTrip(dt: DateTime)
    requires Constructible(dt) && dt.hour == 0 && dt.minute == 0 && dt.second == 0
    ensures Parse(Format(YmdCompact, dt), YmdCompact) == Ok(dt)
  {
    PlainFormats();
    assert Covers(YmdCompact, dt);
    ParseFormat(YmdCompact, dt);
  }

  /** `%Y-%m-%d` prints `YmdString` of the date. */
  lemma YmdDashText(dt: DateTime)
    ensures Format(YmdDash, dt) == YmdString(dt.DateOf())
  {
    var day := Format(Then(Day, Done), dt);
    assert Render(Day, dt) == Pad2(dt.day);
    assert Format(Done, dt) == "";
    assert day == Render(Day, dt) + Format(Done, dt);
    assert day == Pad2(dt.day) + "";
    assert Pad2(dt.day) + "" == Pad2(dt.day);
    var dash2 := Format(Then(Lit('-'), Then(Day, Done)), dt);
    assert dash2 == "-" + day;
    var month := Format(Then(Month, Then(Lit('-'), Then(Day, Done))), dt);
    assert month == Pad2(dt.month) + dash2;
    var dash1 := Format(YmdDash.tail, dt);
    assert dash1 == "-" + month;
    assert Format(YmdDash, dt) == Pad4(dt.year) + dash1;
    assert Pad4(dt.year) + ("-" + (Pad2(dt.month) + ("-" + Pad2(dt.day))))
        == Pad4(dt.year) + "-" + Pad2(dt.month) + "-" + Pad2(dt.day);
  }

  /** Whether `fmt` names directive `d`. */
  predicate Names(fmt: Pattern, d: Directive)
  {
    fmt.Then? && (fmt.head == d || Names(fmt.tail, d))
  }

  /** Each field of `Assign`'s result comes from `dt` when the format names
      it and from `f` otherwise. */
  lemma {:induction false} AssignFields(fmt: Pattern, dt: DateTime, f: DateTime)
    ensures Assign(fmt, dt, f).year == if Names(fmt, Year4) then dt.year else f.year
    ensures Assign(fmt, dt, f).month == if Names(fmt, Month) then dt.month else f.month
    ensures Assign(fmt, dt, f).day == if Names(fmt, Day) then dt.day else f.day
    ensures Assign(fmt, dt, f).hour == if Names(fmt, Hour) then dt.hour else f.hour
    ensures Assign(fmt, dt, f).minute == if Names(fmt, Minute) then dt.minute else f.minute
    ensures Assign(fmt, dt, f).second == if Names(fmt, Second) then dt.second else f.second
  {
    match fmt
    case Done =>
    case Then(d, rest) =>
      AssignFields(rest, dt, if Numeric(d) then Store(d, FieldOf(d, dt), f) else f);
  }

  /** The number of characters a directive prints for a `datetime` it
      can hold. */
  function Width(fmt: Pattern): nat
  {
    match fmt
    case Done => 0
    case Then(d, rest) => (if d.Year4? then 4 else if Numeric(d) || d.Year2? then 2 else 1) + Width(rest)
  }

  lemma {:induction false} FormatWidth(fmt: Pattern, dt: DateTime)
    requires Constructible(dt)
    ensures |Format(fmt, dt)| == Width(fmt)
  {
    match fmt
    case Done =>
    case Then(d, rest) => FormatWidth(rest, dt);
  }

  /** `'%Y-%m-%d %H:%M:%S'` prints 19 characters. */
  lemma YmdHmsLength(dt: DateTime)
    requires Constructible(dt)
    ensures |Format(YmdHms, dt)| == 19
  {
    FormatWidth(YmdHms, dt);
  }
}
