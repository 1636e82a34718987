/** `static/isf-interaction.js`: the page that shows the recent ISF
    quartiles of one time bucket.  The time-bucket labels, the placement of
    the quartile labels on the box, the day strings behind "Today" and
    "Yesterday", the request URL, the time-bucket menu and the state the
    input handlers change.  The DOM is a map from element id to its text;
    the `Date` is `Plots.JsDate`; its locale strings are parameters. */
module IsfInteraction {
  import opened Common
  import Plots
  import Strptime

  /** The labels of `bucketTime`, one per two-hour bucket. */
  const Labels: seq<string> := [
    "midnight to 2am", "2am to 4am", "4am to 6am", "6am to 8am",
    "8am to 10am", "10am to noon", "noon to 2pm", "2pm to 4pm",
    "4pm to 6pm", "6pm to 8pm", "8pm to 10pm", "10pm to midnight"]

  /** `bucketTime(n)`: `strs[n / 2]`.  JavaScript divides exactly, so an
      odd `n` asks for a fractional index and, like an index out of range,
      gives `undefined`. */
  function BucketTime(n: int): (r: Option<string>)
    ensures r.Some? <==> n % 2 == 0 && 0 <= n <= 22
    ensures r.Some? ==> r.value == Labels[n / 2] && r.value in Labels
  {
    if n % 2 == 0 && 0 <= n < 2 * |Labels| then Some(Labels[n / 2]) else None
  }

  /** Different buckets have different labels. */
  lemma BucketTimeInjective(a: int, b: int)
    requires BucketTime(a).Some? && BucketTime(a) == BucketTime(b)
    ensures a == b
  {
    var i, j := a / 2, b / 2;
    assert Labels[i] == Labels[j];
  }

  /** `placeElt(parent, child, where)`: the CSS `left` and `top` of a child
      of width `cw` and height `ch` placed on a parent of width `pw` and
      height `ph`; `None` is the `null` left for a word it does not know. */
  function PlaceElt(pw: real, ph: real, cw: real, ch: real, whereLeft: string, whereTop: string): (r: (Option<real>, Option<real>))
    ensures r.0.Some? <==> whereLeft == "left" || whereLeft == "right" || whereLeft == "middle"
    ensures r.1.Some? <==> whereTop == "top" || whereTop == "bottom" || whereTop == "middle"
    // The child's centre: on the right edge, in the middle, or one child's
    // width in from the left edge.
    ensures whereLeft == "right" ==> r.0.value + cw / 2.0 == pw
    ensures whereLeft == "middle" ==> r.0.value + cw / 2.0 == pw / 2.0
    ensures whereLeft == "left" ==> r.0.value + cw / 2.0 == cw
    // Vertically the centre is on the top edge, on the bottom edge or in the middle.
    ensures whereTop == "top" ==> r.1.value + ch / 2.0 == 0.0
    ensures whereTop == "bottom" ==> r.1.value + ch / 2.0 == ph
    ensures whereTop == "middle" ==> r.1.value + ch / 2.0 == ph / 2.0
  {
    var left :=
      if whereLeft == "left" then Some(cw * 0.5)
      else if whereLeft == "right" then Some(pw - cw * 0.5)
      else if whereLeft == "middle" then Some((pw - cw) * 0.5)
      else None;
    var top :=
      if whereTop == "top" then Some(0.0 - ch * 0.5)
      else if whereTop == "bottom" then Some(ph - ch * 0.5)
      else if whereTop == "middle" then Some((ph - ch) * 0.5)
      else None;
    (left, top)
  }

  /** Top and bottom are mirror images about the middle, but left and right
      are not: a child of positive width placed `left` is centred at its own
      width, not on the left edge. */
  lemma LeftIsNotMirrored(pw: real, ph: real, cw: real, ch: real)
    requires cw > 0.0
    ensures var top := PlaceElt(pw, ph, cw, ch, "middle", "top").1.value;
      var bottom := PlaceElt(pw, ph, cw, ch, "middle", "bottom").1.value;
      var middle := PlaceElt(pw, ph, cw, ch, "middle", "middle").1.value;
      (top + ch / 2.0) + (bottom + ch / 2.0) == 2.0 * (middle + ch / 2.0)
    ensures var left := PlaceElt(pw, ph, cw, ch, "left", "top").0.value;
      var right := PlaceElt(pw, ph, cw, ch, "right", "top").0.value;
      var middle := PlaceElt(pw, ph, cw, ch, "middle", "top").0.value;
      (left + cw / 2.0) + (right + cw / 2.0) != 2.0 * (middle + cw / 2.0)
  {
  }

  /** `placeQuartiles()`: the `(left, top)` of Q3, Q1 and Q2 on the box,
      given the box's size and each label's size. */
  function PlaceQuartiles(pw: real, ph: real, q1: (real, real), q2: (real, real), q3: (real, real)): (r: ((real, real), (real, real), (real, real)))
    // All three are centred horizontally; Q3 is centred on the top edge,
    // Q2 in the middle and Q1 on the bottom edge.
    ensures r.0.0 + q3.0 / 2.0 == pw / 2.0 && r.0.1 + q3.1 / 2.0 == 0.0
    ensures r.1.0 + q1.0 / 2.0 == pw / 2.0 && r.1.1 + q1.1 / 2.0 == ph
    ensures r.2.0 + q2.0 / 2.0 == pw / 2.0 && r.2.1 + q2.1 / 2.0 == ph / 2.0
  {
    var p3 := PlaceElt(pw, ph, q3.0, q3.1, "middle", "top");
    var p1 := PlaceElt(pw, ph, q1.0, q1.1, "middle", "bottom");
    var p2 := PlaceElt(pw, ph, q2.0, q2.1, "middle", "middle");
    ((p3.0.value, p3.1.value), (p1.0.value, p1.1.value), (p2.0.value, p2.1.value))
  }

  /** On a box of positive height the centres run Q3, Q2, Q1 from top to
      bottom, as the quartiles' values do on the plot. */
  lemma QuartilesTopToBottom(pw: real, ph: real, q1: (real, real), q2: (real, real), q3: (real, real))
    requires ph > 0.0
    ensures var r := PlaceQuartiles(pw, ph, q1, q2, q3);
      r.0.1 + q3.1 / 2.0 < r.2.1 + q2.1 / 2.0 < r.1.1 + q1.1 / 2.0
  {
  }

  /** `s.padStart(2, '0')`. */
  function PadStart2(s: string): (r: string)
    ensures |r| == if |s| < 2 then 2 else |s|
  {
    if |s| == 0 then "00" else if |s| == 1 then "0" + s else s
  }

  /** `dateStr(d)`: the year, then the 0-based month and the day, each made
      at least two characters long. */
  function DateStr(d: Plots.JsDate): string
  {
    IntToString(d.fullYear) + "-" + PadStart2(NatToString(d.month)) + "-" + PadStart2(NatToString(d.date))
  }

  /** For a month and a day below 100 the day string is the year, the
      0-based month with two digits and the day with two digits. */
  lemma DateStrText(d: Plots.JsDate)
    requires d.month < 100 && d.date < 100
    ensures DateStr(d) == IntToString(d.fullYear) + "-" + Pad2(d.month) + "-" + Pad2(d.date)
  {
    PadStartPad2(d.month);
    PadStartPad2(d.date);
  }

  lemma PadStartPad2(n: nat)
    ensures n < 100 ==> PadStart2(NatToString(n)) == Pad2(n)
  {
    if n < 100 {
      Strptime.Pad2Chars(n);
      if n < 10 {
        assert NatToString(n) == [DigitChar(n)];
      } else {
        assert NatToString(n) == NatToString(n / 10) + [DigitChar(n % 10)];
        assert NatToString(n / 10) == [DigitChar(n / 10)];
      }
    }
  }

  /** Two dates fall on the same calendar day. */
  predicate SameDay(a: Plots.JsDate, b: Plots.JsDate)
  {
    a.fullYear == b.fullYear && a.month == b.month && a.date == b.date
  }

  /** Comparing day strings compares calendar days, although the month in
      them is one less than the calendar month. */
  lemma DateStrSameDay(a: Plots.JsDate, b: Plots.JsDate)
    ensures a.month < 100 && a.date < 100 && b.month < 100 && b.date < 100 ==>
      (DateStr(a) == DateStr(b) <==> SameDay(a, b))
  {
    if a.month < 100 && a.date < 100 && b.month < 100 && b.date < 100 && DateStr(a) == DateStr(b) {
      DateStrText(a);
      DateStrText(b);
      Strptime.Pad2Chars(a.month);
      Strptime.Pad2Chars(a.date);
      Strptime.Pad2Chars(b.month);
      Strptime.Pad2Chars(b.date);
      DashedParts(IntToString(a.fullYear), Pad2(a.month), Pad2(a.date), IntToString(b.fullYear), Pad2(b.month), Pad2(b.date));
      IntToStringInjective(a.fullYear, b.fullYear);
      Pad2Injective(a.month, b.month);
      Pad2Injective(a.date, b.date);
    }
  }

  /** `y + "-" + m + "-" + d` with two-character `m` and `d` gives back its
      three parts. */
  lemma DashedParts(y1: string, m1: string, d1: string, y2: string, m2: string, d2: string)
    requires |m1| == 2 && |d1| == 2 && |m2| == 2 && |d2| == 2
    requires y1 + "-" + m1 + "-" + d1 == y2 + "-" + m2 + "-" + d2
    ensures y1 == y2 && m1 == m2 && d1 == d2
  {
    var s := y1 + "-" + m1 + "-" + d1;
    assert |y1| == |y2|;
    assert y1 == s[..|y1|] == y2;
    assert m1 == s[|y1| + 1..|y1| + 3] == m2;
    assert d1 == s[|y1| + 4..] == d2;
  }

  lemma Pad2Injective(a: nat, b: nat)
    requires a < 100 && b < 100 && Pad2(a) == Pad2(b)
    ensures a == b
  {
    Strptime.Pad2Chars(a);
    Strptime.Pad2Chars(b);
    assert DigitChar(a / 10) == DigitChar(b / 10) && DigitChar(a % 10) == DigitChar(b % 10);
  }

  /** The decimal text of an integer determines the integer. */
  lemma IntToStringInjective(a: int, b: int)
    requires IntToString(a) == IntToString(b)
    ensures a == b
  {
    SignChar(a);
    SignChar(b);
    if a < 0 && b < 0 {
      assert NatToString(-a) == IntToString(a)[1..] == NatToString(-b);
      NatToStringInjective(-a, -b);
    } else if a >= 0 && b >= 0 {
      assert NatToString(a) == IntToString(a);
      assert NatToString(b) == IntToString(b);
      NatToStringInjective(a, b);
    }
  }

  lemma NatToStringInjective(a: nat, b: nat)
    requires NatToString(a) == NatToString(b)
    ensures a == b
  {
    DigitsOfNat(a);
    DigitsOfNat(b);
  }

  /** Only a negative integer's text starts with a minus sign. */
  lemma SignChar(n: int)
    ensures IntToString(n)[0] == '-' <==> n < 0
  {
    if n >= 0 {
      assert IntToString(n)[0] == NatToString(n)[0];
    }
  }

  /** The date `yesterday.setDate(yesterday.getDate() - 1)` makes: the day
      before, which is the previous month's last day on the first of a
      month.  Only the calendar fields change. */
  function Yesterday(now: Plots.JsDate): (r: Plots.JsDate)
    requires now.Valid()
    ensures r.hours == now.hours && r.minutes == now.minutes
    ensures r.month < 12 && 1 <= r.date <= 31
    ensures now.fullYear >= 1 ==> r.Valid()
  {
    if now.date > 1 then now.(date := now.date - 1)
    else if now.month > 0 then now.(month := now.month - 1, date := DaysIn(now.fullYear, now.month))
    else now.(fullYear := now.fullYear - 1, month := 11, date := 31)
  }

  /** The day after `d`, counted on from its calendar fields. */
  function NextDay(d: Plots.JsDate): Plots.JsDate
    requires d.fullYear >= 0 && d.month < 12
  {
    if d.date < DaysIn(d.fullYear, d.month + 1) then d.(date := d.date + 1)
    else if d.month < 11 then d.(month := d.month + 1, date := 1)
    else d.(fullYear := d.fullYear + 1, month := 0, date := 1)
  }

  /** The day after yesterday is today. */
  lemma YesterdayThenNext(now: Plots.JsDate)
    requires now.Valid() && now.fullYear >= 1
    ensures NextDay(Yesterday(now)) == now
  {
  }

  /** `niceDateTimeStr(d)`: `now` is the current time; `localeTime` and
      `localeDate` are `d.toLocaleTimeString()` and
      `d.toLocaleDateString()`. */
  function NiceDateTimeStr(d: Plots.JsDate, now: Plots.JsDate, localeTime: string, localeDate: string): (r: string)
    requires now.Valid()
    ensures d.month < 100 && d.date < 100 && SameDay(d, now) ==> r == "Today at " + localeTime
    ensures d.month < 100 && d.date < 100 && !SameDay(d, now) && SameDay(d, Yesterday(now)) ==>
      r == "Yesterday at " + localeTime
    ensures d.month < 100 && d.date < 100 && !SameDay(d, now) && !SameDay(d, Yesterday(now)) ==>
      r == localeDate + " " + localeTime
  {
    DateStrSameDay(now, d);
    DateStrSameDay(Yesterday(now), d);
    if DateStr(now) == DateStr(d) then AddTimeString("Today at", localeTime)
    else if DateStr(Yesterday(now)) == DateStr(d) then AddTimeString("Yesterday at", localeTime)
    else AddTimeString(localeDate, localeTime)
  }

  /** `addTimeString(datestr, d)`. */
  function AddTimeString(datestr: string, localeTime: string): string
  {
    datestr + " " + localeTime
  }

  /** A value `parseInt` returns: an integer or `NaN`. */
  datatype JsInt = Int(n: int) | NaN

  /** How a template literal or `.text()` prints the value. */
  function JsText(v: JsInt): string
  {
    match v
    case Int(n) => IntToString(n)
    case NaN => "NaN"
  }

  /** The characters `parseInt` skips before the number (the ASCII ones of
      JavaScript's white space). */
  predicate IsSpace(c: char)
  {
    c == ' ' || c == '\t' || c == '\n' || c == '\r' || c == '\U{000B}' || c == '\U{000C}'
  }

  function SkipSpace(s: string): (r: string)
    ensures r == [] || !IsSpace(r[0])
  {
    if s != [] && IsSpace(s[0]) then SkipSpace(s[1..]) else s
  }

  /** The length of the run of decimal digits `s` starts with. */
  function DigitRun(s: string): (n: nat)
    ensures n <= |s| && AllDigits(s[..n])
    ensures n < |s| ==> !IsDigit(s[n])
  {
    if s != [] && IsDigit(s[0]) then
      var n := 1 + DigitRun(s[1..]);
      assert s[..n] == [s[0]] + s[1..][..n - 1];
      n
    else 0
  }

  /** `parseInt(s, 10)`: after white space and an optional sign, the longest
      run of digits, or `NaN` when there is none. */
  function JsParseInt(s: string): (r: JsInt)
    ensures s != [] && AllDigits(s) ==> r == Int(DigitsValue(s))
    ensures s == [] || !(IsDigit(s[0]) || IsSpace(s[0]) || s[0] == '-' || s[0] == '+') ==> r == NaN
  {
    var t := SkipSpace(s);
    var negative := t != [] && t[0] == '-';
    var body := if t != [] && (t[0] == '-' || t[0] == '+') then t[1..] else t;
    var k := DigitRun(body);
    DigitRunAll(s);
    assert s != [] && AllDigits(s) ==> body == s && body[..k] == s;
    var v: int := DigitsValue(body[..k]);
    if k == 0 then NaN
    else if negative then Int(-v)
    else Int(v)
  }

  lemma {:induction false} DigitRunAll(s: string)
    ensures AllDigits(s) ==> DigitRun(s) == |s|
  {
    if s != [] && AllDigits(s) {
      DigitRunAll(s[1..]);
    }
  }

  /** `parseInt` reads back what a template literal prints. */
  lemma ParseIntOfText(v: JsInt)
    ensures JsParseInt(JsText(v)) == v
  {
    match v
    case NaN =>
    case Int(n) =>
      if n >= 0 {
        DigitsOfNat(n);
      } else {
        var t := JsText(v);
        assert t[1..] == NatToString(-n);
        DigitRunAll(t[1..]);
        DigitsOfNat(-n);
        assert t[1..][..|t[1..]|] == t[1..];
      }
  }

  /** The request of `loadData`: `${URL}${bucket}/${weeks}/${min_data}/`. */
  function RequestUrl(bucket: JsInt, weeks: JsInt, minData: JsInt): (url: string)
  {
    RoutePrefix + JsText(bucket) + "/" + JsText(weeks) + "/" + JsText(minData) + "/"
  }

  /** One `<int:...>` segment of the route: a run of digits ended by a slash,
      and what follows the slash. */
  function IntSegment(s: string): (r: Option<(nat, string)>)
    ensures r.Some? ==> |r.value.1| < |s|
  {
    var i := IndexOf(s, '/');
    if 0 < i < |s| && AllDigits(s[..i]) then Some((DigitsValue(s[..i]), s[i + 1..])) else None
  }

  /** The arguments the route `/getRecentISF/<int:time_bucket>/<int:min_weeks>/<int:min_data>/`
      takes from a path, or `None` when the path does not match it. */
  function RouteArgs(url: string): (r: Option<(nat, nat, nat)>)
  {
    if |url| < |RoutePrefix| || url[..|RoutePrefix|] != RoutePrefix then None
    else RouteTail(url[|RoutePrefix|..])
  }

  const RoutePrefix := "/getRecentISF/"

  /** The three segments after the prefix, each ended by a slash. */
  function RouteTail(tail: string): Option<(nat, nat, nat)>
  {
    match IntSegment(tail)
    case None => None
    case Some((a, rest)) =>
      match IntSegment(rest)
      case None => None
      case Some((b, rest')) =>
        match IntSegment(rest')
        case None => None
        case Some((c, rest'')) => if rest'' == [] then Some((a, b, c)) else None
  }

  /** A segment is read back from the text of a non-negative integer, and
      refused for a negative one or `NaN`. */
  lemma TextSegment(v: JsInt, rest: string)
    ensures IntSegment(JsText(v) + "/" + rest) == if v.Int? && v.n >= 0 then Some((v.n, rest)) else None
  {
    var d := JsText(v);
    var s := d + "/" + rest;
    IndexOfFirst(s, '/');
    assert s[|d|] == '/';
    assert forall k :: 0 <= k < |d| ==> s[k] == d[k];
    assert forall k :: 0 <= k < |d| ==> d[k] != '/' by {
      if v.Int? && v.n < 0 {
        assert forall k :: 1 <= k < |d| ==> d[k] == NatToString(-v.n)[k - 1];
      }
    }
    assert IndexOf(s, '/') == |d|;
    assert s[..|d|] == d && s[|d| + 1..] == rest;
    if v.Int? && v.n >= 0 {
      DigitsOfNat(v.n);
    } else {
      assert !IsDigit(s[..|d|][0]);
    }
  }

  /** The request reaches the route, with the values as its arguments,
      exactly when all three values are non-negative integers. */
  lemma RequestReachesRoute(bucket: JsInt, weeks: JsInt, minData: JsInt)
    ensures RouteArgs(RequestUrl(bucket, weeks, minData)) ==
      if bucket.Int? && weeks.Int? && minData.Int? && bucket.n >= 0 && weeks.n >= 0 && minData.n >= 0
      then Some((bucket.n, weeks.n, minData.n)) else None
  {
    var tail := JsText(bucket) + "/" + (JsText(weeks) + "/" + (JsText(minData) + "/"));
    RequestUrlSplit(JsText(bucket), JsText(weeks), JsText(minData));
    PrefixedRoute(RequestUrl(bucket, weeks, minData), tail);
    RouteTailText(bucket, weeks, minData);
  }

  lemma RequestUrlSplit(a: string, b: string, c: string)
    ensures RoutePrefix + a + "/" + b + "/" + c + "/" == RoutePrefix + (a + "/" + (b + "/" + (c + "/")))
  {
  }

  lemma RouteTailText(bucket: JsInt, weeks: JsInt, minData: JsInt)
    ensures RouteTail(JsText(bucket) + "/" + (JsText(weeks) + "/" + (JsText(minData) + "/"))) ==
      if bucket.Int? && weeks.Int? && minData.Int? && bucket.n >= 0 && weeks.n >= 0 && minData.n >= 0
      then Some((bucket.n, weeks.n, minData.n)) else None
  {
    var t3 := JsText(minData) + "/";
    var t2 := JsText(weeks) + "/" + t3;
    TextSegment(bucket, t2);
    if bucket.Int? && bucket.n >= 0 {
      TextSegment(weeks, t3);
      if weeks.Int? && weeks.n >= 0 {
        assert t3 == JsText(minData) + "/" + [];
        TextSegment(minData, []);
      }
    }
  }

  lemma PrefixedRoute(url: string, tail: string)
    requires url == RoutePrefix + tail
    ensures RouteArgs(url) == RouteTail(tail)
  {
    assert url[..|RoutePrefix|] == RoutePrefix && url[|RoutePrefix|..] == tail;
  }

  /** One `<option>` of the time-bucket menu. */
  datatype MenuOption = MenuOption(value: int, text: string, selected: bool)

  /** The menu `setupTimeBucketMenu` builds when `time_bucket` is
      `timeBucket`: an option per bucket, valued at the bucket's first hour,
      labelled by `bucketTime`, and selected when its value is the bucket. */
  predicate IsMenu(opts: seq<MenuOption>, timeBucket: JsInt)
  {
    |opts| == |Labels| &&
    forall i :: 0 <= i < |opts| ==>
      opts[i] == MenuOption(2 * i, Labels[i], timeBucket == Int(2 * i))
  }

  /** `setupTimeBucketMenu()`'s loop over the twelve buckets. */
  method SetupTimeBucketMenu(timeBucket: JsInt) returns (opts: seq<MenuOption>)
    ensures IsMenu(opts, timeBucket)
  {
    opts := [];
    for i := 0 to 12
      invariant |opts| == i
      invariant forall j :: 0 <= j < i ==> opts[j] == MenuOption(2 * j, Labels[j], timeBucket == Int(2 * j))
    {
      var b := i * 2;
      var desc := BucketTime(b);
      var selected := false;
      if timeBucket == Int(b) {
        selected := true;
      }
      opts := opts + [MenuOption(b, desc.value, selected)];
    }
  }

  /** The menu's values are `0, 2, …, 22`; an option is selected exactly
      when `time_bucket` is a bucket, only one option then, and its text is
      that bucket's label. */
  lemma MenuSelection(opts: seq<MenuOption>, timeBucket: JsInt)
    requires IsMenu(opts, timeBucket)
    ensures forall i :: 0 <= i < |opts| ==> BucketTime(opts[i].value) == Some(opts[i].text)
    ensures (exists i :: 0 <= i < |opts| && opts[i].selected) <==> timeBucket.Int? && BucketTime(timeBucket.n).Some?
    ensures forall i, j :: 0 <= i < |opts| && 0 <= j < |opts| && opts[i].selected && opts[j].selected ==> i == j
    ensures forall i :: 0 <= i < |opts| && opts[i].selected ==> BucketTime(timeBucket.n) == Some(opts[i].text)
  {
    forall i | 0 <= i < |opts|
      ensures BucketTime(opts[i].value) == Some(opts[i].text)
    {
      BucketOf(i);
    }
    if timeBucket.Int? && BucketTime(timeBucket.n).Some? {
      var i := timeBucket.n / 2;
      assert opts[i].selected;
    }
  }

  lemma BucketOf(i: nat)
    requires i < |Labels|
    ensures BucketTime(2 * i) == Some(Labels[i])
  {
    assert (2 * i) / 2 == i && (2 * i) % 2 == 0;
  }

  /** The `ajax_response` `updatePage` shows before any answer has come in:
      the example's fixed values with the three the handlers change, in the
      order of the object literal.  `textContent = null` shows nothing. */
  function Entries(timeBucket: JsInt, minWeeks: JsInt, minData: JsInt): (e: seq<(string, string)>)
    ensures |e| == 9
    ensures forall i, j :: 0 <= i < j < |e| ==> e[i].0 != e[j].0
    ensures e[3] == ("time_bucket", JsText(timeBucket))
    ensures e[5] == ("min_weeks_of_data", JsText(minWeeks))
    ensures e[7] == ("min_number_of_data", JsText(minData))
  {
    [("Q1", "4"), ("Q2", "24"), ("Q3", "48"), ("time_bucket", JsText(timeBucket)),
     ("weeks_of_data", "5"), ("min_weeks_of_data", JsText(minWeeks)), ("number_of_data", "55"),
     ("min_number_of_data", JsText(minData)), ("timestamp_of_calculation", "")]
  }

  /** The element texts after `updatePage`'s loop writes `data` in order; a
      key with no element is logged and skipped. */
  function Shown(text: map<string, string>, data: seq<(string, string)>): (r: map<string, string>)
    ensures r.Keys == text.Keys
    decreases |data|
  {
    if data == [] then text
    else Shown(if data[0].0 in text then text[data[0].0 := data[0].1] else text, data[1..])
  }

  /** When no key repeats, each element named by a key shows that key's
      value, and every other element keeps its text. */
  lemma {:induction false} ShownValues(text: map<string, string>, data: seq<(string, string)>)
    requires forall i, j :: 0 <= i < j < |data| ==> data[i].0 != data[j].0
    ensures forall i :: 0 <= i < |data| && data[i].0 in text ==> Shown(text, data)[data[i].0] == data[i].1
    ensures forall k :: k in text && (forall i :: 0 <= i < |data| ==> data[i].0 != k) ==> Shown(text, data)[k] == text[k]
    decreases |data|
  {
    if data != [] {
      var t := if data[0].0 in text then text[data[0].0 := data[0].1] else text;
      assert forall i :: 1 <= i < |data| ==> data[1..][i - 1] == data[i];
      ShownValues(t, data[1..]);
      assert Shown(text, data) == Shown(t, data[1..]);
    }
  }

  /** The page's `ajax_response` fields the handlers change, the text of the
      page's elements by id and the values of the two inputs. */
  class Page {
    var timeBucket: JsInt
    var minWeeksOfData: JsInt
    var minNumberOfData: JsInt
    var text: map<string, string>
    var inputMinNumberOfData: string
    var inputMinWeeksOfData: string
    /** The URLs `loadData` has requested, oldest first. */
    var requests: seq<string>

    /** The `example_ajax_response` the page starts from. */
    constructor (text: map<string, string>, inputMinNumberOfData: string, inputMinWeeksOfData: string)
      ensures timeBucket == Int(0) && minWeeksOfData == Int(4) && minNumberOfData == Int(40)
      ensures this.text == text && requests == []
      ensures this.inputMinNumberOfData == inputMinNumberOfData && this.inputMinWeeksOfData == inputMinWeeksOfData
    {
      timeBucket := Int(0);
      minWeeksOfData := Int(4);
      minNumberOfData := Int(40);
      this.text := text;
      this.inputMinNumberOfData := inputMinNumberOfData;
      this.inputMinWeeksOfData := inputMinWeeksOfData;
      requests := [];
    }

    /** `updatePage(data)`: writes each value into the element with its
        key's id, skipping a key with no element, then copies the two minimums
        into their inputs. */
    method UpdatePage(data: seq<(string, string)>)
      modifies this
      ensures text == Shown(old(text), data)
      ensures inputMinNumberOfData == JsText(minNumberOfData) && inputMinWeeksOfData == JsText(minWeeksOfData)
      ensures timeBucket == old(timeBucket) && minWeeksOfData == old(minWeeksOfData) && minNumberOfData == old(minNumberOfData)
      ensures requests == old(requests)
    {
      var i := 0;
      while i < |data|
        invariant 0 <= i <= |data|
        invariant Shown(old(text), data) == Shown(text, data[i..])
        invariant timeBucket == old(timeBucket) && minWeeksOfData == old(minWeeksOfData) && minNumberOfData == old(minNumberOfData)
        invariant requests == old(requests)
      {
        var (id, value) := data[i];
        assert data[i..][0] == data[i] && data[i..][1..] == data[i + 1..];
        if id in text {
          text := text[id := value];
        }
        i := i + 1;
      }
      inputMinNumberOfData := JsText(minNumberOfData);
      inputMinWeeksOfData := JsText(minWeeksOfData);
    }

    /** `loadData()`: requests the current bucket with the current minimums,
        then shows `ajax_response` at once. */
    method LoadData()
      modifies this
      ensures requests == old(requests) + [RequestUrl(timeBucket, minWeeksOfData, minNumberOfData)]
      ensures timeBucket == old(timeBucket) && minWeeksOfData == old(minWeeksOfData) && minNumberOfData == old(minNumberOfData)
      ensures text == Shown(old(text), Entries(timeBucket, minWeeksOfData, minNumberOfData))
      ensures inputMinNumberOfData == JsText(minNumberOfData) && inputMinWeeksOfData == JsText(minWeeksOfData)
    {
      var url := RequestUrl(timeBucket, minWeeksOfData, minNumberOfData);
      var shown := Entries(timeBucket, minWeeksOfData, minNumberOfData);
      requests := requests + [url];
      UpdatePage(shown);
    }

    /** `$(selector).text(t)`: an element that is not there is skipped. */
    method SetText(id: string, t: string)
      modifies this
      ensures text == if id in old(text) then old(text)[id := t] else old(text)
      ensures timeBucket == old(timeBucket) && minWeeksOfData == old(minWeeksOfData) && minNumberOfData == old(minNumberOfData)
      ensures requests == old(requests)
      ensures inputMinNumberOfData == old(inputMinNumberOfData) && inputMinWeeksOfData == old(inputMinWeeksOfData)
    {
      if id in text {
        text := text[id := t];
      }
    }

    /** The change handler of `#input_min_number_of_data`. */
    method ChangeMinNumberOfData(str: string)
      modifies this
      ensures minNumberOfData == JsParseInt(str)
      ensures timeBucket == old(timeBucket) && minWeeksOfData == old(minWeeksOfData)
      ensures var labelled := if "min_number_of_data" in old(text) then old(text)["min_number_of_data" := JsText(minNumberOfData)] else old(text);
        text == Shown(labelled, Entries(timeBucket, minWeeksOfData, minNumberOfData))
      ensures inputMinNumberOfData == JsText(minNumberOfData) && inputMinWeeksOfData == JsText(minWeeksOfData)
      ensures requests == old(requests) + [RequestUrl(timeBucket, minWeeksOfData, minNumberOfData)]
    {
      var num := JsParseInt(str);
      minNumberOfData := num;
      SetText("min_number_of_data", JsText(num));
      LoadData();
    }

    /** The change handler of `#input_min_weeks_of_data`. */
    method ChangeMinWeeksOfData(str: string)
      modifies this
      ensures minWeeksOfData == JsParseInt(str)
      ensures timeBucket == old(timeBucket) && minNumberOfData == old(minNumberOfData)
      ensures var labelled := if "min_weeks_of_data" in old(text) then old(text)["min_weeks_of_data" := JsText(minWeeksOfData)] else old(text);
        text == Shown(labelled, Entries(timeBucket, minWeeksOfData, minNumberOfData))
      ensures inputMinNumberOfData == JsText(minNumberOfData) && inputMinWeeksOfData == JsText(minWeeksOfData)
      ensures requests == old(requests) + [RequestUrl(timeBucket, minWeeksOfData, minNumberOfData)]
    {
      var num := JsParseInt(str);
      minWeeksOfData := num;
      SetText("min_weeks_of_data", JsText(num));
      LoadData();
    }

    /** The change handler of the time-bucket menu. */
    method ChangeTimeBucket(str: string)
      modifies this
      ensures timeBucket == JsParseInt(str)
      ensures minWeeksOfData == old(minWeeksOfData) && minNumberOfData == old(minNumberOfData)
      ensures var labelled := if "time_bucket" in old(text) then old(text)["time_bucket" := JsText(timeBucket)] else old(text);
        text == Shown(labelled, Entries(timeBucket, minWeeksOfData, minNumberOfData))
      ensures inputMinNumberOfData == JsText(minNumberOfData) && inputMinWeeksOfData == JsText(minWeeksOfData)
      ensures requests == old(requests) + [RequestUrl(timeBucket, minWeeksOfData, minNumberOfData)]
    {
      var num := JsParseInt(str);
      timeBucket := num;
      SetText("time_bucket", JsText(num));
      LoadData();
    }
  }

  /** After an update the page shows the three values the handlers change,
      wherever it has an element for them, and they read back with
      `parseInt`; an element for none of the keys keeps its text. */
  lemma UpdateShowsState(text: map<string, string>, tb: JsInt, weeks: JsInt, minData: JsInt)
    ensures var shown := Shown(text, Entries(tb, weeks, minData));
      ("time_bucket" in text ==> JsParseInt(shown["time_bucket"]) == tb) &&
      ("min_weeks_of_data" in text ==> JsParseInt(shown["min_weeks_of_data"]) == weeks) &&
      ("min_number_of_data" in text ==> JsParseInt(shown["min_number_of_data"]) == minData)
    ensures forall k :: k in text && (forall i :: 0 <= i < 9 ==> Entries(tb, weeks, minData)[i].0 != k) ==>
      Shown(text, Entries(tb, weeks, minData))[k] == text[k]
  {
    ShownValues(text, Entries(tb, weeks, minData));
    ParseIntOfText(tb);
    ParseIntOfText(weeks);
    ParseIntOfText(minData);
  }

  /** Choosing an option of the menu requests that option's bucket. */
  lemma MenuChoiceRequested(opts: seq<MenuOption>, tb: JsInt, i: nat, weeks: nat, minData: nat)
    requires IsMenu(opts, tb) && i < |opts|
    ensures JsParseInt(IntToString(opts[i].value)) == Int(opts[i].value)
    ensures RouteArgs(RequestUrl(JsParseInt(IntToString(opts[i].value)), Int(weeks), Int(minData))) == Some((2 * i, weeks, minData))
  {
    ParseIntOfText(Int(opts[i].value));
    RequestReachesRoute(Int(2 * i), Int(weeks), Int(minData));
  }
}
