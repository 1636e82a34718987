/** `meal_graphs_revised/fd_query.py`: date conversions and the SQL text
    the food-diary queries are built from.  The queries themselves are
    left to the database; what is modelled is the text sent. */
module MealGraphsFdQuery {
  import opened Common
  import opened Strptime

  /** The values `make_date` distinguishes: a `datetime.date`, a
      `datetime.datetime`, a `str`, and anything else. */
  datatype DateLike = IsDate(d: Date) | IsDateTime(dt: DateTime) | IsStr(s: string) | IsOther

  /** `make_date(d)`: a date unchanged, a datetime's date, a string parsed
      with `%Y-%m-%d` (a `datetime`, not a date; `ValueError` when it does
      not parse), and `None` for anything else. */
  function MakeDate(x: DateLike): (r: Result<Option<DateLike>>)
    ensures r.Ok? && r.value.Some? ==> r.value.value.IsDate? || r.value.value.IsDateTime?
    ensures r.Err? <==> x.IsStr? && Parse(x.s, YmdDash).Err?
    ensures r.Err? ==> r.error == ValueError
    ensures r == Ok(None) <==> x.IsOther?
  {
    match x
    case IsDate(d) => Ok(Some(x))
    case IsDateTime(dt) => Ok(Some(IsDate(dt.DateOf())))
    case IsStr(s) =>
      (match Parse(s, YmdDash)
       case Ok(dt) => Ok(Some(IsDateTime(dt)))
       case Err(e) => Err(e))
    case IsOther => Ok(None)
  }

  /** A date string reads back as the `datetime` at midnight of that day,
      and converting that again gives the date. */
  lemma MakeDateOfString(dt: DateTime)
    requires Constructible(dt) && dt.hour == 0 && dt.minute == 0 && dt.second == 0
    ensures MakeDate(IsStr(YmdString(dt.DateOf()))) == Ok(Some(IsDateTime(dt)))
    ensures MakeDate(IsDateTime(dt)) == Ok(Some(IsDate(dt.DateOf())))
  {
    YmdDashText(dt);
    YmdDashRoundTrip(dt);
  }

  /** Dates are fixed points: converting a converted value changes nothing
      more, apart from a `datetime` becoming its date. */
  lemma MakeDateSettles(x: DateLike)
    requires MakeDate(x).Ok? && MakeDate(x).value.Some?
    ensures var y := MakeDate(x).value.value;
      MakeDate(y).Ok? && MakeDate(y).value.Some? && MakeDate(y).value.value.IsDate? &&
      MakeDate(MakeDate(y).value.value) == MakeDate(y)
  {
  }

  /** `%H:%M`. */
  const HourMinute := Then(Hour, Then(Lit(':'), Then(Minute, Done)))

  lemma HourMinuteText(dt: DateTime)
    ensures Format(HourMinute, dt) == Pad2(dt.hour) + ":" + Pad2(dt.minute)
  {
    var minute := Format(Then(Minute, Done), dt);
    assert Render(Minute, dt) == Pad2(dt.minute) && Format(Done, dt) == "";
    assert minute == Pad2(dt.minute) + "";
    var colon := Format(Then(Lit(':'), Then(Minute, Done)), dt);
    assert colon == ":" + minute;
    assert Format(HourMinute, dt) == Pad2(dt.hour) + colon;
    assert Pad2(dt.minute) + "" == Pad2(dt.minute);
  }

  /** `time_str(date)`: `date.strftime("%H:%M")`, the two-digit hour, a
      colon and the two-digit minute. */
  function TimeStr(dt: DateTime): (r: string)
    ensures r == Pad2(dt.hour) + ":" + Pad2(dt.minute)
    ensures dt.hour < 100 && dt.minute < 100 ==> |r| == 5 && r[2] == ':'
  {
    HourMinuteText(dt);
    Format(HourMinute, dt)
  }

  /** The text reads back, with `%H:%M`, as the same hour and minute of
      1900-01-01. */
  lemma TimeStrRoundTrip(dt: DateTime)
    requires Constructible(dt)
    ensures Parse(TimeStr(dt), HourMinute) == Ok(DateTime(1900, 1, 1, dt.hour, dt.minute, 0))
  {
    var t := DateTime(1900, 1, 1, dt.hour, dt.minute, 0);
    HourMinuteText(t);
    assert Plain(HourMinute) && Covers(HourMinute, t);
    ParseFormat(HourMinute, t);
  }

  /** `mysql_date_str(date)`: `make_date(date).strftime('%Y-%m-%d')`; for a
      value `make_date` maps to `None`, the attribute lookup raises
      `AttributeError`. */
  function MysqlDateStr(x: DateLike): (r: Result<string>)
    ensures r.Err? <==> x.IsOther? || (x.IsStr? && Parse(x.s, YmdDash).Err?)
    ensures r.Err? ==> r.error == (if x.IsOther? then AttributeError else ValueError)
  {
    match MakeDate(x)
    case Err(e) => Err(e)
    case Ok(None) => Err(AttributeError)
    case Ok(Some(y)) =>
      if y.IsDate? then Ok(YmdString(y.d)) else Ok(Format(YmdDash, y.dt))
  }

  /** A date, the `datetime` at any time of that day and the date's own
      `%Y-%m-%d` text all give that text. */
  lemma MysqlDateStrAgrees(dt: DateTime)
    requires Constructible(dt)
    ensures MysqlDateStr(IsDateTime(dt)) == Ok(YmdString(dt.DateOf()))
    ensures MysqlDateStr(IsDate(dt.DateOf())) == Ok(YmdString(dt.DateOf()))
    ensures MysqlDateStr(IsStr(YmdString(dt.DateOf()))) == Ok(YmdString(dt.DateOf()))
  {
    var midnight := DateTime(dt.year, dt.month, dt.day, 0, 0, 0);
    assert midnight.DateOf() == dt.DateOf();
    MakeDateOfString(midnight);
    YmdDashText(midnight);
  }

  /** The meal kinds `get_meal_dates` accepts. */
  const MealKinds: seq<string> := ["breakfast", "lunch", "dinner"]

  /** `str.lower` on ASCII letters. */
  function LowerChar(c: char): (r: char)
    ensures !('A' <= r <= 'Z')
  {
    if 'A' <= c <= 'Z' then (c as int + 32) as char else c
  }

  function Lower(s: string): (r: string)
    ensures |r| == |s| && forall i :: 0 <= i < |s| ==> r[i] == LowerChar(s[i])
  {
    seq(|s|, i requires 0 <= i < |s| => LowerChar(s[i]))
  }

  lemma LowerTwice(s: string)
    ensures Lower(Lower(s)) == Lower(s)
  {
    assert forall c :: !('A' <= c <= 'Z') ==> LowerChar(c) == c;
  }

  /** The nine `like` tests, `item1` to `item9`, against one pattern. */
  function LikeTests(pattern: string): (r: seq<string>)
    ensures |r| == 9 && forall k :: 0 <= k < 9 ==> r[k] == "item" + [DigitChar(k + 1)] + " like '" + pattern + "'"
  {
    seq(9, k requires 0 <= k < 9 => "item" + [DigitChar(k + 1)] + " like '" + pattern + "'")
  }

  /** The line break and indent between the tests in the source's literal. */
  const TestSeparator := " or\n                   "

  /** `meal_includes_clause(item)`: the nine tests against
      `'%' + item.lower() + '%'`, or-ed and parenthesised. */
  function MealIncludesClause(item: string): string
  {
    "(" + Join(TestSeparator, LikeTests("%" + Lower(item) + "%")) + ")"
  }

  /** Items are matched without regard to case: an item and its lower-case
      form give the same clause. */
  lemma MealIncludesClauseCaseless(item: string, other: string)
    requires Lower(item) == Lower(other)
    ensures MealIncludesClause(item) == MealIncludesClause(other)
    ensures MealIncludesClause(Lower(item)) == MealIncludesClause(item)
  {
    LowerTwice(item);
  }

  function Clauses(items: seq<string>): (r: seq<string>)
    ensures |r| == |items| && forall k :: 0 <= k < |items| ==> r[k] == MealIncludesClause(items[k])
  {
    seq(|items|, k requires 0 <= k < |items| => MealIncludesClause(items[k]))
  }

  /** `in_clause`: `' True '` for no items, else the items' clauses
      joined with `' and '`. */
  function InClause(items: seq<string>): string
  {
    if |items| > 0 then Join(" and ", Clauses(items)) else " True "
  }

  /** `out_clause`: `' False '` for no items, else the items' clauses
      joined with `' and not '`, so that `NOT` reaches only the first. */
  function OutClause(items: seq<string>): string
  {
    if |items| > 0 then Join(" and not ", Clauses(items)) else " False "
  }

  /** A join of parts begins with the first part. */
  lemma {:induction false} JoinStartsWithFirst(sep: string, parts: seq<string>)
    requires parts != []
    ensures |parts[0]| <= |Join(sep, parts)| && Join(sep, parts)[..|parts[0]|] == parts[0]
    decreases |parts|
  {
    if |parts| > 1 {
      var init := parts[..|parts| - 1];
      JoinStartsWithFirst(sep, init);
      assert init[0] == parts[0];
      var j := Join(sep, init);
      assert Join(sep, parts) == j + sep + parts[|parts| - 1];
      assert (j + sep + parts[|parts| - 1])[..|parts[0]|] == j[..|parts[0]|];
    }
  }

  /** The include clause is `' True '` exactly when no item is wanted and
      the exclude clause `' False '` exactly when none is unwanted;
      otherwise each begins with its first item's clause, and the
      exclude clause of two items negates only the second explicitly. */
  lemma ClausesOfItems(items: seq<string>)
    ensures InClause(items) == " True " <==> items == []
    ensures OutClause(items) == " False " <==> items == []
    ensures items != [] ==> var c := MealIncludesClause(items[0]);
      && |c| <= |InClause(items)| && InClause(items)[..|c|] == c
      && |c| <= |OutClause(items)| && OutClause(items)[..|c|] == c
    ensures |items| == 2 ==>
      OutClause(items) == MealIncludesClause(items[0]) + " and not " + MealIncludesClause(items[1])
  {
    if items != [] {
      var c := MealIncludesClause(items[0]);
      assert Clauses(items)[0] == c;
      JoinStartsWithFirst(" and ", Clauses(items));
      JoinStartsWithFirst(" and not ", Clauses(items));
      assert c[0] == '(';
      assert InClause(items)[0] == '(' && OutClause(items)[0] == '(';
    }
    if |items| == 2 {
      var cs := Clauses(items);
      assert cs[..1] == [cs[0]];
      assert OutClause(items) == Join(" and not ", [cs[0]]) + " and not " + cs[1];
    }
  }

  /** `'{}'.format(x)` of what `make_date` returns. */
  function Str(x: Option<DateLike>): string
  {
    match x
    case None => "None"
    case Some(IsDate(d)) => YmdString(d)
    case Some(IsDateTime(dt)) => Format(YmdHms, dt)
    case Some(IsStr(s)) => s
    case Some(IsOther) => ""
  }

  /** The statement `get_meal_dates(conn, date1, date2, meal_kind,
      food_items_include, food_items_exclude)` executes, after converting
      both dates and checking the meal kind. */
  function MealDatesStatement(date1: DateLike, date2: DateLike, mealKind: string,
                              wanted: seq<string>, unwanted: seq<string>): (r: Result<string>)
    ensures r.Ok? <==> MakeDate(date1).Ok? && MakeDate(date2).Ok? && mealKind in MealKinds
    ensures MakeDate(date1).Ok? && MakeDate(date2).Ok? && mealKind !in MealKinds ==> r == Err(ValueError)
  {
    match MakeDate(date1)
    case Err(e) => Err(e)
    case Ok(d1) =>
      match MakeDate(date2)
      case Err(e) => Err(e)
      case Ok(d2) =>
        if mealKind !in MealKinds then Err(ValueError)
        else
          Ok("SELECT date FROM food_diary_2\n              WHERE date BETWEEN cast('" + Str(d1) +
             "' as date) and cast('" + Str(d2) + "' as date)\n              AND meal = '" + mealKind +
             "' AND " + InClause(wanted) + " AND NOT " + OutClause(unwanted) + "\n           ")
  }

  /** `"'{}'".format(mysql_date_str(d))`. */
  function QuotedDate(x: DateLike): (r: Result<string>)
    ensures r.Ok? ==> MysqlDateStr(x).Ok? && r.value == "'" + MysqlDateStr(x).value + "'"
    ensures r.Err? ==> MysqlDateStr(x).Err? && r.error == MysqlDateStr(x).error
  {
    match MysqlDateStr(x)
    case Err(e) => Err(e)
    case Ok(s) => Ok("'" + s + "'")
  }

  /** `dates_str_with` in `get_complement_dates`: the quoted dates joined
      with commas; the first date that cannot be converted raises. */
  function ComplementList(dates: seq<DateLike>): Result<string>
  {
    match MapAll(dates, QuotedDate)
    case Err(e) => Err(e)
    case Ok(parts) => Ok(Join(",", parts))
  }

  const ComplementHead := "SELECT date FROM food_diary_2 \n               WHERE date BETWEEN cast(%s as date) and cast(%s as date)\n               AND meal = %s\n               AND date NOT IN ("

  /** The query `get_complement_dates` executes, before the driver fills
      in the three `%s` parameters. */
  function ComplementQuery(dates: seq<DateLike>): Result<string>
  {
    match ComplementList(dates)
    case Err(e) => Err(e)
    case Ok(list) => Ok(ComplementHead + list + ")")
  }

  /** With no dates to exclude the query ends in `NOT IN ()`, which MySQL
      rejects as a syntax error. */
  lemma NothingToExclude()
    ensures ComplementQuery([]) == Ok(ComplementHead + ")")
    ensures ComplementQuery([]).value[|ComplementQuery([]).value| - 9..] == "NOT IN ()"
  {
    var none: seq<DateLike> := [];
    assert MapAll(none, QuotedDate) == Ok([]);
    assert ComplementList(none) == Ok("");
    assert ComplementHead + "" + ")" == ComplementHead + ")";
  }

  /** Each date's `'Y-m-d'`. */
  function QuotedTexts(dates: seq<Date>): (r: seq<string>)
    ensures |r| == |dates| && forall k :: 0 <= k < |dates| ==> r[k] == "'" + YmdString(dates[k]) + "'"
  {
    seq(|dates|, k requires 0 <= k < |dates| => "'" + YmdString(dates[k]) + "'")
  }

  /** For dates, the list is their quoted texts joined with commas. */
  lemma ComplementListOfDates(dates: seq<Date>)
    ensures ComplementList(seq(|dates|, k requires 0 <= k < |dates| => IsDate(dates[k]))) == Ok(Join(",", QuotedTexts(dates)))
  {
    var xs := seq(|dates|, k requires 0 <= k < |dates| => IsDate(dates[k]));
    forall k | 0 <= k < |xs|
      ensures QuotedDate(xs[k]) == Ok("'" + YmdString(dates[k]) + "'")
    {
      assert MakeDate(xs[k]) == Ok(Some(IsDate(dates[k])));
    }
    MapAllMeaning(xs, QuotedDate);
    assert MapAll(xs, QuotedDate).value == QuotedTexts(dates);
  }

  /** Twelve-character parts joined with commas sit thirteen characters
      apart. */
  lemma CommaLayout(parts: seq<string>)
    requires FixedWidth(",", parts, 12)
    ensures var list := Join(",", parts);
      && |list| == 13 * |parts| - 1
      && (forall k :: 0 <= k < |parts| ==> list[13 * k..13 * k + 12] == parts[k])
      && (forall k :: 0 <= k < |parts| - 1 ==> list[13 * k + 12] == ',')
  {
    var list := Join(",", parts);
    JoinFixedLength(",", parts, 12);
    StrideIsProduct(|parts|, 12);
    forall k | 0 <= k < |parts|
      ensures list[13 * k..13 * k + 12] == parts[k]
    {
      JoinFixedPart(",", parts, 12, k);
      StrideIsProduct(k, 12);
    }
    forall k | 0 <= k < |parts| - 1
      ensures list[13 * k + 12] == ','
    {
      JoinFixedSeparator(",", parts, 12, k);
      StrideIsProduct(k, 12);
    }
  }

  /** For valid dates the list is each date's `'Y-m-d'`, in order, with a
      comma between neighbours. */
  lemma ComplementListLayout(dates: seq<Date>)
    requires dates != [] && forall k :: 0 <= k < |dates| ==> dates[k].Valid()
    ensures var r := ComplementList(seq(|dates|, k requires 0 <= k < |dates| => IsDate(dates[k])));
      && r.Ok? && |r.value| == 13 * |dates| - 1
      && (forall k :: 0 <= k < |dates| ==> r.value[13 * k..13 * k + 12] == QuotedTexts(dates)[k])
      && (forall k :: 0 <= k < |dates| - 1 ==> r.value[13 * k + 12] == ',')
  {
    ComplementListOfDates(dates);
    var parts := QuotedTexts(dates);
    forall k | 0 <= k < |parts|
      ensures |parts[k]| == 12
    {
      assert |YmdString(dates[k])| == 10;
    }
    CommaLayout(parts);
  }
}
