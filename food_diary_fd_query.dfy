/** `food_diary/fd_query.py`: date strings in US and MySQL form, the meal
    dates whose food items match any of a list, and the query for the
    meals matching none.  Each query's rows are given by a lookup
    function: `lookup(pattern)` is what the parameterised `like` query
    returns for that pattern (the dates and meal kind being fixed for the
    call), `run(sql)` what an executed SQL text returns. */
module FoodDiaryFdQuery {
  import opened Common
  import opened Strptime

  /** `'%m/%d/%Y'`. */
  const MdySlash := Then(Month, Then(Lit('/'), Then(Day, Then(Lit('/'), Then(Year4, Done)))))

  lemma MdySlashText(dt: DateTime)
    ensures Format(MdySlash, dt) == Pad2(dt.month) + "/" + Pad2(dt.day) + "/" + Pad4(dt.year)
  {
    var year := Format(Then(Year4, Done), dt);
    assert Render(Year4, dt) == Pad4(dt.year) && Format(Done, dt) == "";
    assert year == Pad4(dt.year) + "";
    assert Pad4(dt.year) + "" == Pad4(dt.year);
    var slash2 := Format(Then(Lit('/'), Then(Year4, Done)), dt);
    assert slash2 == "/" + year;
    var day := Format(Then(Day, Then(Lit('/'), Then(Year4, Done))), dt);
    assert day == Pad2(dt.day) + slash2;
    var slash1 := Format(MdySlash.tail, dt);
    assert slash1 == "/" + day;
    assert Format(MdySlash, dt) == Pad2(dt.month) + slash1;
    assert Pad2(dt.month) + ("/" + (Pad2(dt.day) + ("/" + Pad4(dt.year))))
        == Pad2(dt.month) + "/" + Pad2(dt.day) + "/" + Pad4(dt.year);
  }

  /** `us_date(mysql_date)`: parsed with `%Y-%m-%d` (`ValueError` when it
      does not parse) and printed with `%m/%d/%Y`. */
  function UsDate(mysqlDate: string): (r: Result<string>)
    ensures r.Err? <==> Parse(mysqlDate, YmdDash).Err?
    ensures r.Err? ==> r.error == ValueError
    ensures r.Ok? ==> var dt := Parse(mysqlDate, YmdDash).value;
      r.value == Pad2(dt.month) + "/" + Pad2(dt.day) + "/" + Pad4(dt.year)
  {
    match Parse(mysqlDate, YmdDash)
    case Err(e) => Err(e)
    case Ok(dt) =>
      MdySlashText(dt);
      Ok(Format(MdySlash, dt))
  }

  /** A date's MySQL text becomes ten characters of US text that read back,
      with `%m/%d/%Y`, as the same date. */
  lemma UsDateRoundTrip(dt: DateTime)
    requires Constructible(dt) && dt.hour == 0 && dt.minute == 0 && dt.second == 0
    ensures UsDate(YmdString(dt.DateOf())).Ok?
    ensures |UsDate(YmdString(dt.DateOf())).value| == 10
    ensures Parse(UsDate(YmdString(dt.DateOf())).value, MdySlash) == Ok(dt)
  {
    YmdDashText(dt);
    YmdDashRoundTrip(dt);
    MdySlashText(dt);
    MdySlashRoundTrip(dt);
  }

  lemma MdySlashRoundTrip(dt: DateTime)
    requires Constructible(dt) && dt.hour == 0 && dt.minute == 0 && dt.second == 0
    ensures Parse(Format(MdySlash, dt), MdySlash) == Ok(dt)
  {
    assert Plain(MdySlash) && Covers(MdySlash, dt);
    ParseFormat(MdySlash, dt);
  }

  /** `us_date_wo_padding(mysql_date)`: `'{}/{}/{}'.format(month, day,
      year)` of the parsed date. */
  function UsDateWoPadding(mysqlDate: string): (r: Result<string>)
    ensures r.Err? <==> Parse(mysqlDate, YmdDash).Err?
    ensures r.Err? ==> r.error == ValueError
  {
    match Parse(mysqlDate, YmdDash)
    case Err(e) => Err(e)
    case Ok(dt) => Ok(NatToString(dt.month) + "/" + NatToString(dt.day) + "/" + NatToString(dt.year))
  }

  /** The padded and the unpadded forms agree exactly when neither the
      month nor the day is a single digit. */
  lemma PaddingMatters(mysqlDate: string)
    requires Parse(mysqlDate, YmdDash).Ok? && Parse(mysqlDate, YmdDash).value.year >= 1000
    ensures var dt := Parse(mysqlDate, YmdDash).value;
      UsDate(mysqlDate) == UsDateWoPadding(mysqlDate) <==> dt.month >= 10 && dt.day >= 10
  {
    var dt := Parse(mysqlDate, YmdDash).value;
    NatLength(dt.month);
    NatLength(dt.day);
    NatLength(dt.year);
    var padded := UsDate(mysqlDate).value;
    var bare := UsDateWoPadding(mysqlDate).value;
    if dt.month < 10 || dt.day < 10 {
      assert |padded| == 10 && |bare| < 10;
    }
  }

  /** `mysql_date_str(date)`: `date.strftime('%Y-%m-%d')` of a
      `datetime.date`, which reads back as that date. */
  function MysqlDateStr(d: Date): (r: string)
    ensures d.Valid() ==> |r| == 10 && Parse(r, YmdDash) == Ok(DateTime(d.year, d.month, d.day, 0, 0, 0))
  {
    var dt := DateTime(d.year, d.month, d.day, 0, 0, 0);
    assert dt.DateOf() == d;
    YmdDashText(dt);
    if d.Valid() then YmdDashRoundTrip(dt); YmdString(d) else YmdString(d)
  }

  /** The `like` pattern for one food item: `'%' + fi + '%'` (the case of
      the item is kept). */
  function Pattern(item: string): string { "%" + item + "%" }

  /** The items' query results, one after another. */
  function AllRows<T>(items: seq<string>, lookup: string -> seq<T>): seq<T>
    decreases |items|
  {
    if items == [] then [] else AllRows(items[..|items| - 1], lookup) + lookup(Pattern(items[|items| - 1]))
  }

  /** Each element once, where it first occurs. */
  function Dedup<T(==)>(s: seq<T>): seq<T>
    decreases |s|
  {
    if s == [] then []
    else
      var kept := Dedup(s[..|s| - 1]);
      if s[|s| - 1] in kept then kept else kept + [s[|s| - 1]]
  }

  /** The inner loop: each row's date is appended unless already there. */
  method AppendNew<T(==)>(dates: seq<T>, rows: seq<T>, ghost seen: seq<T>) returns (r: seq<T>)
    requires dates == Dedup(seen)
    ensures r == Dedup(seen + rows)
  {
    r := dates;
    assert seen + rows[..0] == seen;
    for j := 0 to |rows|
      invariant r == Dedup(seen + rows[..j])
    {
      assert (seen + rows[..j + 1])[..|seen + rows[..j]|] == seen + rows[..j];
      assert (seen + rows[..j + 1])[|seen + rows[..j]|] == rows[j];
      var d := rows[j];
      if d !in r {
        r := r + [d];
      }
    }
    assert rows[..|rows|] == rows;
  }

  /** `get_meal_dates_with(conn, date1, date2, meal_kind, *food_items)`:
      the dates found for any item, each once, in the order first found. */
  method GetMealDatesWith<T(==)>(items: seq<string>, lookup: string -> seq<T>) returns (dates: seq<T>)
    ensures dates == Dedup(AllRows(items, lookup))
  {
    dates := [];
    for i := 0 to |items|
      invariant dates == Dedup(AllRows(items[..i], lookup))
    {
      assert items[..i + 1][..i] == items[..i];
      dates := AppendNew(dates, lookup(Pattern(items[i])), AllRows(items[..i], lookup));
    }
    assert items[..|items|] == items;
  }

  /** The result holds every date found and no other. */
  lemma {:induction false} DedupMembers<T>(s: seq<T>)
    ensures forall x :: x in Dedup(s) <==> x in s
    decreases |s|
  {
    if s != [] {
      DedupMembers(s[..|s| - 1]);
      assert s == s[..|s| - 1] + [s[|s| - 1]];
    }
  }

  predicate Distinct<T(==)>(s: seq<T>)
  {
    forall i, j :: 0 <= i < j < |s| ==> s[i] != s[j]
  }

  /** ... each at most once ... */
  lemma {:induction false} DedupDistinct<T>(s: seq<T>)
    ensures Distinct(Dedup(s))
    decreases |s|
  {
    if s != [] {
      DedupDistinct(s[..|s| - 1]);
    }
  }

  /** ... and dates already distinct are kept as they are, in order. */
  lemma {:induction false} DedupOfDistinct<T>(s: seq<T>)
    requires Distinct(s)
    ensures Dedup(s) == s
    decreases |s|
  {
    if s != [] {
      var n := |s| - 1;
      assert Distinct(s[..n]);
      DedupOfDistinct(s[..n]);
      assert s[n] !in s[..n];
      assert s[..n] + [s[n]] == s;
    }
  }

  /** A date found first for an earlier item comes before one found only
      for a later item: the result lists the first item's dates first. */
  lemma DedupPrefix<T>(s: seq<T>, t: seq<T>)
    ensures |Dedup(s)| <= |Dedup(s + t)| && Dedup(s + t)[..|Dedup(s)|] == Dedup(s)
  {
    DedupExtends(s, t);
  }

  lemma {:induction false} DedupExtends<T>(s: seq<T>, t: seq<T>)
    ensures exists u :: Dedup(s + t) == Dedup(s) + u
    decreases |t|
  {
    if t == [] {
      assert s + t == s && Dedup(s + t) == Dedup(s) + [];
    } else {
      var m := |t| - 1;
      DedupExtends(s, t[..m]);
      var u :| Dedup(s + t[..m]) == Dedup(s) + u;
      assert (s + t)[..|s + t| - 1] == s + t[..m];
      assert (s + t)[|s + t| - 1] == t[m];
      if t[m] in Dedup(s + t[..m]) {
        assert Dedup(s + t) == Dedup(s) + u;
      } else {
        assert Dedup(s + t) == Dedup(s) + (u + [t[m]]);
      }
    }
  }

  /** `dates_str_with` in `get_meal_dates_without`: the dates' MySQL texts
      joined with commas, without quotes. */
  function ExclusionList(dates: seq<Date>): string
  {
    Join(",", MysqlTexts(dates))
  }

  const WithoutHead := "SELECT date FROM food_diary_2 \n                    WHERE date BETWEEN cast(%s as date) and cast(%s as date)\n                    AND meal = %s\n                    AND date NOT IN ("

  /** `get_meal_dates_without(conn, date1, date2, meal_kind, *food_items)`:
      the query excluding the dates `get_meal_dates_with` finds, and the
      MySQL texts of the dates it returns. */
  method GetMealDatesWithout(items: seq<string>, lookup: string -> seq<Date>, run: string -> seq<Date>)
    returns (query: string, dates: seq<string>)
    ensures query == WithoutHead + ExclusionList(Dedup(AllRows(items, lookup))) + ")"
    ensures |dates| == |run(query)| && forall k :: 0 <= k < |dates| ==> dates[k] == MysqlDateStr(run(query)[k])
  {
    var datesWith := GetMealDatesWith(items, lookup);
    var datesStrWith := Join(",", MysqlTexts(datesWith));
    query := WithoutHead + datesStrWith + ")";
    var rows := run(query);
    dates := seq(|rows|, k requires 0 <= k < |rows| => MysqlDateStr(rows[k]));
  }

  /** Ten-character parts joined with commas sit eleven characters
      apart. */
  lemma CommaLayout(parts: seq<string>)
    requires FixedWidth(",", parts, 10)
    ensures var list := Join(",", parts);
      && |list| == 11 * |parts| - 1
      && (forall k :: 0 <= k < |parts| ==> list[11 * k..11 * k + 10] == parts[k])
      && (forall k :: 0 <= k < |parts| - 1 ==> list[11 * k + 10] == ',')
  {
    var list := Join(",", parts);
    JoinFixedLength(",", parts, 10);
    StrideIsProduct(|parts|, 10);
    forall k | 0 <= k < |parts|
      ensures list[11 * k..11 * k + 10] == parts[k]
    {
      JoinFixedPart(",", parts, 10, k);
      StrideIsProduct(k, 10);
    }
    forall k | 0 <= k < |parts| - 1
      ensures list[11 * k + 10] == ','
    {
      JoinFixedSeparator(",", parts, 10, k);
      StrideIsProduct(k, 10);
    }
  }

  function MysqlTexts(dates: seq<Date>): (r: seq<string>)
    ensures |r| == |dates| && forall k :: 0 <= k < |dates| ==> r[k] == MysqlDateStr(dates[k])
  {
    seq(|dates|, k requires 0 <= k < |dates| => MysqlDateStr(dates[k]))
  }

  /** For valid dates the exclusion list is each date's bare `Y-m-d`, in
      order, eleven characters apart with a comma between neighbours; no
      quotes surround them. */
  lemma ExclusionListLayout(dates: seq<Date>)
    requires dates != [] && forall k :: 0 <= k < |dates| ==> dates[k].Valid()
    ensures var list := ExclusionList(dates);
      && |list| == 11 * |dates| - 1
      && (forall k :: 0 <= k < |dates| ==> list[11 * k..11 * k + 10] == MysqlDateStr(dates[k]))
      && (forall k :: 0 <= k < |dates| - 1 ==> list[11 * k + 10] == ',')
  {
    var parts := MysqlTexts(dates);
    assert ExclusionList(dates) == Join(",", parts);
    assert FixedWidth(",", parts, 10);
    CommaLayout(parts);
  }
}
