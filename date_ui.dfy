/** `date_ui.py`: `to_datestr(date, time)` turns a human date and an optional
    time into a MySQL datetime string and the `datetime` it denotes. */
module DateUi {
  import opened Common
  import opened Strptime

  /** `s.count(c)` for a one-character `c`. */
  function Count(s: string, c: char): (n: nat)
    ensures n <= |s|
    decreases |s|
  {
    if s == [] then 0 else Count(s[..|s| - 1], c) + (if s[|s| - 1] == c then 1 else 0)
  }

  lemma {:induction false} CountAppend(s: string, t: string, c: char)
    ensures Count(s + t, c) == Count(s, c) + Count(t, c)
    decreases |t|
  {
    if t == [] {
      assert s + t == s;
    } else {
      assert (s + t)[..|s + t| - 1] == s + t[..|t| - 1];
      CountAppend(s, t[..|t| - 1], c);
    }
  }

  lemma CountSeconds()
    ensures Count(":00", ':') == 1 && Count("00", ':') == 0
  {
    assert ":00"[..2] == ":0" && ":0"[..1] == ":" && ":"[..0] == [];
    assert "00"[..1] == "0" && "0"[..0] == [];
  }

  /** The time `to_datestr` uses: none means midnight, and a time with a
      single colon gets `':00'` seconds; any other text is used as given. */
  function FullTime(time: Option<string>): (t: string)
    ensures time.None? ==> t == "00:00:00"
    ensures time.Some? && Count(time.value, ':') == 1 ==> t == time.value + ":00" && Count(t, ':') == 2
    ensures time.Some? && Count(time.value, ':') != 1 ==> t == time.value
  {
    if time.None? then "00:00:00"
    else if Count(time.value, ':') == 1 then
      CountAppend(time.value, ":00", ':');
      CountSeconds();
      time.value + ":00"
    else time.value
  }

  /** `to_datestr(date, time)`: `strptime` of `date + ' ' + time` with
      `'%Y-%m-%d %H:%M:%S'`, returned with its `strftime` in the same
      format, which Python 2.7 refuses for years before 1900. */
  function ToDatestr(date: string, time: Option<string>): (r: Result<(string, DateTime)>)
    ensures r.Err? ==> r.error == ValueError
    ensures r.Ok? <==> Parse(date + " " + FullTime(time), YmdHms).Ok? && Parse(date + " " + FullTime(time), YmdHms).value.year >= 1900
    ensures r.Ok? ==> r.value.1 == Parse(date + " " + FullTime(time), YmdHms).value
    ensures r.Ok? ==> r.value.0 == Format(YmdHms, r.value.1) && Constructible(r.value.1)
  {
    match Parse(date + " " + FullTime(time), YmdHms)
    case Err(e) => Err(e)
    case Ok(dt) =>
      match Strftime(YmdHms, dt)
      case Err(e) => Err(e)
      case Ok(s) => Ok((s, dt))
  }

  /** The string returned parses back to the `datetime` returned, and has
      the 19 characters of `YYYY-MM-DD HH:MM:SS`. */
  lemma ToDatestrRoundTrip(date: string, time: Option<string>)
    requires ToDatestr(date, time).Ok?
    ensures var (s, dt) := ToDatestr(date, time).value;
      Parse(s, YmdHms) == Ok(dt) && |s| == 19
  {
    var (s, dt) := ToDatestr(date, time).value;
    YmdHmsRoundTrip(dt);
    YmdHmsLength(dt);
  }

  /** Leaving out the seconds is the same as giving `:00`. */
  lemma SecondsDefault(date: string, hm: string)
    requires Count(hm, ':') == 1
    ensures ToDatestr(date, Some(hm)) == ToDatestr(date, Some(hm + ":00"))
  {
    CountAppend(hm, ":00", ':');
    CountSeconds();
    assert FullTime(Some(hm + ":00")) == hm + ":00";
  }

  /** Leaving out the time is the same as giving midnight. */
  lemma TimeDefault(date: string)
    ensures ToDatestr(date, None) == ToDatestr(date, Some("00:00:00"))
  {
    CountSeconds();
    CountAppend("00", ":00", ':');
    assert "00" + ":00" == "00:00";
    CountAppend("00:00", ":00", ':');
    assert "00:00" + ":00" == "00:00:00";
  }

  const MonthFifteen := "2018-15-01 05:55:00"

  /** `%m` takes only the `1` of `15`, and the `-` that must follow it is
      not there. */
  lemma MonthFifteenStuck(f: DateTime)
    ensures Match(YmdHms.tail.tail, MonthFifteen, 5, f) == None
  {
    var s := MonthFifteen;
    assert Alternatives(Lit('-'), s, 6) == [];
    assert Alternatives(Month, s, 5) == [1];
  }

  lemma FiveFiftyFive()
    ensures FullTime(Some("05:55")) == "05:55:00"
  {
    CountAppend("05", ":55", ':');
    assert "05" + ":55" == "05:55";
    assert Count(":55", ':') == 1 by {
      assert ":55"[..2] == ":5" && ":5"[..1] == ":" && ":"[..0] == [];
    }
    CountSeconds();
  }

  /** Month 15 is refused. */
  lemma MonthFifteenRaises()
    ensures ToDatestr("2018-15-01", Some("05:55")).Err?
  {
    var s := MonthFifteen;
    FiveFiftyFive();
    assert "2018-15-01" + " " + FullTime(Some("05:55")) == s;
    assert Alternatives(Year4, s, 0) == [4];
    assert Alternatives(Lit('-'), s, 4) == [1];
    MonthFifteenStuck(Store(Year4, NumeralValue(s[0..4]), Defaults));
  }
}
