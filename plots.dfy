/** `static/plots.js`: the date and time formatting behind the CGM plots
    page, the minute labels of the plotted points, the page and data URLs,
    and the global plot duration.  A JavaScript `Date` is given by the
    local-time fields its getters return; parsing date text into a `Date`
    is the browser's and is a parameter. */
module Plots {
  import opened Common
  import opened Strptime
  import MealGraphsFdQuery

  /** `getFullYear()`, the 0-based `getMonth()`, `getDate()`, `getHours()`
      and `getMinutes()` of a `Date`. */
  datatype JsDate = JsDate(fullYear: int, month: nat, date: nat, hours: nat, minutes: nat)
  {
    /** Fields a `Date` can report. */
    predicate Valid()
    {
      0 <= fullYear && month < 12 && 1 <= date <= DaysIn(fullYear, month + 1) && hours < 24 && minutes < 60
    }
  }

  /** `n < 10 ? "0" + n : "" + n` for an integer `n`. */
  function PadJs(n: int): (s: string)
    ensures n >= 0 ==> s == Pad2(n)
  {
    if n < 10 then "0" + IntToString(n) else IntToString(n)
  }

  /** `date_to_ISO_datestring(date)`: the year as JavaScript prints it,
      then the 1-based month and the day with two digits. */
  function DateToIsoDatestring(d: JsDate): (r: string)
    ensures d.Valid() && 1000 <= d.fullYear ==> r == YmdString(Date(d.fullYear, d.month + 1, d.date))
  {
    IntToString(d.fullYear) + "-" + PadJs(d.month + 1) + "-" + PadJs(d.date)
  }

  /** `date_to_ISO_timestring(date)`: hours and minutes with two digits. */
  function DateToIsoTimestring(d: JsDate): (r: string)
    ensures r == MealGraphsFdQuery.TimeStr(DateTime(1900, 1, 1, d.hours, d.minutes, 0))
  {
    PadJs(d.hours) + ":" + PadJs(d.minutes)
  }

  /** The date string reads back with `%Y-%m-%d` as the `Date`'s calendar
      day, for four-digit years. */
  lemma IsoDateRoundTrip(d: JsDate)
    requires d.Valid() && 1000 <= d.fullYear <= 9999
    ensures |DateToIsoDatestring(d)| == 10
    ensures Parse(DateToIsoDatestring(d), YmdDash) == Ok(DateTime(d.fullYear, d.month + 1, d.date, 0, 0, 0))
  {
    var dt := DateTime(d.fullYear, d.month + 1, d.date, 0, 0, 0);
    YmdDashText(dt);
    YmdDashRoundTrip(dt);
  }

  /** The time string reads back with `%H:%M` as the `Date`'s hour and
      minute. */
  lemma IsoTimeRoundTrip(d: JsDate)
    requires d.Valid()
    ensures |DateToIsoTimestring(d)| == 5
    ensures Parse(DateToIsoTimestring(d), MealGraphsFdQuery.HourMinute) == Ok(DateTime(1900, 1, 1, d.hours, d.minutes, 0))
  {
    MealGraphsFdQuery.TimeStrRoundTrip(DateTime(1900, 1, 1, d.hours, d.minutes, 0));
  }

  /** A JavaScript value passed as a duration: a number or anything else. */
  datatype JsValue = Number(x: real) | NotNumber

  /** `Math.round(x)`: the nearest integer, halves rounded up. */
  function Round(x: real): (n: int)
    ensures n as real - 0.5 <= x < n as real + 0.5
  {
    (x + 0.5).Floor
  }

  /** The duration `to_duration` accepts and the integer it makes of it. */
  function AcceptedDuration(duration: JsValue): (r: Option<int>)
    ensures r.Some? <==> duration.Number? && 0.0 < duration.x < 24.0
    ensures r.Some? ==> 0 <= r.value <= 24 && r.value == Round(duration.x)
  {
    if duration.Number? && duration.x > 0.0 && duration.x < 24.0 then Some(Round(duration.x)) else None
  }

  /** Rounding lets `0.4` through as a zero-hour plot and `23.6` as a
      whole day. */
  lemma DurationRoundsToEnds()
    ensures AcceptedDuration(Number(0.4)) == Some(0)
    ensures AcceptedDuration(Number(23.6)) == Some(24)
  {
  }

  /** The page's globals. */
  class PlotsPage {
    var durationHours: int

    constructor (durationHours: int)
      ensures this.durationHours == durationHours
    {
      this.durationHours := durationHours;
    }

    /** `to_duration(duration)`: a number strictly between 0 and 24 is
        rounded, stored in `duration_hours` and returned; anything else
        returns `undefined` and leaves the global alone. */
    method ToDuration(duration: JsValue) returns (r: Option<int>)
      modifies this
      ensures r == AcceptedDuration(duration)
      ensures r.Some? ==> durationHours == r.value
      ensures r.None? ==> durationHours == old(durationHours)
    {
      if duration.Number? && duration.x > 0.0 && duration.x < 24.0 {
        var rounded := Round(duration.x);
        durationHours := rounded;
        return Some(rounded);
      }
      return None;
    }
  }

  /** `datetime_to_minutes(datetime)`: minutes since midnight. */
  function DatetimeToMinutes(d: JsDate): (m: int)
    ensures d.Valid() ==> 0 <= m < 1440 && m / 60 == d.hours && m % 60 == d.minutes
  {
    d.hours * 60 + d.minutes
  }

  /** JavaScript's `a % b`, whose sign is that of `a`. */
  function JsRem(a: int, b: int): int
    requires b > 0
  {
    if a >= 0 then a % b else -((-a) % b)
  }

  /** `minutes_to_timestr(mins)`: hours (modulo a day) and minutes with two
      digits.  `Math.floor(mins / 60)` is Dafny's division by a positive
      divisor. */
  function MinutesToTimestr(mins: int): (r: string)
    ensures mins >= 0 ==> r == Pad2((mins / 60) % 24) + ":" + Pad2(mins % 60) && |r| == 5
  {
    var hh := mins / 60;
    var mm := mins - hh * 60;
    var hh' := JsRem(hh, 24);
    PadJs(hh') + ":" + PadJs(mm)
  }

  /** `80` minutes is `01:20`. */
  lemma EightyMinutes()
    ensures MinutesToTimestr(80) == "01:20"
  {
    assert 80 / 60 == 1 && 80 - 1 * 60 == 20 && JsRem(1, 24) == 1;
    assert PadJs(1) == "01" by {
      assert NatToString(1) == "1";
    }
    assert PadJs(20) == "20" by {
      assert NatToString(20) == NatToString(2) + [DigitChar(0)];
    }
  }

  /** The label of a `Date`'s minute count is its time string. */
  lemma MinutesOfDate(d: JsDate)
    requires d.Valid()
    ensures MinutesToTimestr(DatetimeToMinutes(d)) == DateToIsoTimestring(d)
  {
  }

  /** Labels repeat every day. */
  lemma MinutesWrapDaily(mins: int)
    requires mins >= 0
    ensures MinutesToTimestr(mins + 1440) == MinutesToTimestr(mins)
  {
    var h := mins / 60;
    assert (mins + 1440) / 60 == h + 24;
    assert (h + 24) % 24 == h % 24;
    assert (mins + 1440) % 60 == mins % 60;
  }

  /** `timesteps(startmin, endmin)`: every fifth minute from `startmin` up
      to and including `endmin`. */
  method Timesteps(startmin: int, endmin: int) returns (vals: seq<int>)
    ensures startmin > endmin ==> vals == []
    ensures startmin <= endmin ==> |vals| == (endmin - startmin) / 5 + 1
    ensures forall i :: 0 <= i < |vals| ==> vals[i] == startmin + 5 * i && vals[i] <= endmin
  {
    vals := [];
    var mins := startmin;
    while mins <= endmin
      invariant mins == startmin + 5 * |vals|
      invariant startmin <= endmin ==> mins <= endmin + 5
      invariant startmin > endmin ==> vals == []
      invariant forall i :: 0 <= i < |vals| ==> vals[i] == startmin + 5 * i && vals[i] <= endmin
      decreases endmin - mins + 5
    {
      vals := vals + [mins];
      mins := mins + 5;
    }
    if startmin <= endmin {
      assert endmin < startmin + 5 * |vals| <= endmin + 5;
      DivideSteps(endmin - startmin, |vals|);
    }
  }

  lemma DivideSteps(span: nat, n: nat)
    requires span < 5 * n <= span + 5
    ensures n == span / 5 + 1
  {
  }

  /** `data_url` and `page_url` share this: the base, the start's date and
      time, and the duration, separated by slashes.  `parse` stands for
      `new Date(date + " " + time)`. */
  function StartUrl(base: string, date: string, time: string, duration: int, parse: string -> JsDate): string
  {
    base + StartPath(date, time, duration, parse)
  }

  /** What follows the base: the start's date and time and the duration. */
  function StartPath(date: string, time: string, duration: int, parse: string -> JsDate): string
  {
    var start := parse(date + " " + time);
    DateToIsoDatestring(start) + "/" + DateToIsoTimestring(start) + "/" + IntToString(duration)
  }

  /** `data_url(date, time, duration)`, on the global `data_url_base`. */
  function DataUrl(dataUrlBase: string, date: string, time: string, duration: int, parse: string -> JsDate): (url: string)
    ensures |dataUrlBase| <= |url| && url[..|dataUrlBase|] == dataUrlBase
    ensures url[|dataUrlBase|..] == StartPath(date, time, duration, parse)
  {
    var url := StartUrl(dataUrlBase, date, time, duration, parse);
    assert url == dataUrlBase + StartPath(date, time, duration, parse);
    url
  }

  /** `page_url(date, time, duration)`, on the global `page_url_base`. */
  function PageUrl(pageUrlBase: string, date: string, time: string, duration: int, parse: string -> JsDate): (url: string)
    ensures |pageUrlBase| <= |url| && url[..|pageUrlBase|] == pageUrlBase
    ensures url[|pageUrlBase|..] == StartPath(date, time, duration, parse)
  {
    var url := StartUrl(pageUrlBase, date, time, duration, parse);
    assert url == pageUrlBase + StartPath(date, time, duration, parse);
    url
  }

  /** The data URL and the page URL of one start differ only in their
      base: what follows the base is the same. */
  lemma DataAndPageAgree(dataUrlBase: string, pageUrlBase: string, date: string, time: string, duration: int,
                         parse: string -> JsDate)
    ensures DataUrl(dataUrlBase, date, time, duration, parse)[|dataUrlBase|..] ==
            PageUrl(pageUrlBase, date, time, duration, parse)[|pageUrlBase|..]
  {
  }

  /** A start URL is the base, ten characters that read back as the start's
      date, a slash, five that read back as its time, a slash and the
      duration. */
  lemma StartUrlReadsBack(base: string, date: string, time: string, duration: int, parse: string -> JsDate)
    requires parse(date + " " + time).Valid() && 1000 <= parse(date + " " + time).fullYear <= 9999
    ensures var url := StartUrl(base, date, time, duration, parse);
      var start := parse(date + " " + time);
      var b := |base|;
      && |url| == b + 17 + |IntToString(duration)|
      && url[..b] == base && url[b + 10] == '/' && url[b + 16] == '/'
      && Parse(url[b..b + 10], YmdDash) == Ok(DateTime(start.fullYear, start.month + 1, start.date, 0, 0, 0))
      && Parse(url[b + 11..b + 16], MealGraphsFdQuery.HourMinute) == Ok(DateTime(1900, 1, 1, start.hours, start.minutes, 0))
      && url[b + 17..] == IntToString(duration)
  {
    var start := parse(date + " " + time);
    IsoDateRoundTrip(start);
    IsoTimeRoundTrip(start);
    var ds, ts, dur := DateToIsoDatestring(start), DateToIsoTimestring(start), IntToString(duration);
    UrlSlices(base, ds, ts, dur);
  }

  lemma UrlSlices(base: string, ds: string, ts: string, dur: string)
    requires |ds| == 10 && |ts| == 5
    ensures var url := base + (ds + "/" + ts + "/" + dur);
      var b := |base|;
      && |url| == b + 17 + |dur|
      && url[..b] == base && url[b..b + 10] == ds && url[b + 10] == '/'
      && url[b + 11..b + 16] == ts && url[b + 16] == '/' && url[b + 17..] == dur
  {
    var path := ds + "/" + ts + "/" + dur;
    assert path[..10] == ds && path[10] == '/' && path[11..16] == ts && path[16] == '/' && path[17..] == dur;
    var url := base + path;
    assert url[|base|..] == path;
  }
}
