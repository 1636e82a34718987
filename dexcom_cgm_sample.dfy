/** `dexcom_cgm_sample.py`: parsing Dexcom's date strings, and the
    case analysis of `get_cgm` over the `realtime_cgm2` table, held in
    memory.  Times are whole seconds; the network requests are a parameter
    `fetch` from the requested count to the rows Dexcom returns, and
    `date_ui.to_rtime` (which the shipped `date_ui.py` does not define) is
    a parameter `toRtime`. */
module DexcomCgmSample {
  import opened Common

  // ---------------------------------------------------------------
  // TREND_VALUES
  // ---------------------------------------------------------------

  /** Dexcom's trend names and the numbers stored for them. */
  const TrendValues: map<string, int> := map[
    "None" := 0, "DoubleUp" := 1, "SingleUp" := 2, "FortyFiveUp" := 3, "Flat" := 4,
    "FortyFiveDown" := 5, "SingleDown" := 6, "DoubleDown" := 7, "NotComputable" := 8,
    "RateOutOfRange" := 9]

  /** The ten names have the ten numbers 0 to 9, one each. */
  lemma TrendValuesOneToOne()
    ensures forall a :: a in TrendValues ==> 0 <= TrendValues[a] < 10
    ensures forall n :: 0 <= n < 10 ==> n in TrendValues.Values
    ensures forall a, b :: a in TrendValues && b in TrendValues && TrendValues[a] == TrendValues[b] ==> a == b
  {
    assert TrendValues.Keys == {"None", "DoubleUp", "SingleUp", "FortyFiveUp", "Flat", "FortyFiveDown",
                                "SingleDown", "DoubleDown", "NotComputable", "RateOutOfRange"};
    assert TrendValues["None"] == 0 && TrendValues["DoubleUp"] == 1 && TrendValues["SingleUp"] == 2;
    assert TrendValues["FortyFiveUp"] == 3 && TrendValues["Flat"] == 4 && TrendValues["FortyFiveDown"] == 5;
    assert TrendValues["SingleDown"] == 6 && TrendValues["DoubleDown"] == 7;
    assert TrendValues["NotComputable"] == 8 && TrendValues["RateOutOfRange"] == 9;
  }

  /** `TREND_VALUES.get(trend_code)`. */
  function TrendNum(code: Option<string>): (n: Option<int>)
    ensures n.Some? ==> 0 <= n.value < 10
  {
    if code.Some? && code.value in TrendValues then
      TrendValuesOneToOne();
      Some(TrendValues[code.value])
    else None
  }

  // ---------------------------------------------------------------
  // trim_quotes
  // ---------------------------------------------------------------

  /** `trim_quotes`: `x[1:-1]` when the first and last characters are double
      quotes, else `x`.  Indexing `x[0]` raises on the empty string. */
  function TrimQuotes(x: string): Result<string>
  {
    if x == [] then Err(IndexError)
    else if x[0] == '"' && x[|x| - 1] == '"' then Ok(if |x| >= 2 then x[1..|x| - 1] else [])
    else Ok(x)
  }

  /** Quoting and trimming round-trip. */
  lemma TrimQuotesRoundTrip(s: string)
    ensures TrimQuotes("\"" + s + "\"") == Ok(s)
  {
    var q := "\"" + s + "\"";
    assert q[1..|q| - 1] == s;
  }

  /** Exactly one pair of quotes is removed. */
  lemma TrimQuotesOnePair(s: string)
    ensures TrimQuotes("\"\"" + s + "\"\"") == Ok("\"" + s + "\"")
  {
    var q := "\"\"" + s + "\"\"";
    assert q[1..|q| - 1] == "\"" + s + "\"";
  }

  /** A nonempty string without a surrounding pair comes back unchanged. */
  lemma TrimQuotesUnquoted(x: string)
    requires x != [] && (x[0] != '"' || x[|x| - 1] != '"')
    ensures TrimQuotes(x) == Ok(x)
  {
  }

  /** The result never gets longer, and loses two characters exactly when
      quotes were trimmed from a string of two or more. */
  lemma TrimQuotesLength(x: string)
    requires |x| >= 2
    ensures TrimQuotes(x).Ok?
    ensures |TrimQuotes(x).value| == (if x[0] == '"' && x[|x| - 1] == '"' then |x| - 2 else |x|)
  {
  }

  // ---------------------------------------------------------------
  // extract_unix_epoch, convert_to_datetime
  // ---------------------------------------------------------------

  const Pref: string := "Date("

  /** `str.isdigit`, for ASCII digits. */
  predicate IsDigitString(s: string) { |s| > 0 && AllDigits(s) }

  /** The string is `Date(...)`. */
  predicate Wrapped(s: string) { |s| >= 5 && s[..5] == Pref && s[|s| - 1] == ')' }

  /** `extract_unix_epoch`: the text inside `Date(` and `)`, cut at the
      first `-` when there is one; `None` when the wrapper is missing; a
      body of no digits and no `-` reaches the undefined `log_write`. */
  function ExtractUnixEpoch(s: string): Result<Option<string>>
  {
    if Wrapped(s) then
      assert s[4] == '(';
      var body := s[5..|s| - 1];
      var tz := IndexOf(body, '-');
      if tz == |body| && IsDigitString(body) then Ok(Some(body))
      else if tz < |body| then Ok(Some(body[..tz]))
      else Err(NameError)
    else Ok(None)
  }

  /** The digits of `Date(<digits>)` are extracted. */
  lemma ExtractDigits(d: string)
    requires IsDigitString(d)
    ensures ExtractUnixEpoch(Pref + d + ")") == Ok(Some(d))
  {
    var s := Pref + d + ")";
    assert s[..5] == Pref;
    assert s[5..|s| - 1] == d;
    IndexOfNone(d, '-');
  }

  /** The part before the time zone of `Date(<digits>-<zone>)` is extracted. */
  lemma ExtractZone(d: string, zone: string)
    requires '-' !in d
    ensures ExtractUnixEpoch(Pref + d + "-" + zone + ")") == Ok(Some(d))
  {
    var s := Pref + d + "-" + zone + ")";
    assert s[..5] == Pref;
    var body := s[5..|s| - 1];
    assert body == d + "-" + zone;
    IndexOfAt(body, '-', |d|);
    assert body[..|d|] == d;
  }

  /** Exactly the unwrapped strings give `None`. */
  lemma ExtractUnwrapped(s: string)
    ensures ExtractUnixEpoch(s) == Ok(None) <==> !Wrapped(s)
  {
  }

  /** A wrapped body without digits or a `-` raises `NameError`. */
  lemma ExtractUndefinedLog(s: string)
    requires Wrapped(s) && '-' !in s[5..|s| - 1] && !IsDigitString(s[5..|s| - 1])
    ensures ExtractUnixEpoch(s) == Err(NameError)
  {
    assert s[4] == '(';
    IndexOfNone(s[5..|s| - 1], '-');
  }

  lemma IndexOfNone(s: string, c: char)
    requires c !in s
    ensures IndexOf(s, c) == |s|
  {
  }

  lemma IndexOfAt(s: string, c: char, i: nat)
    requires i < |s| && s[i] == c && c !in s[..i]
    ensures IndexOf(s, c) == i
  {
    IndexOfFirst(s, c);
  }

  /** `convert_to_datetime`, as seconds since the epoch: the extracted
      milliseconds `// 1000`, or 0 for an epoch that is not all digits.
      `None.isdigit()` raises `AttributeError`. */
  function ConvertToDatetime(s: string): (r: Result<int>)
    ensures r.Ok? ==> r.value >= 0
  {
    match ExtractUnixEpoch(s)
    case Err(e) => Err(e)
    case Ok(None) => Err(AttributeError)
    case Ok(Some(epoch)) => if IsDigitString(epoch) then Ok(DigitsValue(epoch) / 1000) else Ok(0)
  }

  /** `Date(<ms>)` and `Date(<ms>-<zone>)` convert to `ms // 1000`
      seconds: the zone is dropped, not applied. */
  lemma ConvertMilliseconds(ms: nat, zone: string)
    ensures ConvertToDatetime(Pref + NatToString(ms) + ")") == Ok(ms / 1000)
    ensures ConvertToDatetime(Pref + NatToString(ms) + "-" + zone + ")") == Ok(ms / 1000)
  {
    var d := NatToString(ms);
    DigitsOfNat(ms);
    ExtractDigits(d);
    ExtractZone(d, zone);
  }

  /** A time zone with no digits before it converts to the epoch itself. */
  lemma ConvertNoDigits(zone: string)
    ensures ConvertToDatetime(Pref + "-" + zone + ")") == Ok(0)
  {
    ExtractZone("", zone);
  }

  /** Text without the `Date(...)` wrapper raises. */
  lemma ConvertUnwrapped(s: string)
    requires !Wrapped(s)
    ensures ConvertToDatetime(s) == Err(AttributeError)
  {
  }

  // ---------------------------------------------------------------
  // parse_cgm_values
  // ---------------------------------------------------------------

  /** One dictionary of Dexcom's JSON: `WT`, `ST`, `DT`, `Value`, `Trend`. */
  datatype RawReading = RawReading(wt: Option<string>, st: Option<string>, dt: Option<string>, value: Option<int>, trend: Option<string>)

  /** A dictionary after its three times are converted. */
  datatype Reading = Reading(wt: int, st: int, dt: int, value: Option<int>, trend: Option<string>)

  /** `d[k] = convert_to_datetime(d[k])`: a missing key raises `KeyError`. */
  function ConvertField(f: Option<string>): Result<int>
  {
    if f.None? then Err(KeyError) else ConvertToDatetime(f.value)
  }

  /** Converting `WT`, `ST` and `DT`, in that order. */
  function ParseOne(d: RawReading): Result<Reading>
  {
    var wt := ConvertField(d.wt);
    if wt.Err? then Err(wt.error)
    else
      var st := ConvertField(d.st);
      if st.Err? then Err(st.error)
      else
        var dt := ConvertField(d.dt);
        if dt.Err? then Err(dt.error)
        else Ok(Reading(wt.value, st.value, dt.value, d.value, d.trend))
  }

  /** The dictionaries converted in order; the first failure is raised. */
  function ParseAll(raw: seq<RawReading>): (r: Result<seq<Reading>>)
    ensures r.Ok? ==> |r.value| == |raw|
  {
    MapAll(raw, ParseOne)
  }

  /** The parse succeeds exactly when every dictionary converts, and then
      each converted dictionary comes from its raw one. */
  lemma ParseAllMeaning(raw: seq<RawReading>)
    ensures ParseAll(raw).Ok? <==> forall k :: 0 <= k < |raw| ==> ParseOne(raw[k]).Ok?
    ensures ParseAll(raw).Ok? ==> forall k :: 0 <= k < |raw| ==> ParseAll(raw).value[k] == ParseOne(raw[k]).value
  {
    MapAllMeaning(raw, ParseOne);
  }

  /** The check `not dt == st == dt` as written, which compares `DT` with
      `ST` only. */
  predicate Disagree(p: Reading) { !(p.dt == p.st && p.st == p.dt) }

  /** `WT` never takes part in the check: a `WT` different from the other
      two is not logged. */
  lemma WtNeverCompared(p: Reading)
    requires p.st == p.dt
    ensures !Disagree(p)
  {
  }

  lemma WtNeverComparedExample()
    ensures var p := Reading(0, 1, 1, None, None); p.wt != p.st && !Disagree(p)
  {
  }

  /** The evidently intended check, `not wt == st == dt`. */
  predicate DisagreeIntended(p: Reading) { !(p.wt == p.st && p.st == p.dt) }

  /** The intended check logs exactly the readings whose three times are not
      all equal, and logs every reading the written check logs. */
  lemma DisagreeIntendedExact(p: Reading)
    ensures !DisagreeIntended(p) <==> p.wt == p.st == p.dt
    ensures Disagree(p) ==> DisagreeIntended(p)
  {
  }

  /** `parse_cgm_values` over the decoded JSON list: the converted
      dictionaries, and the positions whose times the check logs as
      disagreeing. */
  method ParseCgmValues(raw: seq<RawReading>) returns (r: Result<seq<Reading>>, logged: seq<nat>)
    ensures r == ParseAll(raw)
    ensures r.Ok? ==> forall k :: k in logged <==> 0 <= k < |raw| && Disagree(r.value[k])
  {
    var out := [];
    logged := [];
    for i := 0 to |raw|
      invariant ParseAll(raw[..i]) == Ok(out)
      invariant forall k :: k in logged <==> 0 <= k < i && Disagree(out[k])
    {
      assert raw[..i + 1][..i] == raw[..i];
      var p := ParseOne(raw[i]);
      if p.Err? {
        MapAllErr(raw, ParseOne, i + 1);
        return Err(p.error), logged;
      }
      out := out + [p.value];
      if Disagree(p.value) {
        logged := logged + [i];
      }
    }
    assert raw[..|raw|] == raw;
    r := Ok(out);
  }

  // ---------------------------------------------------------------
  // realtime_cgm2 and get_cgm
  // ---------------------------------------------------------------

  /** A row of `realtime_cgm2` for the one user, keyed by `rtime`. */
  datatype CgmRow = CgmRow(dexcomTime: Option<int>, mgdl: Option<int>, trend: Option<int>, trendCode: Option<string>)

  /** `t` is the latest rtime with a non-null `mgdl`. */
  predicate IsLatest(rows: map<int, CgmRow>, t: int)
  {
    t in rows && rows[t].mgdl.Some? && forall u :: u in rows && rows[u].mgdl.Some? ==> u <= t
  }

  /** There is one latest rtime. */
  lemma LatestUnique(rows: map<int, CgmRow>, t: int, u: int)
    requires IsLatest(rows, t) && IsLatest(rows, u)
    ensures t == u
  {
  }

  /** The row `write_cgm` stores: Dexcom's time, value, trend number and
      trend name. */
  function CgmRowOf(d: Reading, wt: int): CgmRow
  {
    CgmRow(Some(wt), d.value, TrendNum(d.trend), d.trend)
  }

  /** `write_cgm`'s insert, or update of all four columns of an existing
      row. */
  function UpsertCgm(rows: map<int, CgmRow>, d: Reading, wt: int, rtime: int): map<int, CgmRow>
  {
    rows[rtime := CgmRowOf(d, wt)]
  }

  /** `write_no_data`: a new row has no Dexcom time; an existing row keeps
      its Dexcom time and loses its value and trend. */
  function UpsertNoData(rows: map<int, CgmRow>, rtime: int): map<int, CgmRow>
  {
    rows[rtime := if rtime in rows then rows[rtime].(mgdl := None, trend := None, trendCode := None)
                  else CgmRow(None, None, None, None)]
  }

  /** The rtime `replace_missing_data` files a reading under: its `WT`
      rounded by `to_rtime`, plus five minutes. */
  function ReplacedRtime(d: Reading, toRtime: int -> int): int { toRtime(d.wt) + 300 }

  /** `replace_missing_data`: every reading written in order. */
  function ReplaceAll(rows: map<int, CgmRow>, values: seq<Reading>, toRtime: int -> int): map<int, CgmRow>
  {
    if values == [] then rows
    else
      var n := |values| - 1;
      var d := values[n];
      UpsertCgm(ReplaceAll(rows, values[..n], toRtime), d, d.wt, ReplacedRtime(d, toRtime))
  }

  /** When the readings fall on different rtimes, each is stored under its
      own, and nothing else but those rtimes changes. */
  lemma {:induction false} ReplaceAllLands(rows: map<int, CgmRow>, values: seq<Reading>, toRtime: int -> int)
    requires forall j, k :: 0 <= j < k < |values| ==> ReplacedRtime(values[j], toRtime) != ReplacedRtime(values[k], toRtime)
    ensures forall k :: 0 <= k < |values| ==>
      && ReplacedRtime(values[k], toRtime) in ReplaceAll(rows, values, toRtime)
      && ReplaceAll(rows, values, toRtime)[ReplacedRtime(values[k], toRtime)] == CgmRowOf(values[k], values[k].wt)
    ensures forall t :: t in rows && (forall k :: 0 <= k < |values| ==> ReplacedRtime(values[k], toRtime) != t) ==>
      t in ReplaceAll(rows, values, toRtime) && ReplaceAll(rows, values, toRtime)[t] == rows[t]
  {
    if values != [] {
      var n := |values| - 1;
      ReplaceAllLands(rows, values[..n], toRtime);
      assert forall k :: 0 <= k < n ==> values[..n][k] == values[k];
    }
  }

  /** `(rtime_now - stored_rtime).seconds // 300`: `.seconds` is the
      remainder after whole days. */
  function CatchUpCount(rtimeNow: int, storedRtime: int): (n: int)
    ensures 0 <= n < 288
  {
    ((rtimeNow - storedRtime) % 86400) / 300
  }

  /** Whole days of delay are ignored. */
  lemma CatchUpIgnoresDays(rtimeNow: int, storedRtime: int, days: nat)
    ensures CatchUpCount(rtimeNow, storedRtime - 86400 * days) == CatchUpCount(rtimeNow, storedRtime)
  {
    var d := rtimeNow - storedRtime;
    assert rtimeNow - (storedRtime - 86400 * days) == d + 86400 * days;
    ModAddDays(d, days);
  }

  lemma {:induction false} ModAddDays(d: int, days: nat)
    ensures (d + 86400 * days) % 86400 == d % 86400
  {
    if days > 0 {
      ModAddDays(d, days - 1);
      assert d + 86400 * days == (d + 86400 * (days - 1)) + 86400;
    }
  }

  /** Within a day, the count is the number of whole five-minute steps
      missed. */
  lemma CatchUpWithinDay(rtimeNow: int, storedRtime: int)
    requires 0 <= rtimeNow - storedRtime < 86400
    ensures CatchUpCount(rtimeNow, storedRtime) == (rtimeNow - storedRtime) / 300
  {
  }

  /** What `get_cgm` returns and leaves in the table, given the latest
      stored row `(storedRtime, storedDexcomTime)`: when that row is the
      previous five minutes one reading is requested, and stored at
      `rtime_now` unless its `WT` repeats the stored Dexcom time (NoData);
      otherwise `count + 1` readings are requested and, unless the first
      repeats the stored Dexcom time (NoData), all are written. */
  function GetCgmOutcome(rows: map<int, CgmRow>, storedRtime: int, storedDexcomTime: Option<int>, rtimeNow: int,
                         toRtime: int -> int, fetch: int -> seq<RawReading>): (Result<seq<Reading>>, map<int, CgmRow>)
  {
    var upToDate := storedRtime == rtimeNow - 300;
    var requested := if upToDate then 1 else CatchUpCount(rtimeNow, storedRtime) + 1;
    var parsed := ParseAll(fetch(requested));
    if parsed.Err? then (Err(parsed.error), rows)
    else if parsed.value == [] then (Err(IndexError), rows)
    else
      var first := parsed.value[0];
      if Some(first.wt) == storedDexcomTime then (parsed, UpsertNoData(rows, rtimeNow))
      else if upToDate then (parsed, UpsertCgm(rows, first, first.wt, rtimeNow))
      else (parsed, ReplaceAll(rows, parsed.value, toRtime))
  }

  /** A repeated newest `WT` records NoData at `rtime_now` and touches no
      other row, in both scenarios. */
  lemma NoDataOnlyAtNow(rows: map<int, CgmRow>, storedRtime: int, storedDexcomTime: Option<int>, rtimeNow: int,
                        toRtime: int -> int, fetch: int -> seq<RawReading>)
    requires var o := GetCgmOutcome(rows, storedRtime, storedDexcomTime, rtimeNow, toRtime, fetch);
      o.0.Ok? && Some(o.0.value[0].wt) == storedDexcomTime
    ensures var after := GetCgmOutcome(rows, storedRtime, storedDexcomTime, rtimeNow, toRtime, fetch).1;
      && rtimeNow in after && after[rtimeNow].mgdl.None? && after[rtimeNow].trend.None?
      && forall t :: t in rows && t != rtimeNow ==> t in after && after[t] == rows[t]
  {
  }

  /** In the up-to-date scenario exactly one reading is requested, and a
      new one is stored at `rtime_now` with its value and trend. */
  lemma UpToDateStoresOne(rows: map<int, CgmRow>, storedDexcomTime: Option<int>, rtimeNow: int,
                          toRtime: int -> int, fetch: int -> seq<RawReading>)
    requires var o := GetCgmOutcome(rows, rtimeNow - 300, storedDexcomTime, rtimeNow, toRtime, fetch);
      o.0.Ok? && Some(o.0.value[0].wt) != storedDexcomTime
    ensures ParseAll(fetch(1)).Ok?
    ensures var o := GetCgmOutcome(rows, rtimeNow - 300, storedDexcomTime, rtimeNow, toRtime, fetch);
      var d := ParseAll(fetch(1)).value[0];
      o.1 == rows[rtimeNow := CgmRow(Some(d.wt), d.value, TrendNum(d.trend), d.trend)]
  {
  }

  /** A nonempty set of rtimes has a member: a set without one is `{}`. */
  lemma Inhabited(s: set<int>)
    requires s != {}
    ensures exists x :: x in s
  {
    if forall x :: x !in s {
      assert false;
    }
  }

  /** The `realtime_cgm2` rows of the user, by rtime. */
  class CgmTable {
    var rows: map<int, CgmRow>

    constructor (initial: map<int, CgmRow>)
      ensures rows == initial
    {
      rows := initial;
    }

    /** `get_latest_stored_data`: the latest row with a value, or `None`
        when there is none. */
    method LatestStored() returns (r: Option<(int, Option<int>)>)
      ensures r.None? <==> forall t :: t in rows ==> rows[t].mgdl.None?
      ensures r.Some? ==> IsLatest(rows, r.value.0) && r.value.1 == rows[r.value.0].dexcomTime
    {
      var left := rows.Keys;
      r := None;
      while left != {}
        invariant left <= rows.Keys
        invariant r.None? <==> forall t :: t in rows && t !in left ==> rows[t].mgdl.None?
        invariant r.Some? ==> r.value.0 in rows && rows[r.value.0].mgdl.Some? && r.value.1 == rows[r.value.0].dexcomTime
        invariant r.Some? ==> forall u :: u in rows && u !in left && rows[u].mgdl.Some? ==> u <= r.value.0
        decreases left
      {
        Inhabited(left);
        var k :| k in left;
        if rows[k].mgdl.Some? && (r.None? || r.value.0 < k) {
          r := Some((k, rows[k].dexcomTime));
        }
        left := left - {k};
      }
    }

    /** `write_cgm`. */
    method WriteCgm(d: Reading, wt: int, rtime: int)
      modifies this
      ensures rows == UpsertCgm(old(rows), d, wt, rtime)
    {
      rows := rows[rtime := CgmRow(Some(wt), d.value, TrendNum(d.trend), d.trend)];
    }

    /** `write_no_data`. */
    method WriteNoData(rtime: int)
      modifies this
      ensures rows == UpsertNoData(old(rows), rtime)
    {
      if rtime in rows {
        rows := rows[rtime := rows[rtime].(mgdl := None, trend := None, trendCode := None)];
      } else {
        rows := rows[rtime := CgmRow(None, None, None, None)];
      }
    }

    /** `replace_missing_data`. */
    method ReplaceMissingData(values: seq<Reading>, toRtime: int -> int)
      modifies this
      ensures rows == ReplaceAll(old(rows), values, toRtime)
    {
      for i := 0 to |values|
        invariant rows == ReplaceAll(old(rows), values[..i], toRtime)
      {
        assert values[..i + 1][..i] == values[..i];
        var d := values[i];
        var wt := d.wt;
        var rt := toRtime(wt) + 300;
        WriteCgm(d, wt, rt);
      }
      assert values[..|values|] == values;
    }

    /** `get_cgm`, at the clock reading `now`.  With no stored value the
        unpacking of `None` raises `TypeError`. */
    method GetCgm(now: int, toRtime: int -> int, fetch: int -> seq<RawReading>) returns (r: Result<seq<Reading>>)
      modifies this
      ensures (forall t :: t in old(rows) ==> old(rows)[t].mgdl.None?) ==> r == Err(TypeError) && rows == old(rows)
      ensures forall t :: IsLatest(old(rows), t) ==>
        (r, rows) == GetCgmOutcome(old(rows), t, old(rows)[t].dexcomTime, toRtime(now), toRtime, fetch)
    {
      var rtimeNow := toRtime(now);
      var stored := LatestStored();
      if stored.None? {
        return Err(TypeError);
      }
      var (storedRtime, storedDexcomTime) := stored.value;
      forall t | IsLatest(rows, t)
        ensures t == storedRtime
      {
        LatestUnique(rows, t, storedRtime);
      }
      r := CatchUp(storedRtime, storedDexcomTime, rtimeNow, toRtime, fetch);
    }

    /** The scenarios of `get_cgm` once the latest stored row is known. */
    method CatchUp(storedRtime: int, storedDexcomTime: Option<int>, rtimeNow: int, toRtime: int -> int,
                   fetch: int -> seq<RawReading>) returns (r: Result<seq<Reading>>)
      modifies this
      ensures (r, rows) == GetCgmOutcome(old(rows), storedRtime, storedDexcomTime, rtimeNow, toRtime, fetch)
    {
      var rtimePrev := rtimeNow - 300;
      var requested := if storedRtime == rtimePrev then 1 else CatchUpCount(rtimeNow, storedRtime) + 1;
      var logged;
      r, logged := ParseCgmValues(fetch(requested));
      if r.Err? {
        return;
      }
      if r.value == [] {
        return Err(IndexError);
      }
      var first := r.value[0];
      var wtTime := first.wt;
      if Some(wtTime) == storedDexcomTime {
        WriteNoData(rtimeNow);
      } else if storedRtime == rtimePrev {
        WriteCgm(first, wtTime, rtimeNow);
      } else {
        ReplaceMissingData(r.value, toRtime);
      }
    }
  }
}
