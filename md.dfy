/** `md.py`: the Flask application's pure helpers: month navigation for the
    browsing pages, the quartiles `getRecentISF` reports, and the cached
    data range.  Routes, templates and plots are left out. */
module Md {
  import opened Common
  import Isf2

  /** Months counted from year 0, so that consecutive months differ by one. */
  function MonthNumber(year: int, month: int): int { year * 12 + (month - 1) }

  /** The `(year, month)` arithmetic of `browseprevmonth`. */
  function PrevMonth(year: int, month: int): (r: (int, int))
    ensures 1 <= month <= 12 ==> 1 <= r.1 <= 12 && MonthNumber(r.0, r.1) == MonthNumber(year, month) - 1
    ensures month != 1 ==> r.0 == year
  {
    if month != 1 then (year, month - 1) else (year - 1, 12)
  }

  /** The `(year, month)` arithmetic of `browsenextmonth`. */
  function NextMonth(year: int, month: int): (r: (int, int))
    ensures 1 <= month <= 12 ==> 1 <= r.1 <= 12 && MonthNumber(r.0, r.1) == MonthNumber(year, month) + 1
    ensures month != 12 ==> r.0 == year
  {
    if month != 12 then (year, month + 1) else (year + 1, 1)
  }

  /** `url_for('browseym', year=year, month=month)` for the route
      `/browseym/<year>/<month>`. */
  function BrowseUrl(ym: (int, int)): string
  {
    "/browseym/" + IntToString(ym.0) + "/" + IntToString(ym.1)
  }

  /** `browseprevmonth(year, month)`. */
  function BrowsePrevMonth(year: int, month: int): (url: string)
    ensures url == BrowseUrl(PrevMonth(year, month))
    ensures month == 1 ==> url == BrowseUrl((year - 1, 12))
  {
    BrowseUrl(PrevMonth(year, month))
  }

  /** `browsenextmonth(year, month)`. */
  function BrowseNextMonth(year: int, month: int): (url: string)
    ensures url == BrowseUrl(NextMonth(year, month))
    ensures month == 12 ==> url == BrowseUrl((year + 1, 1))
  {
    BrowseUrl(NextMonth(year, month))
  }

  /** Going back a month and forward again returns to the same month, and
      so does the opposite. */
  lemma PrevNextInverse(year: int, month: int)
    requires 1 <= month <= 12
    ensures NextMonth(PrevMonth(year, month).0, PrevMonth(year, month).1) == (year, month)
    ensures PrevMonth(NextMonth(year, month).0, NextMonth(year, month).1) == (year, month)
  {
  }

  /** `((num_data + 1) / 4) - 1`: Python 2 divides two integers by flooring. */
  function QuartileStep(n: nat): (k: int)
    ensures n >= 3 ==> k >= 0 && 3 * k < n
    ensures n < 3 ==> k == -1
  {
    (n + 1) / 4 - 1
  }

  /** One of the three quartile lines: `isf_vals[floor(i)] + .5 *
      (isf_vals[ceil(i) - floor(i)])`.  The index is an integer, so its
      floor and ceiling are the index itself and the second term reads
      `isf_vals[0]`. */
  function QuartileAt(vals: seq<real>, index: int): (r: Result<real>)
    ensures r.Err? <==> !(-|vals| <= index < |vals|) || vals == []
    ensures r.Err? ==> r.error == IndexError
    ensures r.Ok? && index >= 0 ==> r.value == vals[index] + 0.5 * vals[0]
  {
    var lo := index;
    var hi := index;
    match Isf2.PyIndex(vals, lo)
    case None => Err(IndexError)
    case Some(a) =>
      match Isf2.PyIndex(vals, hi - lo)
      case None => Err(IndexError)
      case Some(b) => Ok(a + 0.5 * b)
  }

  /** Q1, Q2 and Q3 of `getRecentISF`, at the indices `k`, `2k` and `3k`
      with `k == (n + 1) / 4 - 1`. */
  function Quartiles(vals: seq<real>): (r: Result<(real, real, real)>)
    ensures r.Err? <==> |vals| < 3
    ensures r.Err? ==> r.error == IndexError
    ensures r.Ok? ==> var k := QuartileStep(|vals|);
      r.value == (vals[k] + 0.5 * vals[0], vals[2 * k] + 0.5 * vals[0], vals[3 * k] + 0.5 * vals[0])
  {
    var k := QuartileStep(|vals|);
    match QuartileAt(vals, k)
    case Err(e) => Err(e)
    case Ok(q1) =>
      match QuartileAt(vals, 2 * k)
      case Err(e) => Err(e)
      case Ok(q2) =>
        match QuartileAt(vals, 3 * k)
        case Err(e) => Err(e)
        case Ok(q3) => Ok((q1, q2, q3))
  }

  /** Three equal values report the value and a half for each quartile:
      every quartile lies above the largest value. */
  lemma QuartilesOvershoot()
    ensures Quartiles([4.0, 4.0, 4.0]) == Ok((6.0, 6.0, 6.0))
  {
    assert QuartileStep(3) == 0;
  }

  /** The interpolation the quartile lines spell out, `lo + .5 * (hi -
      lo)` between the values at the floor and the ceiling of the index;
      for an integer index this is the value at the index. */
  function QuartileAtIntended(vals: seq<real>, index: int): (r: Result<real>)
    ensures r.Err? <==> !(0 <= index < |vals|)
    ensures r.Ok? ==> r.value == vals[index] && r.value in vals
  {
    var lo := index;
    var hi := index;
    if 0 <= lo && hi < |vals| then Ok(vals[lo] + 0.5 * (vals[hi] - vals[lo])) else Err(IndexError)
  }

  function QuartilesIntended(vals: seq<real>): (r: Result<(real, real, real)>)
    ensures r.Err? <==> |vals| < 3
    ensures r.Ok? ==> var k := QuartileStep(|vals|);
      r.value == (vals[k], vals[2 * k], vals[3 * k])
  {
    var k := QuartileStep(|vals|);
    match QuartileAtIntended(vals, k)
    case Err(e) => Err(e)
    case Ok(q1) =>
      match QuartileAtIntended(vals, 2 * k)
      case Err(e) => Err(e)
      case Ok(q2) =>
        match QuartileAtIntended(vals, 3 * k)
        case Err(e) => Err(e)
        case Ok(q3) => Ok((q1, q2, q3))
  }

  /** On the sorted values `getRecentISF` fetches, the intended quartiles
      are values of the list, in order, between its least and its greatest
      element. */
  lemma QuartilesIntendedOrdered(vals: seq<real>)
    requires Isf2.Sorted(vals) && |vals| >= 3
    ensures var (q1, q2, q3) := QuartilesIntended(vals).value;
      vals[0] <= q1 <= q2 <= q3 <= vals[|vals| - 1] && q1 in vals && q2 in vals && q3 in vals
  {
    var k := QuartileStep(|vals|);
    assert 0 <= k <= 2 * k <= 3 * k < |vals|;
  }

  /** The written quartiles exceed the intended ones by half the first value. */
  lemma QuartilesOffset(vals: seq<real>)
    requires |vals| >= 3
    ensures var (a1, a2, a3) := Quartiles(vals).value;
      var (b1, b2, b3) := QuartilesIntended(vals).value;
      a1 == b1 + 0.5 * vals[0] && a2 == b2 + 0.5 * vals[0] && a3 == b3 + 0.5 * vals[0]
  {
  }

  /** The module's `datarange`: `None` until `compute_data_range` runs. */
  class DataRange {
    var datarange: Option<map<string, int>>

    constructor ()
      ensures datarange.None?
    {
      datarange := None;
    }

    /** `compute_data_range()`: fills the global only while it is unset (or
        empty); `icRange` and `cgmRange` stand for the results of
        `insulin_carb_data_range` and `cgm_data_range`, as `(min, max)`.
        The minimum CGM time is read but not kept. */
    method ComputeDataRange(icRange: (int, int), cgmRange: (int, int))
      modifies this
      ensures old(datarange).Some? && old(datarange).value != map[] ==> datarange == old(datarange)
      ensures old(datarange).None? || old(datarange).value == map[] ==>
        datarange == Some(map["max_ic" := icRange.1, "min_ic" := icRange.0, "max_cgm" := cgmRange.1])
      ensures datarange.Some? && datarange.value != map[]
    {
      if datarange.None? || datarange.value == map[] {
        var (minIc, maxIc) := icRange;
        var (minCgm, maxCgm) := cgmRange;
        var d: map<string, int> := map[];
        d := d["max_ic" := maxIc];
        d := d["min_ic" := minIc];
        d := d["max_cgm" := maxCgm];
        assert "max_cgm" in d;
        datarange := Some(d);
      }
    }
  }
}
