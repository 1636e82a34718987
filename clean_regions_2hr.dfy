/** `clean_regions_2hr.py`: clean regions after corrective boluses, for
    clean ISF values.  Each corrective bolus at `t2` is checked against the
    same criteria as in `isf2.py`: no bolus from 100 to 5 minutes before it,
    a start-period bolus sum of at least 0.35 ending at `t3`, no bolus in
    the middle period `[t3 + 5, t4 - 5]`, and a glucose reading at `t3` and
    at `t5 = t4 + 20`.  The search is written once over `window` (how far
    the long window reaches) and `middle` (`t4 - t3`), since
    `cleanregions.py` runs the same loop for five-hour regions.  The scan
    helpers are the ones of module `Isf2`.  Times are minutes. */
module CleanRegions2hr {
  import opened Common
  import opened Isf2

  /** How far after `t2` the rows read by `get_longer_window` reach, in
      minutes (five hours). */
  const TwoHourWindow: int := 300

  /** `t4 - t3` for two-hour regions. */
  const TwoHourMiddle: int := 100

  /** A clean region as written: its start `t3`, the glucose at `t3` and at
      `t5`, and the start-period bolus sum. */
  datatype Region = Region(rtime: int, bg0: real, bg1: real, bolus: real)

  /** What happens to one corrective event; `Missing` is the silent drop when
      either glucose value is missing. */
  datatype Verdict = SkippedBefore | SkippedSmall | SkippedMiddle | Missing | Clean(region: Region)

  // ---------------------------------------------------------------
  // The filter chain for one corrective event
  // ---------------------------------------------------------------

  /** The body of the loop of `get_clean_regions_2hr` for the corrective
      bolus at `t2`, with the table read by the windowed queries
      (`any_bolus_in_time_span`, `get_longer_window`, `get_bg_time_window`).
      An exception of `bolus_sum_during_start` or `bg_at_time_extended` is
      an `Err`. */
  function RegionEvent(table: seq<Row>, window: int, middle: int, t2: int): Result<Verdict>
  {
    if BolusesIn(table, t2 - 100, t2 - 5) then Ok(SkippedBefore)
    else
      var rows := Window(table, t2, t2 + window);
      match BolusSumDuringStart(rows, t2)
      case Err(e) => Err(e)
      case Ok((bolusSum, t3)) => RegionAfterStart(table, rows, window, middle, bolusSum, t3)
  }

  /** The checks from `t3` on. */
  function RegionAfterStart(table: seq<Row>, rows: seq<Row>, window: int, middle: int, bolusSum: real, t3: int): Result<Verdict>
  {
    var t4 := t3 + middle;
    if bolusSum < MinBolus then Ok(SkippedSmall)
    else if BolusesIn(rows, t3 + 5, t4 - 5) then Ok(SkippedMiddle)
    else RegionMeasure(table, rows, bolusSum, t3, t4 + 20)
  }

  /** The glucose at `t3` (in the long window) and at `t5` (in the rows from
      `t5 - 10` to `t5 + 45`); a region only when both are truthy. */
  function RegionMeasure(table: seq<Row>, rows: seq<Row>, bolusSum: real, t3: int, t5: int): Result<Verdict>
  {
    var bg3 := BgAt(rows, t3);
    match BgAtTimeExtended(Window(table, t5 - 10, t5 + 45), t5)
    case Err(e) => Err(e)
    case Ok(bg5) =>
      if Truthy(bg3) && Truthy(bg5) then Ok(Clean(Region(t3, bg3.value, bg5.value, bolusSum)))
      else Ok(Missing)
  }

  /** The loop body as the source runs it, with the scan loops of `Isf2`. */
  method RegionEventLoop(table: seq<Row>, window: int, middle: int, t2: int) returns (r: Result<Verdict>)
    ensures r == RegionEvent(table, window, middle, t2)
  {
    if BolusesIn(table, t2 - 100, t2 - 5) {
      return Ok(SkippedBefore);
    }
    var rows := Window(table, t2, t2 + window);
    var s := BolusSumDuringStartLoop(rows, t2);
    if s.Err? {
      return Err(s.error);
    }
    r := RegionAfterStartLoop(table, rows, window, middle, s.value.0, s.value.1);
  }

  method RegionAfterStartLoop(table: seq<Row>, rows: seq<Row>, window: int, middle: int, bolusSum: real, t3: int) returns (r: Result<Verdict>)
    ensures r == RegionAfterStart(table, rows, window, middle, bolusSum, t3)
  {
    if bolusSum < MinBolus {
      return Ok(SkippedSmall);
    }
    var t4 := t3 + middle;
    var t5 := t4 + 20;
    var inMiddle := BolusesInTimeRange(rows, t3 + 5, t4 - 5);
    if inMiddle {
      return Ok(SkippedMiddle);
    }
    RegionAfterStartMeasure(table, rows, window, middle, bolusSum, t3);
    r := RegionMeasureLoop(table, rows, bolusSum, t3, t5);
  }

  method RegionMeasureLoop(table: seq<Row>, rows: seq<Row>, bolusSum: real, t3: int, t5: int) returns (r: Result<Verdict>)
    ensures r == RegionMeasure(table, rows, bolusSum, t3, t5)
  {
    var bg3 := BgAtTime(rows, t3);
    var bg5 := BgAtTimeExtendedLoop(Window(table, t5 - 10, t5 + 45), t5);
    if bg5.Err? {
      return Err(bg5.error);
    }
    if Truthy(bg3) && Truthy(bg5.value) {
      return Ok(Clean(Region(t3, bg3.value, bg5.value.value, bolusSum)));
    }
    return Ok(Missing);
  }

  /** An event is skipped as "before" exactly when a bolus lies 100 to 5
      minutes before it. */
  lemma RegionEventBefore(table: seq<Row>, window: int, middle: int, t2: int)
    ensures BolusesIn(table, t2 - 100, t2 - 5) <==> RegionEvent(table, window, middle, t2) == Ok(SkippedBefore)
  {
    if !BolusesIn(table, t2 - 100, t2 - 5) {
      var rows := Window(table, t2, t2 + window);
      var s := BolusSumDuringStart(rows, t2);
      if s.Ok? {
        AfterStartNotBefore2(table, rows, window, middle, s.value.0, s.value.1);
      }
    }
  }

  lemma AfterStartNotBefore2(table: seq<Row>, rows: seq<Row>, window: int, middle: int, bolusSum: real, t3: int)
    ensures RegionAfterStart(table, rows, window, middle, bolusSum, t3) != Ok(SkippedBefore)
  {
    if bolusSum >= MinBolus && !BolusesIn(rows, t3 + 5, t3 + middle - 5) {
      var m := RegionMeasure(table, rows, bolusSum, t3, t3 + middle + 20);
      assert m.Ok? ==> m.value.Clean? || m.value.Missing?;
    }
  }

  /** Otherwise a missing row at `t2 + 30` raises, and a start-period sum
      below 0.35 skips the event as too small. */
  lemma RegionEventSmall(table: seq<Row>, window: int, middle: int, t2: int)
    requires !BolusesIn(table, t2 - 100, t2 - 5)
    ensures var s := BolusSumDuringStart(Window(table, t2, t2 + window), t2);
      && (s.Err? ==> RegionEvent(table, window, middle, t2) == Err(s.error))
      && (s.Ok? && s.value.0 < MinBolus ==> RegionEvent(table, window, middle, t2) == Ok(SkippedSmall))
  {
  }

  /** After the start period, the verdict is the one decided from `t3`. */
  lemma RegionEventAfterStart(table: seq<Row>, window: int, middle: int, t2: int)
    requires !BolusesIn(table, t2 - 100, t2 - 5)
    requires BolusSumDuringStart(Window(table, t2, t2 + window), t2).Ok?
    ensures var rows := Window(table, t2, t2 + window); var s := BolusSumDuringStart(rows, t2).value;
      RegionEvent(table, window, middle, t2) == RegionAfterStart(table, rows, window, middle, s.0, s.1)
  {
  }

  /** A middle-period bolus skips a large enough start-period sum. */
  lemma RegionAfterStartMiddle(table: seq<Row>, rows: seq<Row>, window: int, middle: int, bolusSum: real, t3: int)
    requires bolusSum >= MinBolus
    ensures BolusesIn(rows, t3 + 5, t3 + middle - 5) <==> RegionAfterStart(table, rows, window, middle, bolusSum, t3) == Ok(SkippedMiddle)
  {
    if !BolusesIn(rows, t3 + 5, t3 + middle - 5) {
      var m := RegionMeasure(table, rows, bolusSum, t3, t3 + middle + 20);
      assert m.Ok? ==> m.value.Clean? || m.value.Missing?;
    }
  }

  /** Past both skips, the verdict is the measurement's. */
  lemma RegionAfterStartMeasure(table: seq<Row>, rows: seq<Row>, window: int, middle: int, bolusSum: real, t3: int)
    requires bolusSum >= MinBolus && !BolusesIn(rows, t3 + 5, t3 + middle - 5)
    ensures RegionAfterStart(table, rows, window, middle, bolusSum, t3) == RegionMeasure(table, rows, bolusSum, t3, t3 + middle + 20)
  {
  }

  /** A clean region starts at `t3`, carries the start-period sum (at least
      0.35), has no bolus in the middle period, and holds the truthy glucose
      found at `t3` and at `t5 = t3 + middle + 20`. */
  lemma RegionAfterStartClean(table: seq<Row>, rows: seq<Row>, window: int, middle: int, bolusSum: real, t3: int)
    requires RegionAfterStart(table, rows, window, middle, bolusSum, t3).Ok? && RegionAfterStart(table, rows, window, middle, bolusSum, t3).value.Clean?
    ensures var g := RegionAfterStart(table, rows, window, middle, bolusSum, t3).value.region;
      && g.rtime == t3 && g.bolus == bolusSum >= MinBolus
      && !BolusesIn(rows, t3 + 5, t3 + middle - 5)
      && Some(g.bg0) == BgAt(rows, t3) && g.bg0 != 0.0
  {
  }

  lemma RegionAfterStartEnd(table: seq<Row>, rows: seq<Row>, window: int, middle: int, bolusSum: real, t3: int)
    requires RegionAfterStart(table, rows, window, middle, bolusSum, t3).Ok? && RegionAfterStart(table, rows, window, middle, bolusSum, t3).value.Clean?
    ensures var g := RegionAfterStart(table, rows, window, middle, bolusSum, t3).value.region; var t5 := t3 + middle + 20;
      BgAtTimeExtended(Window(table, t5 - 10, t5 + 45), t5) == Ok(Some(g.bg1)) && g.bg1 != 0.0
  {
  }

  /** At event level: a clean region comes from a corrective bolus with no
      bolus before it, whose start-period sum and last bolus time are the
      region's. */
  lemma RegionEventClean(table: seq<Row>, window: int, middle: int, t2: int)
    requires RegionEvent(table, window, middle, t2).Ok? && RegionEvent(table, window, middle, t2).value.Clean?
    ensures var g := RegionEvent(table, window, middle, t2).value.region;
      && !BolusesIn(table, t2 - 100, t2 - 5)
      && BolusSumDuringStart(Window(table, t2, t2 + window), t2) == Ok((g.bolus, g.rtime))
  {
    RegionEventBefore(table, window, middle, t2);
    var rows := Window(table, t2, t2 + window);
    var s := BolusSumDuringStart(rows, t2);
    assert RegionEvent(table, window, middle, t2) == RegionAfterStart(table, rows, window, middle, s.value.0, s.value.1);
    RegionAfterStartClean(table, rows, window, middle, s.value.0, s.value.1);
  }

  /** A clean region holds a bolus of at least 0.35 and two nonzero glucose
      values. */
  lemma RegionEventValues(table: seq<Row>, window: int, middle: int, t2: int)
    requires RegionEvent(table, window, middle, t2).Ok? && RegionEvent(table, window, middle, t2).value.Clean?
    ensures var g := RegionEvent(table, window, middle, t2).value.region;
      g.bolus >= MinBolus && g.bg0 != 0.0 && g.bg1 != 0.0
  {
    RegionEventBefore(table, window, middle, t2);
    var rows := Window(table, t2, t2 + window);
    var s := BolusSumDuringStart(rows, t2);
    assert RegionEvent(table, window, middle, t2) == RegionAfterStart(table, rows, window, middle, s.value.0, s.value.1);
    RegionAfterStartClean(table, rows, window, middle, s.value.0, s.value.1);
    RegionAfterStartEnd(table, rows, window, middle, s.value.0, s.value.1);
  }

  /** The ISF that `get_clean_regions_2hr` writes with a region: the glucose
      drop per unit of insulin, `(bg_at_t3 - bg_at_t5) / bolus_sum`. */
  function RegionIsf(g: Region): (isf: real)
    requires g.bolus >= MinBolus
    ensures isf * g.bolus == g.bg0 - g.bg1
  {
    DivMul(g.bg0 - g.bg1, g.bolus);
    (g.bg0 - g.bg1) / g.bolus
  }

  // ---------------------------------------------------------------
  // The loop over the corrective events
  // ---------------------------------------------------------------

  /** The verdicts of `events` in order, each event's verdict given by
      `verdict` at its time; the first exception ends the run. */
  function Verdicts(verdict: int -> Result<Verdict>, events: seq<Row>): (r: Result<seq<Verdict>>)
    ensures r.Ok? ==> |r.value| == |events|
  {
    if events == [] then Ok([])
    else
      var n := |events| - 1;
      match Verdicts(verdict, events[..n])
      case Err(e) => Err(e)
      case Ok(vs) =>
        match verdict(events[n].rtime)
        case Err(e) => Err(e)
        case Ok(v) => Ok(vs + [v])
  }

  /** The run succeeds exactly when every event does, and then holds each
      event's verdict at its position. */
  lemma {:induction false} VerdictsMeaning(verdict: int -> Result<Verdict>, events: seq<Row>)
    ensures Verdicts(verdict, events).Ok? <==> forall k :: 0 <= k < |events| ==> verdict(events[k].rtime).Ok?
    ensures Verdicts(verdict, events).Ok? ==> forall k :: 0 <= k < |events| ==> verdict(events[k].rtime) == Ok(Verdicts(verdict, events).value[k])
  {
    if events != [] {
      var n := |events| - 1;
      VerdictsMeaning(verdict, events[..n]);
      assert forall k :: 0 <= k < n ==> events[..n][k] == events[k];
    }
  }

  /** One more event extends the verdicts, or raises. */
  lemma VerdictsSnoc(verdict: int -> Result<Verdict>, events: seq<Row>, i: nat, vs: seq<Verdict>)
    requires i < |events| && Verdicts(verdict, events[..i]) == Ok(vs)
    ensures var v := verdict(events[i].rtime);
      Verdicts(verdict, events[..i + 1]) == if v.Ok? then Ok(vs + [v.value]) else Err(v.error)
  {
    assert events[..i + 1][..i] == events[..i];
  }

  /** Once an event has raised, the whole run has. */
  lemma {:induction false} VerdictsErrSticky(verdict: int -> Result<Verdict>, events: seq<Row>, n: nat)
    requires n <= |events| && Verdicts(verdict, events[..n]).Err?
    ensures Verdicts(verdict, events) == Verdicts(verdict, events[..n])
    decreases |events|
  {
    if n < |events| {
      var m := |events| - 1;
      assert events[..m][..n] == events[..n];
      VerdictsErrSticky(verdict, events[..m], n);
    } else {
      assert events[..n] == events;
    }
  }

  /** The skip counters and the written regions of the loop. */
  datatype Tally = Tally(regions: seq<Region>, before: nat, small: nat, middle: nat)

  /** One verdict's effect on the tally. */
  function Record(t: Tally, v: Verdict): Tally
  {
    match v
    case SkippedBefore => t.(before := t.before + 1)
    case SkippedSmall => t.(small := t.small + 1)
    case SkippedMiddle => t.(middle := t.middle + 1)
    case Missing => t
    case Clean(g) => t.(regions := t.regions + [g])
  }

  /** The tally after the verdicts `vs`, in order. */
  function Fold(vs: seq<Verdict>): Tally
  {
    if vs == [] then Tally([], 0, 0, 0)
    else Record(Fold(vs[..|vs| - 1]), vs[|vs| - 1])
  }

  /** Every event is counted at most once: the skips and the regions
      together are no more than the events (a missing glucose is not
      counted, as `skipped_nobg_*` are never incremented). */
  lemma {:induction false} FoldCounts(vs: seq<Verdict>)
    ensures var t := Fold(vs); t.before + t.small + t.middle + |t.regions| <= |vs|
  {
    if vs != [] {
      FoldCounts(vs[..|vs| - 1]);
    }
  }

  /** The regions written are exactly the clean verdicts. */
  lemma {:induction false} FoldRegions(vs: seq<Verdict>)
    ensures forall g :: g in Fold(vs).regions <==> Clean(g) in vs
  {
    if vs != [] {
      var n := |vs| - 1;
      FoldRegions(vs[..n]);
      assert vs == vs[..n] + [vs[n]];
    }
  }

  /** Without clean verdicts nothing is written. */
  lemma {:induction false} FoldNoneClean(vs: seq<Verdict>)
    requires forall k :: 0 <= k < |vs| ==> !vs[k].Clean?
    ensures Fold(vs).regions == []
  {
    if vs != [] {
      FoldNoneClean(vs[..|vs| - 1]);
    }
  }

  /** The verdict of the corrective event at each time, for one table. */
  function EventVerdict(table: seq<Row>, window: int, middle: int): int -> Result<Verdict>
  {
    t2 => RegionEvent(table, window, middle, t2)
  }

  /** `get_clean_regions_2hr` (and `get_clean_regions_5hr`) on the whole
      table: the tally of the corrective events' verdicts. */
  function CleanRegions(table: seq<Row>, window: int, middle: int): Result<Tally>
  {
    match Verdicts(EventVerdict(table, window, middle), Corrective(table))
    case Err(e) => Err(e)
    case Ok(vs) => Ok(Fold(vs))
  }

  /** The counter updates of one pass of the loop: a skip bumps its
      counter, a region is written and counted. */
  method Tick(t: Tally, count: nat, v: Verdict) returns (t': Tally, count': nat)
    ensures t' == Record(t, v)
    ensures count' == if v.Clean? then count + 1 else count
    ensures |t'.regions| == if v.Clean? then |t.regions| + 1 else |t.regions|
  {
    t', count' := t, count;
    match v {
      case SkippedBefore => t' := t.(before := t.before + 1);
      case SkippedSmall => t' := t.(small := t.small + 1);
      case SkippedMiddle => t' := t.(middle := t.middle + 1);
      case Missing =>
      case Clean(g) =>
        count' := count + 1;
        t' := t.(regions := t.regions + [g]);
    }
  }

  /** The loop over the corrective events, with its counters. */
  method GetCleanRegions(table: seq<Row>, window: int, middle: int) returns (r: Result<Tally>, count: nat)
    ensures r == CleanRegions(table, window, middle)
    ensures r.Ok? ==> count == |r.value.regions|
  {
    var events := Corrective(table);
    ghost var verdict := EventVerdict(table, window, middle);
    var t := Tally([], 0, 0, 0);
    ghost var vs: seq<Verdict> := [];
    count := 0;
    for i := 0 to |events|
      invariant Verdicts(verdict, events[..i]) == Ok(vs)
      invariant t == Fold(vs)
      invariant count == |t.regions|
    {
      var v := RegionEventLoop(table, window, middle, events[i].rtime);
      VerdictsSnoc(verdict, events, i, vs);
      if v.Err? {
        VerdictsErrSticky(verdict, events, i + 1);
        return Err(v.error), count;
      }
      assert (vs + [v.value])[..|vs|] == vs;
      t, count := Tick(t, count, v.value);
      vs := vs + [v.value];
    }
    assert events[..|events|] == events;
    r := Ok(t);
  }

  /** Every region written comes from a corrective event whose verdict it
      is, so `RegionEventClean` applies to it. */
  lemma CleanRegionsSound(table: seq<Row>, window: int, middle: int, g: Region)
    requires CleanRegions(table, window, middle).Ok? && g in CleanRegions(table, window, middle).value.regions
    ensures exists e :: e in table && e.corrective && RegionEvent(table, window, middle, e.rtime) == Ok(Clean(g))
  {
    var events := Corrective(table);
    var verdict := EventVerdict(table, window, middle);
    VerdictsMeaning(verdict, events);
    var vs := Verdicts(verdict, events).value;
    FoldRegions(vs);
    var k :| 0 <= k < |vs| && vs[k] == Clean(g);
    assert verdict(events[k].rtime) == Ok(Clean(g));
    CorrectiveMembers(table);
    assert events[k] in events;
  }

  /** Conversely, every corrective event found clean is written. */
  lemma CleanRegionsComplete(table: seq<Row>, window: int, middle: int, k: nat)
    requires CleanRegions(table, window, middle).Ok? && k < |Corrective(table)|
    requires RegionEvent(table, window, middle, Corrective(table)[k].rtime).Ok?
    requires RegionEvent(table, window, middle, Corrective(table)[k].rtime).value.Clean?
    ensures RegionEvent(table, window, middle, Corrective(table)[k].rtime).value.region in CleanRegions(table, window, middle).value.regions
  {
    var verdict := EventVerdict(table, window, middle);
    VerdictsMeaning(verdict, Corrective(table));
    var vs := Verdicts(verdict, Corrective(table)).value;
    FoldRegions(vs);
    assert vs[k] in vs;
  }

  /** The counters of the loop never exceed the number of events. */
  lemma CleanRegionsCounts(table: seq<Row>, window: int, middle: int)
    requires CleanRegions(table, window, middle).Ok?
    ensures var t := CleanRegions(table, window, middle).value;
      t.before + t.small + t.middle + |t.regions| <= |Corrective(table)|
  {
    FoldCounts(Verdicts(EventVerdict(table, window, middle), Corrective(table)).value);
  }

  /** The run raises exactly when some corrective event raises. */
  lemma CleanRegionsRaises(table: seq<Row>, window: int, middle: int)
    ensures CleanRegions(table, window, middle).Err? <==> exists e :: e in Corrective(table) && RegionEvent(table, window, middle, e.rtime).Err?
  {
    var events := Corrective(table);
    var verdict := EventVerdict(table, window, middle);
    VerdictsMeaning(verdict, events);
    if CleanRegions(table, window, middle).Err? {
      var k :| 0 <= k < |events| && !verdict(events[k].rtime).Ok?;
      assert events[k] in events;
    } else {
      assert forall k :: 0 <= k < |events| ==> verdict(events[k].rtime).Ok?;
    }
  }

  /** Every region written has a bolus of at least 0.35 and two nonzero
      glucose values, so its ISF is defined. */
  lemma CleanRegionsValues(table: seq<Row>, window: int, middle: int)
    requires CleanRegions(table, window, middle).Ok?
    ensures forall g :: g in CleanRegions(table, window, middle).value.regions ==> g.bolus >= MinBolus && g.bg0 != 0.0 && g.bg1 != 0.0
  {
    forall g | g in CleanRegions(table, window, middle).value.regions
      ensures g.bolus >= MinBolus && g.bg0 != 0.0 && g.bg1 != 0.0
    {
      CleanRegionsSound(table, window, middle, g);
      var e :| e in table && e.corrective && RegionEvent(table, window, middle, e.rtime) == Ok(Clean(g));
      RegionEventValues(table, window, middle, e.rtime);
    }
  }

  /** `get_clean_regions_2hr`: the loop with two-hour spans; every region
      it writes comes with its ISF. */
  method GetCleanRegions2hr(table: seq<Row>) returns (r: Result<Tally>, count: nat)
    ensures r == CleanRegions(table, TwoHourWindow, TwoHourMiddle)
    ensures r.Ok? ==> count == |r.value.regions|
    ensures r.Ok? ==> forall g :: g in r.value.regions ==> g.bolus >= MinBolus
  {
    r, count := GetCleanRegions(table, TwoHourWindow, TwoHourMiddle);
    if r.Ok? {
      CleanRegionsValues(table, TwoHourWindow, TwoHourMiddle);
    }
  }

  /** For two-hour regions the middle period is `[t3 + 5, t3 + 95]` and the
      end glucose is read at `t3 + 120`. */
  lemma TwoHourRegion(table: seq<Row>, rows: seq<Row>, bolusSum: real, t3: int)
    requires RegionAfterStart(table, rows, TwoHourWindow, TwoHourMiddle, bolusSum, t3).Ok? && RegionAfterStart(table, rows, TwoHourWindow, TwoHourMiddle, bolusSum, t3).value.Clean?
    ensures var g := RegionAfterStart(table, rows, TwoHourWindow, TwoHourMiddle, bolusSum, t3).value.region;
      && !BolusesIn(rows, t3 + 5, t3 + 95)
      && BgAtTimeExtended(Window(table, t3 + 110, t3 + 165), t3 + 120) == Ok(Some(g.bg1))
  {
    RegionAfterStartClean(table, rows, TwoHourWindow, TwoHourMiddle, bolusSum, t3);
    RegionAfterStartEnd(table, rows, TwoHourWindow, TwoHourMiddle, bolusSum, t3);
  }
}
