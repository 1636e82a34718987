/** `isf2.py`: insulin-sensitivity values from corrective boluses.  A
    corrective bolus at `t2` opens a 30-minute start period whose boluses
    are summed; the sum's last bolus `t3` starts a 100-minute middle period
    that must be free of boluses, and the blood glucose drop from `t3` to
    `t5 = t3 + 120` divided by the bolus sum is the ISF.  Times are minutes.
    The scan helpers here are repeated verbatim in `clean_regions_2hr.py`
    and `cleanregions.py`, which import them from this module. */
module Isf2 {
  import opened Common

  /** A row of `insulin_carb_smoothed_2` with the columns the scans read. */
  datatype Row = Row(rtime: int, corrective: bool, bg: Option<real>, cgm: Option<real>, bolus: Option<real>)

  /** Python truthiness of a nullable number. */
  predicate Truthy(x: Option<real>) { x.Some? && x.value != 0.0 }

  /** `total_bolus_volume > 0`; a null volume is no bolus (Python 2 orders
      `None` below every number, and the Python 3 copies test `is not None`). */
  predicate Positive(r: Row) { r.bolus.Some? && r.bolus.value > 0.0 }

  function BolusOf(r: Row): real { if Positive(r) then r.bolus.value else 0.0 }

  /** Smallest bolus worth an ISF value. */
  const MinBolus: real := 0.35

  /** The rows of `table` whose time lies in `[lo, hi]`, in table order: what
      the windowed `select ... where rtime >= lo and rtime <= hi` returns. */
  function Window(table: seq<Row>, lo: int, hi: int): (w: seq<Row>)
    ensures |w| <= |table|
  {
    if table == [] then []
    else (if lo <= table[0].rtime <= hi then [table[0]] else []) + Window(table[1..], lo, hi)
  }

  /** The window holds exactly the table's rows in the time range. */
  lemma {:induction false} WindowMembers(table: seq<Row>, lo: int, hi: int)
    ensures forall r :: r in Window(table, lo, hi) <==> r in table && lo <= r.rtime <= hi
  {
    if table != [] {
      WindowMembers(table[1..], lo, hi);
      assert table == [table[0]] + table[1..];
    }
  }

  // ---------------------------------------------------------------
  // bolus_sum_during_start
  // ---------------------------------------------------------------

  /** Index of the first row at time `t`, or the length. */
  function FirstAt(rows: seq<Row>, t: int): (j: nat)
    ensures j <= |rows|
    ensures forall k :: 0 <= k < j ==> rows[k].rtime != t
    ensures j < |rows| ==> rows[j].rtime == t
  {
    if rows == [] then 0 else if rows[0].rtime == t then 0 else 1 + FirstAt(rows[1..], t)
  }

  /** The total of the positive boluses. */
  function BolusTotal(rows: seq<Row>): (s: real)
    ensures s >= 0.0
    ensures s > 0.0 <==> exists k :: 0 <= k < |rows| && Positive(rows[k])
  {
    if rows == [] then 0.0
    else
      var s0 := BolusTotal(rows[..|rows| - 1]);
      assert forall k :: 0 <= k < |rows| - 1 ==> rows[..|rows| - 1][k] == rows[k];
      s0 + BolusOf(rows[|rows| - 1])
  }

  /** The time of the last positive bolus, or `t2` when there is none. */
  function LastBolusTime(rows: seq<Row>, t2: int): (t3: int)
    ensures (forall k :: 0 <= k < |rows| ==> !Positive(rows[k])) ==> t3 == t2
    ensures (exists k :: 0 <= k < |rows| && Positive(rows[k])) ==>
      exists k :: 0 <= k < |rows| && Positive(rows[k]) && rows[k].rtime == t3 &&
        forall m :: k < m < |rows| ==> !Positive(rows[m])
  {
    if rows == [] then t2
    else if Positive(rows[|rows| - 1]) then rows[|rows| - 1].rtime
    else
      var p := rows[..|rows| - 1];
      assert forall k :: 0 <= k < |rows| - 1 ==> p[k] == rows[k];
      LastBolusTime(p, t2)
  }

  /** `bolus_sum_during_start`: the boluses of the rows before the row at
      `t2 + 30` are summed, and the last of them gives `t3`; without a row
      at `t2 + 30` the generic exception is raised. */
  function BolusSumDuringStart(rows: seq<Row>, t2: int): (r: Result<(real, int)>)
    ensures r.Err? <==> forall k :: 0 <= k < |rows| ==> rows[k].rtime != t2 + 30
    ensures r.Ok? ==> r.value.0 >= 0.0 && (r.value.0 == 0.0 ==> r.value.1 == t2)
  {
    var e := FirstAt(rows, t2 + 30);
    if e == |rows| then Err(GenericError)
    else Ok((BolusTotal(rows[..e]), LastBolusTime(rows[..e], t2)))
  }

  lemma PrefixStep(rows: seq<Row>, i: nat)
    requires i < |rows|
    ensures rows[..i + 1][..i] == rows[..i] && rows[..i + 1][i] == rows[i]
  {
  }

  /** The loop of `bolus_sum_during_start`. */
  method BolusSumDuringStartLoop(rows: seq<Row>, t2: int) returns (r: Result<(real, int)>)
    ensures r == BolusSumDuringStart(rows, t2)
  {
    var t3 := t2;
    var bolusSum := 0.0;
    var i := 0;
    while i < |rows|
      invariant 0 <= i <= |rows|
      invariant forall k :: 0 <= k < i ==> rows[k].rtime != t2 + 30
      invariant bolusSum == BolusTotal(rows[..i]) && t3 == LastBolusTime(rows[..i], t2)
    {
      if rows[i].rtime == t2 + 30 {
        return Ok((bolusSum, t3));
      }
      PrefixStep(rows, i);
      if Positive(rows[i]) {
        bolusSum := bolusSum + rows[i].bolus.value;
        t3 := rows[i].rtime;
      }
      i := i + 1;
    }
    return Err(GenericError);
  }

  // ---------------------------------------------------------------
  // boluses_in_time_range
  // ---------------------------------------------------------------

  /** Some row with `start <= rtime <= end` (inclusive) has a bolus. */
  predicate BolusesIn(rows: seq<Row>, start: int, end: int)
  {
    exists k :: 0 <= k < |rows| && start <= rows[k].rtime <= end && Positive(rows[k])
  }

  /** The loop of `boluses_in_time_range`. */
  method BolusesInTimeRange(rows: seq<Row>, start: int, end: int) returns (b: bool)
    ensures b == BolusesIn(rows, start, end)
  {
    for i := 0 to |rows|
      invariant forall k :: 0 <= k < i ==> !(start <= rows[k].rtime <= end && Positive(rows[k]))
    {
      if start <= rows[i].rtime <= end && Positive(rows[i]) {
        return true;
      }
    }
    return false;
  }

  /** Widening the range can only find more boluses. */
  lemma BolusesInWiden(rows: seq<Row>, s1: int, e1: int, s2: int, e2: int)
    requires s2 <= s1 && e1 <= e2 && BolusesIn(rows, s1, e1)
    ensures BolusesIn(rows, s2, e2)
  {
    var k :| 0 <= k < |rows| && s1 <= rows[k].rtime <= e1 && Positive(rows[k]);
    assert s2 <= rows[k].rtime <= e2;
  }

  // ---------------------------------------------------------------
  // bg_at_time
  // ---------------------------------------------------------------

  /** A row within ten minutes after `t` that has a blood glucose or a CGM
      value. */
  predicate Usable(r: Row, t: int)
  {
    t <= r.rtime <= t + 10 && (Truthy(r.bg) || Truthy(r.cgm))
  }

  /** The measured value of a row: the finger-stick BG when present,
      otherwise the CGM. */
  function Reading(r: Row): real
    requires Truthy(r.bg) || Truthy(r.cgm)
  {
    if Truthy(r.bg) then r.bg.value else r.cgm.value
  }

  function FirstUsable(rows: seq<Row>, t: int): (j: nat)
    ensures j <= |rows|
    ensures forall k :: 0 <= k < j ==> !Usable(rows[k], t)
    ensures j < |rows| ==> Usable(rows[j], t)
  {
    if rows == [] then 0 else if Usable(rows[0], t) then 0 else 1 + FirstUsable(rows[1..], t)
  }

  /** `bg_at_time`: the reading of the first usable row, `None` if none. */
  function BgAt(rows: seq<Row>, t: int): (r: Option<real>)
    ensures r.None? <==> forall k :: 0 <= k < |rows| ==> !Usable(rows[k], t)
    ensures r.Some? ==> Truthy(r)
  {
    var j := FirstUsable(rows, t);
    if j < |rows| then Some(Reading(rows[j])) else None
  }

  /** A usable row's BG is preferred to its CGM, and rows before the first
      usable one are never consulted. */
  lemma BgAtPrefersBg(rows: seq<Row>, t: int, j: nat)
    requires j < |rows| && Usable(rows[j], t) && forall k :: 0 <= k < j ==> !Usable(rows[k], t)
    ensures Truthy(rows[j].bg) ==> BgAt(rows, t) == rows[j].bg
    ensures !Truthy(rows[j].bg) ==> BgAt(rows, t) == rows[j].cgm
  {
    assert FirstUsable(rows, t) == j;
  }

  /** The loop of `bg_at_time`. */
  method BgAtTime(rows: seq<Row>, t: int) returns (r: Option<real>)
    ensures r == BgAt(rows, t)
  {
    for i := 0 to |rows|
      invariant forall k :: 0 <= k < i ==> !Usable(rows[k], t)
    {
      if t <= rows[i].rtime <= t + 10 {
        if Truthy(rows[i].bg) {
          BgAtPrefersBg(rows, t, i);
          return rows[i].bg;
        }
        if Truthy(rows[i].cgm) {
          BgAtPrefersBg(rows, t, i);
          return rows[i].cgm;
        }
      }
    }
    return None;
  }

  // ---------------------------------------------------------------
  // bg_at_time_extended
  // ---------------------------------------------------------------

  /** How many rows `bg_at_time_extended` probes. */
  const NumProbes: nat := 12

  /** The `k`-th offset probed around the row at `t`: 0, 1, -1, 2, -2, then
      3 to 9. */
  function ProbeOffset(k: nat): (d: int)
    requires k < NumProbes
    ensures -2 <= d <= 9
  {
    if k == 0 then 0 else if k == 1 then 1 else if k == 2 then -1
    else if k == 3 then 2 else if k == 4 then -2 else k - 2
  }

  lemma ProbeOffsets()
    ensures seq(NumProbes, k requires 0 <= k < NumProbes => ProbeOffset(k)) == [0, 1, -1, 2, -2, 3, 4, 5, 6, 7, 8, 9]
  {
  }

  /** Python's `s[i]`: a negative index counts from the end; anything
      further out raises `IndexError`. */
  function PyIndex<T>(s: seq<T>, i: int): (r: Option<T>)
    ensures r.Some? <==> -|s| <= i < |s|
  {
    if 0 <= i < |s| then Some(s[i]) else if -|s| <= i < 0 then Some(s[|s| + i]) else None
  }

  /** The probes from the `k`-th on. */
  function ProbeFrom(rows: seq<Row>, base: int, k: nat): Result<Option<real>>
    requires k <= NumProbes
    decreases NumProbes - k
  {
    if k == NumProbes then Ok(None)
    else match PyIndex(rows, base + ProbeOffset(k))
      case None => Err(IndexError)
      case Some(row) =>
        if Truthy(row.bg) then Ok(row.bg)
        else if Truthy(row.cgm) then Ok(row.cgm)
        else ProbeFrom(rows, base, k + 1)
  }

  /** `bg_at_time_extended`: the rows at offsets 0, 1, -1, 2, -2, 3, ..., 9
      from the first row at `t` are tried in turn. */
  function BgAtTimeExtended(rows: seq<Row>, t: int): Result<Option<real>>
  {
    ProbeFrom(rows, FirstAt(rows, t), 0)
  }

  /** The two loops of `bg_at_time_extended`. */
  method BgAtTimeExtendedLoop(rows: seq<Row>, t: int) returns (r: Result<Option<real>>)
    ensures r == BgAtTimeExtended(rows, t)
  {
    var base := 0;
    while base < |rows| && rows[base].rtime != t
      invariant 0 <= base <= |rows|
      invariant forall k :: 0 <= k < base ==> rows[k].rtime != t
    {
      base := base + 1;
    }
    assert base == FirstAt(rows, t);
    r := ProbeLoop(rows, base);
  }

  /** The `for delta in [...]` loop of `bg_at_time_extended`. */
  method ProbeLoop(rows: seq<Row>, base: int) returns (r: Result<Option<real>>)
    ensures r == ProbeFrom(rows, base, 0)
  {
    for k := 0 to NumProbes
      invariant ProbeFrom(rows, base, k) == ProbeFrom(rows, base, 0)
    {
      var row := PyIndex(rows, base + ProbeOffset(k));
      if row.None? {
        return Err(IndexError);
      }
      if Truthy(row.value.bg) {
        return Ok(row.value.bg);
      }
      if Truthy(row.value.cgm) {
        return Ok(row.value.cgm);
      }
    }
    return Ok(None);
  }

  /** Without a row at `t` the first probe reads past the end. */
  lemma BgExtendedMissing(rows: seq<Row>, t: int)
    requires forall k :: 0 <= k < |rows| ==> rows[k].rtime != t
    ensures BgAtTimeExtended(rows, t) == Err(IndexError)
  {
    assert FirstAt(rows, t) == |rows|;
  }

  /** The `k`-th probed row as a plain index. */
  function ProbeIndex(base: int, k: nat): (i: int)
    requires k < NumProbes
    ensures base - 2 <= i <= base + 9
  {
    base + ProbeOffset(k)
  }

  lemma {:induction false} ProbeFromInside(rows: seq<Row>, base: int, k: nat)
    requires k <= NumProbes && 2 <= base && base + 9 < |rows|
    ensures ProbeFrom(rows, base, k).Ok?
    ensures ProbeFrom(rows, base, k) == Ok(None) <==>
      forall m :: k <= m < NumProbes ==> !Truthy(rows[ProbeIndex(base, m)].bg) && !Truthy(rows[ProbeIndex(base, m)].cgm)
    ensures ProbeFrom(rows, base, k).value.Some? ==>
      exists m :: k <= m < NumProbes && (Truthy(rows[ProbeIndex(base, m)].bg) || Truthy(rows[ProbeIndex(base, m)].cgm)) &&
        ProbeFrom(rows, base, k).value.value == Reading(rows[ProbeIndex(base, m)])
    decreases NumProbes - k
  {
    if k < NumProbes {
      assert 0 <= ProbeIndex(base, k) < |rows|;
      ProbeFromInside(rows, base, k + 1);
    }
  }

  /** With the row at `t` neither among the first two nor among the last nine, every probe
      stays inside the window: the result is the reading of one of the
      twelve probed rows, or `None` when none of them has one. */
  lemma BgExtendedInside(rows: seq<Row>, t: int)
    requires 2 <= FirstAt(rows, t) && FirstAt(rows, t) + 9 < |rows|
    ensures var b := FirstAt(rows, t); var r := BgAtTimeExtended(rows, t);
      && r.Ok?
      && (r.value.None? <==> forall m :: 0 <= m < NumProbes ==>
            !Truthy(rows[ProbeIndex(b, m)].bg) && !Truthy(rows[ProbeIndex(b, m)].cgm))
  {
    ProbeFromInside(rows, FirstAt(rows, t), 0);
  }

  /** When the row at `t` is the first row, the probe at offset -1 does not
      fail but reads the window's last row, 45 minutes after `t`. */
  lemma BgExtendedWrapsAround()
    ensures var rows := [Row(0, false, None, None, None), Row(5, false, None, None, None), Row(45, false, Some(90.0), None, None)];
      BgAtTimeExtended(rows, 0) == Ok(Some(90.0))
  {
    var rows := [Row(0, false, None, None, None), Row(5, false, None, None, None), Row(45, false, Some(90.0), None, None)];
    assert FirstAt(rows, 0) == 0;
    assert PyIndex(rows, -1) == Some(rows[2]);
  }

  // ---------------------------------------------------------------
  // compute_isf: one corrective event
  // ---------------------------------------------------------------

  /** What `compute_isf` records for a corrective event. */
  datatype Outcome =
    | InsulinBefore(t2: int)
    | BolusTooSmall(t3: int)
    | InsulinInMiddle(t3: int, alsoT2: bool)
    | NoBg(t3: int, startMissing: bool)
    | Isf(t3: int, bg0: real, bg1: real, bolus: real, insulinAtEnd: bool, priorInsulin: bool)

  /** The ISF written for a good event: the glucose drop per unit of
      insulin (`(bg_at_t3 - bg_at_t5) / bolus_sum`). */
  function IsfOf(o: Outcome): (isf: real)
    requires o.Isf? && o.bolus != 0.0
    ensures isf * o.bolus == o.bg0 - o.bg1
  {
    DivMul(o.bg0 - o.bg1, o.bolus);
    (o.bg0 - o.bg1) / o.bolus
  }

  /** `compute_isf` for the corrective bolus at `t2`, with the table read by
      its windowed queries (`any_bolus_in_time_span`, `get_window`,
      `get_bg_time_window`). */
  function IsfEvent(table: seq<Row>, t2: int): Result<Outcome>
  {
    var t1 := t2 - 100;
    var prior := BolusesIn(table, t2 - 240, t1);
    if BolusesIn(table, t1, t2 - 5) then Ok(InsulinBefore(t2))
    else
      var rows := Window(table, t2, t2 + 150);
      match BolusSumDuringStart(rows, t2)
      case Err(e) => Err(e)
      case Ok((bolusSum, t3)) => AfterStart(table, rows, t2, bolusSum, t3, prior)
  }

  /** The checks after the start period, from `t3` on. */
  function AfterStart(table: seq<Row>, rows: seq<Row>, t2: int, bolusSum: real, t3: int, prior: bool): Result<Outcome>
  {
    if bolusSum < MinBolus then Ok(BolusTooSmall(t3))
    else if BolusesIn(rows, t3 + 5, t3 + 95) then Ok(InsulinInMiddle(t3, t2 != t3))
    else Measure(table, rows, t3, bolusSum, BolusesIn(rows, t3 + 100, t3 + 120), prior)
  }

  /** The glucose at `t3` and at `t5 = t3 + 120`, and the ISF from them. */
  function Measure(table: seq<Row>, rows: seq<Row>, t3: int, bolusSum: real, atEnd: bool, prior: bool): Result<Outcome>
  {
    var t5 := t3 + 120;
    var bg3 := BgAt(rows, t3);
    match BgAtTimeExtended(Window(table, t5 - 10, t5 + 45), t5)
    case Err(e) => Err(e)
    case Ok(bg5) =>
      if Truthy(bg3) && Truthy(bg5) then
        Ok(Isf(t3, bg3.value, bg5.value, bolusSum, atEnd, prior))
      else Ok(NoBg(t3, !Truthy(bg3)))
  }

  lemma MeasureGood(table: seq<Row>, rows: seq<Row>, t3: int, bolusSum: real, atEnd: bool, prior: bool)
    requires Measure(table, rows, t3, bolusSum, atEnd, prior).Ok? && Measure(table, rows, t3, bolusSum, atEnd, prior).value.Isf?
    ensures var o := Measure(table, rows, t3, bolusSum, atEnd, prior).value;
      o.bolus == bolusSum && o.t3 == t3 && o.bg0 == BgAt(rows, t3).value
  {
  }

  /** An ISF is the drop in glucose from `t3` to `t3 + 120` per unit of
      insulin, from a start-period bolus sum of at least 0.35, with no bolus
      in the middle period. */
  lemma AfterStartGood(table: seq<Row>, rows: seq<Row>, t2: int, bolusSum: real, t3: int, prior: bool)
    requires AfterStart(table, rows, t2, bolusSum, t3, prior).Ok? && AfterStart(table, rows, t2, bolusSum, t3, prior).value.Isf?
    ensures var o := AfterStart(table, rows, t2, bolusSum, t3, prior).value;
      && o.bolus == bolusSum >= MinBolus && o.t3 == t3
      && o.bg0 == BgAt(rows, t3).value
      && !BolusesIn(rows, t3 + 5, t3 + 95)
  {
    MeasureGood(table, rows, t3, bolusSum, BolusesIn(rows, t3 + 100, t3 + 120), prior);
  }

  lemma DivMul(x: real, d: real)
    requires d != 0.0
    ensures (x / d) * d == x
  {
  }

  /** The filter chain of `compute_isf`: an event is skipped for a bolus in
      the period from 100 to 5 minutes before it. */
  lemma IsfEventBefore(table: seq<Row>, t2: int)
    ensures BolusesIn(table, t2 - 100, t2 - 5) <==> IsfEvent(table, t2) == Ok(InsulinBefore(t2))
  {
    if !BolusesIn(table, t2 - 100, t2 - 5) {
      var rows := Window(table, t2, t2 + 150);
      var r := BolusSumDuringStart(rows, t2);
      if r.Ok? {
        AfterStartNotBefore(table, rows, t2, r.value.0, r.value.1, BolusesIn(table, t2 - 240, t2 - 100));
      }
    }
  }

  lemma AfterStartNotBefore(table: seq<Row>, rows: seq<Row>, t2: int, bolusSum: real, t3: int, prior: bool)
    ensures AfterStart(table, rows, t2, bolusSum, t3, prior).Ok? ==> !AfterStart(table, rows, t2, bolusSum, t3, prior).value.InsulinBefore?
  {
    if bolusSum >= MinBolus && !BolusesIn(rows, t3 + 5, t3 + 95) {
      var m := Measure(table, rows, t3, bolusSum, BolusesIn(rows, t3 + 100, t3 + 120), prior);
      assert m.Ok? ==> m.value.Isf? || m.value.NoBg?;
    }
  }

  /** Otherwise a start-period bolus sum below 0.35 skips it, tagged at
      `t3`, and a missing row at `t2 + 30` raises. */
  lemma IsfEventTooSmall(table: seq<Row>, t2: int)
    requires !BolusesIn(table, t2 - 100, t2 - 5)
    ensures var s := BolusSumDuringStart(Window(table, t2, t2 + 150), t2);
      && (s.Err? ==> IsfEvent(table, t2) == Err(s.error))
      && (s.Ok? && s.value.0 < MinBolus ==> IsfEvent(table, t2) == Ok(BolusTooSmall(s.value.1)))
  {
  }

  /** A good event's ISF (`IsfOf`) comes from a start-period bolus sum of at least
      0.35, with no bolus in the 95 minutes before the event nor in the
      middle period after `t3`. */
  lemma IsfEventGood(table: seq<Row>, t2: int)
    requires IsfEvent(table, t2).Ok? && IsfEvent(table, t2).value.Isf?
    ensures var o := IsfEvent(table, t2).value; var rows := Window(table, t2, t2 + 150);
      && o.bolus >= MinBolus
      && !BolusesIn(table, t2 - 100, t2 - 5)
      && BolusSumDuringStart(rows, t2) == Ok((o.bolus, o.t3))
      && !BolusesIn(rows, o.t3 + 5, o.t3 + 95)
  {
    IsfEventBefore(table, t2);
    var rows := Window(table, t2, t2 + 150);
    var r := BolusSumDuringStart(rows, t2);
    var a := AfterStart(table, rows, t2, r.value.0, r.value.1, BolusesIn(table, t2 - 240, t2 - 100));
    assert IsfEvent(table, t2) == a;
    AfterStartGood(table, rows, t2, r.value.0, r.value.1, BolusesIn(table, t2 - 240, t2 - 100));
  }

  /** After the start period the outcome is decided from `t3` on. */
  lemma IsfEventAfterStart(table: seq<Row>, t2: int)
    requires !BolusesIn(table, t2 - 100, t2 - 5)
    requires BolusSumDuringStart(Window(table, t2, t2 + 150), t2).Ok?
    ensures var rows := Window(table, t2, t2 + 150); var s := BolusSumDuringStart(rows, t2).value;
      IsfEvent(table, t2) == AfterStart(table, rows, t2, s.0, s.1, BolusesIn(table, t2 - 240, t2 - 100))
  {
  }

  /** The corrective events, in table order. */
  function Corrective(table: seq<Row>): (e: seq<Row>)
    ensures |e| <= |table|
  {
    if table == [] then [] else (if table[0].corrective then [table[0]] else []) + Corrective(table[1..])
  }

  /** The events are exactly the table's corrective rows. */
  lemma {:induction false} CorrectiveMembers(table: seq<Row>)
    ensures forall r :: r in Corrective(table) <==> r in table && r.corrective
  {
    if table != [] {
      CorrectiveMembers(table[1..]);
      assert table == [table[0]] + table[1..];
    }
  }

  /** The loop of `compute_isf` over the events from `events` on: one
      outcome per event in order; the first exception ends the run. */
  function IsfEvents(table: seq<Row>, events: seq<Row>): (r: Result<seq<Outcome>>)
    ensures r.Ok? <==> forall k :: 0 <= k < |events| ==> IsfEvent(table, events[k].rtime).Ok?
    ensures r.Ok? ==> |r.value| == |events|
    ensures r.Ok? ==> forall k :: 0 <= k < |events| ==> r.value[k] == IsfEvent(table, events[k].rtime).value
  {
    if events == [] then Ok([])
    else match IsfEvent(table, events[0].rtime)
      case Err(e) => Err(e)
      case Ok(o) =>
        var rest := IsfEvents(table, events[1..]);
        assert forall k :: 1 <= k < |events| ==> events[1..][k - 1] == events[k];
        if rest.Err? then Err(rest.error) else Ok([o] + rest.value)
  }

  /** `compute_isf` on the whole table. */
  function ComputeIsf(table: seq<Row>): Result<seq<Outcome>>
  {
    IsfEvents(table, Corrective(table))
  }

  /** When the first `i` events succeed and the next raises, the run raises
      that exception. */
  lemma {:induction false} IsfEventsFirstErr(table: seq<Row>, events: seq<Row>, i: nat)
    requires i < |events| && IsfEvent(table, events[i].rtime).Err?
    requires forall k :: 0 <= k < i ==> IsfEvent(table, events[k].rtime).Ok?
    ensures IsfEvents(table, events) == Err(IsfEvent(table, events[i].rtime).error)
  {
    if i > 0 {
      var tail := events[1..];
      assert IsfEvent(table, events[0].rtime).Ok?;
      forall k | 0 <= k < i - 1
        ensures IsfEvent(table, tail[k].rtime).Ok?
      {
        assert tail[k] == events[k + 1];
      }
      assert tail[i - 1] == events[i];
      IsfEventsFirstErr(table, tail, i - 1);
    }
  }

  /** The body of the loop of `compute_isf`, as the source runs it, with the
      scan loops above. */
  method IsfEventLoop(table: seq<Row>, t2: int) returns (r: Result<Outcome>)
    ensures r == IsfEvent(table, t2)
  {
    var t1 := t2 - 100;
    var prior := BolusesIn(table, t2 - 240, t1);
    if BolusesIn(table, t1, t2 - 5) {
      return Ok(InsulinBefore(t2));
    }
    var rows := Window(table, t2, t2 + 150);
    var s := BolusSumDuringStartLoop(rows, t2);
    if s.Err? {
      return Err(s.error);
    }
    IsfEventAfterStart(table, t2);
    r := AfterStartLoop(table, rows, t2, s.value.0, s.value.1, prior);
  }

  /** The checks after the start period, with the scan loops. */
  method AfterStartLoop(table: seq<Row>, rows: seq<Row>, t2: int, bolusSum: real, t3: int, prior: bool) returns (r: Result<Outcome>)
    ensures r == AfterStart(table, rows, t2, bolusSum, t3, prior)
  {
    if bolusSum < MinBolus {
      return Ok(BolusTooSmall(t3));
    }
    var t4 := t3 + 100;
    var t5 := t4 + 20;
    var inMiddle := BolusesInTimeRange(rows, t3 + 5, t4 - 5);
    if inMiddle {
      return Ok(InsulinInMiddle(t3, t2 != t3));
    }
    var atEnd := BolusesInTimeRange(rows, t4, t5);
    r := MeasureLoop(table, rows, t3, bolusSum, atEnd, prior);
  }

  /** The glucose reads and the outcome, with the scan loops. */
  method MeasureLoop(table: seq<Row>, rows: seq<Row>, t3: int, bolusSum: real, atEnd: bool, prior: bool) returns (r: Result<Outcome>)
    ensures r == Measure(table, rows, t3, bolusSum, atEnd, prior)
  {
    var t5 := t3 + 120;
    var bg3 := BgAtTime(rows, t3);
    var bg5 := BgAtTimeExtendedLoop(Window(table, t5 - 10, t5 + 45), t5);
    if bg5.Err? {
      return Err(bg5.error);
    }
    if Truthy(bg3) && Truthy(bg5.value) {
      return Ok(Isf(t3, bg3.value, bg5.value.value, bolusSum, atEnd, prior));
    }
    return Ok(NoBg(t3, !Truthy(bg3)));
  }

  /** The counters of `compute_isf`. */
  datatype IsfTally = IsfTally(before: nat, small: nat, middle: nat, nobgBeg: nat, nobgEnd: nat, good: nat, insulinBefore: nat)

  /** One outcome's effect on the counters: a missing start glucose is
      counted as such even when the end glucose is missing too. */
  function Count(t: IsfTally, o: Outcome): IsfTally
  {
    match o
    case InsulinBefore(_) => t.(before := t.before + 1)
    case BolusTooSmall(_) => t.(small := t.small + 1)
    case InsulinInMiddle(_, _) => t.(middle := t.middle + 1)
    case NoBg(_, startMissing) =>
      if startMissing then t.(nobgBeg := t.nobgBeg + 1) else t.(nobgEnd := t.nobgEnd + 1)
    case Isf(_, _, _, _, _, prior) =>
      t.(good := t.good + 1, insulinBefore := if prior then t.insulinBefore + 1 else t.insulinBefore)
  }

  /** The counters after the outcomes `os`, in order. */
  function Tallied(os: seq<Outcome>): IsfTally
  {
    if os == [] then IsfTally(0, 0, 0, 0, 0, 0, 0)
    else Count(Tallied(os[..|os| - 1]), os[|os| - 1])
  }

  /** The closing report's sum holds: the five skip counters and the good
      events add up to the total, and the good events with prior insulin
      are among the good ones. */
  lemma {:induction false} TalliedTotal(os: seq<Outcome>)
    ensures var t := Tallied(os);
      t.before + t.small + t.middle + t.nobgBeg + t.nobgEnd + t.good == |os| && t.insulinBefore <= t.good
  {
    if os != [] {
      TalliedTotal(os[..|os| - 1]);
    }
  }

  /** The loop of `compute_isf` over the corrective events, with its
      counters. */
  method ComputeIsfLoop(table: seq<Row>) returns (r: Result<seq<Outcome>>, t: IsfTally)
    ensures r == ComputeIsf(table)
    ensures r.Ok? ==> t == Tallied(r.value)
  {
    var events := Corrective(table);
    var os: seq<Outcome> := [];
    t := IsfTally(0, 0, 0, 0, 0, 0, 0);
    for i := 0 to |events|
      invariant |os| == i
      invariant forall k :: 0 <= k < i ==> IsfEvent(table, events[k].rtime) == Ok(os[k])
      invariant t == Tallied(os)
    {
      var o := IsfEventLoop(table, events[i].rtime);
      if o.Err? {
        IsfEventsFirstErr(table, events, i);
        return Err(o.error), t;
      }
      assert (os + [o.value])[..i] == os;
      t := Count(t, o.value);
      os := os + [o.value];
    }
    assert IsfEvents(table, events).value == os;
    r := Ok(os);
  }

  // ---------------------------------------------------------------
  // getRecentISF
  // ---------------------------------------------------------------

  predicate Sorted(s: seq<real>)
  {
    forall i, j :: 0 <= i < j < |s| ==> s[i] <= s[j]
  }

  function Insert(x: real, s: seq<real>): (r: seq<real>)
    requires Sorted(s)
    ensures Sorted(r) && multiset(r) == multiset(s) + multiset{x}
    ensures forall k :: 0 <= k < |r| ==> r[k] == x || r[k] in s
  {
    if s == [] then [x]
    else if x <= s[0] then [x] + s
    else
      var t := Insert(x, s[1..]);
      InsertAbove(s, x, t);
      assert s == [s[0]] + s[1..];
      [s[0]] + t
  }

  lemma InsertAbove(s: seq<real>, x: real, t: seq<real>)
    requires Sorted(s) && s != [] && x > s[0] && Sorted(t)
    requires forall k :: 0 <= k < |t| ==> t[k] == x || t[k] in s[1..]
    ensures Sorted([s[0]] + t)
    ensures forall k :: 0 <= k < |[s[0]] + t| ==> ([s[0]] + t)[k] == x || ([s[0]] + t)[k] in s
  {
    forall k | 0 <= k < |t| ensures s[0] <= t[k] && (t[k] == x || t[k] in s) {
      if t[k] != x {
        var j :| 0 <= j < |s[1..]| && s[1..][j] == t[k];
        assert s[j + 1] == t[k];
      }
    }
  }

  /** Python's `sorted` on the fetched values. */
  function SortReals(s: seq<real>): (r: seq<real>)
    ensures Sorted(r) && multiset(r) == multiset(s)
  {
    if s == [] then []
    else
      assert s == [s[0]] + s[1..];
      Insert(s[0], SortReals(s[1..]))
  }

  /** `recur(min_weeks, max_weeks)`: bisection on the number of weeks; at
      adjacent bounds the lower one is kept when its query has `min_data`
      rows, and the upper one otherwise.  `isfs(w)` is what the query over
      the last `w` weeks fetches, so its length is `curs.rowcount`. */
  function Recur(isfs: int -> seq<real>, minData: int, lo: int, hi: int): (r: (int, seq<real>))
    requires 0 <= lo < hi
    ensures lo <= r.0 <= hi && Sorted(r.1) && multiset(r.1) == multiset(isfs(r.0))
    ensures |isfs(hi)| >= minData ==> |isfs(r.0)| >= minData && (r.0 > lo ==> |isfs(r.0 - 1)| < minData)
    decreases hi - lo
  {
    var mid := (lo + hi) / 2;
    if hi == lo + 1 then
      if |isfs(mid)| < minData then (hi, SortReals(isfs(hi))) else (lo, SortReals(isfs(mid)))
    else if |isfs(mid)| >= minData then Recur(isfs, minData, lo, mid)
    else Recur(isfs, minData, mid, hi)
  }

  /** `doubling_up(min_weeks)`: the weeks double until the query has
      `min_data` rows, then `recur` bisects between half and all of them.
      `fuel` bounds the recursion as Python's recursion limit does; with zero
      weeks neither branch ever returns. */
  function DoublingUp(isfs: int -> seq<real>, minData: int, w: nat, fuel: nat): (r: Result<(int, seq<real>)>)
    ensures r.Ok? ==> Answers(isfs, minData, w / 2, r.value)
    decreases fuel
  {
    if fuel == 0 then Err(GenericError)
    else if |isfs(w)| >= minData then
      if w == 0 then Err(GenericError)
      else
        var r := Recur(isfs, minData, w / 2, w);
        assert |r.1| == |multiset(r.1)|;
        Ok(r)
    else
      var r := DoublingUp(isfs, minData, 2 * w, fuel - 1);
      if r.Ok? then
        assert (2 * w) / 2 == w;
        AnswersWiden(isfs, minData, w, r.value);
        r
      else r
  }

  /** What a successful search returns, having started from `lo` weeks: at
      least `lo` weeks, the sorted values of that many weeks, at least
      `min_data` of them, and too few values for one week fewer. */
  predicate Answers(isfs: int -> seq<real>, minData: int, lo: int, r: (int, seq<real>))
  {
    && lo <= r.0
    && Sorted(r.1) && multiset(r.1) == multiset(isfs(r.0))
    && |r.1| >= minData
    && (r.0 > lo ==> |isfs(r.0 - 1)| < minData)
  }

  lemma AnswersWiden(isfs: int -> seq<real>, minData: int, w: nat, r: (int, seq<real>))
    requires Answers(isfs, minData, w, r) && |isfs(w)| < minData
    ensures Answers(isfs, minData, w / 2, r)
  {
    assert |r.1| == |multiset(r.1)|;
  }

  /** `getRecentISF(time_bucket, num_weeks, min_data)`: the weeks used and
      the ISF values of the bucket from those weeks, sorted ascending. */
  function GetRecentIsf(isfs: int -> seq<real>, numWeeks: nat, minData: int, fuel: nat): Result<(int, seq<real>)>
  {
    DoublingUp(isfs, minData, numWeeks, fuel)
  }

  /** Counts that grow with the number of weeks, as they do for a query of
      the rows newer than a date that moves back one week per week. */
  ghost predicate Monotone(isfs: int -> seq<real>)
  {
    forall a, b :: 0 <= a <= b ==> |isfs(a)| <= |isfs(b)|
  }

  /** With growing counts the weeks returned are the fewest, from half the
      requested number on, whose query has `min_data` values; the values are
      exactly that query's, sorted, and there are at least `min_data`. */
  lemma GetRecentIsfLeast(isfs: int -> seq<real>, numWeeks: nat, minData: int, fuel: nat)
    requires Monotone(isfs) && GetRecentIsf(isfs, numWeeks, minData, fuel).Ok?
    ensures var r := GetRecentIsf(isfs, numWeeks, minData, fuel).value;
      && |r.1| >= minData && Sorted(r.1) && multiset(r.1) == multiset(isfs(r.0))
      && numWeeks / 2 <= r.0
      && forall v :: numWeeks / 2 <= v < r.0 ==> |isfs(v)| < minData
  {
    var r := GetRecentIsf(isfs, numWeeks, minData, fuel).value;
    forall v | numWeeks / 2 <= v < r.0 ensures |isfs(v)| < minData {
      assert |isfs(v)| <= |isfs(r.0 - 1)|;
    }
  }

  /** Zero weeks never returns: the recursion limit is reached. */
  lemma GetRecentIsfZeroWeeks(isfs: int -> seq<real>, minData: int, fuel: nat)
    ensures GetRecentIsf(isfs, 0, minData, fuel).Err?
  {
    if fuel > 0 && |isfs(0)| < minData {
      GetRecentIsfZeroWeeks(isfs, minData, fuel - 1);
    }
  }
}
