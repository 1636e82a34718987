/** `cleanregions.py`: five-hour clean regions for the reverse-engineered
    insulin action curve.  The loop of `get_clean_regions_5hr` is the one of
    `get_clean_regions_2hr` with a 280-minute `t4 - t3`, so it is the
    search of module `CleanRegions2hr` with those spans; its scan helpers
    are those of module `Isf2`.  Times are minutes. */
module CleanRegions {
  import opened Common
  import opened Isf2
  import opened CleanRegions2hr

  /** How far after `t2` the rows read by `get_longer_window` reach (five
      hours). */
  const FiveHourWindow: int := 300

  /** `t4 - t3` for five-hour regions. */
  const FiveHourMiddle: int := 280

  /** `get_clean_regions_5hr`: the loop with five-hour spans.  Every region
      inserted has a bolus of at least 0.35 and truthy glucose values at
      both ends. */
  method GetCleanRegions5hr(table: seq<Row>) returns (r: Result<Tally>, count: nat)
    ensures r == CleanRegions2hr.CleanRegions(table, FiveHourWindow, FiveHourMiddle)
    ensures r.Ok? ==> count == |r.value.regions|
    ensures r.Ok? ==> forall g :: g in r.value.regions ==> g.bolus >= MinBolus && g.bg0 != 0.0 && g.bg1 != 0.0
  {
    r, count := GetCleanRegions(table, FiveHourWindow, FiveHourMiddle);
    if r.Ok? {
      CleanRegionsValues(table, FiveHourWindow, FiveHourMiddle);
    }
  }

  /** For five-hour regions no bolus may fall in `[t3 + 5, t3 + 275]`, and
      the end glucose is read at `t5 = t3 + 300` from the rows from
      `t3 + 290` to `t3 + 345`. */
  lemma FiveHourRegion(table: seq<Row>, rows: seq<Row>, bolusSum: real, t3: int)
    requires RegionAfterStart(table, rows, FiveHourWindow, FiveHourMiddle, bolusSum, t3).Ok?
    requires RegionAfterStart(table, rows, FiveHourWindow, FiveHourMiddle, bolusSum, t3).value.Clean?
    ensures var g := RegionAfterStart(table, rows, FiveHourWindow, FiveHourMiddle, bolusSum, t3).value.region;
      && !BolusesIn(rows, t3 + 5, t3 + 275)
      && BgAtTimeExtended(Window(table, t3 + 290, t3 + 345), t3 + 300) == Ok(Some(g.bg1))
  {
    RegionAfterStartClean(table, rows, FiveHourWindow, FiveHourMiddle, bolusSum, t3);
    RegionAfterStartEnd(table, rows, FiveHourWindow, FiveHourMiddle, bolusSum, t3);
  }

  /** A bolus in the middle period skips a five-hour region that a
      two-hour search would keep: the middle periods nest. */
  lemma FiveHourStricter(rows: seq<Row>, t3: int)
    ensures BolusesIn(rows, t3 + 5, t3 + 95) ==> BolusesIn(rows, t3 + 5, t3 + 275)
  {
    if BolusesIn(rows, t3 + 5, t3 + 95) {
      BolusesInWiden(rows, t3 + 5, t3 + 95, t3 + 5, t3 + 275);
    }
  }
}
