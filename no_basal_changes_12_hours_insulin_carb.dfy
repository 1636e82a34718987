/** `pre-process/old/no-basal-changes-12-hours-insulin_carb.py`: the same
    gap scan as `pre-process/no-basal-changes.py`, over
    `insulin_carb_grouped` and in report mode only. */
module NoBasalChanges12HoursInsulinCarb {
  import opened Common
  import NB = NoBasalChanges

  /** `no_basal_changes(time_delay)`: rows without a basal amount are
      skipped, the first row with one seeds `prev`, and `prev` is recorded
      when the next such row is more than `time_delay` later.  The loop is
      the one of the newer script without its update branch. */
  method NoBasalChanges(rows: seq<NB.BasalRow>, timeDelay: int) returns (gaps: seq<NB.BasalRow>)
    ensures gaps == NB.GapScan(None, rows, timeDelay)
    ensures forall g :: g in gaps ==> g in rows && NB.HasBasal(g)
  {
    var writes;
    gaps, writes := NB.NoBasalChanges(rows, timeDelay, false);
    NB.GapsHaveBasal(rows, timeDelay);
  }
}
