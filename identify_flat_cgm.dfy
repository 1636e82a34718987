/** `identify_flat_cgm.py`: the streak state machine of `flat_areas`, which
    looks for runs of `realtime_cgm2` rows whose cgm does not change.  Times
    are whole seconds; `flat_time` may be missing (the default `None`), in
    which case comparing a duration with it raises.  The printed streak lines
    are returned as reports. */
module IdentifyFlatCgm {
  import opened Common

  datatype CgmRow = CgmRow(rtime: int, cgm: Option<int>)

  /** The loop's variables between rows. */
  datatype FlatState = FlatState(
    prevCgm: Option<int>, prevRtime: Option<int>, count: nat,
    streak: bool, long: bool, flatCgm: Option<int>, flatSince: Option<int>)

  /** One printed line: the streak number, its cgm, its start and its
      length up to the row that ended it. */
  datatype StreakReport = StreakReport(number: nat, cgm: int, since: int, length: int)

  const Initial := FlatState(None, None, 0, false, false, None, None)

  /** One row of the loop.  `rtime - flat_since` with no `flat_since`, and a
      comparison with a missing `flat_time`, raise `TypeError`, as does
      formatting a missing `flat_cgm` with `:3`. */
  function Step(st: FlatState, row: CgmRow, flatTime: Option<int>): Result<(FlatState, Option<StreakReport>)>
  {
    var next: Result<(FlatState, Option<StreakReport>)> :=
      if row.cgm.Some? && row.cgm != st.prevCgm then
        if st.long then
          if st.flatSince.None? || st.flatCgm.None? then Err(TypeError)
          else
            var n := st.count + 1;
            Ok((st.(count := n, streak := false, long := false, flatSince := None),
                Some(StreakReport(n, st.flatCgm.value, st.flatSince.value, row.rtime - st.flatSince.value))))
        else Ok((st.(streak := false, long := false, flatSince := None), None))
      else if !st.streak then
        Ok((st.(streak := true, flatSince := st.prevRtime, flatCgm := st.prevCgm), None))
      else if st.flatSince.None? || flatTime.None? then Err(TypeError)
      else if row.rtime - st.flatSince.value > flatTime.value then Ok((st.(long := true), None))
      else Ok((st, None));
    match next
    case Err(e) => Err(e)
    case Ok((s, rep)) => Ok((s.(prevCgm := row.cgm, prevRtime := Some(row.rtime)), rep))
  }

  /** The state and the reports after the given rows, in order. */
  function Run(rows: seq<CgmRow>, flatTime: Option<int>): Result<(FlatState, seq<StreakReport>)>
    decreases |rows|
  {
    if rows == [] then Ok((Initial, []))
    else Extend(Run(rows[..|rows| - 1], flatTime), rows[|rows| - 1], flatTime)
  }

  /** The run so far, followed by one more row. */
  function Extend(prior: Result<(FlatState, seq<StreakReport>)>, row: CgmRow, flatTime: Option<int>): Result<(FlatState, seq<StreakReport>)>
  {
    if prior.Err? then prior
    else match Step(prior.value.0, row, flatTime)
      case Err(e) => Err(e)
      case Ok((st, rep)) => Ok((st, prior.value.1 + (if rep.Some? then [rep.value] else [])))
  }

  function Reports(rows: seq<CgmRow>, flatTime: Option<int>): Result<seq<StreakReport>>
  {
    match Run(rows, flatTime)
    case Err(e) => Err(e)
    case Ok((_, reps)) => Ok(reps)
  }

  lemma StepOf(rows: seq<CgmRow>, i: nat, flatTime: Option<int>)
    requires i < |rows|
    ensures Run(rows[..i + 1], flatTime) == Extend(Run(rows[..i], flatTime), rows[i], flatTime)
  {
    assert rows[..i + 1][..i] == rows[..i] && rows[..i + 1][i] == rows[i];
  }

  /** One row, case by case: a new cgm value ends the streak (counting it
      when it was long); otherwise a streak starts from the previous row, or
      a running one becomes long once it has lasted more than the flat time;
      the row always becomes the previous row. */
  lemma StepMeaning(st: FlatState, row: CgmRow, flatTime: Option<int>)
    requires Step(st, row, flatTime).Ok?
    ensures var (st', rep) := Step(st, row, flatTime).value;
      st'.prevCgm == row.cgm && st'.prevRtime == Some(row.rtime) &&
      (row.cgm.Some? && row.cgm != st.prevCgm ==>
         !st'.streak && !st'.long && st'.flatSince.None? && st'.flatCgm == st.flatCgm &&
         st'.count == (if st.long then st.count + 1 else st.count) &&
         (rep.Some? <==> st.long)) &&
      (!(row.cgm.Some? && row.cgm != st.prevCgm) && !st.streak ==>
         st'.streak && st'.long == st.long && st'.flatSince == st.prevRtime && st'.flatCgm == st.prevCgm &&
         st'.count == st.count && rep.None?) &&
      (!(row.cgm.Some? && row.cgm != st.prevCgm) && st.streak ==>
         st'.streak && st'.flatSince == st.flatSince && st'.count == st.count && rep.None? &&
         (st'.long <==> st.long || row.rtime - st.flatSince.value > flatTime.value))
  {
  }

  /** A streak running on two rows with no `flat_since`, or a comparison
      with a missing flat time, raises `TypeError`. */
  lemma StepRaises(st: FlatState, row: CgmRow, flatTime: Option<int>)
    requires !(row.cgm.Some? && row.cgm != st.prevCgm) && st.streak
    requires st.flatSince.None? || flatTime.None?
    ensures Step(st, row, flatTime) == Err(TypeError)
  {
  }

  /** Once a prefix raises, the whole run raises the same error. */
  lemma {:induction false} RunErrSticks(rows: seq<CgmRow>, n: nat, flatTime: Option<int>)
    requires n <= |rows|
    requires Run(rows[..n], flatTime).Err?
    ensures Run(rows, flatTime) == Run(rows[..n], flatTime)
    decreases |rows| - n
  {
    if n < |rows| {
      StepOf(rows, n, flatTime);
      RunErrSticks(rows, n + 1, flatTime);
    } else {
      assert rows[..n] == rows;
    }
  }

  /** The body of `flat_areas`'s loop, on one row, with the streak
      variables as in the source. */
  method FlatRow(st: FlatState, row: CgmRow, flatTime: Option<int>) returns (r: Result<(FlatState, Option<StreakReport>)>)
    ensures r == Step(st, row, flatTime)
  {
    var count := st.count;
    var streak := st.streak;
    var long := st.long;
    var flatCgm := st.flatCgm;
    var flatSince := st.flatSince;
    var report: Option<StreakReport> := None;
    if row.cgm.Some? && row.cgm != st.prevCgm {
      if long {
        count := count + 1;
        if flatSince.None? || flatCgm.None? {
          return Err(TypeError);
        }
        report := Some(StreakReport(count, flatCgm.value, flatSince.value, row.rtime - flatSince.value));
      }
      streak := false;
      long := false;
      flatSince := None;
    } else if !streak {
      streak := true;
      flatSince := st.prevRtime;
      flatCgm := st.prevCgm;
    } else {
      if flatSince.None? || flatTime.None? {
        return Err(TypeError);
      }
      if row.rtime - flatSince.value > flatTime.value {
        long := true;
      }
    }
    r := Ok((FlatState(row.cgm, Some(row.rtime), count, streak, long, flatCgm, flatSince), report));
  }

  /** `flat_areas`: the loop over the fetched rows. */
  method FlatAreas(rows: seq<CgmRow>, flatTime: Option<int>) returns (r: Result<seq<StreakReport>>)
    ensures r == Reports(rows, flatTime)
  {
    var st := Initial;
    var reports: seq<StreakReport> := [];
    var i := 0;
    while i < |rows|
      invariant i <= |rows|
      invariant Run(rows[..i], flatTime) == Ok((st, reports))
    {
      StepOf(rows, i, flatTime);
      var next := FlatRow(st, rows[i], flatTime);
      if next.Err? {
        RunErrSticks(rows, i + 1, flatTime);
        return Err(next.error);
      }
      var (st', report) := next.value;
      st := st';
      if report.Some? {
        reports := reports + [report.value];
      } else {
        assert reports + [] == reports;
      }
      i := i + 1;
    }
    assert rows[..i] == rows;
    r := Ok(reports);
  }

  /** What holds between rows of a run that has not raised, after `n` rows
      with flat time `flatTime`. */
  predicate Consistent(st: FlatState, reps: seq<StreakReport>, n: nat)
  {
    // the streak counter counts the reports, which are numbered 1, 2, ...
    |reps| == st.count &&
    (forall k :: 0 <= k < |reps| ==> reps[k].number == k + 1) &&
    (st.prevRtime.Some? <==> n >= 1) &&
    // a row with no cgm always leaves a streak running
    (n >= 1 && st.prevCgm.None? ==> st.streak) &&
    // only a streak begun on the very first row has no start time
    (st.streak && st.flatSince.None? ==> n == 1) &&
    (st.streak && st.flatSince.Some? ==> st.flatCgm.Some?) &&
    (st.long ==> st.streak && st.flatSince.Some?)
  }

  lemma ConsistentStep(st: FlatState, reps: seq<StreakReport>, n: nat, row: CgmRow, flatTime: Option<int>)
    requires Consistent(st, reps, n)
    requires Step(st, row, flatTime).Ok?
    ensures var (st', rep) := Step(st, row, flatTime).value;
            Consistent(st', reps + (if rep.Some? then [rep.value] else []), n + 1)
  {
  }

  /** A run that has not raised keeps the streak variables consistent: in
      particular the printed counter counts exactly the long streaks that a
      changed cgm has ended, and reports are numbered from 1. */
  lemma {:induction false} RunConsistent(rows: seq<CgmRow>, flatTime: Option<int>)
    requires Run(rows, flatTime).Ok?
    ensures Consistent(Run(rows, flatTime).value.0, Run(rows, flatTime).value.1, |rows|)
    decreases |rows|
  {
    if rows != [] {
      var prior := rows[..|rows| - 1];
      RunConsistent(prior, flatTime);
      ConsistentStep(Run(prior, flatTime).value.0, Run(prior, flatTime).value.1, |prior|, rows[|rows| - 1], flatTime);
    }
  }

  /** With a flat time given, the only error is a streak begun on the first
      row (no cgm) and continued by the second (no cgm either): its
      `flat_since` is `None`. */
  lemma {:induction false} RunOk(rows: seq<CgmRow>, flatTime: Option<int>)
    requires flatTime.Some?
    requires |rows| >= 2 ==> rows[0].cgm.Some? || rows[1].cgm.Some?
    ensures Run(rows, flatTime).Ok?
    decreases |rows|
  {
    if rows != [] {
      var prior := rows[..|rows| - 1];
      assert |prior| >= 2 ==> prior[0] == rows[0] && prior[1] == rows[1];
      RunOk(prior, flatTime);
      RunConsistent(prior, flatTime);
      if |prior| == 1 {
        assert prior[0] == rows[0];
        assert rows[|rows| - 1] == rows[1];
      }
    }
  }

  /** Two leading rows without a cgm raise `TypeError`, whatever follows. */
  lemma LeadingNoneRaises(rows: seq<CgmRow>, flatTime: Option<int>)
    requires |rows| >= 2 && rows[0].cgm.None? && rows[1].cgm.None?
    ensures Run(rows, flatTime) == Err(TypeError)
  {
    StepOf(rows, 0, flatTime);
    assert rows[..0] == [];
    StepOf(rows, 1, flatTime);
    RunErrSticks(rows, 2, flatTime);
  }

  predicate Nondecreasing(rows: seq<CgmRow>)
  {
    forall j, k :: 0 <= j < k < |rows| ==> rows[j].rtime <= rows[k].rtime
  }

  /** Between rows of a run over time-ordered rows: a long streak has lasted
      more than the flat time by the previous row, and no report names a
      time after the last row. */
  predicate Timely(st: FlatState, reps: seq<StreakReport>, flatTime: int, last: int)
  {
    (st.long ==> st.prevRtime.Some? && st.flatSince.Some? && st.prevRtime.value - st.flatSince.value > flatTime) &&
    (st.flatSince.Some? ==> st.flatSince.value <= last) &&
    (forall k :: 0 <= k < |reps| ==> reps[k].length > flatTime)
  }

  lemma TimelyStep(st: FlatState, reps: seq<StreakReport>, row: CgmRow, flatTime: int, n: nat)
    requires Consistent(st, reps, n)
    requires Timely(st, reps, flatTime, row.rtime)
    requires st.prevRtime.Some? ==> st.prevRtime.value <= row.rtime
    requires Step(st, row, Some(flatTime)).Ok?
    ensures var (st', rep) := Step(st, row, Some(flatTime)).value;
            Timely(st', reps + (if rep.Some? then [rep.value] else []), flatTime, row.rtime)
  {
  }

  lemma {:induction false} RunTimely(rows: seq<CgmRow>, flatTime: int)
    requires Nondecreasing(rows)
    requires Run(rows, Some(flatTime)).Ok?
    ensures rows != [] ==> Timely(Run(rows, Some(flatTime)).value.0, Run(rows, Some(flatTime)).value.1, flatTime, rows[|rows| - 1].rtime)
    ensures rows == [] ==> Run(rows, Some(flatTime)).value.1 == []
    decreases |rows|
  {
    if rows != [] {
      var prior := rows[..|rows| - 1];
      var row := rows[|rows| - 1];
      assert Nondecreasing(prior);
      RunTimely(prior, flatTime);
      RunConsistent(prior, Some(flatTime));
      var st := Run(prior, Some(flatTime)).value.0;
      var reps := Run(prior, Some(flatTime)).value.1;
      if prior != [] {
        assert prior[|prior| - 1].rtime <= row.rtime;
        assert Timely(st, reps, flatTime, row.rtime);
        assert st.prevRtime == Some(prior[|prior| - 1].rtime) by {
          PrevIsLast(prior, Some(flatTime));
        }
      }
      TimelyStep(st, reps, row, flatTime, |prior|);
    }
  }

  lemma {:induction false} PrevIsLast(rows: seq<CgmRow>, flatTime: Option<int>)
    requires rows != [] && Run(rows, flatTime).Ok?
    ensures Run(rows, flatTime).value.0.prevRtime == Some(rows[|rows| - 1].rtime)
  {
    var prior := rows[..|rows| - 1];
    assert Run(prior, flatTime).Ok?;
  }

  /** Over time-ordered rows every reported streak lasted longer than the
      flat time. */
  lemma ReportsExceedFlatTime(rows: seq<CgmRow>, flatTime: int)
    requires Nondecreasing(rows)
    requires Reports(rows, Some(flatTime)).Ok?
    ensures forall k :: 0 <= k < |Reports(rows, Some(flatTime)).value| ==>
              Reports(rows, Some(flatTime)).value[k].length > flatTime
  {
    RunTimely(rows, flatTime);
  }
}
