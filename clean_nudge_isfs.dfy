/** `clean_nudge_isfs.py`: nudge ISFs over short windows inside a clean
    region, with the basal insulin of the window subtracted from its
    dynamic insulin.  The rows of the region are given as a sequence. */
module CleanNudgeIsfs {
  import opened Common
  import NudgeIsf

  /** The column of `nudge_isf_results` for each window length, in units of
      five minutes. */
  const WindowColumnMapping: map<int, string> :=
    map[1 := "clean_5_min", 3 := "clean_15_min", 6 := "clean_30_min", 24 := "clean_2_hr"]

  /** The four window lengths have four different columns. */
  lemma WindowColumnsDistinct()
    ensures WindowColumnMapping.Keys == {1, 3, 6, 24}
    ensures forall a, b :: a in WindowColumnMapping && b in WindowColumnMapping && a != b ==>
      WindowColumnMapping[a] != WindowColumnMapping[b]
  {
  }

  /** A row of `get_clean_window`: `rtime, cgm, dynamic_insulin`. */
  datatype WindowRow = WindowRow(rtime: int, cgm: Option<real>, di: Option<real>)

  /** The assumed steady-state basal, in units per hour. */
  const BasalAmtHr: real := 0.6

  /** `60 / (5 * window_length)`. */
  function WindowsPerHour(windowLength: int): real
    requires windowLength != 0
  {
    60.0 / (5.0 * windowLength as real)
  }

  /** `BASAL_AMT_HR / windows_per_hour`. */
  function BasalPerWindow(windowLength: int): real
    requires windowLength != 0
  {
    BasalAmtHr / WindowsPerHour(windowLength)
  }

  /** The basal of a window is 0.05 units per five minutes of it. */
  lemma BasalPerWindowIs(windowLength: int)
    requires windowLength != 0
    ensures BasalPerWindow(windowLength) == 0.05 * windowLength as real
  {
    var w := 5.0 * windowLength as real;
    var p := WindowsPerHour(windowLength);
    var q := BasalPerWindow(windowLength);
    assert p * w == 60.0;
    assert p != 0.0;
    assert q * p == 0.6;
    calc {
      q * 60.0;
      q * (p * w);
      (q * p) * w;
      0.6 * w;
    }
  }

  /** `MIN_DI = 0.01 * window_length`. */
  function MinDi(windowLength: int): real
  {
    0.01 * windowLength as real
  }

  /** The number of windows: `range(len(rows) - window_length + 1)`. */
  function Starts(n: int, windowLength: int): nat
  {
    if n - windowLength + 1 > 0 then n - windowLength + 1 else 0
  }

  /** `rows[i:i+window_length + 1]`: the slice is clamped at the end of the
      rows. */
  function WindowAt(rows: seq<WindowRow>, windowLength: int, i: int): seq<WindowRow>
    requires 1 <= windowLength && 0 <= i < Starts(|rows|, windowLength)
  {
    rows[i .. Min(i + windowLength + 1, |rows|)]
  }

  function Min(a: int, b: int): int { if a <= b then a else b }

  /** Every window has `window_length + 1` rows except the last, which the
      end of the rows cuts to `window_length`; it starts at row `i`. */
  lemma WindowAtSize(rows: seq<WindowRow>, windowLength: int, i: int)
    requires 1 <= windowLength && 0 <= i < Starts(|rows|, windowLength)
    ensures |WindowAt(rows, windowLength, i)| == if i + windowLength < |rows| then windowLength + 1 else windowLength
    ensures WindowAt(rows, windowLength, i)[0] == rows[i]
  {
  }

  function Dis(w: seq<WindowRow>): (d: seq<Option<real>>)
    ensures |d| == |w| && forall k :: 0 <= k < |w| ==> d[k] == w[k].di
  {
    seq(|w|, k requires 0 <= k < |w| => w[k].di)
  }

  /** `di_sum - basal_amt_per_window` of the window at `i`. */
  function ActiveDi(rows: seq<WindowRow>, windowLength: int, i: int): real
    requires 1 <= windowLength && 0 <= i < Starts(|rows|, windowLength)
  {
    NudgeIsf.TruthySum(Dis(WindowAt(rows, windowLength, i))) - BasalPerWindow(windowLength)
  }

  /** `(start_cgm - end_cgm) / active_di`. */
  function Fall(startCgm: real, endCgm: real, active: real): (isf: real)
    requires active != 0.0
    ensures isf * active == startCgm - endCgm
  {
    NudgeIsf.DivMul(startCgm - endCgm, active);
    (startCgm - endCgm) / active
  }

  /** What a window contributes. */
  datatype Step = SkipDi | SkipCgm | Isf(rtime: int, isf: real)

  /** The window at `i`: skipped when its active insulin is below the
      minimum, then when its start or end CGM is falsy; else the CGM fall
      per unit of active insulin, at the start time. */
  function WindowStep(rows: seq<WindowRow>, windowLength: int, i: int): Step
    requires 1 <= windowLength && 0 <= i < Starts(|rows|, windowLength)
  {
    var w := WindowAt(rows, windowLength, i);
    var active := ActiveDi(rows, windowLength, i);
    if active < MinDi(windowLength) then SkipDi
    else if NudgeIsf.Truthy(rows[i].cgm) && NudgeIsf.Truthy(w[|w| - 1].cgm) && active != 0.0 then
      Isf(rows[i].rtime, Fall(rows[i].cgm.value, w[|w| - 1].cgm.value, active))
    else SkipCgm
  }

  function Steps(rows: seq<WindowRow>, windowLength: int): (s: seq<Step>)
    requires 1 <= windowLength
    ensures |s| == Starts(|rows|, windowLength)
    ensures forall i :: 0 <= i < |s| ==> s[i] == WindowStep(rows, windowLength, i)
  {
    seq(Starts(|rows|, windowLength), i requires 0 <= i < Starts(|rows|, windowLength) => WindowStep(rows, windowLength, i))
  }

  /** The `(start_time, nudge_isf)` results, in order. */
  function Results(s: seq<Step>): (r: seq<(int, real)>)
    ensures |r| <= |s|
  {
    if s == [] then []
    else
      var n := |s| - 1;
      Results(s[..n]) + (if s[n].Isf? then [(s[n].rtime, s[n].isf)] else [])
  }

  function Count(s: seq<Step>, k: Step): nat
  {
    if s == [] then 0
    else
      var n := |s| - 1;
      Count(s[..n], k) + (if s[n] == k then 1 else 0)
  }

  lemma StepSnoc(done: seq<Step>, v: Step)
    ensures Results(done + [v]) == Results(done) + (if v.Isf? then [(v.rtime, v.isf)] else [])
    ensures forall k :: Count(done + [v], k) == Count(done, k) + (if v == k then 1 else 0)
  {
    assert (done + [v])[..|done|] == done;
  }

  /** Every window is skipped for its insulin, skipped for its CGM, or gives
      a result. */
  lemma {:induction false} StepsPartition(s: seq<Step>)
    ensures Count(s, SkipDi) + Count(s, SkipCgm) + |Results(s)| == |s|
  {
    if s != [] {
      var n := |s| - 1;
      StepsPartition(s[..n]);
      StepSnoc(s[..n], s[n]);
      assert s == s[..n] + [s[n]];
    }
  }

  /** A result needs truthy start and end CGM and at least the minimum
      active insulin; it is the CGM fall per unit of active insulin. */
  lemma WindowStepIsf(rows: seq<WindowRow>, windowLength: int, i: int)
    requires 1 <= windowLength && 0 <= i < Starts(|rows|, windowLength)
    requires WindowStep(rows, windowLength, i).Isf?
    ensures var w := WindowAt(rows, windowLength, i); var s := WindowStep(rows, windowLength, i);
      && s.rtime == rows[i].rtime
      && ActiveDi(rows, windowLength, i) >= MinDi(windowLength)
      && NudgeIsf.Truthy(rows[i].cgm) && NudgeIsf.Truthy(w[|w| - 1].cgm)
      && s.isf * ActiveDi(rows, windowLength, i) == rows[i].cgm.value - w[|w| - 1].cgm.value
  {
  }

  /** Past the insulin test the active insulin is positive, so a window is
      skipped for its CGM exactly when its start or end CGM is falsy. */
  lemma WindowStepCgm(rows: seq<WindowRow>, windowLength: int, i: int)
    requires 1 <= windowLength && 0 <= i < Starts(|rows|, windowLength)
    ensures var w := WindowAt(rows, windowLength, i);
      WindowStep(rows, windowLength, i) == SkipCgm <==>
        ActiveDi(rows, windowLength, i) >= MinDi(windowLength)
        && !(NudgeIsf.Truthy(rows[i].cgm) && NudgeIsf.Truthy(w[|w| - 1].cgm))
  {
  }

  /** Every result comes from a window giving it. */
  lemma {:induction false} ResultsFrom(s: seq<Step>, t: int, x: real)
    requires (t, x) in Results(s)
    ensures exists i :: 0 <= i < |s| && s[i] == Isf(t, x)
  {
    var n := |s| - 1;
    if (t, x) in Results(s[..n]) {
      ResultsFrom(s[..n], t, x);
      var i :| 0 <= i < n && s[..n][i] == Isf(t, x);
      assert s[i] == Isf(t, x);
    }
  }

  /** One window of `compute_nudge_isfs`, as the source computes it. */
  method WindowStepLoop(rows: seq<WindowRow>, windowLength: int, i: int) returns (s: Step)
    requires 1 <= windowLength && 0 <= i < Starts(|rows|, windowLength)
    ensures s == WindowStep(rows, windowLength, i)
  {
    var startRow := rows[i];
    var window := rows[i .. Min(i + windowLength + 1, |rows|)];
    var endRow := window[|window| - 1];
    var diSum := NudgeIsf.TruthySum(Dis(window));
    var activeDi := diSum - BasalPerWindow(windowLength);
    if activeDi < MinDi(windowLength) {
      return SkipDi;
    }
    if NudgeIsf.Truthy(startRow.cgm) && NudgeIsf.Truthy(endRow.cgm) && activeDi != 0.0 {
      return Isf(startRow.rtime, Fall(startRow.cgm.value, endRow.cgm.value, activeDi));
    }
    return SkipCgm;
  }

  /** The results and counters after the steps `done`. */
  predicate Counted(results: seq<(int, real)>, skippedDi: nat, skippedCgm: nat, completed: nat, done: seq<Step>)
  {
    results == Results(done) && skippedDi == Count(done, SkipDi)
    && skippedCgm == Count(done, SkipCgm) && completed == |Results(done)|
  }

  /** One step of the loop: a skip is counted, a result appended. */
  method Tick(results: seq<(int, real)>, skippedDi: nat, skippedCgm: nat, completed: nat, ghost s: seq<Step>, ghost i: nat, v: Step)
    returns (results': seq<(int, real)>, skippedDi': nat, skippedCgm': nat, completed': nat)
    requires i < |s| && v == s[i]
    requires Counted(results, skippedDi, skippedCgm, completed, s[..i])
    ensures Counted(results', skippedDi', skippedCgm', completed', s[..i + 1])
  {
    assert s[..i + 1] == s[..i] + [v];
    StepSnoc(s[..i], v);
    results', skippedDi', skippedCgm', completed' := results, skippedDi, skippedCgm, completed;
    match v {
      case SkipDi => skippedDi' := skippedDi + 1;
      case SkipCgm => skippedCgm' := skippedCgm + 1;
      case Isf(t, x) =>
        completed' := completed + 1;
        results' := results + [(t, x)];
    }
  }

  /** `compute_nudge_isfs` over the rows of a clean region.  A zero window
      length divides by zero computing `windows_per_hour`; a negative one
      indexes past the rows; with fewer rows than the window length no
      window is computed and `min` of the empty active-insulin list raises
      `ValueError`.  The counters are the source's printed statistics. */
  method ComputeNudgeIsfs(rows: seq<WindowRow>, windowLength: int)
    returns (r: Result<seq<(int, real)>>, skippedDi: nat, skippedCgm: nat, completed: nat)
    ensures windowLength == 0 ==> r == Err(ZeroDivisionError)
    ensures windowLength < 0 ==> r == Err(IndexError)
    ensures 1 <= windowLength && |rows| < windowLength ==> r == Err(ValueError)
    ensures 1 <= windowLength && windowLength <= |rows| ==> r == Ok(Results(Steps(rows, windowLength)))
    ensures 1 <= windowLength ==> skippedDi == Count(Steps(rows, windowLength), SkipDi)
    ensures 1 <= windowLength ==> skippedCgm == Count(Steps(rows, windowLength), SkipCgm)
    ensures 1 <= windowLength ==> completed == |Results(Steps(rows, windowLength))|
  {
    skippedDi, skippedCgm, completed := 0, 0, 0;
    if windowLength == 0 {
      return Err(ZeroDivisionError), skippedDi, skippedCgm, completed;
    }
    if windowLength < 0 {
      return Err(IndexError), skippedDi, skippedCgm, completed;
    }
    ghost var s := Steps(rows, windowLength);
    var results := [];
    for i := 0 to Starts(|rows|, windowLength)
      invariant Counted(results, skippedDi, skippedCgm, completed, s[..i])
    {
      var v := WindowStepLoop(rows, windowLength, i);
      results, skippedDi, skippedCgm, completed := Tick(results, skippedDi, skippedCgm, completed, s, i, v);
    }
    assert s[..Starts(|rows|, windowLength)] == s;
    if Starts(|rows|, windowLength) == 0 {
      r := Err(ValueError);
    } else {
      r := Ok(results);
    }
  }
}
