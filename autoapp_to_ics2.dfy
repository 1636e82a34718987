/** The actual-basal state machine of autoapp_to_ics2.py (`merge_time_queues`
    with its nested `curr_programmed_rate` and `curr_temp_basal`), the
    `dic2str` renderer and the decision of `get_migration_time`.

    Times are integer minutes; `rtime` values are multiples of five. The two
    input lists are consumed in place, so they are fields of a class whose
    method pops them; the behaviour is also given as functions over values
    (`CurrProgrammedRate`, `CurrTempBasal`, `RunFrom`, `Merge`) that the
    method is proved to follow and that the lemmas speak about. */
module AutoappToIcs2 {
  import opened Common

  /** `{'rtime': ..., 'programmed_basal_rate': ...}` */
  datatype ProgrammedRate = ProgrammedRate(rtime: int, rate: real)

  /** `{'date': ..., 'type': ..., 'ratio': ..., 'duration': ...}`; the ratio is
      a percentage and the duration is in whole hours. */
  datatype Command = Command(date: int, kind: string, ratio: int, duration: int)

  /** One output entry `{'rtime': ..., 'actual basal': ..., 'event': ...}`. */
  datatype BasalStep = BasalStep(rtime: int, actualBasal: real, event: string)

  const TemporaryBasal: string := "temporary_basal"
  const CancelTemporaryBasal: string := "cancel_temporary_basal"

  const ChangeInProgrammedRate: string := "change in programmed rate"
  const TempBasalOff: string := "temp basal off"
  const TempBasalOn: string := "command: temp basal on"
  const CancelTempBasal: string := "command: cancel temp basal"

  /** The time at which a temporary basal command stops. */
  function EndTime(c: Command): int { c.date + 60 * c.duration }

  function Factor(c: Command): real { c.ratio as real / 100.0 }

  function RateTime(p: ProgrammedRate): int { p.rtime }
  function CommandTime(c: Command): int { c.date }

  /** The variables of `merge_time_queues` and the two queues. The first
      value of `event` is never observed: the first programmed rate always
      sets it, so the model starts it as the empty string. */
  datatype MergeState = MergeState(
    rtime: int,
    rate: Option<real>,
    temp: Option<real>,
    tempEnd: Option<int>,
    event: string,
    rates: seq<ProgrammedRate>,
    commands: seq<Command>)

  // ---------------------------------------------------------------
  // one call of each nested helper
  // ---------------------------------------------------------------

  /** `curr_programmed_rate()`: dequeue every rate whose time has come.
      What is left starts after `rtime`; the rate is the last one dequeued,
      and the event is set when some dequeued rate differed from the one
      before it. */
  function CurrProgrammedRate(s: MergeState): MergeState
    decreases |s.rates|
  {
    if |s.rates| > 0 && s.rtime >= s.rates[0].rtime then
      var top := s.rates[0];
      var s1 := s.(rates := s.rates[1..]);
      if Some(top.rate) != s.rate
      then CurrProgrammedRate(s1.(event := ChangeInProgrammedRate, rate := Some(top.rate)))
      else CurrProgrammedRate(s1)
    else s
  }

  /** The effect of one dequeued command; other command types are ignored. */
  function ApplyCommand(s: MergeState, top: Command): MergeState
  {
    if top.kind == TemporaryBasal then
      s.(event := TempBasalOn, temp := Some(Factor(top)), tempEnd := Some(EndTime(top)))
    else if top.kind == CancelTemporaryBasal then
      s.(event := CancelTempBasal, temp := Some(1.0))
    else s
  }

  /** The `while` loop of `curr_temp_basal()`: dequeue every command whose
      time has come. What is left starts after `rtime`; the programmed rate
      is untouched and a set factor stays set. */
  function PopCommands(s: MergeState): MergeState
    decreases |s.commands|
  {
    if |s.commands| > 0 && s.rtime >= s.commands[0].date
    then PopCommands(ApplyCommand(s.(commands := s.commands[1..]), s.commands[0]))
    else s
  }

  /** Turn a temporary basal off once its duration is over: afterwards no
      end time at or before `rtime` is pending, and a change means the
      factor is back to 1.0 with the event `temp basal off`. */
  function EndCheck(s: MergeState): (r: MergeState)
    ensures r.tempEnd.None? || s.rtime < r.tempEnd.value
    ensures r != s ==> r.temp == Some(1.0) && r.tempEnd == None && r.event == TempBasalOff
    ensures r.rtime == s.rtime && r.rate == s.rate && r.rates == s.rates && r.commands == s.commands
  {
    if s.tempEnd.Some? && s.rtime >= s.tempEnd.value
    then s.(temp := Some(1.0), tempEnd := None, event := TempBasalOff)
    else s
  }

  /** `curr_temp_basal()`: the end check, then the due commands. No due
      command is left queued, and the programmed rate is untouched. */
  function CurrTempBasal(s: MergeState): MergeState
  {
    PopCommands(EndCheck(s))
  }

  // ---------------------------------------------------------------
  // the main loop and the whole function
  // ---------------------------------------------------------------

  /** The row one iteration of the `while rtime <= stop_rtime` loop
      appends: the helpers' state times the programmed rate. */
  function Row(s: MergeState): BasalStep
    requires s.rate.Some? && s.temp.Some?
  {
    var s2 := CurrTempBasal(CurrProgrammedRate(s));
    PopRatesKeepsRate(s);
    TempStaysSet(CurrProgrammedRate(s));
    BasalStep(s.rtime, Amount(s2), s2.event)
  }

  /** `pr * tb`: the programmed rate times the temp-basal factor. */
  function Amount(s: MergeState): real
    requires s.rate.Some? && s.temp.Some?
  {
    s.rate.value * s.temp.value
  }

  /** The state one iteration leaves: `event` reset, `rtime` five minutes on. */
  function Next(s: MergeState): (r: MergeState)
    requires s.rate.Some? && s.temp.Some?
    ensures r.rate.Some? && r.temp.Some? && r.rtime == s.rtime + 5
  {
    PopRatesKeepsRate(s);
    TempStaysSet(CurrProgrammedRate(s));
    CurrTempBasal(CurrProgrammedRate(s)).(event := "", rtime := s.rtime + 5)
  }

  /** The `while rtime <= stop_rtime` loop from state `s`: the rows it
      emits and the state it leaves. */
  function RunFrom(s: MergeState, stop: int): (seq<BasalStep>, MergeState)
    requires s.rate.Some? && s.temp.Some?
    decreases stop - s.rtime + 5
  {
    if s.rtime > stop then ([], s)
    else
      var rest := RunFrom(Next(s), stop);
      ([Row(s)] + rest.0, rest.1)
  }

  /** What `merge_time_queues` returns, with the queues it leaves behind. */
  datatype MergeOutcome = MergeOutcome(
    result: Result<seq<BasalStep>>,
    rates: seq<ProgrammedRate>,
    commands: seq<Command>)

  /** The initial state once both helpers have run at `start`. */
  function InitialState(start: int, rates: seq<ProgrammedRate>, commands: seq<Command>): MergeState
  {
    var s1 := CurrProgrammedRate(MergeState(start, None, None, None, "", rates, commands));
    var s2 := CurrTempBasal(s1);
    if s2.temp.None? then s2.(temp := Some(1.0)) else s2
  }

  /** `merge_time_queues(start_time, stop_time, programmed_basal_rates, commands)`. */
  function Merge(start: int, stop: int, rates: seq<ProgrammedRate>, commands: seq<Command>): MergeOutcome
  {
    if |rates| == 0 then MergeOutcome(Err(ValueError), rates, commands)
    else if |commands| == 0 then MergeOutcome(Err(ValueError), rates, commands)
    else
      var s1 := CurrProgrammedRate(MergeState(start, None, None, None, "", rates, commands));
      if s1.rate.None? then MergeOutcome(Err(ValueError), s1.rates, s1.commands)
      else
        var s := InitialState(start, rates, commands);
        PopRatesKeepsRate(MergeState(start, None, None, None, "", rates, commands));
        CurrTempBasalKeepsRate(s1);
        var run := RunFrom(s, stop);
        MergeOutcome(Ok(run.0), run.1.rates, run.1.commands)
  }

  // ---------------------------------------------------------------
  // facts about the helpers
  // ---------------------------------------------------------------

  lemma {:induction false} PopRatesKeepsRate(s: MergeState)
    ensures var r := CurrProgrammedRate(s);
      r.rtime == s.rtime && r.temp == s.temp && r.tempEnd == s.tempEnd && r.commands == s.commands
      && (s.rate.Some? ==> r.rate.Some?)
    decreases |s.rates|
  {
    if |s.rates| > 0 && s.rtime >= s.rates[0].rtime {
      var top := s.rates[0];
      var s1 := s.(rates := s.rates[1..]);
      if Some(top.rate) != s.rate {
        PopRatesKeepsRate(s1.(event := ChangeInProgrammedRate, rate := Some(top.rate)));
      } else {
        PopRatesKeepsRate(s1);
      }
    }
  }

  lemma {:induction false} PopCommandsKeeps(s: MergeState)
    ensures var r := PopCommands(s);
      r.rtime == s.rtime && r.rate == s.rate && r.rates == s.rates && (s.temp.Some? ==> r.temp.Some?)
    decreases |s.commands|
  {
    if |s.commands| > 0 && s.rtime >= s.commands[0].date {
      PopCommandsKeeps(ApplyCommand(s.(commands := s.commands[1..]), s.commands[0]));
    }
  }

  /** `curr_programmed_rate()` dequeues a prefix of the rate queue and
      stops at the first rate still in the future; the rate is the last one
      dequeued, and the event is set to `change in programmed rate` or, when
      nothing was dequeued, kept. */
  lemma {:induction false} CurrProgrammedRateDequeuesDue(s: MergeState)
    ensures var r := CurrProgrammedRate(s);
      && |r.rates| <= |s.rates| && r.rates == s.rates[|s.rates| - |r.rates|..]
      && (r.rates == [] || s.rtime < r.rates[0].rtime)
      && (|r.rates| < |s.rates| ==> r.rate == Some(s.rates[|s.rates| - |r.rates| - 1].rate))
      && (|r.rates| == |s.rates| ==> r.rate == s.rate && r.event == s.event)
      && (r.event == s.event || r.event == ChangeInProgrammedRate)
    decreases |s.rates|
  {
    if |s.rates| > 0 && s.rtime >= s.rates[0].rtime {
      var top := s.rates[0];
      var s1 := s.(rates := s.rates[1..]);
      if Some(top.rate) != s.rate {
        CurrProgrammedRateDequeuesDue(s1.(event := ChangeInProgrammedRate, rate := Some(top.rate)));
      } else {
        CurrProgrammedRateDequeuesDue(s1);
      }
    }
  }

  /** The command loop dequeues a prefix of the command queue and stops at
      the first command still in the future; with nothing dequeued the
      temp-basal variables and the event are untouched. */
  lemma {:induction false} PopCommandsDequeuesDue(s: MergeState)
    ensures var r := PopCommands(s);
      && |r.commands| <= |s.commands| && r.commands == s.commands[|s.commands| - |r.commands|..]
      && (r.commands == [] || s.rtime < r.commands[0].date)
      && (|r.commands| == |s.commands| ==> r.temp == s.temp && r.tempEnd == s.tempEnd && r.event == s.event)
    decreases |s.commands|
  {
    if |s.commands| > 0 && s.rtime >= s.commands[0].date {
      var s1 := ApplyCommand(s.(commands := s.commands[1..]), s.commands[0]);
      PopCommandsDequeuesDue(s1);
      assert s.commands[1..][|s1.commands| - |PopCommands(s1).commands|..]
          == s.commands[|s.commands| - |PopCommands(s1).commands|..];
    }
  }

  /** `curr_temp_basal()` leaves no due command queued and no end time at
      or before `rtime` pending unless a command dequeued now set it. */
  lemma CurrTempBasalDequeuesDue(s: MergeState)
    ensures var r := CurrTempBasal(s);
      && r.rtime == s.rtime && r.rate == s.rate && r.rates == s.rates
      && (r.commands == [] || s.rtime < r.commands[0].date)
      && (|r.commands| == |s.commands| ==> r.tempEnd.None? || s.rtime < r.tempEnd.value)
  {
    PopCommandsDequeuesDue(EndCheck(s));
    PopCommandsKeeps(EndCheck(s));
  }

  lemma CurrTempBasalKeepsRate(s: MergeState)
    ensures var r := CurrTempBasal(s);
      r.rtime == s.rtime && r.rate == s.rate && r.rates == s.rates
  {
    PopCommandsKeeps(EndCheck(s));
  }

  lemma TempStaysSet(s: MergeState)
    requires s.temp.Some?
    ensures var r := CurrTempBasal(s);
      r.temp.Some? && r.rtime == s.rtime && r.rate == s.rate && r.rates == s.rates
  {
    PopCommandsKeeps(EndCheck(s));
  }

  // ---------------------------------------------------------------
  // the queues as consumed prefixes
  // ---------------------------------------------------------------

  /** The programmed rate in effect at `t`: the last one dequeued. */
  function RateAt(rates: seq<ProgrammedRate>, t: int): Option<real>
  {
    var n := ReadyCount(rates, RateTime, t);
    if n == 0 then None else Some(rates[n - 1].rate)
  }

  /** `curr_programmed_rate()` run on the untouched remainder of the queue
      dequeues up to `t` and leaves the last dequeued rate as the current one. */
  lemma {:induction false} CurrProgrammedRateFollowsQueue(s: MergeState, rates0: seq<ProgrammedRate>, k: nat)
    requires k <= |rates0| && s.rates == rates0[k..]
    requires k + ReadyCount(s.rates, RateTime, s.rtime) == ReadyCount(rates0, RateTime, s.rtime)
    requires k > 0 ==> s.rate == Some(rates0[k - 1].rate)
    ensures var r := CurrProgrammedRate(s);
      r.rates == rates0[ReadyCount(rates0, RateTime, s.rtime)..]
      && (ReadyCount(rates0, RateTime, s.rtime) > 0 ==> r.rate == RateAt(rates0, s.rtime))
      && (ReadyCount(rates0, RateTime, s.rtime) == 0 ==> r.rate == s.rate)
      && (k > 0 ==> r.event == (if RateChanged(rates0, k, ReadyCount(rates0, RateTime, s.rtime)) then ChangeInProgrammedRate else s.event))
    decreases |s.rates|
  {
    if |s.rates| > 0 && s.rtime >= s.rates[0].rtime {
      var top := s.rates[0];
      assert top == rates0[k];
      assert rates0[k + 1..] == s.rates[1..];
      var s1 := s.(rates := s.rates[1..]);
      if Some(top.rate) != s.rate {
        CurrProgrammedRateFollowsQueue(s1.(event := ChangeInProgrammedRate, rate := Some(top.rate)), rates0, k + 1);
      } else {
        CurrProgrammedRateFollowsQueue(s1, rates0, k + 1);
      }
    }
  }

  /** The position of the last temporary-basal or cancel command among the
      first `n` commands: the only kinds that change the factor. */
  function LastEffective(cmds: seq<Command>, n: nat): Option<nat>
    requires n <= |cmds|
    ensures LastEffective(cmds, n).Some? ==> LastEffective(cmds, n).value < n
    ensures LastEffective(cmds, n).Some? ==>
      cmds[LastEffective(cmds, n).value].kind in {TemporaryBasal, CancelTemporaryBasal}
    decreases n
  {
    if n == 0 then None
    else if cmds[n - 1].kind == TemporaryBasal || cmds[n - 1].kind == CancelTemporaryBasal then Some(n - 1)
    else LastEffective(cmds, n - 1)
  }

  /** The position of the last temporary-basal command among the first `n`
      commands: the only kind that sets `temp_basal_end_time`. */
  function LastTemp(cmds: seq<Command>, n: nat): Option<nat>
    requires n <= |cmds|
    ensures LastTemp(cmds, n).Some? ==> LastTemp(cmds, n).value < n
    ensures LastTemp(cmds, n).Some? ==> cmds[LastTemp(cmds, n).value].kind == TemporaryBasal
    decreases n
  {
    if n == 0 then None
    else if cmds[n - 1].kind == TemporaryBasal then Some(n - 1)
    else LastTemp(cmds, n - 1)
  }

  /** A temporary basal that is the last effective command is also the last
      temporary basal; with no effective command there is none. */
  lemma {:induction false} LastTempOfEffective(cmds: seq<Command>, n: nat)
    requires n <= |cmds|
    ensures LastEffective(cmds, n).None? ==> LastTemp(cmds, n).None?
    ensures LastEffective(cmds, n).Some? && cmds[LastEffective(cmds, n).value].kind == TemporaryBasal ==>
      LastTemp(cmds, n) == LastEffective(cmds, n)
    decreases n
  {
    if n > 0 && cmds[n - 1].kind != TemporaryBasal && cmds[n - 1].kind != CancelTemporaryBasal {
      LastTempOfEffective(cmds, n - 1);
    }
  }

  /** An effective command at `m` is at or before the last effective one. */
  lemma {:induction false} LastEffectiveAtLeast(cmds: seq<Command>, m: nat, n: nat)
    requires m < n <= |cmds| && cmds[m].kind in {TemporaryBasal, CancelTemporaryBasal}
    ensures LastEffective(cmds, n).Some? && LastEffective(cmds, n).value >= m
    decreases n
  {
    if n - 1 != m && cmds[n - 1].kind != TemporaryBasal && cmds[n - 1].kind != CancelTemporaryBasal {
      LastEffectiveAtLeast(cmds, m, n - 1);
    }
  }

  /** `temp_basal_end_time` after a call at `t` that found `p` commands
      already dequeued and left `n` dequeued: the end of the last temporary
      basal, kept while that one was dequeued at this call or has not yet
      ended, and `None` once the end check has switched it off. */
  function TempEndOf(cmds0: seq<Command>, n: nat, p: nat, t: int): Option<int>
    requires n <= |cmds0|
  {
    match LastTemp(cmds0, n)
    case None => None
    case Some(j) => if j >= p || EndTime(cmds0[j]) > t then Some(EndTime(cmds0[j])) else None
  }

  /** `temp_basal` after the same call: 1.0 with no temporary basal, after a
      cancel, or once a temporary basal dequeued at an earlier call has
      reached its end; otherwise the ratio of the last temporary basal. The
      end check runs before the commands are dequeued, so a temporary basal
      dequeued at this call keeps its ratio whatever its end time. */
  function FactorOf(cmds0: seq<Command>, n: nat, p: nat, t: int): real
    requires n <= |cmds0|
  {
    match LastEffective(cmds0, n)
    case None => 1.0
    case Some(i) =>
      if cmds0[i].kind == CancelTemporaryBasal then 1.0
      else if i >= p || EndTime(cmds0[i]) > t then Factor(cmds0[i])
      else 1.0
  }

  /** How the temp-basal variables relate to the dequeued commands after a
      call at `t` that found `p` of them dequeued and left `n`. Before any
      effective command the factor may still be unset. */
  ghost predicate TempInv(s: MergeState, cmds0: seq<Command>, n: nat, p: nat, t: int)
    requires n <= |cmds0|
  {
    && s.tempEnd == TempEndOf(cmds0, n, p, t)
    && (if LastEffective(cmds0, n).None? then s.temp.None? || s.temp == Some(1.0)
        else s.temp == Some(FactorOf(cmds0, n, p, t)))
  }

  /** The event a command sets when it is dequeued. */
  function CommandEvent(c: Command): string
  {
    if c.kind == TemporaryBasal then TempBasalOn else CancelTempBasal
  }

  /** The event after dequeuing commands `k` to `n - 1` from event `ev`: that
      of the last effective command among them, or `ev` when there is none. */
  function PoppedEvent(cmds0: seq<Command>, k: nat, n: nat, ev: string): string
    requires n <= |cmds0|
  {
    var li := LastEffective(cmds0, n);
    if li.Some? && li.value >= k then CommandEvent(cmds0[li.value]) else ev
  }

  /** Some rate dequeued from position `k` up to `n - 1` differs from the
      rate before it: `curr_programmed_rate()` then sets the event. */
  predicate RateChanged(rates0: seq<ProgrammedRate>, k: nat, n: nat)
    requires 1 <= k && n <= |rates0|
    decreases n - k
  {
    k < n && (rates0[k].rate != rates0[k - 1].rate || RateChanged(rates0, k + 1, n))
  }

  /** Dequeuing command `k` moves the temp-basal variables one command on. */
  lemma ApplyFollowsQueue(s: MergeState, cmds0: seq<Command>, k: nat, t: int, p: nat)
    requires p <= k < |cmds0| && TempInv(s, cmds0, k, p, t)
    ensures TempInv(ApplyCommand(s, cmds0[k]), cmds0, k + 1, p, t)
  {
  }

  /** Dequeuing command `k` and then the rest up to `n` leaves the event
      that dequeuing them all does. */
  lemma PoppedEventStep(cmds0: seq<Command>, k: nat, n: nat, ev: string, ev1: string)
    requires k < n <= |cmds0|
    requires ev1 == if cmds0[k].kind in {TemporaryBasal, CancelTemporaryBasal} then CommandEvent(cmds0[k]) else ev
    ensures PoppedEvent(cmds0, k + 1, n, ev1) == PoppedEvent(cmds0, k, n, ev)
  {
    if cmds0[k].kind in {TemporaryBasal, CancelTemporaryBasal} {
      LastEffectiveAtLeast(cmds0, k, n);
    }
  }

  lemma {:induction false} PopCommandsFollowsQueue(s: MergeState, cmds0: seq<Command>, k: nat, t: int, p: nat)
    requires p <= k <= |cmds0| && s.commands == cmds0[k..] && s.rtime == t
    requires k + ReadyCount(s.commands, CommandTime, t) == ReadyCount(cmds0, CommandTime, t)
    requires TempInv(s, cmds0, k, p, t)
    ensures var r := PopCommands(s); var n := ReadyCount(cmds0, CommandTime, t);
      r.commands == cmds0[n..] && TempInv(r, cmds0, n, p, t) && r.event == PoppedEvent(cmds0, k, n, s.event)
    decreases |s.commands|
  {
    var n := ReadyCount(cmds0, CommandTime, t);
    if |s.commands| > 0 && s.rtime >= s.commands[0].date {
      var top := s.commands[0];
      assert top == cmds0[k];
      assert cmds0[k + 1..] == s.commands[1..];
      var s1 := ApplyCommand(s.(commands := s.commands[1..]), top);
      ApplyFollowsQueue(s.(commands := s.commands[1..]), cmds0, k, t, p);
      PopCommandsFollowsQueue(s1, cmds0, k + 1, t, p);
      PoppedEventStep(cmds0, k, n, s.event, s1.event);
    } else {
      assert n == k;
    }
  }

  /** The end check at `t` after a call at `tp`: a temporary basal whose end
      has come is switched off, so afterwards nothing counts as dequeued at
      this call. */
  lemma EndCheckKeepsInv(s: MergeState, cmds0: seq<Command>, n: nat, p: nat, tp: int)
    requires p <= n <= |cmds0| && tp <= s.rtime && TempInv(s, cmds0, n, p, tp)
    ensures TempInv(EndCheck(s), cmds0, n, n, s.rtime)
  {
    LastTempOfEffective(cmds0, n);
  }

  /** The time of the call before the one that emits the row at `t`: for the
      first row the set-up call at the start, otherwise the previous row's. */
  function PrevCall(start: int, t: int): int
  {
    if t == start then start else t - 5
  }

  /** The loop invariant of `merge_time_queues`, before the call at
      `s.rtime`: both queues hold what has not been dequeued by the previous
      call at `tp`, the current rate is the rate in effect at `tp`, and the
      temp-basal variables are those that call left, which had found `p`
      commands already dequeued. */
  ghost predicate RunInv(s: MergeState, rates0: seq<ProgrammedRate>, cmds0: seq<Command>, tp: int, p: nat)
  {
    && tp <= s.rtime
    && p <= ReadyCount(cmds0, CommandTime, tp)
    && ReadyCount(rates0, RateTime, tp) > 0
    && s.rates == rates0[ReadyCount(rates0, RateTime, tp)..]
    && s.rate == RateAt(rates0, tp)
    && s.temp.Some?
    && s.commands == cmds0[ReadyCount(cmds0, CommandTime, tp)..]
    && TempInv(s, cmds0, ReadyCount(cmds0, CommandTime, tp), p, tp)
  }

  /** What the source promises of the row emitted at `t`, whose call follows
      one at `prev`: the programmed rate in effect, multiplied by 1.0 when no
      temporary basal is running (none dequeued, the last one cancelled, or
      one dequeued before this call whose end time has come) and otherwise by
      the ratio of the last temporary basal. */
  ghost predicate RowMeaning(row: BasalStep, rates0: seq<ProgrammedRate>, cmds0: seq<Command>, prev: int)
  {
    var t := row.rtime;
    var n := ReadyCount(cmds0, CommandTime, t);
    var p := ReadyCount(cmds0, CommandTime, prev);
    RateAt(rates0, t).Some?
    && var rate := RateAt(rates0, t).value;
    match LastEffective(cmds0, n)
    case None => row.actualBasal == rate
    case Some(i) =>
      if cmds0[i].kind == CancelTemporaryBasal then row.actualBasal == rate
      else if i >= p then row.actualBasal == rate * Factor(cmds0[i])
      else if EndTime(cmds0[i]) <= t then row.actualBasal == rate
      else row.actualBasal == rate * Factor(cmds0[i])
  }

  /** The event of the row emitted at `t`, when the step starts with event
      `ev` after a call at `tp` that had found `p` commands dequeued: a
      command dequeued now wins over a temporary basal switched off now,
      which wins over a change of programmed rate; with none of the three
      the event stays `ev`. */
  function StepEvent(ev: string, rates0: seq<ProgrammedRate>, cmds0: seq<Command>, p: nat, tp: int, t: int): string
  {
    var pc := ReadyCount(cmds0, CommandTime, tp);
    var n := ReadyCount(cmds0, CommandTime, t);
    var pending := TempEndOf(cmds0, pc, p, tp);
    var li := LastEffective(cmds0, n);
    var pr := ReadyCount(rates0, RateTime, tp);
    var nr := ReadyCount(rates0, RateTime, t);
    if li.Some? && li.value >= pc then CommandEvent(cmds0[li.value])
    else if pending.Some? && pending.value <= t then TempBasalOff
    else if 1 <= pr && RateChanged(rates0, pr, nr) then ChangeInProgrammedRate
    else ev
  }

  /** The rate half of one loop step. */
  lemma RateStepFollowsQueue(s: MergeState, rates0: seq<ProgrammedRate>, tp: int)
    requires tp <= s.rtime && ReadyCount(rates0, RateTime, tp) > 0
    requires s.rates == rates0[ReadyCount(rates0, RateTime, tp)..] && s.rate == RateAt(rates0, tp)
    ensures var s1 := CurrProgrammedRate(s); var pr := ReadyCount(rates0, RateTime, tp);
      ReadyCount(rates0, RateTime, s.rtime) > 0
      && s1.rates == rates0[ReadyCount(rates0, RateTime, s.rtime)..]
      && s1.rate == RateAt(rates0, s.rtime)
      && s1.event == (if RateChanged(rates0, pr, ReadyCount(rates0, RateTime, s.rtime)) then ChangeInProgrammedRate else s.event)
  {
    var nr := ReadyCount(rates0, RateTime, tp);
    ReadyCountSplit(rates0, RateTime, tp, s.rtime, nr);
    CurrProgrammedRateFollowsQueue(s, rates0, nr);
  }

  /** The command half of one loop step. */
  lemma TempStepFollowsQueue(s: MergeState, cmds0: seq<Command>, tp: int, p: nat)
    requires tp <= s.rtime && p <= ReadyCount(cmds0, CommandTime, tp)
    requires s.commands == cmds0[ReadyCount(cmds0, CommandTime, tp)..]
    requires TempInv(s, cmds0, ReadyCount(cmds0, CommandTime, tp), p, tp)
    ensures var s2 := CurrTempBasal(s); var pc := ReadyCount(cmds0, CommandTime, tp);
      var n := ReadyCount(cmds0, CommandTime, s.rtime);
      s2.commands == cmds0[n..]
      && TempInv(s2, cmds0, n, pc, s.rtime)
      && s2.event == PoppedEvent(cmds0, pc, n, EndCheck(s).event)
  {
    var t := s.rtime;
    var nc := ReadyCount(cmds0, CommandTime, tp);
    ReadyCountSplit(cmds0, CommandTime, tp, t, nc);
    EndCheckKeepsInv(s, cmds0, nc, p, tp);
    PopCommandsFollowsQueue(EndCheck(s), cmds0, nc, t, nc);
  }

  /** A state that satisfies the invariant at `t` emits a row meaning what
      the source promises. */
  lemma {:induction false} RowFromInv(row: BasalStep, s2: MergeState, rates0: seq<ProgrammedRate>, cmds0: seq<Command>, prev: int)
    requires s2.rate.Some? && s2.temp.Some? && s2.rate == RateAt(rates0, s2.rtime)
    requires row.rtime == s2.rtime && row.actualBasal == Amount(s2)
    requires prev <= s2.rtime
    requires TempInv(s2, cmds0, ReadyCount(cmds0, CommandTime, s2.rtime), ReadyCount(cmds0, CommandTime, prev), s2.rtime)
    ensures RowMeaning(row, rates0, cmds0, prev)
  {
  }

  /** One iteration in terms of the two helpers' calls. */
  lemma RowAndNext(s: MergeState)
    requires s.rate.Some? && s.temp.Some?
    ensures var s2 := CurrTempBasal(CurrProgrammedRate(s));
      s2.rate.Some? && s2.temp.Some? && s2.rtime == s.rtime
      && Row(s) == BasalStep(s2.rtime, Amount(s2), s2.event)
      && Row(s).rtime == s2.rtime && Row(s).actualBasal == Amount(s2)
      && Next(s) == s2.(event := "", rtime := s.rtime + 5)
  {
    PopRatesKeepsRate(s);
    TempStaysSet(CurrProgrammedRate(s));
  }

  /** The state one iteration leaves after both helpers, described by the
      queues. */
  lemma StepState(s: MergeState, rates0: seq<ProgrammedRate>, cmds0: seq<Command>, tp: int, p: nat)
    requires RunInv(s, rates0, cmds0, tp, p)
    ensures var s2 := CurrTempBasal(CurrProgrammedRate(s));
      var pc := ReadyCount(cmds0, CommandTime, tp); var n := ReadyCount(cmds0, CommandTime, s.rtime);
      && pc <= n
      && s2.rtime == s.rtime && s2.rate.Some? && s2.temp.Some?
      && ReadyCount(rates0, RateTime, s.rtime) > 0
      && s2.rates == rates0[ReadyCount(rates0, RateTime, s.rtime)..]
      && s2.rate == RateAt(rates0, s.rtime)
      && s2.commands == cmds0[n..]
      && TempInv(s2, cmds0, n, pc, s.rtime)
  {
    RateStepFollowsQueue(s, rates0, tp);
    var s1 := CurrProgrammedRate(s);
    PopRatesKeepsRate(s);
    TempStepFollowsQueue(s1, cmds0, tp, p);
    TempStaysSet(s1);
    var pc := ReadyCount(cmds0, CommandTime, tp);
    ReadyCountSplit(cmds0, CommandTime, tp, s.rtime, pc);
    CurrTempBasalKeepsRate(s1);
  }

  /** The event the helpers leave at one iteration. */
  lemma StepStateEvent(s: MergeState, rates0: seq<ProgrammedRate>, cmds0: seq<Command>, tp: int, p: nat)
    requires RunInv(s, rates0, cmds0, tp, p)
    ensures CurrTempBasal(CurrProgrammedRate(s)).event == StepEvent(s.event, rates0, cmds0, p, tp, s.rtime)
  {
    RateStepFollowsQueue(s, rates0, tp);
    var s1 := CurrProgrammedRate(s);
    PopRatesKeepsRate(s);
    TempStepFollowsQueue(s1, cmds0, tp, p);
  }

  /** One iteration keeps the loop invariant. */
  lemma StepKeepsInv(s: MergeState, rates0: seq<ProgrammedRate>, cmds0: seq<Command>, tp: int, p: nat)
    requires RunInv(s, rates0, cmds0, tp, p)
    ensures RunInv(Next(s), rates0, cmds0, s.rtime, ReadyCount(cmds0, CommandTime, tp))
  {
    StepState(s, rates0, cmds0, tp, p);
    RowAndNext(s);
    var s2 := CurrTempBasal(CurrProgrammedRate(s));
    TempInvSameTemp(s2, Next(s), cmds0, ReadyCount(cmds0, CommandTime, s.rtime), ReadyCount(cmds0, CommandTime, tp), s.rtime);
  }

  /** One iteration emits a row whose actual basal means what the source
      promises. */
  lemma StepFollowsQueues(s: MergeState, rates0: seq<ProgrammedRate>, cmds0: seq<Command>, tp: int, p: nat)
    requires RunInv(s, rates0, cmds0, tp, p)
    ensures RowMeaning(Row(s), rates0, cmds0, tp)
  {
    StepState(s, rates0, cmds0, tp, p);
    RowAndNext(s);
    RowFromInv(Row(s), CurrTempBasal(CurrProgrammedRate(s)), rates0, cmds0, tp);
  }

  /** One iteration emits a row carrying the event of its step. */
  lemma StepEventFollowsQueues(s: MergeState, rates0: seq<ProgrammedRate>, cmds0: seq<Command>, tp: int, p: nat)
    requires RunInv(s, rates0, cmds0, tp, p)
    ensures Row(s).event == StepEvent(s.event, rates0, cmds0, p, tp, s.rtime)
  {
    StepStateEvent(s, rates0, cmds0, tp, p);
    RowAndNext(s);
  }

  /** `TempInv` looks only at the temp-basal variables. */
  lemma TempInvSameTemp(s: MergeState, s': MergeState, cmds0: seq<Command>, n: nat, p: nat, t: int)
    requires n <= |cmds0| && s.temp == s'.temp && s.tempEnd == s'.tempEnd
    requires TempInv(s, cmds0, n, p, t)
    ensures TempInv(s', cmds0, n, p, t)
  {
  }

  lemma {:induction false} RunFromMeaning(s: MergeState, stop: int, rates0: seq<ProgrammedRate>, cmds0: seq<Command>,
                                          tp: int, p: nat, start: int)
    requires RunInv(s, rates0, cmds0, tp, p)
    requires start <= s.rtime && tp == PrevCall(start, s.rtime)
    ensures var rows := RunFrom(s, stop).0;
      |rows| == (if s.rtime > stop then 0 else (stop - s.rtime) / 5 + 1)
      && (forall k :: 0 <= k < |rows| ==> rows[k].rtime == s.rtime + 5 * k)
      && (forall k :: 0 <= k < |rows| ==> RowMeaning(rows[k], rates0, cmds0, PrevCall(start, rows[k].rtime)))
    decreases stop - s.rtime + 5
  {
    if s.rtime <= stop {
      StepFollowsQueues(s, rates0, cmds0, tp, p);
      StepKeepsInv(s, rates0, cmds0, tp, p);
      RunFromMeaning(Next(s), stop, rates0, cmds0, s.rtime, ReadyCount(cmds0, CommandTime, tp), start);
    }
  }

  /** The event of a row after the first is that of its own step, which
      starts from `''` after the previous row's call. */
  ghost predicate EventMeaning(row: BasalStep, rates0: seq<ProgrammedRate>, cmds0: seq<Command>, start: int)
  {
    var t := row.rtime;
    row.event == StepEvent("", rates0, cmds0, ReadyCount(cmds0, CommandTime, PrevCall(start, t - 5)), t - 5, t)
  }

  /** Every row after `start` carries the event of its own step. */
  ghost predicate EventsMeaning(rows: seq<BasalStep>, rates0: seq<ProgrammedRate>, cmds0: seq<Command>, start: int)
  {
    forall k :: 0 <= k < |rows| && rows[k].rtime > start ==> EventMeaning(rows[k], rates0, cmds0, start)
  }

  /** Every row after the set-up's carries the event of its own step. */
  lemma {:induction false} RunFromEvents(s: MergeState, stop: int, rates0: seq<ProgrammedRate>, cmds0: seq<Command>,
                                         tp: int, p: nat, start: int)
    requires RunInv(s, rates0, cmds0, tp, p)
    requires start <= s.rtime && tp == PrevCall(start, s.rtime)
    requires s.rtime > start ==> s.event == "" && p == ReadyCount(cmds0, CommandTime, PrevCall(start, tp))
    ensures EventsMeaning(RunFrom(s, stop).0, rates0, cmds0, start)
    decreases stop - s.rtime + 5
  {
    if s.rtime <= stop {
      RowAndNext(s);
      if s.rtime > start {
        StepEventFollowsQueues(s, rates0, cmds0, tp, p);
        assert EventMeaning(Row(s), rates0, cmds0, start);
      }
      StepKeepsInv(s, rates0, cmds0, tp, p);
      var rows := RunFrom(s, stop).0;
      var rest := RunFrom(Next(s), stop).0;
      RunFromEvents(Next(s), stop, rates0, cmds0, s.rtime, ReadyCount(cmds0, CommandTime, tp), start);
      assert EventsMeaning(rest, rates0, cmds0, start);
      assert rows == [Row(s)] + rest;
      forall k | 0 <= k < |rows| && rows[k].rtime > start
        ensures EventMeaning(rows[k], rates0, cmds0, start)
      {
        if k > 0 {
          assert rows[k] == rest[k - 1];
          assert rest[k - 1].rtime > start;
          assert EventMeaning(rest[k - 1], rates0, cmds0, start);
        } else {
          assert rows[0] == Row(s);
          assert Row(s).rtime == s.rtime;
          assert s.rtime > start;
        }
      }
    }
  }

  // ---------------------------------------------------------------
  // the properties of merge_time_queues
  // ---------------------------------------------------------------

  /** It raises ValueError exactly when a queue is empty or the first
      programmed rate lies after the start; then it has dequeued nothing. */
  lemma MergeErrors(start: int, stop: int, rates: seq<ProgrammedRate>, commands: seq<Command>)
    ensures var m := Merge(start, stop, rates, commands);
      (m.result.Err? <==> (rates == [] || commands == [] || rates[0].rtime > start))
      && (m.result.Err? ==> m.result.error == ValueError && m.rates == rates && m.commands == commands)
  {
    var s0 := MergeState(start, None, None, None, "", rates, commands);
    if rates != [] && rates[0].rtime <= start {
      PopRatesKeepsRate(s0.(rates := rates[1..], rate := Some(rates[0].rate), event := ChangeInProgrammedRate));
    }
  }

  /** On success there is one row per five minutes from start to stop
      inclusive, in increasing time order; each row's actual basal is the
      programmed rate in effect times the temp-basal factor that
      `RowMeaning` gives, and each row after the first carries the event of
      its own step, `''` when nothing happened at it. */
  lemma MergeRows(start: int, stop: int, rates: seq<ProgrammedRate>, commands: seq<Command>)
    requires Merge(start, stop, rates, commands).result.Ok?
    ensures var rows := Merge(start, stop, rates, commands).result.value;
      |rows| == (if start > stop then 0 else (stop - start) / 5 + 1)
      && (forall k :: 0 <= k < |rows| ==> rows[k].rtime == start + 5 * k)
      && (forall j, k :: 0 <= j < k < |rows| ==> rows[j].rtime < rows[k].rtime)
      && (forall k :: 0 <= k < |rows| ==> RowMeaning(rows[k], rates, commands, PrevCall(start, rows[k].rtime)))
      && (forall k :: 0 < k < |rows| ==> EventMeaning(rows[k], rates, commands, start))
  {
    var s0 := MergeState(start, None, None, None, "", rates, commands);
    ReadyCountSplit(rates, RateTime, start, start, 0);
    CurrProgrammedRateFollowsQueue(s0, rates, 0);
    var s1 := CurrProgrammedRate(s0);
    PopRatesKeepsRate(s0);
    ReadyCountSplit(commands, CommandTime, start, start, 0);
    assert TempInv(s1, commands, 0, 0, start);
    EndCheckKeepsInv(s1, commands, 0, 0, start);
    PopCommandsFollowsQueue(EndCheck(s1), commands, 0, start, 0);
    CurrTempBasalKeepsRate(s1);
    var s := InitialState(start, rates, commands);
    assert ReadyCount(rates, RateTime, start) > 0 by {
      MergeErrors(start, stop, rates, commands);
    }
    assert RunInv(s, rates, commands, start, 0);
    RunFromMeaning(s, stop, rates, commands, start, 0, start);
    RunFromEvents(s, stop, rates, commands, start, 0, start);
  }

  /** A temporary basal dequeued before a row's own call stops applying once
      its end time has come: the row is back at the programmed rate. */
  lemma TempBasalExpires(start: int, stop: int, rates: seq<ProgrammedRate>, commands: seq<Command>, k: nat)
    requires Merge(start, stop, rates, commands).result.Ok?
    requires k < |Merge(start, stop, rates, commands).result.value|
    requires var row := Merge(start, stop, rates, commands).result.value[k];
      var li := LastEffective(commands, ReadyCount(commands, CommandTime, row.rtime));
      li.Some? && commands[li.value].kind == TemporaryBasal
      && li.value < ReadyCount(commands, CommandTime, PrevCall(start, row.rtime))
      && EndTime(commands[li.value]) <= row.rtime
    ensures var row := Merge(start, stop, rates, commands).result.value[k];
      RateAt(rates, row.rtime).Some? && row.actualBasal == RateAt(rates, row.rtime).value
  {
    MergeRows(start, stop, rates, commands);
  }

  /** Before its end time, or at the call that dequeues it, the last
      temporary basal scales the programmed rate by its ratio. */
  lemma TempBasalApplies(start: int, stop: int, rates: seq<ProgrammedRate>, commands: seq<Command>, k: nat)
    requires Merge(start, stop, rates, commands).result.Ok?
    requires k < |Merge(start, stop, rates, commands).result.value|
    requires var row := Merge(start, stop, rates, commands).result.value[k];
      var li := LastEffective(commands, ReadyCount(commands, CommandTime, row.rtime));
      li.Some? && commands[li.value].kind == TemporaryBasal
      && (li.value >= ReadyCount(commands, CommandTime, PrevCall(start, row.rtime)) || EndTime(commands[li.value]) > row.rtime)
    ensures var row := Merge(start, stop, rates, commands).result.value[k];
      var li := LastEffective(commands, ReadyCount(commands, CommandTime, row.rtime));
      RateAt(rates, row.rtime).Some? && row.actualBasal == RateAt(rates, row.rtime).value * Factor(commands[li.value])
  {
    MergeRows(start, stop, rates, commands);
  }

  /** A step at which no rate or command is dequeued and no temporary basal
      is switched off emits a row with the empty event. */
  lemma QuietStepNoEvent(start: int, stop: int, rates: seq<ProgrammedRate>, commands: seq<Command>, k: nat)
    requires Merge(start, stop, rates, commands).result.Ok?
    requires 0 < k < |Merge(start, stop, rates, commands).result.value|
    requires var t := Merge(start, stop, rates, commands).result.value[k].rtime;
      && ReadyCount(rates, RateTime, t - 5) == ReadyCount(rates, RateTime, t)
      && ReadyCount(commands, CommandTime, t - 5) == ReadyCount(commands, CommandTime, t)
      && var pending := TempEndOf(commands, ReadyCount(commands, CommandTime, t - 5),
                                  ReadyCount(commands, CommandTime, PrevCall(start, t - 5)), t - 5);
         !(pending.Some? && pending.value <= t)
    ensures Merge(start, stop, rates, commands).result.value[k].event == ""
  {
    MergeRows(start, stop, rates, commands);
  }

  /** Without any temporary basal among the commands the factor stays 1.0,
      so the actual basal is the programmed rate throughout. */
  lemma NoTempBasalMeansProgrammedRate(start: int, stop: int, rates: seq<ProgrammedRate>, commands: seq<Command>)
    requires Merge(start, stop, rates, commands).result.Ok?
    requires forall i :: 0 <= i < |commands| ==> commands[i].kind != TemporaryBasal
    ensures var rows := Merge(start, stop, rates, commands).result.value;
      forall k :: 0 <= k < |rows| ==>
        RateAt(rates, rows[k].rtime).Some? && rows[k].actualBasal == RateAt(rates, rows[k].rtime).value
  {
    MergeRows(start, stop, rates, commands);
    var rows := Merge(start, stop, rates, commands).result.value;
    forall k | 0 <= k < |rows|
      ensures RateAt(rates, rows[k].rtime).Some? && rows[k].actualBasal == RateAt(rates, rows[k].rtime).value
    {
      assert RowMeaning(rows[k], rates, commands, PrevCall(start, rows[k].rtime));
      var n := ReadyCount(commands, CommandTime, rows[k].rtime);
      var li := LastEffective(commands, n);
      if li.Some? {
        assert commands[li.value].kind != TemporaryBasal;
      }
    }
  }

  // ---------------------------------------------------------------
  // the imperative form: the caller's lists are consumed in place
  // ---------------------------------------------------------------

  class BasalQueues {
    var programmedBasalRates: seq<ProgrammedRate>
    var commands: seq<Command>

    constructor (rates: seq<ProgrammedRate>, cmds: seq<Command>)
      ensures programmedBasalRates == rates && commands == cmds
    {
      programmedBasalRates := rates;
      commands := cmds;
    }

    /** `curr_programmed_rate()` on the nonlocal variables; `s` is the
        whole state of `merge_time_queues` at the call. */
    method CurrProgrammedRateStep(ghost s: MergeState, rtime: int, rate: Option<real>, event: string)
      returns (rate': Option<real>, event': string)
      requires s.rtime == rtime && s.rate == rate && s.event == event
      requires s.rates == programmedBasalRates && s.commands == commands
      modifies this
      ensures var r := CurrProgrammedRate(s);
        rate' == r.rate && event' == r.event && programmedBasalRates == r.rates && commands == r.commands
      ensures commands == old(commands)
    {
      rate', event' := rate, event;
      while |programmedBasalRates| > 0 && rtime >= programmedBasalRates[0].rtime
        invariant CurrProgrammedRate(s.(rate := rate', event := event', rates := programmedBasalRates))
               == CurrProgrammedRate(s)
        invariant commands == old(commands)
        decreases |programmedBasalRates|
      {
        var top := programmedBasalRates[0];
        programmedBasalRates := programmedBasalRates[1..];
        if Some(top.rate) != rate' {
          event' := ChangeInProgrammedRate;
          rate' := Some(top.rate);
        }
      }
      PopRatesKeepsRate(s);
    }

    /** `curr_temp_basal()` on the nonlocal variables; `s` is the whole
        state of `merge_time_queues` at the call. */
    method CurrTempBasalStep(ghost s: MergeState, rtime: int, temp: Option<real>, tempEnd: Option<int>, event: string)
      returns (temp': Option<real>, tempEnd': Option<int>, event': string)
      requires s.rtime == rtime && s.temp == temp && s.tempEnd == tempEnd && s.event == event
      requires s.rates == programmedBasalRates && s.commands == commands
      modifies this
      ensures var r := CurrTempBasal(s);
        temp' == r.temp && tempEnd' == r.tempEnd && event' == r.event && commands == r.commands
        && programmedBasalRates == r.rates
    {
      temp', tempEnd', event' := temp, tempEnd, event;
      if tempEnd'.Some? && rtime >= tempEnd'.value {
        temp', tempEnd', event' := Some(1.0), None, TempBasalOff;
      }
      while |commands| > 0 && rtime >= commands[0].date
        invariant PopCommands(s.(temp := temp', tempEnd := tempEnd', event := event', commands := commands))
               == CurrTempBasal(s)
        invariant programmedBasalRates == old(programmedBasalRates)
        decreases |commands|
      {
        var top := commands[0];
        commands := commands[1..];
        if top.kind == TemporaryBasal {
          event' := TempBasalOn;
          temp' := Some(Factor(top));
          tempEnd' := Some(EndTime(top));
        } else if top.kind == CancelTemporaryBasal {
          event' := CancelTempBasal;
          temp' := Some(1.0);
        }
      }
      CurrTempBasalKeepsRate(s);
    }

    /** `merge_time_queues(start_time, stop_time, programmed_basal_rates,
        commands)`: the result and the shrunken queues are those of `Merge`. */
    method MergeTimeQueues(start: int, stop: int) returns (r: Result<seq<BasalStep>>)
      modifies this
      ensures var m := Merge(start, stop, old(programmedBasalRates), old(commands));
        r == m.result && programmedBasalRates == m.rates && commands == m.commands
    {
      if |programmedBasalRates| == 0 {
        return Err(ValueError);
      }
      if |commands| == 0 {
        return Err(ValueError);
      }
      var rtime := start;
      var event := "";
      var rate: Option<real> := None;
      var temp: Option<real> := None;
      var tempEnd: Option<int> := None;
      ghost var init := MergeState(start, None, None, None, "", programmedBasalRates, commands);
      rate, event := CurrProgrammedRateStep(init, rtime, rate, event);
      if rate.None? {
        return Err(ValueError);
      }
      ghost var s1 := CurrProgrammedRate(init);
      PopRatesKeepsRate(init);
      temp, tempEnd, event := CurrTempBasalStep(s1, rtime, temp, tempEnd, event);
      CurrTempBasalKeepsRate(s1);
      if temp.None? {
        temp := Some(1.0);
      }
      ghost var s0 := MergeState(start, rate, temp, tempEnd, event, programmedBasalRates, commands);
      assert s0 == InitialState(start, init.rates, init.commands);
      var result := RunLoop(stop, rtime, rate, temp, tempEnd, event);
      r := Ok(result);
    }

    /** The `while rtime <= stop_rtime` loop of `merge_time_queues`, from the
        state its set-up leaves. */
    method RunLoop(stop: int, rtime0: int, rate0: Option<real>, temp0: Option<real>, tempEnd0: Option<int>, event0: string)
      returns (result: seq<BasalStep>)
      requires rate0.Some? && temp0.Some?
      modifies this
      ensures var run := RunFrom(MergeState(rtime0, rate0, temp0, tempEnd0, event0, old(programmedBasalRates), old(commands)), stop);
        result == run.0 && programmedBasalRates == run.1.rates && commands == run.1.commands
    {
      ghost var s0 := MergeState(rtime0, rate0, temp0, tempEnd0, event0, programmedBasalRates, commands);
      var rtime, rate, temp, tempEnd, event := rtime0, rate0, temp0, tempEnd0, event0;
      result := [];
      while rtime <= stop
        invariant rate.Some? && temp.Some?
        invariant var s := MergeState(rtime, rate, temp, tempEnd, event, programmedBasalRates, commands);
          result + RunFrom(s, stop).0 == RunFrom(s0, stop).0 && RunFrom(s, stop).1 == RunFrom(s0, stop).1
        decreases stop - rtime + 5
      {
        ghost var s := MergeState(rtime, rate, temp, tempEnd, event, programmedBasalRates, commands);
        rate, event := CurrProgrammedRateStep(s, rtime, rate, event);
        PopRatesKeepsRate(s);
        ghost var sa := CurrProgrammedRate(s);
        temp, tempEnd, event := CurrTempBasalStep(sa, rtime, temp, tempEnd, event);
        TempStaysSet(sa);
        assert MergeState(rtime, rate, temp, tempEnd, event, programmedBasalRates, commands) == CurrTempBasal(sa);
        var row := BasalStep(rtime, rate.value * temp.value, event);
        assert row == Row(s);
        result := result + [row];
        event := "";
        rtime := rtime + 5;
        assert MergeState(rtime, rate, temp, tempEnd, event, programmedBasalRates, commands) == Next(s);
      }
      ghost var sEnd := MergeState(rtime, rate, temp, tempEnd, event, programmedBasalRates, commands);
      assert RunFrom(sEnd, stop) == ([], sEnd);
    }
  }

  // ---------------------------------------------------------------
  // dic2str and get_migration_time
  // ---------------------------------------------------------------

  /** The text `dic2str` accumulates for the items: 'k: v, ' for each. */
  function ItemsText(items: seq<(string, string)>): string
    decreases |items|
  {
    if items == [] then "" else ItemsText(items[..|items| - 1]) + items[|items| - 1].0 + ": " + items[|items| - 1].1 + ", "
  }

  /** `dic2str(dic)` over the (already stringified) items in order: each
      item is followed by ', ', and the whole is wrapped in braces. */
  method Dic2Str(items: seq<(string, string)>) returns (val: string)
    ensures val == "{" + ItemsText(items) + "}"
    ensures items == [] ==> val == "{}"
  {
    val := "{";
    var i := 0;
    while i < |items|
      invariant 0 <= i <= |items|
      invariant val == "{" + ItemsText(items[..i])
    {
      assert items[..i + 1][..i] == items[..i];
      val := val + items[i].0 + ": " + items[i].1 + ", ";
      i := i + 1;
    }
    assert items[..|items|] == items;
    val := val + "}";
  }

  /** Each item contributes its own text, so rendering distributes over
      concatenation of item lists. */
  lemma {:induction false} ItemsTextAppend(a: seq<(string, string)>, b: seq<(string, string)>)
    ensures ItemsText(a + b) == ItemsText(a) + ItemsText(b)
    decreases |b|
  {
    if b != [] {
      assert (a + b)[..|a + b| - 1] == a + b[..|b| - 1];
      ItemsTextAppend(a, b[..|b| - 1]);
    } else {
      assert a + b == a;
    }
  }

  /** `get_migration_time` given autoapp's last update and the stored
      previous update (None when no row is stored): raises when nothing is
      stored, and returns the pair only when there is new data. */
  function GetMigrationTime(lastUpdate: int, prevUpdateRow: Option<int>): (r: Result<(Option<int>, Option<int>)>)
    ensures prevUpdateRow.None? <==> r.Err?
    ensures r.Ok? ==> (r.value.0.Some? <==> prevUpdateRow.value < lastUpdate)
    ensures r.Ok? && r.value.0.Some? ==> r.value == (prevUpdateRow, Some(lastUpdate))
    ensures r.Ok? && r.value.0.None? ==> r.value.1.None?
  {
    if prevUpdateRow.None? then Err(GenericError)
    else if prevUpdateRow.value < lastUpdate then Ok((prevUpdateRow, Some(lastUpdate)))
    else Ok((None, None))
  }
}
