/** The `actual_basal` generator of migrate_basal_rate.py, which walks
    five-minute steps from `start_time` to `end_time` over a 24-entry table
    of hourly programmed rates and a queue of pump commands, and its
    `dic2str` renderer.

    Times are integer minutes; the hour of a time is `(t / 60) % 24` and its
    minute `t % 60`. The generator's rows are collected into a sequence. */
module MigrateBasalRate {
  import opened Common

  /** The `type` column of a command: the three values `actual_basal`
      tests for (`'cancel_temporary_basal'`, `'temporary_basal'` and
      `'suspend'`), and any other text. */
  datatype Kind = CancelTemporaryBasal | TemporaryBasal | Suspend | OtherKind

  /** A row of `recent_temp_basal_commands`: `date`, `type`, `ratio` (percent)
      and `duration` (whole hours). */
  datatype Command = Command(date: int, kind: Kind, ratio: int, duration: int)

  /** One yielded dictionary: `rtime`, `basal_amt`, `basal_amt_12`, `notes`. */
  datatype BasalRow = BasalRow(rtime: int, basalAmt: real, basalAmt12: real, notes: string)


  function Hour(t: int): nat { (t / 60) % 24 }
  function Minute(t: int): nat { t % 60 }

  /** `date + timedelta(hours=duration)`. */
  function EndTime(c: Command): int { c.date + 60 * c.duration }

  /** A command is processed once the step time is strictly after its date. */
  function CommandTime(c: Command): int { c.date }

  /** The state variables of `actual_basal`, with the command queue `rc`. */
  datatype State = State(
    rtime: int,
    rate: real,
    factor: real,
    tempEnd: Option<int>,
    rc: seq<Command>,
    notes: string)

  /** The note one command adds. The source tests the kind with three
      separate `if`s; the kinds are distinct, so at most one applies. */
  function CommandNote(c: Command): string
  {
    if c.kind == CancelTemporaryBasal then " cancel;"
    else if c.kind == TemporaryBasal then " temp_basal " + IntToString(c.ratio) + ";"
    else if c.kind == Suspend then " suspend;"
    else ""
  }

  /** The notes of a run of commands, in queue order. */
  function CommandNotes(cs: seq<Command>): string
    decreases |cs|
  {
    if cs == [] then "" else CommandNote(cs[0]) + CommandNotes(cs[1..])
  }

  /** The body of the inner loop for one popped command. The `suspend`
      branch assigns `end_temp_basal`, a variable nothing reads, so it
      leaves `temp_basal_end_time` as it was. */
  function ApplyCommand(s: State, c: Command): (r: State)
    ensures r.rtime == s.rtime && r.rate == s.rate && r.rc == s.rc
  {
    if c.kind == CancelTemporaryBasal then
      s.(factor := 1.0, tempEnd := None, notes := s.notes + " cancel;")
    else if c.kind == TemporaryBasal then
      s.(factor := c.ratio as real / 100.0, tempEnd := Some(EndTime(c)),
         notes := s.notes + " temp_basal " + IntToString(c.ratio) + ";")
    else if c.kind == Suspend then s.(factor := 0.0, notes := s.notes + " suspend;")
    else s
  }

  /** `while len(rc) > 0 and rtime > rc[0]['date']: comm = rc.pop(0); ...`. */
  function PopCommands(s: State): State
    decreases |s.rc|
  {
    if |s.rc| > 0 && s.rtime > s.rc[0].date then
      PopCommands(ApplyCommand(s.(rc := s.rc[1..]), s.rc[0]))
    else s
  }

  /** The programmed end of a temporary basal. */
  function EndCheck(s: State): State
  {
    if s.tempEnd.Some? && s.rtime >= s.tempEnd.value then
      s.(factor := 1.0, tempEnd := None, notes := s.notes + " end temp")
    else s
  }

  /** After the end check no end time at or before `rtime` is pending;
      when it fires the factor is back to 1.0 with the note ' end temp',
      and otherwise nothing changes. */
  lemma EndCheckClears(s: State)
    ensures var r := EndCheck(s);
      && (r.tempEnd.None? || s.rtime < r.tempEnd.value)
      && (r != s ==> r.factor == 1.0 && r.tempEnd == None && r.notes == s.notes + " end temp")
      && (s.tempEnd.None? || s.rtime < s.tempEnd.value ==> r == s)
      && r.rtime == s.rtime && r.rate == s.rate && r.rc == s.rc
  {
  }

  /** One iteration of `while rtime < end_time`, up to the `yield`. */
  function Prepare(s: State, pr: seq<real>): State
    requires |pr| == 24
  {
    EndCheck(PopCommands(Reload(s, pr)))
  }

  /** `notes = ''` and, on the hour, `rate = pr[rtime.hour]`. */
  function Reload(s: State, pr: seq<real>): State
    requires |pr| == 24
  {
    s.(notes := "", rate := if Minute(s.rtime) == 0 then pr[Hour(s.rtime)] else s.rate)
  }

  /** The dictionary an iteration yields. `basal_amt` is not rounded here. */
  function Emit(s: State): BasalRow
  {
    BasalRow(s.rtime, s.rate * s.factor, s.rate * s.factor / 12.0, s.notes)
  }

  /** The rows the loop yields from state `s`. */
  function RowsFrom(s: State, pr: seq<real>, end: int): seq<BasalRow>
    requires |pr| == 24
    decreases end - s.rtime
  {
    if s.rtime >= end then []
    else
      var s2 := Prepare(s, pr);
      [Emit(s2)] + RowsFrom(s2.(rtime := s.rtime + 5, notes := ""), pr, end)
  }

  /** The state before the loop: factor 1.0, no end time, `pr[start.hour]`. */
  function Initial(pr: seq<real>, rc: seq<Command>, start: int): State
    requires |pr| == 24
  {
    State(start, pr[Hour(start)], 1.0, None, rc, "")
  }

  /** The inner `while` of `actual_basal`: processes, in queue order, every
      command dated strictly before `rtime`, popping it from the front. */
  method PopDue(rtime: int, rate: real, factor0: real, tempEnd0: Option<int>, rc0: seq<Command>, notes0: string)
    returns (factor: real, tempEnd: Option<int>, rc: seq<Command>, notes: string)
    ensures State(rtime, rate, factor, tempEnd, rc, notes)
         == PopCommands(State(rtime, rate, factor0, tempEnd0, rc0, notes0))
  {
    factor, tempEnd, rc, notes := factor0, tempEnd0, rc0, notes0;
    while |rc| > 0 && rtime > rc[0].date
      invariant PopCommands(State(rtime, rate, factor, tempEnd, rc, notes))
             == PopCommands(State(rtime, rate, factor0, tempEnd0, rc0, notes0))
      decreases |rc|
    {
      ghost var before := State(rtime, rate, factor, tempEnd, rc, notes);
      var comm := rc[0];
      rc := rc[1..];
      if comm.kind == CancelTemporaryBasal {
        factor, tempEnd := 1.0, None;
        notes := notes + " cancel;";
      }
      if comm.kind == TemporaryBasal {
        var ratio := comm.ratio;
        factor := ratio as real / 100.0;
        tempEnd := Some(EndTime(comm));
        notes := notes + " temp_basal " + IntToString(ratio) + ";";
      }
      if comm.kind == Suspend {
        factor := 0.0;
        notes := notes + " suspend;";
      }
      assert State(rtime, rate, factor, tempEnd, rc, notes) == ApplyCommand(before.(rc := rc), comm);
    }
  }

  /** `actual_basal` with the two database reads passed in: `pr` is the
      24-entry result of `programmed_rates_array`, `rc` that of
      `recent_temp_basal_commands`. */
  method ActualBasal(pr: seq<real>, rc0: seq<Command>, start: int, end: int) returns (rows: seq<BasalRow>)
    requires |pr| == 24
    ensures rows == RowsFrom(Initial(pr, rc0, start), pr, end)
  {
    var rtime := start;
    var factor := 1.0;
    var tempEnd: Option<int> := None;
    var rate := pr[Hour(rtime)];
    var rc := rc0;
    rows := [];
    while rtime < end
      invariant RowsFrom(Initial(pr, rc0, start), pr, end)
             == rows + RowsFrom(State(rtime, rate, factor, tempEnd, rc, ""), pr, end)
      decreases end - rtime
    {
      ghost var s := State(rtime, rate, factor, tempEnd, rc, "");
      var notes;
      rate, factor, tempEnd, rc, notes := PrepareStep(pr, rtime, rate, factor, tempEnd, rc);
      var row := BasalRow(rtime, rate * factor, rate * factor / 12.0, notes);
      LoopStep(RowsFrom(Initial(pr, rc0, start), pr, end), rows, s, pr, end, State(rtime, rate, factor, tempEnd, rc, notes));
      rows := rows + [row];
      rtime := rtime + 5;
    }
  }

  /** The body of `while rtime < end` up to the `yield`: reload the rate
      on the hour, process due commands, then end an expired temporary
      basal. */
  method PrepareStep(pr: seq<real>, rtime: int, rate0: real, factor0: real, tempEnd0: Option<int>, rc0: seq<Command>)
    returns (rate: real, factor: real, tempEnd: Option<int>, rc: seq<Command>, notes: string)
    requires |pr| == 24
    ensures State(rtime, rate, factor, tempEnd, rc, notes) == Prepare(State(rtime, rate0, factor0, tempEnd0, rc0, ""), pr)
  {
    rate := rate0;
    notes := "";
    if Minute(rtime) == 0 {
      rate := pr[Hour(rtime)];
    }
    factor, tempEnd, rc, notes := PopDue(rtime, rate, factor0, tempEnd0, rc0, notes);
    if tempEnd.Some? && rtime >= tempEnd.value {
      factor, tempEnd := 1.0, None;
      notes := notes + " end temp";
    }
  }

  /** The loop invariant of `actual_basal` survives one step. */
  lemma LoopStep(total: seq<BasalRow>, rows: seq<BasalRow>, s: State, pr: seq<real>, end: int, p: State)
    requires |pr| == 24 && s.rtime < end && p == Prepare(s, pr)
    requires total == rows + RowsFrom(s, pr, end)
    ensures total == (rows + [Emit(p)]) + RowsFrom(State(s.rtime + 5, p.rate, p.factor, p.tempEnd, p.rc, ""), pr, end)
  {
    RowsFromStep(s, pr, end);
    var rest := RowsFrom(State(s.rtime + 5, p.rate, p.factor, p.tempEnd, p.rc, ""), pr, end);
    assert rows + ([Emit(p)] + rest) == (rows + [Emit(p)]) + rest;
  }

  /** One step of the loop yields the prepared row and moves on five minutes. */
  lemma RowsFromStep(s: State, pr: seq<real>, end: int)
    requires |pr| == 24 && s.rtime < end
    ensures var p := Prepare(s, pr);
      p.rtime == s.rtime &&
      RowsFrom(s, pr, end) == [Emit(p)] + RowsFrom(State(s.rtime + 5, p.rate, p.factor, p.tempEnd, p.rc, ""), pr, end)
  {
    PrepareKeepsTime(s, pr);
    var p := Prepare(s, pr);
    assert p.(rtime := s.rtime + 5, notes := "") == State(s.rtime + 5, p.rate, p.factor, p.tempEnd, p.rc, "");
  }

  // ---------------------------------------------------------------
  // properties of actual_basal
  // ---------------------------------------------------------------

  /** One row per five-minute step from `start` while `rtime < end`, in
      increasing order, and `basal_amt_12` is `basal_amt / 12`. */
  lemma {:induction false} RowsFromShape(s: State, pr: seq<real>, end: int)
    requires |pr| == 24
    ensures var rows := RowsFrom(s, pr, end);
      |rows| == (if s.rtime >= end then 0 else (end - s.rtime + 4) / 5)
      && (forall k :: 0 <= k < |rows| ==> rows[k].rtime == s.rtime + 5 * k && rows[k].rtime < end)
      && (forall k :: 0 <= k < |rows| ==> rows[k].basalAmt12 == rows[k].basalAmt / 12.0)
    decreases end - s.rtime
  {
    if s.rtime < end {
      var s2 := Prepare(s, pr);
      PrepareKeepsTime(s, pr);
      var next := s2.(rtime := s.rtime + 5, notes := "");
      RowsFromShape(next, pr, end);
      var rows := RowsFrom(s, pr, end);
      assert rows == [Emit(s2)] + RowsFrom(next, pr, end);
      forall k | 0 < k < |rows|
        ensures rows[k].rtime == s.rtime + 5 * k
      {
        assert rows[k] == RowsFrom(next, pr, end)[k - 1];
      }
    }
  }

  lemma PrepareKeepsTime(s: State, pr: seq<real>)
    requires |pr| == 24
    ensures Prepare(s, pr).rtime == s.rtime
  {
    PopCommandsKeeps(Reload(s, pr));
  }

  lemma ActualBasalShape(pr: seq<real>, rc: seq<Command>, start: int, end: int)
    requires |pr| == 24
    ensures var rows := RowsFrom(Initial(pr, rc, start), pr, end);
      |rows| == (if start >= end then 0 else (end - start + 4) / 5)
      && (forall k :: 0 <= k < |rows| ==> rows[k].rtime == start + 5 * k && rows[k].rtime < end)
      && (forall k :: 0 <= k < |rows| ==> rows[k].basalAmt12 == rows[k].basalAmt / 12.0)
  {
    RowsFromShape(Initial(pr, rc, start), pr, end);
  }

  /** The rate a step uses is the table entry for its hour: it is reloaded
      at minute 0, and with five-minute steps every hour starts with one. */
  ghost predicate RateOk(s: State, pr: seq<real>)
    requires |pr| == 24
  {
    s.rtime % 5 == 0 && (Minute(s.rtime) == 0 || s.rate == pr[Hour(s.rtime)])
  }

  lemma PopCommandsKeeps(s: State)
    ensures var r := PopCommands(s);
      r.rtime == s.rtime && r.rate == s.rate
      && r.rc == s.rc[ReadyCount(s.rc, CommandTime, s.rtime - 1)..]
      && r.notes == s.notes + CommandNotes(s.rc[..ReadyCount(s.rc, CommandTime, s.rtime - 1)])
  {
    PopCommandsQueue(s);
    PopCommandsNotes(s);
  }

  /** The popped commands are the ready prefix of the queue. */
  lemma {:induction false} PopCommandsQueue(s: State)
    ensures var r := PopCommands(s);
      r.rtime == s.rtime && r.rate == s.rate
      && r.rc == s.rc[ReadyCount(s.rc, CommandTime, s.rtime - 1)..]
    decreases |s.rc|
  {
    if |s.rc| > 0 && s.rtime > s.rc[0].date {
      var s1 := ApplyCommand(s.(rc := s.rc[1..]), s.rc[0]);
      PopCommandsQueue(s1);
      var n := ReadyCount(s.rc, CommandTime, s.rtime - 1);
      assert s1.rc == s.rc[1..];
      assert CommandTime(s.rc[0]) <= s.rtime - 1;
      assert n == 1 + ReadyCount(s.rc[1..], CommandTime, s.rtime - 1);
      assert ReadyCount(s1.rc, CommandTime, s.rtime - 1) == n - 1;
      assert s.rc[1..][n - 1..] == s.rc[n..];
    }
  }

  /** Their notes are appended in queue order. */
  lemma {:induction false} PopCommandsNotes(s: State)
    ensures PopCommands(s).notes == s.notes + CommandNotes(s.rc[..ReadyCount(s.rc, CommandTime, s.rtime - 1)])
    decreases |s.rc|
  {
    if |s.rc| > 0 && s.rtime > s.rc[0].date {
      var s1 := ApplyCommand(s.(rc := s.rc[1..]), s.rc[0]);
      PopOne(s);
      PopCommandsNotes(s1);
      ReadyPrefixNotes(s.rc, s.rtime - 1);
      var n := ReadyCount(s.rc, CommandTime, s.rtime - 1);
      ConcatAssoc(s.notes, CommandNote(s.rc[0]), CommandNotes(s.rc[1..][..n - 1]));
    } else {
      assert s.rc[..0] == [];
    }
  }

  /** Popping one due command. */
  lemma PopOne(s: State)
    requires |s.rc| > 0 && s.rtime > s.rc[0].date
    ensures var s1 := ApplyCommand(s.(rc := s.rc[1..]), s.rc[0]);
      PopCommands(s) == PopCommands(s1) && s1.rc == s.rc[1..] && s1.rtime == s.rtime &&
      s1.notes == s.notes + CommandNote(s.rc[0])
  {
    CommandNoteAppend(s.(rc := s.rc[1..]), s.rc[0]);
  }

  /** The notes of a ready prefix start with those of its first command. */
  lemma ReadyPrefixNotes(rc: seq<Command>, t: int)
    requires |rc| > 0 && rc[0].date <= t
    ensures var n := ReadyCount(rc, CommandTime, t);
      n == 1 + ReadyCount(rc[1..], CommandTime, t) &&
      CommandNotes(rc[..n]) == CommandNote(rc[0]) + CommandNotes(rc[1..][..n - 1])
  {
    var n := ReadyCount(rc, CommandTime, t);
    assert n == 1 + ReadyCount(rc[1..], CommandTime, t);
    assert rc[..n][1..] == rc[1..][..n - 1];
  }

  /** The notes a command adds are exactly `CommandNote` of it. */
  lemma CommandNoteAppend(s: State, c: Command)
    ensures ApplyCommand(s, c).notes == s.notes + CommandNote(c)
  {
  }

  /** Commands dated strictly before `rtime` are processed in queue order and
      removed from the front of `rc`, and their notes appear in that order;
      commands due later stay queued. */
  lemma CommandsProcessedInOrder(s: State)
    ensures var n := ReadyCount(s.rc, CommandTime, s.rtime - 1);
      var r := PopCommands(s);
      (forall i :: 0 <= i < n ==> s.rc[i].date < s.rtime)
      && (n < |s.rc| ==> s.rc[n].date >= s.rtime)
      && r.rc == s.rc[n..]
      && r.notes == s.notes + CommandNotes(s.rc[..n])
  {
    PopCommandsKeeps(s);
    ReadyCountAll(s.rc, CommandTime, s.rtime - 1);
  }

  /** What each command does to the factor and the end time: a cancel gives
      1.0 and no end time, a temporary basal its ratio over 100 and an end
      `duration` hours after its date, a suspend 0.0 with the end time kept,
      and any other type nothing. */
  lemma CommandEffects(s: State, c: Command)
    ensures var r := ApplyCommand(s, c);
      (c.kind == CancelTemporaryBasal ==> r.factor == 1.0 && r.tempEnd.None?)
      && (c.kind == TemporaryBasal ==> r.factor == c.ratio as real / 100.0 && r.tempEnd == Some(c.date + 60 * c.duration))
      && (c.kind == Suspend ==> r.factor == 0.0 && r.tempEnd == s.tempEnd)
      && (c.kind == OtherKind ==> r.factor == s.factor && r.tempEnd == s.tempEnd)
  {
  }

  /** A suspend issued while a temporary basal runs does not stop the
      temporary basal's programmed end: at that end time the factor goes
      back to 1.0 with the note ' end temp', though no command resumed
      delivery. */
  lemma SuspendEndedByTempEnd(pr: seq<real>, rate: real)
    requires |pr| == 24
    ensures var temp := Command(0, TemporaryBasal, 50, 1);
      var suspend := Command(10, Suspend, 0, 0);
      var s := PopCommands(State(15, rate, 1.0, None, [temp, suspend], ""));
      s.factor == 0.0 && s.tempEnd == Some(60) && s.rc == []
      && var at60 := Prepare(s.(rtime := 60), pr);
      at60.factor == 1.0 && at60.notes == " end temp"
  {
    var temp := Command(0, TemporaryBasal, 50, 1);
    var suspend := Command(10, Suspend, 0, 0);
    var s0 := State(15, rate, 1.0, None, [temp, suspend], "");
    var s1 := ApplyCommand(s0.(rc := [suspend]), temp);
    assert s1.factor == 0.5 && s1.tempEnd == Some(60);
    assert s0.rc[1..] == [suspend];
    assert PopCommands(s0) == PopCommands(s1);
    var s2 := ApplyCommand(s1.(rc := []), suspend);
    assert s1.rc[1..] == [];
    assert PopCommands(s1) == PopCommands(s2);
    assert PopCommands(s2) == s2;
  }

  /** As written, a suspend keeps the end time of a running temporary basal,
      so the end check of any step at or after that end sets the factor back
      to 1.0 while the pump is still meant to be suspended. */
  lemma SuspendKeepsPendingEnd(s: State, c: Command, t: int)
    requires c.kind == Suspend && s.tempEnd.Some? && t >= s.tempEnd.value
    ensures ApplyCommand(s, c).factor == 0.0 && ApplyCommand(s, c).tempEnd == s.tempEnd
    ensures var r := EndCheck(ApplyCommand(s, c).(rtime := t));
      r.factor == 1.0 && r.tempEnd.None? && r.notes == s.notes + " suspend; end temp"
  {
  }

  /** The suspend branch as evidently meant: `temp_basal_end_time = None`,
      so a suspend also drops a pending end time. Every other command is
      processed as `ApplyCommand` does. */
  function ApplyCommandIntended(s: State, c: Command): (r: State)
    ensures r.rtime == s.rtime && r.rate == s.rate && r.rc == s.rc
    ensures c.kind == Suspend ==> r.factor == 0.0 && r.tempEnd.None?
    ensures c.kind != Suspend ==> r == ApplyCommand(s, c)
  {
    if c.kind == Suspend then s.(factor := 0.0, tempEnd := None, notes := s.notes + " suspend;")
    else ApplyCommand(s, c)
  }

  /** With the intended suspend no end check fires afterwards, at any later
      step, so the factor stays 0.0 until the next command. */
  lemma SuspendHoldsIntended(s: State, c: Command, t: int)
    requires c.kind == Suspend
    ensures var r := EndCheck(ApplyCommandIntended(s, c).(rtime := t));
      r.factor == 0.0 && r.tempEnd.None? && r.notes == s.notes + " suspend;"
  {
  }

  lemma {:induction false} RowsFromNoCommands(s: State, pr: seq<real>, end: int)
    requires |pr| == 24 && RateOk(s, pr)
    requires s.rc == [] && s.factor == 1.0 && s.tempEnd.None?
    ensures var rows := RowsFrom(s, pr, end);
      forall k :: 0 <= k < |rows| ==>
        rows[k].basalAmt == pr[Hour(rows[k].rtime)] && rows[k].notes == ""
    decreases end - s.rtime
  {
    if s.rtime < end {
      var s1 := Reload(s, pr);
      assert PopCommands(s1) == s1;
      var s2 := Prepare(s, pr);
      assert s2 == s1;
      var next := s2.(rtime := s.rtime + 5, notes := "");
      NextStepSameHour(s.rtime);
      RowsFromNoCommands(next, pr, end);
      var rows := RowsFrom(s, pr, end);
      assert rows == [Emit(s2)] + RowsFrom(next, pr, end);
    }
  }

  lemma AddFive(t: int)
    ensures t % 60 + 5 < 60 ==> (t + 5) / 60 == t / 60 && (t + 5) % 60 == t % 60 + 5
    ensures t % 60 + 5 >= 60 ==> (t + 5) % 60 == t % 60 + 5 - 60
  {
  }

  lemma MinuteOnGrid(t: int)
    requires t % 5 == 0
    ensures (t % 60) % 5 == 0
  {
    assert t == 5 * (12 * (t / 60)) + t % 60;
  }

  /** A five-minute step that does not land on minute 0 stays in the hour. */
  lemma NextStepSameHour(t: int)
    requires t % 5 == 0
    ensures (t + 5) % 5 == 0
    ensures Minute(t + 5) != 0 ==> Hour(t + 5) == Hour(t)
  {
    AddFive(t);
    MinuteOnGrid(t);
  }

  /** With no commands and a start on the five-minute grid, every row's
      `basal_amt` is the programmed rate of its hour and its notes are empty. */
  lemma NoCommandsMeansProgrammedRate(pr: seq<real>, start: int, end: int)
    requires |pr| == 24 && start % 5 == 0
    ensures var rows := RowsFrom(Initial(pr, [], start), pr, end);
      forall k :: 0 <= k < |rows| ==>
        rows[k].basalAmt == pr[Hour(rows[k].rtime)] && rows[k].notes == ""
  {
    RowsFromNoCommands(Initial(pr, [], start), pr, end);
  }

  // ---------------------------------------------------------------
  // what each row's basal_amt means, with commands queued
  // ---------------------------------------------------------------

  /** The position of the last command among the first `n` that sets the
      factor: a cancel, a temporary basal or a suspend. */
  function LastEffective(rc: seq<Command>, n: nat): (r: Option<nat>)
    requires n <= |rc|
    ensures r.Some? ==> r.value < n && rc[r.value].kind != OtherKind
    ensures r.None? ==> forall i :: 0 <= i < n ==> rc[i].kind == OtherKind
    decreases n
  {
    if n == 0 then None
    else if rc[n - 1].kind != OtherKind then Some(n - 1)
    else LastEffective(rc, n - 1)
  }

  /** The position of the last cancel or temporary basal among the first
      `n`: the only kinds that set `temp_basal_end_time`. */
  function LastTempOrCancel(rc: seq<Command>, n: nat): (r: Option<nat>)
    requires n <= |rc|
    ensures r.Some? ==> r.value < n && rc[r.value].kind in {CancelTemporaryBasal, TemporaryBasal}
    ensures r.None? ==> forall i :: 0 <= i < n ==> rc[i].kind !in {CancelTemporaryBasal, TemporaryBasal}
    decreases n
  {
    if n == 0 then None
    else if rc[n - 1].kind == CancelTemporaryBasal || rc[n - 1].kind == TemporaryBasal then Some(n - 1)
    else LastTempOrCancel(rc, n - 1)
  }

  /** The latest command date among the first `i + 1` commands. */
  function MaxDateUpTo(rc: seq<Command>, i: nat): int
    requires i < |rc|
  {
    if i == 0 then rc[0].date
    else if rc[i].date > MaxDateUpTo(rc, i - 1) then rc[i].date
    else MaxDateUpTo(rc, i - 1)
  }

  /** The first step of the grid `start, start + 5, ...` at or after `y`. */
  function GridUp(start: int, y: int): (r: int)
    ensures r >= start && r >= y && (r - start) % 5 == 0
    ensures r > start ==> r - 5 < y
  {
    if y <= start then start
    else
      var c := (y - start + 4) / 5;
      assert 5 * c <= y - start + 4 < 5 * c + 5;
      start + 5 * c
  }

  /** The step at which command `i` is dequeued: the first step after the
      dates of it and of every command queued before it. */
  function PopStep(rc: seq<Command>, start: int, i: nat): (r: int)
    requires i < |rc|
    ensures r >= start && (r - start) % 5 == 0
  {
    GridUp(start, MaxDateUpTo(rc, i) + 1)
  }

  /** The factor a suspend at `i` leaves at step `t`: 0.0, except that the
      temporary basal running when it came (the last temporary basal before
      it, with no cancel in between) still ends it with ' end temp' when its
      end time has come by `t` but had not come at a step before the one
      that dequeued the suspend. */
  function SuspendFactor(rc: seq<Command>, start: int, i: nat, t: int): real
    requires i < |rc|
  {
    match LastTempOrCancel(rc, i)
    case None => 0.0
    case Some(j) =>
      if rc[j].kind == TemporaryBasal && EndTime(rc[j]) <= t
         && (PopStep(rc, start, j) == PopStep(rc, start, i) || EndTime(rc[j]) > PopStep(rc, start, i) - 5)
      then 1.0 else 0.0
  }

  /** `factor` once the step at `t` has dequeued the first `n` commands and
      run the end check: 1.0 with no command that sets it and after a
      cancel; for a temporary basal its ratio over 100 until its end time
      and 1.0 from then on; for a suspend `SuspendFactor`. */
  function FactorAt(rc: seq<Command>, start: int, n: nat, t: int): real
    requires n <= |rc|
  {
    match LastEffective(rc, n)
    case None => 1.0
    case Some(i) =>
      if rc[i].kind == CancelTemporaryBasal then 1.0
      else if rc[i].kind == TemporaryBasal then (if EndTime(rc[i]) <= t then 1.0 else rc[i].ratio as real / 100.0)
      else SuspendFactor(rc, start, i, t)
  }

  /** `temp_basal_end_time` after the same step: the end of the last
      temporary basal not cancelled since, while that end is still ahead. */
  function TempEndAt(rc: seq<Command>, n: nat, t: int): Option<int>
    requires n <= |rc|
  {
    match LastTempOrCancel(rc, n)
    case None => None
    case Some(j) => if rc[j].kind == TemporaryBasal && EndTime(rc[j]) > t then Some(EndTime(rc[j])) else None
  }

  /** `factor` in the middle of the step at `t`, after the end check of the
      step before and with `m` commands dequeued, of which `np` were
      dequeued at earlier steps. */
  function PreFactor(rc: seq<Command>, start: int, np: nat, m: nat, t: int): real
    requires m <= |rc|
  {
    match LastEffective(rc, m)
    case None => 1.0
    case Some(i) =>
      if rc[i].kind == CancelTemporaryBasal then 1.0
      else if rc[i].kind == TemporaryBasal then
        (if i >= np || EndTime(rc[i]) > t - 5 then rc[i].ratio as real / 100.0 else 1.0)
      else if i >= np then 0.0
      else SuspendFactor(rc, start, i, t - 5)
  }

  /** `temp_basal_end_time` at the same point. */
  function PreTempEnd(rc: seq<Command>, np: nat, m: nat, t: int): Option<int>
    requires m <= |rc|
  {
    match LastTempOrCancel(rc, m)
    case None => None
    case Some(j) =>
      if rc[j].kind == TemporaryBasal && (j >= np || EndTime(rc[j]) > t - 5) then Some(EndTime(rc[j])) else None
  }

  /** The commands dequeued before the step at `t`. */
  function PoppedBefore(rc: seq<Command>, start: int, t: int): (n: nat)
    ensures n <= |rc|
  {
    if t == start then 0 else ReadyCount(rc, CommandTime, t - 6)
  }

  /** The loop invariant of `actual_basal` before the step at `s.rtime`: the
      step is on the five-minute grid from `start`, the rate is the table's,
      the queue holds what earlier steps left and the factor and end time
      are those the step before left. */
  ghost predicate StepInv(s: State, pr: seq<real>, rc0: seq<Command>, start: int)
    requires |pr| == 24
  {
    var np := PoppedBefore(rc0, start, s.rtime);
    && s.rtime >= start && (s.rtime - start) % 5 == 0 && RateOk(s, pr)
    && s.rc == rc0[np..]
    && s.factor == PreFactor(rc0, start, np, np, s.rtime)
    && s.tempEnd == PreTempEnd(rc0, np, np, s.rtime)
  }

  /** The row at `row.rtime` means the hour's programmed rate times
      `FactorAt` for the commands dated before that step. */
  ghost predicate RowMeaning(row: BasalRow, pr: seq<real>, rc0: seq<Command>, start: int)
    requires |pr| == 24
  {
    row.basalAmt == pr[Hour(row.rtime)] * FactorAt(rc0, start, ReadyCount(rc0, CommandTime, row.rtime - 1), row.rtime)
  }

  ghost predicate RowsMeaning(rows: seq<BasalRow>, pr: seq<real>, rc0: seq<Command>, start: int)
    requires |pr| == 24
  {
    forall k :: 0 <= k < |rows| ==> RowMeaning(rows[k], pr, rc0, start)
  }

  /** The latest date among the first `i + 1` commands is at most `x`
      exactly when each of their dates is. */
  lemma {:induction false} MaxDateBound(rc: seq<Command>, i: nat, x: int)
    requires i < |rc|
    ensures MaxDateUpTo(rc, i) <= x <==> forall m :: 0 <= m <= i ==> rc[m].date <= x
    decreases i
  {
    if i > 0 {
      MaxDateBound(rc, i - 1, x);
      if MaxDateUpTo(rc, i) <= x {
        forall m | 0 <= m <= i ensures rc[m].date <= x {
          if m < i { assert 0 <= m <= i - 1; }
        }
      }
    }
  }

  /** Command `i` is among those dequeued by the step at `t` exactly when
      `PopStep` is at or before `t`. */
  lemma PopStepCount(rc: seq<Command>, start: int, i: nat, t: int)
    requires i < |rc| && t >= start && (t - start) % 5 == 0
    ensures i < ReadyCount(rc, CommandTime, t - 1) <==> PopStep(rc, start, i) <= t
  {
    ReadyCountAll(rc, CommandTime, t - 1);
    MaxDateBound(rc, i, t - 1);
    var n := ReadyCount(rc, CommandTime, t - 1);
    var g := PopStep(rc, start, i);
    if g > t {
      assert g - t >= 5;
      assert MaxDateUpTo(rc, i) + 1 > t;
    }
    if i >= n {
      assert rc[n].date > t - 1;
    }
  }

  /** The first `n` commands dequeued, cancels and temporary basals decide
      the end time: the last effective command of those kinds is the last
      of them, and after a suspend the last of them comes before it. */
  lemma {:induction false} LastTempOrCancelOfEffective(rc: seq<Command>, n: nat)
    requires n <= |rc|
    ensures LastEffective(rc, n).None? ==> LastTempOrCancel(rc, n).None?
    ensures LastEffective(rc, n).Some? && rc[LastEffective(rc, n).value].kind != Suspend ==>
      LastTempOrCancel(rc, n) == LastEffective(rc, n)
    ensures LastEffective(rc, n).Some? && rc[LastEffective(rc, n).value].kind == Suspend ==>
      LastTempOrCancel(rc, n) == LastTempOrCancel(rc, LastEffective(rc, n).value)
    decreases n
  {
    if n > 0 {
      if rc[n - 1].kind == OtherKind {
        LastTempOrCancelOfEffective(rc, n - 1);
      } else if rc[n - 1].kind == Suspend {
        assert LastTempOrCancel(rc, n) == LastTempOrCancel(rc, n - 1);
      }
    }
  }

  /** Processing command `m` moves the factor and end time one command on. */
  lemma ApplyFollowsQueue(s: State, rc0: seq<Command>, start: int, np: nat, m: nat, t: int)
    requires np <= m < |rc0|
    requires s.factor == PreFactor(rc0, start, np, m, t) && s.tempEnd == PreTempEnd(rc0, np, m, t)
    ensures var r := ApplyCommand(s, rc0[m]);
      r.factor == PreFactor(rc0, start, np, m + 1, t) && r.tempEnd == PreTempEnd(rc0, np, m + 1, t)
  {
  }

  /** The inner `while` dequeues the commands due at `t` and moves the
      factor and end time along with them. */
  lemma {:induction false} PopCommandsFollowsQueue(s: State, rc0: seq<Command>, start: int, np: nat, m: nat, t: int)
    requires np <= m <= |rc0| && s.rc == rc0[m..] && s.rtime == t
    requires m + ReadyCount(s.rc, CommandTime, t - 1) == ReadyCount(rc0, CommandTime, t - 1)
    requires s.factor == PreFactor(rc0, start, np, m, t) && s.tempEnd == PreTempEnd(rc0, np, m, t)
    ensures var r := PopCommands(s); var n := ReadyCount(rc0, CommandTime, t - 1);
      r.factor == PreFactor(rc0, start, np, n, t) && r.tempEnd == PreTempEnd(rc0, np, n, t)
    decreases |s.rc|
  {
    if |s.rc| > 0 && s.rtime > s.rc[0].date {
      var top := s.rc[0];
      assert top == rc0[m];
      assert rc0[m + 1..] == s.rc[1..];
      var s1 := ApplyCommand(s.(rc := s.rc[1..]), top);
      ApplyFollowsQueue(s.(rc := s.rc[1..]), rc0, start, np, m, t);
      PopCommandsFollowsQueue(s1, rc0, start, np, m + 1, t);
    }
  }

  /** The end check after the pops leaves the factor and end time that
      `FactorAt` and `TempEndAt` give. */
  lemma EndCheckFollowsQueue(s: State, rc0: seq<Command>, start: int, np: nat, n: nat, t: int)
    requires np <= n <= |rc0| && s.rtime == t
    requires s.factor == PreFactor(rc0, start, np, n, t) && s.tempEnd == PreTempEnd(rc0, np, n, t)
    requires forall i :: np <= i < n ==> PopStep(rc0, start, i) == t
    requires forall i :: 0 <= i < np ==> PopStep(rc0, start, i) <= t - 5
    ensures EndCheck(s).factor == FactorAt(rc0, start, n, t)
    ensures EndCheck(s).tempEnd == TempEndAt(rc0, n, t)
  {
    LastTempOrCancelOfEffective(rc0, n);
  }

  /** Every command dequeued at the step at `t` has `PopStep` `t`; every
      earlier one a step at least five minutes before. */
  lemma PopStepsOfStep(rc0: seq<Command>, start: int, t: int)
    requires t >= start && (t - start) % 5 == 0
    ensures var np := PoppedBefore(rc0, start, t); var n := ReadyCount(rc0, CommandTime, t - 1);
      && np <= n
      && (forall i :: np <= i < n ==> PopStep(rc0, start, i) == t)
      && (forall i :: 0 <= i < np ==> PopStep(rc0, start, i) <= t - 5)
  {
    var np := PoppedBefore(rc0, start, t);
    var n := ReadyCount(rc0, CommandTime, t - 1);
    if t > start {
      ReadyCountSplit(rc0, CommandTime, t - 6, t - 1, np);
    }
    forall i | np <= i < n
      ensures PopStep(rc0, start, i) == t
    {
      PopStepCount(rc0, start, i, t);
      if t > start {
        PopStepCount(rc0, start, i, t - 5);
        var g := PopStep(rc0, start, i);
        assert t - 5 < g <= t;
        assert (t - g) % 5 == 0;
      }
    }
    forall i | 0 <= i < np
      ensures PopStep(rc0, start, i) <= t - 5
    {
      PopStepCount(rc0, start, i, t - 5);
    }
  }

  /** The pops of one step keep the time and the table's rate. */
  lemma StepPopsRate(s: State, pr: seq<real>)
    requires |pr| == 24 && RateOk(s, pr)
    ensures var q := PopCommands(Reload(s, pr));
      q.rtime == s.rtime && q.rate == pr[Hour(s.rtime)]
  {
    PopCommandsQueue(Reload(s, pr));
    ReloadRate(s, pr);
  }

  /** The commands due by `t` that earlier steps left are exactly those
      its pops dequeue. */
  lemma DueAfterEarlier(rc0: seq<Command>, start: int, t: int)
    requires t >= start
    ensures var np := PoppedBefore(rc0, start, t); var n := ReadyCount(rc0, CommandTime, t - 1);
      np <= n && np + ReadyCount(rc0[np..], CommandTime, t - 1) == n
  {
    if t > start {
      ReadyCountSplit(rc0, CommandTime, t - 6, t - 1, PoppedBefore(rc0, start, t));
    } else {
      ReadyCountSplit(rc0, CommandTime, t - 1, t - 1, 0);
    }
  }

  /** Pops from the queue that earlier steps left. */
  lemma PopsFromEarlier(q: State, rc0: seq<Command>, start: int)
    requires q.rtime >= start && q.rc == rc0[PoppedBefore(rc0, start, q.rtime)..]
    ensures var r := PopCommands(q); var np := PoppedBefore(rc0, start, q.rtime);
      var n := ReadyCount(rc0, CommandTime, q.rtime - 1);
      np <= n && r.rtime == q.rtime && r.rc == rc0[n..]
  {
    var np := PoppedBefore(rc0, start, q.rtime);
    var n := ReadyCount(rc0, CommandTime, q.rtime - 1);
    DueAfterEarlier(rc0, start, q.rtime);
    PopCommandsQueue(q);
    assert rc0[np..][n - np..] == rc0[n..];
  }

  /** The pops of one step dequeue what is due at its time. */
  lemma StepPopsQueue(s: State, pr: seq<real>, rc0: seq<Command>, start: int)
    requires |pr| == 24 && s.rtime >= start && s.rc == rc0[PoppedBefore(rc0, start, s.rtime)..]
    ensures var q := PopCommands(Reload(s, pr)); var np := PoppedBefore(rc0, start, s.rtime);
      var n := ReadyCount(rc0, CommandTime, s.rtime - 1);
      np <= n && q.rtime == s.rtime && q.rc == rc0[n..]
  {
    PopsFromEarlier(Reload(s, pr), rc0, start);
  }

  /** The pops of one step move the factor and end time along the commands
      due at its time. */
  lemma StepPops(s: State, pr: seq<real>, rc0: seq<Command>, start: int)
    requires |pr| == 24 && s.rtime >= start
    requires var np := PoppedBefore(rc0, start, s.rtime);
      && s.rc == rc0[np..]
      && s.factor == PreFactor(rc0, start, np, np, s.rtime)
      && s.tempEnd == PreTempEnd(rc0, np, np, s.rtime)
    ensures var q := PopCommands(Reload(s, pr)); var np := PoppedBefore(rc0, start, s.rtime);
      var n := ReadyCount(rc0, CommandTime, s.rtime - 1);
      && q.factor == PreFactor(rc0, start, np, n, s.rtime)
      && q.tempEnd == PreTempEnd(rc0, np, n, s.rtime)
  {
    DueAfterEarlier(rc0, start, s.rtime);
    PopCommandsFollowsQueue(Reload(s, pr), rc0, start, PoppedBefore(rc0, start, s.rtime), PoppedBefore(rc0, start, s.rtime), s.rtime);
  }

  /** On the grid the reloaded rate is the table's entry for the hour. */
  lemma ReloadRate(s: State, pr: seq<real>)
    requires |pr| == 24 && RateOk(s, pr)
    ensures Reload(s, pr).rate == pr[Hour(s.rtime)]
  {
  }

  /** One step from the invariant: the row's time, rate and queue. */
  lemma StepQueue(s: State, pr: seq<real>, rc0: seq<Command>, start: int)
    requires |pr| == 24 && StepInv(s, pr, rc0, start)
    ensures var p := Prepare(s, pr); var n := ReadyCount(rc0, CommandTime, s.rtime - 1);
      p.rtime == s.rtime && p.rate == pr[Hour(s.rtime)] && p.rc == rc0[n..]
  {
    StepPopsQueue(s, pr, rc0, start);
    StepPopsRate(s, pr);
  }

  /** One step from the invariant: the row's factor and end time. */
  lemma StepFactor(s: State, pr: seq<real>, rc0: seq<Command>, start: int)
    requires |pr| == 24 && StepInv(s, pr, rc0, start)
    ensures var p := Prepare(s, pr); var n := ReadyCount(rc0, CommandTime, s.rtime - 1);
      p.factor == FactorAt(rc0, start, n, s.rtime) && p.tempEnd == TempEndAt(rc0, n, s.rtime)
  {
    StepPops(s, pr, rc0, start);
    PopStepsOfStep(rc0, start, s.rtime);
    PopCommandsQueue(Reload(s, pr));
    EndCheckFollowsQueue(PopCommands(Reload(s, pr)), rc0, start, PoppedBefore(rc0, start, s.rtime), ReadyCount(rc0, CommandTime, s.rtime - 1), s.rtime);
  }

  /** One step from the invariant: the row's rate, factor and end time. */
  lemma StepFollowsQueue(s: State, pr: seq<real>, rc0: seq<Command>, start: int)
    requires |pr| == 24 && StepInv(s, pr, rc0, start)
    ensures var p := Prepare(s, pr); var n := ReadyCount(rc0, CommandTime, s.rtime - 1);
      && p.rtime == s.rtime && p.rate == pr[Hour(s.rtime)]
      && p.factor == FactorAt(rc0, start, n, s.rtime)
      && p.tempEnd == TempEndAt(rc0, n, s.rtime)
      && p.rc == rc0[n..]
  {
    StepQueue(s, pr, rc0, start);
    StepFactor(s, pr, rc0, start);
  }

  /** Once the step at `t` has run, the factor and end time it leaves are
      the ones the invariant expects before the step at `t + 5`. */
  lemma NextPreFactor(rc0: seq<Command>, start: int, n: nat, t: int)
    requires n <= |rc0|
    ensures PreFactor(rc0, start, n, n, t + 5) == FactorAt(rc0, start, n, t)
    ensures PreTempEnd(rc0, n, n, t + 5) == TempEndAt(rc0, n, t)
  {
  }

  /** One step keeps the invariant. */
  lemma StepKeepsInv(s: State, pr: seq<real>, rc0: seq<Command>, start: int)
    requires |pr| == 24 && StepInv(s, pr, rc0, start)
    ensures StepInv(Prepare(s, pr).(rtime := s.rtime + 5, notes := ""), pr, rc0, start)
  {
    StepFollowsQueue(s, pr, rc0, start);
    NextPreFactor(rc0, start, ReadyCount(rc0, CommandTime, s.rtime - 1), s.rtime);
    NextStepSameHour(s.rtime);
    MinuteOnGrid(s.rtime);
  }

  /** The row of one step from the invariant means `RowMeaning`. */
  lemma StepRowMeaning(s: State, pr: seq<real>, rc0: seq<Command>, start: int)
    requires |pr| == 24 && StepInv(s, pr, rc0, start)
    ensures RowMeaning(Emit(Prepare(s, pr)), pr, rc0, start)
  {
    StepFollowsQueue(s, pr, rc0, start);
    EmitMeaning(Prepare(s, pr), pr, rc0, start);
  }

  /** Every row from a state satisfying the invariant means `RowMeaning`. */
  lemma {:induction false} RowsFromMeaning(s: State, pr: seq<real>, rc0: seq<Command>, start: int, end: int)
    requires |pr| == 24 && StepInv(s, pr, rc0, start)
    ensures RowsMeaning(RowsFrom(s, pr, end), pr, rc0, start)
    decreases end - s.rtime
  {
    if s.rtime < end {
      var next := Prepare(s, pr).(rtime := s.rtime + 5, notes := "");
      StepRowMeaning(s, pr, rc0, start);
      StepKeepsInv(s, pr, rc0, start);
      RowsFromMeaning(next, pr, rc0, start, end);
      RowsMeaningCons(Emit(Prepare(s, pr)), RowsFrom(next, pr, end), pr, rc0, start);
    }
  }

  /** The row a prepared state emits, from its rate and factor. */
  lemma EmitMeaning(p: State, pr: seq<real>, rc0: seq<Command>, start: int)
    requires |pr| == 24 && p.rate == pr[Hour(p.rtime)]
    requires p.factor == FactorAt(rc0, start, ReadyCount(rc0, CommandTime, p.rtime - 1), p.rtime)
    ensures RowMeaning(Emit(p), pr, rc0, start)
  {
  }

  lemma RowsMeaningCons(row: BasalRow, rest: seq<BasalRow>, pr: seq<real>, rc0: seq<Command>, start: int)
    requires |pr| == 24 && RowMeaning(row, pr, rc0, start) && RowsMeaning(rest, pr, rc0, start)
    ensures RowsMeaning([row] + rest, pr, rc0, start)
  {
    var rows := [row] + rest;
    forall k | 0 <= k < |rows|
      ensures RowMeaning(rows[k], pr, rc0, start)
    {
      if k > 0 {
        assert rows[k] == rest[k - 1];
      }
    }
  }

  /** The state before the loop satisfies the invariant. */
  lemma InitialInv(pr: seq<real>, rc0: seq<Command>, start: int)
    requires |pr| == 24 && start % 5 == 0
    ensures StepInv(Initial(pr, rc0, start), pr, rc0, start)
  {
    var s0 := Initial(pr, rc0, start);
    assert PoppedBefore(rc0, start, start) == 0;
    assert rc0[0..] == rc0;
    assert LastEffective(rc0, 0).None? && LastTempOrCancel(rc0, 0).None?;
    assert RateOk(s0, pr);
  }

  /** For a start on the five-minute grid, every row's `basal_amt` is the
      programmed rate of its hour times the factor that the commands dated
      before its step leave (`FactorAt`). */
  lemma ActualBasalMeaning(pr: seq<real>, rc0: seq<Command>, start: int, end: int)
    requires |pr| == 24 && start % 5 == 0
    ensures RowsMeaning(RowsFrom(Initial(pr, rc0, start), pr, end), pr, rc0, start)
  {
    InitialInv(pr, rc0, start);
    RowsFromMeaning(Initial(pr, rc0, start), pr, rc0, start, end);
  }

  /** For a row meaning `RowMeaning` (every row of `actual_basal` by
      `ActualBasalMeaning`): during a temporary basal (the last
      factor-setting command dated before the step), `basal_amt` is the
      hour's rate times its ratio over 100 until its end time, and the
      hour's rate from then on. */
  lemma TempBasalRow(row: BasalRow, pr: seq<real>, rc0: seq<Command>, start: int)
    requires |pr| == 24 && RowMeaning(row, pr, rc0, start)
    requires var li := LastEffective(rc0, ReadyCount(rc0, CommandTime, row.rtime - 1));
      li.Some? && rc0[li.value].kind == TemporaryBasal
    ensures var c := rc0[LastEffective(rc0, ReadyCount(rc0, CommandTime, row.rtime - 1)).value];
      row.basalAmt == pr[Hour(row.rtime)] * (if EndTime(c) <= row.rtime then 1.0 else c.ratio as real / 100.0)
  {
  }

  /** For a row meaning `RowMeaning`: with no factor-setting command dated
      before the step, or a cancel as the last of them, `basal_amt` is the
      hour's programmed rate. */
  lemma CancelledRow(row: BasalRow, pr: seq<real>, rc0: seq<Command>, start: int)
    requires |pr| == 24 && RowMeaning(row, pr, rc0, start)
    requires var li := LastEffective(rc0, ReadyCount(rc0, CommandTime, row.rtime - 1));
      li.None? || rc0[li.value].kind == CancelTemporaryBasal
    ensures row.basalAmt == pr[Hour(row.rtime)]
  {
  }

  /** For a row meaning `RowMeaning`: after a suspend (the last
      factor-setting command dated before the step) `basal_amt` is 0.0,
      except when the temporary basal running when the suspend came has
      reached its end time by this step but had not at a step before the
      one that dequeued the suspend: its end check then restores the hour's
      programmed rate. */
  lemma SuspendRow(row: BasalRow, pr: seq<real>, rc0: seq<Command>, start: int)
    requires |pr| == 24 && RowMeaning(row, pr, rc0, start)
    requires var li := LastEffective(rc0, ReadyCount(rc0, CommandTime, row.rtime - 1));
      li.Some? && rc0[li.value].kind == Suspend
    ensures var i := LastEffective(rc0, ReadyCount(rc0, CommandTime, row.rtime - 1)).value;
      var lt := LastTempOrCancel(rc0, i);
      var ended := lt.Some? && rc0[lt.value].kind == TemporaryBasal && EndTime(rc0[lt.value]) <= row.rtime
        && (PopStep(rc0, start, lt.value) == PopStep(rc0, start, i) || EndTime(rc0[lt.value]) > PopStep(rc0, start, i) - 5);
      && (ended ==> row.basalAmt == pr[Hour(row.rtime)])
      && (!ended ==> row.basalAmt == 0.0)
  {
  }

  // ---------------------------------------------------------------
  // dic2str
  // ---------------------------------------------------------------

  /** The `'k: v'` strings of the items, in order. */
  function Pairs(items: seq<(string, string)>): (r: seq<string>)
    ensures |r| == |items|
    ensures forall i :: 0 <= i < |items| ==> r[i] == items[i].0 + ": " + items[i].1
  {
    seq(|items|, i requires 0 <= i < |items| => items[i].0 + ": " + items[i].1)
  }

  /** `dic2str(dic)`: '{ ' + the pairs joined by ',' + ' }'. */
  function Dic2Str(items: seq<(string, string)>): (r: string)
    ensures |r| >= 4 && r[..2] == "{ " && r[|r| - 2..] == " }"
  {
    "{ " + Join(",", Pairs(items)) + " }"
  }

  /** Adding an item to a non-empty dictionary adds ',k: v' before ' }'. */
  lemma Dic2StrSnoc(items: seq<(string, string)>, k: string, v: string)
    requires items != []
    ensures Dic2Str(items + [(k, v)]) == "{ " + Join(",", Pairs(items)) + "," + k + ": " + v + " }"
  {
    assert Pairs(items + [(k, v)])[..|items|] == Pairs(items);
  }

  lemma Dic2StrExamples()
    ensures Dic2Str([]) == "{  }"
    ensures Dic2Str([("a", "1")]) == "{ a: 1 }"
  {
  }
}
