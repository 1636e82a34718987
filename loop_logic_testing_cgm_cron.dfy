/** `loop_logic_testing_cgm_cron.py`: a cron job that replays test CGM
    values.  The three tables it touches (`testing_command`'s one row,
    `source_cgm` and `latest_cgm`) are the fields of a class; the clock is
    a parameter `now`. */
module LoopLogicTestingCgmCron {
  import opened Common

  /** `str.lower`, for ASCII letters. */
  function Lower(s: string): (r: string)
    ensures |r| == |s|
    ensures forall i :: 0 <= i < |s| ==> r[i] == LowerChar(s[i])
  {
    seq(|s|, i requires 0 <= i < |s| => LowerChar(s[i]))
  }

  function LowerChar(c: char): char
  {
    if 'A' <= c <= 'Z' then (c as int - 'A' as int + 'a' as int) as char else c
  }

  /** Lowering twice lowers once. */
  lemma LowerIdempotent(s: string)
    ensures Lower(Lower(s)) == Lower(s)
  {
  }

  /** Any capitalisation of `start` is `start`. */
  lemma LowerStart()
    ensures Lower("START") == "start" && Lower("Start") == "start"
  {
  }

  /** What `testing_command.msg` holds, whose text the source formats. */
  datatype Msg = Empty | Ended(at: int) | Copied(rtime: int, mgdl: Option<int>, trend: Option<int>, trendCode: Option<string>)
               | NotUnderstood(command: string)

  /** A row of `source_cgm`, keyed by `rtime`. */
  datatype SourceRow = SourceRow(mgdl: Option<int>, trend: Option<int>, trendCode: Option<string>, used: bool)

  /** A row of `latest_cgm` (its auto-increment id is left out). */
  datatype LatestRow = LatestRow(userId: int, rtime: int, mgdl: Option<int>, trend: Option<int>, trendCode: Option<string>, src: string)

  /** The row `cron_copy` inserts: user 7, stamped now, marked `fake`. */
  function LatestOf(r: SourceRow, now: int): LatestRow
  {
    LatestRow(7, now, r.mgdl, r.trend, r.trendCode, "fake")
  }

  /** `t` is the least rtime of an unused source row. */
  predicate IsNextUnused(source: map<int, SourceRow>, t: int)
  {
    t in source && !source[t].used && forall u :: u in source && !source[u].used ==> t <= u
  }

  lemma NextUnusedUnique(source: map<int, SourceRow>, t: int, u: int)
    requires IsNextUnused(source, t) && IsNextUnused(source, u)
    ensures t == u
  {
  }

  /** What `run_as_cron` does for the lowered command and the status. */
  datatype Action = Start | Stop | Unknown(command: string) | Copy | Idle

  function Dispatch(command: string, status: Option<string>): (a: Action)
  {
    if command == "start" then Start
    else if command == "stop" then Stop
    else if command != "" then Unknown(command)
    else if status == Some("ON") then Copy
    else Idle
  }

  /** The dispatch: `start` and `stop` are obeyed, any other nonempty
      command is reported, and with no command values are copied exactly
      while the status is `ON`. */
  lemma DispatchCases(command: string, status: Option<string>)
    ensures Dispatch(command, status) == Start <==> command == "start"
    ensures Dispatch(command, status) == Stop <==> command == "stop"
    ensures Dispatch(command, status).Unknown? <==> command !in {"", "start", "stop"}
    ensures Dispatch(command, status) == Copy <==> command == "" && status == Some("ON")
    ensures Dispatch(command, status) == Idle <==> command == "" && status != Some("ON")
  {
  }

  lemma Inhabited(s: set<int>)
    requires s != {}
    ensures exists x :: x in s
  {
    if forall x :: x !in s {
      assert false;
    }
  }

  class CronTables {
    var command: Option<string>
    var status: Option<string>
    var start: Option<int>
    var msg: Msg
    var source: map<int, SourceRow>
    var latest: seq<LatestRow>

    constructor (command0: Option<string>, status0: Option<string>, source0: map<int, SourceRow>)
      ensures command == command0 && status == status0 && start == None && msg == Empty
      ensures source == source0 && latest == []
    {
      command, status, start, msg := command0, status0, None, Empty;
      source, latest := source0, [];
    }

    /** `cron_start`: the command is cleared, the status set `ON` and stamped
        now, the message cleared, and every source row marked unused. */
    method CronStart(now: int)
      modifies this
      ensures command == Some("") && status == Some("ON") && start == Some(now) && msg == Empty
      ensures source.Keys == old(source).Keys
      ensures forall t :: t in source ==> source[t] == old(source)[t].(used := false)
      ensures latest == old(latest)
    {
      command, status, start, msg := Some(""), Some("ON"), Some(now), Empty;
      source := map t | t in source :: source[t].(used := false);
    }

    /** `cron_stop`: the command is cleared, the status set `OFF`, the start
        nulled and the end time reported. */
    method CronStop(now: int)
      modifies this
      ensures command == Some("") && status == Some("OFF") && start == None && msg == Ended(now)
      ensures source == old(source) && latest == old(latest)
    {
      command, status, start, msg := Some(""), Some("OFF"), None, Ended(now);
    }

    /** The least rtime of an unused row, or `None` when every row is used. */
    method NextUnused() returns (r: Option<int>)
      ensures r.None? <==> forall t :: t in source ==> source[t].used
      ensures r.Some? ==> IsNextUnused(source, r.value)
    {
      var left := source.Keys;
      r := None;
      while left != {}
        invariant left <= source.Keys
        invariant r.None? <==> forall t :: t in source && t !in left ==> source[t].used
        invariant r.Some? ==> r.value in source && !source[r.value].used
        invariant r.Some? ==> forall u :: u in source && u !in left && !source[u].used ==> r.value <= u
        decreases left
      {
        Inhabited(left);
        var k :| k in left;
        if !source[k].used && (r.None? || k < r.value) {
          r := Some(k);
        }
        left := left - {k};
      }
    }

    /** `cron_copy`: the unused row with the least rtime is marked used and
        copied, stamped now, into `latest_cgm`.  With every row used the
        query finds nothing, and unpacking `None` raises `TypeError`. */
    method CronCopy(now: int) returns (r: Result<()>)
      modifies this
      ensures command == old(command) && status == old(status) && start == old(start)
      ensures (forall t :: t in old(source) ==> old(source)[t].used) ==>
        r == Err(TypeError) && source == old(source) && latest == old(latest) && msg == old(msg)
      ensures forall t :: IsNextUnused(old(source), t) ==>
        && r == Ok(())
        && source == old(source)[t := old(source)[t].(used := true)]
        && latest == old(latest) + [LatestOf(old(source)[t], now)]
        && msg == Copied(t, old(source)[t].mgdl, old(source)[t].trend, old(source)[t].trendCode)
    {
      var next := NextUnused();
      if next.None? {
        return Err(TypeError);
      }
      var rtime := next.value;
      forall t | IsNextUnused(source, t)
        ensures t == rtime
      {
        NextUnusedUnique(source, t, rtime);
      }
      var row := source[rtime];
      source := source[rtime := row.(used := true)];
      latest := latest + [LatestRow(7, now, row.mgdl, row.trend, row.trendCode, "fake")];
      msg := Copied(rtime, row.mgdl, row.trend, row.trendCode);
      r := Ok(());
    }

    /** `run_as_cron`, as written.  A null command fails on `lower`.  The
        update reporting an unknown command has `%` where `%s` is meant, so
        formatting its query raises `ValueError` and nothing is written. */
    method RunAsCron(now: int) returns (r: Result<()>)
      modifies this
      ensures old(command) == None ==> r == Err(AttributeError) && msg == old(msg) && source == old(source) && latest == old(latest)
      ensures old(command).Some? && Dispatch(Lower(old(command).value), old(status)).Unknown? ==>
        r == Err(ValueError) && msg == old(msg) && source == old(source) && latest == old(latest)
      ensures old(command).Some? && Dispatch(Lower(old(command).value), old(status)) == Idle ==>
        r == Ok(()) && msg == old(msg) && source == old(source) && latest == old(latest)
      ensures old(command).Some? && Dispatch(Lower(old(command).value), old(status)) == Stop ==>
        r == Ok(()) && status == Some("OFF") && msg == Ended(now) && latest == old(latest)
      ensures old(command).Some? && Dispatch(Lower(old(command).value), old(status)) == Start ==>
        && status == Some("ON") && start == Some(now)
        && (old(source) == map[] ==> r == Err(TypeError) && latest == old(latest))
        && (old(source) != map[] ==> r == Ok(()) && |latest| == |old(latest)| + 1)
      ensures old(command).Some? && Dispatch(Lower(old(command).value), old(status)) == Copy ==>
        forall t :: IsNextUnused(old(source), t) ==> r == Ok(()) && latest == old(latest) + [LatestOf(old(source)[t], now)]
    {
      if command.None? {
        return Err(AttributeError);
      }
      var c := Lower(command.value);
      match Dispatch(c, status) {
        case Start =>
          CronStart(now);
          StartLeavesUnused(source);
          r := CronCopy(now);
        case Stop =>
          CronStop(now);
          r := Ok(());
        case Unknown(_) =>
          r := Err(ValueError);
        case Copy =>
          r := CronCopy(now);
        case Idle =>
          r := Ok(());
      }
    }

    /** The evidently intended report of an unknown command: the message
        names it. */
    method ReportUnknown(c: string)
      modifies this
      ensures msg == NotUnderstood(c)
      ensures command == old(command) && status == old(status) && start == old(start)
      ensures source == old(source) && latest == old(latest)
    {
      msg := NotUnderstood(c);
    }
  }

  /** After `cron_start` marks every row unused, each nonempty table has a
      least unused rtime. */
  lemma StartLeavesUnused(source: map<int, SourceRow>)
    requires forall t :: t in source ==> !source[t].used
    ensures source != map[] ==> exists t :: IsNextUnused(source, t)
    ensures source == map[] ==> forall t :: t in source ==> source[t].used
  {
    if source != map[] {
      Inhabited(source.Keys);
      var k :| k in source.Keys;
      var m := MinOf(source.Keys, k);
      assert IsNextUnused(source, m);
    }
  }

  /** A least element of a finite set of integers. */
  lemma MinOf(s: set<int>, k: int) returns (m: int)
    requires k in s
    ensures m in s && forall u :: u in s ==> m <= u
    decreases s
  {
    if s == {k} {
      m := k;
    } else {
      var rest := s - {k};
      Inhabited(rest);
      var j :| j in rest;
      var m' := MinOf(rest, j);
      m := if k < m' then k else m';
      assert forall u :: u in s ==> u == k || u in rest;
    }
  }
}
