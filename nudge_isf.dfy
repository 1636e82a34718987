/** `nudge_isf.py`: ISF values bucketed by hour of day, from the clean
    regions (`clean_isfs`) and from short windows of CGM and dynamic insulin
    (`compute_nudge_isfs`), with the row scanners they use.  Rows are the
    query results, given as sequences; times are minutes after a midnight,
    so a time's hour of day is `(t / 60) % 24`. */
module NudgeIsf {
  import opened Common

  /** Python truthiness of a nullable number. */
  predicate Truthy(x: Option<real>) { x.Some? && x.value != 0.0 }

  // ---------------------------------------------------------------
  // any_rescue_carbs, any_rescue_carbs_dict
  // ---------------------------------------------------------------

  /** A row of `get_window_prior`: `rtime, rescue_carbs`. */
  datatype RescueRow = RescueRow(rtime: int, rescueCarbs: Option<real>)

  /** Some row has truthy rescue carbs. */
  predicate AnyRescue(rows: seq<RescueRow>)
  {
    exists r :: r in rows && Truthy(r.rescueCarbs)
  }

  /** `any_rescue_carbs`, over rows fetched as `(rtime, rescue_carbs)` tuples. */
  method AnyRescueCarbs(rows: seq<(int, Option<real>)>) returns (b: bool)
    ensures b <==> exists k :: 0 <= k < |rows| && Truthy(rows[k].1)
  {
    for i := 0 to |rows|
      invariant forall k :: 0 <= k < i ==> !Truthy(rows[k].1)
    {
      if Truthy(rows[i].1) {
        return true;
      }
    }
    return false;
  }

  /** `any_rescue_carbs_dict`, over rows fetched as dictionaries. */
  method AnyRescueCarbsDict(rows: seq<RescueRow>) returns (b: bool)
    ensures b == AnyRescue(rows)
  {
    for i := 0 to |rows|
      invariant forall k :: 0 <= k < i ==> !Truthy(rows[k].rescueCarbs)
    {
      if Truthy(rows[i].rescueCarbs) {
        assert rows[i] in rows;
        return true;
      }
    }
    return false;
  }

  /** The rows of the table from an hour before `end` up to `end`: what
      `get_window_prior` selects. */
  function WindowPrior(table: seq<RescueRow>, end: int): (w: seq<RescueRow>)
    ensures |w| <= |table|
  {
    if table == [] then []
    else (if end - 60 <= table[0].rtime <= end then [table[0]] else []) + WindowPrior(table[1..], end)
  }

  /** The prior window holds exactly the table's rows in `[end - 60, end]`. */
  lemma {:induction false} WindowPriorMembers(table: seq<RescueRow>, end: int)
    ensures forall r :: r in WindowPrior(table, end) <==> r in table && end - 60 <= r.rtime <= end
  {
    if table != [] {
      WindowPriorMembers(table[1..], end);
      assert table == [table[0]] + table[1..];
    }
  }

  /** Rescue carbs within the prior hour are exactly a truthy row of the
      table in `[end - 60, end]`. */
  lemma WindowPriorRescue(table: seq<RescueRow>, end: int)
    ensures AnyRescue(WindowPrior(table, end)) <==>
      exists r :: r in table && end - 60 <= r.rtime <= end && Truthy(r.rescueCarbs)
  {
    WindowPriorMembers(table, end);
  }

  // ---------------------------------------------------------------
  // incomplete
  // ---------------------------------------------------------------

  /** A column value of a fetched row. */
  datatype Value = Null | Num(x: real) | Stamp(t: int)

  /** A fetched row: a tuple, or a dictionary (which has `values`). */
  datatype Fetched = Tuple(items: seq<Value>) | Dict(fields: map<string, Value>)

  /** Some value of the row is `None`. */
  predicate HasNull(row: Fetched)
  {
    match row
    case Tuple(items) => Null in items
    case Dict(fields) => exists c :: c in fields && fields[c] == Null
  }

  /** `incomplete`: a dictionary's values are scanned, a tuple's items. */
  method Incomplete(row: Fetched) returns (b: bool)
    ensures b == HasNull(row)
  {
    match row {
      case Tuple(items) =>
        for i := 0 to |items|
          invariant Null !in items[..i]
        {
          if items[i] == Null {
            assert items[i] in items;
            return true;
          }
        }
        assert items[..|items|] == items;
        return false;
      case Dict(fields) =>
        var left := fields.Keys;
        while left != {}
          invariant left <= fields.Keys
          invariant forall c :: c in fields && c !in left ==> fields[c] != Null
          decreases left
        {
          var c :| c in left;
          if fields[c] == Null {
            return true;
          }
          left := left - {c};
        }
        return false;
    }
  }

  // ---------------------------------------------------------------
  // Hour buckets
  // ---------------------------------------------------------------

  /** `rtime.hour`. */
  function HourOf(t: int): (h: int)
    ensures 0 <= h < 24
  {
    (t / 60) % 24
  }

  /** Why a row or a window gives no value. */
  datatype Reason = NullColumn | Failed | Rescue | Meal | NoCgm

  /** What one row or window contributes: nothing, for a reason, or a value
      for the bucket of an hour. */
  datatype Sample = Skip(reason: Reason) | Keep(hour: int, isf: real)

  /** The kept `(hour, value)` pairs, in order. */
  function Kept(vs: seq<Sample>): (e: seq<(int, real)>)
    ensures |e| <= |vs|
  {
    if vs == [] then []
    else
      var n := |vs| - 1;
      Kept(vs[..n]) + (if vs[n].Keep? then [(vs[n].hour, vs[n].isf)] else [])
  }

  /** How many samples were skipped for `reason`. */
  function SkipCount(vs: seq<Sample>, reason: Reason): nat
  {
    if vs == [] then 0
    else
      var n := |vs| - 1;
      SkipCount(vs[..n], reason) + (if vs[n] == Skip(reason) then 1 else 0)
  }

  /** Every sample is either kept or counted under exactly one reason. */
  lemma {:induction false} SamplesPartition(vs: seq<Sample>)
    ensures |Kept(vs)| + SkipCount(vs, NullColumn) + SkipCount(vs, Failed) + SkipCount(vs, Rescue)
      + SkipCount(vs, Meal) + SkipCount(vs, NoCgm) == |vs|
  {
    if vs != [] {
      var n := |vs| - 1;
      SamplesPartition(vs[..n]);
      SampleSnoc(vs[..n], vs[n]);
      assert vs == vs[..n] + [vs[n]];
      match vs[n] {
        case Keep(_, _) =>
        case Skip(r) =>
          match r {
            case NullColumn =>
            case Failed =>
            case Rescue =>
            case Meal =>
            case NoCgm =>
          }
      }
    }
  }

  /** Appending one sample extends `Kept` by it when kept and bumps the
      count of its reason when skipped. */
  lemma SampleSnoc(done: seq<Sample>, v: Sample)
    ensures Kept(done + [v]) == Kept(done) + (if v.Keep? then [(v.hour, v.isf)] else [])
    ensures forall r :: SkipCount(done + [v], r) == SkipCount(done, r) + (if v == Skip(r) then 1 else 0)
  {
    assert (done + [v])[..|done|] == done;
  }

  /** The values for hour `h`, in order. */
  function Bucketed(e: seq<(int, real)>, h: int): seq<real>
  {
    if e == [] then []
    else
      var n := |e| - 1;
      Bucketed(e[..n], h) + (if e[n].0 == h then [e[n].1] else [])
  }

  /** A value is in the bucket of `h` exactly when it was kept for `h`. */
  lemma {:induction false} BucketedMembers(e: seq<(int, real)>, h: int)
    ensures forall x :: x in Bucketed(e, h) <==> (h, x) in e
  {
    if e != [] {
      var n := |e| - 1;
      BucketedMembers(e[..n], h);
      assert e == e[..n] + [e[n]];
    }
  }

  /** The 24 buckets hold the values of `e` by hour. */
  predicate Holds(buckets: seq<seq<real>>, e: seq<(int, real)>)
  {
    |buckets| == 24 && forall h :: 0 <= h < 24 ==> buckets[h] == Bucketed(e, h)
  }

  /** `buckets[hour].append(value)` keeps the buckets in step. */
  lemma HoldsAppend(buckets: seq<seq<real>>, e: seq<(int, real)>, h: int, x: real)
    requires Holds(buckets, e) && 0 <= h < 24
    ensures Holds(buckets[h := buckets[h] + [x]], e + [(h, x)])
  {
    var e' := e + [(h, x)];
    assert e'[..|e|] == e;
    forall h' | 0 <= h' < 24
      ensures buckets[h := buckets[h] + [x]][h'] == Bucketed(e', h')
    {
    }
  }

  /** Twenty-four empty buckets. */
  function EmptyBuckets(): (b: seq<seq<real>>)
    ensures Holds(b, [])
  {
    seq(24, _ => [])
  }

  // ---------------------------------------------------------------
  // clean_isfs
  // ---------------------------------------------------------------

  /** A row of a clean-regions table: `rtime, bg0, bg1, bolus`. */
  datatype CleanRow = CleanRow(rtime: Option<int>, bg0: Option<real>, bg1: Option<real>, bolus: Option<real>)

  function Column(x: Option<real>): Value { if x.Some? then Num(x.value) else Null }

  /** The row as the tuple `incomplete` scans. */
  function CleanFields(r: CleanRow): Fetched
  {
    Tuple([if r.rtime.Some? then Stamp(r.rtime.value) else Null, Column(r.bg0), Column(r.bg1), Column(r.bolus)])
  }

  /** A row is incomplete exactly when one of its four columns is null. */
  lemma CleanFieldsNull(r: CleanRow)
    ensures HasNull(CleanFields(r)) <==> r.rtime.None? || r.bg0.None? || r.bg1.None? || r.bolus.None?
  {
  }

  /** The nudge ISF of a clean region: `(bg1 - bg0) / bolus`. */
  function RegionNudge(bg0: real, bg1: real, bolus: real): (isf: real)
    requires bolus != 0.0
    ensures isf * bolus == bg1 - bg0
  {
    DivMul(bg1 - bg0, bolus);
    (bg1 - bg0) / bolus
  }

  lemma DivMul(x: real, d: real)
    requires d != 0.0
    ensures (x / d) * d == x
  {
  }

  /** One row of `clean_isfs`: skipped when incomplete, failed on a zero
      bolus (`ZeroDivisionError`), else its nudge ISF for the hour of its
      start. */
  function CleanSample(r: CleanRow): Sample
  {
    if r.rtime.None? || r.bg0.None? || r.bg1.None? || r.bolus.None? then Skip(NullColumn)
    else if r.bolus.value == 0.0 then Skip(Failed)
    else Keep(HourOf(r.rtime.value), RegionNudge(r.bg0.value, r.bg1.value, r.bolus.value))
  }

  function CleanSamples(rows: seq<CleanRow>): (vs: seq<Sample>)
    ensures |vs| == |rows| && forall k :: 0 <= k < |rows| ==> vs[k] == CleanSample(rows[k])
  {
    seq(|rows|, k requires 0 <= k < |rows| => CleanSample(rows[k]))
  }

  /** One row of `clean_isfs`, with the source's `incomplete` scan. */
  method CleanSampleLoop(row: CleanRow) returns (v: Sample)
    ensures v == CleanSample(row)
  {
    var incomplete := Incomplete(CleanFields(row));
    CleanFieldsNull(row);
    if incomplete {
      return Skip(NullColumn);
    }
    if row.bolus.value == 0.0 {
      return Skip(Failed);
    }
    return Keep(HourOf(row.rtime.value), RegionNudge(row.bg0.value, row.bg1.value, row.bolus.value));
  }

  /** The counters of `clean_isfs` after the samples `done`. */
  predicate CleanCounted(buckets: seq<seq<real>>, skippedIncomplete: nat, skippedFailed: nat, completed: nat, done: seq<Sample>)
  {
    Holds(buckets, Kept(done)) && skippedIncomplete == 0
    && skippedFailed == SkipCount(done, Failed) && completed == |Kept(done)|
  }

  /** One step of `clean_isfs`: an incomplete row adds 0 to its counter, a
      failed one is counted, a value goes to its hour's bucket. */
  method CleanTick(buckets: seq<seq<real>>, skippedIncomplete: nat, skippedFailed: nat, completed: nat,
                   ghost vs: seq<Sample>, ghost i: nat, v: Sample)
    returns (buckets': seq<seq<real>>, skippedIncomplete': nat, skippedFailed': nat, completed': nat)
    requires i < |vs| && v == vs[i]
    requires CleanCounted(buckets, skippedIncomplete, skippedFailed, completed, vs[..i])
    requires v.Keep? ==> 0 <= v.hour < 24
    ensures CleanCounted(buckets', skippedIncomplete', skippedFailed', completed', vs[..i + 1])
  {
    ghost var done := vs[..i];
    assert vs[..i + 1] == done + [v];
    SampleSnoc(done, v);
    buckets', skippedIncomplete', skippedFailed', completed' := buckets, skippedIncomplete, skippedFailed, completed;
    if v.Skip? {
      assert Kept(done + [v]) == Kept(done);
    }
    match v {
      case Skip(Failed) => skippedFailed' := skippedFailed + 1;
      case Skip(_) => skippedIncomplete' := skippedIncomplete + 0;
      case Keep(h, isf) =>
        HoldsAppend(buckets, Kept(done), h, isf);
        buckets' := buckets[h := buckets[h] + [isf]];
        completed' := completed + 1;
    }
  }

  /** `clean_isfs` over the fetched rows: the 24 hour buckets and the
      counters.  `skipped_incomplete` is incremented by 0, so it stays 0. */
  method CleanIsfs(rows: seq<CleanRow>) returns (buckets: seq<seq<real>>, skippedIncomplete: nat, skippedFailed: nat, completed: nat)
    ensures Holds(buckets, Kept(CleanSamples(rows)))
    ensures skippedIncomplete == 0
    ensures skippedFailed == SkipCount(CleanSamples(rows), Failed)
    ensures completed == |Kept(CleanSamples(rows))|
  {
    ghost var vs := CleanSamples(rows);
    buckets := EmptyBuckets();
    skippedIncomplete, skippedFailed, completed := 0, 0, 0;
    for i := 0 to |rows|
      invariant CleanCounted(buckets, skippedIncomplete, skippedFailed, completed, vs[..i])
    {
      var v := CleanSampleLoop(rows[i]);
      buckets, skippedIncomplete, skippedFailed, completed := CleanTick(buckets, skippedIncomplete, skippedFailed, completed, vs, i, v);
    }
    assert vs[..|rows|] == vs;
  }

  /** Every value in the bucket of hour `h` is the nudge ISF of a complete
      row with a nonzero bolus starting in that hour. */
  lemma CleanBucketSound(rows: seq<CleanRow>, h: int, x: real)
    requires x in Bucketed(Kept(CleanSamples(rows)), h)
    ensures exists k :: 0 <= k < |rows| && CleanSample(rows[k]) == Keep(h, x)
  {
    var vs := CleanSamples(rows);
    BucketedMembers(Kept(vs), h);
    KeptFrom(vs, h, x);
  }

  /** A kept pair comes from a `Keep` sample. */
  lemma {:induction false} KeptFrom(vs: seq<Sample>, h: int, x: real)
    requires (h, x) in Kept(vs)
    ensures exists k :: 0 <= k < |vs| && vs[k] == Keep(h, x)
  {
    var n := |vs| - 1;
    if (h, x) in Kept(vs[..n]) {
      KeptFrom(vs[..n], h, x);
      var k :| 0 <= k < n && vs[..n][k] == Keep(h, x);
      assert vs[k] == Keep(h, x);
    }
  }

  /** A kept clean-region sample has a nonzero bolus and is `bg1 - bg0`
      per unit of insulin. */
  lemma CleanSampleKeep(r: CleanRow)
    requires CleanSample(r).Keep?
    ensures r.rtime.Some? && r.bg0.Some? && r.bg1.Some? && r.bolus.Some? && r.bolus.value != 0.0
    ensures CleanSample(r).hour == HourOf(r.rtime.value)
    ensures CleanSample(r).isf * r.bolus.value == r.bg1.value - r.bg0.value
  {
  }

  // ---------------------------------------------------------------
  // compute_nudge_isfs
  // ---------------------------------------------------------------

  /** A row of the ics2 query: `rtime, cgm, dynamic_insulin,
      minutes_since_last_meal`. The query orders by `rtime desc`, so the
      rows arrive newest first: `rows[i]` is the latest sample of the window
      `rows[i..i + window_length]` and its last row the earliest. */
  datatype NudgeRow = NudgeRow(rtime: int, cgm: Option<real>, di: Option<real>, sinceMeal: Option<int>)

  /** `sum(filter(None, xs))`: the truthy values summed (zeros and nulls
      are dropped). */
  function TruthySum(xs: seq<Option<real>>): real
  {
    if xs == [] then 0.0
    else
      var n := |xs| - 1;
      TruthySum(xs[..n]) + (if Truthy(xs[n]) then xs[n].value else 0.0)
  }

  /** Nulls add nothing, so the truthy sum is the sum over the present
      values. */
  lemma {:induction false} TruthySumPresent(xs: seq<Option<real>>)
    ensures TruthySum(xs) == Sum(Present(xs))
  {
    if xs != [] {
      var n := |xs| - 1;
      TruthySumPresent(xs[..n]);
      SumAppend(Present(xs[..n]), if xs[n].Some? then [xs[n].value] else []);
    }
  }

  /** The present values, in order. */
  function Present(xs: seq<Option<real>>): seq<real>
  {
    if xs == [] then []
    else
      var n := |xs| - 1;
      Present(xs[..n]) + (if xs[n].Some? then [xs[n].value] else [])
  }

  /** With no value present the sum is zero, whatever the window length. */
  lemma {:induction false} TruthySumNull(xs: seq<Option<real>>)
    requires forall k :: 0 <= k < |xs| ==> xs[k].None?
    ensures TruthySum(xs) == 0.0
  {
    if xs != [] {
      TruthySumNull(xs[..|xs| - 1]);
    }
  }

  function Dis(w: seq<NudgeRow>): (d: seq<Option<real>>)
    ensures |d| == |w| && forall k :: 0 <= k < |w| ==> d[k] == w[k].di
  {
    seq(|w|, k requires 0 <= k < |w| => w[k].di)
  }

  /** The nudge ISF of a window: `(end_cgm - start_cgm) / di_sum`, where
      `start_cgm` is the window's first (latest) row and `end_cgm` its last
      (earliest) row, so the numerator is the fall of the CGM over time. */
  function WindowNudge(startCgm: real, endCgm: real, diSum: real): (isf: real)
    requires diSum != 0.0
    ensures isf * diSum == endCgm - startCgm
  {
    DivMul(endCgm - startCgm, diSum);
    (endCgm - startCgm) / diSum
  }

  /** A meal within the last two hours: `minutes_since_last_meal` truthy and
      at most 120. */
  predicate RecentMeal(r: NudgeRow)
  {
    r.sinceMeal.Some? && r.sinceMeal.value != 0 && r.sinceMeal.value <= 120
  }

  /** The window starting at row `i`: skipped for rescue carbs within the
      hour up to `rows[i]` (the window's latest sample, so that hour overlaps
      the window), then for a recent meal, then for a falsy start or end
      CGM or DI sum; else its nudge ISF for the hour of its start. */
  function NudgeSample(rows: seq<NudgeRow>, rescue: seq<RescueRow>, windowLength: int, i: int): (v: Sample)
    requires 1 <= windowLength && 0 <= i && i + windowLength <= |rows|
    ensures v.Skip? ==> v.reason in {Rescue, Meal, NoCgm}
  {
    var start := rows[i];
    if AnyRescue(WindowPrior(rescue, start.rtime)) then Skip(Rescue)
    else if RecentMeal(start) then Skip(Meal)
    else
      var w := rows[i..i + windowLength];
      var s := TruthySum(Dis(w));
      if Truthy(w[0].cgm) && Truthy(w[|w| - 1].cgm) && s != 0.0 then
        Keep(HourOf(start.rtime), WindowNudge(w[0].cgm.value, w[|w| - 1].cgm.value, s))
      else Skip(NoCgm)
  }

  /** The number of windows: `range(len(rows) - window_length + 1)`. */
  function Starts(n: int, windowLength: int): nat
  {
    if n - windowLength + 1 > 0 then n - windowLength + 1 else 0
  }

  function NudgeSamples(rows: seq<NudgeRow>, rescue: seq<RescueRow>, windowLength: int): (vs: seq<Sample>)
    requires 1 <= windowLength
    ensures |vs| == Starts(|rows|, windowLength)
    ensures forall i :: 0 <= i < |vs| ==> vs[i] == NudgeSample(rows, rescue, windowLength, i)
  {
    seq(Starts(|rows|, windowLength), i requires 0 <= i < Starts(|rows|, windowLength) => NudgeSample(rows, rescue, windowLength, i))
  }

  /** One window of `compute_nudge_isfs`, with the source's scans. */
  method NudgeSampleLoop(rows: seq<NudgeRow>, rescue: seq<RescueRow>, windowLength: int, i: int) returns (v: Sample)
    requires 1 <= windowLength && 0 <= i && i + windowLength <= |rows|
    ensures v == NudgeSample(rows, rescue, windowLength, i)
  {
    var start := rows[i];
    var prior := AnyRescueCarbsDict(WindowPrior(rescue, start.rtime));
    if prior {
      return Skip(Rescue);
    }
    if RecentMeal(start) {
      return Skip(Meal);
    }
    var w := rows[i..i + windowLength];
    var s := TruthySum(Dis(w));
    if Truthy(w[0].cgm) && Truthy(w[|w| - 1].cgm) && s != 0.0 {
      return Keep(HourOf(start.rtime), WindowNudge(w[0].cgm.value, w[|w| - 1].cgm.value, s));
    }
    return Skip(NoCgm);
  }

  /** The counters of `compute_nudge_isfs` after the samples `done`. */
  predicate NudgeCounted(buckets: seq<seq<real>>, skippedRescue: nat, skippedMeals: nat, skippedCgm: nat, completed: nat, done: seq<Sample>)
  {
    Holds(buckets, Kept(done)) && skippedRescue == SkipCount(done, Rescue) && skippedMeals == SkipCount(done, Meal)
    && skippedCgm == SkipCount(done, NoCgm) && completed == |Kept(done)|
  }

  /** One step of `compute_nudge_isfs`: a skip is counted under its reason,
      a value goes to its hour's bucket. */
  method NudgeTick(buckets: seq<seq<real>>, skippedRescue: nat, skippedMeals: nat, skippedCgm: nat, completed: nat,
                   ghost vs: seq<Sample>, ghost i: nat, v: Sample)
    returns (buckets': seq<seq<real>>, skippedRescue': nat, skippedMeals': nat, skippedCgm': nat, completed': nat)
    requires i < |vs| && v == vs[i]
    requires NudgeCounted(buckets, skippedRescue, skippedMeals, skippedCgm, completed, vs[..i])
    requires v.Skip? ==> v.reason in {Rescue, Meal, NoCgm}
    requires v.Keep? ==> 0 <= v.hour < 24
    ensures NudgeCounted(buckets', skippedRescue', skippedMeals', skippedCgm', completed', vs[..i + 1])
  {
    ghost var done := vs[..i];
    assert vs[..i + 1] == done + [v];
    SampleSnoc(done, v);
    buckets', skippedRescue', skippedMeals', skippedCgm', completed' := buckets, skippedRescue, skippedMeals, skippedCgm, completed;
    if v.Skip? {
      assert Kept(done + [v]) == Kept(done);
    }
    if v == Skip(Rescue) {
      skippedRescue' := skippedRescue + 1;
    } else if v == Skip(Meal) {
      skippedMeals' := skippedMeals + 1;
    } else if v.Skip? {
      skippedCgm' := skippedCgm + 1;
    } else {
      HoldsAppend(buckets, Kept(done), v.hour, v.isf);
      buckets' := buckets[v.hour := buckets[v.hour] + [v.isf]];
      completed' := completed + 1;
    }
  }

  /** `compute_nudge_isfs` over the rows of the ics2 query, with the table
      of rescue carbs that `get_window_prior` reads. */
  method ComputeNudgeIsfs(rows: seq<NudgeRow>, rescue: seq<RescueRow>, windowLength: int)
    returns (buckets: seq<seq<real>>, skippedRescue: nat, skippedMeals: nat, skippedCgm: nat, completed: nat)
    requires 1 <= windowLength
    ensures Holds(buckets, Kept(NudgeSamples(rows, rescue, windowLength)))
    ensures skippedRescue == SkipCount(NudgeSamples(rows, rescue, windowLength), Rescue)
    ensures skippedMeals == SkipCount(NudgeSamples(rows, rescue, windowLength), Meal)
    ensures skippedCgm == SkipCount(NudgeSamples(rows, rescue, windowLength), NoCgm)
    ensures completed == |Kept(NudgeSamples(rows, rescue, windowLength))|
  {
    ghost var vs := NudgeSamples(rows, rescue, windowLength);
    buckets := EmptyBuckets();
    skippedRescue, skippedMeals, skippedCgm, completed := 0, 0, 0, 0;
    for i := 0 to Starts(|rows|, windowLength)
      invariant NudgeCounted(buckets, skippedRescue, skippedMeals, skippedCgm, completed, vs[..i])
    {
      var v := NudgeSampleLoop(rows, rescue, windowLength, i);
      buckets, skippedRescue, skippedMeals, skippedCgm, completed :=
        NudgeTick(buckets, skippedRescue, skippedMeals, skippedCgm, completed, vs, i, v);
    }
    assert vs[..Starts(|rows|, windowLength)] == vs;
  }

  /** A window's value needs truthy start and end CGM and DI sum, no rescue
      carbs in the hour up to `rows[i]` and no meal within two hours of it;
      it is `window[-1]`'s CGM minus `window[0]`'s (the earlier reading minus
      the later one) per unit of summed insulin. */
  lemma NudgeSampleKeep(rows: seq<NudgeRow>, rescue: seq<RescueRow>, windowLength: int, i: int)
    requires 1 <= windowLength && 0 <= i && i + windowLength <= |rows|
    requires NudgeSample(rows, rescue, windowLength, i).Keep?
    ensures var w := rows[i..i + windowLength]; var v := NudgeSample(rows, rescue, windowLength, i);
      && !AnyRescue(WindowPrior(rescue, rows[i].rtime)) && !RecentMeal(rows[i])
      && Truthy(rows[i].cgm) && Truthy(rows[i + windowLength - 1].cgm)
      && v.hour == HourOf(rows[i].rtime)
      && v.isf * TruthySum(Dis(w)) == rows[i + windowLength - 1].cgm.value - rows[i].cgm.value
  {
  }

  /** No value comes from a window without dynamic insulin. */
  lemma NudgeSampleNoInsulin(rows: seq<NudgeRow>, rescue: seq<RescueRow>, windowLength: int, i: int)
    requires 1 <= windowLength && 0 <= i && i + windowLength <= |rows|
    requires forall k :: i <= k < i + windowLength ==> rows[k].di.None?
    ensures !NudgeSample(rows, rescue, windowLength, i).Keep?
  {
    TruthySumNull(Dis(rows[i..i + windowLength]));
  }
}
