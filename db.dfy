/** `db.py`: HTML table builders, column helpers and the meal finder that
    pairs carb and bolus records.  A record is a dict from column name to
    its printed value; a missing column raises `KeyError`. */
module Db {
  import opened Common

  type Record = map<string, string>

  function Cell(v: string): string { "<td>" + v + "</td>" }

  function HeaderCell(c: string): string { "<th>" + c + "</th>" }

  /** Every column is a key of the record. */
  predicate HasAll(cols: seq<string>, row: Record) { forall c :: c in cols ==> c in row }

  /** The `<td>` cells of `row` for `cols`, in order. */
  function Cells(cols: seq<string>, row: Record): (r: Result<string>)
    ensures r.Ok? <==> HasAll(cols, row)
    ensures r.Err? ==> r == Err(KeyError)
    decreases |cols|
  {
    if cols == [] then Ok("")
    else
      var last := cols[|cols| - 1];
      assert forall c :: c in cols ==> c in cols[..|cols| - 1] || c == last;
      match Cells(cols[..|cols| - 1], row)
      case Err(e) => Err(e)
      case Ok(s) => if last in row then Ok(s + Cell(row[last])) else Err(KeyError)
  }

  /** The cells of a concatenation of column lists are the concatenation of
      their cells. */
  lemma {:induction false} CellsConcat(a: seq<string>, b: seq<string>, row: Record)
    requires Cells(a, row).Ok? && Cells(b, row).Ok?
    ensures Cells(a + b, row) == Ok(Cells(a, row).value + Cells(b, row).value)
    decreases |b|
  {
    if b == [] {
      assert a + b == a;
      assert Cells(a, row).value + "" == Cells(a, row).value;
    } else {
      var b' := b[..|b| - 1];
      assert (a + b)[..|a + b| - 1] == a + b';
      assert (a + b)[|a + b| - 1] == b[|b| - 1];
      assert Cells(b', row).Ok?;
      CellsConcat(a, b', row);
      var last := Cell(row[b[|b| - 1]]);
      assert Cells(b, row).value == Cells(b', row).value + last;
      assert Cells(a + b, row).value == Cells(a + b', row).value + last;
      assert Cells(a, row).value + Cells(b', row).value + last == Cells(a, row).value + (Cells(b', row).value + last);
    }
  }

  /** `makeTableRowHTML`. */
  function MakeTableRowHtml(cols: seq<string>, row: Record): (r: Result<string>)
    ensures r.Ok? <==> HasAll(cols, row)
    ensures r.Ok? ==> |r.value| >= 9 && r.value[..4] == "<tr>" && r.value[|r.value| - 6..] == "</tr>\n"
  {
    match Cells(cols, row)
    case Err(e) => Err(e)
    case Ok(s) => Ok("<tr>" + s + "</tr>\n")
  }

  /** A row of one column holds exactly that column's cell. */
  lemma RowOfOneColumn(c: string, row: Record)
    requires c in row
    ensures MakeTableRowHtml([c], row) == Ok("<tr><td>" + row[c] + "</td></tr>\n")
  {
    assert [c][..0] == [];
    assert "" + Cell(row[c]) == Cell(row[c]);
    assert Cells([c], row) == Ok(Cell(row[c]));
    assert "<tr>" + Cell(row[c]) + "</tr>\n" == "<tr><td>" + row[c] + "</td></tr>\n";
  }

  function Headers(cols: seq<string>): string
    decreases |cols|
  {
    if cols == [] then "" else Headers(cols[..|cols| - 1]) + HeaderCell(cols[|cols| - 1])
  }

  function Rows(cols: seq<string>, data: seq<Record>): (r: Result<string>)
    ensures r.Ok? <==> forall i :: 0 <= i < |data| ==> MakeTableRowHtml(cols, data[i]).Ok?
    ensures r.Err? ==> r == Err(KeyError)
    decreases |data|
  {
    if data == [] then Ok("")
    else
      match Rows(cols, data[..|data| - 1])
      case Err(e) => Err(e)
      case Ok(s) =>
        match MakeTableRowHtml(cols, data[|data| - 1])
        case Err(e) => Err(e)
        case Ok(t) => Ok(s + t)
  }

  /** `makeTableHTML`: the header cells, then one row per record. */
  function MakeTableHtml(cols: seq<string>, data: seq<Record>): (r: Result<string>)
    ensures r.Ok? <==> forall i, c :: 0 <= i < |data| && c in cols ==> c in data[i]
  {
    match Rows(cols, data)
    case Err(e) => Err(e)
    case Ok(s) => Ok("<table class=\"bordered\">\n" + Headers(cols) + "\n" + s + "</table>")
  }

  /** Adding a record adds its row just before the closing tag. */
  lemma TableGrows(cols: seq<string>, data: seq<Record>, row: Record)
    requires MakeTableHtml(cols, data + [row]).Ok?
    ensures MakeTableHtml(cols, data).Ok? && MakeTableRowHtml(cols, row).Ok?
    ensures var t := MakeTableHtml(cols, data).value;
      MakeTableHtml(cols, data + [row]).value == t[..|t| - 8] + MakeTableRowHtml(cols, row).value + "</table>"
  {
    assert (data + [row])[..|data|] == data;
    assert (data + [row])[|data|] == row;
    assert forall i :: 0 <= i < |data| ==> (data + [row])[i] == data[i];
  }

  /** `all(rec[c] == '' for rec in records)`, evaluated in order: the first
      record without the column raises, unless a nonempty value came
      first. */
  function ColumnEmpty(records: seq<Record>, c: string): Result<bool>
    decreases |records|
  {
    if records == [] then Ok(true)
    else if c !in records[0] then Err(KeyError)
    else if records[0][c] != "" then Ok(false)
    else ColumnEmpty(records[1..], c)
  }

  /** A column is empty exactly when every record has it and it is `''`
      throughout. */
  lemma {:induction false} ColumnEmptyMeaning(records: seq<Record>, c: string)
    ensures ColumnEmpty(records, c) == Ok(true) <==> forall i :: 0 <= i < |records| ==> c in records[i] && records[i][c] == ""
    decreases |records|
  {
    if records != [] {
      ColumnEmptyMeaning(records[1..], c);
      assert forall i :: 1 <= i < |records| ==> records[i] == records[1..][i - 1];
    }
  }

  predicate IsEmptyColumn(records: seq<Record>, c: string) { ColumnEmpty(records, c) == Ok(true) }

  /** The columns of `cols` that are (not) empty, in order. */
  function EmptyCols(cols: seq<string>, records: seq<Record>): seq<string>
    decreases |cols|
  {
    if cols == [] then []
    else (if IsEmptyColumn(records, cols[0]) then [cols[0]] else []) + EmptyCols(cols[1..], records)
  }

  function KeptCols(cols: seq<string>, records: seq<Record>): seq<string>
    decreases |cols|
  {
    if cols == [] then []
    else (if IsEmptyColumn(records, cols[0]) then [] else [cols[0]]) + KeptCols(cols[1..], records)
  }

  lemma {:induction false} EmptyColsSnoc(cols: seq<string>, c: string, records: seq<Record>)
    ensures EmptyCols(cols + [c], records) == EmptyCols(cols, records) + (if IsEmptyColumn(records, c) then [c] else [])
    decreases |cols|
  {
    if cols != [] {
      assert (cols + [c])[1..] == cols[1..] + [c];
      EmptyColsSnoc(cols[1..], c, records);
    }
  }

  /** The kept columns are exactly the nonempty ones of `cols`. */
  lemma {:induction false} KeptColsMembers(cols: seq<string>, records: seq<Record>)
    ensures forall c :: c in KeptCols(cols, records) <==> c in cols && !IsEmptyColumn(records, c)
    decreases |cols|
  {
    if cols != [] {
      KeptColsMembers(cols[1..], records);
      assert forall c :: c in cols <==> c == cols[0] || c in cols[1..];
    }
  }

  lemma {:induction false} EmptyColsMembers(cols: seq<string>, records: seq<Record>)
    ensures forall c :: c in EmptyCols(cols, records) ==> IsEmptyColumn(records, c)
    decreases |cols|
  {
    if cols != [] {
      EmptyColsMembers(cols[1..], records);
    }
  }

  /** `list.remove`: drop the first occurrence, or raise `ValueError`. */
  function RemoveFirst(xs: seq<string>, e: string): Result<seq<string>>
    decreases |xs|
  {
    if xs == [] then Err(ValueError)
    else if xs[0] == e then Ok(xs[1..])
    else match RemoveFirst(xs[1..], e)
      case Err(err) => Err(err)
      case Ok(ys) => Ok([xs[0]] + ys)
  }

  /** `for e in es: xs.remove(e)`. */
  function RemoveAll(xs: seq<string>, es: seq<string>): Result<seq<string>>
    decreases |es|
  {
    if es == [] then Ok(xs)
    else match RemoveFirst(xs, es[0])
      case Err(err) => Err(err)
      case Ok(ys) => RemoveAll(ys, es[1..])
  }

  lemma {:induction false} RemoveAllPastHead(x: string, t: seq<string>, es: seq<string>)
    requires x !in es
    ensures RemoveAll([x] + t, es) == match RemoveAll(t, es) case Err(e) => Err(e) case Ok(ys) => Ok([x] + ys)
    decreases |es|
  {
    if es != [] {
      assert ([x] + t)[1..] == t;
      match RemoveFirst(t, es[0])
      case Err(_) =>
      case Ok(ys) =>
        RemoveAllPastHead(x, ys, es[1..]);
    }
  }

  /** Removing each empty column once removes exactly the empty columns and
      none of the others. */
  lemma {:induction false} RemoveEmpties(cols: seq<string>, records: seq<Record>)
    ensures RemoveAll(cols, EmptyCols(cols, records)) == Ok(KeptCols(cols, records))
    decreases |cols|
  {
    if cols != [] {
      var x, t := cols[0], cols[1..];
      assert cols == [x] + t;
      RemoveEmpties(t, records);
      var e := EmptyCols(t, records);
      if IsEmptyColumn(records, x) {
        assert EmptyCols(cols, records) == [x] + e;
        assert ([x] + e)[1..] == e;
        assert RemoveFirst(cols, x) == Ok(t);
        assert KeptCols(cols, records) == KeptCols(t, records);
      } else {
        assert EmptyCols(cols, records) == e;
        EmptyColsMembers(t, records);
        RemoveAllPastHead(x, t, e);
      }
    }
  }

  /** `remove_empty_cols`: the list of columns after the removal, or the
      `KeyError` a record without a column raises (before anything is
      removed). */
  method RemoveEmptyCols(cols: seq<string>, records: seq<Record>) returns (r: Result<seq<string>>)
    ensures (forall c :: c in cols ==> ColumnEmpty(records, c).Ok?) ==> r == Ok(KeptCols(cols, records))
    ensures (exists c :: c in cols && ColumnEmpty(records, c).Err?) ==> r == Err(KeyError)
  {
    var empty: seq<string> := [];
    for i := 0 to |cols|
      invariant empty == EmptyCols(cols[..i], records)
      invariant forall k :: 0 <= k < i ==> ColumnEmpty(records, cols[k]).Ok?
    {
      var e := ColumnEmpty(records, cols[i]);
      if e.Err? {
        ColumnEmptyErr(records, cols[i]);
        return Err(KeyError);
      }
      EmptyColsSnoc(cols[..i], cols[i], records);
      assert cols[..i + 1] == cols[..i] + [cols[i]];
      if e.value {
        empty := empty + [cols[i]];
      }
    }
    assert cols[..|cols|] == cols;
    var cs := cols;
    var j := 0;
    RemoveEmpties(cols, records);
    while j < |empty|
      invariant 0 <= j <= |empty|
      invariant RemoveAll(cs, empty[j..]) == Ok(KeptCols(cols, records))
    {
      assert empty[j..][1..] == empty[j + 1..];
      var step := RemoveFirst(cs, empty[j]);
      cs := step.value;
      j := j + 1;
    }
    r := Ok(cs);
  }

  lemma {:induction false} ColumnEmptyErr(records: seq<Record>, c: string)
    requires ColumnEmpty(records, c).Err?
    ensures ColumnEmpty(records, c) == Err(KeyError)
    decreases |records|
  {
    if records != [] && c in records[0] && records[0][c] == "" {
      ColumnEmptyErr(records[1..], c);
    }
  }

  /** `col`: one column of every record, in order. */
  function Col<V>(records: seq<map<string, V>>, name: string): (r: Result<seq<V>>)
    ensures r.Ok? <==> forall i :: 0 <= i < |records| ==> name in records[i]
    ensures r.Ok? ==> |r.value| == |records| && forall i :: 0 <= i < |records| ==> r.value[i] == records[i][name]
    decreases |records|
  {
    if records == [] then Ok([])
    else match Col(records[..|records| - 1], name)
      case Err(e) => Err(e)
      case Ok(vs) =>
        var last := records[|records| - 1];
        if name in last then Ok(vs + [last[name]]) else Err(KeyError)
  }

  /** `rec_nums`: each record's `rec_num`, printed. */
  function RecNums(records: seq<map<string, int>>): (r: Result<seq<string>>)
    ensures r.Ok? <==> forall i :: 0 <= i < |records| ==> "rec_num" in records[i]
    ensures r.Ok? ==> |r.value| == |records|
    ensures r.Ok? ==> forall i :: 0 <= i < |records| ==> r.value[i] == IntToString(records[i]["rec_num"])
  {
    match Col(records, "rec_num")
    case Err(e) => Err(e)
    case Ok(vs) => Ok(seq(|vs|, i requires 0 <= i < |vs| => IntToString(vs[i])))
  }

  /** An `insulin_carb_2` record as `findMeals` reads it; times are minutes. */
  datatype IcRow = IcRow(recNum: int, time: int, bolus: real, carbs: real)

  /** A matched meal: carbs and bolus are the larger of the pair's values. */
  datatype Meal = Meal(date: int, carbs: real, bolus: real, ratio: real, basis: seq<string>)

  predicate MealRecord(d: IcRow) { d.bolus > 0.0 || d.carbs > 0.0 }

  /** The records with a bolus or carbs. */
  function MealData(data: seq<IcRow>): seq<IcRow>
    decreases |data|
  {
    if data == [] then []
    else MealData(data[..|data| - 1]) + (if MealRecord(data[|data| - 1]) then [data[|data| - 1]] else [])
  }

  lemma {:induction false} MealDataMembers(data: seq<IcRow>)
    ensures forall d :: d in MealData(data) <==> d in data && MealRecord(d)
    decreases |data|
  {
    if data != [] {
      MealDataMembers(data[..|data| - 1]);
      assert forall d :: d in data <==> d in data[..|data| - 1] || d == data[|data| - 1];
    }
  }

  predicate Partner(d1: IcRow, d: IcRow, gap: int)
  {
    d.recNum > d1.recNum && -gap < d.time - d1.time < gap
  }

  /** The later-numbered records strictly within `gap` minutes of `d1`. */
  function Others(md: seq<IcRow>, d1: IcRow, gap: int): seq<IcRow>
    decreases |md|
  {
    if md == [] then []
    else Others(md[..|md| - 1], d1, gap) + (if Partner(d1, md[|md| - 1], gap) then [md[|md| - 1]] else [])
  }

  lemma {:induction false} OthersMembers(md: seq<IcRow>, d1: IcRow, gap: int)
    ensures forall d :: d in Others(md, d1, gap) <==> d in md && Partner(d1, d, gap)
    decreases |md|
  {
    if md != [] {
      OthersMembers(md[..|md| - 1], d1, gap);
      assert forall d :: d in md <==> d in md[..|md| - 1] || d == md[|md| - 1];
    }
  }

  /** Each record's group is itself followed by its partners. */
  function Group(md: seq<IcRow>, d1: IcRow, gap: int): seq<IcRow>
  {
    [d1] + Others(md, d1, gap)
  }

  /** One group per meal record, in order. */
  function Groups(md: seq<IcRow>, gap: int): (gs: seq<seq<IcRow>>)
    ensures |gs| == |md| && forall k :: 0 <= k < |md| ==> gs[k] == Group(md, md[k], gap)
  {
    seq(|md|, k requires 0 <= k < |md| => Group(md, md[k], gap))
  }

  /** `[g for g in groups if len(g) == 2]`, as pairs. */
  function TwoGroups(groups: seq<seq<IcRow>>): seq<(IcRow, IcRow)>
    decreases |groups|
  {
    if groups == [] then []
    else
      var g := groups[|groups| - 1];
      TwoGroups(groups[..|groups| - 1]) + (if |g| == 2 then [(g[0], g[1])] else [])
  }

  /** Each pair is a group of two. */
  lemma {:induction false} TwoGroupsSound(groups: seq<seq<IcRow>>)
    ensures forall p :: p in TwoGroups(groups) ==> [p.0, p.1] in groups
    decreases |groups|
  {
    if groups != [] {
      var init := groups[..|groups| - 1];
      TwoGroupsSound(init);
      assert forall g :: g in init ==> g in groups;
      var g := groups[|groups| - 1];
      if |g| == 2 {
        assert g == [g[0], g[1]];
      }
    }
  }

  /** Each group of two is a pair. */
  lemma {:induction false} TwoGroupsComplete(groups: seq<seq<IcRow>>, j: nat)
    requires j < |groups| && |groups[j]| == 2
    ensures (groups[j][0], groups[j][1]) in TwoGroups(groups)
    decreases |groups|
  {
    if j < |groups| - 1 {
      TwoGroupsComplete(groups[..|groups| - 1], j);
    }
  }

  function Ratio(carbs: real, bolus: real): (q: real)
    requires bolus != 0.0
    ensures q * bolus == carbs
  {
    carbs / bolus
  }

  /** The meal of a pair; both boluses zero divides by zero. */
  function MealOf(a: IcRow, b: IcRow): (r: Result<Meal>)
    ensures r.Err? <==> RealMax(a.bolus, b.bolus) == 0.0
    ensures r.Err? ==> r == Err(ZeroDivisionError)
  {
    var carbs := RealMax(a.carbs, b.carbs);
    var bolus := RealMax(a.bolus, b.bolus);
    if bolus == 0.0 then Err(ZeroDivisionError)
    else Ok(Meal(a.time, carbs, bolus, Ratio(carbs, bolus), [IntToString(a.recNum), IntToString(b.recNum)]))
  }

  /** A pair's meal is dated at its first record, takes the larger carbs
      and bolus, and its ratio times the bolus gives the carbs. */
  lemma MealOfFields(a: IcRow, b: IcRow)
    requires MealOf(a, b).Ok?
    ensures var m := MealOf(a, b).value;
      m.date == a.time && m.carbs == RealMax(a.carbs, b.carbs) && m.bolus == RealMax(a.bolus, b.bolus)
      && m.ratio * m.bolus == m.carbs
  {
  }

  function RealMax(x: real, y: real): (m: real)
    ensures m >= x && m >= y && (m == x || m == y)
  {
    if x >= y then x else y
  }

  function PairMeal(p: (IcRow, IcRow)): Result<Meal> { MealOf(p.0, p.1) }

  /** `findMeals`. */
  function FindMealsOf(data: seq<IcRow>, gap: int): Result<seq<Meal>>
  {
    MapAll(MealPairs(data, gap), PairMeal)
  }

  function MealPairs(data: seq<IcRow>, gap: int): seq<(IcRow, IcRow)>
  {
    var md := MealData(data);
    TwoGroups(Groups(md, gap))
  }

  /** A pair is a meal record with its single partner. */
  lemma PairIsMatch(data: seq<IcRow>, gap: int, p: (IcRow, IcRow))
    requires p in MealPairs(data, gap)
    ensures p.0 in MealData(data) && p.1 in MealData(data)
    ensures Partner(p.0, p.1, gap) && Others(MealData(data), p.0, gap) == [p.1]
  {
    var md := MealData(data);
    var gs := Groups(md, gap);
    TwoGroupsSound(gs);
    var j :| 0 <= j < |gs| && gs[j] == [p.0, p.1];
    var g := Group(md, md[j], gap);
    assert g == [p.0, p.1];
    assert g[0] == md[j] && g[1..] == Others(md, md[j], gap);
    assert [p.0, p.1][1..] == [p.1];
    OthersMembers(md, p.0, gap);
    assert p.1 in Others(md, p.0, gap);
  }

  /** Each meal comes from a carb or bolus record `a` with exactly one
      later-numbered partner `b` strictly within the gap; the meal is dated
      at `a` and carries the larger carbs and bolus of the two. */
  lemma MealsAreMatchedPairs(data: seq<IcRow>, gap: int, k: nat)
    requires FindMealsOf(data, gap).Ok?
    requires k < |MealPairs(data, gap)|
    ensures var (a, b) := MealPairs(data, gap)[k];
      && a in data && b in data && MealRecord(a) && MealRecord(b)
      && Partner(a, b, gap) && Others(MealData(data), a, gap) == [b]
      && MealOf(a, b).Ok? && k < |FindMealsOf(data, gap).value|
      && FindMealsOf(data, gap).value[k] == MealOf(a, b).value
  {
    var ps := MealPairs(data, gap);
    MapAllMeaning(ps, PairMeal);
    PairIsMatch(data, gap, ps[k]);
    MealDataMembers(data);
  }

  /** Every meal record with exactly one partner forms a meal. */
  lemma SinglePartnersPair(data: seq<IcRow>, gap: int, j: nat)
    requires j < |MealData(data)| && |Others(MealData(data), MealData(data)[j], gap)| == 1
    ensures var md := MealData(data);
      (md[j], Others(md, md[j], gap)[0]) in MealPairs(data, gap)
  {
    var md := MealData(data);
    TwoGroupsComplete(Groups(md, gap), j);
  }

  /** `findMeals` fails, with `ZeroDivisionError`, exactly when some pair
      has no positive bolus. */
  lemma FindMealsFails(data: seq<IcRow>, gap: int)
    ensures var ps := MealPairs(data, gap);
      FindMealsOf(data, gap).Err? <==> exists k :: 0 <= k < |ps| && RealMax(ps[k].0.bolus, ps[k].1.bolus) == 0.0
    ensures FindMealsOf(data, gap).Err? ==> FindMealsOf(data, gap) == Err(ZeroDivisionError)
  {
    var ps := MealPairs(data, gap);
    MapAllMeaning(ps, PairMeal);
    MapAllFirstErr(ps, PairMeal);
    if FindMealsOf(data, gap).Err? {
      var k :| 0 <= k < |ps| && PairMeal(ps[k]) == Err(FindMealsOf(data, gap).error);
      assert MealOf(ps[k].0, ps[k].1).Err?;
    }
  }

  /** `findMeals`: the group loop, the pairs, then the meal loop. */
  method FindMeals(data: seq<IcRow>, gap: int) returns (r: Result<seq<Meal>>)
    ensures r == FindMealsOf(data, gap)
  {
    var md := MealData(data);
    var groups := CollectGroups(md, gap);
    var pairs := TwoGroups(groups);
    r := CollectMeals(pairs);
  }

  /** `findMeals`' first loop: each meal record's group. */
  method CollectGroups(md: seq<IcRow>, gap: int) returns (groups: seq<seq<IcRow>>)
    ensures groups == Groups(md, gap)
  {
    groups := [];
    for i := 0 to |md|
      invariant |groups| == i
      invariant forall k :: 0 <= k < i ==> groups[k] == Group(md, md[k], gap)
    {
      groups := groups + [Group(md, md[i], gap)];
    }
  }

  /** `findMeals`' last loop: one meal per pair, stopping at a division by
      zero. */
  method CollectMeals(pairs: seq<(IcRow, IcRow)>) returns (r: Result<seq<Meal>>)
    ensures r == MapAll(pairs, PairMeal)
  {
    var meals: seq<Meal> := [];
    for i := 0 to |pairs|
      invariant MapAll(pairs[..i], PairMeal) == Ok(meals)
    {
      var m := MealOf(pairs[i].0, pairs[i].1);
      MapAllSnoc(pairs[..i], pairs[i], PairMeal);
      assert pairs[..i + 1] == pairs[..i] + [pairs[i]];
      if m.Err? {
        MapAllErr(pairs, PairMeal, i + 1);
        return Err(m.error);
      }
      meals := meals + [m.value];
    }
    assert pairs[..|pairs|] == pairs;
    r := Ok(meals);
  }

  /** `datestr`: `'%Y-%m-%d'`. */
  function Datestr(d: Date): (s: string)
    ensures d.Valid() ==> |s| == 10 && s[4] == '-' && s[7] == '-'
  {
    YmdString(d)
  }

  /** Without its hyphens a date string is the `'%Y%m%d'` form. */
  lemma DatestrStripped(d: Date)
    ensures StripHyphens(Datestr(d)) == Pad4(d.year) + Pad2(d.month) + Pad2(d.day)
  {
    StripFields(Pad4(d.year), Pad2(d.month), Pad2(d.day));
  }

  lemma StripFields(y: string, m: string, dd: string)
    requires AllDigits(y) && AllDigits(m) && AllDigits(dd)
    ensures StripHyphens(y + "-" + m + "-" + dd) == y + m + dd
  {
    StripDigits(y);
    StripDigits(m);
    StripDigits(dd);
    StripDash(y);
    calc {
      StripHyphens(y + "-" + m + "-" + dd);
      { StripConcat(y + "-" + m + "-", dd); }
      StripHyphens(y + "-" + m + "-") + StripHyphens(dd);
      { assert y + "-" + m + "-" == (y + "-") + (m + "-"); StripConcat(y + "-", m + "-"); }
      StripHyphens(y + "-") + StripHyphens(m + "-") + dd;
      { StripDash(m); }
      y + m + dd;
    }
  }

  /** A trailing hyphen is dropped. */
  lemma StripDash(s: string)
    ensures StripHyphens(s + "-") == StripHyphens(s)
  {
    assert (s + "-")[..|s|] == s;
  }

  /** `strip_hyphens`: `''.join(s.split('-'))`. */
  function StripHyphens(s: string): (r: string)
    ensures '-' !in r
    ensures |r| <= |s|
    decreases |s|
  {
    if s == [] then ""
    else StripHyphens(s[..|s| - 1]) + (if s[|s| - 1] == '-' then "" else [s[|s| - 1]])
  }

  lemma {:induction false} StripConcat(a: string, b: string)
    ensures StripHyphens(a + b) == StripHyphens(a) + StripHyphens(b)
    decreases |b|
  {
    if b != [] {
      assert (a + b)[..|a + b| - 1] == a + b[..|b| - 1];
      StripConcat(a, b[..|b| - 1]);
    } else {
      assert a + b == a;
    }
  }

  /** A string without hyphens is left alone. */
  lemma {:induction false} StripNoHyphen(s: string)
    requires '-' !in s
    ensures StripHyphens(s) == s
    decreases |s|
  {
    if s != [] {
      StripNoHyphen(s[..|s| - 1]);
    }
  }

  lemma StripDigits(s: string)
    requires AllDigits(s)
    ensures StripHyphens(s) == s
  {
    StripNoHyphen(s);
  }

  /** Stripping twice strips once. */
  lemma StripIdempotent(s: string)
    ensures StripHyphens(StripHyphens(s)) == StripHyphens(s)
  {
    StripNoHyphen(StripHyphens(s));
  }
}
