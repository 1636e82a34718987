/** `util.py`: `dict2str`, which prints a sequence of key/value pairs in
    braces. */
module Util {
  import opened Common

  /** One element of the iterable `dict2str` is given, as unpacking sees
      it: the values it yields.  Unpacking into `k, v` needs exactly two;
      a dictionary yields its keys, so a two-letter key unpacks into its
      letters and any other key raises. */
  type Item = seq<string>

  function PairText(item: Item): (r: Result<string>)
    ensures r.Err? <==> |item| != 2
    ensures r.Err? ==> r.error == ValueError
    ensures r.Ok? ==> r.value == item[0] + ": " + item[1]
  {
    if |item| != 2 then Err(ValueError) else Ok(item[0] + ": " + item[1])
  }

  /** `dict2str(a_dict)`: `'{' + ','.join(k + ': ' + v for k, v in a_dict) + '}'`. */
  function Dict2Str(items: seq<Item>): (r: Result<string>)
    ensures r.Err? <==> exists i :: 0 <= i < |items| && |items[i]| != 2
    ensures r.Ok? ==> |r.value| >= 2 && r.value[0] == '{' && r.value[|r.value| - 1] == '}'
  {
    MapAllMeaning(items, PairText);
    match MapAll(items, PairText)
    case Err(e) => Err(e)
    case Ok(pairs) => Ok("{" + Join(",", pairs) + "}")
  }

  /** No pairs print as `{}`. */
  lemma EmptyDict()
    ensures Dict2Str([]) == Ok("{}")
  {
    assert MapAll([], PairText) == Ok([]);
    assert "{" + Join(",", []) + "}" == "{}";
  }

  /** A further pair is printed after the ones before it, behind a comma:
      the pairs keep their order. */
  lemma Dict2StrSnoc(items: seq<Item>, k: string, v: string)
    requires items != [] && Dict2Str(items).Ok?
    ensures var before := Dict2Str(items).value;
      Dict2Str(items + [[k, v]]) == Ok(before[..|before| - 1] + "," + k + ": " + v + "}")
  {
    MapAllSnoc(items, [k, v], PairText);
    MapAllMeaning(items, PairText);
    var pairs := MapAll(items, PairText).value;
    assert (pairs + [k + ": " + v])[..|pairs|] == pairs;
    assert PairText([k, v]) == Ok(k + ": " + v);
    assert MapAll(items + [[k, v]], PairText) == Ok(pairs + [k + ": " + v]);
    assert Join(",", pairs + [k + ": " + v]) == Join(",", pairs) + "," + (k + ": " + v);
    var before := "{" + Join(",", pairs) + "}";
    assert before[..|before| - 1] == "{" + Join(",", pairs);
    assert Dict2Str(items) == Ok(before);
    assert Dict2Str(items + [[k, v]]) == Ok("{" + (Join(",", pairs) + "," + (k + ": " + v)) + "}");
    assert "{" + (Join(",", pairs) + "," + (k + ": " + v)) + "}" == before[..|before| - 1] + "," + k + ": " + v + "}";
  }

  /** A single pair prints as `{k: v}`. */
  lemma SinglePair(k: string, v: string)
    ensures Dict2Str([[k, v]]) == Ok("{" + k + ": " + v + "}")
  {
    var none: seq<Item> := [];
    MapAllSnoc(none, [k, v], PairText);
    assert none + [[k, v]] == [[k, v]];
    assert MapAll(none, PairText) == Ok([]);
    assert PairText([k, v]) == Ok(k + ": " + v);
    assert MapAll([[k, v]], PairText) == Ok([] + [k + ": " + v]);
    assert Join(",", [k + ": " + v]) == k + ": " + v;
    assert Dict2Str([[k, v]]) == Ok("{" + (k + ": " + v) + "}");
    assert "{" + (k + ": " + v) + "}" == "{" + k + ": " + v + "}";
  }
}
