/** `cs304dbi.py`: the quote stripping of the option-file parser, the check
    that a connection dictionary names every key `connect` needs, and the
    module-wide credential cache that `use` edits.  Reading the option file
    and connecting are left out. */
module Cs304dbi {
  import opened Common

  /** The quotes `__remove_quotes` tries, in order. */
  const Quotes: seq<char> := ['\'', '"']

  predicate QuotedBy(value: string, q: char)
  {
    |value| >= 2 && value[0] == q && value[|value| - 1] == q
  }

  /** The `for quote in quotes` search: the first quote that encloses the
      value is stripped, once. */
  function StripFirst(value: string, quotes: seq<char>): (r: string)
    ensures (exists k :: 0 <= k < |quotes| && QuotedBy(value, quotes[k])) ==> r == value[1..|value| - 1]
    ensures (forall k :: 0 <= k < |quotes| ==> !QuotedBy(value, quotes[k])) ==> r == value
    decreases |quotes|
  {
    if quotes == [] then value
    else if QuotedBy(value, quotes[0]) then value[1..|value| - 1]
    else
      assert forall k :: 1 <= k < |quotes| ==> quotes[1..][k - 1] == quotes[k];
      StripFirst(value, quotes[1..])
  }

  /** `Parser.__remove_quotes(value)`. */
  function RemoveQuotes(value: string): (r: string)
    ensures (QuotedBy(value, '\'') || QuotedBy(value, '"')) ==> r == value[1..|value| - 1]
    ensures !QuotedBy(value, '\'') && !QuotedBy(value, '"') ==> r == value
  {
    assert Quotes[0] == '\'' && Quotes[1] == '"';
    StripFirst(value, Quotes)
  }

  /** Quoting a value and removing the quotes gives the value back. */
  lemma QuoteRoundTrip(s: string, q: char)
    requires q in Quotes
    ensures RemoveQuotes([q] + s + [q]) == s
  {
    var v := [q] + s + [q];
    assert QuotedBy(v, q);
    assert v[1..|v| - 1] == s;
  }

  /** Only one layer of quotes is removed. */
  lemma OneLayerOnly()
    ensures RemoveQuotes("\"'x'\"") == "'x'"
    ensures RemoveQuotes("''") == ""
    ensures RemoveQuotes("'x\"") == "'x\""
  {
    assert "\"'x'\""[1..4] == "'x'";
  }

  /** The keys `check_DSN` looks for, in order. */
  const DsnKeys: seq<string> := ["host", "user", "password", "database"]

  /** The first of `keys` that `dsn` lacks. */
  function FirstMissing(keys: seq<string>, dsn: map<string, string>): (r: Option<string>)
    ensures r.None? <==> forall k :: 0 <= k < |keys| ==> keys[k] in dsn
    ensures r.Some? ==> exists i :: 0 <= i < |keys| && keys[i] == r.value && r.value !in dsn &&
                                 forall k :: 0 <= k < i ==> keys[k] in dsn
    decreases |keys|
  {
    if keys == [] then None
    else if keys[0] !in dsn then Some(keys[0])
    else
      var r := FirstMissing(keys[1..], dsn);
      assert forall k :: 1 <= k < |keys| ==> keys[1..][k - 1] == keys[k];
      if r.Some? then
        var i :| 0 <= i < |keys[1..]| && keys[1..][i] == r.value && r.value !in dsn &&
          forall k :: 0 <= k < i ==> keys[1..][k] in dsn;
        assert keys[i + 1] == r.value;
        r
      else r
  }

  /** `check_DSN(dsn)`: `KeyError` naming the first missing key, otherwise
      `True`. */
  function CheckDsn(dsn: map<string, string>): (r: Result<bool>)
    ensures r.Ok? <==> "host" in dsn && "user" in dsn && "password" in dsn && "database" in dsn
    ensures r.Ok? ==> r.value
    ensures r.Err? ==> r.error == KeyError
  {
    assert DsnKeys[0] == "host" && DsnKeys[1] == "user" && DsnKeys[2] == "password" && DsnKeys[3] == "database";
    if FirstMissing(DsnKeys, dsn).Some? then Err(KeyError) else Ok(true)
  }

  /** The module's `DSN_CACHE`. */
  class DsnCache {
    var cache: Option<map<string, string>>

    /** At import the cache is `None`. */
    constructor ()
      ensures cache.None?
    {
      cache := None;
    }

    /** `cache_cnf(cnf_file)`: reads the credentials only the first time;
        `cnf` stands for what `read_cnf` would return. */
    method CacheCnf(cnf: map<string, string>) returns (dsn: map<string, string>)
      modifies this
      ensures old(cache).Some? ==> cache == old(cache) && dsn == old(cache).value
      ensures old(cache).None? ==> cache == Some(cnf) && dsn == cnf
    {
      if cache.None? {
        cache := Some(cnf);
      }
      dsn := cache.value;
    }

    /** `use(database)`: refuses an empty cache, and otherwise replaces only
        its `database` entry. */
    method Use(database: string) returns (r: Result<()>)
      modifies this
      ensures old(cache).None? ==> r == Err(GenericError) && cache == old(cache)
      ensures old(cache).Some? ==> r == Ok(()) && cache == Some(Selected(old(cache).value, database))
    {
      if cache.None? {
        return Err(GenericError);
      }
      cache := Some(cache.value["database" := database]);
      return Ok(());
    }
  }

  /** The credentials after `use(database)`. */
  function Selected(dsn: map<string, string>, database: string): (r: map<string, string>)
    ensures r.Keys == dsn.Keys + {"database"}
    ensures r["database"] == database
    ensures forall k :: k in dsn && k != "database" ==> r[k] == dsn[k]
  {
    dsn["database" := database]
  }

  /** After `use`, `check_DSN` passes exactly when the host, user and
      password were cached. */
  lemma SelectedChecks(dsn: map<string, string>, database: string)
    ensures CheckDsn(Selected(dsn, database)).Ok? <==> "host" in dsn && "user" in dsn && "password" in dsn
  {
  }

  /** `use` twice keeps only the second database. */
  lemma SelectTwice(dsn: map<string, string>, a: string, b: string)
    ensures Selected(Selected(dsn, a), b) == Selected(dsn, b)
  {
  }
}
