/** `db_generators.py`: column lookup by name, paged queries and a moving
    window over query results.  The rows a query returns are an input
    sequence; each page query is recorded by its offset. */
module DbGenerators {
  import opened Common

  /** `index_for(curs, column)`: the first position whose column name is
      `column`, else `ValueError`. */
  method IndexFor(names: seq<string>, column: string) returns (r: Result<nat>)
    ensures r.Ok? ==> r.value < |names| && names[r.value] == column &&
                      forall j :: 0 <= j < r.value ==> names[j] != column
    ensures r.Err? <==> column !in names
    ensures r.Err? ==> r.error == ValueError
  {
    var i := 0;
    while i < |names|
      invariant i <= |names|
      invariant forall j :: 0 <= j < i ==> names[j] != column
    {
      if names[i] == column {
        return Ok(i);
      }
      i := i + 1;
    }
    return Err(ValueError);
  }

  /** The rows of `... limit start,size`. */
  function Page<T>(table: seq<T>, start: nat, size: nat): (r: seq<T>)
    ensures |r| <= size
    ensures start + size <= |table| ==> r == table[start..start + size]
    ensures start <= |table| < start + size ==> r == table[start..]
  {
    if start >= |table| then [] else if start + size <= |table| then table[start..start + size] else table[start..]
  }

  /** The offsets `0, size, 2 * size, ...` of the first `n` pages. */
  function Offsets(n: nat, size: nat): (r: seq<nat>)
    ensures |r| == n
  {
    seq(n, k => k * size)
  }

  lemma {:induction false} MulLe(a: nat, b: nat, c: nat)
    requires a <= b
    ensures a * c <= b * c
    decreases b - a
  {
    if a < b {
      MulLe(a, b - 1, c);
      assert (b - 1) * c + c == b * c;
    }
  }

  /** `k` is the quotient of `n` by `size` when `n` lies in the `k`-th
      block of `size`. */
  lemma DivUnique(n: nat, size: nat, k: nat)
    requires size >= 1 && k * size <= n < k * size + size
    ensures n / size == k && n % size == n - k * size
  {
    var q, r := n / size, n % size;
    assert n == q * size + r && 0 <= r < size;
    MulAtLeastOne(q - k, size);
    assert (q - k) * size == q * size - k * size;
  }

  /** A non-zero multiple of `size` is at least `size` away from zero. */
  lemma MulAtLeastOne(d: int, size: nat)
    ensures d >= 1 ==> d * size >= size
    ensures d <= -1 ==> d * size + size <= 0
  {
    if d >= 1 {
      MulLe(1, d, size);
    } else if d <= -1 {
      MulLe(1, -d, size);
      assert (-d) * size == -(d * size);
    }
  }

  /** `query_all(sql, vals)` with page size `size` (100000 in the
      source): pages at offsets 0,
      size, 2 * size, ... are fetched and their rows yielded in order,
      until a page holds fewer than `size` rows.  Returns the rows and the
      offsets queried. */
  method QueryAll<T>(table: seq<T>, size: nat) returns (rows: seq<T>, queries: seq<nat>)
    requires size >= 1
    ensures rows == table
    ensures queries == Offsets(|table| / size + 1, size)
  {
    rows := [];
    queries := [];
    var start: nat := 0;
    ghost var k: nat := 0;
    var done := false;
    while !done
      invariant start == k * size && start <= |table|
      invariant !done ==> rows == table[..start] && queries == Offsets(k, size)
      invariant done ==> rows == table && queries == Offsets(|table| / size + 1, size)
      decreases |table| - start, if done then 0 else 1
    {
      var page := Page(table, start, size);
      var numRows := |page|;
      queries := queries + [start];
      assert queries == Offsets(k + 1, size);
      assert table[..start] + page == table[..start + numRows];
      rows := rows + page;
      if numRows < size {
        DivUnique(|table|, size, k);
        done := true;
      } else {
        assert (k + 1) * size == k * size + size;
        start := start + size;
        k := k + 1;
      }
    }
  }

  /** When the total is a whole number of pages, the last query asks for
      the rows past the end and gets none. */
  lemma ExtraEmptyQuery<T>(table: seq<T>, size: nat)
    requires size >= 1 && |table| % size == 0
    ensures var queries := Offsets(|table| / size + 1, size);
            queries[|queries| - 1] == |table| && Page(table, queries[|queries| - 1], size) == []
  {
    assert |table| == (|table| / size) * size + |table| % size;
  }

  /** Every query but the last returns a full page, and the last one
      returns the remainder. */
  lemma PagesFull<T>(table: seq<T>, size: nat, k: nat)
    requires size >= 1 && k <= |table| / size
    ensures |Page(table, k * size, size)| == (if k < |table| / size then size else |table| % size)
  {
    var q, r := |table| / size, |table| % size;
    assert |table| == q * size + r && r < size;
    if k < q {
      assert (k + 1) * size == k * size + size;
      MulLe(k + 1, q, size);
    }
  }

  /** The windows `query_with_moving_window` yields: every run of 24
      consecutive rows, in order. */
  function Windows<T>(rows: seq<T>): (r: seq<seq<T>>)
    ensures |r| == (if |rows| < 24 then 0 else |rows| - 23)
    ensures forall k :: 0 <= k < |r| ==> r[k] == rows[k..k + 24]
  {
    if |rows| < 24 then [] else seq(|rows| - 23, k requires 0 <= k < |rows| - 23 => rows[k..k + 24])
  }

  /** `collections.deque(..., maxlen).append(x)`: a full deque drops its
      leftmost element. */
  function Append<T>(deque: seq<T>, x: T, maxlen: nat): (r: seq<T>)
    requires |deque| <= maxlen
    ensures |r| <= maxlen
  {
    if |deque| < maxlen then deque + [x] else if maxlen == 0 then [] else deque[1..] + [x]
  }

  /** `query_with_moving_window(window_size, ...)`: each row is appended
      to a deque of at most `window_size` rows; once it holds 24 rows (a
      fixed count, whatever `window_size` is) it is yielded and its
      leftmost row popped.  A negative `window_size` raises `ValueError`. */
  method QueryWithMovingWindow<T>(windowSize: int, rows: seq<T>) returns (r: Result<seq<seq<T>>>)
    ensures windowSize < 0 ==> r == Err(ValueError)
    ensures 0 <= windowSize < 24 ==> r == Ok([])
    ensures windowSize >= 24 ==> r == Ok(Windows(rows))
  {
    if windowSize < 0 {
      return Err(ValueError);
    }
    var deque: seq<T> := [];
    var windows: seq<seq<T>> := [];
    var i := 0;
    while i < |rows|
      invariant i <= |rows| && |deque| <= windowSize
      invariant windowSize < 24 ==> windows == []
      invariant windowSize >= 24 ==> |deque| == Min(i, 23) && deque == rows[i - |deque|..i]
      invariant windowSize >= 24 ==> windows == Windows(rows[..i])
    {
      deque := Append(deque, rows[i], windowSize);
      if |deque| < 24 {
        assert windowSize >= 24 ==> i < 23 && |Windows(rows[..i + 1])| == 0 && deque == rows[..i + 1];
        i := i + 1;
        continue;
      }
      WindowsSnoc(rows, i);
      assert deque == rows[i - 23..i + 1];
      windows := windows + [deque];
      deque := deque[1..];
      i := i + 1;
    }
    assert rows[..i] == rows;
    return Ok(windows);
  }

  function Min(a: int, b: int): int { if a <= b then a else b }

  lemma WindowsSnoc<T>(rows: seq<T>, i: nat)
    requires 23 <= i < |rows|
    ensures Windows(rows[..i + 1]) == Windows(rows[..i]) + [rows[i - 23..i + 1]]
  {
    var w := Windows(rows[..i + 1]);
    var v := Windows(rows[..i]) + [rows[i - 23..i + 1]];
    assert |w| == |v|;
    forall k | 0 <= k < |w|
      ensures w[k] == v[k]
    {
      assert rows[..i + 1][k..k + 24] == rows[k..k + 24];
      if k < |w| - 1 {
        assert rows[..i][k..k + 24] == rows[k..k + 24];
      }
    }
  }

  /** Each window holds 24 rows, and each window is the previous one moved
      on by one row. */
  lemma WindowsSlide<T>(rows: seq<T>, k: nat)
    requires k + 1 < |Windows(rows)|
    ensures |Windows(rows)[k]| == 24
    ensures Windows(rows)[k + 1][..23] == Windows(rows)[k][1..]
  {
    assert Windows(rows)[k] == rows[k..k + 24];
    assert Windows(rows)[k + 1] == rows[k + 1..k + 25];
  }
}
