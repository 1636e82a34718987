/** `pipe.py`: Unix-style pipelines of functions.  Iterators are finite
    sequences; `tee`'s printing is returned as the lines it prints. */
module Pipe {
  import opened Common

  function Identity<T>(): (T -> T) { x => x }

  /** `compose2(f, g)`: `f` after `g`. */
  function Compose2<T>(f: T -> T, g: T -> T): (T -> T) { x => f(g(x)) }

  /** `functools.reduce(compose2, fs, acc)`. */
  function Reduce<T>(fs: seq<T -> T>, acc: T -> T): (T -> T)
    decreases |fs|
  {
    if fs == [] then acc else Reduce(fs[1..], Compose2(acc, fs[0]))
  }

  /** `pipe(*fs)`: the list is reversed and folded with `compose2` from the
      identity. */
  function Pipe<T>(fs: seq<T -> T>): (T -> T)
  {
    Reduce(Reverse(fs), Identity())
  }

  /** The reference reading: apply the functions first to last. */
  function Apply<T>(fs: seq<T -> T>, x: T): T
    decreases |fs|
  {
    if fs == [] then x else Apply(fs[1..], fs[0](x))
  }

  /** Applying folded functions innermost last. */
  function Nest<T>(gs: seq<T -> T>, x: T): T
    decreases |gs|
  {
    if gs == [] then x else gs[0](Nest(gs[1..], x))
  }

  lemma {:induction false} ReduceNests<T>(gs: seq<T -> T>, acc: T -> T, x: T)
    ensures Reduce(gs, acc)(x) == acc(Nest(gs, x))
    decreases |gs|
  {
    if gs != [] {
      ReduceNests(gs[1..], Compose2(acc, gs[0]), x);
    }
  }

  lemma {:induction false} NestSnoc<T>(gs: seq<T -> T>, f: T -> T, x: T)
    ensures Nest(gs + [f], x) == Nest(gs, f(x))
    decreases |gs|
  {
    if gs != [] {
      assert (gs + [f])[1..] == gs[1..] + [f];
      NestSnoc(gs[1..], f, x);
    }
  }

  lemma {:induction false} NestReverse<T>(fs: seq<T -> T>, x: T)
    ensures Nest(Reverse(fs), x) == Apply(fs, x)
    decreases |fs|
  {
    if fs != [] {
      NestSnoc(Reverse(fs[1..]), fs[0], x);
      NestReverse(fs[1..], fs[0](x));
    }
  }

  /** `pipe(f1, ..., fn)(x) == fn(...f2(f1(x)))`: the functions apply first
      to last. */
  lemma PipeApplies<T>(fs: seq<T -> T>, x: T)
    ensures Pipe(fs)(x) == Apply(fs, x)
  {
    ReduceNests(Reverse(fs), Identity(), x);
    NestReverse(fs, x);
  }

  /** `pipe()` is the identity. */
  lemma PipeEmpty<T>(x: T)
    ensures Pipe<T>([])(x) == x
  {
    PipeApplies<T>([], x);
  }

  /** Piping two pipelines one after the other is one pipeline. */
  lemma {:induction false} ApplyAppend<T>(fs: seq<T -> T>, gs: seq<T -> T>, x: T)
    ensures Apply(fs + gs, x) == Apply(gs, Apply(fs, x))
    decreases |fs|
  {
    if fs != [] {
      assert (fs + gs)[1..] == fs[1..] + gs;
      ApplyAppend(fs[1..], gs, fs[0](x));
    } else {
      assert fs + gs == gs;
    }
  }

  lemma PipeAppend<T>(fs: seq<T -> T>, gs: seq<T -> T>, x: T)
    ensures Pipe(fs + gs)(x) == Pipe(gs)(Pipe(fs)(x))
  {
    PipeApplies(fs + gs, x);
    PipeApplies(fs, x);
    PipeApplies(gs, Apply(fs, x));
    ApplyAppend(fs, gs, x);
  }

  /** `mapiter`: `func` of each element, in order. */
  function MapIter<A, B>(source: seq<A>, func: A -> B): (r: seq<B>)
    decreases |source|
  {
    if source == [] then [] else [func(source[0])] + MapIter(source[1..], func)
  }

  lemma {:induction false} MapIterIndex<A, B>(source: seq<A>, func: A -> B)
    ensures |MapIter(source, func)| == |source|
    ensures forall k :: 0 <= k < |source| ==> MapIter(source, func)[k] == func(source[k])
    decreases |source|
  {
    if source != [] {
      MapIterIndex(source[1..], func);
      assert forall k :: 1 <= k < |source| ==> source[1..][k - 1] == source[k];
    }
  }

  /** Two `mapiter`s in a row are one with the composed function. */
  lemma {:induction false} MapIterFuse<A, B, C>(source: seq<A>, f: A -> B, g: B -> C)
    ensures MapIter(MapIter(source, f), g) == MapIter(source, x => g(f(x)))
    decreases |source|
  {
    if source != [] {
      MapIterFuse(source[1..], f, g);
    }
  }

  /** `tee`: the elements pass through unchanged and in order; the lines
      printed are the prefix and each element's text. */
  function Tee<T>(source: seq<T>, prefix: string, stringify: T -> string): (r: (seq<T>, seq<string>))
    decreases |source|
  {
    if source == [] then ([], [])
    else
      var rest := Tee(source[1..], prefix, stringify);
      ([source[0]] + rest.0, [prefix + stringify(source[0])] + rest.1)
  }

  lemma {:induction false} TeePassesThrough<T>(source: seq<T>, prefix: string, stringify: T -> string)
    ensures Tee(source, prefix, stringify).0 == source
    ensures |Tee(source, prefix, stringify).1| == |source|
    ensures forall k :: 0 <= k < |source| ==> Tee(source, prefix, stringify).1[k] == prefix + stringify(source[k])
    decreases |source|
  {
    if source != [] {
      TeePassesThrough(source[1..], prefix, stringify);
      assert source == [source[0]] + source[1..];
      assert forall k :: 1 <= k < |source| ==> source[1..][k - 1] == source[k];
    }
  }

  /** `exhaust`: every element is taken, then the message is returned. */
  method Exhaust<T>(source: seq<T>) returns (msg: string, taken: nat)
    ensures msg == "Iteration is exhausted" && taken == |source|
  {
    taken := 0;
    while taken < |source|
      invariant taken <= |source|
    {
      taken := taken + 1;
    }
    msg := "Iteration is exhausted";
  }

  lemma Apply3<T>(f: T -> T, g: T -> T, h: T -> T, x: T)
    ensures Apply([f, g, h], x) == h(g(f(x)))
  {
    var fs := [f, g, h];
    assert fs[1..] == [g, h] && fs[1..][1..] == [h] && fs[1..][1..][1..] == [];
    calc {
      Apply(fs, x);
      Apply([g, h], f(x));
      Apply([h], g(f(x)));
      Apply([], h(g(f(x))));
    }
  }

  /** `mapiter` over three elements. */
  lemma MapIter3<A, B>(a: A, b: A, c: A, func: A -> B)
    ensures MapIter([a, b, c], func) == [func(a), func(b), func(c)]
  {
    MapIterIndex([a, b, c], func);
  }

  function Square(s: seq<int>): seq<int> { MapIter(s, x => x * x) }
  function Increment(s: seq<int>): seq<int> { MapIter(s, x => x + 1) }

  /** `g1 = pipe(f, f1, f2)` of `testpipe1`: square, then increment. */
  lemma SquareThenIncrement(f: seq<int> -> seq<int>, x: seq<int>)
    requires forall y :: f(y) == [1, 2, 3]
    ensures Pipe([f, Square, Increment])(x) == [2, 5, 10]
  {
    PipeApplies([f, Square, Increment], x);
    Apply3(f, Square, Increment, x);
    MapIter3(1, 2, 3, x => x * x);
    assert Square(f(x)) == [1, 4, 9];
    MapIter3(1, 4, 9, x => x + 1);
  }

  /** `g2 = pipe(f, f2, f1)` of `testpipe1`: increment, then square. */
  lemma IncrementThenSquare(f: seq<int> -> seq<int>, x: seq<int>)
    requires forall y :: f(y) == [1, 2, 3]
    ensures Pipe([f, Increment, Square])(x) == [4, 9, 16]
  {
    PipeApplies([f, Increment, Square], x);
    Apply3(f, Increment, Square, x);
    MapIter3(1, 2, 3, x => x + 1);
    assert Increment(f(x)) == [2, 3, 4];
    MapIter3(2, 3, 4, x => x * x);
  }

  /** `testpipe1`: with `f` returning `[1, 2, 3]`, the order of the stages
      decides the result. */
  lemma TestPipe1(f: seq<int> -> seq<int>, x: seq<int>)
    requires forall y :: f(y) == [1, 2, 3]
    ensures Pipe([f, Square, Increment])(x) != Pipe([f, Increment, Square])(x)
  {
    SquareThenIncrement(f, x);
    IncrementThenSquare(f, x);
    assert [2, 5, 10][0] != [4, 9, 16][0];
  }
}
