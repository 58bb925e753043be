/** Sequence combinators standing for the LINQ pipelines and `foreach` loops
    of the services. */
module Seqs {
  import opened Wrappers

  /** The elements of `xs` that satisfy `p`, in their original order
      (LINQ `Where`). */
  function Filter<T>(xs: seq<T>, p: T -> bool): (r: seq<T>)
    ensures |r| <= |xs|
    ensures forall i :: 0 <= i < |r| ==> p(r[i]) && r[i] in xs
    ensures forall i :: 0 <= i < |xs| && p(xs[i]) ==> xs[i] in r
    ensures (forall i :: 0 <= i < |xs| ==> p(xs[i])) ==> r == xs
  {
    if xs == [] then [] else (if p(xs[0]) then [xs[0]] else []) + Filter(xs[1..], p)
  }

  /** `idx` picks out `r` from `xs`: strictly increasing positions of `xs`,
      holding the elements of `r` in turn, which are exactly the positions
      whose element satisfies `p`. */
  ghost predicate IsSelection<T>(idx: seq<int>, r: seq<T>, xs: seq<T>, p: T -> bool) {
    |idx| == |r|
    && (forall k :: 0 <= k < |idx| ==> 0 <= idx[k] < |xs| && xs[idx[k]] == r[k] && p(r[k]))
    && (forall k, l :: 0 <= k < l < |idx| ==> idx[k] < idx[l])
    && (forall j :: 0 <= j < |xs| && p(xs[j]) ==> j in idx)
  }

  /** `r` is the subsequence of `xs` made of the elements satisfying `p`,
      in their original order. */
  ghost predicate SelectsInOrder<T>(r: seq<T>, xs: seq<T>, p: T -> bool) {
    exists idx: seq<int> :: IsSelection(idx, r, xs, p)
  }

  /** Every position one further on. */
  function Shifted(idx: seq<int>): (r: seq<int>)
    ensures |r| == |idx| && forall k :: 0 <= k < |idx| ==> r[k] == idx[k] + 1
  {
    seq(|idx|, k requires 0 <= k < |idx| => idx[k] + 1)
  }

  /** The positions `Filter` keeps. */
  function FilterIndices<T>(xs: seq<T>, p: T -> bool): seq<int> {
    if xs == [] then []
    else (if p(xs[0]) then [0] else []) + Shifted(FilterIndices(xs[1..], p))
  }

  /** `Filter` selects exactly the elements satisfying `p`, in order, and
      `FilterIndices` says where they came from. */
  lemma {:induction false} FilterSelects<T>(xs: seq<T>, p: T -> bool)
    ensures IsSelection(FilterIndices(xs, p), Filter(xs, p), xs, p)
    ensures SelectsInOrder(Filter(xs, p), xs, p)
  {
    if xs != [] {
      FilterSelects(xs[1..], p);
      SelectionCons(xs, FilterIndices(xs[1..], p), Filter(xs[1..], p), p);
    }
  }

  /** A selection from the tail of `xs` extends to one from `xs`. */
  lemma SelectionCons<T>(xs: seq<T>, rest: seq<int>, tailR: seq<T>, p: T -> bool)
    requires xs != [] && IsSelection(rest, tailR, xs[1..], p)
    ensures IsSelection((if p(xs[0]) then [0] else []) + Shifted(rest), (if p(xs[0]) then [xs[0]] else []) + tailR, xs, p)
  {
    var head := if p(xs[0]) then [0] else [];
    var idx := head + Shifted(rest);
    var r := (if p(xs[0]) then [xs[0]] else []) + tailR;
    SelectionConsElements(xs, rest, tailR, p);
    SelectionConsOrdered(xs, rest, tailR, p);
    SelectionConsComplete(xs, rest, tailR, p);
  }

  lemma SelectionConsElements<T>(xs: seq<T>, rest: seq<int>, tailR: seq<T>, p: T -> bool)
    requires xs != [] && IsSelection(rest, tailR, xs[1..], p)
    ensures var idx, r := (if p(xs[0]) then [0] else []) + Shifted(rest), (if p(xs[0]) then [xs[0]] else []) + tailR;
      |idx| == |r| && forall k :: 0 <= k < |idx| ==> 0 <= idx[k] < |xs| && xs[idx[k]] == r[k] && p(r[k])
  {
    var head := if p(xs[0]) then [0] else [];
    var idx := head + Shifted(rest);
    var r := (if p(xs[0]) then [xs[0]] else []) + tailR;
    forall k | 0 <= k < |idx|
      ensures 0 <= idx[k] < |xs| && xs[idx[k]] == r[k] && p(r[k])
    {
      if k >= |head| {
        var m := k - |head|;
        assert idx[k] == rest[m] + 1;
        assert r[k] == tailR[m];
        assert xs[idx[k]] == xs[1..][rest[m]];
      }
    }
  }

  lemma SelectionConsOrdered<T>(xs: seq<T>, rest: seq<int>, tailR: seq<T>, p: T -> bool)
    requires xs != [] && IsSelection(rest, tailR, xs[1..], p)
    ensures var idx := (if p(xs[0]) then [0] else []) + Shifted(rest);
      forall k, l :: 0 <= k < l < |idx| ==> idx[k] < idx[l]
  {
    var head := if p(xs[0]) then [0] else [];
    var idx := head + Shifted(rest);
    forall k, l | 0 <= k < l < |idx|
      ensures idx[k] < idx[l]
    {
      assert idx[l] == rest[l - |head|] + 1;
      if k >= |head| {
        assert idx[k] == rest[k - |head|] + 1;
      } else {
        assert 0 <= rest[l - |head|];
      }
    }
  }

  lemma SelectionConsComplete<T>(xs: seq<T>, rest: seq<int>, tailR: seq<T>, p: T -> bool)
    requires xs != [] && IsSelection(rest, tailR, xs[1..], p)
    ensures var idx := (if p(xs[0]) then [0] else []) + Shifted(rest);
      forall j :: 0 <= j < |xs| && p(xs[j]) ==> j in idx
  {
    var head := if p(xs[0]) then [0] else [];
    var idx := head + Shifted(rest);
    forall j | 0 <= j < |xs| && p(xs[j])
      ensures j in idx
    {
      if j > 0 {
        assert xs[1..][j - 1] == xs[j];
        assert j - 1 in rest;
        var m :| 0 <= m < |rest| && rest[m] == j - 1;
        assert idx[|head| + m] == j;
      } else {
        assert idx[0] == 0;
      }
    }
  }

  /** A selection fixes its result: whatever `SelectsInOrder` admits is
      `Filter`'s result. */
  lemma SelectsInOrderIsFilter<T>(r: seq<T>, xs: seq<T>, p: T -> bool)
    requires SelectsInOrder(r, xs, p)
    ensures r == Filter(xs, p)
  {
    var a :| IsSelection(a, r, xs, p);
    FilterSelects(xs, p);
    SelectionUnique(a, FilterIndices(xs, p), r, Filter(xs, p), xs, p);
  }

  lemma SelectionUnique<T>(a: seq<int>, b: seq<int>, r: seq<T>, s: seq<T>, xs: seq<T>, p: T -> bool)
    requires IsSelection(a, r, xs, p) && IsSelection(b, s, xs, p)
    ensures r == s
  {
    SelectionPositions(a, r, xs, p);
    SelectionPositions(b, s, xs, p);
    assert Increasing(a) && Increasing(b);
    IncreasingSameElements(a, b);
    forall k | 0 <= k < |r| ensures r[k] == s[k] {
      assert xs[a[k]] == r[k] && xs[b[k]] == s[k];
    }
  }

  /** The positions of a selection are those whose element satisfies `p`. */
  lemma SelectionPositions<T>(a: seq<int>, r: seq<T>, xs: seq<T>, p: T -> bool)
    requires IsSelection(a, r, xs, p)
    ensures forall j :: j in a <==> 0 <= j < |xs| && p(xs[j])
  {
    forall j | j in a ensures 0 <= j < |xs| && p(xs[j]) {
      var k :| 0 <= k < |a| && a[k] == j;
      assert xs[a[k]] == r[k];
    }
  }

  ghost predicate Increasing(a: seq<int>) {
    forall k, l :: 0 <= k < l < |a| ==> a[k] < a[l]
  }

  /** Two strictly increasing sequences with the same elements are equal. */
  lemma {:induction false} IncreasingSameElements(a: seq<int>, b: seq<int>)
    requires Increasing(a) && Increasing(b)
    requires forall j :: j in a <==> j in b
    ensures a == b
    decreases |a|
  {
    HeadsAreShared(a, b);
    if a != [] && b != [] {
      IncreasingHeads(a, b);
      IncreasingTails(a, b);
      IncreasingSameElements(a[1..], b[1..]);
      assert a == [a[0]] + a[1..];
      assert b == [b[0]] + b[1..];
    }
  }

  lemma HeadsAreShared(a: seq<int>, b: seq<int>)
    requires forall j :: j in a <==> j in b
    ensures a != [] ==> a[0] in b
    ensures b != [] ==> b[0] in a
  {
    if a != [] {
      var x := a[0];
      assert x in a;
      assert x in b;
    }
    if b != [] {
      var x := b[0];
      assert x in b;
      assert x in a;
    }
  }

  /** The least element comes first. */
  lemma IncreasingHeads(a: seq<int>, b: seq<int>)
    requires a != [] && b != [] && Increasing(a) && Increasing(b)
    requires forall j :: j in a <==> j in b
    ensures a[0] == b[0]
  {
    assert a[0] in a && b[0] in b;
    var i :| 0 <= i < |b| && b[i] == a[0];
    var m :| 0 <= m < |a| && a[m] == b[0];
  }

  /** Dropping the common least element keeps the elements equal. */
  lemma IncreasingTails(a: seq<int>, b: seq<int>)
    requires a != [] && b != [] && Increasing(a) && Increasing(b) && a[0] == b[0]
    requires forall j :: j in a <==> j in b
    ensures Increasing(a[1..]) && Increasing(b[1..])
    ensures forall j :: j in a[1..] <==> j in b[1..]
  {
    assert Increasing(a[1..]) by {
      forall k, l | 0 <= k < l < |a[1..]| ensures a[1..][k] < a[1..][l] {
        assert a[1..][k] == a[k + 1] && a[1..][l] == a[l + 1];
      }
    }
    assert Increasing(b[1..]) by {
      forall k, l | 0 <= k < l < |b[1..]| ensures b[1..][k] < b[1..][l] {
        assert b[1..][k] == b[k + 1] && b[1..][l] == b[l + 1];
      }
    }
    forall j ensures j in a[1..] ==> j in b[1..] {
      if j in a[1..] {
        TailMember(a, b, j);
      }
    }
    forall j ensures j in b[1..] ==> j in a[1..] {
      if j in b[1..] {
        TailMember(b, a, j);
      }
    }
  }

  lemma TailMember(a: seq<int>, b: seq<int>, j: int)
    requires a != [] && b != [] && Increasing(a) && Increasing(b) && a[0] == b[0]
    requires forall j :: j in a <==> j in b
    requires j in a[1..]
    ensures j in b[1..]
  {
    var k :| 0 <= k < |a[1..]| && a[1..][k] == j;
    assert a[k + 1] == j && a[0] < a[k + 1];
    assert j in a;
    var i :| 0 <= i < |b| && b[i] == j;
    assert i != 0;
    assert b[1..][i - 1] == j;
  }

  /** An element that fails `p` is dropped. */
  lemma FilterSkip<T>(xs: seq<T>, p: T -> bool)
    requires xs != [] && !p(xs[0])
    ensures Filter(xs, p) == Filter(xs[1..], p)
  {
    assert Filter(xs, p) == [] + Filter(xs[1..], p);
  }

  /** `Filter` keeps the relative order: filtering a concatenation is the
      concatenation of the filtered parts. */
  lemma {:induction false} FilterConcat<T>(a: seq<T>, b: seq<T>, p: T -> bool)
    ensures Filter(a + b, p) == Filter(a, p) + Filter(b, p)
  {
    if a == [] {
      assert a + b == b;
    } else {
      assert (a + b)[1..] == a[1..] + b;
      FilterConcat(a[1..], b, p);
    }
  }

  /** Applies `f` to every element, left to right; the first failure aborts
      the whole computation (a `foreach` or a materialised `Select` whose
      body throws). */
  function MapAll<A, B, E>(xs: seq<A>, f: A -> Result<B, E>): (r: Result<seq<B>, E>)
    ensures r.Success? <==> forall i :: 0 <= i < |xs| ==> f(xs[i]).Success?
    ensures r.Success? ==> |r.value| == |xs| && forall i :: 0 <= i < |xs| ==> f(xs[i]) == Success(r.value[i])
    ensures r.Failure? ==>
      exists k :: 0 <= k < |xs| && f(xs[k]) == Failure(r.error) && forall j :: 0 <= j < k ==> f(xs[j]).Success?
  {
    if xs == [] then Success([])
    else
      match f(xs[0])
      case Failure(e) => Failure(e)
      case Success(y) =>
        match MapAll(xs[1..], f)
        case Failure(e) =>
          assert forall j :: 1 <= j < |xs| ==> xs[1..][j - 1] == xs[j];
          Failure(e)
        case Success(ys) =>
          Success([y] + ys)
  }

  /** When every element before index `i` succeeds and element `i` fails,
      the whole map fails with element `i`'s error. */
  lemma MapAllFirstFailure<A, B, E>(xs: seq<A>, f: A -> Result<B, E>, i: nat)
    requires i < |xs| && f(xs[i]).Failure?
    requires forall j :: 0 <= j < i ==> f(xs[j]).Success?
    ensures MapAll(xs, f) == Failure(f(xs[i]).error)
  {
    var r := MapAll(xs, f);
    var k :| 0 <= k < |xs| && f(xs[k]) == Failure(r.error) && forall j :: 0 <= j < k ==> f(xs[j]).Success?;
    assert k == i;
  }

  /** When every element succeeds, the map yields the values in order. */
  lemma MapAllSuccess<A, B, E>(xs: seq<A>, f: A -> Result<B, E>, ys: seq<B>)
    requires |ys| == |xs| && forall j :: 0 <= j < |xs| ==> f(xs[j]) == Success(ys[j])
    ensures MapAll(xs, f) == Success(ys)
  {
    assert MapAll(xs, f).value == ys;
  }

  /** On a single element, the map is that element's result. */
  lemma MapAllSingle<A, B, E>(x: A, f: A -> Result<B, E>)
    ensures MapAll([x], f) == match f(x) case Success(y) => Success([y]) case Failure(e) => Failure(e)
  {
    assert [x][0] == x && [x][1..] == [];
    assert MapAll([x][1..], f) == Success([]);
    match f(x)
    case Success(y) =>
      assert [y] + [] == [y];
    case Failure(_) =>
  }

  /** Extending a successful prefix by one successful element. */
  lemma MapAllExtend<A, B, E>(xs: seq<A>, f: A -> Result<B, E>, i: nat, ys: seq<B>)
    requires i < |xs| && MapAll(xs[..i], f) == Success(ys) && f(xs[i]).Success?
    ensures MapAll(xs[..i + 1], f) == Success(ys + [f(xs[i]).value])
  {
    var zs := ys + [f(xs[i]).value];
    forall j | 0 <= j < i + 1
      ensures f(xs[..i + 1][j]) == Success(zs[j])
    {
      if j < i {
        assert xs[..i + 1][j] == xs[..i][j];
      }
    }
    MapAllSuccess(xs[..i + 1], f, zs);
  }

  /** A successful prefix followed by a failing element: the whole map fails
      with that element's error. */
  lemma MapAllStopsAt<A, B, E>(xs: seq<A>, f: A -> Result<B, E>, i: nat)
    requires i < |xs| && MapAll(xs[..i], f).Success? && f(xs[i]).Failure?
    ensures MapAll(xs, f) == Failure(f(xs[i]).error)
  {
    forall j | 0 <= j < i
      ensures f(xs[j]).Success?
    {
      assert xs[..i][j] == xs[j];
    }
    MapAllFirstFailure(xs, f, i);
  }

  /** The `foreach` loop that `MapAll` specifies: applies `f` to each
      element in order, appending the values, and returns at the first
      failure. */
  method MapEach<A, B, E>(xs: seq<A>, f: A -> Result<B, E>) returns (r: Result<seq<B>, E>)
    ensures r == MapAll(xs, f)
  {
    var ys: seq<B> := [];
    var i := 0;
    while i < |xs|
      invariant 0 <= i <= |xs|
      invariant MapAll(xs[..i], f) == Success(ys)
    {
      var y := f(xs[i]);
      if y.Failure? {
        MapAllStopsAt(xs, f, i);
        return Failure(y.error);
      }
      MapAllExtend(xs, f, i, ys);
      ys := ys + [y.value];
      i := i + 1;
    }
    assert xs[..i] == xs;
    return Success(ys);
  }
}
