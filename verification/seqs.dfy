/** Order-preserving filtering and flattening of sequences
    (`Util.filter_items` and `Util.flatten`). */
module Seqs {
  import opened Basics

  /** The items of `xs` that satisfy `f`, in their original order. */
  function Filter<T>(f: T -> bool, xs: seq<T>): (r: seq<T>)
    ensures |r| <= |xs|
    ensures forall y :: y in r ==> y in xs && f(y)
    ensures forall y :: y in xs && f(y) ==> y in r
    decreases |xs|
  {
    if |xs| == 0 then []
    else
      var init := xs[..|xs| - 1];
      assert xs == init + [xs[|xs| - 1]];
      var kept := Filter(f, init);
      if f(xs[|xs| - 1]) then kept + [xs[|xs| - 1]] else kept
  }

  /** Filtering keeps every occurrence of a matching item and no occurrence
      of any other: the multiplicity of each item is its multiplicity in the
      input when it matches, and zero otherwise. */
  lemma {:induction false} FilterMultiplicity<T>(f: T -> bool, xs: seq<T>)
    ensures multiset(Filter(f, xs)) <= multiset(xs)
    ensures forall y :: y in multiset(xs) ==>
      multiset(Filter(f, xs))[y] == if f(y) then multiset(xs)[y] else 0
    decreases |xs|
  {
    if |xs| > 0 {
      var init := xs[..|xs| - 1];
      var last := xs[|xs| - 1];
      assert xs == init + [last];
      assert multiset(xs) == multiset(init) + multiset{last};
      FilterMultiplicity(f, init);
      var kept := Filter(f, init);
      if f(last) {
        assert multiset(kept + [last]) == multiset(kept) + multiset{last};
      }
    }
  }

  /** The positions of `xs` whose item satisfies `f`. */
  function MatchIndices<T>(f: T -> bool, xs: seq<T>): set<int>
  {
    set i | 0 <= i < |xs| && f(xs[i])
  }

  /** `filter_items`: an absent collection filters to the empty list; otherwise
      the matching items are kept, as many as there are matching positions. */
  function FilterItems<T>(f: T -> bool, x: Option<seq<T>>): (r: seq<T>)
    ensures x.None? ==> r == []
    ensures x.Some? ==> |r| == |MatchIndices(f, x.value)|
    ensures x.Some? ==> forall y :: y in r ==> y in x.value && f(y)
    ensures x.Some? ==> forall y :: y in x.value && f(y) ==> y in r
    ensures x.Some? ==> multiset(r) <= multiset(x.value)
    ensures x.Some? ==> forall y :: y in multiset(x.value) ==>
      multiset(r)[y] == if f(y) then multiset(x.value)[y] else 0
  {
    match x
    case None => []
    case Some(xs) =>
      FilterCount(f, xs);
      FilterMultiplicity(f, xs);
      Filter(f, xs)
  }

  /** Filtering keeps exactly one item per matching position. */
  lemma {:induction false} FilterCount<T>(f: T -> bool, xs: seq<T>)
    ensures |Filter(f, xs)| == |MatchIndices(f, xs)|
    decreases |xs|
  {
    if |xs| > 0 {
      FilterCount(f, xs[..|xs| - 1]);
      FilterLengthStep(f, xs);
      MatchIndicesStep(f, xs);
    }
  }

  /** Filtering one more item lengthens the result by one exactly when that
      item matches. */
  lemma FilterLengthStep<T>(f: T -> bool, xs: seq<T>)
    requires |xs| > 0
    ensures |Filter(f, xs)| == |Filter(f, xs[..|xs| - 1])| + if f(xs[|xs| - 1]) then 1 else 0
  {
  }

  /** One more item adds its position to the matching positions exactly when
      it matches. */
  lemma MatchIndicesStep<T>(f: T -> bool, xs: seq<T>)
    requires |xs| > 0
    ensures |MatchIndices(f, xs)| == |MatchIndices(f, xs[..|xs| - 1])| + if f(xs[|xs| - 1]) then 1 else 0
  {
    var n := |xs| - 1;
    var before := MatchIndices(f, xs[..n]);
    assert n !in before;
    if f(xs[n]) {
      assert MatchIndices(f, xs) == before + {n};
    } else {
      assert MatchIndices(f, xs) == before;
    }
  }

  /** Filtering distributes over concatenation, so the relative order of
      the kept items is the order of the input. */
  lemma {:induction false} FilterAppend<T>(f: T -> bool, a: seq<T>, b: seq<T>)
    ensures Filter(f, a + b) == Filter(f, a) + Filter(f, b)
    decreases |b|
  {
    if |b| > 0 {
      var n := |b| - 1;
      assert (a + b)[..|a + b| - 1] == a + b[..n];
      FilterAppend(f, a, b[..n]);
    } else {
      assert a + b == a;
    }
  }

  /** `flatten`: the concatenation of the inner sequences, in order. */
  function Flatten<T>(xss: seq<seq<T>>): (r: seq<T>)
    ensures forall x :: x in r ==> exists i :: 0 <= i < |xss| && x in xss[i]
    ensures forall i, x :: 0 <= i < |xss| && x in xss[i] ==> x in r
    ensures |xss| == 1 ==> r == xss[0]
    decreases |xss|
  {
    if |xss| == 0 then []
    else
      var init := xss[..|xss| - 1];
      var r := Flatten(init) + xss[|xss| - 1];
      assert forall i :: 0 <= i < |init| ==> init[i] == xss[i];
      r
  }

  /** Total length of the inner sequences, counted from the front. */
  function TotalLength<T>(xss: seq<seq<T>>): nat
    decreases |xss|
  {
    if |xss| == 0 then 0 else |xss[0]| + TotalLength(xss[1..])
  }

  /** Flattening distributes over concatenation of the outer sequence. */
  lemma {:induction false} FlattenAppend<T>(a: seq<seq<T>>, b: seq<seq<T>>)
    ensures Flatten(a + b) == Flatten(a) + Flatten(b)
    decreases |b|
  {
    if |b| > 0 {
      var n := |b| - 1;
      assert (a + b)[..|a + b| - 1] == a + b[..n];
      FlattenAppend(a, b[..n]);
    } else {
      assert a + b == a;
    }
  }

  /** The flattened sequence is exactly as long as all inner sequences together. */
  lemma {:induction false} FlattenLength<T>(xss: seq<seq<T>>)
    ensures |Flatten(xss)| == TotalLength(xss)
    decreases |xss|
  {
    if |xss| > 0 {
      FlattenLength(xss[1..]);
      FlattenAppend([xss[0]], xss[1..]);
      assert [xss[0]] + xss[1..] == xss;
      assert [xss[0]][..0] == [];
    }
  }
}
