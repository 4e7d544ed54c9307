/** Sequence operations shared by the components: JavaScript's `filter`, `find`,
    `concat` and the first-occurrence order of a `Set` built from an array. */
module Seqs {

  import opened Wrappers

  /** No element occurs twice. */
  ghost predicate NoDuplicates<T>(s: seq<T>) {
    forall i, j :: 0 <= i < j < |s| ==> s[i] != s[j]
  }

  /** `idx` lists, in strictly increasing order, the positions of `s` whose
      elements make up `r`: `r` is an order-preserving subsequence of `s`. */
  ghost predicate Embeds<T>(idx: seq<nat>, r: seq<T>, s: seq<T>) {
    && |idx| == |r|
    && (forall i :: 0 <= i < |idx| ==> idx[i] < |s| && s[idx[i]] == r[i])
    && (forall i, j :: 0 <= i < j < |idx| ==> idx[i] < idx[j])
  }

  // ---------------------------------------------------------------------------
  // Array.prototype.filter

  /** The elements of `s` that satisfy `p`, in their original order. Each value
      keeps its multiplicity when it satisfies `p` and disappears otherwise. */
  function Filter<T(!new)>(s: seq<T>, p: T -> bool): (r: seq<T>)
    ensures |r| <= |s|
    ensures forall x :: x in r <==> x in s && p(x)
  {
    if s == [] then []
    else
      assert s == [s[0]] + s[1..];
      (if p(s[0]) then [s[0]] else []) + Filter(s[1..], p)
  }

  /** The positions k.. of `s` whose elements satisfy `p`, in increasing order. */
  function Positions<T(!new)>(s: seq<T>, p: T -> bool, k: nat): seq<nat>
    requires k <= |s|
    decreases |s| - k
  {
    if k == |s| then [] else (if p(s[k]) then [k] else []) + Positions(s, p, k + 1)
  }

  lemma {:induction false} PositionsRange<T(!new)>(s: seq<T>, p: T -> bool, k: nat)
    requires k <= |s|
    ensures forall i :: 0 <= i < |Positions(s, p, k)| ==> k <= Positions(s, p, k)[i] < |s|
    ensures forall i, j :: 0 <= i < j < |Positions(s, p, k)| ==> Positions(s, p, k)[i] < Positions(s, p, k)[j]
    ensures forall i :: k <= i < |s| ==> (i in Positions(s, p, k) <==> p(s[i]))
    decreases |s| - k
  {
    if k < |s| {
      PositionsRange(s, p, k + 1);
    }
  }

  lemma {:induction false} PositionsEmbedFilter<T(!new)>(s: seq<T>, p: T -> bool, k: nat)
    requires k <= |s|
    ensures |Positions(s, p, k)| == |Filter(s[k..], p)|
    ensures forall i :: 0 <= i < |Positions(s, p, k)| ==>
              Positions(s, p, k)[i] < |s| && s[Positions(s, p, k)[i]] == Filter(s[k..], p)[i]
    decreases |s| - k
  {
    if k < |s| {
      PositionsEmbedFilter(s, p, k + 1);
      var rest, tail := Positions(s, p, k + 1), Filter(s[k + 1..], p);
      assert s[k..] == [s[k]] + s[k + 1..];
      if p(s[k]) {
        assert Positions(s, p, k) == [k] + rest;
        assert Filter(s[k..], p) == [s[k]] + tail;
        EmbedCons(s, k, rest, tail);
      } else {
        assert Positions(s, p, k) == rest;
        assert Filter(s[k..], p) == tail;
      }
    }
  }

  /** Putting position `k` in front of an embedding puts `s[k]` in front of
      what it embeds. */
  lemma EmbedCons<T>(s: seq<T>, k: nat, rest: seq<nat>, tail: seq<T>)
    requires k < |s| && |rest| == |tail|
    requires forall i :: 0 <= i < |rest| ==> rest[i] < |s| && s[rest[i]] == tail[i]
    ensures forall i :: 0 <= i < |[k] + rest| ==> ([k] + rest)[i] < |s| && s[([k] + rest)[i]] == ([s[k]] + tail)[i]
  {
    forall i | 0 <= i < |[k] + rest|
      ensures ([k] + rest)[i] < |s| && s[([k] + rest)[i]] == ([s[k]] + tail)[i]
    {
      if i > 0 {
        assert ([k] + rest)[i] == rest[i - 1] && ([s[k]] + tail)[i] == tail[i - 1];
      }
    }
  }

  /** `filter` keeps exactly the positions whose element satisfies `p`, in
      their original order. */
  lemma FilterSelects<T(!new)>(s: seq<T>, p: T -> bool)
    ensures exists idx :: Embeds(idx, Filter(s, p), s)
                          && forall i :: 0 <= i < |s| ==> (i in idx <==> p(s[i]))
  {
    PositionsEmbedFilter(s, p, 0);
    PositionsRange(s, p, 0);
    assert s[0..] == s;
    var idx := Positions(s, p, 0);
    assert Embeds(idx, Filter(s, p), s);
  }

  /** Every value keeps its multiplicity when it satisfies `p` and disappears
      otherwise. */
  lemma {:induction false} FilterCount<T(!new)>(s: seq<T>, p: T -> bool)
    ensures forall x :: multiset(Filter(s, p))[x] == if p(x) then multiset(s)[x] else 0
  {
    if s != [] {
      FilterCount(s[1..], p);
      assert s == [s[0]] + s[1..];
      assert Filter(s, p) == (if p(s[0]) then [s[0]] else []) + Filter(s[1..], p);
    }
  }

  /** Filtering by `p` and by its negation splits `s` into two disjoint parts
      whose sizes add up to `|s|`. */
  lemma FilterPartition<T(!new)>(s: seq<T>, p: T -> bool, q: T -> bool)
    requires forall x :: q(x) == !p(x)
    ensures multiset(Filter(s, p)) + multiset(Filter(s, q)) == multiset(s)
    ensures |Filter(s, p)| + |Filter(s, q)| == |s|
    ensures forall x :: !(x in Filter(s, p) && x in Filter(s, q))
  {
    FilterCount(s, p);
    FilterCount(s, q);
    var a, b := multiset(Filter(s, p)), multiset(Filter(s, q));
    assert forall x :: (a + b)[x] == multiset(s)[x];
    assert a + b == multiset(s);
    assert |a + b| == |a| + |b|;
  }

  /** A filter whose predicate holds of every element keeps the whole sequence. */
  lemma {:induction false} FilterKeepsAll<T(!new)>(s: seq<T>, p: T -> bool)
    requires forall x :: x in s ==> p(x)
    ensures Filter(s, p) == s
  {
    if s != [] {
      FilterKeepsAll(s[1..], p);
    }
  }

  /** Filters whose predicates agree on every element of `s` select the same. */
  lemma {:induction false} FilterExt<T(!new)>(s: seq<T>, p: T -> bool, q: T -> bool)
    requires forall x :: x in s ==> p(x) == q(x)
    ensures Filter(s, p) == Filter(s, q)
  {
    if s != [] {
      assert forall x :: x in s[1..] ==> x in s;
      FilterExt(s[1..], p, q);
    }
  }

  // ---------------------------------------------------------------------------
  // Array.prototype.find / findIndex

  /** The first position whose element satisfies `p`. */
  function FindIndex<T>(s: seq<T>, p: T -> bool): (r: Option<nat>)
    ensures r.Some? ==> r.value < |s| && p(s[r.value]) && forall j :: 0 <= j < r.value ==> !p(s[j])
    ensures r.None? ==> forall j :: 0 <= j < |s| ==> !p(s[j])
  {
    if s == [] then None
    else if p(s[0]) then Some(0)
    else match FindIndex(s[1..], p)
         case None => None
         case Some(i) => Some(i + 1)
  }

  /** `s.find(p)`: the first element that satisfies `p`. */
  function Find<T>(s: seq<T>, p: T -> bool): (r: Option<T>)
    ensures r.Some? <==> exists x :: x in s && p(x)
    ensures r.Some? ==> exists i :: 0 <= i < |s| && s[i] == r.value && p(s[i])
                                   && forall j :: 0 <= j < i ==> !p(s[j])
  {
    match FindIndex(s, p)
    case None => None
    case Some(i) => Some(s[i])
  }

  // ---------------------------------------------------------------------------
  // The first value a scan yields, stopping there (a loop with `break`)

  /** The first `Some` that `f` yields along `xs`. */
  function FirstSome<A, B>(xs: seq<A>, f: A -> Option<B>): (r: Option<B>)
    ensures r.Some? ==> exists i :: 0 <= i < |xs| && f(xs[i]) == r
  {
    if xs == [] then None
    else if f(xs[0]).Some? then f(xs[0])
    else
      var r := FirstSome(xs[1..], f);
      assert r.Some? ==> exists i :: 1 <= i < |xs| && f(xs[i]) == r by {
        if r.Some? {
          var i :| 0 <= i < |xs[1..]| && f(xs[1..][i]) == r;
          assert xs[i + 1] == xs[1..][i];
        }
      }
      r
  }

  /** The scan yields what the earliest yielding element yields, and nothing
      iff no element yields anything. */
  lemma {:induction false} FirstSomeIsFirst<A, B>(xs: seq<A>, f: A -> Option<B>)
    ensures forall j :: 0 <= j < |xs| && f(xs[j]).Some? && (forall i :: 0 <= i < j ==> f(xs[i]).None?) ==>
              FirstSome(xs, f) == f(xs[j])
    ensures FirstSome(xs, f).None? <==> forall i :: 0 <= i < |xs| ==> f(xs[i]).None?
  {
    if xs != [] {
      var rest := xs[1..];
      FirstSomeIsFirst(rest, f);
      assert forall i :: 1 <= i < |xs| ==> xs[i] == rest[i - 1];
      forall j | 0 <= j < |xs| && f(xs[j]).Some? && (forall i :: 0 <= i < j ==> f(xs[i]).None?)
        ensures FirstSome(xs, f) == f(xs[j])
      {
        if j > 0 {
          assert f(xs[0]).None?;
          assert forall i :: 0 <= i < j - 1 ==> f(rest[i]).None?;
        }
      }
    }
  }

  // ---------------------------------------------------------------------------
  // Concatenation of pages, built left to right as a loop does

  function Flatten<T>(pages: seq<seq<T>>): seq<T> {
    if pages == [] then [] else Flatten(pages[..|pages| - 1]) + pages[|pages| - 1]
  }

  lemma {:induction false} FlattenLengthAtLeast<T>(pages: seq<seq<T>>, bound: nat)
    requires forall i :: 0 <= i < |pages| ==> |pages[i]| >= bound
    ensures |Flatten(pages)| >= bound * |pages|
  {
    if pages != [] {
      FlattenLengthAtLeast(pages[..|pages| - 1], bound);
    }
  }

  // ---------------------------------------------------------------------------
  // [...new Set(s)]: distinct values in order of first occurrence

  function Distinct<T(==,!new)>(s: seq<T>): (r: seq<T>)
    ensures forall x :: x in r <==> x in s
    ensures NoDuplicates(r)
    ensures |r| <= |s|
  {
    if s == [] then []
    else
      var prefix := s[..|s| - 1];
      var last := s[|s| - 1];
      assert s == prefix + [last];
      if last in prefix then Distinct(prefix) else Distinct(prefix) + [last]
  }

  /** Appending a value adds it to the distinct values unless already there. */
  lemma DistinctSnoc<T(!new)>(s: seq<T>, x: T)
    ensures Distinct(s + [x]) == if x in s then Distinct(s) else Distinct(s) + [x]
  {
    assert (s + [x])[..|s + [x]| - 1] == s;
  }

  /** The positions at which values of `s` occur for the first time. */
  function FirstPositions<T(==,!new)>(s: seq<T>): seq<nat> {
    if s == [] then []
    else if s[|s| - 1] in s[..|s| - 1] then FirstPositions(s[..|s| - 1])
    else FirstPositions(s[..|s| - 1]) + [|s| - 1]
  }

  /** `Distinct(s)` is the subsequence of `s` made of first occurrences: each of
      its elements is taken at a position where it has not occurred before. */
  lemma {:induction false} DistinctFirstOccurrences<T(!new)>(s: seq<T>)
    ensures Embeds(FirstPositions(s), Distinct(s), s)
    ensures forall i :: 0 <= i < |FirstPositions(s)| ==> s[FirstPositions(s)[i]] !in s[..FirstPositions(s)[i]]
  {
    if s != [] {
      var prefix := s[..|s| - 1];
      DistinctFirstOccurrences(prefix);
      var fp := FirstPositions(prefix);
      forall i | 0 <= i < |fp|
        ensures fp[i] < |prefix| && s[fp[i]] == prefix[fp[i]] && s[..fp[i]] == prefix[..fp[i]]
      {
      }
    }
  }
}
