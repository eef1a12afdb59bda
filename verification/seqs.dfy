/** Order-preserving list helpers that mirror `Array.prototype.filter`, `find`,
    `findIndex`, `slice(0, n)` and `filter(...).length`. */
module Seqs {
  import opened Wrappers

  /** `s.filter(p)`. */
  function Filter<T>(s: seq<T>, p: T -> bool): (r: seq<T>)
    ensures |r| <= |s|
    ensures forall i :: 0 <= i < |r| ==> r[i] in s && p(r[i])
    ensures forall i :: 0 <= i < |s| && p(s[i]) ==> s[i] in r
  {
    if s == [] then []
    else (if p(s[0]) then [s[0]] else []) + Filter(s[1..], p)
  }

  /** Filtering distributes over concatenation, so kept elements keep their relative order. */
  lemma {:induction false} FilterConcat<T>(a: seq<T>, b: seq<T>, p: T -> bool)
    ensures Filter(a + b, p) == Filter(a, p) + Filter(b, p)
  {
    if a == [] {
      assert a + b == b;
    } else {
      assert (a + b)[1..] == a[1..] + b;
      FilterConcat(a[1..], b, p);
    }
  }

  /** Filtering one element keeps it exactly when it satisfies the predicate. */
  lemma FilterSingle<T>(x: T, p: T -> bool)
    ensures Filter([x], p) == if p(x) then [x] else []
  {
    assert [x][1..] == [];
  }

  /** A predicate that holds nowhere keeps nothing. */
  lemma FilterNone<T>(s: seq<T>, p: T -> bool)
    requires forall i :: 0 <= i < |s| ==> !p(s[i])
    ensures Filter(s, p) == []
  {}

  /** Filtering a list with one element spliced in. */
  lemma FilterSplice<T>(lo: seq<T>, x: T, hi: seq<T>, p: T -> bool)
    ensures Filter(lo + [x] + hi, p) == Filter(lo, p) + (if p(x) then [x] else []) + Filter(hi, p)
  {
    FilterConcat(lo + [x], hi, p);
    FilterConcat(lo, [x], p);
    FilterSingle(x, p);
  }

  /** Splicing `x` in before a stretch the predicate rejects whenever it keeps `x` adds `x`
      at the end of what is kept. */
  lemma FilterSpliceAtEnd<T>(lo: seq<T>, x: T, hi: seq<T>, p: T -> bool)
    requires p(x) ==> Filter(hi, p) == []
    ensures Filter(lo + [x] + hi, p) == Filter(lo + hi, p) + (if p(x) then [x] else [])
  {
    FilterSplice(lo, x, hi, p);
    FilterConcat(lo, hi, p);
  }

  /** A predicate that holds everywhere keeps every element. */
  lemma {:induction false} FilterAll<T>(s: seq<T>, p: T -> bool)
    requires forall i :: 0 <= i < |s| ==> p(s[i])
    ensures Filter(s, p) == s
  {
    if s != [] {
      FilterAll(s[1..], p);
    }
  }

  /** Filtering twice with the same predicate changes nothing more. */
  lemma FilterIdempotent<T>(s: seq<T>, p: T -> bool)
    ensures Filter(Filter(s, p), p) == Filter(s, p)
  {
    FilterAll(Filter(s, p), p);
  }

  /** Filters by predicates that agree on every element agree. */
  lemma {:induction false} FilterExt<T>(s: seq<T>, p: T -> bool, q: T -> bool)
    requires forall i :: 0 <= i < |s| ==> p(s[i]) == q(s[i])
    ensures Filter(s, p) == Filter(s, q)
  {
    if s != [] {
      FilterExt(s[1..], p, q);
    }
  }

  /** The conjunction of two tests. */
  function Both<T>(p: T -> bool, q: T -> bool): T -> bool {
    x => p(x) && q(x)
  }

  /** Filtering by `p` and then by `q` is filtering once by both. */
  lemma {:induction false} FilterFilter<T>(s: seq<T>, p: T -> bool, q: T -> bool)
    ensures Filter(Filter(s, p), q) == Filter(s, Both(p, q))
  {
    if s != [] {
      FilterFilter(s[1..], p, q);
      FilterConcat(if p(s[0]) then [s[0]] else [], Filter(s[1..], p), q);
    }
  }

  /** `a` is `b` with some elements left out, the rest in their order. */
  predicate Subseq<T(==)>(a: seq<T>, b: seq<T>)
    decreases |b|
  {
    a == [] || (b != [] && ((a[0] == b[0] && Subseq(a[1..], b[1..])) || Subseq(a, b[1..])))
  }

  /** A filter keeps its elements in their original order. */
  lemma {:induction false} FilterSubseq<T>(s: seq<T>, p: T -> bool)
    ensures Subseq(Filter(s, p), s)
  {
    if s != [] {
      FilterSubseq(s[1..], p);
      var f := Filter(s, p);
      if p(s[0]) {
        assert f == [s[0]] + Filter(s[1..], p);
        assert f[0] == s[0] && f[1..] == Filter(s[1..], p);
      } else {
        assert f == Filter(s[1..], p);
      }
    }
  }

  /** `r` is `s` with the element at `k` taken out and the rest kept in order. */
  ghost predicate WithoutIndex<T>(r: seq<T>, s: seq<T>, k: int) {
    && 0 <= k < |s|
    && |r| == |s| - 1
    && (forall j :: 0 <= j < k ==> r[j] == s[j])
    && (forall j :: k <= j < |r| ==> r[j] == s[j + 1])
  }

  /** `s.splice(k, 1)`: the sequence without its element at `k`. */
  function RemoveAt<T>(s: seq<T>, k: nat): (r: seq<T>)
    requires k < |s|
    ensures WithoutIndex(r, s, k)
  {
    s[..k] + s[k + 1..]
  }

  /** Every element other than the removed one stays, one place earlier past `k`. */
  lemma RemoveAtKeeps<T>(s: seq<T>, k: nat, i: nat)
    requires k < |s| && i < |s| && i != k
    ensures var j := if i < k then i else i - 1;
      j < |RemoveAt(s, k)| && RemoveAt(s, k)[j] == s[i]
  {}

  /** `s.filter(p).length`. */
  function Count<T>(s: seq<T>, p: T -> bool): (n: nat)
    ensures n <= |s|
  {
    |Filter(s, p)|
  }

  /** Position of the first element satisfying `p`, or -1: `s.findIndex(p)`. */
  function FindIndex<T>(s: seq<T>, p: T -> bool): (r: int)
    ensures -1 <= r < |s|
    ensures r >= 0 ==> p(s[r]) && forall j :: 0 <= j < r ==> !p(s[j])
    ensures r == -1 <==> forall j :: 0 <= j < |s| ==> !p(s[j])
  {
    if s == [] then -1
    else if p(s[0]) then 0
    else
      var k := FindIndex(s[1..], p);
      if k == -1 then -1 else k + 1
  }

  /** The first element satisfying `p`, or `undefined`: `s.find(p)`. */
  function Find<T>(s: seq<T>, p: T -> bool): (r: Option<T>)
    ensures r.None? <==> forall j :: 0 <= j < |s| ==> !p(s[j])
    ensures r.Some? ==> r.value in s && p(r.value)
  {
    var k := FindIndex(s, p);
    if k == -1 then None else Some(s[k])
  }

  /** `s.some(p)`. */
  predicate Any<T>(s: seq<T>, p: T -> bool) {
    exists i :: 0 <= i < |s| && p(s[i])
  }

  /** `s.slice(0, n)`. */
  function Take<T>(s: seq<T>, n: nat): (r: seq<T>)
    ensures |r| == if n < |s| then n else |s|
    ensures r <= s
  {
    if n < |s| then s[..n] else s
  }

  /** A run that appends `x` and then `tail` appends `[x] + tail`. */
  lemma AppendThroughStep<T>(whole: seq<T>, mid: seq<T>, start: seq<T>, x: T, tail: seq<T>, all: seq<T>)
    requires whole == mid + tail && mid == start + [x] && all == [x] + tail
    ensures whole == start + all
  {}
}
