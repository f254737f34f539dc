/**
  Sequence operations the screens build from `Array.prototype`: `filter`,
  `slice(0, n)` and de-duplication through `new Set(...)`, with the ordering
  and membership facts that describe them.
 */
module Seqs {

  /** `idx` lists strictly increasing positions of `s`, and `sub` is what `s` holds there. */
  ghost predicate Embeds<T>(sub: seq<T>, s: seq<T>, idx: seq<int>)
  {
    && |idx| == |sub|
    && (forall k :: 0 <= k < |idx| ==> 0 <= idx[k] < |s| && sub[k] == s[idx[k]])
    && (forall k, l :: 0 <= k < l < |idx| ==> idx[k] < idx[l])
  }

  /** `sub` is an order-preserving subsequence of `s`. */
  ghost predicate IsSubsequence<T>(sub: seq<T>, s: seq<T>)
  {
    exists idx :: Embeds(sub, s, idx)
  }

  /** `s.filter(p)`. */
  function Filter<T>(s: seq<T>, p: T -> bool): (r: seq<T>)
    ensures |r| <= |s|
    ensures forall i :: 0 <= i < |r| ==> r[i] in s && p(r[i])
    ensures forall i :: 0 <= i < |s| && p(s[i]) ==> s[i] in r
  {
    if |s| == 0 then []
    else if p(s[0]) then [s[0]] + Filter(s[1..], p)
    else Filter(s[1..], p)
  }

  /** An embedding into the tail of `s`, moved one place right, is an embedding into `s` that avoids position 0. */
  lemma ShiftEmbedding<T>(sub: seq<T>, s: seq<T>, idx: seq<int>) returns (shifted: seq<int>)
    requires |s| > 0 && Embeds(sub, s[1..], idx)
    ensures Embeds(sub, s, shifted)
    ensures forall k :: 0 <= k < |shifted| ==> 0 < shifted[k]
  {
    shifted := seq(|idx|, k requires 0 <= k < |idx| => idx[k] + 1);
    forall k | 0 <= k < |shifted|
      ensures 0 < shifted[k] < |s| && sub[k] == s[shifted[k]]
    {
      assert s[1..][idx[k]] == s[idx[k] + 1];
    }
  }

  /** An embedding avoiding position 0 extends to one of the head followed by the embedded elements. */
  lemma PrependHead<T>(sub: seq<T>, s: seq<T>, idx: seq<int>)
    requires |s| > 0 && Embeds(sub, s, idx)
    requires forall k :: 0 <= k < |idx| ==> 0 < idx[k]
    ensures Embeds([s[0]] + sub, s, [0] + idx)
  {
    var sub', idx' := [s[0]] + sub, [0] + idx;
    forall k | 0 <= k < |idx'|
      ensures 0 <= idx'[k] < |s| && sub'[k] == s[idx'[k]]
    {
      if k > 0 {
        assert idx'[k] == idx[k - 1] && sub'[k] == sub[k - 1];
      }
    }
    forall k, l | 0 <= k < l < |idx'|
      ensures idx'[k] < idx'[l]
    {
      assert idx'[l] == idx[l - 1];
      if k > 0 {
        assert idx'[k] == idx[k - 1];
      }
    }
  }

  /** The positions `filter` keeps form a strictly increasing index sequence into its input. */
  lemma {:induction false} FilterPositions<T>(s: seq<T>, p: T -> bool) returns (idx: seq<int>)
    ensures Embeds(Filter(s, p), s, idx)
  {
    if |s| == 0 {
      idx := [];
    } else {
      var rest := FilterPositions(s[1..], p);
      var shifted := ShiftEmbedding(Filter(s[1..], p), s, rest);
      if p(s[0]) {
        idx := [0] + shifted;
        PrependHead(Filter(s[1..], p), s, shifted);
      } else {
        idx := shifted;
      }
    }
  }

  /**
    `filter` keeps every occurrence of an accepted value and none of a rejected
    one; with `FilterIsSubsequence` this pins the result down completely, even
    when values repeat.
   */
  lemma {:induction false} FilterCounts<T>(s: seq<T>, p: T -> bool, x: T)
    ensures multiset(Filter(s, p))[x] == if p(x) then multiset(s)[x] else 0
  {
    if |s| > 0 {
      FilterCounts(s[1..], p, x);
      assert s == [s[0]] + s[1..];
      assert multiset(s) == multiset([s[0]]) + multiset(s[1..]);
      if p(s[0]) {
        assert multiset(Filter(s, p)) == multiset([s[0]]) + multiset(Filter(s[1..], p));
      }
    }
  }

  /** What `filter` keeps is an order-preserving subsequence of its input. */
  lemma FilterIsSubsequence<T>(s: seq<T>, p: T -> bool)
    ensures IsSubsequence(Filter(s, p), s)
  {
    var idx := FilterPositions(s, p);
  }

  /** A filter whose predicate holds everywhere keeps the whole input. */
  lemma {:induction false} FilterAll<T>(s: seq<T>, p: T -> bool)
    requires forall i :: 0 <= i < |s| ==> p(s[i])
    ensures Filter(s, p) == s
  {
    if |s| > 0 {
      FilterAll(s[1..], p);
    }
  }

  /** A filter whose predicate holds nowhere keeps nothing. */
  lemma {:induction false} FilterNone<T>(s: seq<T>, p: T -> bool)
    requires forall i :: 0 <= i < |s| ==> !p(s[i])
    ensures Filter(s, p) == []
  {
    if |s| > 0 {
      FilterNone(s[1..], p);
    }
  }

  /** A filter keeps exactly the elements its predicate accepts: nothing more, nothing less. */
  lemma FilterKeepsExactly<T>(s: seq<T>, p: T -> bool, x: T)
    ensures x in Filter(s, p) <==> x in s && p(x)
  {
  }

  /** `s.slice(0, n)` for `n >= 0`: the first `min(n, |s|)` elements. */
  function Take<T>(s: seq<T>, n: nat): (r: seq<T>)
    ensures |r| == if n < |s| then n else |s|
    ensures r <= s
  {
    if n < |s| then s[..n] else s
  }

  /** The index of the first occurrence of `x` in `s`. */
  function FirstIndex<T(==)>(s: seq<T>, x: T): (i: nat)
    requires x in s
    ensures i < |s| && s[i] == x
    ensures forall j :: 0 <= j < i ==> s[j] != x
  {
    if s[0] == x then 0 else 1 + FirstIndex(s[1..], x)
  }

  /** `s` holds no value twice. */
  predicate NoDuplicates<T(==)>(s: seq<T>)
  {
    forall i, j :: 0 <= i < j < |s| ==> s[i] != s[j]
  }

  /** `[...new Set(s)]`: each value once, at the place it first occurs. */
  function Distinct<T(==)>(s: seq<T>): (r: seq<T>)
    ensures NoDuplicates(r)
    ensures forall i :: 0 <= i < |r| ==> r[i] in s
    ensures forall i :: 0 <= i < |s| ==> s[i] in r
  {
    if |s| == 0 then []
    else
      var d := Distinct(s[..|s| - 1]);
      if s[|s| - 1] in d then d else d + [s[|s| - 1]]
  }

  /**
    `Distinct` keeps every value of its input exactly once, and lists the
    values in the order in which they first occur in the input.
   */
  lemma {:induction false} DistinctSpec<T>(s: seq<T>)
    ensures NoDuplicates(Distinct(s))
    ensures forall i :: 0 <= i < |Distinct(s)| ==> Distinct(s)[i] in s
    ensures forall i :: 0 <= i < |s| ==> s[i] in Distinct(s)
    ensures forall i, j :: 0 <= i < j < |Distinct(s)| ==> FirstIndex(s, Distinct(s)[i]) < FirstIndex(s, Distinct(s)[j])
  {
    if |s| > 0 {
      var init := s[..|s| - 1];
      var last := s[|s| - 1];
      DistinctSpec(init);
      var d := Distinct(init);
      assert s == init + [last];
      forall x | x in init
        ensures FirstIndex(s, x) == FirstIndex(init, x)
      {
        FirstIndexOfPrefix(init, [last], x);
      }
      if last !in d {
        var r := d + [last];
        assert last !in init;
        forall i | 0 <= i < |d|
          ensures FirstIndex(s, r[i]) < FirstIndex(s, last)
        {
          assert r[i] in init;
          assert FirstIndex(s, last) == |s| - 1;
        }
      }
    }
  }

  /** The first occurrence of a value in a prefix is its first occurrence in the whole sequence. */
  lemma {:induction false} FirstIndexOfPrefix<T>(a: seq<T>, b: seq<T>, x: T)
    requires x in a
    ensures FirstIndex(a + b, x) == FirstIndex(a, x)
  {
    if a[0] != x {
      assert (a + b)[1..] == a[1..] + b;
      FirstIndexOfPrefix(a[1..], b, x);
    }
  }
}
