/** Concatenation of a sequence of parts, and where each part starts. */
module Sequences {

  ghost function Cat<T>(parts: seq<seq<T>>): seq<T> {
    if parts == [] then []
    else Cat(parts[..|parts| - 1]) + parts[|parts| - 1]
  }

  /** Where part `i` starts in the concatenation. */
  ghost function Start<T>(parts: seq<seq<T>>, i: nat): nat
    requires i <= |parts|
  {
    |Cat(parts[..i])|
  }

  lemma StartNext<T>(parts: seq<seq<T>>, i: nat)
    requires i < |parts|
    ensures Start(parts, i + 1) == Start(parts, i) + |parts[i]|
  {
    var up := parts[..i + 1];
    assert up[..i] == parts[..i];
  }

  lemma StartEnds<T>(parts: seq<seq<T>>)
    ensures Start(parts, 0) == 0
    ensures Start(parts, |parts|) == |Cat(parts)|
  {
    assert parts[..|parts|] == parts;
  }

  lemma {:induction false} StartGrows<T>(parts: seq<seq<T>>, i: nat, j: nat)
    requires i <= j <= |parts|
    ensures Start(parts, i) <= Start(parts, j)
    ensures i < j ==> Start(parts, i) + |parts[i]| <= Start(parts, j)
    decreases j
  {
    if i < j {
      StartNext(parts, j - 1);
      StartGrows(parts, i, j - 1);
    }
  }

  /** Element `j` of part `i` is found at the part's start plus `j`. */
  lemma {:induction false} CatAt<T>(parts: seq<seq<T>>, i: nat, j: nat)
    requires i < |parts| && j < |parts[i]|
    ensures Start(parts, i) + j < |Cat(parts)|
    ensures Cat(parts)[Start(parts, i) + j] == parts[i][j]
    decreases |parts|
  {
    var n := |parts| - 1;
    var init := parts[..n];
    if i < n {
      CatAt(init, i, j);
      assert init[..i] == parts[..i];
    }
  }

  /** Every element belongs to a part. */
  lemma {:induction false} PartOf<T>(parts: seq<seq<T>>, at: nat) returns (i: nat, j: nat)
    requires at < |Cat(parts)|
    ensures i < |parts| && j < |parts[i]|
    ensures at == Start(parts, i) + j
    decreases |parts|
  {
    var n := |parts| - 1;
    var init := parts[..n];
    if at < |Cat(init)| {
      i, j := PartOf(init, at);
      assert init[..i] == parts[..i];
    } else {
      i, j := n, at - |Cat(init)|;
    }
  }

  /** Parts of the same lengths start at the same places. */
  lemma {:induction false} SameStarts<T, U>(a: seq<seq<T>>, b: seq<seq<U>>, i: nat)
    requires |a| == |b| && i <= |a| && forall k :: 0 <= k < |a| ==> |a[k]| == |b[k]|
    ensures Start(a, i) == Start(b, i)
  {
    if i == 0 {
      StartEnds(a);
      StartEnds(b);
    } else {
      SameStarts(a, b, i - 1);
      StartNext(a, i - 1);
      StartNext(b, i - 1);
    }
  }

  /** So what stands at one place in each belongs to the same part. */
  lemma SamePlace<T, U>(a: seq<seq<T>>, b: seq<seq<U>>, at: nat) returns (i: nat, j: nat)
    requires |a| == |b| && at < |Cat(a)| && forall k :: 0 <= k < |a| ==> |a[k]| == |b[k]|
    ensures i < |a| && j < |a[i]| && j < |b[i]| && at == Start(a, i) + j
    ensures at < |Cat(b)| && Cat(a)[at] == a[i][j] && Cat(b)[at] == b[i][j]
  {
    i, j := PartOf(a, at);
    SameStarts(a, b, i);
    CatAt(a, i, j);
    CatAt(b, i, j);
  }

  ghost predicate Distinct<T>(s: seq<T>) {
    forall i, j :: 0 <= i < j < |s| ==> s[i] != s[j]
  }

  function UpTo(n: nat): (s: set<nat>)
    ensures forall x: nat :: x in s <==> x < n
    ensures |s| == n
  {
    if n == 0 then {} else UpTo(n - 1) + {n - 1}
  }

  ghost function Elements<T>(s: seq<T>): set<T> {
    set x | x in s
  }

  lemma {:induction false} DistinctCount<T>(s: seq<T>)
    requires Distinct(s)
    ensures |Elements(s)| == |s|
  {
    if s != [] {
      var n := |s| - 1;
      DistinctCount(s[..n]);
      assert Elements(s) == Elements(s[..n]) + {s[n]};
      assert s[n] !in Elements(s[..n]);
    }
  }

  lemma SubsetCount<T>(a: set<T>, b: set<T>)
    requires a <= b
    ensures |a| <= |b|
  {
    assert b == a + (b - a);
  }

  /** Distinct numbers below `n` are at most `n` many. */
  lemma DistinctBelow(s: seq<nat>, n: nat)
    requires Distinct(s)
    requires forall i :: 0 <= i < |s| ==> s[i] < n
    ensures |s| <= n
  {
    DistinctCount(s);
    SubsetCount(Elements(s), UpTo(n));
  }
}
