/**
 What a key encoding is to the tree: an order, an order-preserving digest, and the rules for pages
 that store digests without keys. The laws are the ones the encoding trait documents; everything
 about trees is proved for any encoding that keeps them.
 */
module Encodings {
  import opened Base

  datatype Encoding = Encoding(
    /** `compare` and `digest` do not fail on this key. */
    readable: Key -> bool,
    /** `validate_key` accepts this key. */
    wellFormed: Key -> bool,
    compare: (Key, Key) -> Ordering,
    digest: Key -> U64,
    /** `stored` may stand for the digest of `key` on a page. */
    accepts: (Key, U64) -> bool,
    /** Equal digests mean equal keys. */
    exact: bool,
    /** The encoding states how large a key rebuilt from a digest can be. */
    rebuilds: bool,
    rebuild: U64 -> Option<Key>)

  /** `compare` is a strict total order on readable keys. */
  ghost predicate TotalOrder(e: Encoding) {
    && (forall a, b {:trigger e.compare(a, b)} :: e.readable(a) && e.readable(b) ==>
          && (e.compare(a, b) == Equal <==> a == b)
          && (e.compare(a, b) == Less <==> e.compare(b, a) == Greater))
    && (forall a, b, c {:trigger e.compare(a, b), e.compare(b, c)} ::
          (e.readable(a) && e.readable(b) && e.readable(c) && e.compare(a, b) == Less && e.compare(b, c) == Less) ==>
            e.compare(a, c) == Less)
  }

  ghost predicate DigestFollowsOrder(e: Encoding) {
    forall a, b {:trigger e.compare(a, b)} ::
      e.readable(a) && e.readable(b) && e.compare(a, b) == Less ==> e.digest(a) <= e.digest(b)
  }

  /** A page digest may run ahead of its key, never behind it. */
  ghost predicate AcceptsNoLower(e: Encoding) {
    forall k, s {:trigger e.accepts(k, s)} ::
      e.readable(k) && e.accepts(k, s) ==> e.digest(k) <= s && (e.exact ==> e.digest(k) == s)
  }

  ghost predicate RebuildsKeys(e: Encoding) {
    && (e.rebuilds ==> forall d :: e.rebuild(d).Some?)
    && (forall d :: e.rebuild(d).Some? ==> e.readable(e.rebuild(d).value) && e.digest(e.rebuild(d).value) == d)
  }

  ghost predicate ExactIsInjective(e: Encoding) {
    e.exact ==> forall a, b {:trigger e.compare(a, b)} ::
      e.readable(a) && e.readable(b) && e.digest(a) == e.digest(b) ==> a == b
  }

  ghost predicate Lawful(e: Encoding) {
    && TotalOrder(e)
    && DigestFollowsOrder(e)
    && AcceptsNoLower(e)
    && RebuildsKeys(e)
    && ExactIsInjective(e)
  }

  /** Keys the encoding accepts are keys it can read. */
  ghost predicate ValidKeysAreReadable(e: Encoding) {
    forall k :: e.wellFormed(k) ==> e.readable(k)
  }

  /** How a page orders `k` against a probe: by key, or by digest alone where keys are omitted and a
      digest does not determine one. */
  ghost function Sees(e: Encoding, coarse: bool, k: Key, probe: Key): Ordering {
    if coarse then CompareInts(e.digest(k), e.digest(probe)) else e.compare(k, probe)
  }

  ghost predicate Precedes(e: Encoding, coarse: bool, a: Key, b: Key) {
    if coarse then e.digest(a) <= e.digest(b) else e.compare(a, b) == Less
  }

  ghost predicate Ascending(e: Encoding, coarse: bool, ks: seq<Key>) {
    forall i, j {:trigger Precedes(e, coarse, ks[i], ks[j])} ::
      0 <= i < j < |ks| ==> Precedes(e, coarse, ks[i], ks[j])
  }

  ghost predicate AllReadable(e: Encoding, ks: seq<Key>) {
    forall i :: 0 <= i < |ks| ==> e.readable(ks[i])
  }

  /** A smaller digest means a smaller key. */
  lemma LowerDigestIsLess(e: Encoding, a: Key, b: Key)
    requires Lawful(e) && e.readable(a) && e.readable(b)
    requires e.digest(a) < e.digest(b)
    ensures e.compare(a, b) == Less
  {
    assert e.compare(a, b) == Greater <==> e.compare(b, a) == Less;
  }

  /** Along ascending keys a probe sees first the keys below it, then its equals, then those above. */
  lemma SeenInOrder(e: Encoding, coarse: bool, a: Key, b: Key, probe: Key)
    requires Lawful(e) && e.readable(a) && e.readable(b) && e.readable(probe)
    requires Precedes(e, coarse, a, b)
    ensures Sees(e, coarse, b, probe) == Less ==> Sees(e, coarse, a, probe) == Less
    ensures !coarse && Sees(e, coarse, b, probe) == Equal ==> Sees(e, coarse, a, probe) == Less
    ensures Sees(e, coarse, b, probe) != Greater ==> Sees(e, coarse, a, probe) != Greater
  {
  }

  // ---------------------------------------------------------------- where a probe falls

  datatype SearchOp = EqualTo | LowerBound | UpperBound

  /** `k` comes before the place the search is after. */
  ghost predicate Before(e: Encoding, coarse: bool, op: SearchOp, k: Key, probe: Key) {
    if op == UpperBound then Sees(e, coarse, k, probe) != Greater else Sees(e, coarse, k, probe) == Less
  }

  ghost predicate IsCut(e: Encoding, coarse: bool, op: SearchOp, ks: seq<Key>, probe: Key, n: nat) {
    && n <= |ks|
    && (forall i :: 0 <= i < n ==> Before(e, coarse, op, ks[i], probe))
    && (n < |ks| ==> !Before(e, coarse, op, ks[n], probe))
  }

  lemma {:induction false} CutExists(e: Encoding, coarse: bool, op: SearchOp, ks: seq<Key>, probe: Key, from: nat)
    requires from <= |ks|
    requires forall i :: 0 <= i < from ==> Before(e, coarse, op, ks[i], probe)
    ensures exists n: nat :: IsCut(e, coarse, op, ks, probe, n)
    decreases |ks| - from
  {
    if from < |ks| && Before(e, coarse, op, ks[from], probe) {
      CutExists(e, coarse, op, ks, probe, from + 1);
    } else {
      assert IsCut(e, coarse, op, ks, probe, from);
    }
  }

  /** What a linear scan finds: the index of the first key that is not before the place. */
  ghost function Cut(e: Encoding, coarse: bool, op: SearchOp, ks: seq<Key>, probe: Key): (n: nat)
    ensures IsCut(e, coarse, op, ks, probe, n)
  {
    CutExists(e, coarse, op, ks, probe, 0);
    var n: nat :| IsCut(e, coarse, op, ks, probe, n);
    n
  }

  /** There is only one such index. */
  lemma CutIs(e: Encoding, coarse: bool, op: SearchOp, ks: seq<Key>, probe: Key, n: nat)
    requires IsCut(e, coarse, op, ks, probe, n)
    ensures Cut(e, coarse, op, ks, probe) == n
  {
    var m := Cut(e, coarse, op, ks, probe);
    assert m < |ks| ==> !Before(e, coarse, op, ks[m], probe);
    assert n < |ks| ==> !Before(e, coarse, op, ks[n], probe);
  }

  /** On ascending keys nothing behind the cut is before the place either. */
  lemma NothingBehindCut(e: Encoding, coarse: bool, op: SearchOp, ks: seq<Key>, probe: Key)
    requires Lawful(e) && AllReadable(e, ks) && e.readable(probe)
    requires Ascending(e, coarse, ks)
    ensures forall i :: Cut(e, coarse, op, ks, probe) <= i < |ks| ==> !Before(e, coarse, op, ks[i], probe)
  {
    var n := Cut(e, coarse, op, ks, probe);
    forall i | n <= i < |ks|
      ensures !Before(e, coarse, op, ks[i], probe)
    {
      if n < i {
        SeenInOrder(e, coarse, ks[n], ks[i], probe);
      }
    }
  }
}
