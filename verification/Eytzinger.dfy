/**
 The Eytzinger form of a digest array: a complete binary tree in breadth-first order, padded
 with `u64::MAX`. Node `n` (counted from one) is slot `n - 1`, its children are `2n` and `2n + 1`.

 A node is described by the height `k` of its subtree and by `lo`, where the subtree starts when
 the tree is read left to right. A subtree of height `k` has `Width(k) - 1` slots.
 */
module Eytzinger {
  import opened Base

  function Width(k: nat): (w: nat)
    ensures w > 0
  {
    if k == 0 then 1 else 2 * Width(k - 1)
  }

  /** Height of the smallest complete tree of height at least `k` that holds `count` digests. */
  function HeightFrom(k: nat, count: nat): nat
    decreases count + 1 - Width(k)
  {
    if Width(k) < count + 1 then HeightFrom(k + 1, count) else k
  }

  function Height(count: nat): nat {
    HeightFrom(0, count)
  }

  /** Slots of the smallest complete tree holding `count` digests. */
  function CompleteSize(count: nat): nat {
    Width(Height(count)) - 1
  }

  lemma {:induction false} HeightFromIsLeast(k: nat, count: nat)
    requires k > 0 ==> Width(k - 1) <= count
    ensures Width(HeightFrom(k, count)) > count
    ensures HeightFrom(k, count) > 0 ==> Width(HeightFrom(k, count) - 1) <= count
    decreases count + 1 - Width(k)
  {
    if Width(k) < count + 1 {
      HeightFromIsLeast(k + 1, count);
    }
  }

  lemma {:induction false} WidthGrows(j: nat, k: nat)
    requires j <= k
    ensures Width(j) <= Width(k)
    decreases k
  {
    if j < k {
      WidthGrows(j, k - 1);
    }
  }

  /** The slot count is the least `2^k - 1` that holds every digest. */
  lemma CompleteSizeIsLeast(count: nat, k: nat)
    ensures count <= CompleteSize(count)
    ensures CompleteSize(count) <= Width(k) - 1 <==> count <= Width(k) - 1
  {
    HeightFromIsLeast(0, count);
    if k < Height(count) {
      WidthGrows(k, Height(count) - 1);
    } else {
      WidthGrows(Height(count), k);
    }
  }

  method ComputeCompleteSize(count: nat) returns (size: nat)
    ensures size == CompleteSize(count)
  {
    var m := 1;
    ghost var k: nat := 0;
    while m < count + 1
      invariant m == Width(k)
      invariant HeightFrom(k, count) == Height(count)
      decreases count + 1 - m
    {
      m := 2 * m;
      k := k + 1;
    }
    size := m - 1;
  }

  // ---------------------------------------------------------------- nodes

  /** In a tree of height `top`, node `n` has height `k` and its subtree starts at `lo`. */
  ghost predicate IsNode(top: nat, n: nat, k: nat, lo: nat)
    decreases n
  {
    if n == 0 then false
    else if n == 1 then k == top && lo == 0
    else if n % 2 == 0 then IsNode(top, n / 2, k + 1, lo)
    else lo >= Width(k) && IsNode(top, n / 2, k + 1, lo - Width(k))
  }

  /** A subtree lies inside the tree. */
  lemma {:induction false} NodeStretch(top: nat, n: nat, k: nat, lo: nat)
    requires IsNode(top, n, k, lo)
    ensures lo + Width(k) <= Width(top)
    decreases n
  {
    if n > 1 {
      NodeStretch(top, n / 2, k + 1, if n % 2 == 0 then lo else lo - Width(k));
    }
  }

  lemma HalveAndDouble(n: nat, w: nat)
    ensures n % 2 == 0 ==> n * w == (n / 2) * (2 * w)
    ensures n % 2 == 1 ==> n * w == (n / 2) * (2 * w) + w
  {
    var m := n / 2;
    assert n == 2 * m + n % 2;
    assert (2 * m) * w == m * (2 * w);
  }

  lemma {:induction false} NodeProduct(top: nat, n: nat, k: nat, lo: nat)
    requires IsNode(top, n, k, lo)
    ensures n * Width(k) == Width(top) + lo
    decreases n
  {
    if n > 1 {
      NodeProduct(top, n / 2, k + 1, if n % 2 == 0 then lo else lo - Width(k));
      HalveAndDouble(n, Width(k));
    }
  }

  lemma AtLeastFourfold(n: nat, w: nat)
    requires w >= 4
    ensures n * w >= 4 * n
  {
  }

  /** A node of positive height is a slot, and it has children in the tree exactly when `2n` is a
      slot too. */
  lemma NodeInRange(top: nat, n: nat, k: nat, lo: nat)
    requires IsNode(top, n, k, lo)
    ensures k > 0 <==> n < Width(top)
    ensures k > 1 <==> 2 * n < Width(top)
    ensures k > 1 <==> 2 * n + 1 < Width(top)
  {
    NodeStretch(top, n, k, lo);
    NodeProduct(top, n, k, lo);
    if k == 0 {
      assert n * 1 == Width(top) + lo;
    } else if k == 1 {
      assert Width(1) == 2;
      assert n * 2 == Width(top) + lo;
    } else {
      assert Width(k) == 4 * Width(k - 2);
      AtLeastFourfold(n, Width(k));
    }
  }

  lemma LeafProduct(top: nat, n: nat, k: nat, lo: nat)
    requires IsNode(top, n, k, lo) && n >= Width(top)
    ensures k == 0 && n == Width(top) + lo
  {
    NodeInRange(top, n, k, lo);
    NodeProduct(top, n, k, lo);
    assert n * 1 == n;
  }

  lemma ChildrenAreNodes(top: nat, n: nat, k: nat, lo: nat)
    requires k > 0 && IsNode(top, n, k, lo)
    ensures IsNode(top, 2 * n, k - 1, lo)
    ensures IsNode(top, 2 * n + 1, k - 1, lo + Width(k - 1))
  {
    assert (2 * n) / 2 == n && (2 * n + 1) / 2 == n;
  }

  // ---------------------------------------------------------------- reading left to right

  /** Height of the subtree of the node in `slot`. */
  ghost function HeightAt(top: nat, n: nat): int
    decreases n
  {
    if n <= 1 then top else HeightAt(top, n / 2) - 1
  }

  /** Where the subtree at `n` starts. */
  ghost function StartAt(top: nat, n: nat): nat
    decreases n
  {
    if n <= 1 then 0
    else if n % 2 == 0 || HeightAt(top, n) < 0 then StartAt(top, n / 2)
    else StartAt(top, n / 2) + Width(HeightAt(top, n))
  }

  /** Where the node in `slot` sits when the tree is read left to right. */
  ghost function Position(top: nat, slot: nat): int {
    if HeightAt(top, slot + 1) < 1 then -1
    else StartAt(top, slot + 1) + Width(HeightAt(top, slot + 1) - 1) - 1
  }

  lemma {:induction false} NodeAt(top: nat, n: nat, k: nat, lo: nat)
    requires IsNode(top, n, k, lo)
    ensures HeightAt(top, n) == k && StartAt(top, n) == lo
    decreases n
  {
    if n > 1 {
      NodeAt(top, n / 2, k + 1, if n % 2 == 0 then lo else lo - Width(k));
    }
  }

  lemma {:induction false} SlotIsNode(top: nat, n: nat)
    requires 0 < n < Width(top)
    ensures HeightAt(top, n) > 0
    ensures IsNode(top, n, HeightAt(top, n), StartAt(top, n))
    decreases n
  {
    if n > 1 {
      var m := n / 2;
      SlotIsNode(top, m);
      ChildrenAreNodes(top, m, HeightAt(top, m), StartAt(top, m));
      assert n == 2 * m || n == 2 * m + 1;
      NodeInRange(top, n, HeightAt(top, n), StartAt(top, n));
    }
  }

  lemma PositionInRange(top: nat, n: nat)
    requires 0 < n < Width(top)
    ensures 0 <= Position(top, n - 1) < Width(top) - 1
  {
    SlotIsNode(top, n);
    NodeStretch(top, n, HeightAt(top, n), StartAt(top, n));
  }

  /** The slot below node `n` that sits at position `at`. */
  ghost function SlotBelow(n: nat, k: nat, lo: nat, at: nat): (slot: int)
    decreases k
  {
    if k == 0 then -1
    else if at < lo + Width(k - 1) - 1 then SlotBelow(2 * n, k - 1, lo, at)
    else if at == lo + Width(k - 1) - 1 then n - 1
    else SlotBelow(2 * n + 1, k - 1, lo + Width(k - 1), at)
  }

  /** The slot that sits at position `at`. */
  ghost function SlotAt(top: nat, at: nat): int {
    SlotBelow(1, top, 0, at)
  }

  lemma MiddlePosition(top: nat, n: nat, k: nat, lo: nat)
    requires k > 0 && IsNode(top, n, k, lo)
    ensures 0 < n < Width(top)
    ensures Position(top, n - 1) == lo + Width(k - 1) - 1
  {
    NodeInRange(top, n, k, lo);
    NodeAt(top, n, k, lo);
  }

  lemma {:induction false} SlotBelowSits(top: nat, n: nat, k: nat, lo: nat, at: nat) returns (slot: nat)
    requires IsNode(top, n, k, lo)
    requires lo <= at < lo + Width(k) - 1
    ensures slot == SlotBelow(n, k, lo, at)
    ensures slot < Width(top) - 1
    ensures Position(top, slot) == at
    decreases k
  {
    ChildrenAreNodes(top, n, k, lo);
    var h := Width(k - 1);
    if at < lo + h - 1 {
      slot := SlotBelowSits(top, 2 * n, k - 1, lo, at);
    } else if at > lo + h - 1 {
      slot := SlotBelowSits(top, 2 * n + 1, k - 1, lo + h, at);
    } else {
      MiddlePosition(top, n, k, lo);
      slot := n - 1;
    }
  }

  /** A position inside a subtree is found from the root by way of that subtree. */
  lemma {:induction false} FoundThrough(top: nat, n: nat, k: nat, lo: nat, at: nat)
    requires IsNode(top, n, k, lo)
    requires lo <= at < lo + Width(k) - 1
    ensures SlotAt(top, at) == SlotBelow(n, k, lo, at)
    decreases n
  {
    if n > 1 {
      var m := n / 2;
      FoundThrough(top, m, k + 1, if n % 2 == 0 then lo else lo - Width(k), at);
      assert n == 2 * m || n == 2 * m + 1;
    }
  }

  lemma FoundAt(top: nat, n: nat)
    requires 0 < n < Width(top)
    ensures 0 <= Position(top, n - 1) < Width(top) - 1
    ensures SlotAt(top, Position(top, n - 1)) == n - 1
  {
    PositionInRange(top, n);
    SlotIsNode(top, n);
    FoundThrough(top, n, HeightAt(top, n), StartAt(top, n), Position(top, n - 1));
  }

  /** Slots and positions are in one-to-one correspondence. */
  lemma SlotAtIsInverse(top: nat, at: nat)
    requires at < Width(top) - 1
    ensures 0 <= SlotAt(top, at) < Width(top) - 1
    ensures Position(top, SlotAt(top, at)) == at
  {
    var _ := SlotBelowSits(top, 1, top, 0, at);
  }

  /** Two slots never share a position. */
  lemma PositionsDiffer(top: nat, m: nat, n: nat)
    requires 0 < m < Width(top) && 0 < n < Width(top)
    requires Position(top, m - 1) == Position(top, n - 1)
    ensures m == n
  {
    FoundAt(top, m);
    FoundAt(top, n);
  }

  ghost predicate IsComplete(slots: seq<U64>, top: nat) {
    |slots| + 1 == Width(top)
  }

  /** The slots read left to right. */
  ghost function LeftToRight(slots: seq<U64>, top: nat): (s: seq<U64>)
    requires IsComplete(slots, top)
    ensures |s| == |slots|
  {
    seq(|slots|, at requires 0 <= at < |slots| => Slot(slots, SlotAt(top, at)))
  }

  ghost function Slot(slots: seq<U64>, i: int): U64 {
    if 0 <= i < |slots| then slots[i] else 0
  }

  /** What a node holds is the middle of its stretch. */
  lemma NodeHoldsMiddle(slots: seq<U64>, top: nat, n: nat, k: nat, lo: nat)
    requires IsComplete(slots, top)
    requires k > 0 && IsNode(top, n, k, lo)
    ensures 0 < n <= |slots|
    ensures 0 <= lo + Width(k - 1) - 1 < |slots|
    ensures slots[n - 1] == LeftToRight(slots, top)[lo + Width(k - 1) - 1]
  {
    MiddlePosition(top, n, k, lo);
    FoundAt(top, n);
  }

  // ---------------------------------------------------------------- scattering

  /** The sorted digests followed by the sentinel. */
  ghost function PadTo(sorted: seq<U64>, len: nat): (r: seq<U64>)
    requires |sorted| <= len
    ensures |r| == len
    ensures forall i :: 0 <= i < |sorted| ==> r[i] == sorted[i]
    ensures forall i :: |sorted| <= i < len ==> r[i] == U64_MAX
  {
    sorted + seq(len - |sorted|, _ => 0xFFFF_FFFF_FFFF_FFFF)
  }

  function Min(a: int, b: int): int { if a < b then a else b }

  lemma OnlyTheMiddle(top: nat, n: nat, k: nat, lo: nat)
    requires 0 < n < Width(top) && k > 0 && IsNode(top, n, k, lo)
    ensures forall i :: 0 <= i < Width(top) - 1 ==>
                          (Position(top, i) == lo + Width(k - 1) - 1 <==> i == n - 1)
  {
    NodeAt(top, n, k, lo);
    forall i | 0 <= i < Width(top) - 1 && Position(top, i) == lo + Width(k - 1) - 1
      ensures i == n - 1
    {
      PositionsDiffer(top, i + 1, n);
    }
  }

  /** Fills the subtree at `node`, taking digests from `next` on. */
  method Fill(sorted: seq<U64>, slots: array<U64>, node: nat, next: nat, ghost top: nat, ghost k: nat, ghost lo: nat)
    returns (after: nat)
    requires slots.Length + 1 == Width(top) && |sorted| <= slots.Length
    requires IsNode(top, node, k, lo)
    requires next == Min(lo, |sorted|)
    modifies slots
    ensures after == Min(lo + Width(k) - 1, |sorted|)
    ensures forall i :: 0 <= i < slots.Length ==>
                          var at := Position(top, i);
                          slots[i] == if lo <= at < lo + Width(k) - 1 && at < slots.Length
                                      then PadTo(sorted, slots.Length)[at]
                                      else old(slots[i])
    decreases k
  {
    NodeInRange(top, node, k, lo);
    NodeStretch(top, node, k, lo);
    if node > slots.Length {
      return next;
    }
    ChildrenAreNodes(top, node, k, lo);
    after := Fill(sorted, slots, node * 2, next, top, k - 1, lo);
    if after < |sorted| {
      slots[node - 1] := sorted[after];
      after := after + 1;
    } else {
      slots[node - 1] := 0xFFFF_FFFF_FFFF_FFFF;
    }
    OnlyTheMiddle(top, node, k, lo);
    after := Fill(sorted, slots, node * 2 + 1, after, top, k - 1, lo + Width(k - 1));
  }

  /** Scatters sorted digests into breadth-first slots: read left to right they are the digests,
      then the sentinel. */
  method ScatterEytzinger(sorted: seq<U64>, slots: array<U64>, ghost top: nat)
    requires slots.Length + 1 == Width(top)
    requires |sorted| <= slots.Length
    modifies slots
    ensures LeftToRight(slots[..], top) == PadTo(sorted, slots.Length)
  {
    var _ := Fill(sorted, slots, 1, 0, top, top, 0);
    forall at | 0 <= at < slots.Length
      ensures LeftToRight(slots[..], top)[at] == PadTo(sorted, slots.Length)[at]
    {
      SlotAtIsInverse(top, at);
      assert slots[..][SlotAt(top, at)] == slots[SlotAt(top, at)];
    }
  }

  // ---------------------------------------------------------------- searching

  /** A place where the digests turn from below the probe to not below it. For ascending digests
      that is the number of digests below the probe. */
  predicate IsTurn(digests: seq<U64>, probe: U64, r: int) {
    && 0 <= r <= |digests|
    && (r > 0 ==> digests[r - 1] < probe)
    && (r < |digests| ==> digests[r] >= probe)
  }

  ghost predicate NonDecreasing(digests: seq<U64>) {
    forall i, j :: 0 <= i < j < |digests| ==> digests[i] <= digests[j]
  }

  /** Scattered ascending digests are searched as the sorted array is: the turn is the number of
      digests below the probe, and the padding is never counted. */
  lemma ScatteredTurnCounts(sorted: seq<U64>, slots: seq<U64>, top: nat, probe: U64, r: nat)
    requires IsComplete(slots, top) && |sorted| <= |slots|
    requires NonDecreasing(sorted)
    requires LeftToRight(slots, top) == PadTo(sorted, |slots|)
    requires IsTurn(LeftToRight(slots, top), probe, r)
    ensures r <= |sorted|
    ensures forall i :: 0 <= i < |sorted| ==> (sorted[i] < probe <==> i < r)
  {
    var all := PadTo(sorted, |slots|);
    assert r > 0 ==> all[r - 1] < probe;
    assert r < |sorted| ==> all[r] == sorted[r];
  }

  /** The turn lies inside the subtree at `n`. */
  ghost predicate TurnsBelow(all: seq<U64>, probe: U64, top: nat, n: nat, k: nat, lo: nat) {
    && IsNode(top, n, k, lo)
    && lo + Width(k) - 1 <= |all|
    && (lo > 0 ==> all[lo - 1] < probe)
    && (lo + Width(k) - 1 < |all| ==> all[lo + Width(k) - 1] >= probe)
  }

  lemma TurnsBelowChild(slots: seq<U64>, all: seq<U64>, probe: U64, top: nat, n: nat, k: nat, lo: nat)
    requires IsComplete(slots, top) && all == LeftToRight(slots, top)
    requires TurnsBelow(all, probe, top, n, k, lo) && 0 < n <= |slots|
    ensures k > 0
    ensures slots[n - 1] < probe ==> TurnsBelow(all, probe, top, 2 * n + 1, k - 1, lo + Width(k - 1))
    ensures slots[n - 1] >= probe ==> TurnsBelow(all, probe, top, 2 * n, k - 1, lo)
  {
    NodeInRange(top, n, k, lo);
    NodeHoldsMiddle(slots, top, n, k, lo);
    ChildrenAreNodes(top, n, k, lo);
  }

  /** The branch-free descent. */
  method DescendRank(slots: seq<U64>, probe: U64, ghost top: nat) returns (rank: nat)
    requires IsComplete(slots, top)
    ensures IsTurn(LeftToRight(slots, top), probe, rank)
  {
    ghost var k: nat, lo: nat := top, 0;
    ghost var all := LeftToRight(slots, top);
    var i: nat := 1;
    while i <= |slots|
      invariant i > 0 && TurnsBelow(all, probe, top, i, k, lo)
      decreases |slots| + 1 - i
    {
      TurnsBelowChild(slots, all, probe, top, i, k, lo);
      if slots[i - 1] < probe {
        i, k, lo := 2 * i + 1, k - 1, lo + Width(k - 1);
      } else {
        i, k := 2 * i, k - 1;
      }
    }
    LeafProduct(top, i, k, lo);
    rank := i - |slots| - 1;
  }

  /** The leftmost node below `start`. */
  method Leftmost(complete: nat, start: nat, ghost top: nat, ghost k: nat, ghost lo: nat) returns (node: nat)
    requires complete + 1 == Width(top)
    requires k > 0 && IsNode(top, start, k, lo)
    ensures IsNode(top, node, 1, lo)
  {
    node := start;
    ghost var j := k;
    NodeInRange(top, node, j, lo);
    while node * 2 <= complete
      invariant j > 0 && IsNode(top, node, j, lo)
      invariant node * 2 <= complete <==> j > 1
      decreases j
    {
      ChildrenAreNodes(top, node, j, lo);
      node, j := node * 2, j - 1;
      NodeInRange(top, node, j, lo);
    }
  }

  /** The first slot in order. */
  method First(complete: nat, ghost top: nat) returns (node: nat)
    requires 0 < complete && complete + 1 == Width(top)
    ensures 0 < node <= complete
    ensures SlotAt(top, 0) == node - 1
  {
    node := Leftmost(complete, 1, top, top, 0);
    MiddlePosition(top, node, 1, 0);
    FoundAt(top, node);
  }

  /** Climbs out of right children; the end of the subtree stays where it is. */
  method ClimbRightSpine(start: nat, ghost top: nat, ghost k: nat, ghost lo: nat)
    returns (node: nat, ghost j: nat, ghost at: nat)
    requires IsNode(top, start, k, lo)
    ensures IsNode(top, node, j, at)
    ensures at + Width(j) == lo + Width(k)
    ensures node == 1 || node % 2 == 0
  {
    node, j, at := start, k, lo;
    while node > 1 && node % 2 == 1
      invariant IsNode(top, node, j, at)
      invariant at + Width(j) == lo + Width(k)
    {
      node, j, at := node / 2, j + 1, at - Width(j);
    }
  }

  /** Steps to the next position, or to zero after the last one. */
  method NextPosition(complete: nat, node: nat, ghost top: nat) returns (next: nat)
    requires complete + 1 == Width(top)
    requires 0 < node <= complete
    ensures next <= complete
    ensures next == 0 <==> Position(top, node - 1) == complete - 1
    ensures next > 0 ==> Position(top, next - 1) == Position(top, node - 1) + 1
  {
    SlotIsNode(top, node);
    ghost var k: nat, lo := HeightAt(top, node), StartAt(top, node);
    NodeInRange(top, node, k, lo);
    PositionInRange(top, node);
    var right := node * 2 + 1;
    if right <= complete {
      ghost var h := Width(k - 1);
      ChildrenAreNodes(top, node, k, lo);
      next := Leftmost(complete, right, top, k - 1, lo + h);
      MiddlePosition(top, next, 1, lo + h);
      PositionInRange(top, next);
    } else {
      ghost var j, at;
      next, j, at := ClimbRightSpine(node, top, k, lo);
      if next == 1 {
        return 0;
      }
      next := next / 2;
      MiddlePosition(top, next, j + 1, at);
      PositionInRange(top, next);
    }
  }

  /** The stackless step from the slot at `at` to the one after it, or to zero after the last. */
  method Successor(complete: nat, node: nat, ghost top: nat, ghost at: nat) returns (next: nat)
    requires complete + 1 == Width(top)
    requires at < complete && 0 < node && node - 1 == SlotAt(top, at)
    ensures next <= complete
    ensures next == 0 <==> at == complete - 1
    ensures next > 0 ==> SlotAt(top, at + 1) == next - 1
  {
    SlotAtIsInverse(top, at);
    next := NextPosition(complete, node, top);
    if next > 0 {
      FoundAt(top, next);
    }
  }
}
