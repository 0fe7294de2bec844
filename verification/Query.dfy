/**
 Cursors and counting. A cursor holds one leaf at a time and resolves the far bound once per leaf;
 what it hands out is the slice of all entries between the two bounds.
 */
module Queries {
  import opened Base
  import opened Encodings
  import opened Pages
  import opened Sequences
  import opened Trees
  import opened Searching

  datatype Order = Ascend | Descend

  datatype Bound = Unbounded | Included(key: Key) | Excluded(key: Key)

  datatype KeyRange = KeyRange(lower: Bound, upper: Bound, empty: bool)

  // ---------------------------------------------------------------- what a range selects

  ghost predicate AboveLower(e: Encoding, coarse: bool, lower: Bound, k: Key) {
    match lower
    case Unbounded => true
    case Included(b) => Sees(e, coarse, k, b) != Less
    case Excluded(b) => Sees(e, coarse, k, b) == Greater
  }

  ghost predicate BelowUpper(e: Encoding, coarse: bool, upper: Bound, k: Key) {
    match upper
    case Unbounded => true
    case Included(b) => Sees(e, coarse, k, b) != Greater
    case Excluded(b) => Sees(e, coarse, k, b) == Less
  }

  ghost predicate BoundReadable(e: Encoding, b: Bound) {
    b.Unbounded? || e.readable(b.key)
  }

  /** Position of the first entry the lower bound lets in. */
  ghost function LowPos(t: Tree, s: Shape, lower: Bound): (n: nat)
    requires |s.levels| > 0
    ensures n <= |Flat(t, s)|
  {
    match lower
    case Unbounded => 0
    case Included(k) => Cut(t.enc, s.coarse, LowerBound, LevelKeys(t, s, 0), k)
    case Excluded(k) => Cut(t.enc, s.coarse, UpperBound, LevelKeys(t, s, 0), k)
  }

  /** Position just past the last entry the upper bound lets in. */
  ghost function HighPos(t: Tree, s: Shape, upper: Bound): (n: nat)
    requires |s.levels| > 0
    ensures n <= |Flat(t, s)|
  {
    match upper
    case Unbounded => |Flat(t, s)|
    case Included(k) => Cut(t.enc, s.coarse, UpperBound, LevelKeys(t, s, 0), k)
    case Excluded(k) => Cut(t.enc, s.coarse, LowerBound, LevelKeys(t, s, 0), k)
  }

  /** The slice between the positions is exactly the entries inside the bounds. */
  lemma SliceIsRange(t: Tree, s: Shape, lower: Bound, upper: Bound)
    requires WellFormed(t, s) && BoundReadable(t.enc, lower) && BoundReadable(t.enc, upper)
    ensures forall at :: 0 <= at < |Flat(t, s)| ==>
                           (AboveLower(t.enc, s.coarse, lower, LevelKeys(t, s, 0)[at]) <==> LowPos(t, s, lower) <= at)
    ensures forall at :: 0 <= at < |Flat(t, s)| ==>
                           (BelowUpper(t.enc, s.coarse, upper, LevelKeys(t, s, 0)[at]) <==> at < HighPos(t, s, upper))
  {
    LeafKeysReadable(t, s);
    var ks := LevelKeys(t, s, 0);
    if !lower.Unbounded? {
      NothingBehindCut(t.enc, s.coarse, LowerBound, ks, lower.key);
      NothingBehindCut(t.enc, s.coarse, UpperBound, ks, lower.key);
    }
    if !upper.Unbounded? {
      NothingBehindCut(t.enc, s.coarse, LowerBound, ks, upper.key);
      NothingBehindCut(t.enc, s.coarse, UpperBound, ks, upper.key);
    }
  }

  function Clamp(x: int, hi: nat): (c: nat)
    ensures c <= hi
  {
    if x < 0 then 0 else if x > hi then hi else x
  }

  /** The search inside one leaf is the search in the whole tree, clamped to the leaf. */
  lemma LeafSeesCut(t: Tree, s: Shape, op: SearchOp, key: Key, i: nat)
    requires WellFormed(t, s) && t.enc.readable(key) && i < |s.levels[0]|
    ensures PageCut(t.enc, At(t, s.levels[0][i]), op, key)
         == Clamp(Cut(t.enc, s.coarse, op, LevelKeys(t, s, 0), key) - Off(t, s.levels[0], i), Count(t, s.levels[0][i]))
  {
    var ks, a, p := LevelKeys(t, s, 0), Off(t, s.levels[0], i), At(t, s.levels[0][i]);
    Node(t, s, 0, i);
    LeafKeysReadable(t, s);
    NothingBehindCut(t.enc, s.coarse, op, ks, key);
    PageKeysInLevel(t, s, 0, i);
    ClampCut(t.enc, s.coarse, op, ks, key, a, Keys(t.enc, p));
  }

  lemma ClampCut(e: Encoding, coarse: bool, op: SearchOp, ks: seq<Key>, key: Key, a: nat, part: seq<Key>)
    requires PartAt(ks, a, part)
    requires forall i :: Cut(e, coarse, op, ks, key) <= i < |ks| ==> !Before(e, coarse, op, ks[i], key)
    ensures Cut(e, coarse, op, part, key) == Clamp(Cut(e, coarse, op, ks, key) - a, |part|)
  {
    var n := Clamp(Cut(e, coarse, op, ks, key) - a, |part|);
    forall j | 0 <= j < n
      ensures Before(e, coarse, op, part[j], key)
    {
      assert ks[a + j] == part[j];
    }
    if n < |part| {
      assert ks[a + n] == part[n];
    }
    CutIs(e, coarse, op, part, key, n);
  }

  // ---------------------------------------------------------------- the far bound on one leaf

  /** Everything that says where a cursor stands. */
  datatype Position = Position(
    page: Option<nat>,
    index: nat,
    /** Ascending: one past the last index to emit here. Descending: the lowest. */
    leafLimit: nat,
    leafEndsScan: bool,
    started: bool,
    finished: bool,
    pageStepsLeft: nat)

  /** The far bound inside a leaf: the limit, and whether the scan ends here. */
  method LeafBounds(t: Tree, order: Order, range: KeyRange, p: Page) returns (r: Result<(nat, bool)>)
    requires BoundReadable(t.enc, range.lower) && BoundReadable(t.enc, range.upper)
    ensures Lawful(t.enc) && PageOk(t.enc, p) && order == Ascend ==> r == Ok(
              match range.upper
              case Unbounded => (|p.keys|, false)
              case Included(k) => (PageCut(t.enc, p, UpperBound, k), PageCut(t.enc, p, UpperBound, k) < |p.keys|)
              case Excluded(k) => (PageCut(t.enc, p, LowerBound, k), PageCut(t.enc, p, LowerBound, k) < |p.keys|))
    ensures Lawful(t.enc) && PageOk(t.enc, p) && order == Descend && |p.keys| > 0 ==> r == Ok(
              match range.lower
              case Unbounded => (0, false)
              case Included(k) => (PageCut(t.enc, p, LowerBound, k), PageCut(t.enc, p, LowerBound, k) > 0)
              case Excluded(k) => (PageCut(t.enc, p, UpperBound, k), PageCut(t.enc, p, UpperBound, k) > 0))
  {
    var count := |p.keys|;
    match order {
      case Ascend =>
        if range.upper.Unbounded? {
          return Ok((count, false));
        }
        var op := if range.upper.Included? then UpperBound else LowerBound;
        var found :- LeafSearch(t.enc, p, range.upper.key, op);
        if found.Some? {
          return Ok((found.value, true));
        }
        return Ok((count, false));
      case Descend =>
        if range.lower.Unbounded? {
          return Ok((0, false));
        }
        var op := if range.lower.Included? then LowerBound else UpperBound;
        var found :- LeafSearch(t.enc, p, range.lower.key, op);
        if found.Some? {
          return Ok((found.value, found.value > 0));
        }
        return Ok((count, true));
    }
  }

  /** The cursor stands on leaf `leaf` of a well-formed tree, with the far bound resolved on it. */
  ghost predicate OnLeaf(t: Tree, s: Shape, order: Order, range: KeyRange, pos: Position, leaf: nat) {
    && |s.levels| > 0 && leaf < |s.levels[0]|
    && pos.page == Some(s.levels[0][leaf])
    && pos.index < Count(t, s.levels[0][leaf])
    && pos.started && !pos.finished
    && var a, n := Off(t, s.levels[0], leaf), Count(t, s.levels[0][leaf]);
    match order
    case Ascend =>
      && pos.leafLimit == Clamp(HighPos(t, s, range.upper) - a, n)
      && (pos.leafEndsScan <==> HighPos(t, s, range.upper) < a + n)
      && pos.pageStepsLeft + leaf > |t.file|
    case Descend =>
      && pos.leafLimit == Clamp(LowPos(t, s, range.lower) - a, n)
      && (pos.leafEndsScan <==> LowPos(t, s, range.lower) > a)
      && pos.pageStepsLeft > leaf + 1
  }

  /** The entry the cursor stands on. */
  ghost function Here(t: Tree, s: Shape, pos: Position, leaf: nat): nat
    requires |s.levels| > 0 && leaf < |s.levels[0]|
  {
    Off(t, s.levels[0], leaf) + pos.index
  }

  ghost predicate Inside(t: Tree, s: Shape, order: Order, range: KeyRange, at: int)
    requires |s.levels| > 0
  {
    match order
    case Ascend => at < HighPos(t, s, range.upper)
    case Descend => at >= LowPos(t, s, range.lower)
  }

  /** What the bounds of a leaf are in terms of the whole tree. */
  lemma BoundsOnLeaf(t: Tree, s: Shape, range: KeyRange, i: nat)
    requires WellFormed(t, s) && i < |s.levels[0]| && Count(t, s.levels[0][i]) > 0
    requires BoundReadable(t.enc, range.lower) && BoundReadable(t.enc, range.upper)
    ensures var p, a, n := At(t, s.levels[0][i]), Off(t, s.levels[0], i), Count(t, s.levels[0][i]);
            && (match range.upper
                case Unbounded => Clamp(HighPos(t, s, range.upper) - a, n) == n && HighPos(t, s, range.upper) >= a + n
                case Included(k) => PageCut(t.enc, p, UpperBound, k) == Clamp(HighPos(t, s, range.upper) - a, n)
                case Excluded(k) => PageCut(t.enc, p, LowerBound, k) == Clamp(HighPos(t, s, range.upper) - a, n))
            && (match range.lower
                case Unbounded => Clamp(LowPos(t, s, range.lower) - a, n) == 0 && LowPos(t, s, range.lower) <= a
                case Included(k) => PageCut(t.enc, p, LowerBound, k) == Clamp(LowPos(t, s, range.lower) - a, n)
                case Excluded(k) => PageCut(t.enc, p, UpperBound, k) == Clamp(LowPos(t, s, range.lower) - a, n))
  {
    PageKeysInLevel(t, s, 0, i);
    if !range.upper.Unbounded? {
      LeafSeesCut(t, s, UpperBound, range.upper.key, i);
      LeafSeesCut(t, s, LowerBound, range.upper.key, i);
    }
    if !range.lower.Unbounded? {
      LeafSeesCut(t, s, UpperBound, range.lower.key, i);
      LeafSeesCut(t, s, LowerBound, range.lower.key, i);
    }
  }

  /** Puts the cursor on an entry of a leaf and resolves the far bound there. */
  method Land(t: Tree, order: Order, range: KeyRange, ordinal: nat, p: Page, index: nat, stepsLeft: nat,
              ghost s: Shape, ghost leaf: nat)
    returns (r: Result<Position>)
    requires BoundReadable(t.enc, range.lower) && BoundReadable(t.enc, range.upper)
    requires p == At(t, ordinal)
    requires WellFormed(t, s) ==>
               && leaf < |s.levels[0]| && ordinal == s.levels[0][leaf] && index < |p.keys|
               && (if order == Ascend then stepsLeft + leaf > |t.file| else stepsLeft > leaf + 1)
    ensures r.Ok? ==> r.value.pageStepsLeft == stepsLeft && r.value.index == index && r.value.page == Some(ordinal)
    ensures WellFormed(t, s) ==> r.Ok? && OnLeaf(t, s, order, range, r.value, leaf)
  {
    ghost var wf := WellFormed(t, s);
    if wf {
      Node(t, s, 0, leaf);
      BoundsOnLeaf(t, s, range, leaf);
    }
    var bounds :- LeafBounds(t, order, range, p);
    r := Ok(Position(Some(ordinal), index, bounds.0, bounds.1, true, false, stepsLeft));
  }

  // ---------------------------------------------------------------- moving

  /** The entry after, or before, everything on leaf `leaf`. */
  ghost function Beyond(t: Tree, s: Shape, order: Order, leaf: nat): int
    requires |s.levels| > 0 && leaf < |s.levels[0]|
  {
    match order
    case Ascend => Off(t, s.levels[0], leaf) + Count(t, s.levels[0][leaf])
    case Descend => Off(t, s.levels[0], leaf) - 1
  }

  ghost function LeafBeyond(order: Order, leaf: nat): int {
    if order == Ascend then leaf + 1 else leaf - 1
  }

  /** Where moving off a leaf may lead: to the entry beyond it, or nowhere because that entry is
      outside the range. */
  ghost predicate MovedTo(t: Tree, s: Shape, order: Order, range: KeyRange, to: Option<Position>, leaf': nat, at: int)
    requires |s.levels| > 0
  {
    match to
    case None => !Inside(t, s, order, range, at)
    case Some(pos) => OnLeaf(t, s, order, range, pos, leaf') && Here(t, s, pos, leaf') == at
  }

  lemma SiblingOnChain(t: Tree, s: Shape, avail: set<nat>, order: Order, leaf: nat)
    requires WellFormed(t, s) && leaf < |s.levels[0]|
    ensures var p := At(t, s.levels[0][leaf]);
            var sibling := if order == Ascend then p.right else p.left;
            && (sibling.None? ==> if order == Ascend then leaf == |s.levels[0]| - 1 else leaf == 0)
            && (sibling.Some? ==>
                  var to := sibling.value;
                  && 0 <= LeafBeyond(order, leaf) < |s.levels[0]| && to == s.levels[0][LeafBeyond(order, leaf)]
                  && PageOk(t.enc, At(t, to)) && At(t, to).kind == Leaf && |At(t, to).keys| > 0
                  && (if order == Ascend then At(t, to).left else At(t, to).right) == Some(s.levels[0][leaf])
                  && (AllAvailable(t, avail) ==> Load(t, avail, to).Ok?))
  {
    Node(t, s, 0, leaf);
    var next := LeafBeyond(order, leaf);
    if 0 <= next < |s.levels[0]| {
      Node(t, s, 0, next);
      WellFormedRoutes(t, s);
      PageOnLevel(t, s, avail, 0, next);
    }
  }

  lemma BeyondIsNext(t: Tree, s: Shape, order: Order, leaf: nat)
    requires WellFormed(t, s) && leaf < |s.levels[0]|
    ensures 0 <= LeafBeyond(order, leaf) < |s.levels[0]| ==>
              var next := LeafBeyond(order, leaf);
              Beyond(t, s, order, leaf)
              == Off(t, s.levels[0], next) + (if order == Ascend then 0 else Count(t, s.levels[0][next]) - 1)
    ensures order == Ascend && leaf == |s.levels[0]| - 1 ==> Beyond(t, s, order, leaf) == |Flat(t, s)|
    ensures order == Descend && leaf == 0 ==> Beyond(t, s, order, leaf) == -1
  {
    OffNext(t, s.levels[0], leaf);
    if leaf > 0 {
      OffNext(t, s.levels[0], leaf - 1);
    }
    OffEnds(t, s.levels[0]);
  }

  /** The cursor stands on a sound leaf, or on none. */
  ghost predicate OnSound(t: Tree, pos: Position) {
    pos.page.Some? ==> SoundLeaf(t, pos.page.value)
  }

  /** Moves to the adjacent leaf, honouring the "the bound ended here" flag. */
  method NextPage(t: Tree, avail: set<nat>, order: Order, range: KeyRange, pos: Position, ghost s: Shape,
                  ghost leaf: nat)
    returns (r: Result<Option<Position>>, ghost leaf': nat)
    requires BoundReadable(t.enc, range.lower) && BoundReadable(t.enc, range.upper)
    requires WellFormed(t, s) ==> OnLeaf(t, s, order, range, pos, leaf)
    ensures pos.leafEndsScan ==> r == Ok(None)
    ensures r.Ok? && r.value.Some? ==> r.value.value.pageStepsLeft < pos.pageStepsLeft && OnSound(t, r.value.value)
    ensures WellFormed(t, s) && r.Ok? ==> MovedTo(t, s, order, range, r.value, leaf', Beyond(t, s, order, leaf))
    ensures WellFormed(t, s) && AllAvailable(t, avail) ==> r.Ok?
  {
    leaf' := 0;
    ghost var wf := WellFormed(t, s);
    if wf {
      SiblingOnChain(t, s, avail, order, leaf);
      BeyondIsNext(t, s, order, leaf);
      LastLeafIsEdge(t, s);
      LevelFitsFile(t, s, 0);
    }
    if pos.leafEndsScan {
      return Ok(None), leaf';
    }
    if pos.pageStepsLeft == 0 {
      return Err(Corrupt), leaf';
    }
    if pos.page.None? {
      return Ok(None), leaf';
    }
    var ordinal := pos.page.value;
    var page := At(t, ordinal);
    var sibling := if order == Ascend then page.right else page.left;
    if sibling.None? {
      var ends := EndsAt(t, avail, ordinal, order == Ascend, s);
      if ends.Err? {
        return Err(ends.kind), leaf';
      }
      if !ends.value {
        return Err(Corrupt), leaf';
      }
      return Ok(None), leaf';
    }
    var next := StepSibling(t, avail, ordinal, sibling.value, order == Ascend);
    if next.Err? {
      return Err(next.kind), leaf';
    }
    var count := |next.value.keys|;
    var index := if order == Ascend || count == 0 then 0 else count - 1;
    leaf' := if wf then LeafBeyond(order, leaf) else 0;
    var landed := Land(t, order, range, sibling.value, next.value, index, pos.pageStepsLeft - 1, s, leaf');
    if landed.Err? {
      return Err(landed.kind), leaf';
    }
    r := Ok(Some(landed.value));
  }

  /** Whether the index is inside the window of its leaf. */
  predicate InWindow(t: Tree, order: Order, pos: Position) {
    pos.page.Some? &&
    var count := |At(t, pos.page.value).keys|;
    match order
    case Ascend => pos.index < pos.leafLimit && pos.index < count
    case Descend => count > 0 && pos.index >= pos.leafLimit && pos.index < count
  }

  lemma WindowMeansInside(t: Tree, s: Shape, order: Order, range: KeyRange, pos: Position, leaf: nat)
    requires OnLeaf(t, s, order, range, pos, leaf)
    ensures InWindow(t, order, pos) <==> Inside(t, s, order, range, Here(t, s, pos, leaf))
    ensures !InWindow(t, order, pos) ==> pos.leafEndsScan
  {
  }

  /** Walks on until the index is inside the window of its leaf. */
  method SkipToValid(t: Tree, avail: set<nat>, order: Order, range: KeyRange, start: Position, ghost s: Shape,
                     ghost leaf: nat)
    returns (r: Result<Option<Position>>)
    requires BoundReadable(t.enc, range.lower) && BoundReadable(t.enc, range.upper)
    requires OnSound(t, start)
    requires WellFormed(t, s) ==> OnLeaf(t, s, order, range, start, leaf)
    ensures r.Ok? && r.value.Some? ==> OnSound(t, r.value.value)
    ensures WellFormed(t, s) ==>
              r == Ok(if Inside(t, s, order, range, Here(t, s, start, leaf)) then Some(start) else None)
  {
    var pos := start;
    ghost var i := leaf;
    ghost var wf := WellFormed(t, s);
    while true
      invariant OnSound(t, pos) && (wf ==> pos == start && i == leaf)
      decreases pos.pageStepsLeft
    {
      if wf {
        WindowMeansInside(t, s, order, range, pos, i);
      }
      if pos.page.None? {
        return Ok(None);
      }
      if InWindow(t, order, pos) {
        return Ok(Some(pos));
      }
      var moved;
      moved, i := NextPage(t, avail, order, range, pos, s, i);
      if moved.Err? {
        return Err(moved.kind);
      }
      if moved.value.None? {
        return Ok(None);
      }
      pos := moved.value.value;
    }
  }

  ghost function NextAt(order: Order, at: int): int {
    if order == Ascend then at + 1 else at - 1
  }

  lemma StepWithinLeaf(t: Tree, s: Shape, order: Order, range: KeyRange, pos: Position, leaf: nat)
    requires WellFormed(t, s) && OnLeaf(t, s, order, range, pos, leaf)
    requires Inside(t, s, order, range, Here(t, s, pos, leaf))
    ensures var inLeaf := if order == Ascend then pos.index + 1 < pos.leafLimit else pos.index > pos.leafLimit;
            && (inLeaf ==> Inside(t, s, order, range, NextAt(order, Here(t, s, pos, leaf))))
            && (!inLeaf && pos.leafEndsScan ==> !Inside(t, s, order, range, NextAt(order, Here(t, s, pos, leaf))))
            && (!inLeaf && !pos.leafEndsScan ==> NextAt(order, Here(t, s, pos, leaf)) == Beyond(t, s, order, leaf))
  {
  }

  /** Moves one entry on. */
  method Step(t: Tree, avail: set<nat>, order: Order, range: KeyRange, pos: Position, ghost s: Shape, ghost leaf: nat)
    returns (r: Result<Option<Position>>, ghost leaf': nat)
    requires BoundReadable(t.enc, range.lower) && BoundReadable(t.enc, range.upper)
    requires OnSound(t, pos)
    requires WellFormed(t, s) ==>
               OnLeaf(t, s, order, range, pos, leaf) && Inside(t, s, order, range, Here(t, s, pos, leaf))
    ensures r.Ok? && r.value.Some? ==> OnSound(t, r.value.value)
    ensures WellFormed(t, s) && r.Ok? ==>
              MovedTo(t, s, order, range, r.value, leaf', NextAt(order, Here(t, s, pos, leaf)))
    ensures WellFormed(t, s) && r.Ok? && r.value.Some? ==> Inside(t, s, order, range, Here(t, s, r.value.value, leaf'))
    ensures WellFormed(t, s) && AllAvailable(t, avail) ==> r.Ok?
  {
    leaf' := leaf;
    ghost var wf := WellFormed(t, s);
    if wf {
      StepWithinLeaf(t, s, order, range, pos, leaf);
    }
    if order == Ascend && pos.index + 1 < pos.leafLimit {
      return Ok(Some(pos.(index := pos.index + 1))), leaf';
    }
    if order == Descend && pos.index > pos.leafLimit {
      return Ok(Some(pos.(index := pos.index - 1))), leaf';
    }
    var moved;
    moved, leaf' := NextPage(t, avail, order, range, pos, s, leaf);
    if moved.Err? || moved.value.None? {
      return moved, leaf';
    }
    r := SkipToValid(t, avail, order, range, moved.value.value, s, leaf');
  }

  // ---------------------------------------------------------------- the first entry

  /** The position a scan in this order starts from. */
  ghost function FirstAt(t: Tree, s: Shape, order: Order, range: KeyRange): int
    requires |s.levels| > 0
  {
    if order == Ascend then LowPos(t, s, range.lower) else HighPos(t, s, range.upper) - 1
  }

  /** A found spot, or none because the position it should have is outside the tree. */
  ghost predicate SpotFor(t: Tree, s: Shape, found: Option<Spot>, at: int)
    requires |s.levels| > 0
  {
    match found
    case None => !(0 <= at < |Flat(t, s)|)
    case Some(spot) => StandsAt(t, s, spot, at)
  }

  lemma EdgeStands(t: Tree, s: Shape, leftmost: bool)
    requires WellFormed(t, s)
    ensures |s.levels[0]| > 0
    ensures SpotFor(t, s, EdgeSpot(t, s, leftmost), if leftmost then 0 else |Flat(t, s)| - 1)
  {
    assert LevelOk(t, s, 0);
    var i := EdgeIndex(s.levels[0], leftmost);
    Node(t, s, 0, i);
    OffNext(t, s.levels[0], i);
    OffEnds(t, s.levels[0]);
    assert s.levels[0][i] == s.levels[0][EdgeIndex(s.levels[0], leftmost)];
  }

  lemma AnswerStands(t: Tree, s: Shape, op: SearchOp, key: Key, found: Option<Spot>)
    requires WellFormed(t, s) && op != EqualTo && Answers(t, s, op, key, found)
    ensures SpotFor(t, s, found, Cut(t.enc, s.coarse, op, LevelKeys(t, s, 0), key))
  {
  }

  /** The last entry of the nearest leaf to the left that holds one. */
  method LastOnTheLeft(t: Tree, avail: set<nat>, from: nat, ghost s: Shape, ghost leaf: nat)
    returns (r: Result<Option<Spot>>)
    requires WellFormed(t, s) ==> leaf < |s.levels[0]| && from == s.levels[0][leaf]
    ensures r.Ok? && r.value.Some? ==> SoundSpot(t, r.value.value)
    ensures WellFormed(t, s) && r.Ok? ==> SpotFor(t, s, r.value, Off(t, s.levels[0], leaf) - 1)
    ensures WellFormed(t, s) && AllAvailable(t, avail) ==> r.Ok?
  {
    ghost var wf := WellFormed(t, s);
    var ordinal := from;
    var stepsLeft: nat := |t.file| + 1;
    while true
      invariant wf ==> ordinal == from && stepsLeft == |t.file| + 1
      decreases stepsLeft
    {
      if wf {
        SiblingOnChain(t, s, avail, Descend, leaf);
        BeyondIsNext(t, s, Descend, leaf);
        LastLeafIsEdge(t, s);
      }
      var left := At(t, ordinal).left;
      if left.None? {
        var ends :- EndsAt(t, avail, ordinal, false, s);
        if !ends {
          return Err(Corrupt);
        }
        return Ok(None);
      }
      if stepsLeft == 0 {
        return Err(Corrupt);
      }
      stepsLeft := stepsLeft - 1;
      var page :- StepSibling(t, avail, ordinal, left.value, false);
      if |page.keys| > 0 {
        return Ok(Some(Spot(left.value, |page.keys| - 1)));
      }
      ordinal := left.value;
    }
  }

  /** The entry just before the upper bound. */
  method DescendingStart(t: Tree, avail: set<nat>, key: Key, op: SearchOp, ghost s: Shape)
    returns (r: Result<Option<Spot>>)
    requires op != EqualTo && t.enc.readable(key)
    ensures r.Ok? && r.value.Some? ==> SoundSpot(t, r.value.value)
    ensures WellFormed(t, s) && r.Ok? ==> SpotFor(t, s, r.value, Cut(t.enc, s.coarse, op, LevelKeys(t, s, 0), key) - 1)
    ensures WellFormed(t, s) && AllAvailable(t, avail) ==> r.Ok?
  {
    ghost var wf := WellFormed(t, s);
    var found :- Search(t, avail, key, op, s);
    if wf {
      EdgeStands(t, s, false);
      AnswerStands(t, s, op, key, found);
    }
    if found.None? {
      r := EdgeLeaf(t, avail, false, s);
      return;
    }
    ghost var i: nat := 0;
    if wf {
      i :| 0 <= i < |s.levels[0]| && s.levels[0][i] == found.value.page
        && found.value.index < Count(t, found.value.page)
        && Off(t, s.levels[0], i) + found.value.index == TreeAnswer(t, s, op, key).value;
    }
    if found.value.index > 0 {
      return Ok(Some(Spot(found.value.page, found.value.index - 1)));
    }
    r := LastOnTheLeft(t, avail, found.value.page, s, i);
  }

  /** Where the scan starts. */
  method StartSpot(t: Tree, avail: set<nat>, order: Order, range: KeyRange, ghost s: Shape)
    returns (r: Result<Option<Spot>>)
    requires BoundReadable(t.enc, range.lower) && BoundReadable(t.enc, range.upper)
    ensures r.Ok? && r.value.Some? ==> SoundSpot(t, r.value.value)
    ensures WellFormed(t, s) && r.Ok? ==> SpotFor(t, s, r.value, FirstAt(t, s, order, range))
    ensures WellFormed(t, s) && AllAvailable(t, avail) ==> r.Ok?
  {
    ghost var wf := WellFormed(t, s);
    if order == Ascend {
      if range.lower.Unbounded? {
        if wf {
          EdgeStands(t, s, true);
        }
        r := EdgeLeaf(t, avail, true, s);
        return;
      }
      var op := if range.lower.Included? then LowerBound else UpperBound;
      r := Search(t, avail, range.lower.key, op, s);
      if wf && r.Ok? {
        AnswerStands(t, s, op, range.lower.key, r.value);
      }
    } else {
      if range.upper.Unbounded? {
        if wf {
          EdgeStands(t, s, false);
        }
        r := EdgeLeaf(t, avail, false, s);
        return;
      }
      r := DescendingStart(t, avail, range.upper.key, if range.upper.Included? then UpperBound else LowerBound, s);
    }
  }

  /** Positions an unstarted cursor on its first entry. */
  method SeekFirst(t: Tree, avail: set<nat>, order: Order, range: KeyRange, stepsLeft: nat, ghost s: Shape)
    returns (r: Result<Option<Position>>, ghost leaf: nat)
    requires BoundReadable(t.enc, range.lower) && BoundReadable(t.enc, range.upper)
    requires stepsLeft == |t.file| + 1
    ensures r.Ok? && r.value.Some? ==> OnSound(t, r.value.value)
    ensures WellFormed(t, s) && r.Ok? && r.value.None? ==>
              !(0 <= FirstAt(t, s, order, range) < |Flat(t, s)|
                && Inside(t, s, order, range, FirstAt(t, s, order, range)))
    ensures WellFormed(t, s) && r.Ok? && r.value.Some? ==>
              && OnLeaf(t, s, order, range, r.value.value, leaf)
              && Here(t, s, r.value.value, leaf) == FirstAt(t, s, order, range)
              && Inside(t, s, order, range, FirstAt(t, s, order, range))
    ensures WellFormed(t, s) && AllAvailable(t, avail) ==> r.Ok?
  {
    leaf := 0;
    ghost var wf := WellFormed(t, s);
    var start := StartSpot(t, avail, order, range, s);
    if start.Err? {
      return Err(start.kind), leaf;
    }
    if start.value.None? {
      return Ok(None), leaf;
    }
    var spot := start.value.value;
    if wf {
      leaf :| 0 <= leaf < |s.levels[0]| && s.levels[0][leaf] == spot.page
           && spot.index < Count(t, spot.page) && Off(t, s.levels[0], leaf) + spot.index == FirstAt(t, s, order, range);
      LevelFitsFile(t, s, 0);
    }
    var landed := Land(t, order, range, spot.page, At(t, spot.page), spot.index, stepsLeft, s, leaf);
    if landed.Err? {
      return Err(landed.kind), leaf;
    }
    r := SkipToValid(t, avail, order, range, landed.value, s, leaf);
  }
}
