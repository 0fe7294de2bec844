/**
 The cursor as its callers see it: a position that moves one entry per call, put back when a call
 fails, and the count of a range without reading its values.
 */
module Cursors {
  import opened Base
  import opened Encodings
  import opened Pages
  import opened Sequences
  import opened Trees
  import opened Searching
  import opened Queries

  /** A row as it is handed out. */
  datatype Entry = Entry(key: Key, value: seq<Byte>)

  // ---------------------------------------------------------------- what a scan selects

  /** The bytes a leaf entry stands for, followed to its blob page if need be. */
  ghost function ValueOf(t: Tree, payload: Payload): seq<Byte> {
    match payload
    case Inline(bytes) => bytes
    case Overflow(o) => At(t, o).blob
    case Child(_) => []
  }

  /** Number of entries in a range. */
  ghost function Total(t: Tree, s: Shape, range: KeyRange): nat
    requires |s.levels| > 0
  {
    var lo, hi := LowPos(t, s, range.lower), HighPos(t, s, range.upper);
    if range.empty || hi <= lo then 0 else hi - lo
  }

  /** Position of the `i`-th entry of a scan. */
  ghost function PlaceOf(t: Tree, s: Shape, order: Order, range: KeyRange, i: int): int
    requires |s.levels| > 0
  {
    if order == Ascend then LowPos(t, s, range.lower) + i else HighPos(t, s, range.upper) - 1 - i
  }

  /** The rows a scan hands out: those inside the bounds, in its order. */
  ghost function Selected(t: Tree, s: Shape, order: Order, range: KeyRange): (es: seq<Entry>)
    requires |s.levels| > 0
    ensures |es| == Total(t, s, range)
  {
    seq(Total(t, s, range), i requires 0 <= i < Total(t, s, range) =>
      var row := Flat(t, s)[PlaceOf(t, s, order, range, i)];
      Entry(row.key, ValueOf(t, row.payload)))
  }

  lemma SelectedAt(t: Tree, s: Shape, range: KeyRange, i: nat)
    requires |s.levels| > 0 && i < Total(t, s, range)
    ensures var at := LowPos(t, s, range.lower) + i;
            at < |Flat(t, s)| && Selected(t, s, Ascend, range)[i] ==
                Entry(Flat(t, s)[at].key, ValueOf(t, Flat(t, s)[at].payload))
  {
  }

  lemma SelectedNext(t: Tree, s: Shape, order: Order, range: KeyRange, handed: seq<Entry>)
    requires |s.levels| > 0 && |handed| < Total(t, s, range) && handed <= Selected(t, s, order, range)
    ensures 0 <= PlaceOf(t, s, order, range, |handed|) < |Flat(t, s)|
    ensures var row := Flat(t, s)[PlaceOf(t, s, order, range, |handed|)];
            handed + [Entry(row.key, ValueOf(t, row.payload))] <= Selected(t, s, order, range)
  {
  }

  /** Both orders hand out the same rows, one backwards. */
  lemma DescendingReverses(t: Tree, s: Shape, range: KeyRange, i: nat)
    requires |s.levels| > 0 && i < Total(t, s, range)
    ensures Selected(t, s, Descend, range)[i] == Selected(t, s, Ascend, range)[Total(t, s, range) - 1 - i]
  {
    assert PlaceOf(t, s, Descend, range, i) == PlaceOf(t, s, Ascend, range, Total(t, s, range) - 1 - i);
  }

  /** A row is selected exactly when its key is inside both bounds. */
  lemma SelectedIsFiltered(t: Tree, s: Shape, range: KeyRange, at: nat)
    requires WellFormed(t, s) && BoundReadable(t.enc, range.lower) && BoundReadable(t.enc, range.upper)
    requires at < |Flat(t, s)| && !range.empty
    ensures var key := LevelKeys(t, s, 0)[at];
            (AboveLower(t.enc, s.coarse, range.lower, key) && BelowUpper(t.enc, s.coarse, range.upper, key))
            <==> exists i :: 0 <= i < Total(t, s, range) && PlaceOf(t, s, Ascend, range, i) == at
  {
    SliceIsRange(t, s, range.lower, range.upper);
    var i := at - LowPos(t, s, range.lower);
    assert PlaceOf(t, s, Ascend, range, i) == at;
  }

  /** Every overflowing row of the tree has its blob page. */
  ghost predicate BlobsOk(t: Tree, s: Shape)
    requires |s.levels| > 0
  {
    forall at :: 0 <= at < |Flat(t, s)| && Flat(t, s)[at].payload.Overflow? ==>
                   IsBlob(t, Flat(t, s)[at].payload.blob)
  }

  predicate IsBlob(t: Tree, o: nat) {
    o < |t.file| && t.file[o].Some? && At(t, o).kind == Leaf && |At(t, o).keys| == 0
  }

  // ---------------------------------------------------------------- reading one entry

  /** Reads a value off its own page. */
  method ReadBlob(t: Tree, avail: set<nat>, o: nat) returns (r: Result<seq<Byte>>)
    ensures r.Ok? <==> Load(t, avail, o).Ok? && At(t, o).kind == Leaf && Count(t, o) == 0
    ensures r.Ok? ==> r.value == At(t, o).blob && IsBlob(t, o)
    ensures IsBlob(t, o) && AllAvailable(t, avail) ==> r.Ok?
  {
    var p :- Load(t, avail, o);
    if p.kind != Leaf || |p.keys| != 0 {
      return Err(Corrupt);
    }
    r := Ok(p.blob);
  }

  /** Reads the entry at `index`. `room` says whether a buffer for a rebuilt key can be reserved. */
  method Materialize(t: Tree, avail: set<nat>, room: bool, page: Option<nat>, index: nat) returns (r: Result<Entry>)
    ensures r.Ok? ==> page.Some? && index < Count(t, page.value)
    ensures r.Ok? && PageOk(t.enc, At(t, page.value)) && Lawful(t.enc) ==>
              r.value == Entry(KeyAt(t.enc, At(t, page.value), index), ValueOf(t, At(t, page.value).payloads[index]))
    ensures (&& page.Some? && index < Count(t, page.value) && Lawful(t.enc) && PageOk(t.enc, At(t, page.value))
             && At(t, page.value).kind == Leaf && AllAvailable(t, avail) && room
             && var payload := At(t, page.value).payloads[index];
                (payload.Overflow? ==> IsBlob(t, payload.blob))) ==> r.Ok?
  {
    if page.None? {
      return Err(Corrupt);
    }
    var p := At(t, page.value);
    if index >= |p.keys| {
      return Err(Corrupt);
    }
    var key := p.keys[index];
    if p.layout.omittedKeys {
      if !t.enc.rebuilds {
        return Err(Corrupt);
      }
      if !room {
        return Err(BudgetExceeded);
      }
      var rebuilt := t.enc.rebuild(p.slots[index]);
      if rebuilt.Some? {
        key := rebuilt.value;
      }
    }
    match p.payloads[index] {
      case Inline(bytes) =>
        r := Ok(Entry(key, bytes));
      case Overflow(o) =>
        var value :- ReadBlob(t, avail, o);
        r := Ok(Entry(key, value));
      case Child(_) =>
        r := Err(Corrupt);
    }
  }

  lemma EntryHere(t: Tree, s: Shape, order: Order, range: KeyRange, pos: Position, leaf: nat)
    requires WellFormed(t, s) && OnLeaf(t, s, order, range, pos, leaf)
    ensures var o := s.levels[0][leaf];
            && PageOk(t.enc, At(t, o)) && At(t, o).kind == Leaf
            && Here(t, s, pos, leaf) < |Flat(t, s)|
            && Flat(t, s)[Here(t, s, pos, leaf)] == Row(KeyAt(t.enc, At(t, o), pos.index), At(t, o).payloads[pos.index])
  {
    Node(t, s, 0, leaf);
    RowOfPage(t, s.levels[0], leaf, pos.index);
  }

  /** The row is the entry at this position of a leaf, and a sound one where pages are checked: whatever the file is
      like, its key and its value belong together. */
  ghost predicate ReadFrom(t: Tree, pos: Position, row: Entry) {
    && pos.page.Some? && SoundLeaf(t, pos.page.value) && pos.index < Count(t, pos.page.value)
    && (Lawful(t.enc) && t.validate ==>
          var p := At(t, pos.page.value);
          row == Entry(KeyAt(t.enc, p, pos.index), ValueOf(t, p.payloads[pos.index])))
  }

  // ---------------------------------------------------------------- the cursor

  class Cursor {
    const tree: Tree
    const order: Order
    const range: KeyRange
    var pos: Position
    var current: Option<Entry>

    /** The levels of the tree, if it is well formed. */
    ghost const shape: Shape
    /** The leaf the cursor stands on. */
    ghost var leaf: nat
    /** Every row handed out so far. */
    ghost var handed: seq<Entry>

    /** Standing on the row handed out last. */
    ghost predicate Standing(pos: Position, leaf: nat, handed: seq<Entry>) {
      && |shape.levels| > 0 && |handed| > 0
      && OnLeaf(tree, shape, order, range, pos, leaf)
      && Here(tree, shape, pos, leaf) == PlaceOf(tree, shape, order, range, |handed| - 1)
    }

    /** On a well-formed tree the rows handed out are a prefix of the rows selected, and the cursor
        stands on the last of them. */
    ghost predicate OnTrack(pos: Position, leaf: nat, handed: seq<Entry>) {
      && |shape.levels| > 0
      && handed <= Selected(tree, shape, order, range)
      && (pos.finished ==> handed == Selected(tree, shape, order, range))
      && (!pos.finished && !pos.started ==> handed == [] && pos.pageStepsLeft == |tree.file| + 1)
      && (!pos.finished && pos.started ==> Standing(pos, leaf, handed))
      && (!pos.finished ==> !range.empty)
    }

    /** A position the cursor can go on from, with these rows handed out. */
    ghost predicate ValidWith(pos: Position, leaf: nat, handed: seq<Entry>) {
      && (!pos.finished ==> BoundReadable(tree.enc, range.lower) && BoundReadable(tree.enc, range.upper))
      && (!pos.started && !pos.finished ==> pos.pageStepsLeft == |tree.file| + 1)
      && OnSound(tree, pos)
      && (WellFormed(tree, shape) ==> OnTrack(pos, leaf, handed))
    }

    ghost predicate Valid()
      reads this
    {
      ValidWith(pos, leaf, handed)
    }

    constructor (tree: Tree, order: Order, range: KeyRange, ghost shape: Shape)
      requires !range.empty ==> BoundReadable(tree.enc, range.lower) && BoundReadable(tree.enc, range.upper)
      ensures Valid() && handed == [] && current.None?
      ensures this.tree == tree && this.order == order && this.range == range && this.shape == shape
    {
      this.tree := tree;
      this.order := order;
      this.range := range;
      this.shape := shape;
      pos := Position(None, 0, 0, false, range.empty, range.empty, if range.empty then 0 else |tree.file| + 1);
      current := None;
      leaf := 0;
      handed := [];
    }

    /** Moves to the next entry. A call that fails leaves the cursor where it was, so the call after
        it tries the same row again: none is skipped and none is handed out twice. */
    method Advance(avail: set<nat>, room: bool) returns (r: Result<bool>)
      requires Valid()
      modifies this
      ensures Valid()
      ensures old(pos.finished) ==> r == Ok(false)
      ensures r == Ok(false) ==> pos.finished
      ensures r == Ok(true) ==>
                current.Some? && handed == old(handed) + [current.value] && ReadFrom(tree, pos, current.value)
      ensures r != Ok(true) ==> current.None? && handed == old(handed)
      ensures r.Err? ==> pos == old(pos)
      ensures WellFormed(tree, shape) && r.Ok? ==> (r.value <==> old(handed) != Selected(tree, shape, order, range))
      ensures WellFormed(tree, shape) && BlobsOk(tree, shape) && AllAvailable(tree, avail) && room ==> r.Ok?
    {
      current := None;
      if pos.finished {
        return Ok(false);
      }
      var saved := pos;
      ghost var savedLeaf := leaf;
      r := StepAndRead(avail, room);
      if r.Err? {
        Restore(saved, savedLeaf, handed);
      }
    }

    /** Puts the cursor back to where it was. */
    method Restore(saved: Position, ghost savedLeaf: nat, ghost rows: seq<Entry>)
      requires ValidWith(saved, savedLeaf, rows)
      modifies this
      ensures Valid() && pos == saved && leaf == savedLeaf && handed == rows && current == None
    {
      pos, current := saved, None;
      leaf, handed := savedLeaf, rows;
    }

    /** The step inside `Advance`, which may leave the cursor anywhere when it fails. */
    method StepAndRead(avail: set<nat>, room: bool) returns (r: Result<bool>)
      requires Valid() && !pos.finished && current.None?
      modifies this
      ensures r.Ok? ==> Valid()
      ensures r == Ok(false) ==> pos.finished
      ensures r == Ok(true) ==>
                current.Some? && handed == old(handed) + [current.value] && ReadFrom(tree, pos, current.value)
      ensures r != Ok(true) ==> current.None? && handed == old(handed)
      ensures WellFormed(tree, shape) && r.Ok? ==> (r.value <==> old(handed) != Selected(tree, shape, order, range))
      ensures WellFormed(tree, shape) && BlobsOk(tree, shape) && AllAvailable(tree, avail) && room ==> r.Ok?
    {
      var moved;
      ghost var to;
      moved, to := Move(avail);
      if moved.Err? {
        return Err(moved.kind);
      }
      if moved.value.None? {
        pos := pos.(page := None, started := true, finished := true);
        return Ok(false);
      }
      r := ReadAt(avail, room, moved.value.value.(started := true), to);
    }

    /** Reads the entry at the next position and stands on it. */
    method ReadAt(avail: set<nat>, room: bool, next: Position, ghost to: nat) returns (r: Result<bool>)
      requires Valid() && !pos.finished && current.None? && next.started && OnSound(tree, next)
      requires WellFormed(tree, shape) ==>
                 && |handed| < Total(tree, shape, range)
                 && OnLeaf(tree, shape, order, range, next, to)
                 && Here(tree, shape, next, to) == PlaceOf(tree, shape, order, range, |handed|)
      modifies this
      ensures r.Ok? ==>
                && Valid() && r.value
                && current.Some? && handed == old(handed) + [current.value] && ReadFrom(tree, pos, current.value)
      ensures r.Err? ==> current.None? && handed == old(handed)
      ensures WellFormed(tree, shape) && BlobsOk(tree, shape) && AllAvailable(tree, avail) && room ==> r.Ok?
    {
      if WellFormed(tree, shape) {
        EntryHere(tree, shape, order, range, next, to);
        SelectedNext(tree, shape, order, range, handed);
      }
      pos := next;
      leaf := to;
      var entry := Materialize(tree, avail, room, next.page, next.index);
      if entry.Err? {
        return Err(entry.kind);
      }
      current := Some(entry.value);
      handed := handed + [entry.value];
      r := Ok(true);
    }

    /** Finds the next entry without reading it. */
    method Move(avail: set<nat>) returns (moved: Result<Option<Position>>, ghost to: nat)
      requires Valid() && !pos.finished
      ensures moved.Ok? && moved.value.Some? ==> OnSound(tree, moved.value.value)
      ensures WellFormed(tree, shape) && moved.Ok? ==>
                (moved.value.Some? <==> |handed| < Total(tree, shape, range))
      ensures WellFormed(tree, shape) && moved.Ok? && moved.value.Some? ==>
                && OnLeaf(tree, shape, order, range, moved.value.value, to)
                && Here(tree, shape, moved.value.value, to) == PlaceOf(tree, shape, order, range, |handed|)
      ensures WellFormed(tree, shape) && AllAvailable(tree, avail) ==> moved.Ok?
    {
      if WellFormed(tree, shape) {
        NextPlace();
      }
      if !pos.started {
        moved, to := SeekFirst(tree, avail, order, range, pos.pageStepsLeft, shape);
      } else {
        moved, to := Step(tree, avail, order, range, pos, shape, leaf);
      }
    }

    /** Where the next row is: the first of the scan, or the one beside the row handed out last. */
    lemma NextPlace()
      requires WellFormed(tree, shape) && Valid() && !pos.finished
      ensures var next := PlaceOf(tree, shape, order, range, |handed|);
              && (!pos.started ==> next == FirstAt(tree, shape, order, range))
              && (pos.started ==>
                    && next == NextAt(order, Here(tree, shape, pos, leaf))
                    && Inside(tree, shape, order, range, Here(tree, shape, pos, leaf)))
              && (Inside(tree, shape, order, range, next) <==> |handed| < Total(tree, shape, range))
              && (|handed| < Total(tree, shape, range) ==> 0 <= next < |Flat(tree, shape)|)
    {
    }
  }

  // ---------------------------------------------------------------- opening one

  predicate BoundWellFormed(e: Encoding, b: Bound) {
    b.Unbounded? || e.wellFormed(b.key)
  }

  /** The lower bound sorts above the upper one. */
  predicate Reversed(e: Encoding, lower: Bound, upper: Bound) {
    !lower.Unbounded? && !upper.Unbounded? && e.compare(lower.key, upper.key) == Greater
  }

  /** Both bounds are keys that a tree of digests alone cannot tell apart. */
  ghost predicate SameDigest(e: Encoding, range: KeyRange) {
    && !range.lower.Unbounded? && !range.upper.Unbounded?
    && e.digest(range.lower.key) == e.digest(range.upper.key)
  }

  ghost predicate BoundsReadable(e: Encoding, range: KeyRange) {
    BoundReadable(e, range.lower) && BoundReadable(e, range.upper)
  }

  /** The bounds are keys, where they have to be, and do not cross. */
  ghost predicate Answered(e: Encoding, range: KeyRange, validate: bool) {
    || range.empty
    || (&& (validate ==> BoundWellFormed(e, range.lower) && BoundWellFormed(e, range.upper))
        && !Reversed(e, range.lower, range.upper))
  }

  /** A cursor over a range. The bounds of a prefix query are not keys and are not validated. */
  method Open(t: Tree, order: Order, range: KeyRange, validateBounds: bool, ghost s: Shape) returns (r: Result<Cursor>)
    requires ValidKeysAreReadable(t.enc)
    requires !validateBounds ==> BoundReadable(t.enc, range.lower) && BoundReadable(t.enc, range.upper)
    ensures r.Ok? ==> fresh(r.value) && r.value.Valid() && r.value.handed == []
    ensures r.Ok? ==> r.value.tree == t && r.value.order == order && r.value.range == range && r.value.shape == s
    ensures r.Ok? <==> Answered(t.enc, range, validateBounds)
    ensures r.Err? ==> r.kind == Invalid
    ensures WellFormed(t, s) && r.Err? && BoundsReadable(t.enc, range) ==>
              || Total(t, s, range) == 0 || (s.coarse && SameDigest(t.enc, range))
              || !BoundWellFormed(t.enc, range.lower) || !BoundWellFormed(t.enc, range.upper)
  {
    if !range.empty {
      if validateBounds && !(BoundWellFormed(t.enc, range.lower) && BoundWellFormed(t.enc, range.upper)) {
        return Err(Invalid);
      }
      if Reversed(t.enc, range.lower, range.upper) {
        if WellFormed(t, s) && !(s.coarse && SameDigest(t.enc, range)) && BoundsReadable(t.enc, range) {
          ReversedSelectsNothing(t, s, range);
        }
        return Err(Invalid);
      }
    }
    var cursor := new Cursor(t, order, range, s);
    r := Ok(cursor);
  }

  /** So refusing a reversed range refuses no row. */
  lemma ReversedSelectsNothing(t: Tree, s: Shape, range: KeyRange)
    requires WellFormed(t, s) && BoundsReadable(t.enc, range)
    requires Reversed(t.enc, range.lower, range.upper) && !(s.coarse && SameDigest(t.enc, range))
    ensures Total(t, s, range) == 0
  {
    var lo, hi := LowPos(t, s, range.lower), HighPos(t, s, range.upper);
    if lo < hi {
      SliceIsRange(t, s, range.lower, range.upper);
      LeafKeysReadable(t, s);
    }
  }

  // ---------------------------------------------------------------- counting

  /** The count so far, on leaf `leaf` at entry `index`. */
  ghost predicate Counting(t: Tree, s: Shape, range: KeyRange, ordinal: nat, index: nat, count: nat, stepsLeft: nat,
                           leaf: nat) {
    && |s.levels| > 0 && leaf < |s.levels[0]|
    && ordinal == s.levels[0][leaf] && index < Count(t, ordinal)
    && var at := Off(t, s.levels[0], leaf) + index;
    && at == LowPos(t, s, range.lower) + count
    && (count == 0 || at <= HighPos(t, s, range.upper))
    && stepsLeft + leaf > |t.file|
  }

  lemma LeafCount(t: Tree, s: Shape, range: KeyRange, ordinal: nat, index: nat, count: nat, stepsLeft: nat, leaf: nat)
    requires WellFormed(t, s) && Counting(t, s, range, ordinal, index, count, stepsLeft, leaf) && !range.empty
    ensures var at, n, high := Off(t, s.levels[0], leaf), Count(t, ordinal), HighPos(t, s, range.upper);
            && (high < at + n ==> count + Monus(Clamp(high - at, n), index) == Total(t, s, range))
            && (high >= at + n && leaf == |s.levels[0]| - 1 ==> count + n - index == Total(t, s, range))
            && (high >= at + n && leaf + 1 < |s.levels[0]| && Count(t, s.levels[0][leaf + 1]) > 0 && stepsLeft > 0 ==>
                  Counting(t, s, range, s.levels[0][leaf + 1], 0, count + n - index, stepsLeft - 1, leaf + 1))
  {
    OffNext(t, s.levels[0], leaf);
    OffEnds(t, s.levels[0]);
  }

  function Monus(a: nat, b: nat): nat {
    if a < b then 0 else a - b
  }

  /** Where the upper bound falls on a leaf, and whether it falls on it at all. */
  method LeafLimit(t: Tree, range: KeyRange, ordinal: nat, ghost s: Shape, ghost leaf: nat)
    returns (r: Result<(nat, bool)>)
    requires BoundReadable(t.enc, range.lower) && BoundReadable(t.enc, range.upper)
    requires WellFormed(t, s) ==> leaf < |s.levels[0]| && ordinal == s.levels[0][leaf] && Count(t, ordinal) > 0
    ensures WellFormed(t, s) ==>
              var past := HighPos(t, s, range.upper) - Off(t, s.levels[0], leaf);
              r == Ok((Clamp(past, Count(t, ordinal)), past < Count(t, ordinal)))
  {
    if WellFormed(t, s) {
      Node(t, s, 0, leaf);
      BoundsOnLeaf(t, s, range, leaf);
    }
    r := LeafBounds(t, Ascend, range, At(t, ordinal));
  }

  /** Counts the entries of a range without reading a value. */
  method CountRange(t: Tree, avail: set<nat>, lower: Bound, upper: Bound, ghost s: Shape) returns (r: Result<nat>)
    requires ValidKeysAreReadable(t.enc)
    ensures WellFormed(t, s) && r.Ok? ==> r.value == |Selected(t, s, Ascend, KeyRange(lower, upper, false))|
    ensures !BoundWellFormed(t.enc, lower) || !BoundWellFormed(t.enc, upper) || Reversed(t.enc, lower, upper) ==>
              r == Err(Invalid)
    ensures (&& WellFormed(t, s) && AllAvailable(t, avail) && !Reversed(t.enc, lower, upper)
             && BoundWellFormed(t.enc, lower) && BoundWellFormed(t.enc, upper)) ==> r.Ok?
  {
    if !BoundWellFormed(t.enc, lower) || !BoundWellFormed(t.enc, upper) || Reversed(t.enc, lower, upper) {
      return Err(Invalid);
    }
    var range := KeyRange(lower, upper, false);
    var start :- StartSpot(t, avail, Ascend, range, s);
    if start.None? {
      return Ok(0);
    }
    r := CountFrom(t, avail, range, start.value, s);
  }

  datatype CountStep = Counted(total: nat) | CountOn(next: nat, sofar: nat)

  /** Counts on one leaf and finds the next. */
  method CountLeaf(t: Tree, avail: set<nat>, range: KeyRange, ordinal: nat, index: nat, count: nat, stepsLeft: nat,
                   ghost s: Shape, ghost leaf: nat)
    returns (r: Result<CountStep>)
    requires BoundReadable(t.enc, range.lower) && BoundReadable(t.enc, range.upper) && !range.empty
    requires WellFormed(t, s) ==> Counting(t, s, range, ordinal, index, count, stepsLeft, leaf)
    ensures WellFormed(t, s) && r.Ok? && r.value.Counted? ==> r.value.total == Total(t, s, range)
    ensures r.Ok? && r.value.CountOn? ==> stepsLeft > 0
    ensures WellFormed(t, s) && r.Ok? && r.value.CountOn? ==>
              Counting(t, s, range, r.value.next, 0, r.value.sofar, stepsLeft - 1, leaf + 1)
    ensures WellFormed(t, s) && AllAvailable(t, avail) ==> r.Ok?
  {
    if WellFormed(t, s) {
      SiblingOnChain(t, s, avail, Ascend, leaf);
      LastLeafIsEdge(t, s);
      LevelFitsFile(t, s, 0);
      LeafCount(t, s, range, ordinal, index, count, stepsLeft, leaf);
    }
    var page := At(t, ordinal);
    var bounds :- LeafLimit(t, range, ordinal, s, leaf);
    if bounds.1 {
      return Ok(Counted(count + Monus(bounds.0, index)));
    }
    var sofar := count + Monus(|page.keys|, index);
    if page.right.None? {
      var ends :- EndsAt(t, avail, ordinal, true, s);
      if !ends {
        return Err(Corrupt);
      }
      return Ok(Counted(sofar));
    }
    if stepsLeft == 0 {
      return Err(Corrupt);
    }
    var _ :- StepSibling(t, avail, ordinal, page.right.value, true);
    r := Ok(CountOn(page.right.value, sofar));
  }

  method CountFrom(t: Tree, avail: set<nat>, range: KeyRange, start: Spot, ghost s: Shape) returns (r: Result<nat>)
    requires BoundReadable(t.enc, range.lower) && BoundReadable(t.enc, range.upper) && !range.empty
    requires WellFormed(t, s) ==> StandsAt(t, s, start, LowPos(t, s, range.lower))
    ensures WellFormed(t, s) && r.Ok? ==> r.value == Total(t, s, range)
    ensures WellFormed(t, s) && AllAvailable(t, avail) ==> r.Ok?
  {
    ghost var wf := WellFormed(t, s);
    ghost var leaf: nat := 0;
    if wf {
      leaf :| 0 <= leaf < |s.levels[0]| && s.levels[0][leaf] == start.page
           && start.index < Count(t, start.page)
              && Off(t, s.levels[0], leaf) + start.index == LowPos(t, s, range.lower);
    }
    var ordinal, index, count: nat := start.page, start.index, 0;
    var stepsLeft: nat := |t.file| + 1;
    while true
      invariant wf ==> Counting(t, s, range, ordinal, index, count, stepsLeft, leaf)
      decreases stepsLeft
    {
      var step :- CountLeaf(t, avail, range, ordinal, index, count, stepsLeft, s, leaf);
      match step {
        case Counted(total) =>
          return Ok(total);
        case CountOn(next, sofar) =>
          ordinal, index, count, stepsLeft := next, 0, sofar, stepsLeft - 1;
          leaf := if wf then leaf + 1 else 0;
      }
    }
  }
}
