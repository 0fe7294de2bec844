/**
 Secondary indexes that are not unique: how the rows get record ids, how a range over index keys becomes
 a range over composite keys, and that a scan of the one is the rows of the other.
 */
module Indexing {
  import opened Base
  import opened Encodings
  import opened ByteOrder
  import opened Records
  import opened Merging
  import opened Composites
  import opened Trees
  import opened Searching
  import opened Queries
  import opened Cursors
  import opened PageBuilding
  import opened References
  import opened TreeWriting
  import opened TreeBuilding

  // ---------------------------------------------------------------- bounds

  /** The bounds meet at one key and at least one of them leaves it out. */
  predicate IsEmptyRange(e: Encoding, lower: Bound, upper: Bound) {
    && !lower.Unbounded? && !upper.Unbounded?
    && e.compare(lower.key, upper.key) == Equal
    && (lower.Excluded? || upper.Excluded?)
  }

  function LowerBoundOf(b: Bound): Bound {
    match b
    case Unbounded => Unbounded
    case Included(k) => Included(Compose(k, 0))
    case Excluded(k) => Excluded(Compose(k, MAX_RID))
  }

  function UpperBoundOf(b: Bound): Bound {
    match b
    case Unbounded => Unbounded
    case Included(k) => Included(Compose(k, MAX_RID))
    case Excluded(k) => Excluded(Compose(k, 0))
  }

  /** The range of tree keys that stands for a range of index keys. */
  function TreeRange(e: Encoding, unique: bool, lower: Bound, upper: Bound, validate: bool): Result<KeyRange> {
    if validate && !((lower.Unbounded? || e.wellFormed(lower.key))
      && (upper.Unbounded? || e.wellFormed(upper.key))) then Err(Invalid)
    else if unique then Ok(KeyRange(lower, upper, false))
    else if IsEmptyRange(e, lower, upper) then Ok(KeyRange(Excluded([]), Unbounded, true))
    else Ok(KeyRange(LowerBoundOf(lower), UpperBoundOf(upper), false))
  }

  ghost predicate Within(e: Encoding, lower: Bound, upper: Bound, k: Key) {
    AboveLower(e, false, lower, k) && BelowUpper(e, false, upper, k)
  }

  lemma LowerSelects(e: Encoding, lower: Bound, k: Key, rid: Rid)
    requires TotalOrder(e) && e.readable(k) && BoundReadable(e, lower)
    ensures AboveLower(Composite(e), false, LowerBoundOf(lower), Compose(k, rid)) <==> AboveLower(e, false, lower, k)
  {
    if !lower.Unbounded? {
      ComposedCompares(e, k, rid, lower.key, 0);
      ComposedCompares(e, k, rid, lower.key, MAX_RID);
    }
  }

  lemma UpperSelects(e: Encoding, upper: Bound, k: Key, rid: Rid)
    requires TotalOrder(e) && e.readable(k) && BoundReadable(e, upper)
    ensures BelowUpper(Composite(e), false, UpperBoundOf(upper), Compose(k, rid)) <==> BelowUpper(e, false, upper, k)
  {
    if !upper.Unbounded? {
      ComposedCompares(e, k, rid, upper.key, 0);
      ComposedCompares(e, k, rid, upper.key, MAX_RID);
    }
  }

  lemma EmptySelectsNothing(e: Encoding, lower: Bound, upper: Bound, k: Key)
    requires TotalOrder(e) && e.readable(k) && BoundReadable(e, lower) && BoundReadable(e, upper)
    requires IsEmptyRange(e, lower, upper)
    ensures !Within(e, lower, upper, k)
  {
    assert lower.key == upper.key;
  }

  /** A composite key is inside the tree range exactly when its index key is inside the bounds asked for,
      whatever its record id: also where the bounds touch, cross or leave out an end. */
  lemma TreeRangeSelects(e: Encoding, lower: Bound, upper: Bound, validate: bool, k: Key, rid: Rid)
    requires TotalOrder(e) && e.readable(k) && BoundReadable(e, lower) && BoundReadable(e, upper)
    requires TreeRange(e, false, lower, upper, validate).Ok?
    ensures var r := TreeRange(e, false, lower, upper, validate).value;
            (!r.empty && Within(Composite(e), r.lower, r.upper, Compose(k, rid))) <==> Within(e, lower, upper, k)
  {
    if IsEmptyRange(e, lower, upper) {
      EmptySelectsNothing(e, lower, upper, k);
    } else {
      LowerSelects(e, lower, k, rid);
      UpperSelects(e, upper, k, rid);
    }
  }

  /** Which ranges are answered: all of them, but for bounds that are no keys where keys are asked for. A unique index
      is asked for the very bounds. */
  lemma TreeRangeAnswers(e: Encoding, unique: bool, lower: Bound, upper: Bound, validate: bool)
    ensures var r := TreeRange(e, unique, lower, upper, validate);
            && (r.Ok? <==> validate ==> BoundWellFormed(e, lower) && BoundWellFormed(e, upper))
            && (r.Err? ==> r.kind == Invalid)
            && (unique && r.Ok? ==> r.value == KeyRange(lower, upper, false))
  {
  }

  /** Widening bounds to record ids never makes them cross, and never hides that they do: a range is refused as
      reversed exactly if the one asked for is. */
  lemma TreeRangeKeepsOrder(e: Encoding, lower: Bound, upper: Bound, validate: bool)
    requires TreeRange(e, false, lower, upper, validate).Ok?
    ensures var r := TreeRange(e, false, lower, upper, validate).value;
            !r.empty && Reversed(Composite(e), r.lower, r.upper) <==> Reversed(e, lower, upper)
  {
    if !lower.Unbounded? && !upper.Unbounded? {
      ComposedCompares(e, lower.key, 0, upper.key, 0);
      ComposedCompares(e, lower.key, 0, upper.key, MAX_RID);
      ComposedCompares(e, lower.key, MAX_RID, upper.key, 0);
      ComposedCompares(e, lower.key, MAX_RID, upper.key, MAX_RID);
    }
  }

  /** Bounds the tree can be searched for. */
  lemma TreeRangeReadable(e: Encoding, lower: Bound, upper: Bound, validate: bool)
    requires BoundReadable(e, lower) && BoundReadable(e, upper) && TreeRange(e, false, lower, upper, validate).Ok?
    ensures var r := TreeRange(e, false, lower, upper, validate).value;
            !r.empty ==> BoundReadable(Composite(e), r.lower) && BoundReadable(Composite(e), r.upper)
  {
    if !lower.Unbounded? {
      SplitComposed(lower.key, 0);
      SplitComposed(lower.key, MAX_RID);
    }
    if !upper.Unbounded? {
      SplitComposed(upper.key, 0);
      SplitComposed(upper.key, MAX_RID);
    }
  }

  /** The keys with a prefix, as a range. */
  method PrefixRange(prefix: Key) returns (r: KeyRange)
    ensures !r.empty
    ensures forall e: Encoding, k: Key :: (forall a, b :: e.compare(a, b) == Lex(a, b)) ==>
                (StartsWith(k, prefix) <==> Within(e, r.lower, r.upper, k))
  {
    if prefix == [] {
      return KeyRange(Unbounded, Unbounded, false);
    }
    var end := PrefixEnd(prefix);
    return KeyRange(Included(prefix), if end.Some? then Excluded(end.value) else Unbounded, false);
  }

  // ---------------------------------------------------------------- record ids

  /** How many records with the same index key come before this one. */
  ghost function RidOf(e: Encoding, rs: seq<Rec>, i: nat): nat
    requires i < |rs|
  {
    if i == 0 || e.compare(rs[i - 1].key, rs[i].key) != Equal then 0 else RidOf(e, rs, i - 1) + 1
  }

  ghost predicate RidFits(e: Encoding, rs: seq<Rec>, i: nat)
    requires i < |rs|
  {
    RidOf(e, rs, i) <= MAX_RID
  }

  ghost predicate RidsFit(e: Encoding, rs: seq<Rec>) {
    forall i {:trigger RidFits(e, rs, i)} :: 0 <= i < |rs| ==> RidFits(e, rs, i)
  }

  ghost function IndexRow(e: Encoding, rs: seq<Rec>, i: nat): Entry
    requires i < |rs| && RidFits(e, rs, i)
  {
    Entry(Compose(rs[i].key, RidOf(e, rs, i)), rs[i].value)
  }

  /** The row of the index for one record. */
  ghost predicate IsRow(e: Encoding, rs: seq<Rec>, i: nat, row: Entry)
    requires i < |rs|
  {
    RidFits(e, rs, i) && row == IndexRow(e, rs, i)
  }

  /** Records in order get keys in order, with no two the same. */
  lemma RidsAscend(e: Encoding, rs: seq<Rec>, i: nat)
    requires TotalOrder(e) && Spoolable(e, rs) && Sorted(e, rs) && i + 1 < |rs|
    requires RidFits(e, rs, i) && RidFits(e, rs, i + 1)
    ensures Composite(e).compare(IndexRow(e, rs, i).key, IndexRow(e, rs, i + 1).key) == Less
  {
    ComposedCompares(e, rs[i].key, RidOf(e, rs, i), rs[i + 1].key, RidOf(e, rs, i + 1));
    assert !Ahead(e, rs[i + 1], rs[i]);
  }

  // ---------------------------------------------------------------- what a scan hands out

  /** The records inside the bounds, in the order they are in. */
  ghost function Matching(e: Encoding, lower: Bound, upper: Bound, rs: seq<Rec>): seq<Rec> {
    if rs == [] then []
    else
      var rest := Matching(e, lower, upper, rs[..|rs| - 1]);
      if Within(e, lower, upper, rs[|rs| - 1].key) then rest + [rs[|rs| - 1]] else rest
  }

  lemma {:induction false} MatchingIsSlice(e: Encoding, lower: Bound, upper: Bound, rs: seq<Rec>, lo: nat, hi: nat)
    requires lo <= hi <= |rs|
    requires forall i :: 0 <= i < |rs| ==> (Within(e, lower, upper, rs[i].key) <==> lo <= i < hi)
    ensures Matching(e, lower, upper, rs) == rs[lo..hi]
    decreases |rs|
  {
    if rs != [] {
      var n := |rs| - 1;
      var lo', hi' := if lo <= n then lo else n, if hi <= n then hi else n;
      MatchingIsSlice(e, lower, upper, rs[..n], lo', hi');
      SliceGrows(rs, lo', hi');
      if lo <= n < hi {
        SliceEnds(rs, lo, n);
      }
    }
  }

  lemma SliceEnds(rs: seq<Rec>, lo: nat, n: nat)
    requires lo <= n < |rs|
    ensures rs[lo..n + 1] == rs[lo..n] + [rs[n]]
  {
  }

  lemma SliceGrows(rs: seq<Rec>, lo: nat, hi: nat)
    requires lo <= hi < |rs|
    ensures rs[..|rs| - 1][lo..hi] == rs[lo..hi]
  {
  }

  /** The entries of the tree are the records, each under its key and record id. */
  ghost predicate HasRows(t: Tree, s: Shape, e: Encoding, rs: seq<Rec>) {
    && |s.levels| > 0 && |Flat(t, s)| == |rs|
    && forall i {:trigger Flat(t, s)[i]} :: 0 <= i < |rs| ==>
         IsRow(e, rs, i, Entry(Flat(t, s)[i].key, ValueOf(t, Flat(t, s)[i].payload)))
  }

  ghost predicate Indexes(t: Tree, s: Shape, e: Encoding, rs: seq<Rec>) {
    && WellFormed(t, s) && BlobsOk(t, s) && !s.coarse && t.enc == Composite(e) && TotalOrder(e) && Spoolable(e, rs)
    && HasRows(t, s, e, rs)
  }

  /** The row stands for the record: its value, under its key and some record id. */
  ghost predicate StandsFor(row: Entry, r: Rec) {
    row.value == r.value && Split(row.key).Some? && Split(row.key).value.0 == r.key
  }

  lemma RowStandsFor(t: Tree, s: Shape, e: Encoding, rs: seq<Rec>, at: nat)
    requires HasRows(t, s, e, rs) && at < |rs|
    ensures StandsFor(Entry(Flat(t, s)[at].key, ValueOf(t, Flat(t, s)[at].payload)), rs[at])
  {
    assert IsRow(e, rs, at, Entry(Flat(t, s)[at].key, ValueOf(t, Flat(t, s)[at].payload)));
    SplitComposed(rs[at].key, RidOf(e, rs, at));
  }

  lemma SelectedStandsFor(t: Tree, s: Shape, e: Encoding, rs: seq<Rec>, range: KeyRange, at: nat, i: nat)
    requires HasRows(t, s, e, rs) && i < Total(t, s, range) && at == LowPos(t, s, range.lower) + i && at < |rs|
    ensures StandsFor(Selected(t, s, Ascend, range)[i], rs[at])
  {
    RowStandsFor(t, s, e, rs, at);
    SelectedAt(t, s, range, i);
  }

  lemma RowsStandFor(t: Tree, s: Shape, e: Encoding, rs: seq<Rec>, range: KeyRange, lo: nat, hi: nat, found: seq<Rec>)
    requires HasRows(t, s, e, rs) && lo <= hi <= |rs| && found == rs[lo..hi]
    requires hi - lo == Total(t, s, range) && (lo < hi ==> lo == LowPos(t, s, range.lower))
    ensures var rows := Selected(t, s, Ascend, range);
            |rows| == |found| && forall i :: 0 <= i < |rows| ==> StandsFor(rows[i], found[i])
  {
    forall i | 0 <= i < |found|
      ensures StandsFor(Selected(t, s, Ascend, range)[i], found[i])
    {
      assert found[i] == rs[lo + i];
      SelectedStandsFor(t, s, e, rs, range, lo + i, i);
    }
  }

  /** A scan of the index over any bounds hands out exactly the records whose index key is inside them, in
      the order of their keys and, among equal keys, in the order they went in. */
  lemma IndexAnswers(t: Tree, s: Shape, e: Encoding, rs: seq<Rec>, lower: Bound, upper: Bound, validate: bool)
    requires Indexes(t, s, e, rs) && BoundReadable(e, lower) && BoundReadable(e, upper)
    requires TreeRange(e, false, lower, upper, validate).Ok?
    ensures var rows := Selected(t, s, Ascend, TreeRange(e, false, lower, upper, validate).value);
            var found := Matching(e, lower, upper, rs);
            |rows| == |found| && forall i :: 0 <= i < |rows| ==> StandsFor(rows[i], found[i])
  {
    var range := TreeRange(e, false, lower, upper, validate).value;
    var lo, hi := Edges(t, s, e, rs, lower, upper, validate);
    MatchingIsSlice(e, lower, upper, rs, lo, hi);
    RowsStandFor(t, s, e, rs, range, lo, hi, Matching(e, lower, upper, rs));
  }

  /** Where the selected part of the index starts and ends. */
  lemma Edges(t: Tree, s: Shape, e: Encoding, rs: seq<Rec>, lower: Bound, upper: Bound, validate: bool)
    returns (lo: nat, hi: nat)
    requires Indexes(t, s, e, rs) && BoundReadable(e, lower) && BoundReadable(e, upper)
    requires TreeRange(e, false, lower, upper, validate).Ok?
    ensures lo <= hi <= |rs|
    ensures var range := TreeRange(e, false, lower, upper, validate).value;
            hi - lo == Total(t, s, range) && (lo < hi ==> lo == LowPos(t, s, range.lower))
    ensures forall i :: 0 <= i < |rs| ==> (Within(e, lower, upper, rs[i].key) <==> lo <= i < hi)
  {
    var range := TreeRange(e, false, lower, upper, validate).value;
    TreeRangeReadable(e, lower, upper, validate);
    lo, hi := LowPos(t, s, range.lower), HighPos(t, s, range.upper);
    if !range.empty {
      SliceIsRange(t, s, range.lower, range.upper);
    }
    if range.empty || hi <= lo {
      hi := lo;
    }
    forall i | 0 <= i < |rs|
      ensures Within(e, lower, upper, rs[i].key) <==> lo <= i < hi
    {
      assert IsRow(e, rs, i, Entry(Flat(t, s)[i].key, ValueOf(t, Flat(t, s)[i].payload)));
      TreeRangeSelects(e, lower, upper, validate, rs[i].key, RidOf(e, rs, i));
      assert LevelKeys(t, s, 0)[i] == IndexRow(e, rs, i).key;
    }
  }

  // ---------------------------------------------------------------- building the index

  /** The rows of the index, as they are pushed. */
  ghost predicate RowsOf(e: Encoding, rs: seq<Rec>, n: nat, pushed: seq<Entry>) {
    && n <= |rs| && |pushed| == n
    && forall i :: 0 <= i < n ==> IsRow(e, rs, i, pushed[i])
  }

  /** A composite key with a record id behind it fits where the source key is said to. */
  ghost predicate KeysFit(c: Config, rs: seq<Rec>) {
    c.fits ==> forall i :: 0 <= i < |rs| ==> CheckKeyFits(c.pageSize, c.layout, |rs[i].key| + RID_LEN).Ok?
  }

  /** Records that an index can be built from: in order, with keys the index accepts. */
  ghost predicate Indexable(e: Encoding, rs: seq<Rec>) {
    && TotalOrder(e) && ValidKeysAreReadable(e) && Spoolable(e, rs) && Sorted(e, rs)
    && forall i :: 0 <= i < |rs| ==> e.wellFormed(rs[i].key) && Legible(Entry(rs[i].key, rs[i].value))
  }

  /** The next record id: one more than the last where the key is the same, or the first. */
  function NextRid(e: Encoding, previous: Option<Key>, rid: Rid, key: Key): Result<Rid> {
    if previous.Some? && e.compare(previous.value, key) == Equal
    then if rid == MAX_RID then Err(TooLarge) else Ok(rid + 1)
    else Ok(0)
  }

  lemma NextRidIs(e: Encoding, rs: seq<Rec>, i: nat, previous: Option<Key>, rid: Rid)
    requires i < |rs| && FollowsRow(e, rs, i, previous, rid)
    ensures NextRid(e, previous, rid, rs[i].key).Ok? <==> RidFits(e, rs, i)
    ensures NextRid(e, previous, rid, rs[i].key).Ok? ==> NextRid(e, previous, rid, rs[i].key).value == RidOf(e, rs, i)
  {
  }

  lemma OneMoreRow(e: Encoding, rs: seq<Rec>, n: nat, pushed: seq<Entry>)
    requires n < |rs| && RowsOf(e, rs, n, pushed) && RidFits(e, rs, n)
    ensures RowsOf(e, rs, n + 1, pushed + [IndexRow(e, rs, n)])
  {
    var more := pushed + [IndexRow(e, rs, n)];
    forall i | 0 <= i < n + 1
      ensures IsRow(e, rs, i, more[i])
    {
      if i < n {
        assert IsRow(e, rs, i, pushed[i]);
      }
    }
  }

  /** Gives every record its record id. */
  method AssignRids(e: Encoding, rs: seq<Rec>) returns (r: Result<seq<Entry>>)
    ensures r.Ok? <==> RidsFit(e, rs)
    ensures r.Ok? ==> RowsOf(e, rs, |rs|, r.value)
    ensures r.Err? ==> r.kind == TooLarge
  {
    var previous: Option<Key> := None;
    var rid: Rid := 0;
    var rows: seq<Entry> := [];
    var i := 0;
    while i < |rs|
      invariant RowsOf(e, rs, i, rows) && FollowsRow(e, rs, i, previous, rid)
    {
      NextRidIs(e, rs, i, previous, rid);
      var next := NextRid(e, previous, rid, rs[i].key);
      if next.Err? {
        return Err(next.kind);
      }
      OneMoreRow(e, rs, i, rows);
      rid, previous := next.value, Some(rs[i].key);
      rows := rows + [Entry(Compose(rs[i].key, rid), rs[i].value)];
      i := i + 1;
    }
    forall j | 0 <= j < |rs|
      ensures RidFits(e, rs, j)
    {
      assert IsRow(e, rs, j, rows[j]);
    }
    r := Ok(rows);
  }

  /** The key and record id of the record before. */
  ghost predicate FollowsRow(e: Encoding, rs: seq<Rec>, i: nat, previous: Option<Key>, rid: Rid) {
    i <= |rs| && if i == 0 then previous == None else previous == Some(rs[i - 1].key) && rid == RidOf(e, rs, i - 1)
  }

  /** The row behind row `i` has a greater key. */
  ghost predicate IsBehind(e: Encoding, rows: seq<Entry>, i: nat) {
    i + 1 < |rows| && e.compare(rows[i].key, rows[i + 1].key) == Less
  }

  ghost predicate Ascends(e: Encoding, rows: seq<Entry>) {
    forall i {:trigger IsBehind(e, rows, i)} :: 0 <= i < |rows| - 1 ==> IsBehind(e, rows, i)
  }

  /** Rows a writer takes: each with a key it accepts, and each behind the one before. */
  ghost predicate Pushable(c: Config, rows: seq<Entry>) {
    && (forall i :: 0 <= i < |rows| ==> c.enc.wellFormed(rows[i].key))
    && Ascends(c.enc, rows)
    && (c.fits ==> forall i :: 0 <= i < |rows| ==> CheckKeyFits(c.pageSize, c.layout, |rows[i].key|).Ok?)
  }

  lemma RowPushable(e: Encoding, rs: seq<Rec>, i: nat)
    requires Indexable(e, rs) && i < |rs| && RidFits(e, rs, i)
    ensures Composite(e).wellFormed(IndexRow(e, rs, i).key) && |IndexRow(e, rs, i).key| == |rs[i].key| + RID_LEN
  {
    ComposedIs(e, rs[i].key, RidOf(e, rs, i));
  }

  lemma RowBehind(e: Encoding, rs: seq<Rec>, i: nat, a: Entry, b: Entry)
    requires Indexable(e, rs) && i + 1 < |rs| && IsRow(e, rs, i, a) && IsRow(e, rs, i + 1, b)
    ensures Composite(e).compare(a.key, b.key) == Less
  {
    RidsAscend(e, rs, i);
  }

  lemma RowsAccepted(e: Encoding, rs: seq<Rec>, ce: Encoding, rows: seq<Entry>)
    requires Indexable(e, rs) && ce == Composite(e) && RowsOf(e, rs, |rs|, rows)
    ensures forall i :: 0 <= i < |rows| ==> ce.wellFormed(rows[i].key) && |rows[i].key| == |rs[i].key| + RID_LEN
  {
    forall i | 0 <= i < |rows|
      ensures ce.wellFormed(rows[i].key) && |rows[i].key| == |rs[i].key| + RID_LEN
    {
      assert IsRow(e, rs, i, rows[i]);
      RowPushable(e, rs, i);
    }
  }

  lemma RowsInOrder(e: Encoding, rs: seq<Rec>, ce: Encoding, rows: seq<Entry>)
    requires Indexable(e, rs) && ce == Composite(e) && RowsOf(e, rs, |rs|, rows)
    ensures Ascends(ce, rows)
  {
    forall i | 0 <= i < |rows| - 1
      ensures IsBehind(ce, rows, i)
    {
      NextRowBehind(e, rs, ce, rows, i);
    }
  }

  lemma NextRowBehind(e: Encoding, rs: seq<Rec>, ce: Encoding, rows: seq<Entry>, i: nat)
    requires Indexable(e, rs) && ce == Composite(e) && RowsOf(e, rs, |rs|, rows) && i + 1 < |rows|
    ensures ce.compare(rows[i].key, rows[i + 1].key) == Less
  {
    assert IsRow(e, rs, i, rows[i]) && IsRow(e, rs, i + 1, rows[i + 1]);
    RowBehind(e, rs, i, rows[i], rows[i + 1]);
  }

  lemma RowsFit(rs: seq<Rec>, c: Config, rows: seq<Entry>)
    requires KeysFit(c, rs) && |rows| == |rs| && forall i :: 0 <= i < |rows| ==> |rows[i].key| == |rs[i].key| + RID_LEN
    ensures c.fits ==> forall i :: 0 <= i < |rows| ==> CheckKeyFits(c.pageSize, c.layout, |rows[i].key|).Ok?
  {
  }

  lemma RowsArePushable(e: Encoding, rs: seq<Rec>, c: Config, rows: seq<Entry>)
    requires Indexable(e, rs) && c.enc == Composite(e) && KeysFit(c, rs) && RowsOf(e, rs, |rs|, rows)
    ensures Pushable(c, rows)
  {
    RowsAccepted(e, rs, c.enc, rows);
    RowsInOrder(e, rs, c.enc, rows);
    RowsFit(rs, c, rows);
  }

  ghost predicate PushedTo(rows: seq<Entry>, n: nat, pushed: seq<Entry>) {
    n <= |rows| && pushed == rows[..n]
  }

  lemma NextPush(c: Config, rows: seq<Entry>, i: nat, pushed: seq<Entry>)
    requires i < |rows| && PushedTo(rows, i, pushed) && Pushable(c, rows)
    ensures pushed != [] ==> c.enc.compare(pushed[|pushed| - 1].key, rows[i].key) == Less
    ensures PushedTo(rows, i + 1, pushed + [Entry(rows[i].key, rows[i].value)])
  {
    assert rows[..i + 1] == rows[..i] + [rows[i]];
    assert i > 0 ==> IsBehind(c.enc, rows, i - 1);
  }

  ghost predicate AnyTooLong(rows: seq<Entry>) {
    exists i :: 0 <= i < |rows| && TooLong(rows[i].key, rows[i].value)
  }

  /** The file has as many pages as there are numbers for. */
  ghost predicate NoRoom(sink: Sink) {
    |sink| >= PAGE_LIMIT
  }

  ghost predicate LongKeys(rs: seq<Rec>) {
    exists i :: 0 <= i < |rs| && |rs[i].key| + RID_LEN > 0xFFFF
  }

  lemma TooLongIsKey(e: Encoding, rs: seq<Rec>, rows: seq<Entry>)
    requires Indexable(e, rs) && RowsOf(e, rs, |rs|, rows) && AnyTooLong(rows)
    ensures LongKeys(rs)
  {
    var i :| 0 <= i < |rows| && TooLong(rows[i].key, rows[i].value);
    assert IsRow(e, rs, i, rows[i]);
    RowPushable(e, rs, i);
  }

  method PushNext(rows: seq<Entry>, i: nat, extra: nat, writer: TreeWriter) returns (r: Result<()>)
    requires writer.Valid() && i < |rows| && PushedTo(rows, i, writer.pushed) && Pushable(writer.c, rows)
    modifies writer
    ensures r.Ok? ==> writer.Valid() && PushedTo(rows, i + 1, writer.pushed)
    ensures r.Err? && writer.c.fits ==> r.kind == TooLarge && (AnyTooLong(rows) || NoRoom(writer.draft.sink))
  {
    NextPush(writer.c, rows, i, writer.pushed);
    r := writer.Push(rows[i].key, rows[i].value, extra);
  }

  /** Pushes rows one after the other. `extra` says what each holds until its leaf is written. */
  method PushAll(rows: seq<Entry>, extra: nat -> nat, writer: TreeWriter) returns (r: Result<()>)
    requires writer.Valid() && writer.pushed == [] && Pushable(writer.c, rows)
    modifies writer
    ensures r.Ok? ==> writer.Valid() && writer.pushed == rows
    ensures r.Err? && writer.c.fits ==> r.kind == TooLarge && (AnyTooLong(rows) || NoRoom(writer.draft.sink))
  {
    r := Ok(());
    var i := 0;
    while i < |rows|
      invariant writer.Valid() && PushedTo(rows, i, writer.pushed) && r.Ok?
    {
      r := PushNext(rows, i, extra(i), writer);
      if r.Err? {
        return;
      }
      i := i + 1;
    }
    AllPushed(rows, writer.pushed);
  }

  lemma AllPushed(rows: seq<Entry>, pushed: seq<Entry>)
    requires PushedTo(rows, |rows|, pushed)
    ensures pushed == rows
  {
    assert rows[..|rows|] == rows;
  }

  /** Builds the tree of an index that is not unique: every record under its key and the next record id. */
  method BuildIndexTree(e: Encoding, rs: seq<Rec>, writer: TreeWriter, ghost maxDepth: nat)
    returns (r: Result<nat>, ghost s: Shape)
    requires writer.Valid() && writer.pushed == [] && writer.c.enc == Composite(e)
    requires Indexable(e, rs) && KeysFit(writer.c, rs)
    modifies writer
    ensures r.Ok? && |s.levels| <= maxDepth ==>
              Indexes(ReadTree(writer.c, writer.draft.sink, r.value, maxDepth), s, e, rs)
    ensures r.Ok? ==>
              TreeWriting.Written(writer.draft.sink, writer.book.pages) && KeepsPages(writer.book.pages, writer.before)
    ensures r.Err? && writer.c.fits ==>
              r.kind == TooLarge && (!RidsFit(e, rs) || LongKeys(rs) || NoRoom(writer.draft.sink))
  {
    s := Shape(false, []);
    var rows := AssignRids(e, rs);
    if rows.Err? {
      return Err(rows.kind), s;
    }
    RowsArePushable(e, rs, writer.c, rows.value);
    r, s := WriteTree(rows.value, _ => 0, writer, maxDepth);
    if AnyTooLong(rows.value) {
      TooLongIsKey(e, rs, rows.value);
    }
    if r.Ok? && |s.levels| <= maxDepth {
      BuiltIndexes(e, rs, writer.c, writer.draft.sink, r.value, maxDepth, s, writer.draft.refs, rows.value);
    }
  }

  /** Writes a whole tree. */
  method WriteTree(rows: seq<Entry>, extra: nat -> nat, writer: TreeWriter, ghost maxDepth: nat)
    returns (r: Result<nat>, ghost s: Shape)
    requires writer.Valid() && writer.pushed == [] && Pushable(writer.c, rows)
    modifies writer
    ensures r.Ok? ==> Finished(writer.c, writer.draft.sink, r.value, maxDepth, s, writer.draft.refs, rows)
    ensures r.Ok? ==>
              TreeWriting.Written(writer.draft.sink, writer.book.pages) && KeepsPages(writer.book.pages, writer.before)
    ensures r.Ok? ==> |writer.draft.sink| <= PAGE_LIMIT
    ensures r.Err? && writer.c.fits ==> r.kind == TooLarge && (AnyTooLong(rows) || NoRoom(writer.draft.sink))
  {
    s := Shape(false, []);
    var done := PushAll(rows, extra, writer);
    if done.Err? {
      return Err(done.kind), s;
    }
    r, s := writer.Finish(maxDepth);
  }

  lemma BuiltIndexes(e: Encoding, rs: seq<Rec>, c: Config, sink: Sink, root: nat, maxDepth: nat, s: Shape,
                     refs: seq<PageRef>, pushed: seq<Entry>)
    requires Indexable(e, rs) && c.enc == Composite(e) && |s.levels| <= maxDepth
    requires Finished(c, sink, root, maxDepth, s, refs, pushed) && RowsOf(e, rs, |rs|, pushed)
    ensures Indexes(ReadTree(c, sink, root, maxDepth), s, e, rs)
  {
    AllLegible(e, rs, pushed);
    HasBuiltRows(ReadTree(c, sink, root, maxDepth), s, e, rs, pushed);
  }

  lemma AllLegible(e: Encoding, rs: seq<Rec>, pushed: seq<Entry>)
    requires Indexable(e, rs) && RowsOf(e, rs, |rs|, pushed)
    ensures forall i :: 0 <= i < |pushed| ==> Legible(pushed[i])
  {
    forall i | 0 <= i < |pushed|
      ensures Legible(pushed[i])
    {
      assert IsRow(e, rs, i, pushed[i]);
    }
  }

  lemma HasBuiltRows(t: Tree, s: Shape, e: Encoding, rs: seq<Rec>, pushed: seq<Entry>)
    requires |s.levels| > 0 && Contains(t, s, pushed) && RowsOf(e, rs, |rs|, pushed)
    ensures HasRows(t, s, e, rs)
  {
    forall i | 0 <= i < |rs|
      ensures IsRow(e, rs, i, Entry(Flat(t, s)[i].key, ValueOf(t, Flat(t, s)[i].payload)))
    {
      assert IsRow(e, rs, i, pushed[i]);
    }
  }
}
