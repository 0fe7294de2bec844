/**
 The bottom-up tree writer. Rows arrive in key order and are packed into a leaf until the next one
 does not fit; the leaf is then written, patched into the page before it, and listed in the level
 above, where the same happens. What comes out is a well-formed tree over exactly the rows pushed.
 */
module PageBuilding {
  import opened Base
  import opened Sequences
  import opened Encodings
  import opened Pages
  import opened Codec
  import opened PageWriting
  import opened Trees
  import Eytzinger

  /** How a tree is written. `fits` says that every key has passed `CheckKeyFits`. */
  datatype Config = Config(enc: Encoding, layout: Layout, pageSize: nat, fits: bool)

  /** What the writer needs of an encoding beyond the laws. */
  ghost predicate Writable(e: Encoding) {
    && Lawful(e)
    && ValidKeysAreReadable(e)
    && (forall k :: e.wellFormed(k) ==> e.accepts(k, e.digest(k)))
    && (e.exact ==> e.rebuilds)
  }

  const MIN_PAGE_SIZE: nat := PREFIX + 32

  /** The layout a build uses: compact metadata where offsets fit, and no keys where the digests
      already are the keys. */
  function ChooseLayout(pageSize: nat, eytzinger: bool, e: Encoding, allowOmitted: bool): Layout {
    var compact := pageSize <= MAX_COMPACT;
    Layout(eytzinger, compact, allowOmitted && compact && !eytzinger && e.exact)
  }

  ghost predicate ConfigOk(c: Config) {
    && Writable(c.enc)
    && MIN_PAGE_SIZE <= c.pageSize < I32_LIMIT
    && (c.layout.compactMeta ==> c.pageSize <= MAX_COMPACT)
    && (c.layout.omittedKeys ==> c.layout.compactMeta && !c.layout.eytzinger && c.enc.exact)
  }

  lemma ChosenLayoutIsOk(pageSize: nat, eytzinger: bool, e: Encoding, allowOmitted: bool)
    requires Writable(e) && MIN_PAGE_SIZE <= pageSize < I32_LIMIT
    ensures forall fits :: ConfigOk(Config(e, ChooseLayout(pageSize, eytzinger, e, allowOmitted), pageSize, fits))
  {
  }

  // ---------------------------------------------------------------- sizes

  function StoredKey(layout: Layout, key: Key): Key {
    if layout.omittedKeys then [] else key
  }

  function EntryLen(layout: Layout, row: Row): nat {
    |StoredKey(layout, row.key)| + |PayloadBytes(row.payload)|
  }

  function PayloadLen(layout: Layout, rows: seq<Row>): nat {
    if rows == [] then 0 else PayloadLen(layout, rows[..|rows| - 1]) + EntryLen(layout, rows[|rows| - 1])
  }

  function PageLen(layout: Layout, kind: NodeKind, rows: seq<Row>): nat {
    PayloadBase(layout, kind, |rows|) + PayloadLen(layout, rows)
  }

  lemma {:induction false} PayloadLeast(a: Layout, b: Layout, rows: seq<Row>)
    requires b.omittedKeys ==> a.omittedKeys
    ensures PayloadLen(a, rows) <= PayloadLen(b, rows)
  {
    if rows != [] {
      PayloadLeast(a, b, rows[..|rows| - 1]);
    }
  }

  /** No other layout that is allowed makes a page with rows on it any smaller. */
  lemma ChosenLayoutIsSmallest(pageSize: nat, e: Encoding, allowOmitted: bool, other: Layout, kind: NodeKind,
                               rows: seq<Row>)
    requires ConfigOk(Config(e, other, pageSize, true)) && (other.omittedKeys ==> allowOmitted) && rows != []
    ensures PageLen(ChooseLayout(pageSize, other.eytzinger, e, allowOmitted), kind, rows) <= PageLen(other, kind, rows)
  {
    var chosen := ChooseLayout(pageSize, other.eytzinger, e, allowOmitted);
    PayloadLeast(chosen, other, rows);
    assert DigestSlots(chosen, |rows|) == DigestSlots(other, |rows|);
  }

  // ---------------------------------------------------------------- a page of rows

  ghost predicate PayloadOk(kind: NodeKind, payload: Payload) {
    match payload
    case Inline(bytes) => kind == Leaf && |bytes| < SENTINEL
    case Overflow(o) => kind == Leaf && o < I64_LIMIT
    case Child(o) => kind == Internal && o < I64_LIMIT
  }

  /** The least page that holds a leaf entry with this key, its value on a page of its own. */
  function LeafMinimum(layout: Layout, keyLen: nat): nat {
    PayloadBase(layout, Leaf, 1) + (if layout.omittedKeys then 0 else keyLen) + 8
  }

  /** Refuses a key that would make the tree impossible to build: it must fit on a leaf, and twice on
      an internal page. */
  function CheckKeyFits(pageSize: nat, layout: Layout, keyLen: nat): Result<()> {
    var stored := if layout.omittedKeys then 0 else keyLen;
    if LeafMinimum(layout, keyLen) > pageSize then Err(TooLarge)
    else if PayloadBase(layout, Internal, 2) + 2 * (stored + 8) > pageSize then Err(TooLarge)
    else Ok(())
  }

  ghost predicate RowOk(c: Config, kind: NodeKind, row: Row) {
    && c.enc.wellFormed(row.key) && |row.key| <= 0xFFFF && LeafMinimum(c.layout, |row.key|) <= c.pageSize
    && (c.fits ==> CheckKeyFits(c.pageSize, c.layout, |row.key|).Ok?)
    && PayloadOk(kind, row.payload)
  }

  /** What is asked of a key: that a leaf has room for it and the number of a page, and an internal page for it twice,
      each with a number. */
  lemma KeyFitsMeans(pageSize: nat, layout: Layout, key: Key)
    ensures CheckKeyFits(pageSize, layout, |key|).Ok? <==>
              && PageLen(layout, Leaf, [Row(key, Overflow(0))]) <= pageSize
              && PageLen(layout, Internal, [Row(key, Child(0)), Row(key, Child(0))]) <= pageSize
    ensures LeafMinimum(layout, |key|) == PageLen(layout, Leaf, [Row(key, Overflow(0))])
  {
    var one, two := [Row(key, Overflow(0))], [Row(key, Child(0)), Row(key, Child(0))];
    assert one[..0] == [] && two[..1] == [two[0]] && two[..1][..0] == [];
    assert PayloadLen(layout, one) == EntryLen(layout, one[0]);
    assert PayloadLen(layout, two[..1]) == EntryLen(layout, two[0]);
    assert PayloadLen(layout, two) == PayloadLen(layout, two[..1]) + EntryLen(layout, two[1]);
  }

  /** A key that fits on a leaf fits on an internal page, if it is alone there. */
  lemma OneSeparatorFits(c: Config, key: Key, o: nat)
    requires LeafMinimum(c.layout, |key|) <= c.pageSize
    ensures PageLen(c.layout, Internal, [Row(key, Child(o))]) <= c.pageSize
  {
    var rows := [Row(key, Child(o))];
    assert rows[..0] == [];
    assert PayloadLen(c.layout, rows) == EntryLen(c.layout, rows[0]);
  }

  /** Rows a level can hold: each one storable, in strictly ascending order. */
  ghost predicate RowsOk(c: Config, kind: NodeKind, rows: seq<Row>) {
    && (forall i :: 0 <= i < |rows| ==> RowOk(c, kind, rows[i]))
    && (forall i, j :: 0 <= i < j < |rows| ==> c.enc.compare(rows[i].key, rows[j].key) == Less)
  }

  function DigestsOf(e: Encoding, rows: seq<Row>): (ds: seq<U64>)
    ensures |ds| == |rows|
    ensures forall i {:trigger ds[i]} :: 0 <= i < |ds| ==> ds[i] == e.digest(rows[i].key)
  {
    seq(|rows|, i requires 0 <= i < |rows| => DigestOf(e, rows[i]))
  }

  function DigestOf(e: Encoding, row: Row): U64 {
    e.digest(row.key)
  }

  /** `p` stores these rows. */
  ghost predicate Carries(c: Config, kind: NodeKind, rows: seq<Row>, p: Page) {
    && p.kind == kind && p.layout == c.layout
    && |p.keys| == |rows|
    && (forall i :: 0 <= i < |rows| ==> p.keys[i] == StoredKey(c.layout, rows[i].key))
    && (forall i :: 0 <= i < |rows| ==> p.payloads[i] == rows[i].payload)
    && p.blob == if rows == [] then EmptyBody(c.layout, kind) else []
  }

  /** `p` is the page of these rows. */
  ghost predicate IsPageOf(c: Config, kind: NodeKind, rows: seq<Row>, left: Option<nat>, right: Option<nat>, p: Page) {
    && Carries(c, kind, rows, p)
    && p.left == left && p.right == right
    && |Digests(p)| >= |rows|
    && (forall i :: 0 <= i < |rows| ==> Digests(p)[i] == c.enc.digest(rows[i].key))
    && (forall i :: |rows| <= i < |Digests(p)| ==> Digests(p)[i] == U64_MAX)
  }

  method BuildPage(c: Config, kind: NodeKind, rows: seq<Row>, left: Option<nat>) returns (p: Page)
    requires c.layout.omittedKeys ==> c.layout.compactMeta && !c.layout.eytzinger
    requires forall i :: 0 <= i < |rows| ==> (rows[i].payload.Child? <==> kind == Internal)
    ensures IsPageOf(c, kind, rows, left, None, p)
  {
    var digests := DigestsOf(c.enc, rows);
    var slots := ArrangeDigests(c.layout, digests);
    p := RawPage(kind, c.layout,
                 seq(|rows|, i requires 0 <= i < |rows| => StoredKey(c.layout, rows[i].key)),
                 slots,
                 seq(|rows|, i requires 0 <= i < |rows| => rows[i].payload),
                 left, None,
                 if rows == [] then EmptyBody(c.layout, kind) else []);
    if c.layout.eytzinger {
      ghost var padded := Eytzinger.PadTo(digests, |slots|);
      assert Digests(p) == padded;
    }
  }

  lemma KeysReadBack(c: Config, kind: NodeKind, rows: seq<Row>, left: Option<nat>, right: Option<nat>, p: Page)
    requires ConfigOk(c) && RowsOk(c, kind, rows) && IsPageOf(c, kind, rows, left, right, p)
    ensures PageRows(c.enc, p) == rows
  {
    forall i | 0 <= i < |rows|
      ensures PageRows(c.enc, p)[i] == rows[i]
    {
      assert RowOk(c, kind, rows[i]);
      if c.layout.omittedKeys {
        var k := c.enc.rebuild(p.slots[i]).value;
        assert p.slots[i] == Digests(p)[i];
        assert c.enc.compare(k, rows[i].key) == c.enc.compare(k, rows[i].key);
      }
    }
  }

  lemma BuiltIsChecked(c: Config, kind: NodeKind, rows: seq<Row>, left: Option<nat>, right: Option<nat>, p: Page)
    requires ConfigOk(c) && RowsOk(c, kind, rows) && IsPageOf(c, kind, rows, left, right, p)
    ensures PageOk(c.enc, p) && !Inexact(c.enc, p)
  {
    if c.layout.omittedKeys {
      forall i, j | 0 <= i < j < |p.slots|
        ensures p.slots[i] < p.slots[j]
      {
        assert RowOk(c, kind, rows[i]) && RowOk(c, kind, rows[j]);
        assert c.enc.compare(rows[i].key, rows[j].key) == Less;
        assert p.slots[i] == Digests(p)[i] && p.slots[j] == Digests(p)[j];
      }
    } else {
      forall i | 0 <= i < |p.slots|
        ensures SlotOk(c.enc, p, i)
      {
        if i < |rows| {
          assert RowOk(c, kind, rows[i]);
          if i > 0 {
            assert c.enc.compare(rows[i - 1].key, rows[i].key) == Less;
          }
        }
      }
    }
  }

  lemma {:induction false} PayloadIsEntries(c: Config, kind: NodeKind, rows: seq<Row>, parts: seq<seq<Byte>>)
    requires |parts| == |rows|
    requires forall i :: 0 <= i < |rows| ==> |parts[i]| == EntryLen(c.layout, rows[i])
    ensures |Cat(parts)| == PayloadLen(c.layout, rows)
  {
    if rows != [] {
      var n := |rows| - 1;
      PayloadIsEntries(c, kind, rows[..n], parts[..n]);
    }
  }

  /** A page takes as many bytes as the packing arithmetic says. */
  lemma BuiltSize(c: Config, kind: NodeKind, rows: seq<Row>, p: Page)
    requires Carries(c, kind, rows, p)
    ensures PREFIX + |Body(p)| == PageLen(c.layout, kind, rows)
  {
    var base := PayloadBase(c.layout, kind, |rows|);
    if rows == [] {
      EmptyAreas(p, base);
    } else {
      DigestArea(p);
      MetaArea(p, base);
      PayloadIsEntries(c, kind, rows, EntryParts(p));
    }
  }

  /** So a page that the packing arithmetic accepts is one the format has room for. */
  lemma CarriedIsEncodable(c: Config, kind: NodeKind, rows: seq<Row>, p: Page)
    requires ConfigOk(c) && Carries(c, kind, rows, p)
    requires forall i :: 0 <= i < |rows| ==> RowOk(c, kind, rows[i])
    requires PageLen(c.layout, kind, rows) <= c.pageSize
    requires p.left.Some? ==> p.left.value < I64_LIMIT
    requires p.right.Some? ==> p.right.value < I64_LIMIT
    ensures Encodable(p)
  {
    BuiltSize(c, kind, rows, p);
    forall i | 0 <= i < |p.keys|
      ensures EntryFits(p, i)
    {
      assert RowOk(c, kind, rows[i]);
    }
    if rows == [] {
      EmptyAreas(p, PayloadBase(c.layout, kind, 0));
    }
  }
}

/** The levels of a tree being written. */
module TreeWriting {
  import opened Base
  import opened Sequences
  import opened Bytes
  import opened Encodings
  import opened Pages
  import opened Codec
  import opened PageWriting
  import opened PageBuilding
  import opened Trees

  const MAX_LEVELS: nat := 64
  const PAGE_LIMIT: nat := 0x7FFF_FFFF

  /** A level's page under construction, and the page it wrote last. */
  datatype Level = Level(rows: seq<Row>, firstKey: Option<Key>, prev: Option<nat>)

  /** What the file means so far: its pages, which level each belongs to (-1 for blobs and other
      trees), for every level the pages written and all the rows it has been given, and the pages that
      were there before. */
  datatype Book = Book(pages: seq<Page>, owner: seq<int>, done: seq<seq<nat>>, total: seq<seq<Row>>, before: seq<Page>)

  /** The pages that were there before this tree are as they were. */
  ghost predicate Extends(b: Book) {
    && |b.before| <= |b.pages| && |b.before| <= |b.owner|
    && forall o :: 0 <= o < |b.before| ==> b.owner[o] == -1 && b.pages[o] == b.before[o]
  }

  ghost function FileOf(pages: seq<Page>): (file: seq<Option<Page>>)
    ensures |file| == |pages|
    ensures forall o {:trigger file[o]} :: 0 <= o < |file| ==> file[o] == Some(pages[o])
  {
    seq(|pages|, o requires 0 <= o < |pages| => Some(pages[o]))
  }

  ghost function Over(c: Config, pages: seq<Page>): Tree {
    Tree(FileOf(pages), None, c.enc, 0, true)
  }

  function KindOf(l: nat): NodeKind {
    if l == 0 then Leaf else Internal
  }

  // ---------------------------------------------------------------- the invariant

  /** What has been written: the bytes of every page, in file order. */
  type Sink = seq<seq<Byte>>

  /** The bytes are these pages. */
  ghost predicate Written(sink: Sink, pages: seq<Page>) {
    |sink| == |pages| && forall o {:trigger sink[o]} :: 0 <= o < |sink| ==> sink[o] == Encode(pages[o])
  }

  ghost predicate Stored(sink: Sink, b: Book) {
    Written(sink, b.pages) && |b.pages| == |b.owner| <= PAGE_LIMIT && Extends(b)
  }

  ghost predicate Increasing(s: seq<nat>) {
    forall i, j :: 0 <= i < j < |s| ==> s[i] < s[j]
  }

  ghost predicate OwnedBy(b: Book, level: seq<nat>, l: nat) {
    && Increasing(level)
    && forall i :: 0 <= i < |level| ==> level[i] < |b.owner| && b.owner[level[i]] == l
  }

  /** Pages written for a level: whole, linked both ways and never empty. */
  ghost predicate Built(c: Config, t: Tree, kind: NodeKind, level: seq<nat>) {
    forall i :: 0 <= i < |level| ==> BuiltAt(c, t, kind, level, i)
  }

  ghost predicate BuiltAt(c: Config, t: Tree, kind: NodeKind, level: seq<nat>, i: nat)
    requires i < |level|
  {
    && level[i] < |t.file| && t.file[level[i]].Some?
    && var p := At(t, level[i]);
    && p.kind == kind && p.layout == c.layout && |p.keys| > 0
    && PageOk(c.enc, p) && !Inexact(c.enc, p)
    && p.blob == [] && PageLen(c.layout, kind, PageRows(c.enc, p)) <= c.pageSize
    && p.left == Neighbour(level, i - 1) && p.right == Neighbour(level, i + 1)
  }

  ghost function Last(s: seq<nat>): Option<nat> {
    if s == [] then None else Some(s[|s| - 1])
  }

  /** The page under construction. */
  ghost predicate PendingOk(c: Config, kind: NodeKind, v: Level) {
    && (v.rows != [] ==> v.firstKey == Some(v.rows[0].key))
    && PageLen(c.layout, kind, v.rows) <= c.pageSize
  }

  ghost predicate LevelHolds(c: Config, b: Book, l: nat, v: Level)
    requires l < |b.done| && l < |b.total|
  {
    var t := Over(c, b.pages);
    && OwnedBy(b, b.done[l], l)
    && Built(c, t, KindOf(l), b.done[l])
    && v.prev == Last(b.done[l])
    && PendingOk(c, KindOf(l), v)
    && b.total[l] == Rows(t, b.done[l]) + v.rows
    && RowsOk(c, KindOf(l), b.total[l])
  }

  /** How a level's pages are listed in the level above. */
  ghost function Listing(t: Tree, level: seq<nat>): (rows: seq<Row>)
    ensures |rows| == |level|
    ensures forall i {:trigger rows[i]} :: 0 <= i < |rows| ==> rows[i] == Row(FirstKey(t, level[i]), Child(level[i]))
  {
    seq(|level|, i requires 0 <= i < |level| => Row(FirstKey(t, level[i]), Child(level[i])))
  }

  ghost predicate Linked(c: Config, b: Book, l: nat)
    requires l + 1 < |b.done| && |b.total| == |b.done|
  {
    b.total[l + 1] == Listing(Over(c, b.pages), b.done[l])
  }

  /** Everything from level `from` up is in order. */
  ghost predicate Holds(c: Config, levels: seq<Level>, b: Book, from: nat) {
    && |b.pages| == |b.owner|
    && 0 < |levels| <= MAX_LEVELS
    && |b.done| == |b.total| == |levels|
    && (forall l :: from <= l < |levels| ==> LevelHolds(c, b, l, levels[l]))
    && (forall l :: from <= l < |levels| - 1 ==> Linked(c, b, l))
    && (forall l :: from <= l < |levels| - 1 ==> b.done[l] != [])
    && (from < |levels| ==> b.done[|levels| - 1] == [])
  }

  // ---------------------------------------------------------------- what writing a page leaves alone

  /** Nothing that belongs below level `from`, or to no level, has changed. */
  ghost predicate Kept(b: Book, b': Book, from: int) {
    && |b.pages| == |b.owner| <= |b'.pages| == |b'.owner| && b'.before == b.before
    && (forall o :: 0 <= o < |b.owner| ==> b'.owner[o] == b.owner[o])
    && (forall o :: 0 <= o < |b.owner| && b.owner[o] < from ==> b'.pages[o] == b.pages[o])
    && (forall o :: 0 <= o < |b.owner| ==> SameButRight(b.pages[o], b'.pages[o]))
  }

  lemma ExtendsKept(b: Book, b': Book, from: nat)
    requires Extends(b) && Kept(b, b', from)
    ensures Extends(b')
  {
    forall o | 0 <= o < |b'.before|
      ensures b'.owner[o] == -1 && b'.pages[o] == b'.before[o]
    {
      assert b.owner[o] == -1;
    }
  }

  /** The same page, whatever follows it. */
  ghost predicate SameButRight(p: Page, q: Page) {
    q == p.(right := q.right)
  }

  /** Page `o` carries these rows. */
  ghost predicate CarriedAt(c: Config, kind: NodeKind, rows: seq<Row>, pages: seq<Page>, o: nat) {
    o < |pages| && Carries(c, kind, rows, pages[o])
  }

  lemma RightOnly(e: Encoding, p: Page, q: Page)
    requires q == p.(right := q.right)
    ensures PageRows(e, q) == PageRows(e, p)
    ensures PageOk(e, q) == PageOk(e, p) && Inexact(e, q) == Inexact(e, p)
  {
    assert Digests(q) == Digests(p);
    assert forall i :: 0 <= i < |p.keys| ==> EntryOk(e, q, i) == EntryOk(e, p, i);
    assert forall i :: 0 <= i < |p.slots| ==> SlotOk(e, q, i) == SlotOk(e, p, i);
  }

  lemma RowsSame(t: Tree, t': Tree, level: seq<nat>)
    requires t'.enc == t.enc
    requires forall i :: 0 <= i < |level| ==> PageRows(t.enc, At(t', level[i])) == PageRows(t.enc, At(t, level[i]))
    ensures Rows(t', level) == Rows(t, level)
  {
    assert Parts(t', level) == Parts(t, level);
  }

  lemma RowsNext(t: Tree, level: seq<nat>, o: nat)
    ensures Rows(t, level + [o]) == Rows(t, level) + PageRows(t.enc, At(t, o))
  {
    var up := level + [o];
    assert Parts(t, up)[..|level|] == Parts(t, level);
  }

  /** A level none of whose pages changed is as it was. */
  lemma LevelKept(c: Config, b: Book, b': Book, l: nat, v: Level)
    requires l < |b.done| == |b.total| && l < |b'.done| == |b'.total|
    requires LevelHolds(c, b, l, v) && |b.pages| == |b.owner| <= |b'.pages| == |b'.owner|
    requires b'.done[l] == b.done[l] && b'.total[l] == b.total[l]
    requires forall o :: 0 <= o < |b.owner| ==> b'.owner[o] == b.owner[o]
    requires forall o :: 0 <= o < |b.owner| && b.owner[o] == l ==> b'.pages[o] == b.pages[o]
    ensures LevelHolds(c, b', l, v)
    ensures Listing(Over(c, b'.pages), b.done[l]) == Listing(Over(c, b.pages), b.done[l])
  {
    var t, t', level := Over(c, b.pages), Over(c, b'.pages), b.done[l];
    forall i | 0 <= i < |level|
      ensures At(t', level[i]) == At(t, level[i]) && BuiltAt(c, t', KindOf(l), level, i)
    {
      assert BuiltAt(c, t, KindOf(l), level, i);
    }
    RowsSame(t, t', level);
  }

  // ---------------------------------------------------------------- writing a page

  /** A page appended, and linked into the one before it. */
  function PagesAfter(pages: seq<Page>, p: Page, prev: Option<nat>): seq<Page> {
    if prev.Some? && prev.value < |pages|
    then pages[prev.value := pages[prev.value].(right := Some(|pages|))] + [p]
    else pages + [p]
  }

  ghost function AfterFlush(b: Book, l: nat, p: Page, prev: Option<nat>): Book
    requires l < |b.done|
  {
    Book(PagesAfter(b.pages, p, prev), b.owner + [l], b.done[l := b.done[l] + [|b.pages|]], b.total, b.before)
  }

  lemma PageAfter(b: Book, l: nat, p: Page, prev: Option<nat>, o: nat)
    requires l < |b.done| && |b.pages| == |b.owner|
    ensures var pages' := AfterFlush(b, l, p, prev).pages;
            && (o < |b.pages| && Some(o) != prev ==> pages'[o] == b.pages[o])
            && (o < |b.pages| && Some(o) == prev ==> pages'[o] == b.pages[o].(right := Some(|b.pages|)))
            && (o == |b.pages| ==> pages'[o] == p)
  {
  }

  /** A page written earlier: at most its right sibling has changed. */
  lemma EarlierPage(c: Config, b: Book, l: nat, v: Level, p: Page, i: nat)
    requires l < |b.done| == |b.total| && |b.pages| == |b.owner| && LevelHolds(c, b, l, v) && i < |b.done[l]|
    ensures var t, t', o := Over(c, b.pages), Over(c, AfterFlush(b, l, p, v.prev).pages), b.done[l][i];
            && BuiltAt(c, t', KindOf(l), b.done[l] + [|b.pages|], i)
            && PageRows(c.enc, At(t', o)) == PageRows(c.enc, At(t, o))
            && FirstKey(t', o) == FirstKey(t, o)
  {
    var t, t', level := Over(c, b.pages), Over(c, AfterFlush(b, l, p, v.prev).pages), b.done[l];
    assert BuiltAt(c, t, KindOf(l), level, i);
    PageAfter(b, l, p, v.prev, level[i]);
    RightOnly(c.enc, At(t, level[i]), At(t', level[i]));
    SameFirstKey(t, t', level[i]);
  }

  /** The page just written. */
  lemma LatestPage(c: Config, b: Book, l: nat, v: Level, p: Page)
    requires ConfigOk(c) && l < |b.done| == |b.total| && |b.pages| == |b.owner|
    requires LevelHolds(c, b, l, v) && v.rows != [] && IsPageOf(c, KindOf(l), v.rows, v.prev, None, p)
    ensures var t', o := Over(c, AfterFlush(b, l, p, v.prev).pages), |b.pages|;
            && BuiltAt(c, t', KindOf(l), b.done[l] + [o], |b.done[l]|)
            && PageRows(c.enc, At(t', o)) == v.rows && FirstKey(t', o) == v.rows[0].key
  {
    PendingRowsOk(c, KindOf(l), Rows(Over(c, b.pages), b.done[l]), v.rows);
    KeysReadBack(c, KindOf(l), v.rows, v.prev, None, p);
    BuiltIsChecked(c, KindOf(l), v.rows, v.prev, None, p);
    PageAfter(b, l, p, v.prev, |b.pages|);
    assert PageRows(c.enc, p)[0] == v.rows[0];
  }

  /** The level that wrote the page: the page ends its chain. */
  lemma BuiltFlush(c: Config, b: Book, l: nat, v: Level, p: Page)
    requires ConfigOk(c) && l < |b.done| == |b.total| && |b.pages| == |b.owner|
    requires LevelHolds(c, b, l, v) && v.rows != [] && IsPageOf(c, KindOf(l), v.rows, v.prev, None, p)
    ensures Built(c, Over(c, AfterFlush(b, l, p, v.prev).pages), KindOf(l), b.done[l] + [|b.pages|])
  {
    forall i | 0 <= i < |b.done[l]|
      ensures BuiltAt(c, Over(c, AfterFlush(b, l, p, v.prev).pages), KindOf(l), b.done[l] + [|b.pages|], i)
    {
      EarlierPage(c, b, l, v, p, i);
    }
    LatestPage(c, b, l, v, p);
  }

  /** The pages written now hold everything the level was given. */
  lemma RowsFlush(c: Config, b: Book, l: nat, v: Level, p: Page)
    requires ConfigOk(c) && l < |b.done| == |b.total| && |b.pages| == |b.owner|
    requires LevelHolds(c, b, l, v) && v.rows != [] && IsPageOf(c, KindOf(l), v.rows, v.prev, None, p)
    ensures Rows(Over(c, AfterFlush(b, l, p, v.prev).pages), b.done[l] + [|b.pages|]) == b.total[l]
  {
    var t, t', level, o := Over(c, b.pages), Over(c, AfterFlush(b, l, p, v.prev).pages), b.done[l], |b.pages|;
    forall i | 0 <= i < |level|
      ensures PageRows(c.enc, At(t', level[i])) == PageRows(c.enc, At(t, level[i]))
    {
      EarlierPage(c, b, l, v, p, i);
    }
    LatestPage(c, b, l, v, p);
    RowsSame(t, t', level);
    RowsNext(t', level, o);
  }

  /** And the level above would list the new page last. */
  lemma ListingFlush(c: Config, b: Book, l: nat, v: Level, p: Page)
    requires ConfigOk(c) && l < |b.done| == |b.total| && |b.pages| == |b.owner|
    requires LevelHolds(c, b, l, v) && v.rows != [] && IsPageOf(c, KindOf(l), v.rows, v.prev, None, p)
    ensures Listing(Over(c, AfterFlush(b, l, p, v.prev).pages), b.done[l] + [|b.pages|])
         == Listing(Over(c, b.pages), b.done[l]) + [Row(v.rows[0].key, Child(|b.pages|))]
  {
    var t, t', level, o := Over(c, b.pages), Over(c, AfterFlush(b, l, p, v.prev).pages), b.done[l], |b.pages|;
    forall i | 0 <= i < |level|
      ensures FirstKey(t', level[i]) == FirstKey(t, level[i])
    {
      EarlierPage(c, b, l, v, p, i);
    }
    LatestPage(c, b, l, v, p);
    ListingNext(t, t', level, o);
  }

  lemma OwnedFlush(b: Book, l: nat, p: Page, prev: Option<nat>)
    requires l < |b.done| && |b.pages| == |b.owner| && OwnedBy(b, b.done[l], l)
    ensures OwnedBy(AfterFlush(b, l, p, prev), b.done[l] + [|b.pages|], l)
  {
  }

  lemma ListingNext(t: Tree, t': Tree, level: seq<nat>, o: nat)
    requires forall i :: 0 <= i < |level| ==> FirstKey(t', level[i]) == FirstKey(t, level[i])
    ensures Listing(t', level + [o]) == Listing(t, level) + [Row(FirstKey(t', o), Child(o))]
  {
    var a, b := Listing(t', level + [o]), Listing(t, level) + [Row(FirstKey(t', o), Child(o))];
    forall i | 0 <= i < |a|
      ensures a[i] == b[i]
    {
      if i < |level| {
        assert (level + [o])[i] == level[i];
      }
    }
  }

  lemma SameFirstKey(t: Tree, t': Tree, o: nat)
    requires t'.enc == t.enc && PageRows(t.enc, At(t', o)) == PageRows(t.enc, At(t, o))
    ensures FirstKey(t', o) == FirstKey(t, o)
  {
    if Count(t, o) > 0 {
      assert PageRows(t.enc, At(t', o))[0] == PageRows(t.enc, At(t, o))[0];
    }
  }

  lemma PendingRowsOk(c: Config, kind: NodeKind, before: seq<Row>, rows: seq<Row>)
    requires RowsOk(c, kind, before + rows)
    ensures RowsOk(c, kind, rows)
  {
    var all, n := before + rows, |before|;
    forall i | 0 <= i < |rows|
      ensures RowOk(c, kind, rows[i])
    {
      assert all[n + i] == rows[i];
    }
    forall i, j | 0 <= i < j < |rows|
      ensures c.enc.compare(rows[i].key, rows[j].key) == Less
    {
      assert all[n + i] == rows[i] && all[n + j] == rows[j];
    }
  }

  /** The levels above the one that wrote a page are untouched. */
  lemma KeptFlush(c: Config, b: Book, l: nat, v: Level, p: Page)
    requires l < |b.done| == |b.total| && |b.pages| == |b.owner| && LevelHolds(c, b, l, v)
    ensures Kept(b, AfterFlush(b, l, p, v.prev), l)
    ensures forall o :: 0 <= o < |b.pages| && b.owner[o] != l ==> AfterFlush(b, l, p, v.prev).pages[o] == b.pages[o]
  {
    var b' := AfterFlush(b, l, p, v.prev);
    forall o | 0 <= o < |b.pages|
      ensures b.owner[o] != l ==> b'.pages[o] == b.pages[o]
      ensures SameButRight(b.pages[o], b'.pages[o])
    {
      PageAfter(b, l, p, v.prev, o);
    }
  }

  lemma HoldsFlush(c: Config, levels: seq<Level>, b: Book, l: nat, p: Page)
    requires Holds(c, levels, b, l) && l < |levels|
    ensures Holds(c, levels, AfterFlush(b, l, p, levels[l].prev), l + 1)
    ensures Kept(b, AfterFlush(b, l, p, levels[l].prev), l)
  {
    var prev := levels[l].prev;
    var b' := AfterFlush(b, l, p, prev);
    assert LevelHolds(c, b, l, levels[l]);
    KeptFlush(c, b, l, levels[l], p);
    forall m | l + 1 <= m < |levels|
      ensures LevelHolds(c, b', m, levels[m])
      ensures Listing(Over(c, b'.pages), b.done[m]) == Listing(Over(c, b.pages), b.done[m])
    {
      LevelKept(c, b, b', m, levels[m]);
    }
    forall m | l + 1 <= m < |levels| - 1
      ensures Linked(c, b', m)
    {
      assert Linked(c, b, m);
    }
  }

  // ---------------------------------------------------------------- adding a row

  function WithRow(v: Level, row: Row): Level {
    Level(v.rows + [row], if v.rows == [] then Some(row.key) else v.firstKey, v.prev)
  }

  lemma RowAdded(c: Config, b: Book, l: nat, v: Level, row: Row)
    requires l < |b.done| == |b.total| && LevelHolds(c, b, l, v)
    requires RowsOk(c, KindOf(l), b.total[l] + [row])
    requires PageLen(c.layout, KindOf(l), v.rows + [row]) <= c.pageSize
    ensures LevelHolds(c, b.(total := b.total[l := b.total[l] + [row]]), l, WithRow(v, row))
  {
    var rows := Rows(Over(c, b.pages), b.done[l]);
    assert (rows + v.rows) + [row] == rows + (v.rows + [row]);
  }

  /** The first keys of written pages are keys of the level, in the same order. */
  lemma ListingOk(c: Config, t: Tree, kind: NodeKind, level: seq<nat>)
    requires t.enc == c.enc && Built(c, t, kind, level) && RowsOk(c, kind, Rows(t, level)) && |t.file| <= I64_LIMIT
    ensures RowsOk(c, Internal, Listing(t, level))
  {
    var rows := Listing(t, level);
    forall i | 0 <= i < |rows|
      ensures RowOk(c, Internal, rows[i])
    {
      assert BuiltAt(c, t, kind, level, i);
      RowOfPage(t, level, i, 0);
      assert RowOk(c, kind, Rows(t, level)[Off(t, level, i)]);
    }
    forall i, j | 0 <= i < j < |rows|
      ensures c.enc.compare(rows[i].key, rows[j].key) == Less
    {
      assert BuiltAt(c, t, kind, level, i) && BuiltAt(c, t, kind, level, j);
      RowOfPage(t, level, i, 0);
      RowOfPage(t, level, j, 0);
      StartGrows(Parts(t, level), i, j);
    }
  }

  /** A level whose pending rows have all been written. */
  ghost predicate Flushed(c: Config, b: Book, l: nat)
    requires l < |b.done| == |b.total|
  {
    && OwnedBy(b, b.done[l], l)
    && Built(c, Over(c, b.pages), KindOf(l), b.done[l])
    && b.total[l] == Rows(Over(c, b.pages), b.done[l])
    && RowsOk(c, KindOf(l), b.total[l])
  }

  lemma FlushedKept(c: Config, b: Book, b': Book, l: nat)
    requires l < |b.done| == |b.total| && l < |b'.done| == |b'.total|
    requires Flushed(c, b, l) && Kept(b, b', l + 1)
    requires b'.done[l] == b.done[l] && b'.total[l] == b.total[l]
    ensures Flushed(c, b', l)
    ensures Listing(Over(c, b'.pages), b.done[l]) == Listing(Over(c, b.pages), b.done[l])
  {
    var t, t', level := Over(c, b.pages), Over(c, b'.pages), b.done[l];
    forall i | 0 <= i < |level|
      ensures At(t', level[i]) == At(t, level[i]) && BuiltAt(c, t', KindOf(l), level, i)
    {
      assert BuiltAt(c, t, KindOf(l), level, i);
    }
    RowsSame(t, t', level);
  }

  lemma FlushedAfter(c: Config, b: Book, l: nat, v: Level, p: Page)
    requires ConfigOk(c) && l < |b.done| == |b.total| && |b.pages| == |b.owner|
    requires LevelHolds(c, b, l, v) && v.rows != [] && IsPageOf(c, KindOf(l), v.rows, v.prev, None, p)
    ensures Flushed(c, AfterFlush(b, l, p, v.prev), l)
  {
    OwnedFlush(b, l, p, v.prev);
    BuiltFlush(c, b, l, v, p);
    RowsFlush(c, b, l, v, p);
  }

  lemma EmptyLevelFits(c: Config, kind: NodeKind)
    requires ConfigOk(c)
    ensures PageLen(c.layout, kind, []) <= c.pageSize
  {
    assert DigestSlots(c.layout, 0) == 0;
  }

  lemma ResetHolds(c: Config, b: Book, l: nat)
    requires ConfigOk(c) && l < |b.done| == |b.total| && Flushed(c, b, l)
    ensures LevelHolds(c, b, l, Level([], None, Last(b.done[l])))
  {
    EmptyLevelFits(c, KindOf(l));
  }

  // ---------------------------------------------------------------- listing a page in the level above

  /** A new top level, with nothing in it yet. */
  ghost function NewTop(b: Book): Book {
    b.(done := b.done + [[]], total := b.total + [[]])
  }

  lemma NewTopHolds(c: Config, levels: seq<Level>, b: Book, from: nat)
    requires ConfigOk(c) && Holds(c, levels, b, from) && from == |levels| < MAX_LEVELS
    ensures Holds(c, levels + [Level([], None, None)], NewTop(b), from)
  {
    EmptyLevelFits(c, KindOf(from));
    NoPages(Over(c, b.pages));
  }

  lemma OtherTotal(c: Config, b: Book, m: nat, v: Level, l: nat, rows: seq<Row>)
    requires m < |b.done| == |b.total| && l < |b.total| && m != l && LevelHolds(c, b, m, v)
    ensures LevelHolds(c, b.(total := b.total[l := rows]), m, v)
  {
  }

  lemma RowHolds(c: Config, levels: seq<Level>, b: Book, l: nat, row: Row)
    requires Holds(c, levels, b, l) && l < |levels|
    requires RowsOk(c, KindOf(l), b.total[l] + [row])
    requires PageLen(c.layout, KindOf(l), levels[l].rows + [row]) <= c.pageSize
    ensures Holds(c, levels[l := WithRow(levels[l], row)], b.(total := b.total[l := b.total[l] + [row]]), l)
  {
    var rows := b.total[l] + [row];
    var b', levels' := b.(total := b.total[l := rows]), levels[l := WithRow(levels[l], row)];
    RowAdded(c, b, l, levels[l], row);
    forall m | l <= m < |levels'|
      ensures LevelHolds(c, b', m, levels'[m])
    {
      if m > l {
        OtherTotal(c, b, m, levels[m], l, rows);
      }
    }
    forall m | l <= m < |levels'| - 1
      ensures Linked(c, b', m)
    {
      assert Linked(c, b, m);
    }
  }

  lemma LowerHolds(c: Config, levels: seq<Level>, b: Book, l: nat, v: Level)
    requires Holds(c, levels, b, l + 1) && l + 1 < |levels| && LevelHolds(c, b, l, v) && Linked(c, b, l)
             && b.done[l] != []
    ensures Holds(c, levels[l := v], b, l)
  {
  }

  /** Level `l` has written its page, the level above lists it, and level `l` starts afresh. */
  lemma ListedHolds(c: Config, levels: seq<Level>, b: Book, l: nat, row: Row)
    requires ConfigOk(c) && Holds(c, levels, b, l + 1) && l + 1 < |levels| && Flushed(c, b, l) && |b.pages| <= I64_LIMIT
    requires Listing(Over(c, b.pages), b.done[l]) == b.total[l + 1] + [row]
    requires PageLen(c.layout, Internal, levels[l + 1].rows + [row]) <= c.pageSize
    ensures Holds(c, levels[l + 1 := WithRow(levels[l + 1], row)][l := Level([], None, Last(b.done[l]))],
                  b.(total := b.total[l + 1 := b.total[l + 1] + [row]]), l)
  {
    ListingOk(c, Over(c, b.pages), KindOf(l), b.done[l]);
    RowHolds(c, levels, b, l + 1, row);
    var b' := b.(total := b.total[l + 1 := b.total[l + 1] + [row]]);
    ResetHolds(c, b', l);
    LowerHolds(c, levels[l + 1 := WithRow(levels[l + 1], row)], b', l, Level([], None, Last(b.done[l])));
  }

  /** What writing a page of level `l` as page `o` leaves. */
  ghost predicate Wrote(c: Config, levels: seq<Level>, b: Book, sink': Sink, b': Book, l: nat, o: nat) {
    && l < |levels| == |b.done| == |b.total| == |b'.done| == |b'.total| && levels[l].rows != []
    && Stored(sink', b') && Holds(c, levels, b', l + 1) && Flushed(c, b', l) && Kept(b, b', l)
    && |sink'| == o + 1 == |b'.owner| && b'.owner[o] == l && CarriedAt(c, KindOf(l), levels[l].rows, b'.pages, o)
    && b'.total == b.total && b'.done == b.done[l := b.done[l] + [o]]
    && Listing(Over(c, b'.pages), b'.done[l]) ==
         Listing(Over(c, b.pages), b.done[l]) + [Row(levels[l].rows[0].key, Child(o))]
  }

  /** Appends the bytes of a page, and links them into those of the page before. */
  method AppendPage(sink: Sink, p: Page, prev: Option<nat>, ghost pages: seq<Page>) returns (sink': Sink)
    requires Written(sink, pages) && (|p.keys| == 0 ==> p.blob == EmptyBody(p.layout, p.kind))
    ensures Written(sink', PagesAfter(pages, p, prev)) && |sink'| == |sink| + 1
  {
    sink' := sink;
    ghost var pages' := pages;
    if prev.Some? && prev.value < |sink| {
      var linked := LinkRight(sink[prev.value], |sink|, pages[prev.value]);
      ghost var page := pages[prev.value].(right := Some(|sink|));
      WrittenOver(sink, pages, prev.value, page, linked);
      sink', pages' := sink[prev.value := linked], pages[prev.value := page];
    }
    var b := WritePage(p);
    WrittenMore(sink', pages', p, b);
    sink' := sink' + [b];
  }

  lemma WrittenMore(sink: Sink, pages: seq<Page>, p: Page, b: seq<Byte>)
    requires Written(sink, pages) && b == Encode(p)
    ensures Written(sink + [b], pages + [p])
  {
  }

  lemma WrittenOver(sink: Sink, pages: seq<Page>, o: nat, p: Page, b: seq<Byte>)
    requires Written(sink, pages) && o < |sink| && b == Encode(p)
    ensures Written(sink[o := b], pages[o := p])
  {
  }

  /** Patches the right sibling into the bytes of a page. */
  method LinkRight(b: seq<Byte>, o: nat, ghost p: Page) returns (b': seq<Byte>)
    requires b == Encode(p)
    ensures b' == Encode(p.(right := Some(o)))
  {
    PatchSetsRight(p, o);
    b' := Patch(b, RIGHT_SIBLING, Le(o, 8));
  }

  lemma WroteFlush(c: Config, sink: Sink, levels: seq<Level>, b: Book, l: nat, p: Page, sink': Sink)
    requires ConfigOk(c) && Stored(sink, b) && Holds(c, levels, b, l) && l < |levels| && levels[l].rows != []
    requires |sink| < PAGE_LIMIT && IsPageOf(c, KindOf(l), levels[l].rows, levels[l].prev, None, p)
    requires Written(sink', PagesAfter(b.pages, p, levels[l].prev)) && |sink'| == |sink| + 1
    ensures Wrote(c, levels, b, sink', AfterFlush(b, l, p, levels[l].prev), l, |sink|)
  {
    var v := levels[l];
    HoldsFlush(c, levels, b, l, p);
    ExtendsKept(b, AfterFlush(b, l, p, v.prev), l);
    FlushedAfter(c, b, l, v, p);
    ListingFlush(c, b, l, v, p);
  }

  /** Writes the page of a level and links it to the one before. */
  method FlushPage(c: Config, sink: Sink, levels: seq<Level>, l: nat, ghost b: Book)
    returns (r: Result<Sink>, ghost b': Book)
    requires ConfigOk(c) && Stored(sink, b) && Holds(c, levels, b, l) && l < |levels| && levels[l].rows != []
    ensures r.Ok? ==> Wrote(c, levels, b, r.value, b', l, |sink|)
    ensures r.Err? ==> r.kind == TooLarge && |sink| >= PAGE_LIMIT
  {
    b' := b;
    if |sink| >= PAGE_LIMIT {
      return Err(TooLarge), b';
    }
    var v := levels[l];
    PendingKind(c, b, l, v);
    var p := BuildPage(c, KindOf(l), v.rows, v.prev);
    if PageLen(c.layout, KindOf(l), v.rows) > c.pageSize {
      assert false;
    }
    var sink' := AppendPage(sink, p, v.prev, b.pages);
    WroteFlush(c, sink, levels, b, l, p, sink');
    r := Ok(sink');
    b' := AfterFlush(b, l, p, v.prev);
  }

  lemma PendingKind(c: Config, b: Book, l: nat, v: Level)
    requires l < |b.done| == |b.total| && LevelHolds(c, b, l, v)
    ensures forall i :: 0 <= i < |v.rows| ==> (v.rows[i].payload.Child? <==> KindOf(l) == Internal)
    ensures v.prev.Some? ==> v.prev.value < |b.owner| && b.owner[v.prev.value] == l
  {
    PendingRowsOk(c, KindOf(l), Rows(Over(c, b.pages), b.done[l]), v.rows);
    forall i | 0 <= i < |v.rows|
      ensures v.rows[i].payload.Child? <==> KindOf(l) == Internal
    {
      assert RowOk(c, KindOf(l), v.rows[i]);
    }
  }

  /** Nothing below level `l` differs. */
  ghost predicate SameBelow(levels: seq<Level>, b: Book, levels': seq<Level>, b': Book, l: nat) {
    && l < |levels| == |b.done| == |b.total| && |levels| <= |levels'| == |b'.done| == |b'.total|
    && (forall m :: 0 <= m < l ==> levels'[m] == levels[m] && b'.done[m] == b.done[m] && b'.total[m] == b.total[m])
  }

  lemma SameBelowTrans(levels: seq<Level>, b: Book, levels1: seq<Level>, b1: Book, levels2: seq<Level>, b2: Book,
                       l: nat)
    requires SameBelow(levels, b, levels1, b1, l) && SameBelow(levels1, b1, levels2, b2, l + 1)
    ensures SameBelow(levels, b, levels2, b2, l)
    ensures levels2[l] == levels1[l] && b2.done[l] == b1.done[l] && b2.total[l] == b1.total[l]
  {
  }

  lemma SameBelowRow(levels: seq<Level>, b: Book, levels': seq<Level>, b': Book, l: nat, n: nat, v: Level,
                     rows: seq<Row>)
    requires SameBelow(levels, b, levels', b', l) && l <= n < |levels'|
    ensures SameBelow(levels, b, levels'[n := v], b'.(total := b'.total[n := rows]), l)
  {
  }

  lemma KeptTrans(b: Book, b1: Book, b2: Book, l: int)
    requires Kept(b, b1, l) && Kept(b1, b2, l + 1)
    ensures Kept(b, b2, l)
  {
  }

  /** What rotating level `l` leaves: its rows written as page `o` and listed above, everything below
      untouched. */
  ghost predicate Rotated(c: Config, levels: seq<Level>, b: Book, sink': Sink, levels': seq<Level>, b': Book, l: nat,
                          o: nat) {
    && SameBelow(levels, b, levels', b', l)
    && Stored(sink', b') && Holds(c, levels', b', l) && Kept(b, b', l)
    && b'.done[l] == b.done[l] + [o] && b'.total[l] == b.total[l] && levels'[l].rows == []
    && CarriedAt(c, KindOf(l), levels[l].rows, b'.pages, o)
  }

  /** Between writing a page and listing it: everything above is in order and `row` is what the level
      above lacks. */
  ghost predicate Owing(c: Config, sink: Sink, levels: seq<Level>, b: Book, l: nat, row: Row) {
    && Stored(sink, b) && Holds(c, levels, b, l + 1) && l + 1 < |levels| && Flushed(c, b, l)
    && levels[l] == Level([], None, Last(b.done[l]))
    && Listing(Over(c, b.pages), b.done[l]) == b.total[l + 1] + [row]
  }

  lemma HoldsAnyway(c: Config, levels: seq<Level>, b: Book, l: nat, v: Level)
    requires Holds(c, levels, b, l + 1) && l < |levels|
    ensures Holds(c, levels[l := v], b, l + 1)
  {
  }

  /** A level reset after its page was written, with a level above it. */
  lemma OwesListing(c: Config, levels: seq<Level>, b: Book, sink': Sink, b': Book, l: nat, o: nat)
    requires ConfigOk(c) && Holds(c, levels, b, l) && Wrote(c, levels, b, sink', b', l, o) && l + 1 < |levels|
    ensures Owing(c, sink', levels[l := Level([], None, Some(o))], b', l, Row(levels[l].rows[0].key, Child(o)))
  {
    HoldsAnyway(c, levels, b', l, Level([], None, Some(o)));
    assert Linked(c, b, l);
  }

  /** The same for the top level, which gets a level above it. */
  lemma OwesFirstListing(c: Config, sink: Sink, levels: seq<Level>, b: Book, l: nat, row: Row)
    requires ConfigOk(c) && Stored(sink, b) && Holds(c, levels, b, l + 1) && l + 1 == |levels| < MAX_LEVELS
    requires Flushed(c, b, l) && levels[l] == Level([], None, Last(b.done[l]))
    requires Listing(Over(c, b.pages), b.done[l]) == [row]
    ensures Owing(c, sink, levels + [Level([], None, None)], NewTop(b), l, row)
  {
    NewTopHolds(c, levels, b, l + 1);
    FlushedKept(c, b, NewTop(b), l);
    assert [] + [row] == [row];
  }

  /** Listing what is owed. */
  lemma PaidHolds(c: Config, sink: Sink, levels: seq<Level>, b: Book, l: nat, row: Row)
    requires ConfigOk(c) && Owing(c, sink, levels, b, l, row)
    requires PageLen(c.layout, Internal, levels[l + 1].rows + [row]) <= c.pageSize
    ensures Holds(c, levels[l + 1 := WithRow(levels[l + 1], row)],
                  b.(total := b.total[l + 1 := b.total[l + 1] + [row]]), l)
  {
    ListedHolds(c, levels, b, l, row);
    assert levels[l + 1 := WithRow(levels[l + 1], row)][l := Level([], None, Last(b.done[l]))]
        == levels[l + 1 := WithRow(levels[l + 1], row)];
  }

  /** Rotating the level above does not change what is owed to it. */
  lemma StillOwing(c: Config, sink: Sink, levels: seq<Level>, b: Book, l: nat, row: Row,
                   sink': Sink, levels': seq<Level>, b': Book, o: nat)
    requires Owing(c, sink, levels, b, l, row) && Rotated(c, levels, b, sink', levels', b', l + 1, o)
    ensures Owing(c, sink', levels', b', l, row)
  {
    FlushedKept(c, b, b', l);
  }

  // ---------------------------------------------------------------- counting pages

  /** With keys that fit twice on an internal page, every internal page but the last of a finished level
      lists at least two pages. Levels below `closed` are finished. */
  ghost predicate WellFilled(levels: seq<Level>, b: Book, closed: nat) {
    FilledCounts(levels, b, closed) && Twos(b.pages, b.done, closed)
  }

  ghost predicate FilledCounts(levels: seq<Level>, b: Book, closed: nat) {
    && |b.done| == |b.total| == |levels|
    && (forall m :: 0 <= m < |levels| ==> |b.done[m]| <= |b.pages|)
    && (forall m, n :: 0 <= m && n == m + 1 && n < |levels| ==> |b.done[m]| >= |b.total[n]|)
    && (forall m :: 0 < m < |levels| ==>
          |b.total[m]| >= if m < closed then 2 * |b.done[m]| - 1 else 2 * |b.done[m]| + |levels[m].rows|)
    && (forall m :: 0 <= m < |levels| - 2 ==> |b.done[m]| >= 3)
  }

  /** Every internal page lists at least two, but for the last of a level below `closed`. */
  ghost predicate Twos(pages: seq<Page>, done: seq<seq<nat>>, closed: nat) {
    forall m, i :: 0 < m < |done| && 0 <= i < |done[m]| - (if m < closed then 1 else 0) ==>
                     Separators(pages, done[m][i]) >= 2
  }

  ghost function Separators(pages: seq<Page>, o: nat): nat {
    if o < |pages| then |pages[o].keys| else 0
  }

  ghost function Pow2(n: nat): nat {
    if n == 0 then 1 else 2 * Pow2(n - 1)
  }

  /** So the levels at least halve on the way up. */
  lemma {:induction false} LevelsHalve(levels: seq<Level>, b: Book, closed: nat, m: nat)
    requires WellFilled(levels, b, closed) && m + 2 < |levels|
    ensures |b.done[m]| > 2 * Pow2(|levels| - 3 - m)
    decreases |levels| - m
  {
    if m + 3 < |levels| {
      var n := m + 1;
      LevelsHalve(levels, b, closed, n);
      assert |b.done[m]| >= |b.total[n]| >= 2 * |b.done[n]| - 1;
    }
  }

  lemma {:induction false} Pow2Grows(a: nat, b: nat)
    requires a <= b
    ensures Pow2(a) <= Pow2(b)
  {
    if a < b {
      Pow2Grows(a, b - 1);
    }
  }

  lemma Pow2Of31()
    ensures Pow2(31) == 0x8000_0000
  {
    assert Pow2(4) == 16;
    assert Pow2(8) == 256;
    assert Pow2(12) == 4096;
    assert Pow2(16) == 65536;
    assert Pow2(20) == 0x10_0000;
    assert Pow2(24) == 0x100_0000;
    assert Pow2(28) == 0x1000_0000;
  }

  /** A tree of as many levels as the writer allows has more pages than a file. */
  lemma LevelsAreFew(levels: seq<Level>, b: Book, closed: nat)
    requires WellFilled(levels, b, closed) && |b.pages| <= PAGE_LIMIT
    ensures |levels| < 34
  {
    Pow2Of31();
    if |levels| >= 34 {
      Pow2Grows(31, |levels| - 3);
      LevelsHalve(levels, b, closed, 0);
    }
  }

  /** If one more separator does not fit, there are at least two already. */
  lemma FullMeansTwo(c: Config, rows: seq<Row>, row: Row)
    requires c.fits && RowsOk(c, Internal, rows + [row])
    requires PageLen(c.layout, Internal, rows + [row]) > c.pageSize
    ensures |rows| >= 2
  {
    assert (rows + [row])[|rows|] == row;
    assert RowOk(c, Internal, row);
    if rows == [] {
      assert rows + [row] == [Row(row.key, Child(row.payload.page))];
      OneSeparatorFits(c, row.key, row.payload.page);
    } else if |rows| == 1 {
      assert (rows + [row])[0] == rows[0];
      assert RowOk(c, Internal, rows[0]);
      assert rows + [row] == [rows[0], row];
      TwoSeparators(c, rows[0], row);
    }
  }

  lemma TwoSeparators(c: Config, a: Row, b: Row)
    requires a.payload.Child? && b.payload.Child?
    requires CheckKeyFits(c.pageSize, c.layout, |a.key|).Ok? && CheckKeyFits(c.pageSize, c.layout, |b.key|).Ok?
    ensures PageLen(c.layout, Internal, [a, b]) <= c.pageSize
  {
    assert [a, b][..1] == [a] && [a][..0] == [];
    assert PayloadLen(c.layout, [a]) == EntryLen(c.layout, a);
    assert PayloadLen(c.layout, [a, b]) == EntryLen(c.layout, a) + EntryLen(c.layout, b);
  }

  /** What counting needs of the level that is written: a full page, on account of a page below that is
      not listed yet, or the last page of a level that is being closed. */
  ghost predicate MayFill(c: Config, levels: seq<Level>, b: Book, l: nat, closed: nat, closing: bool) {
    && l < |levels| == |b.done| == |b.total| && closed <= l
    && (closing ==> closed == l && l + 1 < |levels|)
    && (c.fits ==> WellFilled(levels, b, closed))
    && (c.fits && !closing && l > 0 ==> |levels[l].rows| >= 2 && |b.done[l - 1]| > |b.total[l]|)
  }

  ghost function ClosedAfter(l: nat, closed: nat, closing: bool): nat {
    if closing then l + 1 else closed
  }

  lemma SeparatorsKept(b: Book, b': Book, from: int, o: nat)
    requires Kept(b, b', from) && Separators(b.pages, o) >= 2
    ensures Separators(b'.pages, o) == Separators(b.pages, o)
  {
    assert SameButRight(b.pages[o], b'.pages[o]);
  }

  lemma TwosFlush(c: Config, levels: seq<Level>, b: Book, b': Book, l: nat, o: nat, closed: nat, closing: bool)
    requires c.fits && MayFill(c, levels, b, l, closed, closing) && b'.done == b.done[l := b.done[l] + [o]]
    requires Kept(b, b', l) && CarriedAt(c, KindOf(l), levels[l].rows, b'.pages, o)
    ensures Twos(b'.pages, b'.done, ClosedAfter(l, closed, closing))
  {
    var closed' := ClosedAfter(l, closed, closing);
    forall m, i | 0 < m < |b'.done| && 0 <= i < |b'.done[m]| - (if m < closed' then 1 else 0)
      ensures Separators(b'.pages, b'.done[m][i]) >= 2
    {
      if m != l || i < |b.done[m]| {
        assert Separators(b.pages, b.done[m][i]) >= 2;
        SeparatorsKept(b, b', l, b.done[m][i]);
      }
    }
  }

  lemma TwosNewTop(pages: seq<Page>, done: seq<seq<nat>>, closed: nat)
    requires Twos(pages, done, closed)
    ensures Twos(pages, done + [[]], closed)
  {
  }

  lemma FilledFlush(c: Config, levels: seq<Level>, b: Book, b': Book, l: nat, o: nat, closed: nat, closing: bool)
    requires c.fits && MayFill(c, levels, b, l, closed, closing) && levels[l].rows != []
    requires |b.pages| < |b'.pages| && b'.total == b.total && b'.done == b.done[l := b.done[l] + [o]]
    requires Kept(b, b', l) && CarriedAt(c, KindOf(l), levels[l].rows, b'.pages, o)
    ensures WellFilled(levels[l := Level([], None, Some(o))], b', ClosedAfter(l, closed, closing))
  {
    TwosFlush(c, levels, b, b', l, o, closed, closing);
    CountsFlush(c, levels, b, b', l, o, closed, closing);
  }

  lemma CountsFlush(c: Config, levels: seq<Level>, b: Book, b': Book, l: nat, o: nat, closed: nat, closing: bool)
    requires c.fits && MayFill(c, levels, b, l, closed, closing) && levels[l].rows != []
    requires |b.pages| < |b'.pages| && b'.total == b.total && b'.done == b.done[l := b.done[l] + [o]]
    ensures FilledCounts(levels[l := Level([], None, Some(o))], b', ClosedAfter(l, closed, closing))
  {
    var levels' := levels[l := Level([], None, Some(o))];
    forall m, n | 0 <= m && n == m + 1 && n < |levels'|
      ensures |b'.done[m]| >= |b'.total[n]|
    {
      assert |b.done[m]| >= |b.total[n]|;
    }
  }

  lemma FilledNewTop(levels: seq<Level>, b: Book, closed: nat)
    requires WellFilled(levels, b, closed) && (|levels| >= 2 ==> |b.done[|levels| - 2]| >= 3)
    ensures WellFilled(levels + [Level([], None, None)], NewTop(b), closed)
  {
    var levels', b' := levels + [Level([], None, None)], NewTop(b);
    TwosNewTop(b.pages, b.done, closed);
    forall m, n | 0 <= m && n == m + 1 && n < |levels'|
      ensures |b'.done[m]| >= |b'.total[n]|
    {
      if n < |levels| {
        assert |b.done[m]| >= |b.total[n]|;
      }
    }
  }

  lemma FilledRow(levels: seq<Level>, b: Book, l: nat, row: Row, closed: nat)
    requires 0 < l < |levels| && closed <= l && WellFilled(levels, b, closed) && |b.done[l - 1]| > |b.total[l]|
    ensures WellFilled(levels[l := WithRow(levels[l], row)], b.(total := b.total[l := b.total[l] + [row]]), closed)
  {
    var levels', b' := levels[l := WithRow(levels[l], row)], b.(total := b.total[l := b.total[l] + [row]]);
    forall m, n | 0 <= m && n == m + 1 && n < |levels'|
      ensures |b'.done[m]| >= |b'.total[n]|
    {
      assert |b.done[m]| >= |b.total[n]|;
    }
  }

  lemma SeparatorsStayOk(c: Config, sink: Sink, levels: seq<Level>, b: Book, l: nat, row: Row)
    requires ConfigOk(c) && Owing(c, sink, levels, b, l, row)
    ensures RowsOk(c, Internal, levels[l + 1].rows + [row])
    ensures LeafMinimum(c.layout, |row.key|) <= c.pageSize && row.payload.Child?
  {
    ListingOk(c, Over(c, b.pages), KindOf(l), b.done[l]);
    assert LevelHolds(c, b, l + 1, levels[l + 1]);
    var before := Rows(Over(c, b.pages), b.done[l + 1]);
    var all := b.total[l + 1] + [row];
    assert all == before + (levels[l + 1].rows + [row]);
    PendingRowsOk(c, Internal, before, levels[l + 1].rows + [row]);
    assert all[|b.total[l + 1]|] == row;
    assert RowOk(c, Internal, row);
  }

  /** Level `l` has written its rows as page `o` and owes the level above a listing of it. */
  ghost predicate Began(c: Config, levels: seq<Level>, b: Book, sink': Sink, levels': seq<Level>, b': Book, l: nat,
                        o: nat, row: Row) {
    && SameBelow(levels, b, levels', b', l) && Kept(b, b', l)
    && Owing(c, sink', levels', b', l, row) && row.payload == Child(o)
    && b'.done[l] == b.done[l] + [o] && b'.total[l] == b.total[l]
    && CarriedAt(c, KindOf(l), levels[l].rows, b'.pages, o) && b'.owner[o] == l
  }

  lemma BeganBelowTop(c: Config, levels: seq<Level>, b: Book, sink': Sink, b': Book, l: nat, o: nat)
    requires ConfigOk(c) && Holds(c, levels, b, l) && Wrote(c, levels, b, sink', b', l, o) && l + 1 < |levels|
    ensures Began(c, levels, b, sink', levels[l := Level([], None, Some(o))], b', l, o,
                  Row(levels[l].rows[0].key, Child(o)))
  {
    OwesListing(c, levels, b, sink', b', l, o);
  }

  lemma BeganAtTop(c: Config, levels: seq<Level>, b: Book, sink': Sink, b': Book, l: nat, o: nat)
    requires ConfigOk(c) && Holds(c, levels, b, l) && Wrote(c, levels, b, sink', b', l, o)
             && l + 1 == |levels| < MAX_LEVELS
    ensures Began(c, levels, b, sink', levels[l := Level([], None, Some(o))] + [Level([], None, None)],
                  NewTop(b'), l, o,
                  Row(levels[l].rows[0].key, Child(o)))
  {
    var row := Row(levels[l].rows[0].key, Child(o));
    HoldsAnyway(c, levels, b', l, Level([], None, Some(o)));
    assert Listing(Over(c, b.pages), []) == [] && [] + [row] == [row];
    OwesFirstListing(c, sink', levels[l := Level([], None, Some(o))], b', l, row);
  }

  /** Writes a level's page and makes sure there is a level above it. */
  method BeginRotation(c: Config, sink: Sink, levels: seq<Level>, l: nat, ghost b: Book, ghost closed: nat,
                       ghost closing: bool)
    returns (r: Result<()>, sink': Sink, levels': seq<Level>, row: Row, ghost b': Book)
    requires ConfigOk(c) && Stored(sink, b) && Holds(c, levels, b, l) && l < |levels| && levels[l].rows != []
    requires MayFill(c, levels, b, l, closed, closing)
    ensures r.Ok? ==> Began(c, levels, b, sink', levels', b', l, |sink|, row) && row.key == levels[l].rows[0].key
    ensures r.Ok? && c.fits ==> WellFilled(levels', b', ClosedAfter(l, closed, closing))
    ensures r.Err? && c.fits ==> r.kind == TooLarge && |sink'| >= PAGE_LIMIT
  {
    var ordinal := |sink|;
    sink', levels' := sink, levels;
    row := Row(levels[l].firstKey.value, Child(ordinal));
    var written;
    written, b' := FlushPage(c, sink, levels, l, b);
    if written.Err? {
      r := Err(written.kind);
      return;
    }
    sink' := written.value;
    var reset := levels[l := Level([], None, Some(ordinal))];
    if c.fits {
      FilledFlush(c, levels, b, b', l, ordinal, closed, closing);
    }
    if l + 1 < |levels| {
      BeganBelowTop(c, levels, b, sink', b', l, ordinal);
      levels', r := reset, Ok(());
      return;
    }
    if |levels| >= MAX_LEVELS {
      if c.fits {
        LevelsAreFew(reset, b', ClosedAfter(l, closed, closing));
      }
      r := Err(Corrupt);
      return;
    }
    BeganAtTop(c, levels, b, sink', b', l, ordinal);
    if c.fits {
      FilledNewTop(reset, b', ClosedAfter(l, closed, closing));
    }
    levels', b' := reset + [Level([], None, None)], NewTop(b');
    r := Ok(());
  }

  /** Writes a level's page and lists it above, making room there first if need be. */
  method Rotate(c: Config, sink: Sink, levels: seq<Level>, l: nat, ghost b: Book, ghost closed: nat,
                ghost closing: bool)
    returns (r: Result<()>, sink': Sink, levels': seq<Level>, ghost b': Book)
    requires ConfigOk(c) && Stored(sink, b) && Holds(c, levels, b, l) && l < |levels| && levels[l].rows != []
    requires MayFill(c, levels, b, l, closed, closing)
    ensures r.Ok? ==> Rotated(c, levels, b, sink', levels', b', l, |sink|)
    ensures r.Ok? && c.fits ==> WellFilled(levels', b', ClosedAfter(l, closed, closing))
    ensures r.Err? && c.fits ==> r.kind == TooLarge && |sink'| >= PAGE_LIMIT
    decreases MAX_LEVELS - l, 1
  {
    var row, sink1, levels1;
    ghost var b1;
    r, sink1, levels1, row, b1 := BeginRotation(c, sink, levels, l, b, closed, closing);
    sink', levels', b' := sink1, levels1, b1;
    if r.Err? {
      return;
    }
    r, sink', levels', b' := MakeRoom(c, sink1, levels1, l, row, b1, ClosedAfter(l, closed, closing));
    if r.Err? {
      return;
    }
    ListOwed(c, levels, b, sink1, levels1, b1, sink', levels', b', l, |sink|, row);
    if c.fits {
      FilledListing(c, sink', levels', b', l, row, ClosedAfter(l, closed, closing));
    }
    levels' := levels'[l + 1 := WithRow(levels'[l + 1], row)];
    b' := b'.(total := b'.total[l + 1 := b'.total[l + 1] + [row]]);
  }

  /** There is room above level `l` for one more separator. */
  ghost predicate HasRoom(c: Config, levels: seq<Level>, b: Book, sink': Sink, levels': seq<Level>, b': Book, l: nat,
                          row: Row) {
    && SameBelow(levels, b, levels', b', l + 1) && Kept(b, b', l + 1)
    && Owing(c, sink', levels', b', l, row)
    && PageLen(c.layout, Internal, levels'[l + 1].rows + [row]) <= c.pageSize
  }

  lemma RoomAlready(c: Config, sink: Sink, levels: seq<Level>, b: Book, l: nat, row: Row)
    requires Owing(c, sink, levels, b, l, row) && PageLen(c.layout, Internal, levels[l + 1].rows + [row]) <= c.pageSize
    ensures HasRoom(c, levels, b, sink, levels, b, l, row)
  {
  }

  lemma RoomMade(c: Config, sink: Sink, levels: seq<Level>, b: Book, l: nat, row: Row,
                 sink': Sink, levels': seq<Level>, b': Book, o: nat)
    requires ConfigOk(c) && Owing(c, sink, levels, b, l, row) && Rotated(c, levels, b, sink', levels', b', l + 1, o)
    ensures HasRoom(c, levels, b, sink', levels', b', l, row)
  {
    StillOwing(c, sink, levels, b, l, row, sink', levels', b', o);
    SeparatorsStayOk(c, sink, levels, b, l, row);
    assert [] + [row] == [row] && row == Row(row.key, Child(row.payload.page));
    OneSeparatorFits(c, row.key, row.payload.page);
  }

  /** A page above that is too full for one more separator may be written. */
  lemma FullPageAbove(c: Config, sink: Sink, levels: seq<Level>, b: Book, l: nat, row: Row, closed: nat)
    requires ConfigOk(c) && Owing(c, sink, levels, b, l, row) && closed <= l + 1
    requires c.fits ==> WellFilled(levels, b, closed)
    requires PageLen(c.layout, Internal, levels[l + 1].rows + [row]) > c.pageSize
    ensures levels[l + 1].rows != [] && MayFill(c, levels, b, l + 1, closed, false)
  {
    SeparatorsStayOk(c, sink, levels, b, l, row);
    assert row == Row(row.key, Child(row.payload.page)) && [] + [row] == [row];
    OneSeparatorFits(c, row.key, row.payload.page);
    if c.fits {
      FullMeansTwo(c, levels[l + 1].rows, row);
      assert |b.done[l]| == |b.total[l + 1]| + 1;
    }
  }

  /** Makes room for one more separator above level `l`. A page is filled as long as the separator fits. */
  method MakeRoom(c: Config, sink: Sink, levels: seq<Level>, l: nat, row: Row, ghost b: Book, ghost closed: nat)
    returns (r: Result<()>, sink': Sink, levels': seq<Level>, ghost b': Book)
    requires ConfigOk(c) && Owing(c, sink, levels, b, l, row) && closed <= l + 1
    requires c.fits ==> WellFilled(levels, b, closed)
    ensures r.Ok? ==> HasRoom(c, levels, b, sink', levels', b', l, row)
    ensures r.Ok? && c.fits ==> WellFilled(levels', b', closed)
    ensures r.Err? && c.fits ==> r.kind == TooLarge && |sink'| >= PAGE_LIMIT
    ensures PageLen(c.layout, Internal, levels[l + 1].rows + [row]) <= c.pageSize ==>
              r.Ok? && sink' == sink && levels' == levels
    decreases MAX_LEVELS - l, 0, 1
  {
    if PageLen(c.layout, Internal, levels[l + 1].rows + [row]) <= c.pageSize {
      RoomAlready(c, sink, levels, b, l, row);
      return Ok(()), sink, levels, b;
    }
    r, sink', levels', b' := RotateAbove(c, sink, levels, l, row, b, closed);
  }

  method RotateAbove(c: Config, sink: Sink, levels: seq<Level>, l: nat, row: Row, ghost b: Book, ghost closed: nat)
    returns (r: Result<()>, sink': Sink, levels': seq<Level>, ghost b': Book)
    requires ConfigOk(c) && Owing(c, sink, levels, b, l, row) && closed <= l + 1
    requires c.fits ==> WellFilled(levels, b, closed)
    requires PageLen(c.layout, Internal, levels[l + 1].rows + [row]) > c.pageSize
    ensures r.Ok? ==> HasRoom(c, levels, b, sink', levels', b', l, row)
    ensures r.Ok? && c.fits ==> WellFilled(levels', b', closed)
    ensures r.Err? && c.fits ==> r.kind == TooLarge && |sink'| >= PAGE_LIMIT
    decreases MAX_LEVELS - l, 0, 0
  {
    FullPageAbove(c, sink, levels, b, l, row, closed);
    r, sink', levels', b' := Rotate(c, sink, levels, l + 1, b, closed, false);
    if r.Ok? {
      RoomMade(c, sink, levels, b, l, row, sink', levels', b', |sink|);
    }
  }

  lemma FilledListing(c: Config, sink: Sink, levels: seq<Level>, b: Book, l: nat, row: Row, closed: nat)
    requires Owing(c, sink, levels, b, l, row) && WellFilled(levels, b, closed) && closed <= l + 1
    ensures WellFilled(levels[l + 1 := WithRow(levels[l + 1], row)],
                       b.(total := b.total[l + 1 := b.total[l + 1] + [row]]), closed)
  {
    assert |b.done[l]| == |b.total[l + 1]| + 1;
    FilledRow(levels, b, l + 1, row, closed);
  }

  lemma ListOwed(c: Config, levels: seq<Level>, b: Book, sink1: Sink, levels1: seq<Level>, b1: Book,
                 sink2: Sink, levels2: seq<Level>, b2: Book, l: nat, o: nat, row: Row)
    requires ConfigOk(c) && Began(c, levels, b, sink1, levels1, b1, l, o, row)
    requires HasRoom(c, levels1, b1, sink2, levels2, b2, l, row)
    ensures Rotated(c, levels, b, sink2, levels2[l + 1 := WithRow(levels2[l + 1], row)],
                    b2.(total := b2.total[l + 1 := b2.total[l + 1] + [row]]), l, o)
  {
    PaidHolds(c, sink2, levels2, b2, l, row);
    KeptTrans(b, b1, b2, l);
    SameBelowTrans(levels, b, levels1, b1, levels2, b2, l);
    SameBelowRow(levels, b, levels2, b2, l, l + 1, WithRow(levels2[l + 1], row), b2.total[l + 1] + [row]);
    StoredTotal(sink2, b2, b2.total[l + 1 := b2.total[l + 1] + [row]]);
  }

  lemma StoredTotal(sink: Sink, b: Book, total: seq<seq<Row>>)
    requires Stored(sink, b)
    ensures Stored(sink, b.(total := total))
  {
  }

  // ---------------------------------------------------------------- the whole tree

  lemma HoldsFrom(c: Config, levels: seq<Level>, b: Book, l: nat)
    requires Holds(c, levels, b, 0)
    ensures Holds(c, levels, b, l)
  {
  }

  /** Rotating a level leaves the levels below it in order too. */
  lemma HoldsBelow(c: Config, levels: seq<Level>, b: Book, sink': Sink, levels': seq<Level>, b': Book, l: nat, o: nat)
    requires Holds(c, levels, b, 0) && Rotated(c, levels, b, sink', levels', b', l, o)
    ensures Holds(c, levels', b', 0)
  {
    forall m | 0 <= m < l
      ensures LevelHolds(c, b', m, levels'[m]) && Linked(c, b', m) && b'.done[m] != []
    {
      BelowKept(c, levels, b, levels', b', l, m);
    }
  }

  lemma BelowKept(c: Config, levels: seq<Level>, b: Book, levels': seq<Level>, b': Book, l: nat, m: nat)
    requires Holds(c, levels, b, 0) && SameBelow(levels, b, levels', b', l) && Kept(b, b', l)
    requires m < l < |levels'| == |b'.done| == |b'.total| && b'.total[l] == b.total[l]
    ensures LevelHolds(c, b', m, levels'[m]) && Linked(c, b', m) && b'.done[m] != []
  {
    assert LevelHolds(c, b, m, levels[m]) && Linked(c, b, m) && b.done[m] != [];
    LevelKept(c, b, b', m, levels[m]);
  }

  /** A level is closed once nothing is pending on it. */
  lemma FilledClose(levels: seq<Level>, b: Book, l: nat)
    requires l < |levels| && WellFilled(levels, b, l) && levels[l].rows == []
    ensures WellFilled(levels, b, l + 1)
  {
  }

  /** Everything below the top has been written. */
  ghost predicate Drained(levels: seq<Level>, n: nat) {
    n < |levels| && forall m :: 0 <= m < n ==> levels[m].rows == []
  }

  ghost function FinalShape(b: Book, root: nat): Shape
    requires |b.done| > 0
  {
    Shape(false, b.done[|b.done| - 1 := [root]])
  }

  ghost function FinalTree(c: Config, pages: seq<Page>, root: nat, maxDepth: nat): Tree {
    Tree(FileOf(pages), Some(root), c.enc, maxDepth, true)
  }

  /** The state just before the root is written, with the root page at hand. */
  ghost predicate Ending(c: Config, levels: seq<Level>, b: Book, p: Page) {
    && ConfigOk(c) && Holds(c, levels, b, 0) && Drained(levels, |levels| - 1)
    && IsPageOf(c, KindOf(|levels| - 1), levels[|levels| - 1].rows, None, None, p)
  }

  lemma NoPages(t: Tree)
    ensures Rows(t, []) == []
  {
    assert Parts(t, []) == [];
  }

  lemma OnePage(t: Tree, o: nat)
    ensures Rows(t, [o]) == PageRows(t.enc, At(t, o))
  {
    NoPages(t);
    RowsNext(t, [], o);
    assert [] + [o] == [o];
  }

  lemma RootPage(c: Config, levels: seq<Level>, b: Book, p: Page)
    requires Ending(c, levels, b, p)
    ensures b.total[|levels| - 1] == levels[|levels| - 1].rows
    ensures PageRows(c.enc, p) == levels[|levels| - 1].rows && PageOk(c.enc, p) && !Inexact(c.enc, p)
    ensures |levels| > 1 ==> |p.keys| > 0
  {
    var top := |levels| - 1;
    assert LevelHolds(c, b, top, levels[top]);
    NoPages(Over(c, b.pages));
    assert [] + levels[top].rows == levels[top].rows;
    KeysReadBack(c, KindOf(top), levels[top].rows, None, None, p);
    BuiltIsChecked(c, KindOf(top), levels[top].rows, None, None, p);
    if top > 0 {
      assert Linked(c, b, top - 1);
    }
  }

  /** Pages written before the root are unchanged by it. */
  lemma EarlierPages(c: Config, levels: seq<Level>, b: Book, p: Page, maxDepth: nat, l: nat)
    requires Ending(c, levels, b, p) && l < |levels|
    ensures var t := FinalTree(c, b.pages + [p], |b.pages|, maxDepth);
            && (forall i :: 0 <= i < |b.done[l]| ==>
                 b.done[l][i] < |b.pages| && At(t, b.done[l][i]) == At(Over(c, b.pages), b.done[l][i]))
            && Rows(t, b.done[l]) == Rows(Over(c, b.pages), b.done[l])
            && Listing(t, b.done[l]) == Listing(Over(c, b.pages), b.done[l])
  {
    var t, t0 := FinalTree(c, b.pages + [p], |b.pages|, maxDepth), Over(c, b.pages);
    assert LevelHolds(c, b, l, levels[l]);
    forall i | 0 <= i < |b.done[l]|
      ensures b.done[l][i] < |b.pages| && At(t, b.done[l][i]) == At(t0, b.done[l][i])
    {
      assert BuiltAt(c, t0, KindOf(l), b.done[l], i);
    }
    RowsSame(t0, t, b.done[l]);
  }

  lemma DrainedRows(c: Config, levels: seq<Level>, b: Book, l: nat)
    requires Holds(c, levels, b, 0) && l < |levels| && levels[l].rows == []
    ensures b.total[l] == Rows(Over(c, b.pages), b.done[l])
  {
    assert LevelHolds(c, b, l, levels[l]);
  }

  lemma RootRows(c: Config, levels: seq<Level>, b: Book, p: Page, maxDepth: nat)
    requires Ending(c, levels, b, p)
    ensures Rows(FinalTree(c, b.pages + [p], |b.pages|, maxDepth), [|b.pages|]) == b.total[|levels| - 1]
  {
    var t, root := FinalTree(c, b.pages + [p], |b.pages|, maxDepth), |b.pages|;
    RootPage(c, levels, b, p);
    OnePage(t, root);
    assert At(t, root) == p;
  }

  lemma LowerRows(c: Config, levels: seq<Level>, b: Book, p: Page, maxDepth: nat, l: nat)
    requires Ending(c, levels, b, p) && l < |levels| - 1
    ensures Rows(FinalTree(c, b.pages + [p], |b.pages|, maxDepth), b.done[l]) == b.total[l]
  {
    EarlierPages(c, levels, b, p, maxDepth, l);
    DrainedRows(c, levels, b, l);
  }

  /** All the rows of a level are on its pages. */
  lemma FinalRows(c: Config, levels: seq<Level>, b: Book, p: Page, maxDepth: nat, l: nat)
    requires Ending(c, levels, b, p) && l < |levels|
    ensures Rows(FinalTree(c, b.pages + [p], |b.pages|, maxDepth), FinalShape(b, |b.pages|).levels[l]) == b.total[l]
  {
    if l == |levels| - 1 {
      assert FinalShape(b, |b.pages|).levels[l] == [|b.pages|];
      RootRows(c, levels, b, p, maxDepth);
    } else {
      assert FinalShape(b, |b.pages|).levels[l] == b.done[l];
      LowerRows(c, levels, b, p, maxDepth, l);
    }
  }

  lemma FinalNode(c: Config, levels: seq<Level>, b: Book, p: Page, maxDepth: nat, l: nat, i: nat)
    requires Ending(c, levels, b, p) && l < |levels| && i < |FinalShape(b, |b.pages|).levels[l]|
    ensures NodeOk(FinalTree(c, b.pages + [p], |b.pages|, maxDepth), FinalShape(b, |b.pages|), l, i)
  {
    if l == |levels| - 1 {
      FinalRootNode(c, levels, b, p, maxDepth);
    } else {
      FinalLowerNode(c, levels, b, p, maxDepth, l, i);
    }
  }

  lemma FinalRootNode(c: Config, levels: seq<Level>, b: Book, p: Page, maxDepth: nat)
    requires Ending(c, levels, b, p)
    ensures NodeOk(FinalTree(c, b.pages + [p], |b.pages|, maxDepth), FinalShape(b, |b.pages|), |levels| - 1, 0)
  {
    RootPage(c, levels, b, p);
  }

  lemma FinalLowerNode(c: Config, levels: seq<Level>, b: Book, p: Page, maxDepth: nat, l: nat, i: nat)
    requires Ending(c, levels, b, p) && l < |levels| - 1 && i < |FinalShape(b, |b.pages|).levels[l]|
    ensures NodeOk(FinalTree(c, b.pages + [p], |b.pages|, maxDepth), FinalShape(b, |b.pages|), l, i)
  {
    assert LevelHolds(c, b, l, levels[l]);
    assert BuiltAt(c, Over(c, b.pages), KindOf(l), b.done[l], i);
    EarlierPages(c, levels, b, p, maxDepth, l);
  }

  lemma FinalParent(c: Config, levels: seq<Level>, b: Book, p: Page, maxDepth: nat, l: nat)
    requires Ending(c, levels, b, p) && l + 1 < |levels|
    ensures ParentOk(FinalTree(c, b.pages + [p], |b.pages|, maxDepth), FinalShape(b, |b.pages|), l)
  {
    FinalRows(c, levels, b, p, maxDepth, l + 1);
    EarlierPages(c, levels, b, p, maxDepth, l);
    assert Linked(c, b, l);
  }

  /** The tree that is written is well formed and holds exactly the rows that were pushed. */
  lemma FinalWellFormed(c: Config, levels: seq<Level>, b: Book, p: Page, maxDepth: nat)
    requires Ending(c, levels, b, p) && |levels| <= maxDepth
    ensures var t, s := FinalTree(c, b.pages + [p], |b.pages|, maxDepth), FinalShape(b, |b.pages|);
            WellFormed(t, s) && Flat(t, s) == b.total[0]
  {
    var t, s := FinalTree(c, b.pages + [p], |b.pages|, maxDepth), FinalShape(b, |b.pages|);
    forall l | 0 <= l < |s.levels|
      ensures LevelOk(t, s, l)
    {
      forall i | 0 <= i < |s.levels[l]|
        ensures NodeOk(t, s, l, i)
      {
        FinalNode(c, levels, b, p, maxDepth, l, i);
      }
    }
    forall l | 0 <= l < |s.levels| - 1
      ensures ParentOk(t, s, l)
    {
      FinalParent(c, levels, b, p, maxDepth, l);
    }
    FinalRows(c, levels, b, p, maxDepth, 0);
    assert LevelHolds(c, b, 0, levels[0]);
  }

  // ---------------------------------------------------------------- the bytes

  /** The bytes a page is written as are read as that page. */
  ghost predicate ReadsBack(p: Page) {
    Decode(Encode(p)) == Ok(p)
  }

  lemma LowerPageReadsBack(c: Config, levels: seq<Level>, b: Book, l: nat, i: nat)
    requires ConfigOk(c) && Holds(c, levels, b, 0) && |b.pages| <= PAGE_LIMIT && l < |levels| && i < |b.done[l]|
    ensures ReadsBack(At(Over(c, b.pages), b.done[l][i]))
  {
    var t, level := Over(c, b.pages), b.done[l];
    assert LevelHolds(c, b, l, levels[l]);
    assert BuiltAt(c, t, KindOf(l), level, i);
    var p := At(t, level[i]);
    var rows := PageRows(c.enc, p);
    forall j | 0 <= j < |rows|
      ensures RowOk(c, KindOf(l), rows[j])
    {
      RowOfPage(t, level, i, j);
      assert rows[j] == b.total[l][Off(t, level, i) + j];
    }
    forall j | 0 <= j < |level|
      ensures level[j] < I64_LIMIT
    {
      assert BuiltAt(c, t, KindOf(l), level, j);
    }
    CarriedIsEncodable(c, KindOf(l), rows, p);
    RoundTrip(p);
  }

  lemma RootReadsBack(c: Config, levels: seq<Level>, b: Book, p: Page)
    requires Ending(c, levels, b, p)
    ensures ReadsBack(p)
  {
    var top := |levels| - 1;
    RootPage(c, levels, b, p);
    assert LevelHolds(c, b, top, levels[top]);
    CarriedIsEncodable(c, KindOf(top), levels[top].rows, p);
    RoundTrip(p);
  }

  /** Every page of the tree comes back from its bytes. */
  lemma FinalReadsBack(c: Config, levels: seq<Level>, b: Book, p: Page, maxDepth: nat, l: nat, i: nat)
    requires Ending(c, levels, b, p) && |b.pages| <= PAGE_LIMIT
    requires l < |levels| && i < |FinalShape(b, |b.pages|).levels[l]|
    ensures ReadsBack(At(FinalTree(c, b.pages + [p], |b.pages|, maxDepth), FinalShape(b, |b.pages|).levels[l][i]))
  {
    if l == |levels| - 1 {
      RootReadsBack(c, levels, b, p);
    } else {
      EarlierPages(c, levels, b, p, maxDepth, l);
      LowerPageReadsBack(c, levels, b, l, i);
    }
  }
}
