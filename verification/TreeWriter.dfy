/** The writer as the builder uses it: rows in key order go in, a root page comes out. */
module TreeBuilding {
  import opened Base
  import opened Sequences
  import opened Encodings
  import opened Pages
  import opened Codec
  import opened PageBuilding
  import opened TreeWriting
  import opened Trees
  import opened Cursors
  import opened Bytes
  import opened PageWriting
  import opened References

  /** What a leaf row stands for. */
  ghost predicate RowMeans(b: Book, row: Row, e: Entry) {
    && row.key == e.key
    && match row.payload
       case Inline(value) => value == e.value
       case Overflow(o) => o < |b.pages| && o < |b.owner| && b.owner[o] == -1 && b.pages[o] == BlobPage(e.value)
       case Child(_) => false
  }

  ghost predicate Meant(b: Book, pushed: seq<Entry>) {
    && |b.total| > 0 && |b.total[0]| == |pushed|
    && forall i :: 0 <= i < |pushed| ==> RowMeans(b, b.total[0][i], pushed[i])
  }

  /** Values a page length has room for, if not for the prefix of the page as well. */
  ghost predicate Short(pushed: seq<Entry>) {
    forall i :: 0 <= i < |pushed| ==> |pushed[i].value| < I32_LIMIT
  }

  lemma MeantKept(b: Book, b': Book, pushed: seq<Entry>)
    requires Meant(b, pushed) && |b'.total| > 0 && b'.total[0] == b.total[0] && Kept(b, b', 0)
    ensures Meant(b', pushed)
  {
    forall i | 0 <= i < |pushed|
      ensures RowMeans(b', b'.total[0][i], pushed[i])
    {
      assert RowMeans(b, b.total[0][i], pushed[i]);
    }
  }

  // ---------------------------------------------------------------- a value on its own page

  ghost function WithBlob(b: Book, p: Page): Book {
    b.(pages := b.pages + [p], owner := b.owner + [-1])
  }

  lemma BlobHolds(c: Config, levels: seq<Level>, b: Book, p: Page)
    requires Holds(c, levels, b, 0)
    ensures Holds(c, levels, WithBlob(b, p), 0) && Kept(b, WithBlob(b, p), 0)
  {
    var b' := WithBlob(b, p);
    forall m | 0 <= m < |levels|
      ensures LevelHolds(c, b', m, levels[m])
      ensures Listing(Over(c, b'.pages), b.done[m]) == Listing(Over(c, b.pages), b.done[m])
    {
      LevelKept(c, b, b', m, levels[m]);
    }
    forall m | 0 <= m < |levels| - 1
      ensures Linked(c, b', m)
    {
      assert Linked(c, b, m);
    }
  }

  // ---------------------------------------------------------------- a row in order

  lemma NextRowOk(c: Config, rows: seq<Row>, row: Row)
    requires ConfigOk(c) && RowsOk(c, Leaf, rows) && RowOk(c, Leaf, row)
    requires rows != [] ==> c.enc.compare(rows[|rows| - 1].key, row.key) == Less
    ensures RowsOk(c, Leaf, rows + [row])
  {
    var all := rows + [row];
    forall i | 0 <= i < |all|
      ensures RowOk(c, Leaf, all[i])
    {
    }
    forall i, j | 0 <= i < j < |all|
      ensures c.enc.compare(all[i].key, all[j].key) == Less
    {
      if j == |rows| && i < |rows| - 1 {
        var last := rows[|rows| - 1];
        assert RowOk(c, Leaf, rows[i]) && RowOk(c, Leaf, last);
        assert c.enc.compare(rows[i].key, last.key) == Less;
      }
    }
  }

  lemma PageLenNext(layout: Layout, kind: NodeKind, rows: seq<Row>, row: Row)
    ensures PageLen(layout, kind, rows + [row]) ==
              PayloadBase(layout, kind, |rows| + 1) + PayloadLen(layout, rows) + EntryLen(layout, row)
  {
    assert (rows + [row])[..|rows|] == rows;
  }

  /** What the leaf would take with one more entry of `len` value bytes. */
  function Needs(c: Config, rows: seq<Row>, key: Key, len: nat): nat {
    PayloadBase(c.layout, Leaf, |rows| + 1) + PayloadLen(c.layout, rows) + |StoredKey(c.layout, key)| + len
  }

  lemma NeedsIsPageLen(c: Config, rows: seq<Row>, key: Key, payload: Payload)
    ensures PageLen(c.layout, Leaf, rows + [Row(key, payload)]) == Needs(c, rows, key, |PayloadBytes(payload)|)
  {
    PageLenNext(c.layout, Leaf, rows, Row(key, payload));
  }

  lemma MeantNext(b: Book, pushed: seq<Entry>, row: Row, e: Entry)
    requires Meant(b, pushed) && RowMeans(b, row, e)
    ensures Meant(b.(total := b.total[0 := b.total[0] + [row]]), pushed + [e])
  {
    var b' := b.(total := b.total[0 := b.total[0] + [row]]);
    forall i | 0 <= i < |pushed| + 1
      ensures RowMeans(b', b'.total[0][i], (pushed + [e])[i])
    {
      if i < |pushed| {
        assert RowMeans(b, b.total[0][i], pushed[i]);
      }
    }
  }

  lemma FilledLeaf(levels: seq<Level>, b: Book, row: Row)
    requires WellFilled(levels, b, 0) && |levels| > 0
    ensures WellFilled(levels[0 := WithRow(levels[0], row)], b.(total := b.total[0 := b.total[0] + [row]]), 0)
  {
    var levels', b' := levels[0 := WithRow(levels[0], row)], b.(total := b.total[0 := b.total[0] + [row]]);
    forall m, n | 0 <= m && n == m + 1 && n < |levels'|
      ensures |b'.done[m]| >= |b'.total[n]|
    {
      assert |b.done[m]| >= |b.total[n]|;
    }
  }

  // ---------------------------------------------------------------- where the values went

  /** The reference is to the value, and the format has room for it. */
  ghost predicate RefOk(pages: seq<Page>, ref: PageRef, value: seq<Byte>) {
    ref.page < |pages| && RefFits(ref) && Locates(pages[ref.page], ref, value)
  }

  /** References handed out for the rows that are written, and what is kept to hand out for the rest. */
  ghost predicate Handed(pages: seq<Page>, rows: seq<Row>, kept: seq<Option<PageRef>>, refs: seq<PageRef>,
                         pushed: seq<Entry>) {
    && |kept| == |rows| && |refs| + |rows| == |pushed|
    && (forall i :: 0 <= i < |refs| ==> RefOk(pages, refs[i], pushed[i].value))
    && (forall i :: 0 <= i < |rows| ==> Keeps(pages, rows[i], kept[i], pushed[|refs| + i].value))
  }

  /** What is kept for a row until its leaf is written. */
  ghost predicate Keeps(pages: seq<Page>, row: Row, kept: Option<PageRef>, value: seq<Byte>) {
    match kept
    case None => row.payload == Inline(value)
    case Some(ref) => !row.payload.Inline? && RefOk(pages, ref, value)
  }

  lemma RefKept(b: Book, b': Book, ref: PageRef, value: seq<Byte>)
    requires Kept(b, b', 0) && RefOk(b.pages, ref, value)
    ensures RefOk(b'.pages, ref, value)
  {
    assert SameButRight(b.pages[ref.page], b'.pages[ref.page]);
    LocatesStill(b.pages[ref.page], b'.pages[ref.page], ref, value);
  }

  lemma HandedKept(b: Book, b': Book, rows: seq<Row>, kept: seq<Option<PageRef>>, refs: seq<PageRef>,
                   pushed: seq<Entry>)
    requires Kept(b, b', 0) && Handed(b.pages, rows, kept, refs, pushed)
    ensures Handed(b'.pages, rows, kept, refs, pushed)
  {
    forall i | 0 <= i < |refs|
      ensures RefOk(b'.pages, refs[i], pushed[i].value)
    {
      RefKept(b, b', refs[i], pushed[i].value);
    }
    forall i | 0 <= i < |rows|
      ensures Keeps(b'.pages, rows[i], kept[i], pushed[|refs| + i].value)
    {
      assert Keeps(b.pages, rows[i], kept[i], pushed[|refs| + i].value);
      if kept[i].Some? {
        RefKept(b, b', kept[i].value, pushed[|refs| + i].value);
      }
    }
  }

  lemma HandedNext(pages: seq<Page>, rows: seq<Row>, kept: seq<Option<PageRef>>, refs: seq<PageRef>, pushed: seq<Entry>,
                   row: Row, ref: Option<PageRef>, e: Entry)
    requires Handed(pages, rows, kept, refs, pushed) && Keeps(pages, row, ref, e.value)
    ensures Handed(pages, rows + [row], kept + [ref], refs, pushed + [e])
  {
  }

  /** Hands out the references to the rows of a leaf that has been written as page `o`. */
  method HandOut(c: Config, rows: seq<Row>, kept: seq<Option<PageRef>>, refs: seq<PageRef>, o: nat,
                 ghost pages: seq<Page>, ghost pushed: seq<Entry>)
    returns (refs': seq<PageRef>)
    requires Handed(pages, rows, kept, refs, pushed) && CarriedAt(c, Leaf, rows, pages, o) && o < I64_LIMIT
    requires PageLen(c.layout, Leaf, rows) <= c.pageSize < I32_LIMIT
    ensures Handed(pages, [], [], refs', pushed)
  {
    forall i | 0 <= i < |rows|
      ensures kept[i].Some? <==> !rows[i].payload.Inline?
    {
      assert Keeps(pages, rows[i], kept[i], pushed[|refs| + i].value);
    }
    var base := PayloadBase(c.layout, Leaf, |rows|);
    var out := LeafRefs(c.layout, rows, kept, o, base, EntryParts(pages[o]));
    forall i | 0 <= i < |rows|
      ensures RefOk(pages, out[i], pushed[|refs| + i].value)
    {
      OutIsOk(c, rows, kept, o, pages, i, out[i], pushed[|refs| + i].value);
    }
    refs' := refs + out;
  }

  lemma OutIsOk(c: Config, rows: seq<Row>, kept: seq<Option<PageRef>>, o: nat, pages: seq<Page>, i: nat,
                ref: PageRef, value: seq<Byte>)
    requires CarriedAt(c, Leaf, rows, pages, o) && i < |rows| == |kept| && Keeps(pages, rows[i], kept[i], value)
             && o < I64_LIMIT
    requires PageLen(c.layout, Leaf, rows) <= c.pageSize < I32_LIMIT
    requires IsRef(c.layout, rows[i], kept[i], o, PayloadBase(c.layout, Leaf, |rows|), EntryParts(pages[o]), i, ref)
    ensures RefOk(pages, ref, value)
  {
    if kept[i].None? {
      LeafRefLocates(c, rows, pages[o], i, ref);
      LocatedBytes(pages[o], ref, value);
      BuiltSize(c, Leaf, rows, pages[o]);
    }
  }

  // ---------------------------------------------------------------- what comes out

  /** A tree that holds exactly these rows, in this order. */
  ghost predicate Contains(t: Tree, s: Shape, rows: seq<Entry>)
    requires |s.levels| > 0
  {
    && |Flat(t, s)| == |rows|
    && forall i :: 0 <= i < |rows| ==>
         Flat(t, s)[i].key == rows[i].key && ValueOf(t, Flat(t, s)[i].payload) == rows[i].value
  }

  /** The file as a reader finds it: what decodes is a page, what does not is none. */
  function ReadFile(sink: Sink): (file: seq<Option<Page>>)
    ensures |file| == |sink|
    ensures forall o {:trigger file[o]} :: 0 <= o < |file| ==> file[o] == ReadBack(sink[o])
  {
    seq(|sink|, o requires 0 <= o < |sink| => ReadBack(sink[o]))
  }

  function ReadBack(b: seq<Byte>): Option<Page> {
    if Decode(b).Ok? then Some(Decode(b).value) else None
  }

  /** The tree a reader finds in the bytes. */
  function ReadTree(c: Config, sink: Sink, root: nat, maxDepth: nat): Tree {
    Tree(ReadFile(sink), Some(root), c.enc, maxDepth, true)
  }

  lemma PageReadBack(sink: Sink, pages: seq<Page>, o: nat)
    requires Written(sink, pages) && o < |pages| && ReadsBack(pages[o])
    ensures ReadFile(sink)[o] == Some(pages[o])
  {
    assert sink[o] == Encode(pages[o]);
  }

  /** Trees with the same pages on every level are the same tree. */
  ghost predicate SamePages(t: Tree, t': Tree, s: Shape) {
    && t'.enc == t.enc && t'.root == t.root && t'.maxDepth == t.maxDepth
    && forall l, i :: 0 <= l < |s.levels| && 0 <= i < |s.levels[l]| ==>
         var o := s.levels[l][i]; o < |t'.file| && t'.file[o].Some? && At(t', o) == At(t, o)
  }

  lemma SameLevel(t: Tree, t': Tree, s: Shape, l: nat)
    requires WellFormed(t, s) && SamePages(t, t', s) && l < |s.levels|
    ensures LevelOk(t', s, l) && Rows(t', s.levels[l]) == Rows(t, s.levels[l])
    ensures forall i :: 0 <= i < |s.levels[l]| ==> FirstKey(t', s.levels[l][i]) == FirstKey(t, s.levels[l][i])
  {
    assert LevelOk(t, s, l);
    forall i | 0 <= i < |s.levels[l]|
      ensures NodeOk(t', s, l, i) && At(t', s.levels[l][i]) == At(t, s.levels[l][i])
    {
      assert NodeOk(t, s, l, i);
    }
    RowsSame(t, t', s.levels[l]);
  }

  lemma SameTree(t: Tree, t': Tree, s: Shape)
    requires WellFormed(t, s) && SamePages(t, t', s)
    ensures WellFormed(t', s) && Flat(t', s) == Flat(t, s)
  {
    forall l | 0 <= l < |s.levels|
      ensures LevelOk(t', s, l)
    {
      SameLevel(t, t', s, l);
    }
    forall l | 0 <= l < |s.levels| - 1
      ensures ParentOk(t', s, l)
    {
      assert ParentOk(t, s, l);
      SameLevel(t, t', s, l);
      SameLevel(t, t', s, l + 1);
    }
    SameLevel(t, t', s, 0);
  }

  /** The row can be read: a value on a page of its own leaves room for the prefix of the page in the 31
      bits of its length. */
  predicate Legible(e: Entry) {
    |e.value| + PREFIX < I32_LIMIT
  }

  /** What a reader finds under one row. */
  lemma RowRead(c: Config, levels: seq<Level>, b: Book, p: Page, sink: Sink, maxDepth: nat, pushed: seq<Entry>, i: nat)
    requires Ending(c, levels, b, p) && Meant(b, pushed) && Short(pushed) && i < |pushed| && |b.owner| == |b.pages|
    requires Written(sink, b.pages + [p])
    ensures var t, payload := ReadTree(c, sink, |b.pages|, maxDepth), b.total[0][i].payload;
            && b.total[0][i].key == pushed[i].key && !payload.Child?
            && (payload.Inline? ==> Legible(pushed[i]) && ValueOf(t, payload) == pushed[i].value)
            && (payload.Overflow? ==>
                  && (IsBlob(t, payload.blob) <==> Legible(pushed[i]))
                  && (Legible(pushed[i]) ==> ValueOf(t, payload) == pushed[i].value))
  {
    assert RowMeans(b, b.total[0][i], pushed[i]);
    assert LevelHolds(c, b, 0, levels[0]);
    assert RowOk(c, Leaf, b.total[0][i]);
    var payload := b.total[0][i].payload;
    if payload.Overflow? {
      BlobRead(sink, b.pages + [p], payload.blob, pushed[i].value);
    }
  }

  lemma BlobRead(sink: Sink, pages: seq<Page>, o: nat, value: seq<Byte>)
    requires Written(sink, pages) && o < |pages| && pages[o] == BlobPage(value) && |value| < I32_LIMIT
    ensures |value| + PREFIX < I32_LIMIT ==> ReadFile(sink)[o] == Some(BlobPage(value))
    ensures |value| + PREFIX >= I32_LIMIT ==> ReadFile(sink)[o] == None
  {
    BlobReadsBack(value);
    assert sink[o] == Encode(pages[o]);
  }

  /** What a reader finds in the bytes: the tree, whole, and every row of it exactly if every row is legible. */
  lemma FinalRead(c: Config, levels: seq<Level>, b: Book, p: Page, sink: Sink, maxDepth: nat, pushed: seq<Entry>)
    requires Ending(c, levels, b, p) && |levels| <= maxDepth && Meant(b, pushed) && Short(pushed)
    requires |b.owner| == |b.pages| <= PAGE_LIMIT && Written(sink, b.pages + [p])
    ensures var t, s := ReadTree(c, sink, |b.pages|, maxDepth), FinalShape(b, |b.pages|);
            && WellFormed(t, s)
            && (BlobsOk(t, s) && Contains(t, s, pushed) <==> forall i :: 0 <= i < |pushed| ==> Legible(pushed[i]))
  {
    var t, s := ReadTree(c, sink, |b.pages|, maxDepth), FinalShape(b, |b.pages|);
    FinalIsRead(c, levels, b, p, sink, maxDepth);
    forall i | 0 <= i < |pushed|
      ensures Flat(t, s)[i].key == pushed[i].key
      ensures Legible(pushed[i]) ==>
                && ValueOf(t, Flat(t, s)[i].payload) == pushed[i].value
                && (Flat(t, s)[i].payload.Overflow? ==> IsBlob(t, Flat(t, s)[i].payload.blob))
      ensures !Legible(pushed[i]) ==>
                Flat(t, s)[i].payload.Overflow? && !IsBlob(t, Flat(t, s)[i].payload.blob)
    {
      RowRead(c, levels, b, p, sink, maxDepth, pushed, i);
    }
  }

  lemma FinalIsRead(c: Config, levels: seq<Level>, b: Book, p: Page, sink: Sink, maxDepth: nat)
    requires Ending(c, levels, b, p) && |levels| <= maxDepth && |b.owner| == |b.pages| <= PAGE_LIMIT
    requires Written(sink, b.pages + [p])
    ensures var t, s := ReadTree(c, sink, |b.pages|, maxDepth), FinalShape(b, |b.pages|);
            WellFormed(t, s) && Flat(t, s) == b.total[0]
  {
    var pages := b.pages + [p];
    var t, t', s := FinalTree(c, pages, |b.pages|, maxDepth), ReadTree(c, sink, |b.pages|, maxDepth),
      FinalShape(b, |b.pages|);
    FinalWellFormed(c, levels, b, p, maxDepth);
    forall l, i | 0 <= l < |s.levels| && 0 <= i < |s.levels[l]|
      ensures var o := s.levels[l][i]; o < |t'.file| && t'.file[o].Some? && At(t', o) == At(t, o)
    {
      FinalReadsBack(c, levels, b, p, maxDepth, l, i);
      Node(t, s, l, i);
      PageReadBack(sink, pages, s.levels[l][i]);
    }
    SameTree(t, t', s);
  }

  /** A tree under construction: what is in the file, what is pending, what is kept for the leaf entries
      that are not written yet, and the references handed out for the rows that are. */
  datatype Draft = Draft(sink: Sink, levels: seq<Level>, kept: seq<Option<PageRef>>, refs: seq<PageRef>)

  /** The draft stands for these rows. The levels below `closed` are written out. */
  ghost predicate Going(c: Config, d: Draft, b: Book, pushed: seq<Entry>, closed: nat) {
    && ConfigOk(c) && Stored(d.sink, b) && Holds(c, d.levels, b, 0)
    && Meant(b, pushed) && Handed(b.pages, d.levels[0].rows, d.kept, d.refs, pushed)
    && (c.fits ==> WellFilled(d.levels, b, closed))
    && Short(pushed)
  }

  /** Writes a value onto a page of its own. */
  method AppendBlob(sink: Sink, value: seq<Byte>, ghost pages: seq<Page>) returns (sink': Sink)
    requires Written(sink, pages)
    ensures |sink'| == |sink| + 1 && Written(sink', pages + [BlobPage(value)])
  {
    var b := BlobBytes(value);
    WrittenMore(sink, pages, BlobPage(value), b);
    sink' := sink + [b];
  }

  lemma BlobGoing(c: Config, d: Draft, b: Book, pushed: seq<Entry>, value: seq<Byte>, sink': Sink)
    requires Going(c, d, b, pushed, 0) && |d.sink| < PAGE_LIMIT && |value| < I32_LIMIT
    requires |sink'| == |d.sink| + 1 && Written(sink', b.pages + [BlobPage(value)])
    ensures Going(c, d.(sink := sink'), WithBlob(b, BlobPage(value)), pushed, 0)
  {
    var b' := WithBlob(b, BlobPage(value));
    BlobHolds(c, d.levels, b, BlobPage(value));
    ExtendsKept(b, b', 0);
    MeantKept(b, b', pushed);
    HandedKept(b, b', d.levels[0].rows, d.kept, d.refs, pushed);
    if c.fits {
      BlobFilled(d.levels, b, b');
    }
  }

  lemma BlobFilled(levels: seq<Level>, b: Book, b': Book)
    requires WellFilled(levels, b, 0) && Kept(b, b', 0) && b'.done == b.done && b'.total == b.total
    ensures WellFilled(levels, b', 0)
  {
    forall m, i | 0 < m < |levels| && 0 <= i < |b.done[m]|
      ensures Separators(b'.pages, b.done[m][i]) >= 2
    {
      SeparatorsKept(b, b', 0, b.done[m][i]);
    }
  }

  lemma BlobMeans(b: Book, value: seq<Byte>, b': Book)
    requires b' == WithBlob(b, BlobPage(value)) && |b.pages| == |b.owner| < I64_LIMIT && |value| < I32_LIMIT
    ensures forall key :: RowMeans(b', Row(key, Overflow(|b.pages|)), Entry(key, value))
    ensures RefOk(b'.pages, PageRef(|b.pages|, PREFIX, |value|), value)
  {
  }

  lemma RowGoing(c: Config, d: Draft, b: Book, pushed: seq<Entry>, row: Row, ref: Option<PageRef>, e: Entry)
    requires Going(c, d, b, pushed, 0)
    requires RowOk(c, Leaf, row) && RowMeans(b, row, e) && |e.value| < I32_LIMIT && Keeps(b.pages, row, ref, e.value)
    requires pushed != [] ==> c.enc.compare(pushed[|pushed| - 1].key, row.key) == Less
    requires PageLen(c.layout, Leaf, d.levels[0].rows + [row]) <= c.pageSize
    ensures Going(c, d.(levels := d.levels[0 := WithRow(d.levels[0], row)], kept := d.kept + [ref]),
                  b.(total := b.total[0 := b.total[0] + [row]]), pushed + [e], 0)
  {
    RowsGoOn(c, d.levels, b, pushed, row);
    StoredTotal(d.sink, b, b.total[0 := b.total[0] + [row]]);
    MeantNext(b, pushed, row, e);
    HandedRow(b.pages, d.levels, d.kept, d.refs, pushed, row, ref, e);
    if c.fits {
      FilledLeaf(d.levels, b, row);
    }
  }

  lemma HandedRow(pages: seq<Page>, levels: seq<Level>, kept: seq<Option<PageRef>>, refs: seq<PageRef>,
                  pushed: seq<Entry>,
                  row: Row, ref: Option<PageRef>, e: Entry)
    requires |levels| > 0 && Handed(pages, levels[0].rows, kept, refs, pushed) && Keeps(pages, row, ref, e.value)
    requires Short(pushed) && |e.value| < I32_LIMIT
    ensures Handed(pages, levels[0 := WithRow(levels[0], row)][0].rows, kept + [ref], refs, pushed + [e])
    ensures Short(pushed + [e])
  {
    HandedNext(pages, levels[0].rows, kept, refs, pushed, row, ref, e);
  }

  lemma RowsGoOn(c: Config, levels: seq<Level>, b: Book, pushed: seq<Entry>, row: Row)
    requires ConfigOk(c) && Holds(c, levels, b, 0) && Meant(b, pushed) && RowOk(c, Leaf, row)
    requires pushed != [] ==> c.enc.compare(pushed[|pushed| - 1].key, row.key) == Less
    requires PageLen(c.layout, Leaf, levels[0].rows + [row]) <= c.pageSize
    ensures Holds(c, levels[0 := WithRow(levels[0], row)], b.(total := b.total[0 := b.total[0] + [row]]), 0)
  {
    assert LevelHolds(c, b, 0, levels[0]);
    if pushed != [] {
      assert RowMeans(b, b.total[0][|pushed| - 1], pushed[|pushed| - 1]);
    }
    NextRowOk(c, b.total[0], row);
    RowHolds(c, levels, b, 0, row);
  }

  /** The rows on the leaf under construction. */
  function LeafRows(d: Draft): seq<Row> {
    if d.levels == [] then [] else d.levels[0].rows
  }

  /** The leaf with this row on it, value and all, is no longer than a page. */
  ghost predicate FitsInline(c: Config, rows: seq<Row>, key: Key, value: seq<Byte>) {
    PageLen(c.layout, Leaf, rows + [Row(key, Inline(value))]) <= c.pageSize && |value| < 0xFFFF
  }

  /** It is not, but with the number of a page in place of the value it is. */
  ghost predicate FitsByNumber(c: Config, rows: seq<Row>, key: Key, value: seq<Byte>) {
    && !FitsInline(c, rows, key, value)
    && PageLen(c.layout, Leaf, rows + [Row(key, Overflow(0))]) <= c.pageSize
  }

  /** How a row fits on a leaf: with its value, with the number of a page that has it, or not at all. */
  datatype Fit = Whole | ByNumber | NotHere

  ghost function FitOf(c: Config, rows: seq<Row>, key: Key, len: nat): Fit {
    if Needs(c, rows, key, len) <= c.pageSize && len < SENTINEL then Whole
    else if Needs(c, rows, key, 8) <= c.pageSize then ByNumber
    else NotHere
  }

  lemma FitMeans(c: Config, rows: seq<Row>, key: Key, value: seq<Byte>)
    ensures FitOf(c, rows, key, |value|) == Whole <==> FitsInline(c, rows, key, value)
    ensures FitOf(c, rows, key, |value|) == ByNumber <==> FitsByNumber(c, rows, key, value)
  {
    NeedsIsPageLen(c, rows, key, Inline(value));
    NeedsIsPageLen(c, rows, key, Overflow(0));
  }

  /** The row is on the leaf, with its value or with the number of the page that has it. */
  ghost predicate StoredIn(d: Draft, key: Key, value: seq<Byte>, overflow: bool, d': Draft) {
    if overflow then LeafRows(d') == LeafRows(d) + [Row(key, Overflow(|d.sink|))] && |d'.sink| == |d.sink| + 1
    else LeafRows(d') == LeafRows(d) + [Row(key, Inline(value))] && d'.sink == d.sink
  }

  /** More than the lengths on a page have room for. */
  predicate TooLong(key: Key, value: seq<Byte>) {
    |key| > 0xFFFF || |value| > 0x7FFF_FFFF
  }

  class TreeWriter {
    const c: Config
    var draft: Draft
    /** Bytes held for the leaf entries that are not written yet, and how many may be. */
    var pendingExtra: nat
    const extraBudget: nat
    ghost var book: Book
    /** Every row pushed so far. */
    ghost var pushed: seq<Entry>

    /** The pages that were in the file before. */
    ghost const before: seq<Page>

    ghost predicate Valid()
      reads this`draft, this`book, this`pushed
    {
      ValidAt(0)
    }

    /** Valid, with the levels below `closed` written out. */
    ghost predicate ValidAt(closed: nat)
      reads this`draft, this`book, this`pushed
    {
      Going(c, draft, book, pushed, closed) && book.before == before
    }

    constructor (c: Config, sink: Sink, extraBudget: nat, ghost pages: seq<Page>)
      requires ConfigOk(c) && Written(sink, pages) && |sink| <= PAGE_LIMIT
      ensures Valid() && this.c == c && draft.sink == sink && pushed == [] && before == pages
    {
      before := pages;
      this.c := c;
      this.extraBudget := extraBudget;
      draft, pendingExtra := Draft(sink, [Level([], None, None)], [], []), 0;
      book := Book(pages, seq(|pages|, _ => -1), [[]], [[]], pages);
      pushed := [];
      EmptyLevelFits(c, Leaf);
      NoPages(Over(c, pages));
    }

    method Install(d: Draft, ghost b: Book, ghost closed: nat)
      requires Going(c, d, b, pushed, closed) && b.before == before
      modifies this`draft, this`book
      ensures ValidAt(closed) && draft == d && book == b
    {
      draft, book := d, b;
    }

    /** The same after a leaf was written: nothing is held for its entries any more. */
    method InstallLeaf(d: Draft, ghost b: Book)
      requires Going(c, d, b, pushed, 0) && b.before == before
      modifies this`draft, this`pendingExtra, this`book
      ensures Valid() && draft == d && book == b && pendingExtra == 0
    {
      draft, pendingExtra, book := d, 0, b;
    }

    /** Writes the leaf under construction. */
    method RotateLeaf() returns (r: Result<()>)
      requires Valid() && draft.levels[0].rows != []
      modifies this`draft, this`pendingExtra, this`book
      ensures r.Ok? ==> Valid() && draft.levels[0].rows == [] && pendingExtra == 0
      ensures r.Err? && c.fits ==> r.kind == TooLarge && |draft.sink| >= PAGE_LIMIT
    {
      var d;
      ghost var b';
      r, d, b' := WriteLeaf(c, draft, book, pushed);
      if r.Err? {
        draft := d;
        return;
      }
      InstallLeaf(d, b');
    }

    /** Writes a value that does not fit inline onto its own page. */
    method WriteBlob(value: seq<Byte>) returns (r: Result<nat>)
      requires Valid() && |value| < I32_LIMIT
      modifies this`draft, this`book
      ensures Valid() && draft.levels == old(draft.levels)
      ensures r.Ok? ==> r.value == |old(draft.sink)| && |draft.sink| == r.value + 1
      ensures r.Ok? ==>
                r.value < I64_LIMIT && forall key :: RowMeans(book, Row(key, Overflow(r.value)), Entry(key, value))
      ensures r.Ok? ==> RefOk(book.pages, PageRef(r.value, PREFIX, |value|), value)
      ensures r.Err? ==> r.kind == TooLarge && |draft.sink| >= PAGE_LIMIT
    {
      if |draft.sink| >= PAGE_LIMIT {
        return Err(TooLarge);
      }
      var sink := AppendBlob(draft.sink, value, book.pages);
      BlobGoing(c, draft, book, pushed, value, sink);
      BlobMeans(book, value, WithBlob(book, BlobPage(value)));
      r := Ok(|draft.sink|);
      Install(draft.(sink := sink), WithBlob(book, BlobPage(value)), 0);
    }

    /** Adds a row that fits to the leaf under construction. */
    method AddRow(row: Row, ref: Option<PageRef>, ghost e: Entry)
      requires Valid() && RowOk(c, Leaf, row) && RowMeans(book, row, e) && |e.value| < I32_LIMIT
      requires Keeps(book.pages, row, ref, e.value)
      requires pushed != [] ==> c.enc.compare(pushed[|pushed| - 1].key, row.key) == Less
      requires PageLen(c.layout, Leaf, draft.levels[0].rows + [row]) <= c.pageSize
      modifies this`draft, this`book, this`pushed
      ensures Valid() && pushed == old(pushed) + [e]
      ensures LeafRows(draft) == old(LeafRows(draft)) + [row] && draft.sink == old(draft.sink)
    {
      RowGoing(c, draft, book, pushed, row, ref, e);
      pushed := pushed + [e];
      Install(draft.(levels := draft.levels[0 := WithRow(draft.levels[0], row)], kept := draft.kept + [ref]),
              book.(total := book.total[0 := book.total[0] + [row]]), 0);
    }

    /** Makes sure the entry fits on the leaf, writing the leaf first if even a reference would not, and
        says whether the value has to go elsewhere. A leaf is filled as long as the row fits on it somehow, and a value
        goes to a page of its own only where it does not fit. */
    method Place(key: Key, len: nat) returns (r: Result<bool>, ghost fit: Fit)
      requires Valid() && LeafMinimum(c.layout, |key|) <= c.pageSize
      modifies this`draft, this`pendingExtra, this`book
      ensures r.Ok? ==> Valid()
      ensures r.Ok? ==> Needs(c, draft.levels[0].rows, key, if r.value then 8 else len) <= c.pageSize
      ensures r.Ok? && !r.value ==> len < SENTINEL
      ensures fit == FitOf(c, old(LeafRows(draft)), key, len)
      ensures r.Ok? && fit != NotHere ==> draft == old(draft) && r.value == (fit == ByNumber)
      ensures r.Err? && c.fits ==> r.kind == TooLarge && |draft.sink| >= PAGE_LIMIT
    {
      fit := FitOf(c, draft.levels[0].rows, key, len);
      var overflow := false;
      if Needs(c, draft.levels[0].rows, key, len) > c.pageSize {
        if Needs(c, draft.levels[0].rows, key, 8) > c.pageSize && draft.levels[0].rows != [] {
          var rotated := RotateLeaf();
          if rotated.Err? {
            return Err(rotated.kind), fit;
          }
        }
        overflow := Needs(c, draft.levels[0].rows, key, len) > c.pageSize;
      }
      // The classic metadata has 16 bits for a length, and all ones mean a value kept elsewhere.
      if len >= SENTINEL {
        overflow := true;
      }
      r := Ok(overflow);
    }

    /** Adds a row with its value. */
    method StoreInline(key: Key, value: seq<Byte>)
      requires Valid() && RowOk(c, Leaf, Row(key, Inline([]))) && |value| < SENTINEL
      requires pushed != [] ==> c.enc.compare(pushed[|pushed| - 1].key, key) == Less
      requires Needs(c, draft.levels[0].rows, key, |value|) <= c.pageSize
      modifies this`draft, this`book, this`pushed
      ensures Valid() && pushed == old(pushed) + [Entry(key, value)]
      ensures StoredIn(old(draft), key, value, false, draft)
    {
      var row := Row(key, Inline(value));
      assert PageLen(c.layout, Leaf, draft.levels[0].rows + [row]) <= c.pageSize by {
        NeedsIsPageLen(c, draft.levels[0].rows, key, Inline(value));
      }
      AddRow(row, None, Entry(key, value));
    }

    /** Stores the value, here or on its own page, and adds the row. */
    method Store(key: Key, value: seq<Byte>, overflow: bool) returns (r: Result<()>)
      requires Valid() && RowOk(c, Leaf, Row(key, Inline([]))) && |value| < I32_LIMIT
      requires !overflow ==> |value| < SENTINEL
      requires pushed != [] ==> c.enc.compare(pushed[|pushed| - 1].key, key) == Less
      requires Needs(c, draft.levels[0].rows, key, if overflow then 8 else |value|) <= c.pageSize
      modifies this`draft, this`book, this`pushed
      ensures r.Ok? ==> Valid() && pushed == old(pushed) + [Entry(key, value)]
      ensures r.Ok? ==> StoredIn(old(draft), key, value, overflow, draft)
      ensures r.Err? ==> r.kind == TooLarge && |draft.sink| >= PAGE_LIMIT
    {
      if !overflow {
        StoreInline(key, value);
        return Ok(());
      }
      r := StoreElsewhere(key, value);
    }

    /** Stores the value on its own page and adds a row with the number of it. */
    method StoreElsewhere(key: Key, value: seq<Byte>) returns (r: Result<()>)
      requires Valid() && RowOk(c, Leaf, Row(key, Inline([]))) && |value| < I32_LIMIT
      requires pushed != [] ==> c.enc.compare(pushed[|pushed| - 1].key, key) == Less
      requires Needs(c, draft.levels[0].rows, key, 8) <= c.pageSize
      modifies this`draft, this`book, this`pushed
      ensures r.Ok? ==> Valid() && pushed == old(pushed) + [Entry(key, value)]
      ensures r.Ok? ==> StoredIn(old(draft), key, value, true, draft)
      ensures r.Err? ==> r.kind == TooLarge && |draft.sink| >= PAGE_LIMIT
    {
      var blob :- WriteBlob(value);
      NeedsIsPageLen(c, draft.levels[0].rows, key, Overflow(blob));
      AddRow(Row(key, Overflow(blob)), Some(PageRef(blob, PREFIX, |value|)), Entry(key, value));
      r := Ok(());
    }

    /** Adds a row to the leaf under construction, or to the one after it. */
    method Append(key: Key, value: seq<Byte>) returns (r: Result<()>)
      requires Valid() && RowOk(c, Leaf, Row(key, Inline([]))) && |value| < I32_LIMIT
               && LeafMinimum(c.layout, |key|) <= c.pageSize
      requires pushed != [] ==> c.enc.compare(pushed[|pushed| - 1].key, key) == Less
      modifies this
      ensures r.Ok? ==> Valid() && pushed == old(pushed) + [Entry(key, value)]
      ensures r.Err? && c.fits ==> r.kind == TooLarge && |draft.sink| >= PAGE_LIMIT
    {
      var overflow;
      ghost var fit;
      overflow, fit := Place(key, |value|);
      if overflow.Err? {
        return Err(overflow.kind);
      }
      r := Store(key, value, overflow.value);
    }

    /** Appends one row. Keys must arrive in the encoding's order. */
    method Push(key: Key, value: seq<Byte>, extra: nat) returns (r: Result<()>)
      requires Valid() && c.enc.wellFormed(key)
      requires c.fits ==> CheckKeyFits(c.pageSize, c.layout, |key|).Ok?
      requires pushed != [] ==> c.enc.compare(pushed[|pushed| - 1].key, key) == Less
      modifies this
      ensures r.Ok? ==> Valid() && pushed == old(pushed) + [Entry(key, value)]
      ensures r.Err? && c.fits ==>
                && r.kind == TooLarge
                && (|key| > 0xFFFF || |value| > 0x7FFF_FFFF || |draft.sink| >= 0x7FFF_FFFF)
    {
      if TooLong(key, value) {
        return Err(TooLarge);
      }
      if LeafMinimum(c.layout, |key|) > c.pageSize {
        return Err(TooLarge);
      }
      var _ :- Append(key, value);
      r := HoldExtra(extra);
    }

    /** Counts what the entry holds until its leaf is written, and writes the leaf if that is too much. */
    method HoldExtra(extra: nat) returns (r: Result<()>)
      requires Valid()
      modifies this`draft, this`pendingExtra, this`book
      ensures r.Ok? ==> Valid()
      ensures old(pendingExtra) + extra <= extraBudget ==> draft == old(draft)
      ensures r.Err? && c.fits ==> r.kind == TooLarge && |draft.sink| >= PAGE_LIMIT
    {
      pendingExtra := pendingExtra + extra;
      if pendingExtra > extraBudget && draft.levels[0].rows != [] {
        r := RotateLeaf();
        return;
      }
      r := Ok(());
    }

    /** Writes out what is pending on a level, if anything is. */
    method Settle(l: nat, ghost closed: nat, ghost drained: bool) returns (r: Result<bool>)
      requires ValidAt(closed) && Drained(draft.levels, l) && l + 1 < |draft.levels|
      requires !drained ==> closed == l
      requires drained ==> Drained(draft.levels, |draft.levels| - 1)
      modifies this`draft, this`book
      ensures r.Ok? ==> ValidAt(if drained then closed else l + 1) && Drained(draft.levels, l + 1)
      ensures r.Ok? && drained ==> Drained(draft.levels, |draft.levels| - 1) && !r.value
      ensures r.Err? && c.fits ==> r.kind == TooLarge && |draft.sink| >= PAGE_LIMIT
    {
      if draft.levels[l].rows != [] {
        var settled, d, b' := CloseLevel(c, draft, l, book, pushed);
        if settled.Err? {
          draft := d;
          return Err(settled.kind);
        }
        Install(d, b', l + 1);
        return Ok(true);
      }
      if c.fits && !drained {
        FilledClose(draft.levels, book, l);
      }
      r := Ok(false);
    }

    /** One pass over the levels below the top, bottom up. */
    method Drain(ghost closed: nat, ghost drained: bool) returns (r: Result<bool>, ghost closed': nat)
      requires ValidAt(closed) && (drained ==> Drained(draft.levels, |draft.levels| - 1)) && (!drained ==> closed == 0)
      modifies this`draft, this`book
      ensures r.Ok? ==> ValidAt(closed') && Drained(draft.levels, |draft.levels| - 1)
      ensures r.Ok? && drained ==> !r.value
      ensures r.Err? && c.fits ==> r.kind == TooLarge && |draft.sink| >= PAGE_LIMIT
    {
      var flushed := false;
      var level: nat := 0;
      closed' := closed;
      while level + 1 < |draft.levels|
        invariant ValidAt(closed') && Drained(draft.levels, level)
        invariant !drained ==> closed' == level
        invariant drained ==> Drained(draft.levels, |draft.levels| - 1) && !flushed
        decreases MAX_LEVELS - level
      {
        var settled := Settle(level, closed', drained);
        if settled.Err? {
          return Err(settled.kind), closed';
        }
        flushed := flushed || settled.value;
        closed' := if drained then closed' else level + 1;
        level := level + 1;
      }
      r := Ok(flushed);
    }

    /** Writes the remaining levels below the top. The second pass finds nothing to do. */
    method DrainAll() returns (r: Result<()>, ghost closed: nat)
      requires Valid()
      modifies this`draft, this`book
      ensures r.Ok? ==> ValidAt(closed) && Drained(draft.levels, |draft.levels| - 1)
      ensures r.Err? && c.fits ==> r.kind == TooLarge && |draft.sink| >= PAGE_LIMIT
    {
      var again := true;
      ghost var drained := false;
      closed := 0;
      while again
        invariant ValidAt(closed)
        invariant drained ==> Drained(draft.levels, |draft.levels| - 1)
        invariant !drained ==> closed == 0 && again
        decreases (if drained then 0 else 1) + (if again then 1 else 0)
      {
        var pass;
        pass, closed := Drain(closed, drained);
        if pass.Err? {
          return Err(pass.kind), closed;
        }
        again := pass.value;
        drained := true;
      }
      r := Ok(());
    }

    /** Writes what is left and returns the root page. A tree without rows gets an empty leaf for its root.
        What a reader then finds in the bytes is a well-formed tree, with all the rows in it if and only
        if they are legible, and the references handed out are to the values. */
    method Finish(ghost maxDepth: nat) returns (r: Result<nat>, ghost s: Shape)
      requires Valid()
      modifies this`draft, this`book
      ensures r.Ok? ==> Finished(c, draft.sink, r.value, maxDepth, s, draft.refs, pushed)
      ensures r.Ok? ==> Written(draft.sink, book.pages) && |draft.sink| <= PAGE_LIMIT && KeepsPages(book.pages, before)
      ensures r.Err? && c.fits ==> r.kind == TooLarge && |draft.sink| >= PAGE_LIMIT
    {
      s := Shape(false, []);
      var done, closed := DrainAll();
      if done.Err? {
        return Err(done.kind), s;
      }
      if |draft.sink| >= PAGE_LIMIT {
        return Err(TooLarge), s;
      }
      r, s := WriteTop(closed, maxDepth);
    }

    method WriteTop(ghost closed: nat, ghost maxDepth: nat) returns (r: Result<nat>, ghost s: Shape)
      requires ValidAt(closed) && Drained(draft.levels, |draft.levels| - 1) && |draft.sink| < PAGE_LIMIT
      modifies this`draft, this`book
      ensures r.Ok? && Completed(c, draft, book.pages, before, r.value, maxDepth, s, pushed)
    {
      s := FinalShape(book, |draft.sink|);
      r := Ok(|draft.sink|);
      var d, pages := FinishTree(c, draft, book, pushed, closed, maxDepth);
      draft, book := d, book.(pages := pages);
    }
  }

  ghost predicate KeepsPages(pages: seq<Page>, before: seq<Page>) {
    |before| <= |pages| && forall o :: 0 <= o < |before| ==> pages[o] == before[o]
  }

  /** What a finished tree is to its readers. */
  ghost predicate Finished(c: Config, sink: Sink, root: nat, maxDepth: nat, s: Shape, refs: seq<PageRef>,
                           pushed: seq<Entry>) {
    && Found(c, sink, root, maxDepth, s, pushed)
    && |refs| == |pushed|
    && forall i :: 0 <= i < |refs| ==> RefInFile(sink, refs[i], pushed[i].value)
  }

  ghost predicate Completed(c: Config, d: Draft, pages: seq<Page>, before: seq<Page>, root: nat, maxDepth: nat,
                            s: Shape, pushed: seq<Entry>) {
    && Finished(c, d.sink, root, maxDepth, s, d.refs, pushed)
    && Written(d.sink, pages) && |d.sink| <= PAGE_LIMIT && KeepsPages(pages, before)
  }

  /** What is found in the bytes: a well-formed tree, with all the rows in it exactly if they are legible,
      and no higher than it has to be. */
  ghost predicate Found(c: Config, sink: Sink, root: nat, maxDepth: nat, s: Shape, pushed: seq<Entry>) {
    var t := ReadTree(c, sink, root, maxDepth);
    && |s.levels| > 0 && !s.coarse
    && (|s.levels| <= maxDepth ==> WellFormed(t, s))
    && (|s.levels| <= maxDepth ==>
          (BlobsOk(t, s) && Contains(t, s, pushed) <==> forall i :: 0 <= i < |pushed| ==> Legible(pushed[i])))
    && (c.fits ==> Slender(s) && (|s.levels| <= maxDepth ==> TwoEach(t, s)))
  }

  /** The height is logarithmic in the number of leaves. */
  ghost predicate Slender(s: Shape) {
    |s.levels| < 34 && (|s.levels| > 2 ==> |s.levels[0]| > Pow2(|s.levels| - 2))
  }

  /** Every internal page but the root and the last of its level lists at least two pages. */
  ghost predicate TwoEach(t: Tree, s: Shape) {
    forall l, i :: 0 < l < |s.levels| - 1 && 0 <= i < |s.levels[l]| - 1 ==> Count(t, s.levels[l][i]) >= 2
  }

  lemma FinalIsSlender(levels: seq<Level>, b: Book, closed: nat)
    requires |levels| > 0 && WellFilled(levels, b, closed) && |b.pages| <= PAGE_LIMIT
    ensures Slender(FinalShape(b, |b.pages|))
  {
    LevelsAreFew(levels, b, closed);
    if |levels| > 2 {
      LevelsHalve(levels, b, closed, 0);
    }
  }

  lemma FinalTwoEach(c: Config, levels: seq<Level>, b: Book, p: Page, sink: Sink, maxDepth: nat, closed: nat)
    requires Ending(c, levels, b, p) && |levels| <= maxDepth && |b.owner| == |b.pages| <= PAGE_LIMIT
    requires Written(sink, b.pages + [p]) && WellFilled(levels, b, closed)
    ensures TwoEach(ReadTree(c, sink, |b.pages|, maxDepth), FinalShape(b, |b.pages|))
  {
    var t, s := ReadTree(c, sink, |b.pages|, maxDepth), FinalShape(b, |b.pages|);
    forall l, i | 0 < l < |s.levels| - 1 && 0 <= i < |s.levels[l]| - 1
      ensures Count(t, s.levels[l][i]) >= 2
    {
      assert Separators(b.pages, b.done[l][i]) >= 2;
      LowerPageRead(c, levels, b, p, sink, maxDepth, l, i);
    }
  }

  lemma LowerPageRead(c: Config, levels: seq<Level>, b: Book, p: Page, sink: Sink, maxDepth: nat, l: nat, i: nat)
    requires Ending(c, levels, b, p) && |b.owner| == |b.pages| <= PAGE_LIMIT && Written(sink, b.pages + [p])
    requires l < |levels| - 1 && i < |b.done[l]| && b.done[l][i] < |b.pages|
    ensures At(ReadTree(c, sink, |b.pages|, maxDepth), b.done[l][i]) == b.pages[b.done[l][i]]
  {
    LowerPageReadsBack(c, levels, b, l, i);
    PageReadBack(sink, b.pages + [p], b.done[l][i]);
  }

  /** The reference leads to the value in the bytes of the file. */
  ghost predicate RefInFile(sink: Sink, ref: PageRef, value: seq<Byte>) {
    ref.page < |sink| && RefFits(ref) && InBytes(sink[ref.page], ref, value)
  }

  lemma RefsInFile(sink: Sink, pages: seq<Page>, ref: PageRef, value: seq<Byte>)
    requires Written(sink, pages) && RefOk(pages, ref, value)
    ensures RefInFile(sink, ref, value)
  {
    assert sink[ref.page] == Encode(pages[ref.page]);
    LocatedBytes(pages[ref.page], ref, value);
  }

  /** The bytes of a page that holds one value and nothing else. */
  method BlobBytes(value: seq<Byte>) returns (b: seq<Byte>)
    ensures b == Encode(BlobPage(value))
  {
    b := Head(BlobPage(value), PREFIX + |value|) + value;
  }

  lemma PendingFits(c: Config, levels: seq<Level>, b: Book, l: nat)
    requires Holds(c, levels, b, l) && l < |levels|
    ensures PageLen(c.layout, KindOf(l), levels[l].rows) <= c.pageSize
  {
    assert LevelHolds(c, b, l, levels[l]);
  }

  /** Writes the leaf under construction and hands out the references to its rows. */
  method WriteLeaf(c: Config, d: Draft, ghost b: Book, ghost pushed: seq<Entry>)
    returns (r: Result<()>, d': Draft, ghost b': Book)
    requires Going(c, d, b, pushed, 0) && d.levels[0].rows != []
    ensures r.Ok? ==> Going(c, d', b', pushed, 0) && d'.levels[0].rows == [] && b'.before == b.before
    ensures r.Err? && c.fits ==> r.kind == TooLarge && |d'.sink| >= PAGE_LIMIT
  {
    var sink, levels;
    r, sink, levels, b' := Rotate(c, d.sink, d.levels, 0, b, 0, false);
    if r.Err? {
      d' := d.(sink := sink);
      return;
    }
    HoldsBelow(c, d.levels, b, sink, levels, b', 0, |d.sink|);
    MeantKept(b, b', pushed);
    var refs := HandOutLevel(c, d.levels, d.kept, d.refs, |d.sink|, 0, b, b', pushed);
    d' := Draft(sink, levels, [], refs);
  }

  /** Writes out what is pending on a level, for good. */
  method CloseLevel(c: Config, d: Draft, l: nat, ghost b: Book, ghost pushed: seq<Entry>)
    returns (r: Result<()>, d': Draft, ghost b': Book)
    requires Going(c, d, b, pushed, l) && Drained(d.levels, l) && l + 1 < |d.levels| && d.levels[l].rows != []
    ensures r.Ok? ==> Going(c, d', b', pushed, l + 1) && Drained(d'.levels, l + 1) && b'.before == b.before
    ensures r.Err? && c.fits ==> r.kind == TooLarge && |d'.sink| >= PAGE_LIMIT
  {
    var sink, levels;
    r, sink, levels, b' := RotateLevel(c, d, l, b, pushed);
    if r.Err? {
      d' := d.(sink := sink);
      return;
    }
    var refs := HandOutLevel(c, d.levels, d.kept, d.refs, |d.sink|, l, b, b', pushed);
    d' := Draft(sink, levels, [], refs);
    ClosedGoing(c, d.levels, b, d', b', l, |d.sink|, pushed);
  }

  lemma ClosedGoing(c: Config, levels: seq<Level>, b: Book, d': Draft, b': Book, l: nat, o: nat, pushed: seq<Entry>)
    requires ConfigOk(c) && Holds(c, levels, b, 0) && Meant(b, pushed) && Short(pushed) && Drained(levels, l)
             && l + 1 < |levels|
    requires Rotated(c, levels, b, d'.sink, d'.levels, b', l, o) && (c.fits ==> WellFilled(d'.levels, b', l + 1))
    requires d'.kept == [] && Handed(b'.pages, [], [], d'.refs, pushed)
    ensures Going(c, d', b', pushed, l + 1) && Drained(d'.levels, l + 1)
  {
    RotatedKeeps(c, levels, b, d'.sink, d'.levels, b', l, o, pushed);
  }

  method RotateLevel(c: Config, d: Draft, l: nat, ghost b: Book, ghost pushed: seq<Entry>)
    returns (r: Result<()>, sink': Sink, levels': seq<Level>, ghost b': Book)
    requires Going(c, d, b, pushed, l) && Drained(d.levels, l) && l + 1 < |d.levels| && d.levels[l].rows != []
    ensures r.Ok? ==> Rotated(c, d.levels, b, sink', levels', b', l, |d.sink|) && Kept(b, b', 0)
    ensures r.Ok? && c.fits ==> WellFilled(levels', b', l + 1)
    ensures r.Err? && c.fits ==> r.kind == TooLarge && |sink'| >= PAGE_LIMIT
  {
    HoldsFrom(c, d.levels, b, l);
    r, sink', levels', b' := Rotate(c, d.sink, d.levels, l, b, l, true);
    if r.Ok? {
      KeptAtLeast(b, b', l);
    }
  }

  /** Hands out references once a level has been written, which only the leaves have any of. */
  method HandOutLevel(c: Config, levels: seq<Level>, kept: seq<Option<PageRef>>, refs: seq<PageRef>, o: nat, l: nat,
                      ghost b: Book, ghost b': Book, ghost pushed: seq<Entry>)
    returns (refs': seq<PageRef>)
    requires Holds(c, levels, b, 0) && l < |levels| && Handed(b.pages, levels[0].rows, kept, refs, pushed)
             && Kept(b, b', 0)
    requires l > 0 ==> levels[0].rows == []
    requires l == 0 ==> CarriedAt(c, Leaf, levels[0].rows, b'.pages, o) && o < I64_LIMIT && c.pageSize < I32_LIMIT
    ensures Handed(b'.pages, [], [], refs', pushed)
  {
    HandedKept(b, b', levels[0].rows, kept, refs, pushed);
    refs' := refs;
    if l == 0 {
      PendingFits(c, levels, b, 0);
      refs' := HandOut(c, levels[0].rows, kept, refs, o, b'.pages, pushed);
    }
  }

  /** Writes the root, which a tree of one level hands out references for. The top level has never written
      a page, so what is pending there is the root. */
  method FinishTree(c: Config, d: Draft, ghost b: Book, ghost pushed: seq<Entry>, ghost closed: nat,
                    ghost maxDepth: nat)
    returns (d': Draft, ghost pages: seq<Page>)
    requires Going(c, d, b, pushed, closed) && Drained(d.levels, |d.levels| - 1) && |d.sink| < PAGE_LIMIT
    ensures Completed(c, d', pages, b.before, |d.sink|, maxDepth, FinalShape(b, |d.sink|), pushed)
  {
    var sink, p := WriteRoot(c, d, b, pushed, closed);
    FinishedTree(c, d, b, pushed, closed, p, sink, maxDepth);
    var refs := RootRefs(c, d.levels, d.kept, d.refs, |d.sink|, b, p, pushed);
    pages := b.pages + [p];
    AllInFile(sink, pages, refs, pushed);
    d' := Draft(sink, d.levels[|d.levels| - 1 := Level([], None, Some(|d.sink|))], [], refs);
  }

  method WriteRoot(c: Config, d: Draft, ghost b: Book, ghost pushed: seq<Entry>, ghost closed: nat)
    returns (sink: Sink, ghost p: Page)
    requires Going(c, d, b, pushed, closed) && Drained(d.levels, |d.levels| - 1)
    ensures Ending(c, d.levels, b, p) && Written(sink, b.pages + [p]) && |sink| == |d.sink| + 1
  {
    var top := |d.levels| - 1;
    TopIsPending(c, d.levels, b);
    var page := BuildPage(c, KindOf(top), d.levels[top].rows, d.levels[top].prev);
    p := page;
    sink := AppendPage(d.sink, page, None, b.pages);
  }

  lemma FinishedTree(c: Config, d: Draft, b: Book, pushed: seq<Entry>, closed: nat, p: Page, sink: Sink, maxDepth: nat)
    requires Going(c, d, b, pushed, closed) && Ending(c, d.levels, b, p) && Written(sink, b.pages + [p])
    ensures Found(c, sink, |b.pages|, maxDepth, FinalShape(b, |b.pages|), pushed)
  {
    if c.fits {
      FinalIsSlender(d.levels, b, closed);
    }
    if |d.levels| <= maxDepth {
      FinalRead(c, d.levels, b, p, sink, maxDepth, pushed);
      if c.fits {
        FinalTwoEach(c, d.levels, b, p, sink, maxDepth, closed);
      }
    }
  }

  method RootRefs(c: Config, levels: seq<Level>, kept: seq<Option<PageRef>>, refs: seq<PageRef>, o: nat,
                  ghost b: Book, ghost p: Page, ghost pushed: seq<Entry>)
    returns (refs': seq<PageRef>)
    requires Holds(c, levels, b, 0) && Drained(levels, |levels| - 1)
             && Handed(b.pages, levels[0].rows, kept, refs, pushed)
    requires o == |b.pages| < I64_LIMIT && c.pageSize < I32_LIMIT
    requires Carries(c, KindOf(|levels| - 1), levels[|levels| - 1].rows, p)
    ensures Handed(b.pages + [p], [], [], refs', pushed)
  {
    HandedMore(b.pages, p, levels[0].rows, kept, refs, pushed);
    refs' := refs;
    if |levels| == 1 {
      PendingFits(c, levels, b, 0);
      refs' := HandOut(c, levels[0].rows, kept, refs, o, b.pages + [p], pushed);
    }
  }

  lemma AllInFile(sink: Sink, pages: seq<Page>, refs: seq<PageRef>, pushed: seq<Entry>)
    requires Written(sink, pages) && |refs| == |pushed|
             && forall i :: 0 <= i < |refs| ==> RefOk(pages, refs[i], pushed[i].value)
    ensures forall i :: 0 <= i < |refs| ==> RefInFile(sink, refs[i], pushed[i].value)
  {
    forall i | 0 <= i < |refs|
      ensures RefInFile(sink, refs[i], pushed[i].value)
    {
      RefsInFile(sink, pages, refs[i], pushed[i].value);
    }
  }

  lemma HandedMore(pages: seq<Page>, p: Page, rows: seq<Row>, kept: seq<Option<PageRef>>, refs: seq<PageRef>,
                   pushed: seq<Entry>)
    requires Handed(pages, rows, kept, refs, pushed)
    ensures Handed(pages + [p], rows, kept, refs, pushed)
  {
    forall i | 0 <= i < |refs|
      ensures RefOk(pages + [p], refs[i], pushed[i].value)
    {
      assert RefOk(pages, refs[i], pushed[i].value);
    }
    forall i | 0 <= i < |rows|
      ensures Keeps(pages + [p], rows[i], kept[i], pushed[|refs| + i].value)
    {
      assert Keeps(pages, rows[i], kept[i], pushed[|refs| + i].value);
    }
  }

  lemma RotatedKeeps(c: Config, levels: seq<Level>, b: Book, sink': Sink, levels': seq<Level>, b': Book, l: nat,
                     o: nat, pushed: seq<Entry>)
    requires Holds(c, levels, b, 0) && Rotated(c, levels, b, sink', levels', b', l, o) && Meant(b, pushed)
             && Drained(levels, l)
    requires l + 1 < |levels|
    ensures Holds(c, levels', b', 0) && Meant(b', pushed) && Drained(levels', l + 1)
  {
    HoldsBelow(c, levels, b, sink', levels', b', l, o);
    KeptAtLeast(b, b', l);
    TotalBelow(levels, b, levels', b', l);
    MeantKept(b, b', pushed);
    DrainedNext(levels, b, levels', b', l);
  }

  lemma TotalBelow(levels: seq<Level>, b: Book, levels': seq<Level>, b': Book, l: nat)
    requires SameBelow(levels, b, levels', b', l) && b'.total[l] == b.total[l]
    ensures b'.total[0] == b.total[0]
  {
  }

  lemma DrainedNext(levels: seq<Level>, b: Book, levels': seq<Level>, b': Book, l: nat)
    requires SameBelow(levels, b, levels', b', l) && l + 1 < |levels'| && levels'[l].rows == [] && Drained(levels, l)
    ensures Drained(levels', l + 1)
  {
  }

  lemma TopIsPending(c: Config, levels: seq<Level>, b: Book)
    requires Holds(c, levels, b, 0)
    ensures var top := |levels| - 1;
            && levels[top].prev == None
            && forall i :: 0 <= i < |levels[top].rows| ==>
                 (levels[top].rows[i].payload.Child? <==> KindOf(top) == Internal)
  {
    var top := |levels| - 1;
    assert LevelHolds(c, b, top, levels[top]);
    PendingKind(c, b, top, levels[top]);
  }

  lemma KeptAtLeast(b: Book, b': Book, l: nat)
    requires Kept(b, b', l)
    ensures Kept(b, b', 0)
  {
  }
}
