/** Building a table: the rows, the primary tree, and an index over it, all in one file. */
module TableBuilding {
  import opened Base
  import opened Encodings
  import opened Composites
  import opened Pages
  import opened Trees
  import opened Searching
  import opened Queries
  import opened Cursors
  import opened PageBuilding
  import opened References
  import opened TreeWriting
  import opened TreeBuilding
  import opened Records
  import opened Merging
  import opened Spooling
  import opened Indexing
  import opened IndexScanning

  // ---------------------------------------------------------------- a file that grows

  /** The file still has every page it had. */
  ghost predicate Grows(sink: Sink, sink': Sink) {
    |sink| <= |sink'| && forall o :: 0 <= o < |sink| ==> sink'[o] == sink[o]
  }

  lemma KeptPagesGrow(sink: Sink, pages: seq<Page>, sink': Sink, pages': seq<Page>)
    requires TreeWriting.Written(sink, pages) && TreeWriting.Written(sink', pages') && KeepsPages(pages', pages)
    ensures Grows(sink, sink')
  {
    forall o | 0 <= o < |sink|
      ensures sink'[o] == sink[o]
    {
      assert pages'[o] == pages[o];
    }
  }

  lemma SamePage(c: Config, sink: Sink, sink': Sink, root: nat, maxDepth: nat, o: nat)
    requires Grows(sink, sink') && o < |sink|
    ensures ReadTree(c, sink', root, maxDepth).file[o] == ReadTree(c, sink, root, maxDepth).file[o]
  {
  }

  lemma TreeStays(c: Config, sink: Sink, sink': Sink, root: nat, maxDepth: nat, s: Shape)
    requires Grows(sink, sink') && WellFormed(ReadTree(c, sink, root, maxDepth), s)
    ensures var t, t' := ReadTree(c, sink, root, maxDepth), ReadTree(c, sink', root, maxDepth);
            WellFormed(t', s) && Flat(t', s) == Flat(t, s)
  {
    var t, t' := ReadTree(c, sink, root, maxDepth), ReadTree(c, sink', root, maxDepth);
    forall l, i | 0 <= l < |s.levels| && 0 <= i < |s.levels[l]|
      ensures var o := s.levels[l][i]; o < |t'.file| && t'.file[o].Some? && At(t', o) == At(t, o)
    {
      Node(t, s, l, i);
      SamePage(c, sink, sink', root, maxDepth, s.levels[l][i]);
    }
    SameTree(t, t', s);
  }

  /** A tree in the file keeps its rows while more is written behind it. */
  lemma RowsStay(c: Config, sink: Sink, sink': Sink, root: nat, maxDepth: nat, s: Shape, rows: seq<Entry>)
    requires Grows(sink, sink') && WellFormed(ReadTree(c, sink, root, maxDepth), s)
    requires BlobsOk(ReadTree(c, sink, root, maxDepth), s) && Contains(ReadTree(c, sink, root, maxDepth), s, rows)
    ensures var t' := ReadTree(c, sink', root, maxDepth); WellFormed(t', s) && BlobsOk(t', s) && Contains(t', s, rows)
  {
    TreeStays(c, sink, sink', root, maxDepth, s);
    var t, t' := ReadTree(c, sink, root, maxDepth), ReadTree(c, sink', root, maxDepth);
    forall at | 0 <= at < |Flat(t', s)|
      ensures Flat(t', s)[at].payload.Overflow? ==> IsBlob(t', Flat(t', s)[at].payload.blob)
      ensures ValueOf(t', Flat(t', s)[at].payload) == ValueOf(t, Flat(t, s)[at].payload)
    {
      var payload := Flat(t, s)[at].payload;
      if payload.Overflow? {
        assert IsBlob(t, payload.blob);
        SamePage(c, sink, sink', root, maxDepth, payload.blob);
      }
    }
  }

  lemma RefStays(sink: Sink, sink': Sink, ref: PageRef, value: seq<Byte>)
    requires Grows(sink, sink') && RefInFile(sink, ref, value)
    ensures RefInFile(sink', ref, value)
  {
  }

  // ---------------------------------------------------------------- the rows and their keys

  /** The rows in the order of their keys, each key once. */
  method DistinctRows(e: Encoding, rs: seq<Rec>) returns (r: Result<seq<Entry>>)
    requires TotalOrder(e) && Sorted(e, rs) && Spoolable(e, rs)
    ensures r.Ok? <==> forall i, j :: 0 <= i < j < |rs| ==> e.compare(rs[i].key, rs[j].key) != Equal
    ensures r.Err? ==> r.kind == Invalid
    ensures r.Ok? ==> |r.value| == |rs| && forall i :: 0 <= i < |rs| ==> r.value[i] == Entry(rs[i].key, rs[i].value)
    ensures r.Ok? ==> Ascends(e, r.value)
  {
    var rows: seq<Entry> := [];
    var i := 0;
    while i < |rs|
      invariant i <= |rs| && |rows| == i
      invariant forall j :: 0 <= j < i ==> rows[j] == Entry(rs[j].key, rs[j].value)
      invariant forall j, k :: 0 <= j < k < i ==> e.compare(rs[j].key, rs[k].key) == Less
    {
      if i > 0 {
        if e.compare(rs[i - 1].key, rs[i].key) != Less {
          InOrderOrEqual(e, rs, i - 1, i);
          return Err(Invalid);
        }
        BehindAll(e, rs, i);
      }
      rows := rows + [Entry(rs[i].key, rs[i].value)];
      i := i + 1;
    }
    r := Ok(rows);
  }

  lemma InOrderOrEqual(e: Encoding, rs: seq<Rec>, i: nat, j: nat)
    requires TotalOrder(e) && Sorted(e, rs) && Spoolable(e, rs) && i < j < |rs|
    ensures e.compare(rs[i].key, rs[j].key) != Greater
  {
    assert !Ahead(e, rs[j], rs[i]);
  }

  lemma BehindAll(e: Encoding, rs: seq<Rec>, i: nat)
    requires TotalOrder(e) && Spoolable(e, rs) && 0 < i < |rs| && e.compare(rs[i - 1].key, rs[i].key) == Less
    requires forall j, k :: 0 <= j < k < i ==> e.compare(rs[j].key, rs[k].key) == Less
    ensures forall j :: 0 <= j < i ==> e.compare(rs[j].key, rs[i].key) == Less
  {
  }

  /** How an index gets its key from a row. */
  type KeyFn = (Key, seq<Byte>) -> Result<Key>

  ghost predicate KeysOf(keyOf: KeyFn, rows: seq<Entry>, keys: seq<Key>) {
    |keys| == |rows| && forall i :: 0 <= i < |rows| ==> keyOf(rows[i].key, rows[i].value) == Ok(keys[i])
  }

  method IndexKeys(keyOf: KeyFn, rows: seq<Entry>) returns (r: Result<seq<Key>>)
    ensures r.Ok? <==> forall i :: 0 <= i < |rows| ==> keyOf(rows[i].key, rows[i].value).Ok?
    ensures r.Ok? ==> KeysOf(keyOf, rows, r.value)
  {
    var keys: seq<Key> := [];
    var i := 0;
    while i < |rows|
      invariant i <= |rows| && KeysOf(keyOf, rows[..i], keys)
    {
      var key := keyOf(rows[i].key, rows[i].value);
      if key.Err? {
        return Err(key.kind);
      }
      keys := keys + [key.value];
      i := i + 1;
    }
    assert rows[..|rows|] == rows;
    r := Ok(keys);
  }

  // ---------------------------------------------------------------- the index records

  /** A record for every row: the index key, and where the row's value is. */
  ghost function IndexRecords(keys: seq<Key>, refs: seq<PageRef>): (rs: seq<Rec>)
    requires |keys| == |refs|
    ensures |rs| == |keys| && forall i :: 0 <= i < |rs| ==> rs[i] == Rec(i, keys[i], RefBytes(refs[i]))
  {
    seq(|keys|, i requires 0 <= i < |keys| => Rec(i, keys[i], RefBytes(refs[i])))
  }

  ghost predicate RecordsTo(keys: seq<Key>, refs: seq<PageRef>, n: nat, pushed: seq<Rec>) {
    && |keys| == |refs| && n <= |keys| && |pushed| == n
    && forall i :: 0 <= i < n ==> pushed[i] == Rec(i, keys[i], RefBytes(refs[i]))
  }

  ghost predicate Malformed(e: Encoding, keys: seq<Key>) {
    exists i :: 0 <= i < |keys| && !e.wellFormed(keys[i])
  }

  /** Spools the index records. `full` says after which of them the buffer is written out. */
  method SpoolRecords(spool: RecordSpool, keys: seq<Key>, refs: seq<PageRef>, full: nat -> bool) returns (r: Result<()>)
    requires spool.Valid() && spool.spoiled.None? && spool.pushed == []
    requires |keys| == |refs| <= U64_MAX + 1 && forall i :: 0 <= i < |keys| ==> |keys[i]| < 0x1_0000_0000
    modifies spool
    ensures spool.Valid()
    ensures r.Ok? ==> spool.spoiled.None? && spool.pushed == IndexRecords(keys, refs)
    ensures r.Ok? ==> forall i :: 0 <= i < |keys| ==> spool.e.wellFormed(keys[i])
    ensures r.Err? ==> spool.passes == Left(0) || Malformed(spool.e, keys)
  {
    var i := 0;
    while i < |keys|
      invariant spool.Valid() && spool.spoiled.None? && RecordsTo(keys, refs, i, spool.pushed)
    {
      assert spool.nextSeq == i;
      r := spool.Push(keys[i], RefBytes(refs[i]), full(i));
      if r.Err? {
        return;
      }
      i := i + 1;
    }
    assert spool.pushed == IndexRecords(keys, refs);
    forall j | 0 <= j < |keys|
      ensures spool.e.wellFormed(keys[j])
    {
      assert spool.pushed[j].key == keys[j];
    }
    r := Ok(());
  }

  lemma RecordsAreIndexable(e: Encoding, keys: seq<Key>, refs: seq<PageRef>)
    requires TotalOrder(e) && ValidKeysAreReadable(e) && |keys| == |refs| <= U64_MAX + 1
    requires forall i :: 0 <= i < |keys| ==> e.wellFormed(keys[i]) && |keys[i]| < 0x1_0000_0000
    ensures Indexable(e, InOrder(e, IndexRecords(keys, refs)))
  {
    var rs := IndexRecords(keys, refs);
    InOrderSorts(e, rs);
    var out := InOrder(e, rs);
    forall i | 0 <= i < |out|
      ensures e.wellFormed(out[i].key) && Legible(Entry(out[i].key, out[i].value))
    {
      IsOneOf(e, keys, refs, i);
    }
  }

  /** Every record of the sorted index is the record of one of the rows. */
  lemma IsOneOf(e: Encoding, keys: seq<Key>, refs: seq<PageRef>, i: nat)
    requires TotalOrder(e) && ValidKeysAreReadable(e) && |keys| == |refs| <= U64_MAX + 1
    requires forall i :: 0 <= i < |keys| ==> e.wellFormed(keys[i]) && |keys[i]| < 0x1_0000_0000
    requires i < |InOrder(e, IndexRecords(keys, refs))|
    ensures var r := InOrder(e, IndexRecords(keys, refs))[i];
            r.order < |keys| && r.key == keys[r.order] && r.value == RefBytes(refs[r.order])
  {
    var rs := IndexRecords(keys, refs);
    InOrderSorts(e, rs);
    assert InOrder(e, rs)[i] in multiset(InOrder(e, rs));
    assert InOrder(e, rs)[i] in multiset(rs);
  }

  // ---------------------------------------------------------------- the table

  /** The tree in the file holds these rows, if they can be read at all. */
  ghost predicate HoldsTable(c: Config, sink: Sink, root: nat, maxDepth: nat, s: Shape, rows: seq<Entry>) {
    var t := ReadTree(c, sink, root, maxDepth);
    && |s.levels| > 0
    && (|s.levels| <= maxDepth ==> WellFormed(t, s))
    && (|s.levels| <= maxDepth && (forall i :: 0 <= i < |rows| ==> Legible(rows[i])) ==>
         BlobsOk(t, s) && Contains(t, s, rows))
  }

  /** Every reference leads to the value of its row. */
  ghost predicate RefsLead(sink: Sink, refs: seq<PageRef>, rows: seq<Entry>) {
    |refs| == |rows| && forall i :: 0 <= i < |refs| ==> RefInFile(sink, refs[i], rows[i].value)
  }

  lemma TableStays(c: Config, sink: Sink, sink': Sink, root: nat, maxDepth: nat, s: Shape, rows: seq<Entry>,
                   refs: seq<PageRef>)
    requires Grows(sink, sink') && HoldsTable(c, sink, root, maxDepth, s, rows) && RefsLead(sink, refs, rows)
    ensures HoldsTable(c, sink', root, maxDepth, s, rows) && RefsLead(sink', refs, rows)
  {
    if |s.levels| <= maxDepth {
      TreeStays(c, sink, sink', root, maxDepth, s);
      if forall i :: 0 <= i < |rows| ==> Legible(rows[i]) {
        RowsStay(c, sink, sink', root, maxDepth, s, rows);
      }
    }
    forall i | 0 <= i < |refs|
      ensures RefInFile(sink', refs[i], rows[i].value)
    {
      RefStays(sink, sink', refs[i], rows[i].value);
    }
  }

  /** The rows of a table: what was appended, in the order of the keys. */
  ghost predicate RowsFrom(e: Encoding, pushed: seq<Rec>, rows: seq<Entry>) {
    && |rows| == |InOrder(e, pushed)|
    && forall i :: 0 <= i < |rows| ==> rows[i] == Entry(InOrder(e, pushed)[i].key, InOrder(e, pushed)[i].value)
  }

  /** Two rows with one key. */
  ghost predicate Repeats(pushed: seq<Rec>) {
    exists i, j :: 0 <= i < |pushed| && 0 <= j < |pushed| && i != j && pushed[i].key == pushed[j].key
  }

  ghost predicate InTurn(pushed: seq<Rec>) {
    forall i :: 0 <= i < |pushed| ==> pushed[i].order == i
  }

  lemma SameKeyTwice(e: Encoding, pushed: seq<Rec>, sorted: seq<Rec>)
    requires TotalOrder(e) && Spoolable(e, sorted) && InTurn(pushed) && multiset(sorted) == multiset(pushed)
    requires exists i, j :: 0 <= i < j < |sorted| && e.compare(sorted[i].key, sorted[j].key) == Equal
    ensures Repeats(pushed)
  {
    var i, j :| 0 <= i < j < |sorted| && e.compare(sorted[i].key, sorted[j].key) == Equal;
    SameOrders(pushed, sorted, i, j);
    var m := PushedAs(pushed, sorted, i);
    var n := PushedAs(pushed, sorted, j);
    assert pushed[m].key == pushed[n].key;
  }

  lemma PushedAs(pushed: seq<Rec>, sorted: seq<Rec>, i: nat) returns (k: nat)
    requires multiset(sorted) == multiset(pushed) && i < |sorted|
    ensures k < |pushed| && pushed[k] == sorted[i]
  {
    assert sorted[i] in multiset(pushed);
    k :| 0 <= k < |pushed| && pushed[k] == sorted[i];
  }

  /** Sorts the rows that were appended. */
  method SortRows(spool: RecordSpool) returns (r: Result<seq<Entry>>)
    requires spool.Valid()
    modifies spool
    ensures r.Ok? ==>
              old(spool.spoiled).None? && RowsFrom(spool.e, old(spool.pushed), r.value) && Ascends(spool.e, r.value)
    ensures r.Ok? ==> |r.value| <= U64_MAX + 1
    ensures r.Ok? ==> forall i :: 0 <= i < |r.value| ==> spool.e.wellFormed(r.value[i].key)
    ensures r.Err? ==> old(spool.spoiled).Some? || spool.passes == Left(0) || Repeats(old(spool.pushed))
  {
    ghost var pushed := spool.pushed;
    assert spool.spoiled.None? ==> Spoolable(spool.e, pushed) && InTurn(pushed);
    var sorted := spool.IntoSorted();
    if sorted.Err? {
      return Err(sorted.kind);
    }
    InOrderSorts(spool.e, pushed);
    r := DistinctRows(spool.e, sorted.value);
    if r.Err? {
      SameKeyTwice(spool.e, pushed, sorted.value);
    }
    forall i | r.Ok? && 0 <= i < |r.value|
      ensures spool.e.wellFormed(r.value[i].key)
    {
      assert sorted.value[i] in multiset(sorted.value);
      assert sorted.value[i] in multiset(pushed);
    }
  }

  ghost predicate ShortKeys(keyOf: KeyFn) {
    forall k, v :: keyOf(k, v).Ok? ==> |keyOf(k, v).value| < 0x1_0000_0000
  }

  /** Writes the rows as a tree. The references say where their values are. */
  method WriteRows(rows: seq<Entry>, extra: nat -> nat, writer: TreeWriter, ghost maxDepth: nat)
    returns (r: Result<nat>, ghost s: Shape)
    requires writer.Valid() && writer.pushed == [] && Pushable(writer.c, rows)
    modifies writer
    ensures r.Ok? ==> HoldsTable(writer.c, writer.draft.sink, r.value, maxDepth, s, rows)
    ensures r.Ok? ==> RefsLead(writer.draft.sink, writer.draft.refs, rows)
    ensures r.Ok? ==> TreeWriting.Written(writer.draft.sink, writer.book.pages) && |writer.draft.sink| <= PAGE_LIMIT
    ensures r.Err? && writer.c.fits ==> AnyTooLong(rows) || NoRoom(writer.draft.sink)
  {
    r, s := WriteTree(rows, extra, writer, maxDepth);
  }

  predicate IndexKeysFit(c: Config, keys: seq<Key>) {
    forall i :: 0 <= i < |keys| ==> CheckKeyFits(c.pageSize, c.layout, |keys[i]| + RID_LEN).Ok?
  }

  ghost predicate LongIndexKeys(keys: seq<Key>) {
    exists i :: 0 <= i < |keys| && |keys[i]| + RID_LEN > 0xFFFF
  }

  lemma RecordsFit(e: Encoding, c: Config, keys: seq<Key>, refs: seq<PageRef>)
    requires TotalOrder(e) && ValidKeysAreReadable(e) && |keys| == |refs| <= U64_MAX + 1
    requires forall i :: 0 <= i < |keys| ==> e.wellFormed(keys[i]) && |keys[i]| < 0x1_0000_0000
    requires c.fits ==> IndexKeysFit(c, keys)
    ensures KeysFit(c, InOrder(e, IndexRecords(keys, refs)))
    ensures LongKeys(InOrder(e, IndexRecords(keys, refs))) ==> LongIndexKeys(keys)
  {
    var rs := InOrder(e, IndexRecords(keys, refs));
    forall i | 0 <= i < |rs|
      ensures rs[i].order < |keys| && rs[i].key == keys[rs[i].order]
    {
      IsOneOf(e, keys, refs, i);
    }
  }

  /** The index records in order. */
  method SortRecords(spool: RecordSpool, keys: seq<Key>, refs: seq<PageRef>, full: nat -> bool)
    returns (r: Result<seq<Rec>>)
    requires spool.Valid() && spool.spoiled.None? && spool.pushed == []
    requires |keys| == |refs| <= U64_MAX + 1 && forall i :: 0 <= i < |keys| ==> |keys[i]| < 0x1_0000_0000
    modifies spool
    ensures r.Err? ==> spool.passes == Left(0) || Malformed(spool.e, keys)
    ensures r.Ok? ==> r.value == InOrder(spool.e, IndexRecords(keys, refs)) && Indexable(spool.e, r.value)
    ensures r.Ok? ==> forall i :: 0 <= i < |keys| ==> spool.e.wellFormed(keys[i])
    ensures TotalOrder(spool.e) && ValidKeysAreReadable(spool.e)
  {
    var spooled := SpoolRecords(spool, keys, refs, full);
    if spooled.Err? {
      return Err(spooled.kind);
    }
    r := spool.IntoSorted();
    if r.Ok? {
      RecordsAreIndexable(spool.e, keys, refs);
    }
  }

  /** Builds the index from the keys and references of the rows, behind what is in the file. */
  method WriteIndex(e: Encoding, spool: RecordSpool, keys: seq<Key>, refs: seq<PageRef>, full: nat -> bool,
                    writer: TreeWriter, ghost maxDepth: nat)
    returns (r: Result<nat>, ghost s: Shape)
    requires spool.Valid() && spool.spoiled.None? && spool.pushed == [] && spool.e == e
    requires writer.Valid() && writer.pushed == [] && writer.c.enc == Composite(e)
    requires writer.c.fits ==> IndexKeysFit(writer.c, keys)
    requires |keys| == |refs| <= U64_MAX + 1 && forall i :: 0 <= i < |keys| ==> |keys[i]| < 0x1_0000_0000
    modifies spool, writer
    ensures r.Err? && writer.c.fits ==>
              || spool.passes == Left(0) || Malformed(e, keys)
              || !RidsFit(e, InOrder(e, IndexRecords(keys, refs))) || LongIndexKeys(keys) || NoRoom(writer.draft.sink)
    ensures r.Ok? && |s.levels| <= maxDepth ==>
              Indexes(ReadTree(writer.c, writer.draft.sink, r.value, maxDepth), s, e,
                      InOrder(e, IndexRecords(keys, refs)))
    ensures r.Ok? ==> forall i :: 0 <= i < |keys| ==> e.wellFormed(keys[i])
    ensures r.Ok? ==>
              TreeWriting.Written(writer.draft.sink, writer.book.pages) && KeepsPages(writer.book.pages, writer.before)
  {
    s := Shape(false, []);
    var sorted := SortRecords(spool, keys, refs, full);
    if sorted.Err? {
      return Err(sorted.kind), s;
    }
    RecordsFit(e, writer.c, keys, refs);
    r, s := BuildIndexTree(e, sorted.value, writer, maxDepth);
  }

  /** What a table and its index are to their readers. */
  ghost predicate TableBuilt(c: Config, ic: Config, e: Encoding, sink: Sink, root: nat, indexRoot: nat, maxDepth: nat,
                             s: Shape, si: Shape, rows: seq<Entry>, keys: seq<Key>, refs: seq<PageRef>) {
    && HoldsTable(c, sink, root, maxDepth, s, rows)
    && RefsLead(sink, refs, rows) && |keys| == |refs| <= U64_MAX + 1
    && TotalOrder(e) && ValidKeysAreReadable(e)
    && (forall i :: 0 <= i < |keys| ==> e.wellFormed(keys[i]) && |keys[i]| < 0x1_0000_0000)
    && (|si.levels| <= maxDepth ==> Indexes(ReadTree(ic, sink, indexRoot, maxDepth), si, e,
                                            InOrder(e, IndexRecords(keys, refs))))
  }

  /** What can be wrong with the rows appended: a key twice, a key or value that is too long, or one that has
      no index key. */
  ghost predicate RowsFail(c: Config, pushed: seq<Rec>, keyOf: KeyFn) {
    || Repeats(pushed) || !c.fits
    || exists i :: 0 <= i < |pushed| &&
                   (keyOf(pushed[i].key, pushed[i].value).Err? || TooLong(pushed[i].key, pushed[i].value))
  }

  lemma NoIndexKey(c: Config, keyOf: KeyFn, pushed: seq<Rec>, rows: seq<Entry>)
    requires TotalOrder(c.enc) && Spoolable(c.enc, pushed) && RowsFrom(c.enc, pushed, rows)
    requires exists i :: 0 <= i < |rows| && keyOf(rows[i].key, rows[i].value).Err?
    ensures RowsFail(c, pushed, keyOf)
  {
    var i :| 0 <= i < |rows| && keyOf(rows[i].key, rows[i].value).Err?;
    InOrderSorts(c.enc, pushed);
    var k := PushedAs(pushed, InOrder(c.enc, pushed), i);
  }

  lemma LongRow(c: Config, keyOf: KeyFn, pushed: seq<Rec>, rows: seq<Entry>)
    requires TotalOrder(c.enc) && Spoolable(c.enc, pushed) && RowsFrom(c.enc, pushed, rows) && AnyTooLong(rows)
    ensures RowsFail(c, pushed, keyOf)
  {
    var i :| 0 <= i < |rows| && TooLong(rows[i].key, rows[i].value);
    InOrderSorts(c.enc, pushed);
    var k := PushedAs(pushed, InOrder(c.enc, pushed), i);
  }

  /** What can be wrong with the index keys: one that is none, one that is too long for a page, or too many
      rows with the same. */
  ghost predicate IndexFails(e: Encoding, c: Config, keys: seq<Key>, refs: seq<PageRef>) {
    || Malformed(e, keys) || !IndexKeysFit(c, keys) || LongIndexKeys(keys)
    || (|keys| == |refs| && !RidsFit(e, InOrder(e, IndexRecords(keys, refs))))
  }

  /** Sorts the rows, derives their index keys, and writes the rows as a tree. */
  method BuildPrimary(spool: RecordSpool, c: Config, keyOf: KeyFn, extra: nat -> nat, extraBudget: nat,
                      ghost maxDepth: nat)
    returns (r: Result<nat>, sink: Sink, keys: seq<Key>, refs: seq<PageRef>, ghost s: Shape, ghost rows: seq<Entry>,
             ghost pages: seq<Page>)
    requires spool.Valid() && ConfigOk(c) && c.enc == spool.e && KeysAllFit(c, spool.pushed)
    modifies spool
    ensures r.Ok? ==> RowsFrom(c.enc, old(spool.pushed), rows) && KeysOf(keyOf, rows, keys) && |rows| <= U64_MAX + 1
    ensures r.Ok? ==> HoldsTable(c, sink, r.value, maxDepth, s, rows) && RefsLead(sink, refs, rows)
    ensures r.Ok? ==> TreeWriting.Written(sink, pages) && |sink| <= PAGE_LIMIT
    ensures r.Err? ==>
              || old(spool.spoiled).Some? || spool.passes == Left(0)
              || RowsFail(c, old(spool.pushed), keyOf) || NoRoom(sink)
  {
    sink, keys, refs, s, rows, pages := [], [], [], Shape(false, []), [], [];
    ghost var pushed := spool.pushed;
    var sorted := SortRows(spool);
    if sorted.Err? {
      return Err(sorted.kind), sink, keys, refs, s, rows, pages;
    }
    rows := sorted.value;
    var derived := IndexKeys(keyOf, sorted.value);
    if derived.Err? {
      NoIndexKey(c, keyOf, pushed, rows);
      return Err(derived.kind), sink, keys, refs, s, rows, pages;
    }
    keys := derived.value;
    RowsPushable(c, pushed, rows);
    var writer := new TreeWriter(c, [], extraBudget, []);
    r, s := WriteRows(sorted.value, extra, writer, maxDepth);
    if AnyTooLong(rows) {
      LongRow(c, keyOf, pushed, rows);
    }
    sink, refs, pages := writer.draft.sink, writer.draft.refs, writer.book.pages;
  }

  /** Builds a table with an index that is not unique: sorts the rows, writes them as a tree, and writes
      the index over the places their values went to. */
  method BuildTable(spool: RecordSpool, c: Config, ic: Config, e: Encoding, keyOf: KeyFn, extra: nat -> nat,
                    full: nat -> bool,
                    passes: Passes, extraBudget: nat, ghost maxDepth: nat)
    returns (r: Result<(nat, nat)>, sink: Sink, ghost s: Shape, ghost si: Shape, ghost rows: seq<Entry>,
             ghost keys: seq<Key>, ghost refs: seq<PageRef>, passes': Passes)
    requires spool.Valid() && ConfigOk(c) && c.enc == spool.e && KeysAllFit(c, spool.pushed)
    requires ConfigOk(ic) && ic.enc == Composite(e)
    requires TotalOrder(e) && ValidKeysAreReadable(e) && ShortKeys(keyOf)
    modifies spool
    ensures r.Ok? ==> RowsFrom(c.enc, old(spool.pushed), rows) && KeysOf(keyOf, rows, keys)
    ensures r.Ok? ==> TableBuilt(c, ic, e, sink, r.value.0, r.value.1, maxDepth, s, si, rows, keys, refs)
    ensures r.Err? ==>
              || old(spool.spoiled).Some? || spool.passes == Left(0) || passes' == Left(0)
              || RowsFail(c, old(spool.pushed), keyOf) || NoRoom(sink)
              || (KeysOf(keyOf, rows, keys) && IndexFails(e, ic, keys, refs))
  {
    passes' := passes;
    si := Shape(false, []);
    var root, primary, derived, places;
    ghost var pages;
    root, primary, derived, places, s, rows, pages := BuildPrimary(spool, c, keyOf, extra, extraBudget, maxDepth);
    sink, keys, refs := primary, derived, places;
    if root.Err? {
      return Err(root.kind), sink, s, si, rows, keys, refs, passes';
    }
    AllShort(keyOf, rows, keys);
    var indexRoot;
    indexRoot, sink, passes', si := IndexBehind(e, ic, primary, passes, derived, places, full, maxDepth, pages);
    if indexRoot.Err? {
      return Err(indexRoot.kind), sink, s, si, rows, keys, refs, passes';
    }
    TableStays(c, primary, sink, root.value, maxDepth, s, rows, refs);
    r := Ok((root.value, indexRoot.value));
  }

  /** Writes the index behind the pages of the table. */
  method IndexBehind(e: Encoding, ic: Config, primary: Sink, passes: Passes, keys: seq<Key>, refs: seq<PageRef>,
                     full: nat -> bool,
                     ghost maxDepth: nat, ghost pages: seq<Page>)
    returns (r: Result<nat>, sink: Sink, passes': Passes, ghost s: Shape)
    requires ConfigOk(ic) && ic.enc == Composite(e) && TotalOrder(e) && ValidKeysAreReadable(e)
    requires TreeWriting.Written(primary, pages) && |primary| <= PAGE_LIMIT
    requires |keys| == |refs| <= U64_MAX + 1 && forall i :: 0 <= i < |keys| ==> |keys[i]| < 0x1_0000_0000
    ensures r.Ok? ==> Grows(primary, sink) && forall i :: 0 <= i < |keys| ==> e.wellFormed(keys[i])
    ensures r.Ok? && |s.levels| <= maxDepth ==>
              Indexes(ReadTree(ic, sink, r.value, maxDepth), s, e, InOrder(e, IndexRecords(keys, refs)))
    ensures r.Err? ==> passes' == Left(0) || IndexFails(e, ic, keys, refs) || NoRoom(sink)
  {
    var spool := new RecordSpool(e, passes);
    var writer := new TreeWriter(ic.(fits := IndexKeysFit(ic, keys)), primary, 0, pages);
    r, s := WriteIndex(e, spool, keys, refs, full, writer, maxDepth);
    sink, passes' := writer.draft.sink, spool.passes;
    if r.Ok? {
      KeptPagesGrow(primary, pages, sink, writer.book.pages);
    }
  }

  lemma AllShort(keyOf: KeyFn, rows: seq<Entry>, keys: seq<Key>)
    requires ShortKeys(keyOf) && KeysOf(keyOf, rows, keys)
    ensures forall i :: 0 <= i < |keys| ==> |keys[i]| < 0x1_0000_0000
  {
    forall i | 0 <= i < |keys|
      ensures |keys[i]| < 0x1_0000_0000
    {
      assert keyOf(rows[i].key, rows[i].value) == Ok(keys[i]);
    }
  }

  /** Every key was found to fit when it was appended. */
  ghost predicate KeysAllFit(c: Config, pushed: seq<Rec>) {
    c.fits ==> forall i :: 0 <= i < |pushed| ==> CheckKeyFits(c.pageSize, c.layout, |pushed[i].key|).Ok?
  }

  lemma RowsPushable(c: Config, pushed: seq<Rec>, rows: seq<Entry>)
    requires RowsFrom(c.enc, pushed, rows) && Ascends(c.enc, rows) && TotalOrder(c.enc) && Spoolable(c.enc, pushed)
    requires forall i :: 0 <= i < |rows| ==> c.enc.wellFormed(rows[i].key)
    requires KeysAllFit(c, pushed)
    ensures Pushable(c, rows)
  {
    InOrderSorts(c.enc, pushed);
    forall i | c.fits && 0 <= i < |rows|
      ensures CheckKeyFits(c.pageSize, c.layout, |rows[i].key|).Ok?
    {
      assert InOrder(c.enc, pushed)[i] in multiset(InOrder(c.enc, pushed));
      assert InOrder(c.enc, pushed)[i] in multiset(pushed);
    }
  }

  // ---------------------------------------------------------------- reading through the index

  /** What a scan of the index should hand out: for the records found, the key and the value of their row. */
  ghost predicate Answers(found: seq<Rec>, rows: seq<Entry>, keys: seq<Key>, out: seq<Entry>) {
    && |out| == |found| && |keys| == |rows|
    && forall i :: 0 <= i < |out| ==>
         found[i].order < |rows| && out[i] == Entry(keys[found[i].order], rows[found[i].order].value)
  }

  lemma {:induction false} MatchingIsOneOf(e: Encoding, lower: Bound, upper: Bound, rs: seq<Rec>, i: nat)
    requires i < |Matching(e, lower, upper, rs)|
    ensures Matching(e, lower, upper, rs)[i] in rs
  {
    var n := |rs| - 1;
    if i < |Matching(e, lower, upper, rs[..n])| {
      MatchingIsOneOf(e, lower, upper, rs[..n], i);
    }
  }

  /** A whole scan of an index, over any bounds, hands out exactly the rows whose index key is inside them:
      each with its index key and its value, in the order of the index keys and, where those are the same,
      of the primary keys. */
  lemma ScanAnswers(c: Config, ic: Config, e: Encoding, sink: Sink, root: nat, indexRoot: nat, maxDepth: nat,
                    s: Shape, si: Shape,
                    rows: seq<Entry>, keys: seq<Key>, refs: seq<PageRef>, lower: Bound, upper: Bound, validate: bool,
                    out: seq<Entry>)
    requires TableBuilt(c, ic, e, sink, root, indexRoot, maxDepth, s, si, rows, keys, refs)
             && 0 < |si.levels| <= maxDepth
    requires BoundReadable(e, lower) && BoundReadable(e, upper) && TreeRange(e, false, lower, upper, validate).Ok?
    requires var t, range := ReadTree(ic, sink, indexRoot, maxDepth), TreeRange(e, false, lower, upper, validate).value;
             AllResolve(sink, false, Selected(t, si, Ascend, range), out)
    ensures Answers(Matching(e, lower, upper, InOrder(e, IndexRecords(keys, refs))), rows, keys, out)
  {
    var rs := InOrder(e, IndexRecords(keys, refs));
    var t, range := ReadTree(ic, sink, indexRoot, maxDepth), TreeRange(e, false, lower, upper, validate).value;
    IndexAnswers(t, si, e, rs, lower, upper, validate);
    var found := Matching(e, lower, upper, rs);
    forall i | 0 <= i < |out|
      ensures found[i].order < |rows| && out[i] == Entry(keys[found[i].order], rows[found[i].order].value)
    {
      MatchingIsOneOf(e, lower, upper, rs, i);
      RowAnswers(e, sink, rows, keys, refs, found[i], Selected(t, si, Ascend, range)[i], out[i]);
    }
  }

  lemma RowAnswers(e: Encoding, sink: Sink, rows: seq<Entry>, keys: seq<Key>, refs: seq<PageRef>, r: Rec, row: Entry,
                   out: Entry)
    requires RefsLead(sink, refs, rows) && |keys| == |refs| <= U64_MAX + 1 && TotalOrder(e) && ValidKeysAreReadable(e)
    requires forall i :: 0 <= i < |keys| ==> e.wellFormed(keys[i]) && |keys[i]| < 0x1_0000_0000
    requires r in InOrder(e, IndexRecords(keys, refs)) && StandsFor(row, r) && Resolves(sink, false, row, out)
    ensures r.order < |rows| && out == Entry(keys[r.order], rows[r.order].value)
  {
    var i :| 0 <= i < |InOrder(e, IndexRecords(keys, refs))| && InOrder(e, IndexRecords(keys, refs))[i] == r;
    IsOneOf(e, keys, refs, i);
    RefLeadsTo(sink, refs[r.order], rows[r.order].value);
  }

  /** And every row it should hand out can be followed, once its page can be loaded. */
  lemma ScanResolves(c: Config, ic: Config, e: Encoding, sink: Sink, root: nat, indexRoot: nat, maxDepth: nat,
                     s: Shape, si: Shape,
                     rows: seq<Entry>, keys: seq<Key>, refs: seq<PageRef>, lower: Bound, upper: Bound,
                     validate: bool, loads: set<nat>)
    requires TableBuilt(c, ic, e, sink, root, indexRoot, maxDepth, s, si, rows, keys, refs)
             && 0 < |si.levels| <= maxDepth
    requires BoundReadable(e, lower) && BoundReadable(e, upper) && TreeRange(e, false, lower, upper, validate).Ok?
    requires forall o :: 0 <= o < |sink| ==> o in loads
    ensures var t, range := ReadTree(ic, sink, indexRoot, maxDepth), TreeRange(e, false, lower, upper, validate).value;
            Resolvable(sink, loads, false, Selected(t, si, Ascend, range))
  {
    var rs := InOrder(e, IndexRecords(keys, refs));
    var t, range := ReadTree(ic, sink, indexRoot, maxDepth), TreeRange(e, false, lower, upper, validate).value;
    IndexAnswers(t, si, e, rs, lower, upper, validate);
    var selected, found := Selected(t, si, Ascend, range), Matching(e, lower, upper, rs);
    forall i | 0 <= i < |selected|
      ensures Follow(sink, loads, true, false, selected[i]).Ok?
    {
      MatchingIsOneOf(e, lower, upper, rs, i);
      RowFollows(e, sink, rows, keys, refs, found[i], selected[i], loads);
    }
  }

  lemma RowFollows(e: Encoding, sink: Sink, rows: seq<Entry>, keys: seq<Key>, refs: seq<PageRef>, r: Rec, row: Entry,
                   loads: set<nat>)
    requires RefsLead(sink, refs, rows) && |keys| == |refs| <= U64_MAX + 1 && TotalOrder(e) && ValidKeysAreReadable(e)
    requires forall i :: 0 <= i < |keys| ==> e.wellFormed(keys[i]) && |keys[i]| < 0x1_0000_0000
    requires r in InOrder(e, IndexRecords(keys, refs)) && StandsFor(row, r)
             && forall o :: 0 <= o < |sink| ==> o in loads
    ensures Follow(sink, loads, true, false, row).Ok?
  {
    var i :| 0 <= i < |InOrder(e, IndexRecords(keys, refs))| && InOrder(e, IndexRecords(keys, refs))[i] == r;
    IsOneOf(e, keys, refs, i);
    RefReadsBack(refs[r.order]);
    RefLeadsTo(sink, refs[r.order], rows[r.order].value);
  }
}
