/** What the builder writes, the verification pass finds nothing wrong with. */
module BuiltFiles {
  import opened Base
  import opened Composites
  import opened Encodings
  import opened Pages
  import opened Trees
  import opened Searching
  import opened Sequences
  import opened Cursors
  import opened PageBuilding
  import opened TreeWriting
  import opened TreeBuilding
  import opened Records
  import opened References
  import opened Merging
  import opened Indexing
  import opened TableBuilding
  import opened Verifying

  /** Every row can be read back, and there is a buffer for its key. */
  ghost predicate FitRows(rows: seq<Entry>, buffer: nat) {
    forall i :: 0 <= i < |rows| ==> Legible(rows[i]) && |rows[i].key| <= buffer
  }

  /** The pass gets over a finished tree whose rows can all be read back. */
  lemma FinishedPasses(c: Config, sink: Sink, root: nat, maxDepth: nat, s: Shape, rows: seq<Entry>, avail: set<nat>,
                       buffer: nat)
    requires HoldsTable(c, sink, root, maxDepth, s, rows) && |s.levels| <= maxDepth && FitRows(rows, buffer)
    requires AllAvailable(ReadTree(c, sink, root, maxDepth), avail)
    ensures Passes(ReadTree(c, sink, root, maxDepth), avail, buffer, s)
  {
    var t := ReadTree(c, sink, root, maxDepth);
    forall at | 0 <= at < |Flat(t, s)|
      ensures |Flat(t, s)[at].key| <= buffer
    {
      assert Flat(t, s)[at].key == rows[at].key;
    }
    WellFormedPasses(t, s, avail, buffer);
  }

  lemma FinishedIsClean(c: Config, sink: Sink, root: nat, maxDepth: nat, s: Shape, refs: seq<PageRef>,
                        rows: seq<Entry>, avail: set<nat>, buffer: nat)
    requires Finished(c, sink, root, maxDepth, s, refs, rows) && c.fits && maxDepth >= 34 && FitRows(rows, buffer)
    requires AllAvailable(ReadTree(c, sink, root, maxDepth), avail)
    ensures Passes(ReadTree(c, sink, root, maxDepth), avail, buffer, s)
  {
    FinishedPasses(c, sink, root, maxDepth, s, rows, avail, buffer);
  }

  /** Finishes a tree and verifies it: with keys that fit and rows that can be read back, the report is clean. */
  method FinishAndVerify(writer: TreeWriter, maxDepth: nat, buffer: nat) returns (r: Result<nat>, clean: bool)
    requires writer.Valid()
    modifies writer
    ensures r.Ok? && writer.c.fits && maxDepth >= 34 && FitRows(writer.pushed, buffer) ==> clean
  {
    ghost var s;
    r, s := writer.Finish(maxDepth);
    if r.Err? {
      return r, false;
    }
    clean := VerifyBuilt(writer.c, writer.draft.sink, r.value, maxDepth, buffer, s, writer.draft.refs, writer.pushed);
  }

  method VerifyBuilt(c: Config, sink: Sink, root: nat, maxDepth: nat, buffer: nat, ghost s: Shape,
                     ghost refs: seq<PageRef>, ghost rows: seq<Entry>)
    returns (clean: bool)
    requires Finished(c, sink, root, maxDepth, s, refs, rows)
    ensures c.fits && maxDepth >= 34 && FitRows(rows, buffer) ==> clean
  {
    var t := ReadTree(c, sink, root, maxDepth);
    if c.fits && maxDepth >= 34 && FitRows(rows, buffer) {
      FinishedIsClean(c, sink, root, maxDepth, s, refs, rows, UpTo(|t.file|), buffer);
    }
    clean := IsClean(t, buffer, s);
  }

  /** Runs the pass over a tree all pages of which can be loaded. */
  method IsClean(t: Tree, buffer: nat, ghost s: Shape) returns (clean: bool)
    ensures Passes(t, UpTo(|t.file|), buffer, s) ==> clean
    ensures clean && t.root.Some? ==> exists s' :: Walked(t, s')
  {
    var rep := new Reporter(1, 1);
    var verified;
    ghost var s';
    verified, s' := VerifyTree(t, UpTo(|t.file|), buffer, rep, s);
    clean := verified.Ok? && rep.Clean();
  }

  /** Index keys are the keys of the records and a record id each. */
  ghost predicate ShortRecords(rs: seq<Rec>, buffer: nat) {
    forall i :: 0 <= i < |rs| ==> |rs[i].key| + RID_LEN <= buffer
  }

  lemma IndexPasses(t: Tree, s: Shape, e: Encoding, rs: seq<Rec>, avail: set<nat>, buffer: nat)
    requires Indexes(t, s, e, rs) && ShortRecords(rs, buffer) && AllAvailable(t, avail)
    ensures Passes(t, avail, buffer, s)
  {
    forall at | 0 <= at < |Flat(t, s)|
      ensures |Flat(t, s)[at].key| <= buffer
    {
      RowStandsFor(t, s, e, rs, at);
      ComposeSplit(Flat(t, s)[at].key);
    }
    WellFormedPasses(t, s, avail, buffer);
  }

  lemma ShortInOrder(e: Encoding, rs: seq<Rec>, buffer: nat)
    requires ShortRecords(rs, buffer)
    ensures ShortRecords(InOrder(e, rs), buffer)
  {
    InOrderKeeps(e, rs);
    var sorted := InOrder(e, rs);
    forall i | 0 <= i < |sorted|
      ensures |sorted[i].key| + RID_LEN <= buffer
    {
      assert sorted[i] in multiset(sorted);
      assert sorted[i] in rs;
    }
  }

  /** Both trees of a table that was built are clean: the rows, and the index over them. */
  lemma TableIsClean(c: Config, ic: Config, e: Encoding, sink: Sink, root: nat, indexRoot: nat, maxDepth: nat, s: Shape,
                     si: Shape, rows: seq<Entry>, keys: seq<Key>, refs: seq<PageRef>, avail: set<nat>, buffer: nat)
    requires TableBuilt(c, ic, e, sink, root, indexRoot, maxDepth, s, si, rows, keys, refs)
    requires |s.levels| <= maxDepth && |si.levels| <= maxDepth && FitRows(rows, buffer)
    requires forall i :: 0 <= i < |keys| ==> |keys[i]| + RID_LEN <= buffer
    requires forall o: nat :: o < |sink| ==> o in avail
    ensures Passes(ReadTree(c, sink, root, maxDepth), avail, buffer, s)
    ensures Passes(ReadTree(ic, sink, indexRoot, maxDepth), avail, buffer, si)
  {
    ShortInOrder(e, IndexRecords(keys, refs), buffer);
    FinishedPasses(c, sink, root, maxDepth, s, rows, avail, buffer);
    IndexPasses(ReadTree(ic, sink, indexRoot, maxDepth), si, e, InOrder(e, IndexRecords(keys, refs)), avail, buffer);
  }
}
