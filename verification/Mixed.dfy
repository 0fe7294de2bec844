/**
 Where a clean report is not enough. The format lets one page of a tree store its keys and the next
 leave them out. For an encoding whose digests do not determine a key, such a tree can pass every check
 of the verification pass and still not be searched right. This is the tree, and one beside it that looks
 as bad and is not.
 */
module MixedLayouts {
  import opened Base
  import opened Encodings
  import opened KeyEncodings
  import opened Composites
  import opened Pages
  import opened Trees
  import opened Searching
  import opened Sequences
  import opened Verifying
  import opened Reaching

  const STORED: Layout := Layout(false, true, false)
  const OMITTED: Layout := Layout(false, true, true)

  /** A root that stores its keys, over a leaf that does too and one that does not. */
  function MixedTree(e: Encoding, a: Key, b: Key): Tree {
    var root := RawPage(Internal, STORED, [a, b], [e.digest(a), e.digest(b)], [Child(1), Child(2)], None, None, []);
    var left := RawPage(Leaf, STORED, [a], [e.digest(a)], [Inline([])], None, Some(2), []);
    var right := RawPage(Leaf, OMITTED, [[]], [e.digest(b)], [Inline([])], Some(1), None, []);
    Tree([Some(root), Some(left), Some(right)], Some(0), e, 2, true)
  }

  /** Two keys, and between them the key that the digest of the second is rebuilt to. */
  ghost predicate Between(e: Encoding, a: Key, c: Key, b: Key) {
    && Lawful(e) && !e.exact && e.rebuilds
    && e.wellFormed(a) && e.readable(a) && e.accepts(a, e.digest(a))
    && e.wellFormed(b) && e.readable(b) && e.accepts(b, e.digest(b))
    && e.rebuild(e.digest(b)) == Some(c)
    && e.compare(a, c) == Less && e.compare(c, b) == Less
  }

  lemma MixedPages(e: Encoding, a: Key, c: Key, b: Key)
    requires Between(e, a, c, b)
    ensures var t := MixedTree(e, a, b);
            && PageOk(e, At(t, 0)) && PageOk(e, At(t, 1)) && PageOk(e, At(t, 2))
            && SeparatorFits(e, SeparatorOf(At(t, 0), 0), At(t, 1))
               && SeparatorFits(e, SeparatorOf(At(t, 0), 1), At(t, 2))
            && Keys(e, At(t, 0)) == [a, b] && Keys(e, At(t, 1)) == [a] && Keys(e, At(t, 2)) == [c]
  {
  }

  /** What the pass goes over: a root, and two leaves. */
  ghost function MixedShape(): Shape {
    Shape(false, [[1, 2], [0]])
  }

  /** What the pass reads off a root that stores two keys. */
  lemma RootIs(t: Tree, x: Key, y: Key)
    requires var p := At(t, 0);
             p.kind == Internal && p.layout == STORED && p.keys == [x, y] && p.payloads == [Child(1), Child(2)]
    ensures Rows(t, [0]) == [Row(x, Child(1)), Row(y, Child(2))]
    ensures Edges(t, [0]) == [Edge(1, SepKey(x)), Edge(2, SepKey(y))]
    ensures Marks(t, [0]) == [Mark(x, false), Mark(y, false)]
  {
    var root := At(t, 0);
    assert PageRows(t.enc, root) == [Row(x, Child(1)), Row(y, Child(2))];
    assert PageEdges(root) == [Edge(1, SepKey(x)), Edge(2, SepKey(y))];
    assert PageMarks(t.enc, root) == [Mark(x, false), Mark(y, false)];
    OnePart(Parts(t, [0]));
    OnePart(EdgeParts(t, [0]));
    OnePart(MarkParts(t, [0]));
  }

  /** And off two leaves of one key each. */
  lemma LeavesAre(t: Tree, x: Mark, y: Mark)
    requires PageMarks(t.enc, At(t, 1)) == [x] && PageMarks(t.enc, At(t, 2)) == [y]
    ensures Marks(t, [1, 2]) == [x, y]
  {
    OnePart(MarkParts(t, [1, 2])[..1]);
  }

  lemma OnePart<T>(parts: seq<seq<T>>)
    requires |parts| == 1
    ensures Cat(parts) == parts[0]
  {
    assert parts[..0] == [];
  }

  lemma MixedMarks(e: Encoding, a: Key, c: Key, b: Key)
    requires Between(e, a, c, b)
    ensures Marks(MixedTree(e, a, b), [1, 2]) == [Mark(a, false), Mark(c, true)]
  {
    var t := MixedTree(e, a, b);
    assert PageMarks(e, At(t, 1)) == [Mark(a, false)] && PageMarks(e, At(t, 2)) == [Mark(c, true)];
    LeavesAre(t, Mark(a, false), Mark(c, true));
  }

  lemma MixedLevels(e: Encoding, a: Key, c: Key, b: Key)
    requires Between(e, a, c, b)
    ensures var t := MixedTree(e, a, b);
            LevelClean(t, [0], Internal) && LevelClean(t, [1, 2], Leaf) && Covers(t, [0], [1, 2])
  {
    var t := MixedTree(e, a, b);
    MixedPages(e, a, c, b);
    RootIs(t, a, b);
    MixedMarks(e, a, c, b);
    assert e.compare(a, b) == Less;
    assert EdgeOk(t, Edges(t, [0]), [1, 2], 0) && EdgeOk(t, Edges(t, [0]), [1, 2], 1);
  }

  /** Every check passes: the pages, the links both ways, the separator of each child, and each key against
      the one before it. */
  lemma MixedIsWalked(e: Encoding, a: Key, c: Key, b: Key)
    requires Between(e, a, c, b)
    ensures Walked(MixedTree(e, a, b), MixedShape())
  {
    var t, levels := MixedTree(e, a, b), MixedShape().levels;
    MixedLevels(e, a, c, b);
    assert levels[1] == [0] && levels[0] == [1, 2] && CoversNext(t, levels, 0);
    assert LeafEntryOk(t, At(t, 1), 0) && LeafEntryOk(t, At(t, 2), 0);
    assert LeafAt(t, [1, 2], 0) && LeafAt(t, [1, 2], 1);
  }

  lemma MixedPasses(e: Encoding, a: Key, c: Key, b: Key, buffer: nat)
    requires Between(e, a, c, b) && |a| <= buffer && |b| <= buffer && |c| <= buffer
    ensures Passes(MixedTree(e, a, b), {0, 1, 2}, buffer, MixedShape())
  {
    var t, levels := MixedTree(e, a, b), MixedShape().levels;
    MixedIsWalked(e, a, c, b);
    RootIs(t, a, b);
    MixedMarks(e, a, c, b);
    assert levels[1] == [0] && levels[0] == [1, 2];
    assert LevelFits(t, buffer, levels, 0) && LevelFits(t, buffer, levels, 1);
  }

  /** A lookup of the key on the second leaf goes to the first leaf, which does not have it. */
  lemma MixedMisses(e: Encoding, a: Key, c: Key, b: Key)
    requires Between(e, a, c, b)
    ensures var t := MixedTree(e, a, b);
            && Walked(t, MixedShape()) && KeyedAbove(t, MixedShape()) && LeafKeys(t, MixedShape())[1] == [c]
            && !Finds(t, MixedShape(), c)
  {
    var t, s := MixedTree(e, a, b), MixedShape();
    MixedIsWalked(e, a, c, b);
    MixedPages(e, a, c, b);
    RootIs(t, a, b);
    assert s.levels[1] == [0] && s.levels[0] == [1, 2];
    assert LevelKeys(t, Way(s), 1) == [a, b];
    var left := At(t, 1);
    assert Sees(e, false, Keys(e, left)[0], c) == Less;
    CutIs(e, false, EqualTo, Keys(e, left), c, 1);
    assert PageAnswer(e, left, EqualTo, c) == None;
  }

  /** Runs the pass over the tree, and looks the key up: a clean report, and no entry. */
  method ReportsCleanAndMisses(e: Encoding, a: Key, c: Key, b: Key, buffer: nat)
    returns (clean: bool, found: Result<Option<Spot>>)
    requires Between(e, a, c, b) && |a| <= buffer && |b| <= buffer && |c| <= buffer
    ensures clean && found == Ok(None)
  {
    var t := MixedTree(e, a, b);
    var rep := new Reporter(1, 1);
    MixedPasses(e, a, c, b, buffer);
    var r;
    ghost var s;
    r, s := VerifyTree(t, {0, 1, 2}, buffer, rep, MixedShape());
    clean := r.Ok? && rep.Clean();
    MixedMisses(e, a, c, b);
    found := Lookup(t, {0, 1, 2}, c, MixedShape());
  }

  // ---------------------------------------------------------------- a run across leaves

  /** A root that stores its keys, over two leaves that leave out the same one. */
  function RunTree(e: Encoding, c: Key, b: Key): Tree {
    var d := e.digest(b);
    var root := RawPage(Internal, STORED, [c, b], [d, d], [Child(1), Child(2)], None, None, []);
    var left := RawPage(Leaf, OMITTED, [[]], [d], [Inline([])], None, Some(2), []);
    var right := RawPage(Leaf, OMITTED, [[]], [d], [Inline([])], Some(1), None, []);
    Tree([Some(root), Some(left), Some(right)], Some(0), e, 2, true)
  }

  ghost predicate HasRun(e: Encoding, a: Key, c: Key, b: Key) {
    Between(e, a, c, b) && e.wellFormed(c) && e.accepts(c, e.digest(c))
  }

  lemma RunPages(e: Encoding, a: Key, c: Key, b: Key)
    requires HasRun(e, a, c, b)
    ensures var t := RunTree(e, c, b);
            && PageOk(e, At(t, 0)) && PageOk(e, At(t, 1)) && PageOk(e, At(t, 2))
            && SeparatorFits(e, SeparatorOf(At(t, 0), 0), At(t, 1))
               && SeparatorFits(e, SeparatorOf(At(t, 0), 1), At(t, 2))
            && Keys(e, At(t, 0)) == [c, b] && Keys(e, At(t, 1)) == [c] && Keys(e, At(t, 2)) == [c]
  {
  }

  lemma RunMarks(e: Encoding, a: Key, c: Key, b: Key)
    requires HasRun(e, a, c, b)
    ensures Marks(RunTree(e, c, b), [1, 2]) == [Mark(c, true), Mark(c, true)]
  {
    var t := RunTree(e, c, b);
    assert PageMarks(e, At(t, 1)) == [Mark(c, true)] && PageMarks(e, At(t, 2)) == [Mark(c, true)];
    LeavesAre(t, Mark(c, true), Mark(c, true));
  }

  lemma RunLevels(e: Encoding, a: Key, c: Key, b: Key)
    requires HasRun(e, a, c, b)
    ensures var t := RunTree(e, c, b);
            LevelClean(t, [0], Internal) && LevelClean(t, [1, 2], Leaf) && Covers(t, [0], [1, 2])
  {
    var t := RunTree(e, c, b);
    RunPages(e, a, c, b);
    RootIs(t, c, b);
    RunMarks(e, a, c, b);
    assert EdgeOk(t, Edges(t, [0]), [1, 2], 0) && EdgeOk(t, Edges(t, [0]), [1, 2], 1);
  }

  lemma RunIsWalked(e: Encoding, a: Key, c: Key, b: Key)
    requires HasRun(e, a, c, b)
    ensures Walked(RunTree(e, c, b), MixedShape()) && KeyedAbove(RunTree(e, c, b), MixedShape())
  {
    var t, levels := RunTree(e, c, b), MixedShape().levels;
    RunLevels(e, a, c, b);
    assert levels[1] == [0] && levels[0] == [1, 2] && CoversNext(t, levels, 0);
    assert LeafEntryOk(t, At(t, 1), 0) && LeafEntryOk(t, At(t, 2), 0);
    assert LeafAt(t, [1, 2], 0) && LeafAt(t, [1, 2], 1);
  }

  lemma RunMeets(e: Encoding, c: Key, b: Key, loose: seq<bool>)
    requires |loose| == 2 && e.compare(b, c) == Greater
    ensures AllMeet(e, [c, b], [[c], [c]], loose)
  {
  }

  lemma RunKeys(e: Encoding, a: Key, c: Key, b: Key)
    requires HasRun(e, a, c, b)
    ensures var t, s := RunTree(e, c, b), MixedShape();
            LevelKeys(t, s, 1) == [c, b] && LeafKeys(t, s) == [[c], [c]]
  {
    var t, s := RunTree(e, c, b), MixedShape();
    RunPages(e, a, c, b);
    RootIs(t, c, b);
    assert s.levels[1] == [0] && s.levels[0] == [1, 2];
    assert LeafKeys(t, s)[0] == [c] && LeafKeys(t, s)[1] == [c];
  }

  /** Its second row sorts above the first key of the second leaf too, yet every key is found: the leaf the lookup
      comes to has the key as well. */
  lemma RunIsFound(e: Encoding, a: Key, c: Key, b: Key)
    requires HasRun(e, a, c, b)
    ensures var t, s := RunTree(e, c, b), MixedShape();
            && Walked(t, s) && KeyedAbove(t, s) && EveryKeyFound(t, s)
            && LevelKeys(t, s, 1) == [c, b] && LeafKeys(t, s) == [[c], [c]] && e.compare(b, c) == Greater
  {
    var t, s := RunTree(e, c, b), MixedShape();
    RunIsWalked(e, a, c, b);
    RunKeys(e, a, c, b);
    assert e.compare(b, c) == Greater;
    RunMeets(e, c, b, LooseLeaves(t, s));
    FoundExactly(t, s);
  }

  // ---------------------------------------------------------------- encodings that have such trees

  /** Record ids over any encoding that rebuilds its keys will do. */
  lemma MixedComposite(e: Encoding, x: Key, y: Key, rid: Rid)
    requires Lawful(e) && Lawful(Composite(e)) && e.rebuilds && rid > 0
    requires e.readable(x) && e.wellFormed(x) && e.readable(y) && e.wellFormed(y) && e.compare(x, y) == Less
    requires e.rebuild(e.digest(y)) == Some(y)
    ensures HasRun(Composite(e), Compose(x, 0), Compose(y, 0), Compose(y, rid))
  {
    ComposedIs(e, x, 0);
    ComposedIs(e, y, 0);
    ComposedIs(e, y, rid);
    ComposedCompares(e, x, 0, y, 0);
    ComposedCompares(e, y, 0, y, rid);
    RebuiltIs(e, e.digest(y));
  }

  /** Numbers are such keys. */
  lemma MixedExists()
    ensures exists a, c, b :: HasRun(Composite(IntKeys()), a, c, b)
  {
    BuiltInComposites(None);
    IntKeysLawful();
    var four, five := IntKey(4), IntKey(5);
    IntKeyIs(4);
    IntKeyIs(5);
    IntOrder(four, five);
    MixedComposite(IntKeys(), four, five, 7);
  }

  /** Record ids over an exact encoding are rebuilt to the least key of their digest. */
  lemma CompositeRebuildsLeast(e: Encoding, k: Key)
    requires Lawful(e) && e.exact && Composite(e).readable(k) && Composite(e).rebuild(Composite(e).digest(k)).Some?
    ensures Upto(Composite(e), Composite(e).rebuild(Composite(e).digest(k)).value, k)
  {
    var (source, rid) := Split(k).value;
    var rebuilt := e.rebuild(e.digest(source)).value;
    assert e.compare(rebuilt, source) == Equal;
    SplitComposed(rebuilt, 0);
  }

  /** Such keys keep the simpler rule, if none of them is also a key without a record id. */
  lemma RebuildsLeastOver(e: Encoding)
    requires Lawful(e) && e.exact && forall k :: Composite(e).readable(k) ==> !e.readable(k)
    ensures RebuildsLeast(Composite(e))
  {
    var c := Composite(e);
    forall k | c.readable(k) && c.rebuild(c.digest(k)).Some?
      ensures Upto(c, c.rebuild(c.digest(k)).value, k)
    {
      CompositeRebuildsLeast(e, k);
    }
  }

  lemma NumbersAreShorter(k: Key)
    ensures Composite(IntKeys()).readable(k) ==> !IntKeys().readable(k)
  {
    if Composite(IntKeys()).readable(k) {
      assert |Split(k).value.0| == 8;
      ComposeSplit(k);
    }
  }

  /** Numbers do. */
  lemma NumbersRebuildLeast()
    ensures RebuildsLeast(Composite(IntKeys()))
  {
    IntKeysLawful();
    forall k
      ensures Composite(IntKeys()).readable(k) ==> !IntKeys().readable(k)
    {
      NumbersAreShorter(k);
    }
    RebuildsLeastOver(IntKeys());
  }

  lemma RebuiltIs(e: Encoding, digest: U64)
    requires e.rebuild(digest).Some?
    ensures Composite(e).rebuild(digest) == Some(Compose(e.rebuild(digest).value, 0))
  {
  }
}
