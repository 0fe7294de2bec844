/**
 A tree over the pages of a file, and what makes it well formed: levels of doubly linked pages, each
 level listed, in order, by the entries of the level above.
 */
module Trees {
  import opened Base
  import opened Encodings
  import opened Pages
  import opened Sequences

  /** `file[o]` is the page with ordinal `o`, or `None` where the bytes do not parse. */
  datatype Tree = Tree(
    file: seq<Option<Page>>,
    root: Option<nat>,
    enc: Encoding,
    maxDepth: nat,
    validate: bool)

  /** The levels of a tree, leaves first, and whether its pages are compared by digest alone. */
  datatype Shape = Shape(coarse: bool, levels: seq<seq<nat>>)

  /** An entry of a level: a key and what it leads to. */
  datatype Row = Row(key: Key, payload: Payload)

  function At(t: Tree, o: nat): Page {
    if o < |t.file| && t.file[o].Some? then t.file[o].value else EMPTY_LEAF
  }

  ghost function Count(t: Tree, o: nat): nat {
    |At(t, o).keys|
  }

  ghost function PageRows(e: Encoding, p: Page): (rs: seq<Row>)
    ensures |rs| == |p.keys|
    ensures forall i {:trigger rs[i]} :: 0 <= i < |rs| ==> rs[i] == Row(KeyAt(e, p, i), p.payloads[i])
  {
    seq(|p.keys|, i requires 0 <= i < |p.keys| => Row(KeyAt(e, p, i), p.payloads[i]))
  }

  ghost function Parts(t: Tree, level: seq<nat>): (ps: seq<seq<Row>>)
    ensures |ps| == |level|
    ensures forall i {:trigger ps[i]} :: 0 <= i < |ps| ==> ps[i] == PageRows(t.enc, At(t, level[i]))
  {
    seq(|level|, i requires 0 <= i < |level| => PageRows(t.enc, At(t, level[i])))
  }

  /** The entries of a level, left to right. */
  ghost function Rows(t: Tree, level: seq<nat>): seq<Row> {
    Cat(Parts(t, level))
  }

  /** Where page `i` of a level starts among the entries of the level. */
  ghost function Off(t: Tree, level: seq<nat>, i: nat): nat
    requires i <= |level|
  {
    Start(Parts(t, level), i)
  }

  ghost function RowKeys(rows: seq<Row>): (ks: seq<Key>)
    ensures |ks| == |rows|
    ensures forall i {:trigger ks[i]} :: 0 <= i < |ks| ==> ks[i] == rows[i].key
  {
    seq(|rows|, i requires 0 <= i < |rows| => rows[i].key)
  }

  ghost function FirstKey(t: Tree, o: nat): Key {
    if Count(t, o) == 0 then [] else KeyAt(t.enc, At(t, o), 0)
  }

  // ---------------------------------------------------------------- well-formedness

  ghost function Neighbour(level: seq<nat>, i: int): Option<nat> {
    if 0 <= i < |level| then Some(level[i]) else None
  }

  /** Page `i` of level `l` is what it should be, seen on its own and by its neighbours. */
  ghost predicate NodeOk(t: Tree, s: Shape, l: nat, i: nat)
    requires l < |s.levels| && i < |s.levels[l]|
  {
    var o := s.levels[l][i];
    var p := At(t, o);
    && o < |t.file| && t.file[o].Some?
    && p.kind == (if l == 0 then Leaf else Internal)
    && PageOk(t.enc, p)
    && (if s.coarse then Inexact(t.enc, p) else !Inexact(t.enc, p))
    && p.left == Neighbour(s.levels[l], i - 1)
    && p.right == Neighbour(s.levels[l], i + 1)
    && (|s.levels| > 1 ==> |p.keys| > 0)
  }

  ghost predicate LevelOk(t: Tree, s: Shape, l: nat)
    requires l < |s.levels|
  {
    && |s.levels[l]| > 0
    && forall i :: 0 <= i < |s.levels[l]| ==> NodeOk(t, s, l, i)
  }

  /** The entries above level `l` list its pages: each leads to one, under that page's first key. */
  ghost predicate ParentOk(t: Tree, s: Shape, l: nat)
    requires l + 1 < |s.levels|
  {
    Rows(t, s.levels[l + 1]) == seq(|s.levels[l]|, i requires 0 <= i < |s.levels[l]| =>
        Row(FirstKey(t, s.levels[l][i]), Child(s.levels[l][i])))
  }

  ghost function Flat(t: Tree, s: Shape): seq<Row>
    requires |s.levels| > 0
  {
    Rows(t, s.levels[0])
  }

  ghost function FlatKeys(t: Tree, s: Shape): seq<Key>
    requires |s.levels| > 0
  {
    RowKeys(Flat(t, s))
  }

  ghost predicate WellFormed(t: Tree, s: Shape) {
    && Lawful(t.enc)
    && t.root.Some?
    && 0 < |s.levels| <= t.maxDepth
    && s.levels[|s.levels| - 1] == [t.root.value]
    && (forall l :: 0 <= l < |s.levels| ==> LevelOk(t, s, l))
    && (forall l :: 0 <= l < |s.levels| - 1 ==> ParentOk(t, s, l))
    && Ascending(t.enc, s.coarse, FlatKeys(t, s))
  }

  // ---------------------------------------------------------------- a tree that can be descended

  /** The same for a descent, which does not care how a leaf is compared. */
  ghost predicate NodeIs(t: Tree, s: Shape, l: nat, i: nat)
    requires l < |s.levels| && i < |s.levels[l]|
  {
    var o := s.levels[l][i];
    var p := At(t, o);
    && o < |t.file| && t.file[o].Some?
    && p.kind == (if l == 0 then Leaf else Internal)
    && PageOk(t.enc, p)
    && (l > 0 ==> (s.coarse <==> Inexact(t.enc, p)))
    && (|s.levels| > 1 ==> |p.keys| > 0)
  }

  ghost predicate LevelIs(t: Tree, s: Shape, l: nat)
    requires l < |s.levels|
  {
    |s.levels[l]| > 0 && forall i :: 0 <= i < |s.levels[l]| ==> NodeIs(t, s, l, i)
  }

  /** Row `i` above level `l` leads to page `i` of it, and above an internal level under its first key. */
  ghost predicate Leads(t: Tree, s: Shape, l: nat, i: nat)
    requires l + 1 < |s.levels| && i < |s.levels[l]| == |Rows(t, s.levels[l + 1])|
  {
    var row := Rows(t, s.levels[l + 1])[i];
    row.payload == Child(s.levels[l][i]) && (l > 0 ==> row.key == FirstKey(t, s.levels[l][i]))
  }

  ghost predicate LevelLeads(t: Tree, s: Shape, l: nat)
    requires l + 1 < |s.levels|
  {
    && |s.levels[l]| == |Rows(t, s.levels[l + 1])|
    && forall i {:trigger Leads(t, s, l, i)} :: 0 <= i < |s.levels[l]| ==> Leads(t, s, l, i)
  }

  ghost predicate Routable(t: Tree, s: Shape) {
    && Lawful(t.enc) && t.root.Some?
    && 0 < |s.levels| <= t.maxDepth && s.levels[|s.levels| - 1] == [t.root.value]
    && (forall l :: 0 <= l < |s.levels| ==> LevelIs(t, s, l))
    && (forall l :: 0 <= l < |s.levels| - 1 ==> LevelLeads(t, s, l))
  }

  lemma WellFormedRoutes(t: Tree, s: Shape)
    requires WellFormed(t, s)
    ensures Routable(t, s)
  {
    forall l | 0 <= l < |s.levels|
      ensures LevelIs(t, s, l)
    {
      assert LevelOk(t, s, l);
      forall i | 0 <= i < |s.levels[l]|
        ensures NodeIs(t, s, l, i)
      {
        assert NodeOk(t, s, l, i);
      }
    }
    forall l | 0 <= l < |s.levels| - 1
      ensures LevelLeads(t, s, l)
    {
      assert ParentOk(t, s, l);
    }
  }

  lemma RouteNode(t: Tree, s: Shape, l: nat, i: nat)
    requires Routable(t, s) && l < |s.levels| && i < |s.levels[l]|
    ensures NodeIs(t, s, l, i)
  {
    assert LevelIs(t, s, l);
  }

  lemma RouteChild(t: Tree, s: Shape, l: nat, i: nat, j: nat)
    requires Routable(t, s)
    requires l + 1 < |s.levels| && i < |s.levels[l + 1]| && j < Count(t, s.levels[l + 1][i])
    ensures Off(t, s.levels[l + 1], i) + j < |s.levels[l]|
    ensures At(t, s.levels[l + 1][i]).payloads[j] == Child(s.levels[l][Off(t, s.levels[l + 1], i) + j])
  {
    RowOfPage(t, s.levels[l + 1], i, j);
    assert LevelLeads(t, s, l);
    assert Leads(t, s, l, Off(t, s.levels[l + 1], i) + j);
  }

  /** No page is on two levels. */
  lemma {:induction false} LevelsApart(t: Tree, s: Shape, a: nat, b: nat, i: nat, j: nat)
    requires Routable(t, s)
    requires a < b < |s.levels| && i < |s.levels[a]| && j < |s.levels[b]|
    ensures s.levels[a][i] != s.levels[b][j]
    decreases a
  {
    RouteNode(t, s, a, i);
    RouteNode(t, s, b, j);
    if a > 0 && s.levels[a][i] == s.levels[b][j] {
      RouteChild(t, s, a - 1, i, 0);
      RouteChild(t, s, b - 1, j, 0);
      LevelsApart(t, s, a - 1, b - 1, Off(t, s.levels[a], i), Off(t, s.levels[b], j));
    }
  }

  // ---------------------------------------------------------------- consequences

  lemma Node(t: Tree, s: Shape, l: nat, i: nat)
    requires WellFormed(t, s)
    requires l < |s.levels| && i < |s.levels[l]|
    ensures NodeOk(t, s, l, i)
  {
    assert LevelOk(t, s, l);
  }

  /** Entry `j` of page `i` is the entry of the level at the page's offset plus `j`. */
  lemma RowOfPage(t: Tree, level: seq<nat>, i: nat, j: nat)
    requires i < |level| && j < Count(t, level[i])
    ensures Off(t, level, i) + j < |Rows(t, level)|
    ensures Rows(t, level)[Off(t, level, i) + j] == Row(KeyAt(t.enc, At(t, level[i]), j), At(t, level[i]).payloads[j])
  {
    CatAt(Parts(t, level), i, j);
  }

  lemma OffNext(t: Tree, level: seq<nat>, i: nat)
    requires i < |level|
    ensures Off(t, level, i + 1) == Off(t, level, i) + Count(t, level[i])
  {
    StartNext(Parts(t, level), i);
  }

  lemma OffEnds(t: Tree, level: seq<nat>)
    ensures Off(t, level, 0) == 0
    ensures Off(t, level, |level|) == |Rows(t, level)|
  {
    StartEnds(Parts(t, level));
  }

  lemma ParentRow(t: Tree, s: Shape, l: nat, i: nat)
    requires WellFormed(t, s)
    requires l + 1 < |s.levels| && i < |s.levels[l]|
    ensures |Rows(t, s.levels[l + 1])| == |s.levels[l]|
    ensures Rows(t, s.levels[l + 1])[i] == Row(FirstKey(t, s.levels[l][i]), Child(s.levels[l][i]))
  {
    assert ParentOk(t, s, l);
  }

  /** The first key of a page, seen from the entries of its own level. */
  lemma FirstKeyAt(t: Tree, s: Shape, l: nat, i: nat)
    requires WellFormed(t, s) && |s.levels| > 1
    requires l < |s.levels| && i < |s.levels[l]|
    ensures Off(t, s.levels[l], i) < |Rows(t, s.levels[l])|
    ensures Rows(t, s.levels[l])[Off(t, s.levels[l], i)].key == FirstKey(t, s.levels[l][i])
  {
    Node(t, s, l, i);
    RowOfPage(t, s.levels[l], i, 0);
  }

  /** Entry `j` of page `i` on level `l + 1` leads to the page of level `l` at the same place. */
  lemma ChildAt(t: Tree, s: Shape, l: nat, i: nat, j: nat)
    requires WellFormed(t, s)
    requires l + 1 < |s.levels| && i < |s.levels[l + 1]| && j < Count(t, s.levels[l + 1][i])
    ensures Off(t, s.levels[l + 1], i) + j < |s.levels[l]|
    ensures At(t, s.levels[l + 1][i]).payloads[j] == Child(s.levels[l][Off(t, s.levels[l + 1], i) + j])
    ensures KeyAt(t.enc, At(t, s.levels[l + 1][i]), j) == FirstKey(t, s.levels[l][Off(t, s.levels[l + 1], i) + j])
  {
    RowOfPage(t, s.levels[l + 1], i, j);
    assert ParentOk(t, s, l);
    ParentRow(t, s, l, Off(t, s.levels[l + 1], i) + j);
  }

  /** A doubly linked level repeats no page. */
  lemma {:induction false} NoRepeats(t: Tree, s: Shape, l: nat, i: nat, j: nat)
    requires WellFormed(t, s)
    requires l < |s.levels| && i < j < |s.levels[l]|
    ensures s.levels[l][i] != s.levels[l][j]
    decreases i
  {
    Node(t, s, l, i);
    Node(t, s, l, j);
    if i > 0 && s.levels[l][i] == s.levels[l][j] {
      NoRepeats(t, s, l, i - 1, j - 1);
    }
  }

  /** So a level has no more pages than the file. */
  lemma LevelFitsFile(t: Tree, s: Shape, l: nat)
    requires WellFormed(t, s) && l < |s.levels|
    ensures |s.levels[l]| <= |t.file|
  {
    forall i, j | 0 <= i < j < |s.levels[l]|
      ensures s.levels[l][i] != s.levels[l][j]
    {
      NoRepeats(t, s, l, i, j);
    }
    forall i | 0 <= i < |s.levels[l]|
      ensures s.levels[l][i] < |t.file|
    {
      Node(t, s, l, i);
    }
    DistinctBelow(s.levels[l], |t.file|);
  }
}
