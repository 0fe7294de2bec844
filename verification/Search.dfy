/**
 Searching a tree. Every method here runs on any file, however damaged, and says so with an error;
 what it promises about the answer is promised for well-formed trees. `avail` is the set of pages
 that can be read during the call: a page outside it fails to load, as it does on an I/O error or
 an exhausted budget.
 */
module Searching {
  import opened Base
  import opened Encodings
  import opened Pages
  import opened Sequences
  import opened Trees

  /** A leaf entry: a page and an index on it. */
  datatype Spot = Spot(page: nat, index: nat)

  datatype Arrival = Arrival(ordinal: nat, page: Page, conservative: bool)

  function Load(t: Tree, avail: set<nat>, o: nat): Result<Page> {
    if o >= |t.file| then Err(Corrupt)
    else if o !in avail then Err(Io)
    else if t.file[o].None? then Err(Corrupt)
    else Ok(t.file[o].value)
  }

  ghost predicate AllAvailable(t: Tree, avail: set<nat>) {
    forall o: nat :: o < |t.file| ==> o in avail
  }

  /** A page an answer may be taken from: it can be loaded, and it is sound, unless the caller does not want to
      know. */
  ghost predicate Vouched(t: Tree, avail: set<nat>, o: nat) {
    Load(t, avail, o).Ok? && (t.validate ==> PageOk(t.enc, At(t, o)))
  }

  /** Loads a page of this tree, checked unless the caller turned that off. */
  method TreePage(t: Tree, avail: set<nat>, o: nat) returns (r: Result<Page>)
    ensures r.Ok? <==> Vouched(t, avail, o)
    ensures r.Ok? ==> r.value == At(t, o)
    ensures r.Err? ==> r.kind == if Load(t, avail, o).Err? then Load(t, avail, o).kind else Corrupt
  {
    r := Load(t, avail, o);
    if r.Ok? && t.validate {
      var checked := CheckDigests(t.enc, r.value);
      if checked.Err? {
        return Err(checked.kind);
      }
    }
  }

  // ---------------------------------------------------------------- choosing a child

  /** A descent for `probe` may enter a child that starts at `k`. With exact comparisons that means
      not above the probe; where equal only means "same digest", strictly below it. */
  ghost predicate MayEnter(e: Encoding, coarse: bool, k: Key, probe: Key) {
    if coarse then Sees(e, coarse, k, probe) == Less else Sees(e, coarse, k, probe) != Greater
  }

  /** A descent for `probe` stops short of a child that starts at `k`; `flag` records that an equal
      one was passed over. */
  ghost predicate StopsAt(e: Encoding, coarse: bool, k: Key, probe: Key, flag: bool) {
    if coarse then Sees(e, coarse, k, probe) != Less && (Sees(e, coarse, k, probe) == Equal ==> flag)
    else Sees(e, coarse, k, probe) == Greater
  }

  /** Entry `j` is the last one a descent for `probe` may take. */
  ghost predicate Chosen(e: Encoding, coarse: bool, ks: seq<Key>, probe: Key, j: nat, flag: bool) {
    && j < |ks|
    && (j > 0 ==> MayEnter(e, coarse, ks[j], probe))
    && (j + 1 < |ks| ==> StopsAt(e, coarse, ks[j + 1], probe, flag))
  }

  /** The child to descend into, and whether the choice was conservative. */
  method ChildIndex(e: Encoding, p: Page, probe: Key) returns (r: Result<(nat, bool)>)
    requires e.readable(probe) && |p.keys| > 0
    ensures r.Ok? ==> r.value.0 < |p.keys| && (r.value.1 ==> Inexact(e, p))
    ensures Lawful(e) && PageOk(e, p) ==> r.Ok? && Chosen(e, Inexact(e, p), Keys(e, p), probe, r.value.0, r.value.1)
  {
    var count := |p.keys|;
    var rank := LowerBoundRank(p, e.digest(probe));
    ghost var turn := rank;
    if rank > count {
      rank := count;
    }
    var scan := ScanForward(e, p, probe, LowerBound, rank);
    ghost var trusted := Lawful(e) && PageOk(e, p);
    if trusted {
      BeforeTurnIsLess(e, p, probe, turn);
      ComparesAll(e, p, probe);
      ScanFindsCut(e, p, probe, LowerBound, rank, scan.value);
      AroundCut(e, p, probe);
    }
    if scan.Err? {
      return Err(scan.kind);
    }
    var i := scan.value;
    var equal := i < count && CompareAt(e, p, i, probe).value == Equal;
    var before := if i == 0 then 0 else i - 1;
    if Inexact(e, p) {
      return Ok((before, equal));
    }
    if equal {
      return Ok((i, false));
    }
    r := Ok((before, false));
  }

  lemma ComparesAll(e: Encoding, p: Page, probe: Key)
    requires Lawful(e) && PageOk(e, p) && e.readable(probe)
    ensures forall i :: 0 <= i < |p.keys| ==>
                          CompareAt(e, p, i, probe) == Ok(Sees(e, Inexact(e, p), Keys(e, p)[i], probe))
  {
    forall i | 0 <= i < |p.keys|
      ensures CompareAt(e, p, i, probe) == Ok(Sees(e, Inexact(e, p), Keys(e, p)[i], probe))
    {
      CompareAtMeans(e, p, i, probe);
    }
  }

  lemma AroundCut(e: Encoding, p: Page, probe: Key)
    requires Lawful(e) && PageOk(e, p) && e.readable(probe)
    ensures var coarse, ks, n := Inexact(e, p), Keys(e, p), PageCut(e, p, LowerBound, probe);
            && (forall i :: 0 <= i < n ==> Sees(e, coarse, ks[i], probe) == Less)
            && (forall i :: n <= i < |ks| ==> Sees(e, coarse, ks[i], probe) != Less)
            && (!coarse ==> forall i :: n < i < |ks| ==> Sees(e, coarse, ks[i], probe) == Greater)
            && (n < |ks| && Sees(e, coarse, ks[n], probe) == Greater ==>
                  forall i :: n <= i < |ks| ==> Sees(e, coarse, ks[i], probe) == Greater)
  {
    var coarse, ks, n := Inexact(e, p), Keys(e, p), PageCut(e, p, LowerBound, probe);
    CheckedKeysReadable(e, p);
    CheckedKeysAscend(e, p);
    NothingBehindCut(e, coarse, LowerBound, ks, probe);
    forall i | n < i < |ks|
      ensures !coarse || Sees(e, coarse, ks[n], probe) == Greater ==> Sees(e, coarse, ks[i], probe) == Greater
    {
      SeenInOrder(e, coarse, ks[n], ks[i], probe);
    }
  }

  // ---------------------------------------------------------------- descending

  ghost function LevelKeys(t: Tree, s: Shape, l: nat): seq<Key>
    requires l < |s.levels|
  {
    RowKeys(Rows(t, s.levels[l]))
  }

  /** Page `i` of level `l` is the one the entries above it choose for `probe`. */
  ghost predicate Routed(t: Tree, s: Shape, probe: Key, l: nat, i: nat, flag: bool)
    requires l < |s.levels|
  {
    && i < |s.levels[l]|
    && (l + 1 < |s.levels| ==> Chosen(t.enc, s.coarse, LevelKeys(t, s, l + 1), probe, i, flag))
  }

  /** `part` stands in `ks` from `a` on. */
  ghost predicate PartAt(ks: seq<Key>, a: nat, part: seq<Key>) {
    a + |part| <= |ks| && forall j {:trigger part[j]} :: 0 <= j < |part| ==> ks[a + j] == part[j]
  }

  lemma PageKeysInLevel(t: Tree, s: Shape, l: nat, i: nat)
    requires l < |s.levels| && i < |s.levels[l]|
    ensures PartAt(LevelKeys(t, s, l), Off(t, s.levels[l], i), Keys(t.enc, At(t, s.levels[l][i])))
  {
    var p := At(t, s.levels[l][i]);
    forall j | 0 <= j < |p.keys|
      ensures Off(t, s.levels[l], i) + j < |LevelKeys(t, s, l)|
      ensures LevelKeys(t, s, l)[Off(t, s.levels[l], i) + j] == Keys(t.enc, p)[j]
    {
      RowOfPage(t, s.levels[l], i, j);
    }
    StartGrows(Parts(t, s.levels[l]), i, |s.levels[l]|);
    OffEnds(t, s.levels[l]);
  }

  /** What the level above says about page `i` it says about the entry the page starts with. */
  lemma UpperKeyIsFirst(t: Tree, s: Shape, l: nat, i: nat)
    requires Routable(t, s) && (l > 0 || WellFormed(t, s))
    requires l + 1 < |s.levels| && i < |s.levels[l]|
    ensures |LevelKeys(t, s, l + 1)| == |s.levels[l]|
    ensures Off(t, s.levels[l], i) < |LevelKeys(t, s, l)|
    ensures LevelKeys(t, s, l + 1)[i] == LevelKeys(t, s, l)[Off(t, s.levels[l], i)]
  {
    RouteNode(t, s, l, i);
    RowOfPage(t, s.levels[l], i, 0);
    if l > 0 {
      assert LevelLeads(t, s, l);
      assert Leads(t, s, l, i);
    } else {
      ParentRow(t, s, l, i);
    }
  }

  /** A descent for `probe` may enter the stretch of `n` keys at `a` and stops behind it. */
  ghost predicate Fenced(e: Encoding, coarse: bool, ks: seq<Key>, a: nat, n: nat, probe: Key, flag: bool) {
    && (0 < a < |ks| ==> MayEnter(e, coarse, ks[a], probe))
    && (a + n < |ks| ==> StopsAt(e, coarse, ks[a + n], probe, flag))
  }

  /** A choice made inside a part is a choice in the whole, if the part's own place was well chosen. */
  lemma ChosenInPart(e: Encoding, coarse: bool, ks: seq<Key>, a: nat, part: seq<Key>, probe: Key, flag: bool, j: nat,
                     inexact: bool)
    requires PartAt(ks, a, part)
    requires Chosen(e, coarse, part, probe, j, inexact)
    requires Fenced(e, coarse, ks, a, |part|, probe, flag)
    ensures Chosen(e, coarse, ks, probe, a + j, flag || inexact)
  {
    assert ks[a + j] == part[j];
    if j + 1 < |part| {
      assert ks[a + (j + 1)] == part[j + 1];
    }
  }

  /** The page's own place on its level was well chosen. */
  lemma RouteAround(t: Tree, s: Shape, probe: Key, l: nat, i: nat, flag: bool)
    requires Routable(t, s) && l < |s.levels| && (l > 0 || WellFormed(t, s))
    requires Routed(t, s, probe, l, i, flag)
    ensures Fenced(t.enc, s.coarse, LevelKeys(t, s, l), Off(t, s.levels[l], i), Count(t, s.levels[l][i]), probe, flag)
  {
    var level, ks := s.levels[l], LevelKeys(t, s, l);
    OffNext(t, level, i);
    OffEnds(t, level);
    if Off(t, level, i) > 0 {
      assert i > 0;
      UpperKeyIsFirst(t, s, l, i);
    }
    if Off(t, level, i + 1) < |ks| {
      assert i + 1 < |level|;
      UpperKeyIsFirst(t, s, l, i + 1);
    }
  }

  /** One step of the descent: the entry chosen on the page is the one its whole level chooses. */
  lemma RouteStep(t: Tree, s: Shape, probe: Key, l: nat, i: nat, flag: bool, j: nat, inexact: bool)
    requires Routable(t, s) && 0 < l < |s.levels|
    requires Routed(t, s, probe, l, i, flag)
    requires Chosen(t.enc, s.coarse, Keys(t.enc, At(t, s.levels[l][i])), probe, j, inexact)
    ensures Chosen(t.enc, s.coarse, LevelKeys(t, s, l), probe, Off(t, s.levels[l], i) + j, flag || inexact)
  {
    var ks, a, part := LevelKeys(t, s, l), Off(t, s.levels[l], i), Keys(t.enc, At(t, s.levels[l][i]));
    PageKeysInLevel(t, s, l, i);
    RouteAround(t, s, probe, l, i, flag);
    ChosenInPart(t.enc, s.coarse, ks, a, part, probe, flag, j, inexact);
  }

  /** The page a level's entries choose is the one the entry leads to. */
  lemma RouteDown(t: Tree, s: Shape, probe: Key, l: nat, i: nat, flag: bool, j: nat, inexact: bool)
    requires Routable(t, s) && 0 < l < |s.levels|
    requires Routed(t, s, probe, l, i, flag)
    requires Chosen(t.enc, s.coarse, Keys(t.enc, At(t, s.levels[l][i])), probe, j, inexact)
    ensures Routed(t, s, probe, l - 1, Off(t, s.levels[l], i) + j, flag || inexact)
    ensures At(t, s.levels[l][i]).payloads[j] == Child(s.levels[l - 1][Off(t, s.levels[l], i) + j])
    ensures s.levels[l - 1][Off(t, s.levels[l], i) + j] != s.levels[l][i]
  {
    RouteStep(t, s, probe, l, i, flag, j, inexact);
    RouteChild(t, s, l - 1, i, j);
    LevelsApart(t, s, l - 1, l, Off(t, s.levels[l], i) + j, i);
  }

  /** A descent for `probe` standing on page `o`, which is page `i` of level `l`. */
  ghost predicate OnRoute(t: Tree, s: Shape, probe: Key, l: nat, i: nat, o: nat, flag: bool) {
    l < |s.levels| && Routed(t, s, probe, l, i, flag) && o == s.levels[l][i]
  }

  lemma StartOfRoute(t: Tree, s: Shape, probe: Key)
    requires Routable(t, s)
    ensures OnRoute(t, s, probe, |s.levels| - 1, 0, t.root.value, false)
  {
  }

  /** A page of such a tree loads whenever it is available, and the leaves are level zero. */
  lemma PageOnLevel(t: Tree, s: Shape, avail: set<nat>, l: nat, i: nat)
    requires Routable(t, s) && l < |s.levels| && i < |s.levels[l]|
    ensures PageOk(t.enc, At(t, s.levels[l][i]))
    ensures At(t, s.levels[l][i]).kind == Leaf <==> l == 0
    ensures AllAvailable(t, avail) ==> Load(t, avail, s.levels[l][i]).Ok?
  {
    RouteNode(t, s, l, i);
  }

  /** The page is internal and sound, and the entry it chooses for the probe leads to `next`. */
  ghost predicate LeadsDown(t: Tree, probe: Key, o: nat, next: nat, doubt: bool) {
    var p := At(t, o);
    && p.kind == Internal && PageOk(t.enc, p)
    && exists j: nat {:trigger p.payloads[j]} ::
         && Chosen(t.enc, Inexact(t.enc, p), Keys(t.enc, p), probe, j, doubt)
         && p.payloads[j] == Child(next)
  }

  /** Pages from the root down, each leading to the next, and whether any of the choices was in doubt. */
  ghost predicate WayDown(t: Tree, avail: set<nat>, probe: Key, way: seq<nat>, doubts: seq<bool>, end: nat, doubt: bool)
  {
    && |way| == |doubts| && (if way == [] then t.root == Some(end) else t.root == Some(way[0]))
    && (forall i {:trigger way[i]} :: 0 <= i < |way| ==>
          && Vouched(t, avail, way[i])
          && LeadsDown(t, probe, way[i], if i + 1 < |way| then way[i + 1] else end, doubts[i]))
    && (doubt <==> true in doubts)
  }

  lemma WayFurther(t: Tree, avail: set<nat>, probe: Key, way: seq<nat>, doubts: seq<bool>, end: nat, doubt: bool,
                   next: nat, doubt': bool)
    requires WayDown(t, avail, probe, way, doubts, end, doubt)
    requires Vouched(t, avail, end) && LeadsDown(t, probe, end, next, doubt')
    ensures WayDown(t, avail, probe, way + [end], doubts + [doubt'], next, doubt || doubt')
  {
  }

  /** Takes one step down from an internal page. */
  method StepDown(t: Tree, p: Page, ordinal: nat, probe: Key, conservative: bool, ghost s: Shape, ghost l: nat,
                  ghost i: nat, ghost routed: bool)
    returns (r: Result<(nat, bool)>, ghost next: nat, ghost doubt: bool)
    requires t.enc.readable(probe) && p.kind == Internal && p == At(t, ordinal)
    requires routed ==> Routable(t, s) && OnRoute(t, s, probe, l, i, ordinal, conservative)
    ensures routed ==> r.Ok? && l > 0 && OnRoute(t, s, probe, l - 1, next, r.value.0, r.value.1)
    ensures routed && !s.coarse && !conservative ==> !r.value.1
    ensures r.Ok? ==> r.value.1 == (conservative || doubt)
    ensures Lawful(t.enc) && PageOk(t.enc, p) && r.Ok? ==> LeadsDown(t, probe, ordinal, r.value.0, doubt)
  {
    next, doubt := 0, false;
    if routed {
      RouteNode(t, s, l, i);
    }
    if |p.keys| == 0 {
      return Err(Corrupt), next, doubt;
    }
    var choice := ChildIndex(t.enc, p, probe);
    if choice.Err? {
      return Err(choice.kind), next, doubt;
    }
    var (j, inexact) := choice.value;
    doubt := inexact;
    if routed {
      RouteDown(t, s, probe, l, i, conservative, j, inexact);
      next := Off(t, s.levels[l], i) + j;
    }
    var child := p.payloads[j].page;
    if child == ordinal {
      return Err(Corrupt), next, doubt;
    }
    r := Ok((child, conservative || inexact));
  }

  /** Walks from the root to the leaf that could hold `probe`. */
  method Descend(t: Tree, avail: set<nat>, probe: Key, ghost s: Shape)
    returns (r: Result<Arrival>, ghost leaf: nat, ghost way: seq<nat>, ghost doubts: seq<bool>)
    requires t.enc.readable(probe) && t.root.Some?
    ensures r.Ok? ==>
              && Vouched(t, avail, r.value.ordinal)
              && r.value.page.kind == Leaf && r.value.page == At(t, r.value.ordinal)
    ensures Lawful(t.enc) && t.validate && r.Ok? ==>
              |way| < t.maxDepth && WayDown(t, avail, probe, way, doubts, r.value.ordinal, r.value.conservative)
    ensures Routable(t, s) && r.Ok? ==> OnRoute(t, s, probe, 0, leaf, r.value.ordinal, r.value.conservative)
    ensures Routable(t, s) && r.Ok? && !s.coarse ==> !r.value.conservative
    ensures Routable(t, s) && AllAvailable(t, avail) ==> r.Ok?
  {
    ghost var wf := Routable(t, s);
    ghost var l: nat := 0;
    if wf {
      l := |s.levels| - 1;
      StartOfRoute(t, s, probe);
    }
    var ordinal := t.root.value;
    var conservative := false;
    leaf, way, doubts := 0, [], [];
    for depth := 0 to t.maxDepth
      invariant wf ==> l + depth + 1 == |s.levels|
      invariant wf ==> OnRoute(t, s, probe, l, leaf, ordinal, conservative) && (!s.coarse ==> !conservative)
      invariant |way| == depth
      invariant Lawful(t.enc) && t.validate ==> WayDown(t, avail, probe, way, doubts, ordinal, conservative)
    {
      if wf {
        PageOnLevel(t, s, avail, l, leaf);
      }
      var page := TreePage(t, avail, ordinal);
      if page.Err? {
        return Err(page.kind), leaf, way, doubts;
      }
      if page.value.kind == Leaf {
        return Ok(Arrival(ordinal, page.value, conservative)), leaf, way, doubts;
      }
      var step;
      ghost var doubt;
      step, leaf, doubt := StepDown(t, page.value, ordinal, probe, conservative, s, l, leaf, wf);
      if step.Err? {
        return Err(step.kind), leaf, way, doubts;
      }
      if Lawful(t.enc) && t.validate {
        WayFurther(t, avail, probe, way, doubts, ordinal, conservative, step.value.0, doubt);
      }
      way, doubts := way + [ordinal], doubts + [doubt];
      ordinal, conservative := step.value.0, step.value.1;
      l := if wf then l - 1 else 0;
    }
    r := Err(Corrupt);
  }

  // ---------------------------------------------------------------- the edges of the tree

  ghost function EdgeIndex(level: seq<nat>, leftmost: bool): int {
    if leftmost then 0 else |level| - 1
  }

  /** The outermost entry of an outermost page leads to the outermost page below. */
  lemma EdgeDown(t: Tree, s: Shape, l: nat, leftmost: bool)
    requires WellFormed(t, s) && 0 < l < |s.levels|
    ensures |s.levels[l]| > 0 && |s.levels[l - 1]| > 0
    ensures var i := EdgeIndex(s.levels[l], leftmost);
            var o := s.levels[l][i];
            var p := At(t, o);
            var child := s.levels[l - 1][EdgeIndex(s.levels[l - 1], leftmost)];
            && |p.keys| > 0
            && p.payloads[if leftmost then 0 else |p.keys| - 1] == Child(child)
            && child != o
  {
    assert LevelOk(t, s, l) && LevelOk(t, s, l - 1);
    var i := EdgeIndex(s.levels[l], leftmost);
    Node(t, s, l, i);
    var j := if leftmost then 0 else Count(t, s.levels[l][i]) - 1;
    ChildAt(t, s, l - 1, i, j);
    OffNext(t, s.levels[l], i);
    OffEnds(t, s.levels[l]);
    ParentRow(t, s, l - 1, 0);
    WellFormedRoutes(t, s);
    LevelsApart(t, s, l - 1, l, EdgeIndex(s.levels[l - 1], leftmost), i);
  }

  /** A leaf of the file that is sound, unless the caller does not want to know. */
  ghost predicate SoundLeaf(t: Tree, o: nat) {
    && o < |t.file| && t.file[o].Some? && At(t, o).kind == Leaf
    && (t.validate ==> PageOk(t.enc, At(t, o)))
  }

  /** An entry of such a leaf. */
  ghost predicate SoundSpot(t: Tree, spot: Spot) {
    SoundLeaf(t, spot.page) && spot.index < Count(t, spot.page)
  }

  /** The first or the last entry of the tree, if it has any. */
  ghost function EdgeSpot(t: Tree, s: Shape, leftmost: bool): Option<Spot>
    requires |s.levels| > 0 && |s.levels[0]| > 0
  {
    var o := s.levels[0][EdgeIndex(s.levels[0], leftmost)];
    if Count(t, o) == 0 then None else Some(Spot(o, if leftmost then 0 else Count(t, o) - 1))
  }

  method EdgeLeaf(t: Tree, avail: set<nat>, leftmost: bool, ghost s: Shape) returns (r: Result<Option<Spot>>)
    ensures t.root.None? ==> r == Ok(None)
    ensures r.Ok? && r.value.Some? ==> SoundSpot(t, r.value.value)
    ensures WellFormed(t, s) && r.Ok? ==> |s.levels[0]| > 0 && r.value == EdgeSpot(t, s, leftmost)
    ensures WellFormed(t, s) && AllAvailable(t, avail) ==> r.Ok?
  {
    if t.root.None? {
      return Ok(None);
    }
    ghost var wf := WellFormed(t, s);
    ghost var l: nat := if wf then |s.levels| - 1 else 0;
    var ordinal := t.root.value;
    for depth := 0 to t.maxDepth
      invariant wf ==> l + depth + 1 == |s.levels|
      invariant wf ==> |s.levels[l]| > 0 && ordinal == s.levels[l][EdgeIndex(s.levels[l], leftmost)]
    {
      if wf {
        WellFormedRoutes(t, s);
        PageOnLevel(t, s, avail, l, EdgeIndex(s.levels[l], leftmost));
      }
      var page := TreePage(t, avail, ordinal);
      if page.Err? {
        return Err(page.kind);
      }
      var p := page.value;
      var count := |p.keys|;
      if p.kind == Leaf {
        if count == 0 {
          return Ok(None);
        }
        return Ok(Some(Spot(ordinal, if leftmost then 0 else count - 1)));
      }
      if wf {
        EdgeDown(t, s, l, leftmost);
        assert LevelOk(t, s, l - 1);
      }
      if count == 0 {
        return Err(Corrupt);
      }
      var child := p.payloads[if leftmost then 0 else count - 1].page;
      if child == ordinal {
        return Err(Corrupt);
      }
      ordinal := child;
      l := if wf then l - 1 else 0;
    }
    r := Err(Corrupt);
  }

  /** Whether the chain ends at `ordinal` because the tree does. */
  method EndsAt(t: Tree, avail: set<nat>, ordinal: nat, ascending: bool, ghost s: Shape) returns (r: Result<bool>)
    ensures WellFormed(t, s) && r.Ok? ==>
              && |s.levels[0]| > 0
              && (r.value <==> EdgeSpot(t, s, !ascending).None? || EdgeSpot(t, s, !ascending).value.page == ordinal)
    ensures WellFormed(t, s) && AllAvailable(t, avail) ==> r.Ok?
  {
    var edge :- EdgeLeaf(t, avail, !ascending, s);
    r := Ok(edge.None? || edge.value.page == ordinal);
  }

  /** Steps along the leaf chain, checking the link back. */
  method StepSibling(t: Tree, avail: set<nat>, from: nat, to: nat, ascending: bool) returns (r: Result<Page>)
    ensures r.Ok? ==> Vouched(t, avail, to) && r.value == At(t, to) && r.value.kind == Leaf
    ensures r.Ok? ==> (if ascending then r.value.left else r.value.right) == Some(from)
    ensures (&& Load(t, avail, to).Ok? && PageOk(t.enc, At(t, to)) && At(t, to).kind == Leaf
             && (if ascending then At(t, to).left else At(t, to).right) == Some(from)) ==> r.Ok?
  {
    var page :- TreePage(t, avail, to);
    if page.kind != Leaf {
      return Err(Corrupt);
    }
    if (if ascending then page.left else page.right) != Some(from) {
      return Err(Corrupt);
    }
    r := Ok(page);
  }

  // ---------------------------------------------------------------- searching

  /** The position a linear scan of all the entries answers with. */
  ghost function TreeAnswer(t: Tree, s: Shape, op: SearchOp, probe: Key): (r: Option<nat>)
    requires |s.levels| > 0
    ensures r.Some? ==> r.value < |Flat(t, s)|
  {
    var ks := LevelKeys(t, s, 0);
    var n := Cut(t.enc, s.coarse, op, ks, probe);
    if n == |ks| then None
    else if op == EqualTo && Sees(t.enc, s.coarse, ks[n], probe) != Equal then None
    else Some(n)
  }

  /** `spot` is the entry at position `pos`. */
  ghost predicate StandsAt(t: Tree, s: Shape, spot: Spot, pos: int)
    requires |s.levels| > 0
  {
    exists i :: 0 <= i < |s.levels[0]| && s.levels[0][i] == spot.page
             && spot.index < Count(t, spot.page) && Off(t, s.levels[0], i) + spot.index == pos
  }

  /** Nothing left of leaf `i` is the answer. */
  ghost predicate Reached(t: Tree, s: Shape, op: SearchOp, probe: Key, i: nat)
    requires |s.levels| > 0
  {
    i <= |s.levels[0]| && Off(t, s.levels[0], i) <= Cut(t.enc, s.coarse, op, LevelKeys(t, s, 0), probe)
  }

  lemma RouteReaches(t: Tree, s: Shape, op: SearchOp, probe: Key, i: nat, flag: bool)
    requires WellFormed(t, s) && t.enc.readable(probe)
    requires Routed(t, s, probe, 0, i, flag)
    ensures Reached(t, s, op, probe, i)
  {
    var ks, a := LevelKeys(t, s, 0), Off(t, s.levels[0], i);
    OffEnds(t, s.levels[0]);
    if a > 0 {
      WellFormedRoutes(t, s);
      RouteAround(t, s, probe, 0, i, flag);
      UpperKeyIsFirst(t, s, 0, i);
      LeafKeysReadable(t, s);
      forall p | 0 <= p < a
        ensures Before(t.enc, s.coarse, op, ks[p], probe)
      {
        SeenInOrder(t.enc, s.coarse, ks[p], ks[a], probe);
      }
    }
  }

  lemma LeafKeysReadable(t: Tree, s: Shape)
    requires WellFormed(t, s)
    ensures AllReadable(t.enc, LevelKeys(t, s, 0))
  {
    var ks := LevelKeys(t, s, 0);
    forall at | 0 <= at < |ks|
      ensures t.enc.readable(ks[at])
    {
      var i, j := PartOf(Parts(t, s.levels[0]), at);
      Node(t, s, 0, i);
      CheckedKeysReadable(t.enc, At(t, s.levels[0][i]));
      RowOfPage(t, s.levels[0], i, j);
      assert ks[at] == Keys(t.enc, At(t, s.levels[0][i]))[j];
    }
  }

  /** The search inside leaf `i` against the search in the whole: found here, or further right. */
  lemma CutInLeaf(t: Tree, s: Shape, op: SearchOp, probe: Key, i: nat)
    requires WellFormed(t, s) && i < |s.levels[0]|
    requires Reached(t, s, op, probe, i)
    ensures var p := At(t, s.levels[0][i]);
            var n := PageCut(t.enc, p, op, probe);
            && (n < |p.keys| ==> Cut(t.enc, s.coarse, op, LevelKeys(t, s, 0), probe) == Off(t, s.levels[0], i) + n)
            && (n == |p.keys| ==> Reached(t, s, op, probe, i + 1))
  {
    var p, a, ks := At(t, s.levels[0][i]), Off(t, s.levels[0], i), LevelKeys(t, s, 0);
    var n := PageCut(t.enc, p, op, probe);
    Node(t, s, 0, i);
    PageKeysInLevel(t, s, 0, i);
    OffNext(t, s.levels[0], i);
    CutThroughPart(t.enc, s.coarse, op, ks, probe, a, Keys(t.enc, p), n);
  }

  lemma CutThroughPart(e: Encoding, coarse: bool, op: SearchOp, ks: seq<Key>, probe: Key, a: nat, part: seq<Key>,
                       n: nat)
    requires PartAt(ks, a, part) && IsCut(e, coarse, op, part, probe, n)
    requires a <= Cut(e, coarse, op, ks, probe)
    ensures n < |part| ==> Cut(e, coarse, op, ks, probe) == a + n
    ensures n == |part| ==> a + n <= Cut(e, coarse, op, ks, probe)
  {
    assert n < |part| ==> ks[a + n] == part[n];
    forall q | a <= q < a + n
      ensures Before(e, coarse, op, ks[q], probe)
    {
      assert part[q - a] == ks[q];
    }
  }

  /** The entry after leaf `i` is above the probe. */
  ghost predicate NextIsAbove(t: Tree, s: Shape, probe: Key, i: nat)
    requires |s.levels| > 0 && i < |s.levels[0]|
  {
    var ks, b := LevelKeys(t, s, 0), Off(t, s.levels[0], i + 1);
    b < |ks| ==> Sees(t.enc, s.coarse, ks[b], probe) == Greater
  }

  lemma RouteStopsBefore(t: Tree, s: Shape, probe: Key, i: nat)
    requires WellFormed(t, s)
    requires Routed(t, s, probe, 0, i, false)
    ensures NextIsAbove(t, s, probe, i)
  {
    OffNext(t, s.levels[0], i);
    WellFormedRoutes(t, s);
    RouteAround(t, s, probe, 0, i, false);
  }

  /** Whether every entry on this leaf is below the key. */
  method EndsBelow(e: Encoding, p: Page, probe: Key) returns (r: Result<bool>)
    requires e.readable(probe)
    ensures Lawful(e) && PageOk(e, p) ==> r == Ok(PageCut(e, p, LowerBound, probe) == |p.keys|)
  {
    var count := |p.keys|;
    if count == 0 {
      return Ok(true);
    }
    ghost var trusted := Lawful(e) && PageOk(e, p);
    if trusted {
      CompareAtMeans(e, p, count - 1, probe);
      AroundCut(e, p, probe);
    }
    var c := CompareAt(e, p, count - 1, probe);
    if c.Err? {
      return Err(c.kind);
    }
    r := Ok(c.value == Less);
  }

  datatype LeafStep = Found(index: nat) | Absent | Continue(right: nat)

  /** What the search may conclude on leaf `i`. */
  ghost predicate StepMeans(t: Tree, s: Shape, op: SearchOp, probe: Key, i: nat, step: LeafStep)
    requires |s.levels| > 0 && i < |s.levels[0]|
  {
    match step
    case Found(index) =>
      && index < Count(t, s.levels[0][i])
      && TreeAnswer(t, s, op, probe) == Some(Off(t, s.levels[0], i) + index)
    case Absent => TreeAnswer(t, s, op, probe) == None
    case Continue(right) =>
      i + 1 < |s.levels[0]| && right == s.levels[0][i + 1] && Reached(t, s, op, probe, i + 1)
  }

  lemma AnswerSoundSpot(t: Tree, s: Shape, op: SearchOp, probe: Key, i: nat)
    requires WellFormed(t, s) && i < |s.levels[0]| && t.enc.readable(probe)
    requires Reached(t, s, op, probe, i)
    ensures var p := At(t, s.levels[0][i]);
            var n := PageCut(t.enc, p, op, probe);
            var a := Off(t, s.levels[0], i);
            n < |p.keys| ==>
              && a + n < |LevelKeys(t, s, 0)|
              && Cut(t.enc, s.coarse, op, LevelKeys(t, s, 0), probe) == a + n
              && LevelKeys(t, s, 0)[a + n] == Keys(t.enc, p)[n]
              && s.coarse == Inexact(t.enc, p)
  {
    CutInLeaf(t, s, op, probe, i);
    Node(t, s, 0, i);
    PageKeysInLevel(t, s, 0, i);
  }

  lemma FoundOnLeaf(t: Tree, s: Shape, op: SearchOp, probe: Key, i: nat)
    requires WellFormed(t, s) && i < |s.levels[0]| && t.enc.readable(probe)
    requires Reached(t, s, op, probe, i)
    ensures var p := At(t, s.levels[0][i]);
            var answer := PageAnswer(t.enc, p, op, probe);
            && (answer.Some? ==> StepMeans(t, s, op, probe, i, Found(answer.value)))
            && (answer.None? && PageCut(t.enc, p, op, probe) < |p.keys| ==> TreeAnswer(t, s, op, probe).None?)
  {
    AnswerSoundSpot(t, s, op, probe, i);
  }

  /** When leaf `i` ends before the answer, the answer is further right, or there is none. */
  lemma NotOnLeaf(t: Tree, s: Shape, op: SearchOp, probe: Key, i: nat)
    requires WellFormed(t, s) && i < |s.levels[0]|
    requires Reached(t, s, op, probe, i)
    requires PageCut(t.enc, At(t, s.levels[0][i]), op, probe) == Count(t, s.levels[0][i])
    ensures Reached(t, s, op, probe, i + 1)
    ensures op == EqualTo && NextIsAbove(t, s, probe, i) ==> TreeAnswer(t, s, op, probe).None?
  {
    CutInLeaf(t, s, op, probe, i);
    OffNext(t, s.levels[0], i);
    OffEnds(t, s.levels[0]);
  }

  lemma EndOfChain(t: Tree, s: Shape, op: SearchOp, probe: Key)
    requires WellFormed(t, s)
    requires Reached(t, s, op, probe, |s.levels[0]|)
    ensures TreeAnswer(t, s, op, probe).None?
  {
    OffEnds(t, s.levels[0]);
  }

  lemma LastLeafIsEdge(t: Tree, s: Shape)
    requires WellFormed(t, s)
    ensures |s.levels[0]| > 0
    ensures forall leftmost ::
              EdgeSpot(t, s, leftmost).None? ||
              EdgeSpot(t, s, leftmost).value.page == s.levels[0][EdgeIndex(s.levels[0], leftmost)]
  {
    assert LevelOk(t, s, 0);
  }

  /** A leaf on the way to `goal`: all below the probe before, with an entry that is taken for it there. */
  ghost predicate OnTheWay(t: Tree, leaves: seq<nat>, probe: Key, j: nat, goal: nat)
    requires j < |leaves|
  {
    var p := At(t, leaves[j]);
    && leaves[j] < |t.file| && t.file[leaves[j]].Some? && p.kind == Leaf && PageOk(t.enc, p)
    && p.left == Neighbour(leaves, j - 1)
    && if j < goal then p.right == Neighbour(leaves, j + 1) && PageCut(t.enc, p, LowerBound, probe) == |p.keys|
       else PageAnswer(t.enc, p, EqualTo, probe).Some?
  }

  /** Walking right from leaf `i` comes to an entry that is taken for the probe, on leaf `goal`. */
  ghost predicate LiesAhead(t: Tree, leaves: seq<nat>, probe: Key, i: nat, goal: nat) {
    && i <= goal < |leaves| <= |t.file|
    && (forall j {:trigger OnTheWay(t, leaves, probe, j, goal)} :: i <= j <= goal ==>
          OnTheWay(t, leaves, probe, j, goal))
  }

  /** What may be concluded from one sound leaf, on any file: an entry on it; or nothing, when the search ends there;
      or that it goes on to the right. A lookup goes on only if it was in doubt and all of the leaf is below the key. */
  ghost predicate Concludes(e: Encoding, p: Page, op: SearchOp, probe: Key, doubt: bool, step: LeafStep) {
    var goesOn := op == EqualTo ==> doubt && PageCut(e, p, LowerBound, probe) == |p.keys|;
    match step
    case Found(index) => PageAnswer(e, p, op, probe) == Some(index)
    case Absent => PageAnswer(e, p, op, probe).None? && (goesOn ==> p.right.None?)
    case Continue(right) => PageAnswer(e, p, op, probe).None? && goesOn && p.right == Some(right)
  }

  /** Resolves the search on one leaf of the chain. */
  method SearchLeaf(t: Tree, avail: set<nat>, probe: Key, op: SearchOp, here: Arrival, ghost s: Shape, ghost i: nat)
    returns (r: Result<LeafStep>)
    requires t.enc.readable(probe) && here.page == At(t, here.ordinal)
    requires WellFormed(t, s) ==> i < |s.levels[0]| && here.ordinal == s.levels[0][i] && Reached(t, s, op, probe, i)
    requires WellFormed(t, s) && op == EqualTo && !here.conservative ==> NextIsAbove(t, s, probe, i)
    ensures r.Ok? && r.value.Found? ==> r.value.index < |here.page.keys|
    ensures r.Ok? && r.value.Found? && op == EqualTo ==> CompareAt(t.enc, here.page, r.value.index, probe) == Ok(Equal)
    ensures r.Ok? && r.value.Continue? && op == EqualTo ==> here.conservative
    ensures Lawful(t.enc) && PageOk(t.enc, here.page) && op == EqualTo && !here.conservative ==>
              r.Ok? && (r.value.Found? <==> PageAnswer(t.enc, here.page, EqualTo, probe).Some?)
    ensures Lawful(t.enc) && PageOk(t.enc, here.page) && op == EqualTo && here.conservative ==>
              && (PageAnswer(t.enc, here.page, EqualTo, probe).Some? ==> r.Ok? && r.value.Found?)
              && (PageCut(t.enc, here.page, LowerBound, probe) == |here.page.keys| && here.page.right.Some? ==>
                    r == Ok(Continue(here.page.right.value)))
    ensures Lawful(t.enc) && PageOk(t.enc, here.page) && r.Ok? ==>
              Concludes(t.enc, here.page, op, probe, here.conservative, r.value)
    ensures WellFormed(t, s) && r.Ok? ==> StepMeans(t, s, op, probe, i, r.value)
    ensures WellFormed(t, s) && AllAvailable(t, avail) ==> r.Ok?
  {
    ghost var wf := WellFormed(t, s);
    var p := here.page;
    CutsAgree(t.enc, p, probe);
    if wf {
      WellFormedRoutes(t, s);
      PageOnLevel(t, s, avail, 0, i);
      FoundOnLeaf(t, s, op, probe, i);
      if PageCut(t.enc, p, op, probe) == |p.keys| {
        NotOnLeaf(t, s, op, probe, i);
      }
      Node(t, s, 0, i);
    }
    var found :- LeafSearch(t.enc, p, probe, op);
    if found.Some? {
      return Ok(Found(found.value));
    }
    if op == EqualTo {
      var below :- EndsBelow(t.enc, p, probe);
      if !(here.conservative && below) {
        return Ok(Absent);
      }
    }
    if p.right.Some? {
      return Ok(Continue(p.right.value));
    }
    if wf {
      LastLeafIsEdge(t, s);
      EndOfChain(t, s, op, probe);
    }
    var ends :- EndsAt(t, avail, here.ordinal, true, s);
    if !ends {
      return Err(Corrupt);
    }
    r := Ok(Absent);
  }

  lemma CutsAgree(e: Encoding, p: Page, probe: Key)
    ensures PageCut(e, p, LowerBound, probe) == PageCut(e, p, EqualTo, probe)
  {
    CutIs(e, Inexact(e, p), EqualTo, Keys(e, p), probe, PageCut(e, p, LowerBound, probe));
  }

  /** An answer to a search, against the linear scan. */
  ghost predicate Answers(t: Tree, s: Shape, op: SearchOp, probe: Key, r: Option<Spot>)
    requires |s.levels| > 0
  {
    && (r.None? <==> TreeAnswer(t, s, op, probe).None?)
    && (r.Some? ==> StandsAt(t, s, r.value, TreeAnswer(t, s, op, probe).value))
  }

  /** An entry that compares equal to the probe, whatever the tree around it is like. */
  ghost predicate IsMatch(t: Tree, spot: Spot, probe: Key) {
    && spot.index < Count(t, spot.page)
    && CompareAt(t.enc, At(t, spot.page), spot.index, probe) == Ok(Equal)
  }

  /** Leaf `i` is where the walk stands. */
  ghost predicate Walking(t: Tree, s: Shape, op: SearchOp, probe: Key, here: Arrival, i: nat) {
    && |s.levels| > 0 && i < |s.levels[0]|
    && here.ordinal == s.levels[0][i]
    && Reached(t, s, op, probe, i)
    && (op == EqualTo && !here.conservative ==> NextIsAbove(t, s, probe, i))
  }

  lemma WalkOn(t: Tree, s: Shape, avail: set<nat>, op: SearchOp, probe: Key, here: Arrival, i: nat, right: nat)
    requires WellFormed(t, s) && Walking(t, s, op, probe, here, i)
    requires StepMeans(t, s, op, probe, i, Continue(right))
    requires op == EqualTo ==> here.conservative
    ensures Walking(t, s, op, probe, here.(ordinal := right, page := At(t, right)), i + 1)
    ensures PageOk(t.enc, At(t, right)) && At(t, right).kind == Leaf && At(t, right).left == Some(here.ordinal)
    ensures AllAvailable(t, avail) ==> Load(t, avail, right).Ok?
  {
    WellFormedRoutes(t, s);
    PageOnLevel(t, s, avail, 0, i + 1);
    Node(t, s, 0, i + 1);
  }

  /** A leaf the search came to, and what it concluded from it. */
  ghost predicate PassesBy(t: Tree, avail: set<nat>, probe: Key, op: SearchOp, doubt: bool, o: nat, next: nat) {
    && Vouched(t, avail, o) && At(t, o).kind == Leaf
    && Concludes(t.enc, At(t, o), op, probe, doubt, Continue(next))
  }

  /** Leaves passed by from left to right, each linked to the next. */
  ghost predicate PassedBy(t: Tree, avail: set<nat>, probe: Key, op: SearchOp, doubt: bool, walk: seq<nat>) {
    forall i {:trigger walk[i]} :: 0 <= i < |walk| - 1 ==> PassesBy(t, avail, probe, op, doubt, walk[i], walk[i + 1])
  }

  /** A walk along the leaves from `from`, and the answer the last of them gave. */
  ghost predicate WalkGives(t: Tree, avail: set<nat>, probe: Key, op: SearchOp, doubt: bool, from: nat, walk: seq<nat>,
                           found: Option<Spot>) {
    && walk != [] && walk[0] == from && PassedBy(t, avail, probe, op, doubt, walk)
    && var last := walk[|walk| - 1];
    && Vouched(t, avail, last) && At(t, last).kind == Leaf
    && (found.None? ==> Concludes(t.enc, At(t, last), op, probe, doubt, Absent))
    && (found.Some? ==>
          found.value.page == last && Concludes(t.enc, At(t, last), op, probe, doubt, Found(found.value.index)))
  }

  lemma PassNext(t: Tree, avail: set<nat>, probe: Key, op: SearchOp, doubt: bool, walk: seq<nat>, next: nat)
    requires walk != [] && PassedBy(t, avail, probe, op, doubt, walk)
    requires PassesBy(t, avail, probe, op, doubt, walk[|walk| - 1], next)
    ensures PassedBy(t, avail, probe, op, doubt, walk + [next])
  {
    var all := walk + [next];
    forall i | 0 <= i < |all| - 1
      ensures PassesBy(t, avail, probe, op, doubt, all[i], all[i + 1])
    {
      if i < |walk| - 1 {
        assert all[i] == walk[i] && all[i + 1] == walk[i + 1];
      }
    }
  }

  /** A lookup that was in doubt on its way down, with an entry ahead of it. */
  ghost predicate Walks(t: Tree, avail: set<nat>, probe: Key, op: SearchOp, here: Arrival, leaves: seq<nat>, i: nat,
                        goal: nat) {
    && Lawful(t.enc) && AllAvailable(t, avail) && op == EqualTo && here.conservative
    && LiesAhead(t, leaves, probe, i, goal) && here.ordinal == leaves[i]
  }

  lemma WalkAhead(t: Tree, avail: set<nat>, probe: Key, op: SearchOp, here: Arrival, leaves: seq<nat>, i: nat,
                  goal: nat)
    requires Walks(t, avail, probe, op, here, leaves, i, goal)
    ensures PageOk(t.enc, At(t, here.ordinal))
    ensures i == goal ==> PageAnswer(t.enc, At(t, here.ordinal), EqualTo, probe).Some?
    ensures i < goal ==>
              && PageCut(t.enc, At(t, here.ordinal), LowerBound, probe) == Count(t, here.ordinal)
              && i + 1 < |leaves| && At(t, here.ordinal).right == Some(leaves[i + 1])
              && (var next := leaves[i + 1];
                  && Load(t, avail, next).Ok? && PageOk(t.enc, At(t, next)) && At(t, next).kind == Leaf
                  && At(t, next).left == Some(here.ordinal)
                  && Walks(t, avail, probe, op, here.(ordinal := next, page := At(t, next)), leaves, i + 1, goal))
  {
    assert OnTheWay(t, leaves, probe, i, goal);
    if i < goal {
      assert OnTheWay(t, leaves, probe, i + 1, goal);
    }
  }

  /** Walks right along the leaves until the search is settled. */
  method WalkRight(t: Tree, avail: set<nat>, probe: Key, op: SearchOp, start: Arrival, ghost s: Shape, ghost leaf: nat,
                   ghost leaves: seq<nat>, ghost goal: nat)
    returns (r: Result<Option<Spot>>, ghost walk: seq<nat>)
    requires t.enc.readable(probe) && start.page == At(t, start.ordinal)
    requires Vouched(t, avail, start.ordinal) && start.page.kind == Leaf
    requires WellFormed(t, s) ==> Walking(t, s, op, probe, start, leaf)
    ensures r.Ok? && r.value.Some? && op == EqualTo ==> IsMatch(t, r.value.value, probe)
    ensures r.Ok? && r.value.Some? ==> SoundSpot(t, r.value.value)
    ensures Lawful(t.enc) && t.validate && r.Ok? ==>
              WalkGives(t, avail, probe, op, start.conservative, start.ordinal, walk, r.value)
    ensures WellFormed(t, s) && r.Ok? ==> Answers(t, s, op, probe, r.value)
    ensures WellFormed(t, s) && AllAvailable(t, avail) ==> r.Ok?
    ensures Lawful(t.enc) && PageOk(t.enc, start.page) && op == EqualTo && !start.conservative ==>
              r.Ok? && (r.value.Some? <==> PageAnswer(t.enc, start.page, EqualTo, probe).Some?)
    ensures Walks(t, avail, probe, op, start, leaves, leaf, goal) ==> r.Ok? && r.value.Some?
  {
    ghost var wf := WellFormed(t, s);
    ghost var ahead := Walks(t, avail, probe, op, start, leaves, leaf, goal);
    ghost var i: nat := leaf;
    var here := start;
    var stepsLeft: nat := |t.file| + 1;
    walk := [start.ordinal];
    if wf {
      LevelFitsFile(t, s, 0);
    }
    while true
      invariant here.page == At(t, here.ordinal) && here.conservative == start.conservative
      invariant Vouched(t, avail, here.ordinal) && here.page.kind == Leaf
      invariant walk != [] && walk[0] == start.ordinal && walk[|walk| - 1] == here.ordinal
      invariant Lawful(t.enc) && t.validate ==> PassedBy(t, avail, probe, op, start.conservative, walk)
      invariant wf ==> Walking(t, s, op, probe, here, i)
      invariant wf ==> stepsLeft + i > |t.file|
      invariant ahead ==> Walks(t, avail, probe, op, here, leaves, i, goal) && stepsLeft + i > |t.file|
      invariant op == EqualTo && !start.conservative ==> here == start
      decreases stepsLeft
    {
      if ahead {
        WalkAhead(t, avail, probe, op, here, leaves, i, goal);
      }
      var searched := SearchLeaf(t, avail, probe, op, here, s, i);
      if searched.Err? {
        return Err(searched.kind), walk;
      }
      var step := searched.value;
      if step.Found? {
        return Ok(Some(Spot(here.ordinal, step.index))), walk;
      }
      if step.Absent? {
        return Ok(None), walk;
      }
      if wf {
        WalkOn(t, s, avail, op, probe, here, i, step.right);
      }
      if stepsLeft == 0 {
        return Err(Corrupt), walk;
      }
      stepsLeft := stepsLeft - 1;
      var page := StepSibling(t, avail, here.ordinal, step.right, true);
      if page.Err? {
        return Err(page.kind), walk;
      }
      if Lawful(t.enc) && t.validate {
        PassNext(t, avail, probe, op, start.conservative, walk, step.right);
      }
      walk := walk + [step.right];
      here := here.(ordinal := step.right, page := page.value);
      i := i + 1;
    }
  }

  /** A lookup that is never in doubt on its way down looks at one leaf, the one its route leads to. */
  ghost predicate FindsWhereRouted(t: Tree, s: Shape, probe: Key, found: Option<Spot>)
    requires |s.levels| > 0
  {
    exists leaf :: 0 <= leaf < |s.levels[0]| && Routed(t, s, probe, 0, leaf, false) &&
                   (found.Some? <==> PageAnswer(t.enc, At(t, s.levels[0][leaf]), EqualTo, probe).Some?)
  }

  /** Wherever the descent ends, an entry that is taken for the probe is there, or is ahead and was in doubt. */
  ghost predicate ComesTo(t: Tree, s: Shape, probe: Key)
    requires |s.levels| > 0
  {
    forall i: nat, flag {:trigger Routed(t, s, probe, 0, i, flag)} :: Routed(t, s, probe, 0, i, flag) ==>
      exists goal: nat :: LiesAhead(t, s.levels[0], probe, i, goal) && (i < goal ==> flag)
  }

  lemma WayFrom(t: Tree, s: Shape, probe: Key, i: nat, flag: bool) returns (goal: nat)
    requires |s.levels| > 0 && ComesTo(t, s, probe) && Routed(t, s, probe, 0, i, flag)
    ensures LiesAhead(t, s.levels[0], probe, i, goal) && (i < goal ==> flag)
    ensures i == goal ==> PageAnswer(t.enc, At(t, s.levels[0][i]), EqualTo, probe).Some?
  {
    goal :| LiesAhead(t, s.levels[0], probe, i, goal) && (i < goal ==> flag);
    assert OnTheWay(t, s.levels[0], probe, goal, goal);
  }

  /** An answer and how it was come by, whatever the file is like: a way down from the root and a walk along the
      leaves, all through sound pages, each of which was asked and leads to the next. */
  ghost predicate Explained(t: Tree, avail: set<nat>, probe: Key, op: SearchOp, found: Option<Spot>) {
    exists way: seq<nat>, doubts: seq<bool>, leaf: nat, doubt: bool, walk: seq<nat> ::
      && |way| < t.maxDepth && WayDown(t, avail, probe, way, doubts, leaf, doubt)
      && WalkGives(t, avail, probe, op, doubt, leaf, walk, found)
  }

  lemma Explains(t: Tree, avail: set<nat>, probe: Key, op: SearchOp, found: Option<Spot>, way: seq<nat>,
                 doubts: seq<bool>, leaf: nat, doubt: bool, walk: seq<nat>)
    requires |way| < t.maxDepth && WayDown(t, avail, probe, way, doubts, leaf, doubt)
    requires WalkGives(t, avail, probe, op, doubt, leaf, walk, found)
    ensures Explained(t, avail, probe, op, found)
  {
  }

  /** Descends and resolves `op`. On a well-formed tree the answer is the position a linear scan of
      all the entries gives; on any tree, an equal match really is one. */
  method Search(t: Tree, avail: set<nat>, probe: Key, op: SearchOp, ghost s: Shape) returns (r: Result<Option<Spot>>)
    ensures r.Ok? && r.value.Some? && op == EqualTo ==> IsMatch(t, r.value.value, probe)
    ensures WellFormed(t, s) && r.Ok? ==> Answers(t, s, op, probe, r.value)
    ensures WellFormed(t, s) && AllAvailable(t, avail) && t.enc.readable(probe) ==> r.Ok?
    ensures t.root.None? && t.enc.readable(probe) ==> r == Ok(None)
    ensures !t.enc.readable(probe) ==> r == Err(Corrupt)
    ensures r.Ok? && r.value.Some? ==> SoundSpot(t, r.value.value)
    ensures Lawful(t.enc) && t.validate && t.root.Some? && r.Ok? ==> Explained(t, avail, probe, op, r.value)
    ensures Routable(t, s) && !s.coarse && op == EqualTo && r.Ok? ==> FindsWhereRouted(t, s, probe, r.value)
    ensures Routable(t, s) && !s.coarse && op == EqualTo && AllAvailable(t, avail) && t.enc.readable(probe) ==> r.Ok?
    ensures Routable(t, s) && ComesTo(t, s, probe) && op == EqualTo && AllAvailable(t, avail) && t.enc.readable(probe)
            ==> r.Ok? && r.value.Some?
  {
    if !t.enc.readable(probe) {
      return Err(Corrupt);
    }
    if t.root.None? {
      return Ok(None);
    }
    if WellFormed(t, s) {
      WellFormedRoutes(t, s);
    }
    var arrived;
    ghost var i, way, doubts;
    arrived, i, way, doubts := Descend(t, avail, probe, s);
    if arrived.Err? {
      return Err(arrived.kind);
    }
    r := SearchFrom(t, avail, probe, op, arrived.value, s, i, way, doubts);
  }

  /** Resolves `op` along the leaves from where the descent ended. */
  method SearchFrom(t: Tree, avail: set<nat>, probe: Key, op: SearchOp, start: Arrival, ghost s: Shape, ghost i: nat,
                    ghost way: seq<nat>, ghost doubts: seq<bool>)
    returns (r: Result<Option<Spot>>)
    requires t.enc.readable(probe) && start.page == At(t, start.ordinal)
    requires Vouched(t, avail, start.ordinal) && start.page.kind == Leaf
    requires Lawful(t.enc) && t.validate ==>
               |way| < t.maxDepth && WayDown(t, avail, probe, way, doubts, start.ordinal, start.conservative)
    requires Routable(t, s) ==>
               OnRoute(t, s, probe, 0, i, start.ordinal, start.conservative) && (!s.coarse ==> !start.conservative)
    requires WellFormed(t, s) ==> Routable(t, s)
    ensures r.Ok? && r.value.Some? && op == EqualTo ==> IsMatch(t, r.value.value, probe)
    ensures WellFormed(t, s) && r.Ok? ==> Answers(t, s, op, probe, r.value)
    ensures WellFormed(t, s) && AllAvailable(t, avail) ==> r.Ok?
    ensures r.Ok? && r.value.Some? ==> SoundSpot(t, r.value.value)
    ensures Lawful(t.enc) && t.validate && r.Ok? ==> Explained(t, avail, probe, op, r.value)
    ensures Routable(t, s) && !s.coarse && op == EqualTo && r.Ok? ==> FindsWhereRouted(t, s, probe, r.value)
    ensures Routable(t, s) && !s.coarse && op == EqualTo && AllAvailable(t, avail) ==> r.Ok?
    ensures Routable(t, s) && ComesTo(t, s, probe) && op == EqualTo && AllAvailable(t, avail) ==>
              r.Ok? && r.value.Some?
  {
    if Routable(t, s) {
      RouteNode(t, s, 0, i);
    }
    if WellFormed(t, s) {
      RouteReaches(t, s, op, probe, i, start.conservative);
      if !start.conservative {
        RouteStopsBefore(t, s, probe, i);
      }
    }
    ghost var goal: nat := 0;
    if Routable(t, s) && ComesTo(t, s, probe) {
      goal := WayFrom(t, s, probe, i, start.conservative);
    }
    ghost var walk;
    r, walk := WalkRight(t, avail, probe, op, start, s, i, if s.levels == [] then [] else s.levels[0], goal);
    if Lawful(t.enc) && t.validate && r.Ok? {
      Explains(t, avail, probe, op, r.value, way, doubts, start.ordinal, start.conservative, walk);
    }
  }

  /** A point lookup finds an entry precisely when some leaf has one it takes for the key: the first of them. Where
      keys are compared exactly that is the key itself, elsewhere a key with its digest. */
  lemma FindMeansPresent(t: Tree, s: Shape, probe: Key)
    requires WellFormed(t, s) && t.enc.readable(probe)
    ensures var ks, found := LevelKeys(t, s, 0), TreeAnswer(t, s, EqualTo, probe);
            && (found.Some? <==> exists i :: 0 <= i < |ks| && Sees(t.enc, s.coarse, ks[i], probe) == Equal)
            && (found.Some? ==> forall i :: 0 <= i < found.value ==> Sees(t.enc, s.coarse, ks[i], probe) == Less)
            && (!s.coarse ==> (found.Some? <==> probe in ks) && (found.Some? ==> ks[found.value] == probe))
  {
    var ks := LevelKeys(t, s, 0);
    LeafKeysReadable(t, s);
    NothingBehindCut(t.enc, s.coarse, EqualTo, ks, probe);
    var n := Cut(t.enc, s.coarse, EqualTo, ks, probe);
    forall i | 0 <= i < |ks| && Sees(t.enc, s.coarse, ks[i], probe) == Equal
      ensures n <= i && Sees(t.enc, s.coarse, ks[n], probe) == Equal
    {
      if n < i {
        SeenInOrder(t.enc, s.coarse, ks[n], ks[i], probe);
      }
    }
    if probe in ks && !s.coarse {
      var i :| 0 <= i < |ks| && ks[i] == probe;
      assert Sees(t.enc, s.coarse, ks[i], probe) == Equal;
    }
  }

  // ---------------------------------------------------------------- cached pages only

  datatype CachedState = CachedState(ordinal: nat, conservative: bool, descending: bool, stepsLeft: nat, depthLeft: nat)

  datatype CachedStep = Next(state: CachedState) | Done(answer: Result<Option<Option<Spot>>>)

  /** Where a cached lookup stands on a well-formed tree: on page `i` of level `l`, going down, or
      walking the leaves. */
  ghost predicate CachedAt(t: Tree, s: Shape, probe: Key, st: CachedState, l: nat, i: nat) {
    if st.descending then
      && OnRoute(t, s, probe, l, i, st.ordinal, st.conservative)
      && st.depthLeft > l && st.stepsLeft == |t.file| + 1
    else
      && l == 0
      && Walking(t, s, EqualTo, probe, Arrival(st.ordinal, At(t, st.ordinal), st.conservative), i)
      && st.stepsLeft + i > |t.file|
  }

  lemma CachedPage(t: Tree, s: Shape, cached: set<nat>, probe: Key, st: CachedState, l: nat, i: nat)
    requires WellFormed(t, s) && CachedAt(t, s, probe, st, l, i)
    ensures l < |s.levels| && i < |s.levels[l]| && st.ordinal == s.levels[l][i]
    ensures PageOk(t.enc, At(t, st.ordinal)) && st.ordinal < |t.file|
    ensures At(t, st.ordinal).kind == Leaf <==> l == 0
    ensures st.ordinal in cached ==> Load(t, cached, st.ordinal).Ok?
  {
    Node(t, s, l, i);
  }

  /** Coming down onto a leaf, the lookup starts walking. */
  lemma CachedArrival(t: Tree, s: Shape, probe: Key, st: CachedState, i: nat)
    requires WellFormed(t, s) && t.enc.readable(probe) && CachedAt(t, s, probe, st, 0, i)
    ensures CachedAt(t, s, probe, st.(descending := false), 0, i)
  {
    if st.descending {
      RouteReaches(t, s, EqualTo, probe, i, st.conservative);
      if !st.conservative {
        RouteStopsBefore(t, s, probe, i);
      }
    }
  }

  /** What one round of a cached lookup on leaf `i` may end with. */
  ghost predicate CachedMeans(t: Tree, s: Shape, probe: Key, i: nat, out: CachedStep)
    requires |s.levels| > 0
  {
    match out
    case Next(st) => !st.descending && i + 1 < |s.levels[0]| && CachedAt(t, s, probe, st, 0, i + 1)
    case Done(answer) => answer.Ok? && answer.value.Some? && Answers(t, s, EqualTo, probe, answer.value.value)
  }

  /** One round on a leaf. The step right is taken without the checks a full search makes. */
  method CachedLeaf(t: Tree, probe: Key, page: Page, st: CachedState, ghost s: Shape, ghost i: nat)
    returns (out: CachedStep)
    requires t.enc.readable(probe) && page == At(t, st.ordinal) && !st.descending
    requires WellFormed(t, s) ==> CachedAt(t, s, probe, st, 0, i)
    ensures WellFormed(t, s) ==> CachedMeans(t, s, probe, i, out)
  {
    ghost var wf := WellFormed(t, s);
    if wf {
      Node(t, s, 0, i);
      LevelFitsFile(t, s, 0);
      FoundOnLeaf(t, s, EqualTo, probe, i);
      if PageCut(t.enc, page, EqualTo, probe) == |page.keys| {
        NotOnLeaf(t, s, EqualTo, probe, i);
      }
      CutsAgree(t.enc, page, probe);
    }
    var found := LeafSearch(t.enc, page, probe, EqualTo);
    if found.Err? {
      return Done(Err(found.kind));
    }
    if found.value.Some? {
      return Done(Ok(Some(Some(Spot(st.ordinal, found.value.value)))));
    }
    var below := EndsBelow(t.enc, page, probe);
    if below.Err? {
      return Done(Err(below.kind));
    }
    if !(st.conservative && below.value) {
      return Done(Ok(Some(None)));
    }
    if page.right.None? {
      if wf {
        EndOfChain(t, s, EqualTo, probe);
      }
      return Done(Ok(Some(None)));
    }
    if st.stepsLeft == 0 {
      return Done(Err(Corrupt));
    }
    out := Next(st.(ordinal := page.right.value, stepsLeft := st.stepsLeft - 1));
  }

  /** One round of the lookup's loop, on any file. */
  method CachedRound(t: Tree, cached: set<nat>, probe: Key, st: CachedState, ghost s: Shape, ghost l: nat, ghost i: nat)
    returns (out: CachedStep, ghost i': nat)
    requires t.enc.readable(probe)
    requires WellFormed(t, s) ==> CachedAt(t, s, probe, st, l, i)
    ensures out.Next? || (out.answer.Ok? && out.answer.value.Some?) ==> Vouched(t, cached, st.ordinal)
    ensures WellFormed(t, s) && out.Next? && st.descending && l > 0 ==>
              out.state.descending && CachedAt(t, s, probe, out.state, l - 1, i')
    ensures WellFormed(t, s) && out.Next? && (!st.descending || l == 0) ==>
              !out.state.descending && i' == i + 1 < |s.levels[0]| && CachedAt(t, s, probe, out.state, 0, i')
    ensures WellFormed(t, s) && out.Done? ==>
              && out.answer.Ok?
              && (out.answer.value.Some? ==> Answers(t, s, EqualTo, probe, out.answer.value.value))
              && (out.answer.value.None? ==> st.ordinal < |t.file| && st.ordinal !in cached)
  {
    ghost var wf := WellFormed(t, s);
    i' := 0;
    if wf {
      CachedPage(t, s, cached, probe, st, l, i);
    }
    if st.descending && st.depthLeft == 0 {
      return Done(Err(Corrupt)), i';
    }
    var now := if st.descending then st.(depthLeft := st.depthLeft - 1) else st;
    if now.ordinal !in cached {
      return Done(Ok(None)), i';
    }
    var page := TreePage(t, cached, now.ordinal);
    if page.Err? {
      return Done(Err(page.kind)), i';
    }
    if page.value.kind == Leaf {
      if wf {
        CachedArrival(t, s, probe, st, i);
      }
      out := CachedLeaf(t, probe, page.value, now.(descending := false), s, i);
      i' := i + 1;
    } else {
      var down;
      if wf {
        WellFormedRoutes(t, s);
      }
      ghost var doubt;
      down, i', doubt := StepDown(t, page.value, now.ordinal, probe, now.conservative, s, l, i, wf);
      if down.Err? {
        return Done(Err(down.kind)), i';
      }
      out := Next(now.(ordinal := down.value.0, conservative := down.value.1));
    }
  }

  /** Point lookup against cached pages only: no answer when a page on the way is not cached, and
      otherwise the answer of a full search. */
  method FindCached(t: Tree, cached: set<nat>, probe: Key, ghost s: Shape) returns (r: Result<Option<Option<Spot>>>)
    requires t.root.Some? ==> WellFormed(t, s)
    ensures t.root.None? ==> r == Ok(Some(None))
    ensures t.root.Some? ==> (r.Ok? <==> t.enc.readable(probe))
    ensures t.root.Some? && r.Ok? && r.value.Some? ==> Answers(t, s, EqualTo, probe, r.value.value)
    ensures r.Ok? && AllAvailable(t, cached) ==> r.value.Some?
  {
    if t.root.None? {
      return Ok(Some(None));
    }
    if !t.enc.readable(probe) {
      return Err(Corrupt);
    }
    var st := CachedState(t.root.value, false, true, |t.file| + 1, t.maxDepth);
    ghost var l: nat, i: nat := |s.levels| - 1, 0;
    WellFormedRoutes(t, s);
    StartOfRoute(t, s, probe);
    while true
      invariant CachedAt(t, s, probe, st, l, i)
      invariant !st.descending ==> i < |s.levels[0]|
      decreases st.descending, l, |s.levels[0]| - i
    {
      var out;
      out, i := CachedRound(t, cached, probe, st, s, l, i);
      if out.Done? {
        return out.answer;
      }
      l := if out.state.descending then l - 1 else 0;
      st := out.state;
    }
  }
}
