/**
 The structural verification pass. It walks every level along its sibling chain, in lockstep with the
 children the level above declares, and writes down what it finds wrong. A report is clean exactly where
 everything the pass checks is in order. What that is worth is the last theorem here: on pages that are
 compared one way the tree is well formed, so every search and scan of it is right.
 */
module Verifying {
  import opened Base
  import opened Encodings
  import opened Pages
  import opened Sequences
  import opened Trees
  import opened Searching
  import opened Cursors

  // ---------------------------------------------------------------- the report

  /** The page is compared the way the root is, or in a way that cannot differ. */
  ghost predicate SameMode(t: Tree, o: nat) {
    t.enc.exact || (t.root.Some? && At(t, o).layout.omittedKeys == At(t, t.root.value).layout.omittedKeys)
  }

  class Reporter {
    const maxProblems: nat
    var problems: nat
    var truncated: bool
    /** What stopped the pass rather than being wrong with the file. */
    var failure: Option<ErrorKind>
    /** How many more problems there is memory for. */
    var room: nat

    constructor (maxProblems: nat, room: nat)
      ensures Clean() && this.maxProblems == maxProblems
    {
      this.maxProblems := maxProblems;
      this.room := room;
      problems, truncated, failure := 0, false, None;
    }

    predicate Full()
      reads this
    {
      failure.Some? || problems >= maxProblems
    }

    predicate Clean()
      reads this
    {
      problems == 0 && !truncated && failure.None?
    }

    /** Nothing found, and nothing left out. */
    predicate Trusted()
      reads this
    {
      Clean() && maxProblems > 0
    }

    /** Notes a problem. One there is no room for is not lost: the report says that something is missing. */
    method Problem()
      modifies this
      ensures !Clean()
      ensures if old(Full()) || old(room) == 0 then problems == old(problems) && truncated
              else problems == old(problems) + 1 && truncated == old(truncated) && room == old(room) - 1
      ensures failure == old(failure) && (old(problems) <= maxProblems ==> problems <= maxProblems)
    {
      if Full() || room == 0 {
        truncated := true;
        return;
      }
      room := room - 1;
      problems := problems + 1;
    }

    /** Running out of memory and failing to read stop the pass; anything else is a finding. */
    method Failed(kind: ErrorKind)
      modifies this
      ensures !Clean()
      ensures kind == BudgetExceeded || kind == Io ==>
                && problems == old(problems) && truncated == old(truncated)
                && failure == if old(failure).Some? then old(failure) else Some(kind)
      ensures kind != BudgetExceeded && kind != Io ==> failure == old(failure)
    {
      if kind == BudgetExceeded || kind == Io {
        if failure.None? {
          failure := Some(kind);
        }
        return;
      }
      Problem();
    }
  }

  ghost predicate InFile(t: Tree, o: nat) {
    o < |t.file| && t.file[o].Some?
  }

  /** Loads a page for the walk. */
  method WalkPage(t: Tree, avail: set<nat>, o: nat, rep: Reporter) returns (p: Option<Page>)
    modifies rep
    ensures p.Some? ==> p.value == At(t, o) && InFile(t, o)
    ensures p.Some? <==> Load(t, avail, o).Ok?
    ensures rep.Trusted() <==> old(rep.Trusted()) && p.Some?
  {
    var loaded := Load(t, avail, o);
    if loaded.Err? {
      rep.Failed(loaded.kind);
      return None;
    }
    p := Some(loaded.value);
  }

  method CheckPageDigests(t: Tree, p: Page, rep: Reporter)
    modifies rep
    ensures rep.Trusted() <==> old(rep.Trusted()) && PageOk(t.enc, p)
  {
    var checked := CheckDigests(t.enc, p);
    if checked.Err? {
      rep.Failed(checked.kind);
    }
  }

  // ---------------------------------------------------------------- separators

  /** What a parent says one of its children starts at. */
  datatype Separator = SepKey(key: Key) | SepDigest(digest: U64)

  function SeparatorOf(p: Page, i: nat): Separator
    requires i < |p.keys|
  {
    if p.layout.omittedKeys then SepDigest(p.slots[i]) else SepKey(p.keys[i])
  }

  /** The digest of a page's first entry, whichever way the digests are laid out. */
  method FirstDigest(p: Page) returns (d: U64)
    requires |p.keys| > 0
    ensures d == Digests(p)[0]
  {
    if !p.layout.eytzinger {
      return p.slots[0];
    }
    assert |Digests(p)| == |p.slots|;
    var node := FirstNode(p);
    d := p.slots[node - 1];
  }

  ghost predicate SeparatorFits(e: Encoding, separator: Separator, child: Page) {
    && |child.keys| > 0
    && match separator
       case SepKey(key) => if child.layout.omittedKeys then e.accepts(key, Digests(child)[0]) else child.keys[0] == key
       case SepDigest(digest) => digest == Digests(child)[0]
  }

  /** Checks that a child starts where its parent says it does. */
  method CheckSeparator(t: Tree, child: Page, separator: Separator, rep: Reporter)
    modifies rep
    ensures rep.Trusted() <==> old(rep.Trusted()) && SeparatorFits(t.enc, separator, child)
  {
    if |child.keys| == 0 {
      rep.Problem();
      return;
    }
    var digest := FirstDigest(child);
    match separator {
      case SepKey(key) =>
        if child.layout.omittedKeys {
          if !t.enc.accepts(key, digest) {
            rep.Problem();
          }
        } else if child.keys[0] != key {
          rep.Problem();
        }
      case SepDigest(d) =>
        if d != digest {
          rep.Problem();
        }
    }
  }

  /** A separator that fits is the first key of its child, in every mix of layouts an exact encoding
      allows and in the uniform ones of the others. */
  lemma FittingSeparatorIsFirstKey(t: Tree, parent: nat, i: nat, child: nat)
    requires Lawful(t.enc) && SameMode(t, parent) && SameMode(t, child)
    requires PageOk(t.enc, At(t, parent)) && PageOk(t.enc, At(t, child))
    requires i < Count(t, parent) && SeparatorFits(t.enc, SeparatorOf(At(t, parent), i), At(t, child))
    ensures KeyAt(t.enc, At(t, parent), i) == FirstKey(t, child)
  {
    var e, p, c := t.enc, At(t, parent), At(t, child);
    CheckedKeysReadable(e, p);
    CheckedKeysReadable(e, c);
    var a, b := Keys(e, p)[i], Keys(e, c)[0];
    if !c.layout.omittedKeys {
      CheckedEntry(e, c, 0);
    }
    if p.layout.omittedKeys != c.layout.omittedKeys {
      assert e.digest(a) == e.digest(b);
      assert e.compare(a, b) == e.compare(a, b);
    }
  }

  // ---------------------------------------------------------------- what the pass goes over

  /** An entry of an internal page: the child it leads to, and where it says the child starts. */
  datatype Edge = Edge(child: nat, separator: Separator)

  ghost function PageEdges(p: Page): (es: seq<Edge>)
    ensures |es| == if p.kind == Internal then |p.keys| else 0
    ensures forall i {:trigger es[i]} :: 0 <= i < |es| ==> es[i] == Edge(p.payloads[i].page, SeparatorOf(p, i))
  {
    if p.kind == Internal then
      seq(|p.keys|, i requires 0 <= i < |p.keys| => Edge(p.payloads[i].page, SeparatorOf(p, i)))
    else []
  }

  ghost function EdgeParts(t: Tree, level: seq<nat>): (ps: seq<seq<Edge>>)
    ensures |ps| == |level|
    ensures forall i {:trigger ps[i]} :: 0 <= i < |ps| ==> ps[i] == PageEdges(At(t, level[i]))
  {
    seq(|level|, i requires 0 <= i < |level| => PageEdges(At(t, level[i])))
  }

  ghost function Edges(t: Tree, level: seq<nat>): seq<Edge> {
    Cat(EdgeParts(t, level))
  }

  /** A key the pass compares with the one before it, and whether it stands for keys that may be equal. */
  datatype Mark = Mark(key: Key, loose: bool)

  /** The keys of a page that are compared. Separators that are left out are not. */
  ghost function PageMarks(e: Encoding, p: Page): (ms: seq<Mark>)
    ensures |ms| == if p.kind == Internal && p.layout.omittedKeys then 0 else |p.keys|
    ensures forall i {:trigger ms[i]} :: 0 <= i < |ms| ==> ms[i] == Mark(KeyAt(e, p, i), Inexact(e, p))
  {
    if p.kind == Internal && p.layout.omittedKeys then []
    else seq(|p.keys|, i requires 0 <= i < |p.keys| => Mark(KeyAt(e, p, i), Inexact(e, p)))
  }

  ghost function MarkParts(t: Tree, level: seq<nat>): (ps: seq<seq<Mark>>)
    ensures |ps| == |level|
    ensures forall i {:trigger ps[i]} :: 0 <= i < |ps| ==> ps[i] == PageMarks(t.enc, At(t, level[i]))
  {
    seq(|level|, i requires 0 <= i < |level| => PageMarks(t.enc, At(t, level[i])))
  }

  ghost function Marks(t: Tree, level: seq<nat>): seq<Mark> {
    Cat(MarkParts(t, level))
  }

  lemma EdgesNext(t: Tree, level: seq<nat>, n: nat)
    requires n < |level|
    ensures Edges(t, level[..n + 1]) == Edges(t, level[..n]) + PageEdges(At(t, level[n]))
  {
    assert EdgeParts(t, level[..n + 1])[..n] == EdgeParts(t, level[..n]);
  }

  lemma MarksNext(t: Tree, level: seq<nat>, n: nat)
    requires n < |level|
    ensures Marks(t, level[..n + 1]) == Marks(t, level[..n]) + PageMarks(t.enc, At(t, level[n]))
  {
    assert MarkParts(t, level[..n + 1])[..n] == MarkParts(t, level[..n]);
  }

  lemma {:induction false} LevelPrefix(t: Tree, level: seq<nat>, n: nat)
    requires n <= |level|
    ensures Edges(t, level[..n]) <= Edges(t, level) && Marks(t, level[..n]) <= Marks(t, level)
    decreases |level| - n
  {
    if n == |level| {
      assert level[..n] == level;
    } else {
      LevelPrefix(t, level, n + 1);
      EdgesNext(t, level, n);
      MarksNext(t, level, n);
    }
  }

  // ---------------------------------------------------------------- keys in order

  /** One key sorts above the one before it, or is the same where either stands for several. */
  ghost predicate SortsBelow(e: Encoding, a: Mark, b: Mark) {
    && e.readable(a.key) && e.readable(b.key)
    && (e.compare(a.key, b.key) == Less || ((a.loose || b.loose) && e.compare(a.key, b.key) == Equal))
  }

  ghost predicate NextSorts(e: Encoding, ms: seq<Mark>, i: nat) {
    i + 1 < |ms| ==> SortsBelow(e, ms[i], ms[i + 1])
  }

  ghost predicate InLine(e: Encoding, ms: seq<Mark>) {
    forall i: nat {:trigger NextSorts(e, ms, i)} :: i + 1 < |ms| ==> NextSorts(e, ms, i)
  }

  ghost function LastMark(ms: seq<Mark>): Option<Mark> {
    if ms == [] then None else Some(ms[|ms| - 1])
  }

  lemma InLineNext(e: Encoding, ms: seq<Mark>, m: Mark)
    requires InLine(e, ms) && (ms != [] ==> SortsBelow(e, ms[|ms| - 1], m))
    ensures InLine(e, ms + [m])
  {
    forall i: nat | i + 1 < |ms + [m]|
      ensures NextSorts(e, ms + [m], i)
    {
      assert NextSorts(e, ms, i);
    }
  }

  lemma InLineInside(e: Encoding, all: seq<Mark>, ms: seq<Mark>, m: Mark)
    requires InLine(e, all) && ms + [m] <= all && ms != []
    ensures SortsBelow(e, ms[|ms| - 1], m)
  {
    assert NextSorts(e, all, |ms| - 1);
    assert all[|ms|] == (ms + [m])[|ms|] && all[|ms| - 1] == (ms + [m])[|ms| - 1];
  }

  lemma InLinePrefix(e: Encoding, all: seq<Mark>, ms: seq<Mark>)
    requires InLine(e, all) && ms <= all
    ensures InLine(e, ms)
  {
    forall i: nat | i + 1 < |ms|
      ensures NextSorts(e, ms, i)
    {
      assert NextSorts(e, all, i);
    }
  }

  /** Checks that a key sorts above the one before it. */
  method CheckAbove(t: Tree, previous: Option<Mark>, next: Mark, rep: Reporter)
    modifies rep
    ensures rep.Trusted() <==> old(rep.Trusted()) && (previous.Some? ==> SortsBelow(t.enc, previous.value, next))
  {
    if previous.None? {
      return;
    }
    if !t.enc.readable(previous.value.key) || !t.enc.readable(next.key) {
      rep.Failed(Corrupt);
      return;
    }
    var ordering := t.enc.compare(previous.value.key, next.key);
    if ordering == Greater || (ordering == Equal && !(previous.value.loose || next.loose)) {
      rep.Problem();
    }
  }

  /** The buffer holds every key that is compared. */
  ghost predicate HoldsKeys(buffer: nat, ms: seq<Mark>) {
    forall i :: 0 <= i < |ms| ==> |ms[i].key| <= buffer
  }

  // ---------------------------------------------------------------- the level below

  /** Pages linked rightwards, each with entries. */
  ghost predicate Chained(t: Tree, seen: seq<nat>) {
    && (forall i :: 0 <= i < |seen| ==> InFile(t, seen[i]) && Count(t, seen[i]) > 0)
    && (forall i, j :: 0 <= i && j == i + 1 && j < |seen| ==> At(t, seen[i]).right == Some(seen[j]))
  }

  /** A whole level, linked rightwards from its first page to its last. */
  ghost predicate Linked(t: Tree, level: seq<nat>) {
    && |level| > 0
    && (forall i :: 0 <= i < |level| ==> InFile(t, level[i]))
    && (forall i {:trigger At(t, level[i])} :: 0 <= i < |level| ==> At(t, level[i]).right == Neighbour(level, i + 1))
  }

  /** Steps along one level's sibling chain in lockstep with the children the level above declares. */
  class LowerChain {
    var current: Option<nat>
    var started: bool
    var stepsLeft: nat
    var broken: bool
    /** The children matched so far. */
    ghost var seen: seq<nat>

    constructor (t: Tree)
      ensures Matches(t) && seen == []
    {
      stepsLeft := |t.file| + 1;
      current, started, broken, seen := None, false, false, [];
    }

    ghost predicate Matches(t: Tree)
      reads this
    {
      && !broken
      && (started <==> seen != [])
      && Chained(t, seen)
      && (started ==> current == At(t, seen[|seen| - 1]).right)
      && stepsLeft + |seen| == |t.file| + 1
    }

    /** The chain goes on with this child. */
    ghost predicate Awaits(t: Tree, child: nat)
      reads this
    {
      (started ==> current == Some(child)) && |seen| <= |t.file|
    }

    /** Matches one declared child against the chain and advances. */
    method Expect(t: Tree, avail: set<nat>, child: nat, separator: Separator, rep: Reporter)
      requires rep.Trusted() ==> Matches(t)
      modifies this, rep
      ensures rep.Trusted() ==>
                && old(rep.Trusted())
                && Matches(t) && seen == old(seen) + [child]
                && SeparatorFits(t.enc, separator, At(t, child))
      ensures (&& old(rep.Trusted()) && old(Awaits(t, child))
               && Load(t, avail, child).Ok? && SeparatorFits(t.enc, separator, At(t, child))) ==> rep.Trusted()
    {
      if broken {
        return;
      }
      if !started {
        started := true;
        current := Some(child);
      }
      if current != Some(child) {
        rep.Problem();
        broken := true;
        return;
      }
      if stepsLeft == 0 {
        rep.Problem();
        broken := true;
        return;
      }
      stepsLeft := stepsLeft - 1;
      var page := WalkPage(t, avail, child, rep);
      if page.None? {
        broken := true;
        current := None;
        return;
      }
      CheckSeparator(t, page.value, separator, rep);
      seen := seen + [child];
      current := page.value.right;
    }

    /** Reports pages the level below has that no parent pointed at. */
    method Finish(t: Tree, rep: Reporter)
      requires rep.Trusted() ==> Matches(t) && seen != []
      modifies rep
      ensures rep.Trusted() ==> old(rep.Trusted()) && Linked(t, seen)
      ensures old(rep.Trusted()) && Linked(t, seen) ==> rep.Trusted()
    {
      if broken {
        return;
      }
      if current.Some? {
        rep.Problem();
      }
    }
  }

  // ---------------------------------------------------------------- one level

  /** Edge `i` leads to page `i`, which starts where it says. */
  ghost predicate EdgeOk(t: Tree, edges: seq<Edge>, pages: seq<nat>, i: nat)
    requires i < |edges| && i < |pages|
  {
    edges[i].child == pages[i] && SeparatorFits(t.enc, edges[i].separator, At(t, pages[i]))
  }

  ghost predicate Lists(t: Tree, edges: seq<Edge>, pages: seq<nat>) {
    && |edges| == |pages|
    && forall i {:trigger EdgeOk(t, edges, pages, i)} :: 0 <= i < |edges| ==> EdgeOk(t, edges, pages, i)
  }

  lemma ListsNext(t: Tree, edges: seq<Edge>, pages: seq<nat>, edge: Edge)
    requires Lists(t, edges, pages) && SeparatorFits(t.enc, edge.separator, At(t, edge.child))
    ensures Lists(t, edges + [edge], pages + [edge.child])
  {
    forall i | 0 <= i < |edges| + 1
      ensures EdgeOk(t, edges + [edge], pages + [edge.child], i)
    {
      assert i < |edges| ==> EdgeOk(t, edges, pages, i);
    }
  }

  lemma ListsPrefix(t: Tree, edges: seq<Edge>, pages: seq<nat>, some: seq<Edge>)
    requires Lists(t, edges, pages) && some <= edges
    ensures Lists(t, some, pages[..|some|])
  {
    forall i | 0 <= i < |some|
      ensures EdgeOk(t, some, pages[..|some|], i)
    {
      assert EdgeOk(t, edges, pages, i);
    }
  }

  /** The edges say which pages they list. */
  lemma SameListed(t: Tree, edges: seq<Edge>, a: seq<nat>, b: seq<nat>)
    requires Lists(t, edges, a) && Lists(t, edges, b)
    ensures a == b
  {
    forall i | 0 <= i < |a|
      ensures a[i] == b[i]
    {
      assert EdgeOk(t, edges, a, i) && EdgeOk(t, edges, b, i);
    }
  }

  ghost predicate CheckedPage(t: Tree, level: seq<nat>, kind: NodeKind, i: nat)
    requires i < |level|
  {
    var p := At(t, level[i]);
    && PageOk(t.enc, p) && p.kind == kind && p.left == Neighbour(level, i - 1)
    && (kind == Internal ==> |p.keys| > 0)
  }

  /** The first `n` pages of a level, checked and linked leftwards. */
  ghost predicate Checked(t: Tree, level: seq<nat>, kind: NodeKind, n: nat) {
    && n <= |level|
    && (forall i {:trigger At(t, level[i])} :: 0 <= i < n ==> CheckedPage(t, level, kind, i))
  }

  ghost function Head(s: seq<nat>): Option<nat> {
    if s == [] then None else Some(s[0])
  }

  /** An internal page the pass finds nothing wrong with, behind these edges and marks of its level. */
  ghost predicate PagePasses(t: Tree, avail: set<nat>, buffer: nat, ordinal: nat, edges: seq<Edge>, marks: seq<Mark>,
                             below: seq<nat>) {
    var p := At(t, ordinal);
    && AllAvailable(t, avail) && Linked(t, below) && |below| <= |t.file|
    && |edges| + |PageEdges(p)| <= |below|
    && Lists(t, edges + PageEdges(p), below[..|edges| + |PageEdges(p)|])
    && ordinal !in below
    && InLine(t.enc, marks + PageMarks(t.enc, p)) && HoldsKeys(buffer, PageMarks(t.enc, p))
  }

  /** How far the walk of an internal page has come. */
  ghost predicate AmongEntries(t: Tree, ordinal: nat, i: nat, edges: seq<Edge>, marks: seq<Mark>, seen: seq<nat>,
                               first: Option<nat>, previous: Option<Mark>)
    requires i <= Count(t, ordinal) && At(t, ordinal).kind == Internal
  {
    var p := At(t, ordinal);
    && Lists(t, edges + PageEdges(p)[..i], seen) && first == Head(seen)
    && InLine(t.enc, marks + MarksTo(t.enc, p, i)) && previous == LastMark(marks + MarksTo(t.enc, p, i))
  }

  /** The marks of the first `i` entries. */
  ghost function MarksTo(e: Encoding, p: Page, i: nat): seq<Mark>
    requires i <= |p.keys|
  {
    if p.kind == Internal && p.layout.omittedKeys then [] else PageMarks(e, p)[..i]
  }

  lemma MarksToNext(e: Encoding, p: Page, i: nat)
    requires i < |p.keys| && !(p.kind == Internal && p.layout.omittedKeys)
    ensures MarksTo(e, p, i + 1) == MarksTo(e, p, i) + [Mark(KeyAt(e, p, i), Inexact(e, p))]
  {
    assert PageMarks(e, p)[..i + 1] == PageMarks(e, p)[..i] + [PageMarks(e, p)[i]];
  }

  lemma MarksToAll(e: Encoding, p: Page)
    ensures MarksTo(e, p, 0) == [] && MarksTo(e, p, |p.keys|) == PageMarks(e, p)
  {
  }

  /** Where the chain below stands when nothing is wrong. */
  lemma NextBelow(t: Tree, avail: set<nat>, buffer: nat, ordinal: nat, edges: seq<Edge>, marks: seq<Mark>,
                  below: seq<nat>, i: nat, seen: seq<nat>)
    requires At(t, ordinal).kind == Internal && i < Count(t, ordinal)
    requires PagePasses(t, avail, buffer, ordinal, edges, marks, below)
    requires Lists(t, edges + PageEdges(At(t, ordinal))[..i], seen)
    ensures |seen| < |below| && seen == below[..|seen|]
    ensures var p := At(t, ordinal);
            && below[|seen|] == p.payloads[i].page && SeparatorFits(t.enc, SeparatorOf(p, i), At(t, below[|seen|]))
            && Load(t, avail, below[|seen|]).Ok? && below[|seen|] != ordinal
    ensures seen != [] ==> At(t, seen[|seen| - 1]).right == Some(below[|seen|])
  {
    var p := At(t, ordinal);
    var all := edges + PageEdges(p);
    var done := edges + PageEdges(p)[..i];
    var listed := below[..|all|];
    assert done <= all;
    ListsPrefix(t, all, listed, done);
    SameListed(t, done, seen, listed[..|done|]);
    assert listed[..|done|] == below[..|done|];
    assert EdgeOk(t, all, listed, |done|);
    assert all[|done|] == PageEdges(p)[i];
  }

  /** One entry of an internal page against the chain below. */
  method WalkEntry(t: Tree, avail: set<nat>, ordinal: nat, i: nat, lower: LowerChain, first: Option<nat>,
                   rep: Reporter, ghost buffer: nat, ghost edges: seq<Edge>, ghost marks: seq<Mark>, ghost good: bool,
                   ghost below: seq<nat>)
    returns (first': Option<nat>)
    requires At(t, ordinal).kind == Internal && i < Count(t, ordinal)
    requires rep.Trusted() ==>
               && lower.Matches(t) && first == Head(lower.seen)
               && Lists(t, edges + PageEdges(At(t, ordinal))[..i], lower.seen)
    requires good ==> rep.Trusted() && PagePasses(t, avail, buffer, ordinal, edges, marks, below)
    modifies lower, rep
    ensures rep.Trusted() ==>
              && old(rep.Trusted())
              && lower.Matches(t) && first' == Head(lower.seen)
              && Lists(t, edges + PageEdges(At(t, ordinal))[..i + 1], lower.seen)
    ensures good ==> rep.Trusted()
  {
    var p := At(t, ordinal);
    var child := p.payloads[i].page;
    first' := if first.None? then Some(child) else first;
    ghost var seen := lower.seen;
    if good {
      NextBelow(t, avail, buffer, ordinal, edges, marks, below, i, seen);
    }
    if child >= |t.file| || child == ordinal {
      rep.Problem();
      return;
    }
    lower.Expect(t, avail, child, SeparatorOf(p, i), rep);
    if rep.Trusted() {
      var done := edges + PageEdges(p)[..i];
      ListsNext(t, done, seen, PageEdges(p)[i]);
      assert edges + PageEdges(p)[..i + 1] == done + [PageEdges(p)[i]];
    }
  }

  /** A separator against the one before it. Pages that leave them out have none to compare. */
  method WalkSeparator(t: Tree, buffer: nat, p: Page, i: nat, before: Option<Mark>, rep: Reporter,
                       ghost marks: seq<Mark>, ghost good: bool)
    returns (r: Result<()>, previous: Option<Mark>)
    requires p.kind == Internal && i < |p.keys|
    requires rep.Trusted() ==>
               InLine(t.enc, marks + MarksTo(t.enc, p, i)) && before == LastMark(marks + MarksTo(t.enc, p, i))
    requires good ==>
               && rep.Trusted()
               && InLine(t.enc, marks + PageMarks(t.enc, p)) && HoldsKeys(buffer, PageMarks(t.enc, p))
    modifies rep
    ensures rep.Trusted() && r.Ok? ==>
              && old(rep.Trusted())
              && InLine(t.enc, marks + MarksTo(t.enc, p, i + 1))
              && previous == LastMark(marks + MarksTo(t.enc, p, i + 1))
    ensures good ==> rep.Trusted() && r.Ok?
  {
    previous := before;
    if p.layout.omittedKeys {
      return Ok(()), previous;
    }
    MarkFits(t.enc, p, i, marks);
    ghost var done := marks + MarksTo(t.enc, p, i);
    if good && done != [] {
      InLineInside(t.enc, marks + PageMarks(t.enc, p), done, PageMarks(t.enc, p)[i]);
    }
    r, previous := WalkMark(t, buffer, before, Mark(p.keys[i], false), rep, done, good);
  }

  lemma MarkFits(e: Encoding, p: Page, i: nat, marks: seq<Mark>)
    requires i < |p.keys| && !(p.kind == Internal && p.layout.omittedKeys)
    ensures var done := marks + MarksTo(e, p, i);
            && marks + MarksTo(e, p, i + 1) == done + [PageMarks(e, p)[i]]
            && done + [PageMarks(e, p)[i]] <= marks + PageMarks(e, p)
  {
    MarksToNext(e, p, i);
  }

  /** A key against the one before it, which it then takes the place of. */
  method WalkMark(t: Tree, buffer: nat, before: Option<Mark>, next: Mark, rep: Reporter, ghost done: seq<Mark>,
                  ghost good: bool)
    returns (r: Result<()>, previous: Option<Mark>)
    requires rep.Trusted() ==> InLine(t.enc, done) && before == LastMark(done)
    requires good ==> rep.Trusted() && |next.key| <= buffer && (before.Some? ==> SortsBelow(t.enc, before.value, next))
    modifies rep
    ensures rep.Trusted() && r.Ok? ==>
              old(rep.Trusted()) && InLine(t.enc, done + [next]) && previous == LastMark(done + [next])
    ensures good ==> rep.Trusted() && r.Ok?
  {
    previous := before;
    CheckAbove(t, before, next, rep);
    if |next.key| > buffer {
      return Err(BudgetExceeded), previous;
    }
    if rep.Trusted() {
      InLineNext(t.enc, done, next);
    }
    previous := Some(next);
    r := Ok(());
  }

  /** The entries of one internal page against the chain below. */
  method WalkInternalPage(t: Tree, avail: set<nat>, buffer: nat, ordinal: nat, lower: LowerChain, first: Option<nat>,
                          before: Option<Mark>, rep: Reporter, ghost edges: seq<Edge>, ghost marks: seq<Mark>,
                          ghost good: bool, ghost below: seq<nat>)
    returns (r: Result<bool>, first': Option<nat>, previous: Option<Mark>)
    requires At(t, ordinal).kind == Internal
    requires rep.Trusted() ==> lower.Matches(t) && AmongEntries(t, ordinal, 0, edges, marks, lower.seen, first, before)
    requires good ==> rep.Trusted() && PagePasses(t, avail, buffer, ordinal, edges, marks, below)
    modifies lower, rep
    ensures rep.Trusted() && r.Ok? ==>
              && old(rep.Trusted()) && r.value && lower.Matches(t)
              && AmongEntries(t, ordinal, Count(t, ordinal), edges, marks, lower.seen, first', previous)
    ensures good ==> rep.Trusted() && r.Ok?
  {
    var p := At(t, ordinal);
    first', previous := first, before;
    for i := 0 to |p.keys|
      invariant rep.Trusted() ==>
                  && old(rep.Trusted())
                  && lower.Matches(t) && AmongEntries(t, ordinal, i, edges, marks, lower.seen, first', previous)
      invariant good ==> rep.Trusted()
    {
      if rep.Full() {
        return Ok(false), first', previous;
      }
      first' := WalkEntry(t, avail, ordinal, i, lower, first', rep, buffer, edges, marks, good, below);
      var sorted;
      sorted, previous := WalkSeparator(t, buffer, p, i, previous, rep, marks, good);
      if sorted.Err? {
        return Err(sorted.kind), first', previous;
      }
    }
    r := Ok(true);
  }

  /** How far the walk of an internal level has come. */
  ghost predicate WalkedTo(t: Tree, level: seq<nat>, n: nat, current: Option<nat>, expectedLeft: Option<nat>,
                           seen: seq<nat>, first: Option<nat>, previous: Option<Mark>) {
    && Linked(t, level)
    && Checked(t, level, Internal, n)
    && current == Neighbour(level, n) && expectedLeft == Neighbour(level, n - 1)
    && Lists(t, Edges(t, level[..n]), seen)
    && (n > 0 ==> seen != []) && first == Head(seen)
    && InLine(t.enc, Marks(t, level[..n])) && previous == LastMark(Marks(t, level[..n]))
  }

  lemma CheckedNext(t: Tree, level: seq<nat>, kind: NodeKind, n: nat)
    requires n < |level| && Checked(t, level, kind, n)
    requires var p := At(t, level[n]);
             && p.kind == kind && (kind == Internal ==> |p.keys| > 0) && p.left == Neighbour(level, n - 1)
             && PageOk(t.enc, p)
    ensures Checked(t, level, kind, n + 1)
  {
    forall i | 0 <= i < n + 1
      ensures CheckedPage(t, level, kind, i)
    {
      if i < n {
        assert At(t, level[i]) == At(t, level[i]);
      }
    }
  }

  lemma EntersPage(t: Tree, level: seq<nat>, n: nat, expectedLeft: Option<nat>, seen: seq<nat>, first: Option<nat>,
                   previous: Option<Mark>)
    requires n < |level| && WalkedTo(t, level, n, Some(level[n]), expectedLeft, seen, first, previous)
    requires At(t, level[n]).kind == Internal
    ensures AmongEntries(t, level[n], 0, Edges(t, level[..n]), Marks(t, level[..n]), seen, first, previous)
  {
    var p := At(t, level[n]);
    MarksToAll(t.enc, p);
    assert Edges(t, level[..n]) + PageEdges(p)[..0] == Edges(t, level[..n]);
    assert Marks(t, level[..n]) + [] == Marks(t, level[..n]);
  }

  lemma LeavesPage(t: Tree, level: seq<nat>, n: nat, expectedLeft: Option<nat>, seen: seq<nat>, first: Option<nat>,
                   previous: Option<Mark>, seen': seq<nat>, first': Option<nat>, previous': Option<Mark>)
    requires n < |level| && WalkedTo(t, level, n, Some(level[n]), expectedLeft, seen, first, previous)
    requires Checked(t, level, Internal, n + 1)
    requires AmongEntries(t, level[n], Count(t, level[n]), Edges(t, level[..n]), Marks(t, level[..n]), seen', first',
                          previous')
    ensures WalkedTo(t, level, n + 1, At(t, level[n]).right, Some(level[n]), seen', first', previous')
  {
    var p := At(t, level[n]);
    MarksToAll(t.enc, p);
    EdgesNext(t, level, n);
    MarksNext(t, level, n);
    assert PageEdges(p)[..|p.keys|] == PageEdges(p);
    assert |Edges(t, level[..n + 1])| == |Edges(t, level[..n])| + |p.keys|;
  }

  /** Reads the next page of a chain and checks what does not need its entries. */
  method EnterPage(t: Tree, avail: set<nat>, ordinal: nat, kind: NodeKind, expectedLeft: Option<nat>, rep: Reporter)
    returns (p: Option<Page>)
    modifies rep
    ensures p.Some? ==> p.value == At(t, ordinal) && p.value.kind == kind
    ensures rep.Trusted() <==>
              && old(rep.Trusted())
              && Load(t, avail, ordinal).Ok? && At(t, ordinal).kind == kind && PageOk(t.enc, At(t, ordinal))
              && At(t, ordinal).left == expectedLeft && (kind == Internal ==> Count(t, ordinal) > 0)
    ensures rep.Trusted() ==> p.Some?
  {
    p := WalkPage(t, avail, ordinal, rep);
    if p.None? {
      return;
    }
    if p.value.kind != kind || (kind == Internal && |p.value.keys| == 0) {
      rep.Problem();
      return None;
    }
    if p.value.left != expectedLeft {
      rep.Problem();
    }
    CheckPageDigests(t, p.value, rep);
  }

  /** A level the pass finds nothing wrong with, seen on its own. */
  ghost predicate LevelClean(t: Tree, level: seq<nat>, kind: NodeKind) {
    Linked(t, level) && Checked(t, level, kind, |level|) && InLine(t.enc, Marks(t, level))
  }

  /** The entries of `level` lead to the pages of `lower`, one each. */
  ghost predicate Covers(t: Tree, level: seq<nat>, lower: seq<nat>) {
    Lists(t, Edges(t, level), lower)
  }

  /** The same, together with the level below and what the pass needs to get over it. */
  ghost predicate LevelPasses(t: Tree, avail: set<nat>, buffer: nat, level: seq<nat>, below: seq<nat>) {
    && AllAvailable(t, avail) && LevelClean(t, level, Internal) && Linked(t, below) && Covers(t, level, below)
    && |below| <= |t.file| && HoldsKeys(buffer, Marks(t, level))
    && Apart(level, below)
  }

  ghost predicate Apart(a: seq<nat>, b: seq<nat>) {
    forall i :: 0 <= i < |a| ==> a[i] !in b
  }

  lemma PageOfLevel(t: Tree, avail: set<nat>, buffer: nat, level: seq<nat>, below: seq<nat>, n: nat)
    requires LevelPasses(t, avail, buffer, level, below) && n < |level|
    ensures PagePasses(t, avail, buffer, level[n], Edges(t, level[..n]), Marks(t, level[..n]), below)
  {
    MarksOfPage(t, buffer, level, n);
    EdgesOfPage(t, level, below, n);
  }

  lemma MarksOfPage(t: Tree, buffer: nat, level: seq<nat>, n: nat)
    requires n < |level| && InLine(t.enc, Marks(t, level)) && HoldsKeys(buffer, Marks(t, level))
    ensures InLine(t.enc, Marks(t, level[..n]) + PageMarks(t.enc, At(t, level[n])))
    ensures HoldsKeys(buffer, PageMarks(t.enc, At(t, level[n])))
  {
    LevelPrefix(t, level, n + 1);
    MarksNext(t, level, n);
    MarksInside(t.enc, buffer, Marks(t, level), Marks(t, level[..n]), PageMarks(t.enc, At(t, level[n])));
  }

  lemma MarksInside(e: Encoding, buffer: nat, all: seq<Mark>, marks: seq<Mark>, more: seq<Mark>)
    requires InLine(e, all) && HoldsKeys(buffer, all) && marks + more <= all
    ensures InLine(e, marks + more) && HoldsKeys(buffer, more)
  {
    InLinePrefix(e, all, marks + more);
    forall i | 0 <= i < |more|
      ensures |more[i].key| <= buffer
    {
      assert all[|marks| + i] == (marks + more)[|marks| + i] == more[i];
    }
  }

  lemma EdgesOfPage(t: Tree, level: seq<nat>, below: seq<nat>, n: nat)
    requires n < |level| && Covers(t, level, below)
    ensures var edges, more := Edges(t, level[..n]), PageEdges(At(t, level[n]));
            && |edges| + |more| <= |below|
            && Lists(t, edges + more, below[..|edges| + |more|])
  {
    LevelPrefix(t, level, n + 1);
    EdgesNext(t, level, n);
    ListsPrefix(t, Edges(t, level), below, Edges(t, level[..n + 1]));
  }

  /** One page further along an internal level. */
  method StepInternal(t: Tree, avail: set<nat>, buffer: nat, ordinal: nat, expectedLeft: Option<nat>, chain: LowerChain,
                      first: Option<nat>, before: Option<Mark>, rep: Reporter, ghost level: seq<nat>, ghost n: nat,
                      ghost good: bool, ghost below: seq<nat>)
    returns (r: Result<Option<Page>>, first': Option<nat>, previous: Option<Mark>)
    requires rep.Trusted() ==>
               chain.Matches(t) && WalkedTo(t, level, n, Some(ordinal), expectedLeft, chain.seen, first, before)
    requires good ==> rep.Trusted() && LevelPasses(t, avail, buffer, level, below)
    modifies chain, rep
    ensures rep.Trusted() && r.Ok? ==>
              && old(rep.Trusted())
              && chain.Matches(t) && r.value.Some?
              && WalkedTo(t, level, n + 1, r.value.value.right, Some(ordinal), chain.seen, first', previous)
    ensures good ==> rep.Trusted() && r.Ok?
  {
    first', previous := first, before;
    ghost var seen := chain.seen;
    if good {
      PageOfLevel(t, avail, buffer, level, below, n);
    }
    var page := EnterPage(t, avail, ordinal, Internal, expectedLeft, rep);
    if page.None? {
      return Ok(None), first', previous;
    }
    ghost var edges, marks := [], [];
    if rep.Trusted() {
      EntersPage(t, level, n, expectedLeft, seen, first, before);
      edges, marks := Edges(t, level[..n]), Marks(t, level[..n]);
    }
    var walked;
    walked, first', previous := WalkInternalPage(t, avail, buffer, ordinal, chain, first, before, rep, edges, marks,
                                                 good, below);
    if walked.Err? {
      return Err(walked.kind), first', previous;
    }
    if !walked.value {
      return Ok(None), first', previous;
    }
    if rep.Trusted() {
      CheckedNext(t, level, Internal, n);
      LeavesPage(t, level, n, expectedLeft, seen, first, before, chain.seen, first', previous);
    }
    r := Ok(page);
  }

  /** A level has been gone over, and its children matched against the chain below. */
  ghost predicate LevelWalked(t: Tree, level: seq<nat>, seen: seq<nat>, first: Option<nat>) {
    && LevelClean(t, level, Internal) && Covers(t, level, seen)
    && seen != [] && first == Some(seen[0])
  }

  /** Goes over the pages of an internal level. */
  method WalkPages(t: Tree, avail: set<nat>, buffer: nat, start: nat, steps: nat, chain: LowerChain, rep: Reporter,
                   ghost level: seq<nat>, ghost good: bool, ghost below: seq<nat>)
    returns (r: Result<bool>, stepsLeft: nat, first: Option<nat>)
    requires rep.Trusted() ==> Linked(t, level) && start == level[0] && chain.Matches(t) && chain.seen == []
    requires good ==> rep.Trusted() && LevelPasses(t, avail, buffer, level, below) && |level| <= steps
    modifies chain, rep
    ensures rep.Trusted() && r.Ok? ==>
              && old(rep.Trusted()) && r.value
              && chain.Matches(t) && LevelWalked(t, level, chain.seen, first) && stepsLeft + |level| == steps
    ensures good ==> rep.Trusted() && r.Ok?
  {
    stepsLeft, first := steps, None;
    var current := Some(start);
    var expectedLeft: Option<nat> := None;
    var previous: Option<Mark> := None;
    ghost var n: nat := 0;
    if rep.Trusted() {
      StartsLevel(t, level);
    }
    while current.Some?
      invariant rep.Trusted() ==>
                  && old(rep.Trusted())
                  && WalkedTo(t, level, n, current, expectedLeft, chain.seen, first, previous) && chain.Matches(t)
                  && stepsLeft + n == steps
      invariant good ==> rep.Trusted()
      decreases stepsLeft, current.Some?
    {
      if rep.Full() {
        return Ok(false), stepsLeft, first;
      }
      if stepsLeft == 0 {
        rep.Problem();
        return Ok(false), stepsLeft, first;
      }
      stepsLeft := stepsLeft - 1;
      var ordinal := current.value;
      var page;
      page, first, previous := StepInternal(t, avail, buffer, ordinal, expectedLeft, chain, first, previous, rep,
                                            level, n, good, below);
      if page.Err? {
        return Err(page.kind), stepsLeft, first;
      }
      if page.value.None? {
        return Ok(false), stepsLeft, first;
      }
      expectedLeft := Some(ordinal);
      current := page.value.value.right;
      n := n + 1;
    }
    if rep.Trusted() {
      WholeLevel(t, level, n, expectedLeft, chain.seen, first, previous);
    }
    r := Ok(true);
  }

  /** Walks one internal level along its sibling chain and returns where the level below starts. */
  method WalkLevel(t: Tree, avail: set<nat>, buffer: nat, start: nat, steps: nat, rep: Reporter, ghost level: seq<nat>,
                   ghost good: bool, ghost below: seq<nat>)
    returns (r: Result<Option<nat>>, stepsLeft: nat, ghost lower: seq<nat>)
    requires rep.Trusted() ==> Linked(t, level) && start == level[0]
    requires good ==> rep.Trusted() && LevelPasses(t, avail, buffer, level, below) && |level| <= steps
    modifies rep
    ensures rep.Trusted() && r.Ok? ==>
              && old(rep.Trusted())
              && Linked(t, lower) && LevelWalked(t, level, lower, r.value) && stepsLeft + |level| == steps
    ensures good ==> rep.Trusted() && r.Ok? && lower == below
  {
    lower := [];
    var chain := new LowerChain(t);
    var walked, first;
    walked, stepsLeft, first := WalkPages(t, avail, buffer, start, steps, chain, rep, level, good, below);
    if walked.Err? {
      return Err(walked.kind), stepsLeft, lower;
    }
    if !walked.value {
      return Ok(None), stepsLeft, lower;
    }
    EndLevel(t, chain, first, rep, level, good, below);
    lower := chain.seen;
    r := Ok(first);
  }

  method EndLevel(t: Tree, chain: LowerChain, first: Option<nat>, rep: Reporter, ghost level: seq<nat>,
                  ghost good: bool, ghost below: seq<nat>)
    requires rep.Trusted() ==> chain.Matches(t) && LevelWalked(t, level, chain.seen, first)
    requires good ==> rep.Trusted() && Linked(t, below) && Covers(t, level, below)
    modifies rep
    ensures rep.Trusted() ==> old(rep.Trusted()) && Linked(t, chain.seen)
    ensures good ==> rep.Trusted() && chain.seen == below
  {
    if good {
      SameListed(t, Edges(t, level), chain.seen, below);
    }
    chain.Finish(t, rep);
    if first.None? {
      rep.Problem();
    }
  }

  lemma StartsLevel(t: Tree, level: seq<nat>)
    requires Linked(t, level)
    ensures WalkedTo(t, level, 0, Some(level[0]), None, [], None, None)
  {
    assert level[..0] == [];
  }

  lemma WholeLevel(t: Tree, level: seq<nat>, n: nat, expectedLeft: Option<nat>, seen: seq<nat>, first: Option<nat>,
                   previous: Option<Mark>)
    requires WalkedTo(t, level, n, None, expectedLeft, seen, first, previous)
    ensures n == |level| && LevelWalked(t, level, seen, first)
  {
    assert n == |level| && level[..n] == level;
  }

  // ---------------------------------------------------------------- all internal levels

  /** Levels gone over from the root down, the lowest first. The lowest is listed, and not yet gone over. */
  ghost predicate Stacked(t: Tree, levels: seq<seq<nat>>) {
    && t.root.Some? && levels != [] && levels[|levels| - 1] == [t.root.value]
    && (forall l {:trigger LevelClean(t, levels[l], Internal)} :: 0 < l < |levels| ==>
          LevelClean(t, levels[l], Internal))
    && (forall l {:trigger CoversNext(t, levels, l)} :: 0 <= l < |levels| - 1 ==> CoversNext(t, levels, l))
  }

  ghost predicate CoversNext(t: Tree, levels: seq<seq<nat>>, l: nat)
    requires l + 1 < |levels|
  {
    Covers(t, levels[l + 1], levels[l])
  }

  lemma StackedNext(t: Tree, levels: seq<seq<nat>>, lower: seq<nat>)
    requires Stacked(t, levels) && LevelClean(t, levels[0], Internal) && Covers(t, levels[0], lower)
    ensures Stacked(t, [lower] + levels)
  {
    var all := [lower] + levels;
    forall l | 0 <= l < |all| - 1
      ensures CoversNext(t, all, l)
    {
      if l > 0 {
        assert CoversNext(t, levels, l - 1);
      }
    }
    forall l | 0 < l < |all|
      ensures LevelClean(t, all[l], Internal)
    {
      assert all[l] == levels[l - 1] && (l > 1 ==> LevelClean(t, levels[l - 1], Internal));
    }
  }

  /** Number of pages. */
  ghost function Sizes(levels: seq<seq<nat>>): nat {
    if levels == [] then 0 else |levels[0]| + Sizes(levels[1..])
  }

  ghost predicate TreeIsCoarse(t: Tree) {
    t.root.Some? && Inexact(t.enc, At(t, t.root.value))
  }

  /** The value of an entry is where it should be, and its key can be told. */
  ghost predicate LeafEntryOk(t: Tree, p: Page, i: nat)
    requires i < |p.keys|
  {
    && (p.payloads[i].Overflow? ==> IsBlob(t, p.payloads[i].blob))
    && (p.layout.omittedKeys ==> t.enc.rebuild(p.slots[i]).Some?)
  }

  ghost predicate LeafOk(t: Tree, p: Page, n: nat) {
    n <= |p.keys| && forall i {:trigger LeafEntryOk(t, p, i)} :: 0 <= i < n ==> LeafEntryOk(t, p, i)
  }

  /** What the pass goes over when it finds nothing, from the leaves up to the root: pages that are sound and
      linked to their neighbours both ways, levels in order, each listed by the one above with separators that
      fit, and values that are where they should be. */
  ghost predicate Walked(t: Tree, s: Shape) {
    && t.root.Some? && 0 < |s.levels| <= t.maxDepth && s.coarse == TreeIsCoarse(t)
    && Stacked(t, s.levels) && LevelClean(t, s.levels[0], Leaf)
    && LeavesOk(t, s.levels[0], |s.levels[0]|)
  }

  ghost predicate LeavesOk(t: Tree, level: seq<nat>, n: nat)
    requires n <= |level|
  {
    forall i {:trigger LeafAt(t, level, i)} :: 0 <= i < n ==> LeafAt(t, level, i)
  }

  ghost predicate LeafAt(t: Tree, level: seq<nat>, i: nat)
    requires i < |level|
  {
    LeafOk(t, At(t, level[i]), Count(t, level[i]))
  }

  lemma WalkedLevel(t: Tree, s: Shape, l: nat)
    requires Walked(t, s) && l < |s.levels|
    ensures LevelClean(t, s.levels[l], if l == 0 then Leaf else Internal)
  {
    assert l > 0 ==> LevelClean(t, s.levels[l], Internal);
  }

  lemma WalkedCovers(t: Tree, s: Shape, l: nat)
    requires Walked(t, s) && l + 1 < |s.levels|
    ensures Covers(t, s.levels[l + 1], s.levels[l])
  {
    assert CoversNext(t, s.levels, l);
  }

  /** The first entry of a page leads to a page of the level below. */
  lemma FirstChild(t: Tree, level: seq<nat>, below: seq<nat>, n: nat)
    requires n < |level| && Covers(t, level, below) && At(t, level[n]).kind == Internal && Count(t, level[n]) > 0
    ensures var at := |Edges(t, level[..n])|;
            at < |below| && At(t, level[n]).payloads[0].page == below[at]
  {
    EdgesOfPage(t, level, below, n);
    var edges, more := Edges(t, level[..n]), PageEdges(At(t, level[n]));
    assert EdgeOk(t, edges + more, below[..|edges| + |more|], |edges|);
    assert (edges + more)[|edges|] == more[0];
  }

  /** A page that is on two levels leads to one that is on the two below. */
  lemma SharedChild(t: Tree, a: seq<nat>, belowA: seq<nat>, i: nat, b: seq<nat>, belowB: seq<nat>, j: nat)
    requires Covers(t, a, belowA) && Covers(t, b, belowB) && i < |a| && j < |b| && a[i] == b[j]
    requires At(t, a[i]).kind == Internal && Count(t, a[i]) > 0
    ensures |Edges(t, a[..i])| < |belowA| && |Edges(t, b[..j])| < |belowB|
    ensures belowA[|Edges(t, a[..i])|] == belowB[|Edges(t, b[..j])|]
  {
    FirstChild(t, a, belowA, i);
    FirstChild(t, b, belowB, j);
  }

  /** A level is of one kind, and lists the one below it. */
  ghost predicate Tier(t: Tree, levels: seq<seq<nat>>, l: nat)
    requires l < |levels|
  {
    && (forall i {:trigger At(t, levels[l][i])} :: 0 <= i < |levels[l]| ==>
          && At(t, levels[l][i]).kind == (if l == 0 then Leaf else Internal)
          && (l > 0 ==> Count(t, levels[l][i]) > 0))
    && (l > 0 ==> Covers(t, levels[l], levels[l - 1]))
  }

  ghost predicate Tiered(t: Tree, levels: seq<seq<nat>>) {
    forall l {:trigger Tier(t, levels, l)} :: 0 <= l < |levels| ==> Tier(t, levels, l)
  }

  lemma WalkedTier(t: Tree, s: Shape, l: nat)
    requires Walked(t, s) && l < |s.levels|
    ensures Tier(t, s.levels, l)
  {
    WalkedLevel(t, s, l);
    if l > 0 {
      WalkedCovers(t, s, l - 1);
    }
  }

  lemma WalkedTiers(t: Tree, s: Shape)
    requires Walked(t, s)
    ensures Tiered(t, s.levels)
  {
    forall l | 0 <= l < |s.levels|
      ensures Tier(t, s.levels, l)
    {
      WalkedTier(t, s, l);
    }
  }

  lemma TierPage(t: Tree, levels: seq<seq<nat>>, l: nat, i: nat)
    requires Tiered(t, levels) && l < |levels| && i < |levels[l]|
    ensures At(t, levels[l][i]).kind == (if l == 0 then Leaf else Internal)
    ensures l > 0 ==> Count(t, levels[l][i]) > 0 && Covers(t, levels[l], levels[l - 1])
  {
    assert Tier(t, levels, l);
  }

  /** No page is on two levels. */
  lemma {:induction false} TiersApart(t: Tree, levels: seq<seq<nat>>, a: nat, b: nat, i: nat, j: nat)
    requires Tiered(t, levels) && a < b < |levels| && i < |levels[a]| && j < |levels[b]|
    ensures levels[a][i] != levels[b][j]
    decreases a
  {
    TierPage(t, levels, a, i);
    TierPage(t, levels, b, j);
    if levels[a][i] == levels[b][j] {
      if a > 0 {
        SharedChild(t, levels[a], levels[a - 1], i, levels[b], levels[b - 1], j);
        TiersApart(t, levels, a - 1, b - 1, |Edges(t, levels[a][..i])|, |Edges(t, levels[b][..j])|);
      }
    }
  }

  ghost predicate LeftLinked(t: Tree, level: seq<nat>) {
    forall i {:trigger At(t, level[i])} :: 0 <= i < |level| ==> At(t, level[i]).left == Neighbour(level, i - 1)
  }

  /** A doubly linked level repeats no page. */
  lemma {:induction false} OncePerLevel(t: Tree, level: seq<nat>, i: nat, j: nat)
    requires LeftLinked(t, level) && i < j < |level|
    ensures level[i] != level[j]
    decreases i
  {
    if level[i] == level[j] {
      assert At(t, level[i]).left == At(t, level[j]).left;
      if i > 0 {
        OncePerLevel(t, level, i - 1, j - 1);
      }
    }
  }

  lemma LevelIsDistinct(t: Tree, level: seq<nat>, kind: NodeKind)
    requires LevelClean(t, level, kind)
    ensures Distinct(level) && |level| <= |t.file|
  {
    assert LeftLinked(t, level);
    forall i, j | 0 <= i < j < |level|
      ensures level[i] != level[j]
    {
      OncePerLevel(t, level, i, j);
    }
    DistinctBelow(level, |t.file|);
  }

  ghost function Joined(levels: seq<seq<nat>>): (s: seq<nat>)
    ensures |s| == Sizes(levels)
  {
    if levels == [] then [] else levels[0] + Joined(levels[1..])
  }

  lemma {:induction false} JoinedFrom(levels: seq<seq<nat>>, k: nat, x: nat) returns (l: nat, i: nat)
    requires k <= |levels| && x in Joined(levels[k..])
    ensures k <= l < |levels| && i < |levels[l]| && levels[l][i] == x
    decreases |levels| - k
  {
    assert levels[k..][1..] == levels[k + 1..];
    if x in levels[k] {
      l := k;
      i :| 0 <= i < |levels[k]| && levels[k][i] == x;
    } else {
      l, i := JoinedFrom(levels, k + 1, x);
    }
  }

  /** All the pages from a level up are distinct pages of the file. */
  lemma {:induction false} LevelsDistinct(t: Tree, s: Shape, k: nat)
    requires Walked(t, s) && k <= |s.levels|
    ensures Distinct(Joined(s.levels[k..]))
    ensures forall x :: x in Joined(s.levels[k..]) ==> x < |t.file|
    decreases |s.levels| - k
  {
    if k < |s.levels| {
      var level, rest := s.levels[k], Joined(s.levels[k + 1..]);
      LevelsDistinct(t, s, k + 1);
      WalkedLevel(t, s, k);
      LevelIsDistinct(t, level, if k == 0 then Leaf else Internal);
      assert s.levels[k..][1..] == s.levels[k + 1..] && Joined(s.levels[k..]) == level + rest;
      WalkedTiers(t, s);
      forall i, j | 0 <= i < |level| && 0 <= j < |rest|
        ensures level[i] != rest[j]
      {
        var l, m := JoinedFrom(s.levels, k + 1, rest[j]);
        TiersApart(t, s.levels, k, l, i, m);
      }
      JoinDistinct(level, rest);
    }
  }

  lemma JoinDistinct(a: seq<nat>, b: seq<nat>)
    requires Distinct(a) && Distinct(b) && forall i, j :: 0 <= i < |a| && 0 <= j < |b| ==> a[i] != b[j]
    ensures Distinct(a + b)
  {
    forall i, j | 0 <= i < j < |a + b|
      ensures (a + b)[i] != (a + b)[j]
    {
    }
  }

  lemma SizesFit(t: Tree, s: Shape, k: nat)
    requires Walked(t, s) && k <= |s.levels|
    ensures Sizes(s.levels[k..]) <= |t.file|
  {
    LevelsDistinct(t, s, k);
    var all := Joined(s.levels[k..]);
    forall i | 0 <= i < |all|
      ensures all[i] < |t.file|
    {
      assert all[i] in all;
    }
    DistinctBelow(all, |t.file|);
  }

  /** The pass gets over a tree with these pages available and a buffer for its keys. */
  ghost predicate Passes(t: Tree, avail: set<nat>, buffer: nat, s: Shape) {
    && Walked(t, s) && AllAvailable(t, avail)
    && forall l {:trigger LevelFits(t, buffer, s.levels, l)} :: 0 <= l < |s.levels| ==>
         LevelFits(t, buffer, s.levels, l)
  }

  ghost predicate LevelFits(t: Tree, buffer: nat, levels: seq<seq<nat>>, l: nat)
    requires l < |levels|
  {
    HoldsKeys(buffer, Marks(t, levels[l]))
  }

  lemma MeetNowhere(t: Tree, s: Shape, k: nat)
    requires Walked(t, s) && 0 < k < |s.levels|
    ensures Apart(s.levels[k], s.levels[k - 1])
  {
    WalkedTiers(t, s);
    var level, below := s.levels[k], s.levels[k - 1];
    forall i | 0 <= i < |level|
      ensures level[i] !in below
    {
      if level[i] in below {
        var j :| 0 <= j < |below| && below[j] == level[i];
        TiersApart(t, s.levels, k - 1, k, j, i);
      }
    }
  }

  lemma WalkedSize(t: Tree, s: Shape, l: nat)
    requires Walked(t, s) && l < |s.levels|
    ensures Linked(t, s.levels[l]) && |s.levels[l]| <= |t.file|
  {
    WalkedLevel(t, s, l);
    LevelIsDistinct(t, s.levels[l], if l == 0 then Leaf else Internal);
  }

  lemma LevelOver(t: Tree, avail: set<nat>, buffer: nat, level: seq<nat>, below: seq<nat>)
    requires AllAvailable(t, avail) && LevelClean(t, level, Internal) && Linked(t, below) && |below| <= |t.file|
    requires Covers(t, level, below) && HoldsKeys(buffer, Marks(t, level)) && Apart(level, below)
    ensures LevelPasses(t, avail, buffer, level, below)
  {
  }

  lemma PassesLevel(t: Tree, avail: set<nat>, buffer: nat, s: Shape, k: nat)
    requires Passes(t, avail, buffer, s) && 0 < k < |s.levels|
    ensures LevelPasses(t, avail, buffer, s.levels[k], s.levels[k - 1])
  {
    assert LevelFits(t, buffer, s.levels, k);
    WalkedLevel(t, s, k);
    WalkedSize(t, s, k - 1);
    WalkedCovers(t, s, k - 1);
    MeetNowhere(t, s, k);
    LevelOver(t, avail, buffer, s.levels[k], s.levels[k - 1]);
  }

  /** The levels gone over are the upper ones of `s`. */
  ghost predicate UpperPart(levels: seq<seq<nat>>, s: Shape) {
    levels != [] && |levels| <= |s.levels| && levels == s.levels[|s.levels| - |levels|..]
  }

  lemma UpperPartNext(levels: seq<seq<nat>>, s: Shape, lower: seq<nat>)
    requires UpperPart(levels, s) && |levels| < |s.levels| && lower == s.levels[|s.levels| - |levels| - 1]
    ensures UpperPart([lower] + levels, s)
  {
  }

  /** The first page of a level says whether it is a level of leaves. */
  method IsLeafLevel(t: Tree, avail: set<nat>, start: nat, isRoot: bool, rep: Reporter) returns (leaf: Option<bool>)
    modifies rep
    ensures leaf.Some? ==> (leaf.value <==> At(t, start).kind == Leaf)
    ensures rep.Trusted() <==>
              && old(rep.Trusted()) && Load(t, avail, start).Ok?
              && (isRoot ==> At(t, start).left.None? && At(t, start).right.None?)
    ensures rep.Trusted() ==> leaf.Some?
  {
    var page := WalkPage(t, avail, start, rep);
    if page.None? {
      return None;
    }
    if isRoot && (page.value.left.Some? || page.value.right.Some?) {
      rep.Problem();
    }
    leaf := Some(page.value.kind == Leaf);
  }

  /** How far the pass has come down, and with how many steps left. */
  ghost predicate ComeDown(t: Tree, levels: seq<seq<nat>>, start: nat, isRoot: bool, levelsLeft: nat, stepsLeft: nat) {
    && Stacked(t, levels) && levels[0] != [] && start == levels[0][0]
    && (isRoot <==> |levels| == 1) && (!isRoot ==> Linked(t, levels[0]))
    && |levels| + levelsLeft == t.maxDepth + 1 && stepsLeft + Sizes(levels[1..]) == |t.file| + 1
  }

  lemma ComeDownNext(t: Tree, levels: seq<seq<nat>>, start: nat, isRoot: bool, levelsLeft: nat, stepsLeft: nat,
                     lower: seq<nat>, stepsLeft': nat)
    requires ComeDown(t, levels, start, isRoot, levelsLeft, stepsLeft) && levelsLeft > 0
    requires LevelClean(t, levels[0], Internal) && Linked(t, lower) && Covers(t, levels[0], lower)
    requires stepsLeft' + |levels[0]| == stepsLeft
    ensures ComeDown(t, [lower] + levels, lower[0], false, levelsLeft - 1, stepsLeft')
  {
    StackedNext(t, levels, lower);
    assert ([lower] + levels)[1..] == levels;
  }

  lemma StillComing(t: Tree, avail: set<nat>, buffer: nat, s: Shape, levels: seq<seq<nat>>, start: nat, isRoot: bool,
                    levelsLeft: nat, stepsLeft: nat)
    requires Passes(t, avail, buffer, s) && UpperPart(levels, s)
    requires ComeDown(t, levels, start, isRoot, levelsLeft, stepsLeft)
    ensures Load(t, avail, start).Ok? && levelsLeft > 0
    ensures isRoot ==> At(t, start).left.None? && At(t, start).right.None?
    ensures At(t, start).kind == Leaf <==> |levels| == |s.levels|
  {
    var k := |s.levels| - |levels|;
    assert levels[0] == s.levels[k];
    WalkedLevel(t, s, k);
    FirstOfLevel(t, avail, s.levels[k], if k == 0 then Leaf else Internal);
  }

  lemma FirstOfLevel(t: Tree, avail: set<nat>, level: seq<nat>, kind: NodeKind)
    requires LevelClean(t, level, kind) && AllAvailable(t, avail)
    ensures var p := At(t, level[0]);
            && Load(t, avail, level[0]).Ok? && p.kind == kind && p.left.None? && (|level| == 1 ==> p.right.None?)
  {
  }

  lemma NextFits(t: Tree, s: Shape, levels: seq<seq<nat>>, stepsLeft: nat)
    requires Walked(t, s) && UpperPart(levels, s) && |levels| < |s.levels|
    requires stepsLeft + Sizes(levels[1..]) == |t.file| + 1
    ensures levels[0] == s.levels[|s.levels| - |levels|] && |levels[0]| <= stepsLeft
  {
    var k := |s.levels| - |levels|;
    SizesFit(t, s, k);
    UpperSizes(levels, s, k);
  }

  lemma NextLevel(t: Tree, avail: set<nat>, buffer: nat, s: Shape, levels: seq<seq<nat>>, stepsLeft: nat)
    returns (below: seq<nat>)
    requires Passes(t, avail, buffer, s) && UpperPart(levels, s) && |levels| < |s.levels|
    requires stepsLeft + Sizes(levels[1..]) == |t.file| + 1
    ensures LevelPasses(t, avail, buffer, levels[0], below) && |levels[0]| <= stepsLeft
    ensures below == s.levels[|s.levels| - |levels| - 1]
  {
    NextFits(t, s, levels, stepsLeft);
    var k := |s.levels| - |levels|;
    PassesLevel(t, avail, buffer, s, k);
    below := s.levels[k - 1];
  }

  lemma UpperSizes(levels: seq<seq<nat>>, s: Shape, k: nat)
    requires UpperPart(levels, s) && k == |s.levels| - |levels|
    ensures levels[0] == s.levels[k] && Sizes(s.levels[k..]) == |s.levels[k]| + Sizes(levels[1..])
  {
  }

  /** Walks every internal level and returns where the leaf chain starts, if it was reached. */
  method VerifyInternalLevels(t: Tree, avail: set<nat>, buffer: nat, rep: Reporter, ghost sound: Shape,
                              ghost good: bool)
    returns (r: Result<Option<nat>>, ghost levels: seq<seq<nat>>)
    requires good ==> rep.Trusted() && Passes(t, avail, buffer, sound)
    modifies rep
    ensures rep.Trusted() && r.Ok? && t.root.Some? ==>
              && old(rep.Trusted())
              && |levels| <= t.maxDepth && Stacked(t, levels) && Linked(t, levels[0]) && r.value == Some(levels[0][0])
    ensures r.Ok? && r.value.Some? ==> t.root.Some?
    ensures t.root.None? ==> r == Ok(None) && (rep.Trusted() <==> old(rep.Trusted()))
    ensures good ==> rep.Trusted() && r.Ok? && levels == sound.levels
  {
    levels := [];
    if t.root.None? {
      return Ok(None), levels;
    }
    var start := t.root.value;
    var levelsLeft := t.maxDepth;
    var stepsLeft: nat := |t.file| + 1;
    var isRoot := true;
    levels := [[start]];
    while true
      invariant rep.Trusted() ==>
                  old(rep.Trusted()) && ComeDown(t, levels, start, isRoot, levelsLeft, stepsLeft)
      invariant good ==> rep.Trusted() && UpperPart(levels, sound)
      decreases levelsLeft
    {
      if rep.Full() {
        return Ok(None), levels;
      }
      if good {
        StillComing(t, avail, buffer, sound, levels, start, isRoot, levelsLeft, stepsLeft);
      }
      var leaf := IsLeafLevel(t, avail, start, isRoot, rep);
      if leaf.None? {
        return Ok(None), levels;
      }
      if levelsLeft == 0 {
        rep.Problem();
        return Ok(None), levels;
      }
      if leaf.value {
        if good {
          assert levels == sound.levels;
        }
        return Ok(Some(start)), levels;
      }
      ghost var below := [];
      if good {
        below := NextLevel(t, avail, buffer, sound, levels, stepsLeft);
      }
      var next, steps;
      ghost var lower;
      next, steps, lower := WalkLevel(t, avail, buffer, start, stepsLeft, rep,
                                      if levels == [] then [] else levels[0], good, below);
      if next.Err? {
        return Err(next.kind), levels;
      }
      if next.value.None? {
        return Ok(None), levels;
      }
      if rep.Trusted() {
        ComeDownNext(t, levels, start, isRoot, levelsLeft, stepsLeft, lower, steps);
      }
      if good {
        UpperPartNext(levels, sound, lower);
      }
      levels := [lower] + levels;
      start, stepsLeft, levelsLeft, isRoot := next.value.value, steps, levelsLeft - 1, false;
    }
  }

  // ---------------------------------------------------------------- the leaves

  /** Checks that an overflowing value has a blob page of this file. */
  method CheckOverflow(t: Tree, avail: set<nat>, payload: Payload, rep: Reporter)
    modifies rep
    ensures rep.Trusted() <==>
              && old(rep.Trusted())
              && (payload.Overflow? ==>
                    Load(t, avail, payload.blob).Ok? && At(t, payload.blob).kind == Leaf && Count(t, payload.blob) == 0)
  {
    if !payload.Overflow? {
      return;
    }
    var loaded := Load(t, avail, payload.blob);
    if loaded.Err? {
      rep.Failed(loaded.kind);
      return;
    }
    if loaded.value.kind != Leaf || |loaded.value.keys| != 0 {
      rep.Problem();
    }
  }

  /** The key of an entry, rebuilt if the page omits it. */
  method EntryKey(t: Tree, buffer: nat, p: Page, i: nat, rep: Reporter) returns (r: Result<Option<Key>>)
    requires i < |p.keys|
    modifies rep
    ensures rep.Trusted() <==>
              old(rep.Trusted()) && (p.layout.omittedKeys ==> t.enc.rebuild(p.slots[i]).Some?)
    ensures rep.Trusted() && r.Ok? ==> r.value == Some(KeyAt(t.enc, p, i))
    ensures rep.Trusted() && |KeyAt(t.enc, p, i)| <= buffer ==> r.Ok?
  {
    if !p.layout.omittedKeys {
      return Ok(Some(p.keys[i]));
    }
    var rebuilt := t.enc.rebuild(p.slots[i]);
    if rebuilt.None? {
      rep.Problem();
    } else if |rebuilt.value| > buffer {
      return Err(BudgetExceeded);
    }
    r := Ok(rebuilt);
  }

  /** A leaf the pass finds nothing wrong with, behind these marks of its level. */
  ghost predicate LeafPasses(t: Tree, avail: set<nat>, buffer: nat, p: Page, marks: seq<Mark>) {
    && AllAvailable(t, avail) && LeafOk(t, p, |p.keys|) && PageOk(t.enc, p)
    && InLine(t.enc, marks + PageMarks(t.enc, p)) && HoldsKeys(buffer, PageMarks(t.enc, p))
  }

  /** How far the walk of a leaf has come. */
  ghost predicate AmongLeafEntries(t: Tree, p: Page, i: nat, marks: seq<Mark>, previous: Option<Mark>) {
    && LeafOk(t, p, i) && InLine(t.enc, marks + MarksTo(t.enc, p, i))
    && previous == LastMark(marks + MarksTo(t.enc, p, i))
  }

  lemma AmongLeafNext(t: Tree, p: Page, i: nat, marks: seq<Mark>, before: Option<Mark>, previous: Option<Mark>)
    requires p.kind == Leaf && i < |p.keys| && AmongLeafEntries(t, p, i, marks, before) && LeafEntryOk(t, p, i)
    requires var done := marks + MarksTo(t.enc, p, i) + [PageMarks(t.enc, p)[i]];
             InLine(t.enc, done) && previous == LastMark(done)
    ensures AmongLeafEntries(t, p, i + 1, marks, previous)
  {
    MarkFits(t.enc, p, i, marks);
  }

  lemma NextLeafMark(t: Tree, avail: set<nat>, buffer: nat, p: Page, i: nat, marks: seq<Mark>, before: Option<Mark>)
    requires p.kind == Leaf && i < |p.keys| && AmongLeafEntries(t, p, i, marks, before)
    requires LeafPasses(t, avail, buffer, p, marks)
    ensures before.Some? ==> SortsBelow(t.enc, before.value, PageMarks(t.enc, p)[i])
    ensures LeafEntryOk(t, p, i) && |KeyAt(t.enc, p, i)| <= buffer
  {
    MarkFits(t.enc, p, i, marks);
    var done := marks + MarksTo(t.enc, p, i);
    if done != [] {
      InLineInside(t.enc, marks + PageMarks(t.enc, p), done, PageMarks(t.enc, p)[i]);
    }
    assert |PageMarks(t.enc, p)[i].key| <= buffer;
  }

  /** One entry of a leaf: its value, and its key against the one before it. */
  method WalkLeafEntry(t: Tree, avail: set<nat>, buffer: nat, p: Page, i: nat, before: Option<Mark>, rep: Reporter,
                       ghost marks: seq<Mark>, ghost good: bool)
    returns (r: Result<bool>, previous: Option<Mark>)
    requires p.kind == Leaf && i < |p.keys|
    requires rep.Trusted() ==> AmongLeafEntries(t, p, i, marks, before)
    requires good ==> rep.Trusted() && LeafPasses(t, avail, buffer, p, marks)
    modifies rep
    ensures rep.Trusted() && r.Ok? ==>
              old(rep.Trusted()) && r.value && AmongLeafEntries(t, p, i + 1, marks, previous)
    ensures good ==> rep.Trusted() && r.Ok?
  {
    previous := before;
    if good {
      NextLeafMark(t, avail, buffer, p, i, marks, before);
    }
    CheckOverflow(t, avail, p.payloads[i], rep);
    if p.layout.omittedKeys && !t.enc.rebuilds {
      rep.Failed(Corrupt);
      return Ok(false), previous;
    }
    var key := EntryKey(t, buffer, p, i, rep);
    if key.Err? {
      return Err(key.kind), previous;
    }
    if key.value.None? {
      return Ok(true), previous;
    }
    var sorted;
    sorted, previous := WalkMark(t, buffer, before, Mark(key.value.value, Inexact(t.enc, p)), rep,
                                 marks + MarksTo(t.enc, p, i), good);
    if sorted.Err? {
      return Err(sorted.kind), previous;
    }
    if rep.Trusted() {
      AmongLeafNext(t, p, i, marks, before, previous);
    }
    r := Ok(true);
  }

  /** The entries of one leaf, each against the one before it. */
  method WalkLeafPage(t: Tree, avail: set<nat>, buffer: nat, p: Page, before: Option<Mark>, rep: Reporter,
                      ghost marks: seq<Mark>, ghost good: bool)
    returns (r: Result<bool>, previous: Option<Mark>)
    requires p.kind == Leaf
    requires rep.Trusted() ==> AmongLeafEntries(t, p, 0, marks, before)
    requires good ==> rep.Trusted() && LeafPasses(t, avail, buffer, p, marks)
    modifies rep
    ensures rep.Trusted() && r.Ok? ==>
              old(rep.Trusted()) && r.value && AmongLeafEntries(t, p, |p.keys|, marks, previous)
    ensures good ==> rep.Trusted() && r.Ok?
  {
    previous := before;
    for i := 0 to |p.keys|
      invariant rep.Trusted() ==> old(rep.Trusted()) && AmongLeafEntries(t, p, i, marks, previous)
      invariant good ==> rep.Trusted()
    {
      if rep.Full() {
        return Ok(false), previous;
      }
      var more;
      more, previous := WalkLeafEntry(t, avail, buffer, p, i, previous, rep, marks, good);
      if more.Err? {
        return Err(more.kind), previous;
      }
      if !more.value {
        return Ok(false), previous;
      }
    }
    r := Ok(true);
  }

  /** How far the walk of the leaves has come. */
  ghost predicate LeavesWalkedTo(t: Tree, level: seq<nat>, n: nat, current: Option<nat>, expectedLeft: Option<nat>,
                                 previous: Option<Mark>) {
    && Linked(t, level) && Checked(t, level, Leaf, n) && LeavesOk(t, level, n)
    && current == Neighbour(level, n) && expectedLeft == Neighbour(level, n - 1)
    && InLine(t.enc, Marks(t, level[..n])) && previous == LastMark(Marks(t, level[..n]))
  }

  lemma EntersLeaf(t: Tree, level: seq<nat>, n: nat, expectedLeft: Option<nat>, previous: Option<Mark>)
    requires n < |level| && LeavesWalkedTo(t, level, n, Some(level[n]), expectedLeft, previous)
    ensures AmongLeafEntries(t, At(t, level[n]), 0, Marks(t, level[..n]), previous)
  {
    MarksToAll(t.enc, At(t, level[n]));
    assert Marks(t, level[..n]) + [] == Marks(t, level[..n]);
  }

  lemma LeavesLeaf(t: Tree, level: seq<nat>, n: nat, expectedLeft: Option<nat>, before: Option<Mark>,
                   previous: Option<Mark>)
    requires n < |level| && LeavesWalkedTo(t, level, n, Some(level[n]), expectedLeft, before)
    requires Checked(t, level, Leaf, n + 1)
    requires AmongLeafEntries(t, At(t, level[n]), Count(t, level[n]), Marks(t, level[..n]), previous)
    ensures LeavesWalkedTo(t, level, n + 1, At(t, level[n]).right, Some(level[n]), previous)
  {
    MarksToAll(t.enc, At(t, level[n]));
    MarksNext(t, level, n);
    forall i | 0 <= i < n + 1
      ensures LeafAt(t, level, i)
    {
    }
  }

  /** The leaves, and what the pass needs to get over them. */
  ghost predicate LeavesPass(t: Tree, avail: set<nat>, buffer: nat, level: seq<nat>) {
    && AllAvailable(t, avail) && LevelClean(t, level, Leaf) && LeavesOk(t, level, |level|)
    && HoldsKeys(buffer, Marks(t, level))
  }

  lemma LeafOfLevel(t: Tree, avail: set<nat>, buffer: nat, level: seq<nat>, n: nat)
    requires LeavesPass(t, avail, buffer, level) && n < |level|
    ensures LeafPasses(t, avail, buffer, At(t, level[n]), Marks(t, level[..n]))
  {
    MarksOfPage(t, buffer, level, n);
    assert LeafAt(t, level, n);
  }

  lemma LeafDone(t: Tree, level: seq<nat>, n: nat, expectedLeft: Option<nat>, before: Option<Mark>,
                 previous: Option<Mark>)
    requires n < |level| && LeavesWalkedTo(t, level, n, Some(level[n]), expectedLeft, before)
    requires var p := At(t, level[n]); p.kind == Leaf && p.left == expectedLeft && PageOk(t.enc, p)
    requires AmongLeafEntries(t, At(t, level[n]), Count(t, level[n]), Marks(t, level[..n]), previous)
    ensures LeavesWalkedTo(t, level, n + 1, At(t, level[n]).right, Some(level[n]), previous)
  {
    CheckedNext(t, level, Leaf, n);
    LeavesLeaf(t, level, n, expectedLeft, before, previous);
  }

  /** The entries of the leaf the walk has come to. */
  method WalkLeafAt(t: Tree, avail: set<nat>, buffer: nat, p: Page, before: Option<Mark>, rep: Reporter,
                    ghost level: seq<nat>, ghost n: nat, ghost expectedLeft: Option<nat>, ghost good: bool)
    returns (r: Result<bool>, previous: Option<Mark>)
    requires p.kind == Leaf
    requires rep.Trusted() ==>
               && n < |level| && LeavesWalkedTo(t, level, n, Some(level[n]), expectedLeft, before)
               && p == At(t, level[n]) && p.left == expectedLeft && PageOk(t.enc, p)
    requires good ==> rep.Trusted() && LeavesPass(t, avail, buffer, level)
    modifies rep
    ensures rep.Trusted() && r.Ok? ==>
              && old(rep.Trusted()) && r.value
              && LeavesWalkedTo(t, level, n + 1, p.right, Some(level[n]), previous)
    ensures good ==> rep.Trusted() && r.Ok?
  {
    ghost var marks := if n <= |level| then Marks(t, level[..n]) else [];
    if good {
      LeafOfLevel(t, avail, buffer, level, n);
    }
    if rep.Trusted() {
      EntersLeaf(t, level, n, expectedLeft, before);
    }
    r, previous := WalkLeafPage(t, avail, buffer, p, before, rep, marks, good);
    if rep.Trusted() && r.Ok? {
      LeafDone(t, level, n, expectedLeft, before, previous);
    }
  }

  /** One page further along the leaves. */
  method StepLeaf(t: Tree, avail: set<nat>, buffer: nat, ordinal: nat, expectedLeft: Option<nat>,
                  before: Option<Mark>, rep: Reporter, ghost level: seq<nat>, ghost n: nat, ghost good: bool)
    returns (r: Result<Option<Page>>, previous: Option<Mark>)
    requires rep.Trusted() ==> LeavesWalkedTo(t, level, n, Some(ordinal), expectedLeft, before)
    requires good ==> rep.Trusted() && LeavesPass(t, avail, buffer, level)
    modifies rep
    ensures rep.Trusted() && r.Ok? ==>
              && old(rep.Trusted())
              && r.value.Some? && LeavesWalkedTo(t, level, n + 1, r.value.value.right, Some(ordinal), previous)
    ensures good ==> rep.Trusted() && r.Ok?
  {
    previous := before;
    if good {
      LeafOfLevel(t, avail, buffer, level, n);
    }
    var page := EnterPage(t, avail, ordinal, Leaf, expectedLeft, rep);
    if page.None? {
      return Ok(None), previous;
    }
    var walked;
    walked, previous := WalkLeafAt(t, avail, buffer, page.value, before, rep, level, n, expectedLeft, good);
    if walked.Err? {
      return Err(walked.kind), previous;
    }
    if !walked.value {
      return Ok(None), previous;
    }
    r := Ok(page);
  }

  lemma StartsLeaves(t: Tree, level: seq<nat>)
    requires Linked(t, level)
    ensures LeavesWalkedTo(t, level, 0, Some(level[0]), None, None)
  {
    assert level[..0] == [];
  }

  lemma WholeLeaves(t: Tree, level: seq<nat>, n: nat, expectedLeft: Option<nat>, previous: Option<Mark>)
    requires LeavesWalkedTo(t, level, n, None, expectedLeft, previous)
    ensures n == |level| && LevelClean(t, level, Leaf) && LeavesOk(t, level, |level|)
  {
    assert n == |level| && level[..n] == level;
  }

  /** Walks the leaf chain. */
  method WalkLeaves(t: Tree, avail: set<nat>, buffer: nat, start: nat, rep: Reporter, ghost level: seq<nat>,
                    ghost good: bool)
    returns (r: Result<()>)
    requires rep.Trusted() ==> Linked(t, level) && start == level[0]
    requires good ==> rep.Trusted() && LeavesPass(t, avail, buffer, level) && |level| <= |t.file|
    modifies rep
    ensures rep.Trusted() && r.Ok? ==>
              old(rep.Trusted()) && LevelClean(t, level, Leaf) && LeavesOk(t, level, |level|)
    ensures good ==> rep.Trusted() && r.Ok?
  {
    var stepsLeft: nat := |t.file| + 1;
    var current := Some(start);
    var expectedLeft: Option<nat> := None;
    var previous: Option<Mark> := None;
    ghost var n: nat := 0;
    if rep.Trusted() {
      StartsLeaves(t, level);
    }
    while current.Some?
      invariant rep.Trusted() ==>
                  && old(rep.Trusted())
                  && LeavesWalkedTo(t, level, n, current, expectedLeft, previous) && stepsLeft + n == |t.file| + 1
      invariant good ==> rep.Trusted()
      decreases stepsLeft, current.Some?
    {
      if rep.Full() {
        return Ok(());
      }
      if stepsLeft == 0 {
        rep.Problem();
        return Ok(());
      }
      stepsLeft := stepsLeft - 1;
      var ordinal := current.value;
      var page;
      page, previous := StepLeaf(t, avail, buffer, ordinal, expectedLeft, previous, rep, level, n, good);
      if page.Err? {
        return Err(page.kind);
      }
      if page.value.None? {
        return Ok(());
      }
      expectedLeft := Some(ordinal);
      current := page.value.value.right;
      n := n + 1;
    }
    if rep.Trusted() {
      WholeLeaves(t, level, n, expectedLeft, previous);
    }
    r := Ok(());
  }

  // ---------------------------------------------------------------- what a clean report is worth

  /** The pages of a tree are compared one way: every one of them, or in a way that cannot differ. */
  ghost predicate Uniform(t: Tree, s: Shape) {
    t.enc.exact || (t.root.Some? && forall l, i :: 0 <= l < |s.levels| && 0 <= i < |s.levels[l]| ==>
                      At(t, s.levels[l][i]).layout.omittedKeys == At(t, t.root.value).layout.omittedKeys)
  }

  lemma SameEdgeParts(t: Tree, level: seq<nat>)
    requires Checked(t, level, Internal, |level|)
    ensures forall k :: 0 <= k < |level| ==> |Parts(t, level)[k]| == |EdgeParts(t, level)[k]|
    ensures |Edges(t, level)| == |Rows(t, level)|
  {
    var rows, edges := Parts(t, level), EdgeParts(t, level);
    forall k | 0 <= k < |level|
      ensures |rows[k]| == |edges[k]|
    {
      assert At(t, level[k]).kind == Internal;
    }
    SameStarts(rows, edges, |level|);
    StartEnds(rows);
    StartEnds(edges);
  }

  /** The edge of a row of an internal level. */
  lemma EdgeOfRow(t: Tree, level: seq<nat>, at: nat) returns (i: nat, j: nat)
    requires Checked(t, level, Internal, |level|) && at < |Rows(t, level)|
    ensures i < |level| && j < Count(t, level[i]) && Rows(t, level)[at] == PageRows(t.enc, At(t, level[i]))[j]
    ensures at < |Edges(t, level)| && j < |PageEdges(At(t, level[i]))|
    ensures Edges(t, level)[at] == PageEdges(At(t, level[i]))[j]
  {
    SameEdgeParts(t, level);
    i, j := SamePlace(Parts(t, level), EdgeParts(t, level), at);
  }

  /** Every entry of a level is compared with the one before it. */
  ghost predicate Marked(t: Tree, level: seq<nat>) {
    forall i {:trigger At(t, level[i])} :: 0 <= i < |level| ==>
      At(t, level[i]).kind == Leaf || !At(t, level[i]).layout.omittedKeys
  }

  lemma SameMarkParts(t: Tree, level: seq<nat>)
    requires Marked(t, level)
    ensures forall k :: 0 <= k < |level| ==> |Parts(t, level)[k]| == |MarkParts(t, level)[k]|
    ensures |Marks(t, level)| == |Rows(t, level)|
  {
    var rows, marks := Parts(t, level), MarkParts(t, level);
    forall k | 0 <= k < |level|
      ensures |rows[k]| == |marks[k]|
    {
      assert At(t, level[k]) == At(t, level[k]);
    }
    SameStarts(rows, marks, |level|);
    StartEnds(rows);
    StartEnds(marks);
  }

  /** The mark of a row. */
  lemma MarkOfRow(t: Tree, level: seq<nat>, at: nat) returns (i: nat, j: nat)
    requires Marked(t, level) && at < |Rows(t, level)|
    ensures i < |level| && j < Count(t, level[i]) && Rows(t, level)[at] == PageRows(t.enc, At(t, level[i]))[j]
    ensures at < |Marks(t, level)| && j < |PageMarks(t.enc, At(t, level[i]))|
    ensures Marks(t, level)[at] == PageMarks(t.enc, At(t, level[i]))[j]
  {
    SameMarkParts(t, level);
    i, j := SamePlace(Parts(t, level), MarkParts(t, level), at);
  }

  /** Where an edge leads, the page has entries. */
  lemma CoveredPage(t: Tree, high: seq<nat>, low: seq<nat>, at: nat)
    requires Covers(t, high, low) && at < |low|
    ensures Count(t, low[at]) > 0
  {
    assert EdgeOk(t, Edges(t, high), low, at);
  }

  lemma LevelIsOk(t: Tree, s: Shape, l: nat)
    requires Walked(t, s) && Uniform(t, s) && l < |s.levels|
    ensures LevelOk(t, s, l)
  {
    WalkedLevel(t, s, l);
    forall i | 0 <= i < |s.levels[l]|
      ensures NodeOk(t, s, l, i)
    {
      NodeIsOk(t, s, l, i);
    }
  }

  lemma NodeIsOk(t: Tree, s: Shape, l: nat, i: nat)
    requires Walked(t, s) && Uniform(t, s) && l < |s.levels| && i < |s.levels[l]|
    ensures NodeOk(t, s, l, i)
  {
    WalkedLevel(t, s, l);
    assert InFile(t, s.levels[l][i]) && At(t, s.levels[l][i]) == At(t, s.levels[l][i]);
    if l + 1 < |s.levels| {
      WalkedCovers(t, s, l);
      CoveredPage(t, s.levels[l + 1], s.levels[l], i);
    }
  }

  lemma PagesOfLevel(t: Tree, s: Shape, l: nat, i: nat)
    requires Walked(t, s) && Uniform(t, s) && l < |s.levels| && i < |s.levels[l]|
    ensures SameMode(t, s.levels[l][i]) && PageOk(t.enc, At(t, s.levels[l][i]))
  {
    WalkedLevel(t, s, l);
    assert At(t, s.levels[l][i]) == At(t, s.levels[l][i]);
  }

  lemma ParentIsOk(t: Tree, s: Shape, l: nat)
    requires Lawful(t.enc) && Walked(t, s) && Uniform(t, s) && l + 1 < |s.levels|
    ensures ParentOk(t, s, l)
  {
    var low, high := s.levels[l], s.levels[l + 1];
    WalkedCovers(t, s, l);
    WalkedLevel(t, s, l + 1);
    SameEdgeParts(t, high);
    forall at | 0 <= at < |low|
      ensures Rows(t, high)[at] == Row(FirstKey(t, low[at]), Child(low[at]))
    {
      RowIsFirstKey(t, s, l, at);
    }
  }

  lemma RowIsFirstKey(t: Tree, s: Shape, l: nat, at: nat)
    requires Lawful(t.enc) && Walked(t, s) && Uniform(t, s) && l + 1 < |s.levels| && at < |s.levels[l]|
    requires at < |Rows(t, s.levels[l + 1])|
    ensures Rows(t, s.levels[l + 1])[at] == Row(FirstKey(t, s.levels[l][at]), Child(s.levels[l][at]))
  {
    var low, high := s.levels[l], s.levels[l + 1];
    WalkedLevel(t, s, l + 1);
    WalkedCovers(t, s, l);
    var i, j := EdgeOfRow(t, high, at);
    assert EdgeOk(t, Edges(t, high), low, at);
    PagesOfLevel(t, s, l, at);
    PagesOfLevel(t, s, l + 1, i);
    FittingSeparatorIsFirstKey(t, high[i], j, low[at]);
  }

  lemma NextPrecedes(t: Tree, s: Shape, at: nat)
    requires Lawful(t.enc) && Walked(t, s) && Uniform(t, s) && at + 1 < |Flat(t, s)|
    ensures Precedes(t.enc, s.coarse, Flat(t, s)[at].key, Flat(t, s)[at + 1].key)
  {
    var leaves := s.levels[0];
    var i, j := MarkOfRow(t, leaves, at);
    var i', j' := MarkOfRow(t, leaves, at + 1);
    assert NextSorts(t.enc, Marks(t, leaves), at);
    PagesOfLevel(t, s, 0, i);
    PagesOfLevel(t, s, 0, i');
  }

  lemma RowIsReadable(t: Tree, s: Shape, at: nat)
    requires Lawful(t.enc) && Walked(t, s) && at < |Flat(t, s)|
    ensures t.enc.readable(Flat(t, s)[at].key)
  {
    var i, j := MarkOfRow(t, s.levels[0], at);
    var p := At(t, s.levels[0][i]);
    CheckedKeysReadable(t.enc, p);
    assert t.enc.readable(Keys(t.enc, p)[j]);
  }

  lemma {:induction false} RowsAscend(t: Tree, s: Shape, a: nat, b: nat)
    requires Lawful(t.enc) && Walked(t, s) && Uniform(t, s) && a < b < |Flat(t, s)|
    ensures Precedes(t.enc, s.coarse, Flat(t, s)[a].key, Flat(t, s)[b].key)
  {
    NextPrecedes(t, s, b - 1);
    if a < b - 1 {
      RowsAscend(t, s, a, b - 1);
      RowIsReadable(t, s, a);
      RowIsReadable(t, s, b - 1);
      RowIsReadable(t, s, b);
    }
  }

  lemma ValuesAreThere(t: Tree, s: Shape)
    requires Walked(t, s)
    ensures BlobsOk(t, s)
  {
    forall at | 0 <= at < |Flat(t, s)| && Flat(t, s)[at].payload.Overflow?
      ensures IsBlob(t, Flat(t, s)[at].payload.blob)
    {
      var i, j := MarkOfRow(t, s.levels[0], at);
      assert LeafAt(t, s.levels[0], i);
      assert LeafEntryOk(t, At(t, s.levels[0][i]), j);
    }
  }

  /** On pages compared one way, what the walks establish is well-formedness. */
  lemma WalksAreEnough(t: Tree, s: Shape)
    requires Lawful(t.enc) && Walked(t, s) && Uniform(t, s)
    ensures WellFormed(t, s) && BlobsOk(t, s)
  {
    ValuesAreThere(t, s);
    forall l | 0 <= l < |s.levels|
      ensures LevelOk(t, s, l)
    {
      LevelIsOk(t, s, l);
    }
    forall l | 0 <= l < |s.levels| - 1
      ensures ParentOk(t, s, l)
    {
      ParentIsOk(t, s, l);
    }
    forall a, b | 0 <= a < b < |FlatKeys(t, s)|
      ensures Precedes(t.enc, s.coarse, FlatKeys(t, s)[a], FlatKeys(t, s)[b])
    {
      RowsAscend(t, s, a, b);
    }
  }

  // ---------------------------------------------------------------- well-formed trees are clean

  /** The keys of every level ascend, not only those of the leaves. */
  lemma {:induction false} LevelAscends(t: Tree, s: Shape, l: nat, a: nat, b: nat)
    requires WellFormed(t, s) && l < |s.levels| && a < b < |Rows(t, s.levels[l])|
    ensures Precedes(t.enc, s.coarse, Rows(t, s.levels[l])[a].key, Rows(t, s.levels[l])[b].key)
    decreases l
  {
    if l == 0 {
      assert Precedes(t.enc, s.coarse, FlatKeys(t, s)[a], FlatKeys(t, s)[b]);
    } else {
      var low := s.levels[l - 1];
      assert ParentOk(t, s, l - 1);
      FirstKeyAt(t, s, l - 1, a);
      FirstKeyAt(t, s, l - 1, b);
      Node(t, s, l - 1, a);
      StartGrows(Parts(t, low), a, b);
      LevelAscends(t, s, l - 1, Off(t, low, a), Off(t, low, b));
    }
  }

  /** A key of a well-formed tree, and that it can be told from its digest where pages leave it out. */
  lemma KeyOfLevel(t: Tree, s: Shape, l: nat, i: nat, j: nat)
    requires WellFormed(t, s) && l < |s.levels| && i < |s.levels[l]| && j < Count(t, s.levels[l][i])
    ensures var k := KeyAt(t.enc, At(t, s.levels[l][i]), j);
            && t.enc.readable(k) && (s.coarse ==> t.enc.rebuild(t.enc.digest(k)) == Some(k))
  {
    Node(t, s, l, i);
    var p := At(t, s.levels[l][i]);
    CheckedKeysReadable(t.enc, p);
    assert t.enc.readable(Keys(t.enc, p)[j]);
  }

  lemma RowIsKey(t: Tree, s: Shape, l: nat, at: nat)
    requires WellFormed(t, s) && l < |s.levels| && at < |Rows(t, s.levels[l])|
    ensures var k := Rows(t, s.levels[l])[at].key;
            && t.enc.readable(k) && (s.coarse ==> t.enc.rebuild(t.enc.digest(k)) == Some(k))
  {
    var i, j := PartOf(Parts(t, s.levels[l]), at);
    RowOfPage(t, s.levels[l], i, j);
    KeyOfLevel(t, s, l, i, j);
  }

  lemma RowsSort(t: Tree, s: Shape, l: nat, a: nat, b: nat)
    requires WellFormed(t, s) && l < |s.levels| && a < b < |Rows(t, s.levels[l])|
    ensures SortsBelow(t.enc, Mark(Rows(t, s.levels[l])[a].key, s.coarse), Mark(Rows(t, s.levels[l])[b].key, s.coarse))
  {
    var x, y := Rows(t, s.levels[l])[a].key, Rows(t, s.levels[l])[b].key;
    LevelAscends(t, s, l, a, b);
    RowIsKey(t, s, l, a);
    RowIsKey(t, s, l, b);
    if s.coarse && t.enc.digest(x) < t.enc.digest(y) {
      LowerDigestIsLess(t.enc, x, y);
    }
  }

  /** Marks are taken from rows, in order. */
  ghost predicate Drawn(rows: seq<Row>, loose: bool, ms: seq<Mark>, places: seq<nat>) {
    && |places| == |ms|
    && (forall i {:trigger places[i]} :: 0 <= i < |places| ==>
          places[i] < |rows| && ms[i] == Mark(rows[places[i]].key, loose))
    && (forall i, j :: 0 <= i < j < |places| ==> places[i] < places[j])
  }

  lemma {:induction false} MarksAreDrawn(t: Tree, s: Shape, l: nat, n: nat) returns (places: seq<nat>)
    requires WellFormed(t, s) && l < |s.levels| && n <= |s.levels[l]|
    ensures Drawn(Rows(t, s.levels[l]), s.coarse, Marks(t, s.levels[l][..n]), places)
    ensures forall i :: 0 <= i < |places| ==> places[i] < Off(t, s.levels[l], n)
  {
    var level := s.levels[l];
    if n == 0 {
      places := [];
      assert level[..0] == [];
    } else {
      places := MarksAreDrawn(t, s, l, n - 1);
      MarksNext(t, level, n - 1);
      OffNext(t, level, n - 1);
      var more := PageMarks(t.enc, At(t, level[n - 1]));
      var at := Off(t, level, n - 1);
      var added := seq(|more|, j => at + j);
      PageIsDrawn(t, s, l, n - 1, added);
      DrawnJoin(Rows(t, level), s.coarse, Marks(t, level[..n - 1]), places, more, added, at);
      places := places + added;
    }
  }

  lemma PageIsDrawn(t: Tree, s: Shape, l: nat, i: nat, places: seq<nat>)
    requires WellFormed(t, s) && l < |s.levels| && i < |s.levels[l]|
    requires var at := Off(t, s.levels[l], i);
             places == seq(|PageMarks(t.enc, At(t, s.levels[l][i]))|, j => at + j)
    ensures Drawn(Rows(t, s.levels[l]), s.coarse, PageMarks(t.enc, At(t, s.levels[l][i])), places)
    ensures |places| <= Count(t, s.levels[l][i])
  {
    var level := s.levels[l];
    Node(t, s, l, i);
    forall j | 0 <= j < |places|
      ensures places[j] < |Rows(t, level)|
      ensures PageMarks(t.enc, At(t, level[i]))[j] == Mark(Rows(t, level)[places[j]].key, s.coarse)
    {
      RowOfPage(t, level, i, j);
    }
  }

  lemma DrawnJoin(rows: seq<Row>, loose: bool, a: seq<Mark>, pa: seq<nat>, b: seq<Mark>, pb: seq<nat>, at: nat)
    requires Drawn(rows, loose, a, pa) && Drawn(rows, loose, b, pb)
    requires (forall i :: 0 <= i < |pa| ==> pa[i] < at) && forall i :: 0 <= i < |pb| ==> at <= pb[i]
    ensures Drawn(rows, loose, a + b, pa + pb)
  {
    forall i, j | 0 <= i < j < |pa + pb|
      ensures (pa + pb)[i] < (pa + pb)[j]
    {
    }
  }

  lemma LevelInLine(t: Tree, s: Shape, l: nat)
    requires WellFormed(t, s) && l < |s.levels|
    ensures InLine(t.enc, Marks(t, s.levels[l]))
  {
    var level := s.levels[l];
    var places := MarksAreDrawn(t, s, l, |level|);
    assert level[..|level|] == level;
    var ms := Marks(t, level);
    forall i: nat | i + 1 < |ms|
      ensures NextSorts(t.enc, ms, i)
    {
      assert places[i] < places[i + 1];
      RowsSort(t, s, l, places[i], places[i + 1]);
    }
  }

  lemma NodeIsChecked(t: Tree, s: Shape, l: nat, i: nat, kind: NodeKind)
    requires WellFormed(t, s) && l < |s.levels| && i < |s.levels[l]| && kind == if l == 0 then Leaf else Internal
    ensures InFile(t, s.levels[l][i]) && At(t, s.levels[l][i]).right == Neighbour(s.levels[l], i + 1)
    ensures CheckedPage(t, s.levels[l], kind, i)
  {
    Node(t, s, l, i);
  }

  lemma LevelIsChecked(t: Tree, s: Shape, l: nat, kind: NodeKind)
    requires WellFormed(t, s) && l < |s.levels| && kind == if l == 0 then Leaf else Internal
    ensures Linked(t, s.levels[l]) && Checked(t, s.levels[l], kind, |s.levels[l]|)
  {
    assert LevelOk(t, s, l);
    forall i | 0 <= i < |s.levels[l]|
      ensures InFile(t, s.levels[l][i]) && At(t, s.levels[l][i]).right == Neighbour(s.levels[l], i + 1)
      ensures CheckedPage(t, s.levels[l], kind, i)
    {
      NodeIsChecked(t, s, l, i, kind);
    }
  }

  lemma LevelIsClean(t: Tree, s: Shape, l: nat)
    requires WellFormed(t, s) && l < |s.levels|
    ensures LevelClean(t, s.levels[l], if l == 0 then Leaf else Internal)
  {
    LevelIsChecked(t, s, l, if l == 0 then Leaf else Internal);
    LevelInLine(t, s, l);
  }

  /** What a parent says a child starts at fits the child, if it is the child's first key. */
  lemma FirstKeyFits(t: Tree, parent: nat, i: nat, child: nat)
    requires Lawful(t.enc) && PageOk(t.enc, At(t, parent)) && PageOk(t.enc, At(t, child))
    requires Inexact(t.enc, At(t, parent)) <==> Inexact(t.enc, At(t, child))
    requires i < Count(t, parent) && Count(t, child) > 0
    requires KeyAt(t.enc, At(t, parent), i) == FirstKey(t, child)
    ensures SeparatorFits(t.enc, SeparatorOf(At(t, parent), i), At(t, child))
  {
    var e, p, c := t.enc, At(t, parent), At(t, child);
    if !p.layout.omittedKeys {
      CheckedEntry(e, p, i);
    }
    if !c.layout.omittedKeys {
      CheckedEntry(e, c, 0);
    }
  }

  lemma RowFits(t: Tree, s: Shape, l: nat, at: nat, i: nat, j: nat)
    requires WellFormed(t, s) && l + 1 < |s.levels| && at < |s.levels[l]| && i < |s.levels[l + 1]|
    requires j < Count(t, s.levels[l + 1][i]) && at < |Rows(t, s.levels[l + 1])|
    requires Rows(t, s.levels[l + 1])[at] == PageRows(t.enc, At(t, s.levels[l + 1][i]))[j]
    ensures At(t, s.levels[l + 1][i]).payloads[j] == Child(s.levels[l][at])
    ensures SeparatorFits(t.enc, SeparatorOf(At(t, s.levels[l + 1][i]), j), At(t, s.levels[l][at]))
  {
    assert ParentOk(t, s, l);
    Node(t, s, l, at);
    Node(t, s, l + 1, i);
    FirstKeyFits(t, s.levels[l + 1][i], j, s.levels[l][at]);
  }

  lemma LevelIsListed(t: Tree, s: Shape, l: nat)
    requires WellFormed(t, s) && l + 1 < |s.levels|
    ensures Covers(t, s.levels[l + 1], s.levels[l])
  {
    var low, high := s.levels[l], s.levels[l + 1];
    LevelIsChecked(t, s, l + 1, Internal);
    assert ParentOk(t, s, l);
    SameEdgeParts(t, high);
    forall at | 0 <= at < |low|
      ensures EdgeOk(t, Edges(t, high), low, at)
    {
      var i, j := EdgeOfRow(t, high, at);
      RowFits(t, s, l, at, i, j);
    }
  }

  lemma LeavesAreOk(t: Tree, s: Shape)
    requires WellFormed(t, s) && BlobsOk(t, s)
    ensures LeavesOk(t, s.levels[0], |s.levels[0]|)
  {
    var leaves := s.levels[0];
    forall i | 0 <= i < |leaves|
      ensures LeafAt(t, leaves, i)
    {
      Node(t, s, 0, i);
      forall j | 0 <= j < Count(t, leaves[i])
        ensures LeafEntryOk(t, At(t, leaves[i]), j)
      {
        RowOfPage(t, leaves, i, j);
        assert Flat(t, s)[Off(t, leaves, i) + j].payload == At(t, leaves[i]).payloads[j];
      }
    }
  }

  /** Everything the pass looks at is in order in a well-formed tree that has all its values. */
  lemma WellFormedIsWalked(t: Tree, s: Shape)
    requires WellFormed(t, s) && BlobsOk(t, s)
    ensures Walked(t, s)
  {
    LeavesAreOk(t, s);
    LevelIsClean(t, s, 0);
    assert s.levels[|s.levels| - 1][0] == t.root.value;
    Node(t, s, |s.levels| - 1, 0);
    forall l | 0 < l < |s.levels|
      ensures LevelClean(t, s.levels[l], Internal)
    {
      LevelIsClean(t, s, l);
    }
    forall l | 0 <= l < |s.levels| - 1
      ensures CoversNext(t, s.levels, l)
    {
      LevelIsListed(t, s, l);
    }
  }

  /** On pages compared one way, clean is well formed, no more and no less. */
  lemma CleanIsWellFormed(t: Tree, s: Shape)
    requires Lawful(t.enc)
    ensures Walked(t, s) && Uniform(t, s) <==> WellFormed(t, s) && BlobsOk(t, s)
  {
    if Walked(t, s) && Uniform(t, s) {
      WalksAreEnough(t, s);
    }
    if WellFormed(t, s) && BlobsOk(t, s) {
      WellFormedIsWalked(t, s);
      var top := |s.levels| - 1;
      assert s.levels[top][0] == t.root.value;
      Node(t, s, top, 0);
      forall l, i | 0 <= l < |s.levels| && 0 <= i < |s.levels[l]|
        ensures t.enc.exact || At(t, s.levels[l][i]).layout.omittedKeys == At(t, t.root.value).layout.omittedKeys
      {
        Node(t, s, l, i);
      }
    }
  }

  /** Every key above the leaves is one of theirs. */
  lemma {:induction false} RowIsLeafKey(t: Tree, s: Shape, l: nat, at: nat) returns (leaf: nat)
    requires WellFormed(t, s) && l < |s.levels| && at < |Rows(t, s.levels[l])|
    ensures leaf < |Flat(t, s)| && Flat(t, s)[leaf].key == Rows(t, s.levels[l])[at].key
    decreases l
  {
    if l == 0 {
      leaf := at;
    } else {
      assert ParentOk(t, s, l - 1);
      FirstKeyAt(t, s, l - 1, at);
      leaf := RowIsLeafKey(t, s, l - 1, Off(t, s.levels[l - 1], at));
    }
  }

  ghost predicate KeysUpTo(t: Tree, s: Shape, buffer: nat)
    requires |s.levels| > 0
  {
    forall at :: 0 <= at < |Flat(t, s)| ==> |Flat(t, s)[at].key| <= buffer
  }

  lemma LevelHasRoom(t: Tree, s: Shape, buffer: nat, l: nat)
    requires WellFormed(t, s) && KeysUpTo(t, s, buffer) && l < |s.levels|
    ensures LevelFits(t, buffer, s.levels, l)
  {
    var level := s.levels[l];
    var places := MarksAreDrawn(t, s, l, |level|);
    assert level[..|level|] == level;
    var ms := Marks(t, level);
    forall i | 0 <= i < |ms|
      ensures |ms[i].key| <= buffer
    {
      assert places[i] < |Rows(t, level)|;
      var leaf := RowIsLeafKey(t, s, l, places[i]);
    }
  }

  /** A well-formed tree with all its values, in pages that can be read, and a buffer for its longest key. */
  ghost predicate SoundAndReadable(t: Tree, avail: set<nat>, buffer: nat, s: Shape) {
    WellFormed(t, s) && BlobsOk(t, s) && AllAvailable(t, avail) && KeysUpTo(t, s, buffer)
  }

  /** So the pass gets over every well-formed tree, and reports nothing. */
  lemma WellFormedPasses(t: Tree, s: Shape, avail: set<nat>, buffer: nat)
    requires WellFormed(t, s) && BlobsOk(t, s) && AllAvailable(t, avail) && KeysUpTo(t, s, buffer)
    ensures Passes(t, avail, buffer, s)
  {
    WellFormedIsWalked(t, s);
    forall l | 0 <= l < |s.levels|
      ensures LevelFits(t, buffer, s.levels, l)
    {
      LevelHasRoom(t, s, buffer, l);
    }
  }

  /** Verifies one tree. If the pass runs to its end, finds nothing and leaves nothing out, it went over
      every page of the tree; and if those pages are compared one way, the tree is well formed and every
      value is where its row says. It raises no false alarm: where there is nothing to find it finds nothing,
      given pages that can be read and room for the keys. */
  method VerifyTree(t: Tree, avail: set<nat>, buffer: nat, rep: Reporter, ghost sound: Shape)
    returns (r: Result<()>, ghost s: Shape)
    modifies rep
    ensures t.root.Some? && r.Ok? && rep.Trusted() ==> Walked(t, s)
    ensures t.root.Some? && r.Ok? && rep.Trusted() && Lawful(t.enc) && Uniform(t, s) ==>
              WellFormed(t, s) && BlobsOk(t, s)
    ensures old(rep.Trusted()) && Passes(t, avail, buffer, sound) ==> r.Ok? && rep.Trusted() && s == sound
    ensures old(rep.Trusted()) && SoundAndReadable(t, avail, buffer, sound) ==> r.Ok? && rep.Trusted() && s == sound
    ensures t.root.None? ==> r.Ok? && (rep.Trusted() <==> old(rep.Trusted()))
  {
    s := Shape(false, []);
    if SoundAndReadable(t, avail, buffer, sound) {
      WellFormedPasses(t, sound, avail, buffer);
    }
    ghost var good := rep.Trusted() && Passes(t, avail, buffer, sound);
    var start;
    ghost var levels;
    start, levels := VerifyInternalLevels(t, avail, buffer, rep, sound, good);
    if start.Err? {
      return Err(start.kind), s;
    }
    if start.value.None? {
      return Ok(()), s;
    }
    s := Shape(TreeIsCoarse(t), levels);
    ghost var leaves := if levels == [] then [] else levels[0];
    if good {
      LeavesFit(t, avail, buffer, sound);
    }
    r := WalkLeaves(t, avail, buffer, start.value.value, rep, leaves, good);
    if rep.Trusted() && r.Ok? && Lawful(t.enc) && Uniform(t, s) {
      WalksAreEnough(t, s);
    }
  }

  lemma LeavesFit(t: Tree, avail: set<nat>, buffer: nat, s: Shape)
    requires Passes(t, avail, buffer, s)
    ensures LeavesPass(t, avail, buffer, s.levels[0]) && |s.levels[0]| <= |t.file|
  {
    assert LevelFits(t, buffer, s.levels, 0);
    WalkedSize(t, s, 0);
  }
}
