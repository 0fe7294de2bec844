/**
 Which keys a lookup reaches. A descent through pages that store their keys ends on one leaf, whatever
 the layout of that leaf. So a tree that passes every check can still hold a key that a lookup does not
 find; here is exactly when it does not.
 */
module Reaching {
  import opened Base
  import opened Encodings
  import opened Pages
  import opened Sequences
  import opened Trees
  import opened Searching
  import opened Verifying

  // ---------------------------------------------------------------- rows over leaves

  /** One key is not above another. */
  ghost predicate Upto(e: Encoding, a: Key, b: Key) {
    e.compare(a, b) != Greater
  }

  ghost predicate Stands(leaves: seq<seq<Key>>, i: nat, j: nat) {
    i < |leaves| && j < |leaves[i]|
  }

  /** Where a leaf stores its keys the row above it is its first key. Where it does not, the row only has
      to stay behind the digest of that key. */
  ghost predicate Listed(e: Encoding, row: Key, leaf: seq<Key>, loose: bool) {
    && leaf != [] && e.readable(row) && AllReadable(e, leaf)
    && if loose then e.digest(row) <= e.digest(leaf[0]) else row == leaf[0]
  }

  /** A key is not above one that stands behind it. */
  ghost predicate InOrder(e: Encoding, leaves: seq<seq<Key>>, i: nat, j: nat, i': nat, j': nat) {
    Stands(leaves, i, j) && Stands(leaves, i', j') && (i < i' || (i == i' && j <= j')) ==>
      Upto(e, leaves[i][j], leaves[i'][j'])
  }

  /** Leaves that leave their keys out tell them apart by digest. */
  ghost predicate Told(e: Encoding, leaves: seq<seq<Key>>, loose: seq<bool>, i: nat, j: nat, i': nat, j': nat)
    requires |loose| == |leaves|
  {
    Stands(leaves, i, j) && Stands(leaves, i', j') && loose[i] && loose[i'] ==>
      e.digest(leaves[i][j]) == e.digest(leaves[i'][j']) ==> leaves[i][j] == leaves[i'][j']
  }

  /** The rows of a level over the keys of its leaves, of which some are `loose`: rebuilt from digests that do
      not determine them. */
  ghost predicate Laid(e: Encoding, rows: seq<Key>, leaves: seq<seq<Key>>, loose: seq<bool>) {
    && Lawful(e) && |rows| == |leaves| == |loose| && Ascending(e, false, rows)
    && (forall i {:trigger Listed(e, rows[i], leaves[i], loose[i])} :: 0 <= i < |rows| ==>
          Listed(e, rows[i], leaves[i], loose[i]))
    && (forall i: nat, j: nat, i': nat, j': nat {:trigger InOrder(e, leaves, i, j, i', j')} ::
          InOrder(e, leaves, i, j, i', j'))
    && (forall i: nat, j: nat, i': nat, j': nat {:trigger Told(e, leaves, loose, i, j, i', j')} ::
          Told(e, leaves, loose, i, j, i', j'))
  }

  /** The leaf a lookup ends on: the last whose row is not above the key. */
  ghost predicate Landing(e: Encoding, rows: seq<Key>, k: Key, a: nat) {
    && a < |rows|
    && (a > 0 ==> Upto(e, rows[a], k))
    && (a + 1 < |rows| ==> e.compare(rows[a + 1], k) == Greater)
  }

  /** The leaf has an entry it takes for the key. */
  ghost predicate Has(e: Encoding, leaf: seq<Key>, loose: bool, k: Key) {
    exists j :: 0 <= j < |leaf| && Sees(e, loose, leaf[j], k) == Equal
  }

  ghost predicate FoundFrom(e: Encoding, rows: seq<Key>, leaves: seq<seq<Key>>, loose: seq<bool>, k: Key)
    requires |rows| == |leaves| == |loose|
  {
    exists a: nat :: Landing(e, rows, k, a) && Has(e, leaves[a], loose[a], k)
  }

  /** Leaf `i` starts where its row says, as far as a lookup can tell. The row is not above the first key, unless
      the leaf before ends in that same key; and a key of the leaf before that is not below the row is one that
      the first entry is taken for. */
  ghost predicate Meets(e: Encoding, rows: seq<Key>, leaves: seq<seq<Key>>, loose: seq<bool>, i: nat)
    requires |rows| == |leaves| == |loose| && 0 < i < |rows|
  {
    var before, leaf := leaves[i - 1], leaves[i];
    && leaf != [] && before != []
    && (Upto(e, rows[i], leaf[0]) || before[|before| - 1] == leaf[0])
    && (forall j :: 0 <= j < |before| && Upto(e, rows[i], before[j]) ==> Sees(e, loose[i], leaf[0], before[j]) == Equal)
  }

  ghost predicate AllMeet(e: Encoding, rows: seq<Key>, leaves: seq<seq<Key>>, loose: seq<bool>)
    requires |rows| == |leaves| == |loose|
  {
    forall i {:trigger Meets(e, rows, leaves, loose, i)} :: 0 < i < |rows| ==> Meets(e, rows, leaves, loose, i)
  }

  ghost predicate AllFound(e: Encoding, rows: seq<Key>, leaves: seq<seq<Key>>, loose: seq<bool>)
    requires |rows| == |leaves| == |loose|
  {
    forall i, j {:trigger leaves[i][j]} :: 0 <= i < |leaves| && 0 <= j < |leaves[i]| ==>
      FoundFrom(e, rows, leaves, loose, leaves[i][j])
  }

  // ---------------------------------------------------------------- landing

  lemma LaidKey(e: Encoding, rows: seq<Key>, leaves: seq<seq<Key>>, loose: seq<bool>, i: nat, j: nat)
    requires Laid(e, rows, leaves, loose) && Stands(leaves, i, j)
    ensures e.readable(leaves[i][j]) && e.readable(rows[i])
  {
    assert Listed(e, rows[i], leaves[i], loose[i]);
  }

  lemma RowsInOrder(e: Encoding, rows: seq<Key>, i: nat, j: nat)
    requires Ascending(e, false, rows) && i < j < |rows|
    ensures e.compare(rows[i], rows[j]) == Less
  {
    assert Precedes(e, false, rows[i], rows[j]);
  }

  /** Not above, twice over. */
  lemma UptoUpto(e: Encoding, a: Key, b: Key, c: Key)
    requires Lawful(e) && e.readable(a) && e.readable(b) && e.readable(c) && Upto(e, a, b) && Upto(e, b, c)
    ensures Upto(e, a, c) && e.digest(a) <= e.digest(b) <= e.digest(c)
    ensures a == c ==> a == b
  {
  }

  lemma {:induction false} SomeLanding(e: Encoding, rows: seq<Key>, k: Key, from: nat) returns (a: nat)
    requires from < |rows| && (from > 0 ==> Upto(e, rows[from], k))
    ensures Landing(e, rows, k, a)
    decreases |rows| - from
  {
    if from + 1 < |rows| && Upto(e, rows[from + 1], k) {
      a := SomeLanding(e, rows, k, from + 1);
    } else {
      a := from;
    }
  }

  lemma OneLanding(e: Encoding, rows: seq<Key>, k: Key, a: nat, b: nat)
    requires Lawful(e) && AllReadable(e, rows) && e.readable(k) && Ascending(e, false, rows)
    requires Landing(e, rows, k, a) && Landing(e, rows, k, b)
    ensures a == b
  {
    if a < b {
      if a + 1 < b {
        RowsInOrder(e, rows, a + 1, b);
      }
    } else if b < a {
      if b + 1 < a {
        RowsInOrder(e, rows, b + 1, a);
      }
    }
  }

  // ---------------------------------------------------------------- when every key is reached

  /** A leaf whose row is not above a key to its left takes its first entry for that key. */
  lemma {:induction false} StillSeen(e: Encoding, rows: seq<Key>, leaves: seq<seq<Key>>, loose: seq<bool>, i: nat,
                                     j: nat, at: nat)
    requires Laid(e, rows, leaves, loose) && AllMeet(e, rows, leaves, loose)
    requires Stands(leaves, i, j) && i < at < |rows| && Upto(e, rows[at], leaves[i][j])
    ensures leaves[at] != [] && Sees(e, loose[at], leaves[at][0], leaves[i][j]) == Equal
    decreases at
  {
    var k := leaves[i][j];
    assert Listed(e, rows[at], leaves[at], loose[at]);
    LaidKey(e, rows, leaves, loose, i, j);
    LaidKey(e, rows, leaves, loose, at, 0);
    assert InOrder(e, leaves, i, j, at, 0);
    if loose[at] {
      assert Meets(e, rows, leaves, loose, at);
      if i + 1 < at {
        StillSeenBefore(e, rows, leaves, loose, i, j, at);
        StillSeen(e, rows, leaves, loose, i, j, at - 1);
      }
    }
  }

  lemma StillSeenBefore(e: Encoding, rows: seq<Key>, leaves: seq<seq<Key>>, loose: seq<bool>, i: nat, j: nat, at: nat)
    requires Laid(e, rows, leaves, loose)
    requires Stands(leaves, i, j) && i + 1 < at < |rows| && Upto(e, rows[at], leaves[i][j])
    ensures Upto(e, rows[at - 1], leaves[i][j]) && leaves[at - 1] != [] && Upto(e, rows[at], leaves[at - 1][0])
    ensures e.readable(leaves[at - 1][0])
  {
    var k := leaves[i][j];
    assert Listed(e, rows[at], leaves[at], loose[at]) && Listed(e, rows[at - 1], leaves[at - 1], loose[at - 1]);
    LaidKey(e, rows, leaves, loose, i, j);
    LaidKey(e, rows, leaves, loose, at - 1, 0);
    assert InOrder(e, leaves, i, j, at - 1, 0);
    UptoUpto(e, rows[at], k, leaves[at - 1][0]);
    RowsInOrder(e, rows, at - 1, at);
    UptoUpto(e, rows[at - 1], rows[at], k);
  }

  /** A key below the row of its own leaf is the first there, and the last of the leaf before. */
  lemma BelowItsRow(e: Encoding, rows: seq<Key>, leaves: seq<seq<Key>>, loose: seq<bool>, i: nat, j: nat)
    requires Laid(e, rows, leaves, loose) && Stands(leaves, i, j) && 0 < i && Meets(e, rows, leaves, loose, i)
    requires e.compare(rows[i], leaves[i][j]) == Greater
    ensures leaves[i][j] == leaves[i - 1][|leaves[i - 1]| - 1]
  {
    var k, first := leaves[i][j], leaves[i][0];
    assert Listed(e, rows[i], leaves[i], loose[i]);
    LaidKey(e, rows, leaves, loose, i, j);
    LaidKey(e, rows, leaves, loose, i, 0);
    assert InOrder(e, leaves, i, 0, i, j);
    assert e.compare(k, rows[i]) == Less;
    UptoUpto(e, first, k, rows[i]);
    assert Told(e, leaves, loose, i, 0, i, j);
  }

  lemma {:induction false} MeetingIsFound(e: Encoding, rows: seq<Key>, leaves: seq<seq<Key>>, loose: seq<bool>,
                                          i: nat, j: nat, a: nat)
    requires Laid(e, rows, leaves, loose) && AllMeet(e, rows, leaves, loose)
    requires Stands(leaves, i, j) && Landing(e, rows, leaves[i][j], a)
    ensures Has(e, leaves[a], loose[a], leaves[i][j])
    decreases i
  {
    var k := leaves[i][j];
    LaidKey(e, rows, leaves, loose, i, j);
    if a == i {
      assert Sees(e, loose[i], leaves[i][j], k) == Equal;
    } else if i < a {
      StillSeen(e, rows, leaves, loose, i, j, a);
    } else {
      RowAbove(e, rows, leaves, loose, i, j, a);
      assert Meets(e, rows, leaves, loose, i);
      BelowItsRow(e, rows, leaves, loose, i, j);
      MeetingIsFound(e, rows, leaves, loose, i - 1, |leaves[i - 1]| - 1, a);
    }
  }

  lemma RowAbove(e: Encoding, rows: seq<Key>, leaves: seq<seq<Key>>, loose: seq<bool>, i: nat, j: nat, a: nat)
    requires Laid(e, rows, leaves, loose) && Stands(leaves, i, j) && a < i && Landing(e, rows, leaves[i][j], a)
    ensures e.compare(rows[i], leaves[i][j]) == Greater
  {
    LaidKey(e, rows, leaves, loose, i, j);
    assert Listed(e, rows[a + 1], leaves[a + 1], loose[a + 1]);
    if a + 1 < i {
      RowsInOrder(e, rows, a + 1, i);
    }
  }

  // ---------------------------------------------------------------- and only then

  lemma FirstMeets(e: Encoding, rows: seq<Key>, leaves: seq<seq<Key>>, loose: seq<bool>, i: nat, a: nat, y: nat)
    requires Laid(e, rows, leaves, loose) && 0 < i < |rows| && Stands(leaves, i, 0)
    requires e.compare(rows[i], leaves[i][0]) == Greater
    requires Landing(e, rows, leaves[i][0], a) && Stands(leaves, a, y)
    requires Sees(e, loose[a], leaves[a][y], leaves[i][0]) == Equal
    ensures leaves[i - 1] != [] && leaves[i - 1][|leaves[i - 1]| - 1] == leaves[i][0]
  {
    var k := leaves[i][0];
    assert Listed(e, rows[i], leaves[i], loose[i]) && Listed(e, rows[i - 1], leaves[i - 1], loose[i - 1]);
    LaidKey(e, rows, leaves, loose, i, 0);
    LaidKey(e, rows, leaves, loose, a, y);
    if i <= a {
      if i < a {
        RowsInOrder(e, rows, i, a);
      }
      assert false;
    }
    var last := |leaves[i - 1]| - 1;
    assert Told(e, leaves, loose, a, y, i, 0);
    assert leaves[a][y] == k;
    LaidKey(e, rows, leaves, loose, i - 1, last);
    assert InOrder(e, leaves, a, y, i - 1, last) && InOrder(e, leaves, i - 1, last, i, 0);
  }

  lemma OverlapMeets(e: Encoding, rows: seq<Key>, leaves: seq<seq<Key>>, loose: seq<bool>, i: nat, j: nat, a: nat,
                     y: nat)
    requires Laid(e, rows, leaves, loose) && 0 < i < |rows| && Stands(leaves, i - 1, j) && Stands(leaves, i, 0)
    requires Upto(e, rows[i], leaves[i - 1][j])
    requires Landing(e, rows, leaves[i - 1][j], a) && Stands(leaves, a, y)
    requires Sees(e, loose[a], leaves[a][y], leaves[i - 1][j]) == Equal
    ensures Sees(e, loose[i], leaves[i][0], leaves[i - 1][j]) == Equal
  {
    var x, first := leaves[i - 1][j], leaves[i][0];
    assert Listed(e, rows[i], leaves[i], loose[i]);
    LaidKey(e, rows, leaves, loose, i, 0);
    LaidKey(e, rows, leaves, loose, i - 1, j);
    LaidKey(e, rows, leaves, loose, a, y);
    assert InOrder(e, leaves, i - 1, j, i, 0);
    if loose[i] {
      NotBefore(e, rows, leaves, loose, i, x, a);
      assert InOrder(e, leaves, i, 0, a, y);
      UptoUpto(e, x, first, leaves[a][y]);
    }
  }

  /** A lookup does not end before a leaf whose row is not above the key. */
  lemma NotBefore(e: Encoding, rows: seq<Key>, leaves: seq<seq<Key>>, loose: seq<bool>, i: nat, k: Key, a: nat)
    requires Laid(e, rows, leaves, loose) && i < |rows| && e.readable(k)
    requires Upto(e, rows[i], k) && Landing(e, rows, k, a)
    ensures i <= a
  {
    if a < i {
      assert Listed(e, rows[i], leaves[i], loose[i]) && Listed(e, rows[a + 1], leaves[a + 1], loose[a + 1]);
      if a + 1 < i {
        RowsInOrder(e, rows, a + 1, i);
      }
    }
  }

  lemma FoundMeets(e: Encoding, rows: seq<Key>, leaves: seq<seq<Key>>, loose: seq<bool>, i: nat)
    requires Laid(e, rows, leaves, loose) && AllFound(e, rows, leaves, loose) && 0 < i < |rows|
    ensures Meets(e, rows, leaves, loose, i)
  {
    assert Listed(e, rows[i], leaves[i], loose[i]) && Listed(e, rows[i - 1], leaves[i - 1], loose[i - 1]);
    if !Upto(e, rows[i], leaves[i][0]) {
      var a, y := WhereFound(e, rows, leaves, loose, i, 0);
      FirstMeets(e, rows, leaves, loose, i, a, y);
    }
    var before := leaves[i - 1];
    forall j | 0 <= j < |before| && Upto(e, rows[i], before[j])
      ensures Sees(e, loose[i], leaves[i][0], before[j]) == Equal
    {
      var a, y := WhereFound(e, rows, leaves, loose, i - 1, j);
      OverlapMeets(e, rows, leaves, loose, i, j, a, y);
    }
  }

  lemma WhereFound(e: Encoding, rows: seq<Key>, leaves: seq<seq<Key>>, loose: seq<bool>, i: nat, j: nat)
    returns (a: nat, y: nat)
    requires |rows| == |leaves| == |loose| && AllFound(e, rows, leaves, loose) && Stands(leaves, i, j)
    ensures Landing(e, rows, leaves[i][j], a) && Stands(leaves, a, y)
    ensures Sees(e, loose[a], leaves[a][y], leaves[i][j]) == Equal
  {
    assert FoundFrom(e, rows, leaves, loose, leaves[i][j]);
    a :| Landing(e, rows, leaves[i][j], a) && Has(e, leaves[a], loose[a], leaves[i][j]);
    y :| 0 <= y < |leaves[a]| && Sees(e, loose[a], leaves[a][y], leaves[i][j]) == Equal;
  }

  /** Every key is reached exactly when every leaf starts where its row says. */
  lemma AllFoundExactly(e: Encoding, rows: seq<Key>, leaves: seq<seq<Key>>, loose: seq<bool>)
    requires Laid(e, rows, leaves, loose)
    ensures AllFound(e, rows, leaves, loose) <==> AllMeet(e, rows, leaves, loose)
  {
    if AllFound(e, rows, leaves, loose) {
      forall i | 0 < i < |rows|
        ensures Meets(e, rows, leaves, loose, i)
      {
        FoundMeets(e, rows, leaves, loose, i);
      }
    }
    if AllMeet(e, rows, leaves, loose) {
      forall i, j | 0 <= i < |leaves| && 0 <= j < |leaves[i]|
        ensures FoundFrom(e, rows, leaves, loose, leaves[i][j])
      {
        var a := SomeLanding(e, rows, leaves[i][j], 0);
        MeetingIsFound(e, rows, leaves, loose, i, j, a);
      }
    }
  }

  /** The row is the first key of its leaf, or the leaf before ends in that key. */
  ghost predicate StartsInPlace(rows: seq<Key>, leaves: seq<seq<Key>>, i: nat)
    requires |rows| == |leaves| && 0 < i < |rows|
  {
    var before, leaf := leaves[i - 1], leaves[i];
    before != [] && leaf != [] && (rows[i] == leaf[0] || before[|before| - 1] == leaf[0])
  }

  /** Where rows are never below the first keys, nothing else can go wrong. */
  lemma MeetsInPlace(e: Encoding, rows: seq<Key>, leaves: seq<seq<Key>>, loose: seq<bool>, i: nat)
    requires Laid(e, rows, leaves, loose) && 0 < i < |rows|
    requires leaves[i] != [] && Upto(e, leaves[i][0], rows[i])
    ensures Meets(e, rows, leaves, loose, i) <==> StartsInPlace(rows, leaves, i)
  {
    var before, first := leaves[i - 1], leaves[i][0];
    assert Listed(e, rows[i], leaves[i], loose[i]) && Listed(e, rows[i - 1], before, loose[i - 1]);
    LaidKey(e, rows, leaves, loose, i, 0);
    forall j | 0 <= j < |before| && Upto(e, rows[i], before[j])
      ensures Sees(e, loose[i], first, before[j]) == Equal
    {
      LaidKey(e, rows, leaves, loose, i - 1, j);
      assert InOrder(e, leaves, i - 1, j, i, 0);
      UptoUpto(e, rows[i], before[j], first);
    }
  }

  // ---------------------------------------------------------------- clean trees

  /** A key stands behind its own digest and no other. */
  ghost predicate KeepsDigest(e: Encoding) {
    forall k, d {:trigger e.accepts(k, d)} ::
      e.readable(k) && e.accepts(k, d) && e.rebuild(d).Some? ==> e.digest(k) == d
  }

  /** And the key a digest is rebuilt to is the least of those that have it. */
  ghost predicate RebuildsLeast(e: Encoding) {
    && KeepsDigest(e)
    && (forall k {:trigger e.digest(k)} :: e.readable(k) && e.rebuild(e.digest(k)).Some? ==>
          Upto(e, e.rebuild(e.digest(k)).value, k))
  }

  /** No page above the leaves compares by digests that do not determine a key. */
  ghost predicate KeyedAbove(t: Tree, s: Shape) {
    forall l, i {:trigger s.levels[l][i]} :: 0 < l < |s.levels| && 0 <= i < |s.levels[l]| ==>
      !Inexact(t.enc, At(t, s.levels[l][i]))
  }

  ghost function LeafKeys(t: Tree, s: Shape): (ks: seq<seq<Key>>)
    requires |s.levels| > 0
    ensures |ks| == |s.levels[0]|
    ensures forall i {:trigger ks[i]} :: 0 <= i < |ks| ==> ks[i] == Keys(t.enc, At(t, s.levels[0][i]))
  {
    seq(|s.levels[0]|, i requires 0 <= i < |s.levels[0]| => Keys(t.enc, At(t, s.levels[0][i])))
  }

  ghost function LooseLeaves(t: Tree, s: Shape): (ls: seq<bool>)
    requires |s.levels| > 0
    ensures |ls| == |s.levels[0]|
    ensures forall i {:trigger ls[i]} :: 0 <= i < |ls| ==> ls[i] == Inexact(t.enc, At(t, s.levels[0][i]))
  {
    seq(|s.levels[0]|, i requires 0 <= i < |s.levels[0]| => Inexact(t.enc, At(t, s.levels[0][i])))
  }

  lemma {:induction false} MarksAscend(e: Encoding, ms: seq<Mark>, a: nat, b: nat)
    requires Lawful(e) && InLine(e, ms) && a < b < |ms|
    ensures e.readable(ms[a].key) && e.readable(ms[b].key) && Upto(e, ms[a].key, ms[b].key)
    ensures (forall i :: 0 <= i < |ms| ==> !ms[i].loose) ==> e.compare(ms[a].key, ms[b].key) == Less
  {
    assert NextSorts(e, ms, b - 1);
    if a < b - 1 {
      MarksAscend(e, ms, a, b - 1);
    }
  }

  lemma LeafMark(t: Tree, level: seq<nat>, i: nat, j: nat)
    requires Marked(t, level) && i < |level| && j < Count(t, level[i])
    ensures Off(t, level, i) + j < |Marks(t, level)|
    ensures Marks(t, level)[Off(t, level, i) + j].key == KeyAt(t.enc, At(t, level[i]), j)
  {
    RowOfPage(t, level, i, j);
    var a, b := MarkOfRow(t, level, Off(t, level, i) + j);
  }

  lemma MarksInOrder(t: Tree, level: seq<nat>, i: nat, j: nat, i': nat, j': nat)
    requires Lawful(t.enc) && Marked(t, level) && InLine(t.enc, Marks(t, level))
    requires i < |level| && i' < |level| && j < Count(t, level[i]) && j' < Count(t, level[i'])
    requires i < i' || (i == i' && j < j')
    ensures Upto(t.enc, KeyAt(t.enc, At(t, level[i]), j), KeyAt(t.enc, At(t, level[i']), j'))
  {
    LeafMark(t, level, i, j);
    LeafMark(t, level, i', j');
    StartGrows(Parts(t, level), i, i');
    MarksAscend(t.enc, Marks(t, level), Off(t, level, i) + j, Off(t, level, i') + j');
  }

  lemma LeavesInOrder(t: Tree, s: Shape, i: nat, j: nat, i': nat, j': nat)
    requires Lawful(t.enc) && Walked(t, s)
    ensures InOrder(t.enc, LeafKeys(t, s), i, j, i', j')
  {
    var keys := LeafKeys(t, s);
    if Stands(keys, i, j) && Stands(keys, i', j') && (i < i' || (i == i' && j <= j')) {
      if i == i' && j == j' {
        CheckedLeafReadable(t, s, i);
      } else {
        MarksInOrder(t, s.levels[0], i, j, i', j');
      }
    }
  }

  lemma CheckedLeafReadable(t: Tree, s: Shape, i: nat)
    requires Lawful(t.enc) && Walked(t, s) && i < |s.levels[0]|
    ensures AllReadable(t.enc, LeafKeys(t, s)[i])
  {
    assert At(t, s.levels[0][i]) == At(t, s.levels[0][i]);
    CheckedKeysReadable(t.enc, At(t, s.levels[0][i]));
  }

  lemma LeavesTold(t: Tree, s: Shape, i: nat, j: nat, i': nat, j': nat)
    requires Lawful(t.enc) && Walked(t, s)
    ensures Told(t.enc, LeafKeys(t, s), LooseLeaves(t, s), i, j, i', j')
  {
    var level, keys, loose := s.levels[0], LeafKeys(t, s), LooseLeaves(t, s);
    if Stands(keys, i, j) && Stands(keys, i', j') && loose[i] && loose[i'] {
      RebuiltKey(t, s, i, j);
      RebuiltKey(t, s, i', j');
    }
  }

  lemma RebuiltKey(t: Tree, s: Shape, i: nat, j: nat)
    requires Lawful(t.enc) && Walked(t, s) && Stands(LeafKeys(t, s), i, j) && LooseLeaves(t, s)[i]
    ensures t.enc.rebuild(t.enc.digest(LeafKeys(t, s)[i][j])) == Some(LeafKeys(t, s)[i][j])
  {
    assert LeafAt(t, s.levels[0], i);
    assert LeafEntryOk(t, At(t, s.levels[0][i]), j);
  }

  lemma FitsIsListed(t: Tree, parent: nat, j: nat, child: nat)
    requires Lawful(t.enc) && PageOk(t.enc, At(t, parent)) && PageOk(t.enc, At(t, child))
    requires !Inexact(t.enc, At(t, parent)) && j < Count(t, parent)
    requires SeparatorFits(t.enc, SeparatorOf(At(t, parent), j), At(t, child))
    ensures Listed(t.enc, KeyAt(t.enc, At(t, parent), j), Keys(t.enc, At(t, child)), Inexact(t.enc, At(t, child)))
    ensures RebuildsLeast(t.enc) ==> Upto(t.enc, FirstKey(t, child), KeyAt(t.enc, At(t, parent), j))
  {
    var e, p, c := t.enc, At(t, parent), At(t, child);
    CheckedKeysReadable(e, p);
    CheckedKeysReadable(e, c);
    assert e.readable(Keys(e, p)[j]) && e.readable(Keys(e, c)[0]);
    if !Inexact(e, c) {
      if e.exact {
        FittingSeparatorIsFirstKey(t, parent, j, child);
      }
    }
  }

  lemma CoveredIsListed(t: Tree, above: seq<nat>, leaves: seq<nat>, i: nat)
    requires Lawful(t.enc) && Covers(t, above, leaves) && i < |leaves|
    requires Checked(t, above, Internal, |above|) && Checked(t, leaves, Leaf, |leaves|)
    requires forall a {:trigger At(t, above[a])} :: 0 <= a < |above| ==> !Inexact(t.enc, At(t, above[a]))
    ensures |Rows(t, above)| == |leaves|
    ensures Listed(t.enc, RowKeys(Rows(t, above))[i], Keys(t.enc, At(t, leaves[i])), Inexact(t.enc, At(t, leaves[i])))
    ensures RebuildsLeast(t.enc) ==> Upto(t.enc, FirstKey(t, leaves[i]), RowKeys(Rows(t, above))[i])
  {
    SameEdgeParts(t, above);
    var a, b := EdgeOfRow(t, above, i);
    assert EdgeOk(t, Edges(t, above), leaves, i);
    FitsIsListed(t, above[a], b, leaves[i]);
  }

  lemma LeafIsListed(t: Tree, s: Shape, i: nat)
    requires Lawful(t.enc) && Walked(t, s) && KeyedAbove(t, s) && |s.levels| > 1 && i < |s.levels[0]|
    ensures |LevelKeys(t, s, 1)| == |s.levels[0]|
    ensures Listed(t.enc, LevelKeys(t, s, 1)[i], LeafKeys(t, s)[i], LooseLeaves(t, s)[i])
    ensures RebuildsLeast(t.enc) ==> Upto(t.enc, LeafKeys(t, s)[i][0], LevelKeys(t, s, 1)[i])
  {
    WalkedLevel(t, s, 1);
    WalkedCovers(t, s, 0);
    CoveredIsListed(t, s.levels[1], s.levels[0], i);
  }

  /** Rows that are compared with each other, and stand for one key each. */
  ghost predicate Sharp(t: Tree, level: seq<nat>) {
    && Marked(t, level) && InLine(t.enc, Marks(t, level))
    && (forall i {:trigger At(t, level[i])} :: 0 <= i < |level| ==> !Inexact(t.enc, At(t, level[i])))
  }

  lemma SharpMarks(t: Tree, level: seq<nat>)
    requires Sharp(t, level)
    ensures |Marks(t, level)| == |Rows(t, level)|
    ensures forall m {:trigger Marks(t, level)[m]} :: 0 <= m < |Marks(t, level)| ==>
              Marks(t, level)[m] == Mark(Rows(t, level)[m].key, false)
  {
    SameMarkParts(t, level);
    forall m | 0 <= m < |Marks(t, level)|
      ensures Marks(t, level)[m] == Mark(Rows(t, level)[m].key, false)
    {
      var i, j := MarkOfRow(t, level, m);
    }
  }

  lemma SharpRowsAscend(t: Tree, level: seq<nat>, a: nat, b: nat)
    requires Lawful(t.enc) && Sharp(t, level) && a < b < |Rows(t, level)|
    ensures t.enc.compare(Rows(t, level)[a].key, Rows(t, level)[b].key) == Less
  {
    SharpMarks(t, level);
    MarksAscend(t.enc, Marks(t, level), a, b);
  }

  lemma SharpFirstsAscend(t: Tree, level: seq<nat>, a: nat, b: nat)
    requires Lawful(t.enc) && Sharp(t, level) && a < b < |level| && Count(t, level[a]) > 0 && Count(t, level[b]) > 0
    ensures t.enc.compare(KeyAt(t.enc, At(t, level[a]), 0), KeyAt(t.enc, At(t, level[b]), 0)) == Less
  {
    RowOfPage(t, level, a, 0);
    RowOfPage(t, level, b, 0);
    StartGrows(Parts(t, level), a, b);
    SharpRowsAscend(t, level, Off(t, level, a), Off(t, level, b));
  }

  /** Where digests determine keys, rows are the first keys of the leaves. */
  lemma ExactRowsAscend(t: Tree, s: Shape, a: nat, b: nat)
    requires Lawful(t.enc) && Walked(t, s) && t.enc.exact && a < b < |s.levels[0]|
    requires Count(t, s.levels[0][a]) > 0 && Count(t, s.levels[0][b]) > 0
    ensures t.enc.compare(LeafKeys(t, s)[a][0], LeafKeys(t, s)[b][0]) == Less
  {
    SharpFirstsAscend(t, s.levels[0], a, b);
  }

  lemma RowsAboveAscend(t: Tree, s: Shape, a: nat, b: nat)
    requires Lawful(t.enc) && Walked(t, s) && KeyedAbove(t, s) && |s.levels| > 1
    requires a < b < |LevelKeys(t, s, 1)|
    ensures Precedes(t.enc, false, LevelKeys(t, s, 1)[a], LevelKeys(t, s, 1)[b])
  {
    if t.enc.exact {
      LeafIsListed(t, s, 0);
      LeafIsListed(t, s, a);
      LeafIsListed(t, s, b);
      ExactRowsAscend(t, s, a, b);
    } else {
      WalkedLevel(t, s, 1);
      SharpRowsAscend(t, s.levels[1], a, b);
    }
  }

  lemma WalkedIsLaid(t: Tree, s: Shape)
    requires Lawful(t.enc) && Walked(t, s) && KeyedAbove(t, s) && |s.levels| > 1
    ensures Laid(t.enc, LevelKeys(t, s, 1), LeafKeys(t, s), LooseLeaves(t, s))
  {
    var e, rows, leaves, loose := t.enc, LevelKeys(t, s, 1), LeafKeys(t, s), LooseLeaves(t, s);
    LeafIsListed(t, s, 0);
    forall i | 0 <= i < |rows|
      ensures Listed(e, rows[i], leaves[i], loose[i])
    {
      LeafIsListed(t, s, i);
    }
    forall a, b | 0 <= a < b < |rows|
      ensures Precedes(e, false, rows[a], rows[b])
    {
      RowsAboveAscend(t, s, a, b);
    }
    forall i: nat, j: nat, i': nat, j': nat
      ensures InOrder(e, leaves, i, j, i', j') && Told(e, leaves, loose, i, j, i', j')
    {
      LeavesInOrder(t, s, i, j, i', j');
      LeavesTold(t, s, i, j, i', j');
    }
  }

  // ---------------------------------------------------------------- the way down

  /** The shape a descent sees, which does not care how a single leaf is compared. */
  ghost function Way(s: Shape): Shape {
    s.(coarse := false)
  }

  /** The pages above the leaves are compared one way. */
  ghost predicate OneWayAbove(t: Tree, s: Shape) {
    forall l, i {:trigger s.levels[l][i]} :: 0 < l < |s.levels| && 0 <= i < |s.levels[l]| ==>
      (s.coarse <==> Inexact(t.enc, At(t, s.levels[l][i])))
  }

  lemma NodeOnWay(t: Tree, s: Shape, way: Shape, l: nat, i: nat)
    requires Walked(t, s) && way.levels == s.levels && OneWayAbove(t, way) && l < |s.levels| && i < |s.levels[l]|
    ensures NodeIs(t, way, l, i)
  {
    WalkedLevel(t, s, l);
    assert InFile(t, s.levels[l][i]) && At(t, s.levels[l][i]) == At(t, s.levels[l][i]);
    if l + 1 < |s.levels| {
      WalkedCovers(t, s, l);
      CoveredPage(t, s.levels[l + 1], s.levels[l], i);
    }
  }

  lemma SoundAbove(t: Tree, s: Shape, l: nat, i: nat)
    requires Walked(t, s) && 0 < l < |s.levels| && i < |s.levels[l]|
    ensures PageOk(t.enc, At(t, s.levels[l][i]))
  {
    WalkedLevel(t, s, l);
    assert At(t, s.levels[l][i]) == At(t, s.levels[l][i]);
  }

  lemma ModeAbove(t: Tree, way: Shape, l: nat, i: nat)
    requires OneWayAbove(t, way) && 0 < l < |way.levels| && i < |way.levels[l]|
    requires t.root.Some? && way.levels[|way.levels| - 1] == [t.root.value]
    ensures SameMode(t, way.levels[l][i])
  {
    assert way.levels[|way.levels| - 1][0] == t.root.value;
  }

  lemma CoveredLeads(t: Tree, high: seq<nat>, low: seq<nat>, at: nat) returns (i: nat, j: nat)
    requires Covers(t, high, low) && Checked(t, high, Internal, |high|) && at < |low|
    ensures |Rows(t, high)| == |low| && i < |high| && j < Count(t, high[i])
    ensures Rows(t, high)[at] == Row(KeyAt(t.enc, At(t, high[i]), j), Child(low[at]))
    ensures SeparatorFits(t.enc, SeparatorOf(At(t, high[i]), j), At(t, low[at]))
  {
    SameEdgeParts(t, high);
    i, j := EdgeOfRow(t, high, at);
    assert EdgeOk(t, Edges(t, high), low, at);
  }

  lemma WalkedPair(t: Tree, s: Shape, l: nat)
    requires Walked(t, s) && l + 1 < |s.levels|
    ensures Covers(t, s.levels[l + 1], s.levels[l]) && Checked(t, s.levels[l + 1], Internal, |s.levels[l + 1]|)
  {
    WalkedLevel(t, s, l + 1);
    WalkedCovers(t, s, l);
  }

  lemma WalkedLeads(t: Tree, s: Shape, l: nat, at: nat) returns (i: nat, j: nat)
    requires Walked(t, s) && l + 1 < |s.levels| && at < |s.levels[l]|
    ensures |Rows(t, s.levels[l + 1])| == |s.levels[l]| && i < |s.levels[l + 1]| && j < Count(t, s.levels[l + 1][i])
    ensures Rows(t, s.levels[l + 1])[at] == Row(KeyAt(t.enc, At(t, s.levels[l + 1][i]), j), Child(s.levels[l][at]))
    ensures SeparatorFits(t.enc, SeparatorOf(At(t, s.levels[l + 1][i]), j), At(t, s.levels[l][at]))
  {
    WalkedPair(t, s, l);
    i, j := CoveredLeads(t, s.levels[l + 1], s.levels[l], at);
  }

  lemma LeadsAbove(t: Tree, s: Shape, way: Shape, l: nat, at: nat, i: nat, j: nat)
    requires Lawful(t.enc) && Walked(t, s) && way.levels == s.levels && OneWayAbove(t, way)
    requires 0 < l && l + 1 < |s.levels| && at < |s.levels[l]|
    requires i < |s.levels[l + 1]| && j < Count(t, s.levels[l + 1][i])
    requires SeparatorFits(t.enc, SeparatorOf(At(t, s.levels[l + 1][i]), j), At(t, s.levels[l][at]))
    ensures KeyAt(t.enc, At(t, s.levels[l + 1][i]), j) == FirstKey(t, s.levels[l][at])
  {
    SoundAbove(t, s, l, at);
    SoundAbove(t, s, l + 1, i);
    ModeAbove(t, way, l, at);
    ModeAbove(t, way, l + 1, i);
    FittingSeparatorIsFirstKey(t, s.levels[l + 1][i], j, s.levels[l][at]);
  }

  lemma LeadsOnWay(t: Tree, s: Shape, way: Shape, l: nat, at: nat)
    requires Lawful(t.enc) && Walked(t, s) && way.levels == s.levels && OneWayAbove(t, way)
    requires l + 1 < |s.levels| && at < |s.levels[l]|
    ensures |s.levels[l]| == |Rows(t, s.levels[l + 1])| && Leads(t, way, l, at)
  {
    var i, j := WalkedLeads(t, s, l, at);
    if l > 0 {
      LeadsAbove(t, s, way, l, at, i, j);
    }
  }

  /** A clean tree whose pages above the leaves are compared one way can be descended. */
  lemma WalkedRoutes(t: Tree, s: Shape, way: Shape)
    requires Lawful(t.enc) && Walked(t, s) && way.levels == s.levels && OneWayAbove(t, way)
    ensures Routable(t, way)
  {
    forall l | 0 <= l < |s.levels|
      ensures LevelIs(t, way, l)
    {
      WalkedLevel(t, s, l);
      forall i | 0 <= i < |s.levels[l]|
        ensures NodeIs(t, way, l, i)
      {
        NodeOnWay(t, s, way, l, i);
      }
    }
    forall l | 0 <= l < |s.levels| - 1
      ensures LevelLeads(t, way, l)
    {
      WalkedLevel(t, s, l);
      LeadsOnWay(t, s, way, l, 0);
      forall i | 0 <= i < |s.levels[l]|
        ensures Leads(t, way, l, i)
      {
        LeadsOnWay(t, s, way, l, i);
      }
    }
  }

  // ---------------------------------------------------------------- what a lookup finds

  /** A lookup of `k` finds an entry: the leaf it comes to takes one for `k`. */
  ghost predicate Finds(t: Tree, s: Shape, k: Key)
    requires |s.levels| > 0
  {
    exists leaf: nat {:trigger Routed(t, Way(s), k, 0, leaf, false)} ::
      Routed(t, Way(s), k, 0, leaf, false) && PageAnswer(t.enc, At(t, s.levels[0][leaf]), EqualTo, k).Some?
  }

  /** A page answers exactly when it has an entry it takes for the key. */
  lemma AnswersIfHas(e: Encoding, p: Page, k: Key)
    requires Lawful(e) && PageOk(e, p) && e.readable(k)
    ensures PageAnswer(e, p, EqualTo, k).Some? <==> Has(e, Keys(e, p), Inexact(e, p), k)
  {
    var ks, coarse := Keys(e, p), Inexact(e, p);
    CheckedKeysReadable(e, p);
    CheckedKeysAscend(e, p);
    var n := PageCut(e, p, EqualTo, k);
    if Has(e, ks, coarse, k) {
      var j :| 0 <= j < |ks| && Sees(e, coarse, ks[j], k) == Equal;
      if n < j {
        assert Precedes(e, coarse, ks[n], ks[j]);
        SeenInOrder(e, coarse, ks[n], ks[j], k);
      }
    }
  }

  /** What a lookup finds, told from the rows above the leaves and the leaves. */
  lemma FindsFromRows(t: Tree, s: Shape, k: Key)
    requires Lawful(t.enc) && Walked(t, s) && |s.levels| > 1 && t.enc.readable(k)
    requires |LevelKeys(t, s, 1)| == |s.levels[0]|
    ensures Finds(t, s, k) <==> FoundFrom(t.enc, LevelKeys(t, s, 1), LeafKeys(t, s), LooseLeaves(t, s), k)
  {
    var e, rows, leaves, loose := t.enc, LevelKeys(t, s, 1), LeafKeys(t, s), LooseLeaves(t, s);
    if Finds(t, s, k) {
      var a: nat :| Routed(t, Way(s), k, 0, a, false) && PageAnswer(e, At(t, s.levels[0][a]), EqualTo, k).Some?;
      LeafAnswers(t, s, k, a);
      RoutedIsLanding(t, s, k, a);
    }
    if FoundFrom(e, rows, leaves, loose, k) {
      var a: nat :| Landing(e, rows, k, a) && Has(e, leaves[a], loose[a], k);
      LeafAnswers(t, s, k, a);
      RoutedIsLanding(t, s, k, a);
    }
  }

  lemma RoutedIsLanding(t: Tree, s: Shape, k: Key, a: nat)
    requires |s.levels| > 1 && |LevelKeys(t, s, 1)| == |s.levels[0]|
    ensures Routed(t, Way(s), k, 0, a, false) <==> Landing(t.enc, LevelKeys(t, s, 1), k, a)
  {
  }

  lemma LeafAnswers(t: Tree, s: Shape, k: Key, a: nat)
    requires Lawful(t.enc) && Walked(t, s) && a < |s.levels[0]| && t.enc.readable(k)
    ensures PageAnswer(t.enc, At(t, s.levels[0][a]), EqualTo, k).Some? <==>
              Has(t.enc, LeafKeys(t, s)[a], LooseLeaves(t, s)[a], k)
  {
    assert At(t, s.levels[0][a]) == At(t, s.levels[0][a]);
    AnswersIfHas(t.enc, At(t, s.levels[0][a]), k);
  }

  ghost predicate EveryKeyFound(t: Tree, s: Shape)
    requires |s.levels| > 0
  {
    forall i, j {:trigger LeafKeys(t, s)[i][j]} :: 0 <= i < |s.levels[0]| && 0 <= j < |LeafKeys(t, s)[i]| ==>
      Finds(t, s, LeafKeys(t, s)[i][j])
  }

  /** Every leaf starts where the row above it says. */
  ghost predicate EveryLeafMeets(t: Tree, s: Shape)
    requires |s.levels| > 0
  {
    |s.levels| > 1 ==>
      && |LevelKeys(t, s, 1)| == |s.levels[0]|
      && AllMeet(t.enc, LevelKeys(t, s, 1), LeafKeys(t, s), LooseLeaves(t, s))
  }

  /** In a tree that passes every check, each key on a leaf is found exactly when each leaf starts where the row
      above it says. */
  lemma FoundExactly(t: Tree, s: Shape)
    requires Lawful(t.enc) && Walked(t, s) && KeyedAbove(t, s)
    ensures EveryKeyFound(t, s) <==> EveryLeafMeets(t, s)
  {
    var leaves := LeafKeys(t, s);
    if |s.levels| == 1 {
      forall i, j | 0 <= i < |leaves| && 0 <= j < |leaves[i]|
        ensures Finds(t, s, leaves[i][j])
      {
        OnlyLeafFinds(t, s, j);
      }
    } else {
      WalkedIsLaid(t, s);
      AllFoundExactly(t.enc, LevelKeys(t, s, 1), leaves, LooseLeaves(t, s));
      forall i, j | 0 <= i < |leaves| && 0 <= j < |leaves[i]|
        ensures Finds(t, s, leaves[i][j]) <==>
                FoundFrom(t.enc, LevelKeys(t, s, 1), leaves, LooseLeaves(t, s), leaves[i][j])
      {
        CheckedLeafReadable(t, s, i);
        FindsFromRows(t, s, leaves[i][j]);
      }
    }
  }

  /** For encodings like the ones shipped here: exactly when each row above the leaves is the first key of its leaf,
      but where the leaf before ends in that key. */
  lemma FoundExactlyInPlace(t: Tree, s: Shape)
    requires Lawful(t.enc) && Walked(t, s) && KeyedAbove(t, s) && RebuildsLeast(t.enc) && |s.levels| > 1
    ensures |LevelKeys(t, s, 1)| == |s.levels[0]|
    ensures EveryKeyFound(t, s) <==>
              forall i {:trigger StartsInPlace(LevelKeys(t, s, 1), LeafKeys(t, s), i)} :: 0 < i < |s.levels[0]| ==>
                StartsInPlace(LevelKeys(t, s, 1), LeafKeys(t, s), i)
  {
    var e, rows, leaves, loose := t.enc, LevelKeys(t, s, 1), LeafKeys(t, s), LooseLeaves(t, s);
    FoundExactly(t, s);
    WalkedIsLaid(t, s);
    forall i | 0 < i < |rows|
      ensures Meets(e, rows, leaves, loose, i) <==> StartsInPlace(rows, leaves, i)
    {
      LeafIsListed(t, s, i);
      MeetsInPlace(e, rows, leaves, loose, i);
    }
  }

  lemma OnlyLeafFinds(t: Tree, s: Shape, j: nat)
    requires Lawful(t.enc) && Walked(t, s) && |s.levels| == 1 && Stands(LeafKeys(t, s), 0, j)
    ensures |s.levels[0]| == 1 && Finds(t, s, LeafKeys(t, s)[0][j])
  {
    var k := LeafKeys(t, s)[0][j];
    CheckedLeafReadable(t, s, 0);
    assert Sees(t.enc, LooseLeaves(t, s)[0], LeafKeys(t, s)[0][j], k) == Equal;
    LeafAnswers(t, s, k, 0);
    assert Routed(t, Way(s), k, 0, 0, false);
  }

  // ---------------------------------------------------------------- pages above that leave keys out

  /** Every page above the leaves compares by digests that do not determine a key. */
  ghost predicate CoarseAbove(t: Tree, s: Shape) {
    |s.levels| > 1 && s.coarse && OneWayAbove(t, s)
  }

  ghost predicate AllBelow(e: Encoding, leaf: seq<Key>, loose: bool, k: Key) {
    forall j :: 0 <= j < |leaf| ==> Sees(e, loose, leaf[j], k) == Less
  }

  /** Keys of leaves in order. */
  ghost predicate Ranked(e: Encoding, leaves: seq<seq<Key>>) {
    && Lawful(e)
    && (forall i {:trigger leaves[i]} :: 0 <= i < |leaves| ==> leaves[i] != [] && AllReadable(e, leaves[i]))
    && (forall i: nat, j: nat, i': nat, j': nat {:trigger InOrder(e, leaves, i, j, i', j')} ::
          InOrder(e, leaves, i, j, i', j'))
  }

  /** Going right, the leaves before a key either have an entry that is taken for it, or are all below. */
  lemma {:induction false} FirstThatHas(e: Encoding, leaves: seq<seq<Key>>, loose: seq<bool>, i: nat, j: nat, from: nat)
    returns (goal: nat)
    requires Ranked(e, leaves) && |loose| == |leaves| && Stands(leaves, i, j) && from <= i
    ensures from <= goal <= i && Has(e, leaves[goal], loose[goal], leaves[i][j])
    ensures forall m :: from <= m < goal ==> AllBelow(e, leaves[m], loose[m], leaves[i][j])
    decreases i - from
  {
    var k := leaves[i][j];
    assert Has(e, leaves[i], loose[i], k) by {
      assert e.readable(k) && Sees(e, loose[i], leaves[i][j], k) == Equal;
    }
    if Has(e, leaves[from], loose[from], k) {
      goal := from;
    } else {
      forall y | 0 <= y < |leaves[from]|
        ensures Sees(e, loose[from], leaves[from][y], k) == Less
      {
        assert InOrder(e, leaves, from, y, i, j);
        assert e.readable(leaves[from][y]);
      }
      goal := FirstThatHas(e, leaves, loose, i, j, from + 1);
    }
  }

  lemma DigestsRanked(e: Encoding, leaves: seq<seq<Key>>, i: nat, j: nat, i': nat, j': nat)
    requires Ranked(e, leaves) && Stands(leaves, i, j) && Stands(leaves, i', j') && i < i'
    ensures e.digest(leaves[i][j]) <= e.digest(leaves[i'][j'])
  {
    assert InOrder(e, leaves, i, j, i', j');
    assert e.readable(leaves[i][j]) && e.readable(leaves[i'][j']);
  }

  /** The digest above each leaf is that of its first key, so a descent by digest does not go past a key, and is in
      doubt if it stops short of it. */
  lemma StopsInDoubt(e: Encoding, rows: seq<Key>, leaves: seq<seq<Key>>, i: nat, j: nat, a: nat, flag: bool)
    requires Ranked(e, leaves) && Stands(leaves, i, j) && |rows| == |leaves|
    requires forall m :: 0 <= m < |rows| ==> e.digest(rows[m]) == e.digest(leaves[m][0])
    requires Chosen(e, true, rows, leaves[i][j], a, flag)
    ensures a <= i && (a < i ==> flag)
  {
    if i < a {
      DigestsRanked(e, leaves, i, j, a, 0);
    } else if a + 1 < i {
      DigestsRanked(e, leaves, a + 1, 0, i, j);
    } else if a + 1 == i && j > 0 {
      assert InOrder(e, leaves, i, 0, i, j);
      assert e.readable(leaves[i][0]) && e.readable(leaves[i][j]);
    }
  }

  lemma WalkedIsRanked(t: Tree, s: Shape)
    requires Lawful(t.enc) && Walked(t, s) && |s.levels| > 1
    ensures Ranked(t.enc, LeafKeys(t, s))
  {
    var leaves := LeafKeys(t, s);
    forall i | 0 <= i < |leaves|
      ensures leaves[i] != [] && AllReadable(t.enc, leaves[i])
    {
      CheckedLeafReadable(t, s, i);
      WalkedCovers(t, s, 0);
      CoveredPage(t, s.levels[1], s.levels[0], i);
    }
    forall i: nat, j: nat, i': nat, j': nat
      ensures InOrder(t.enc, leaves, i, j, i', j')
    {
      LeavesInOrder(t, s, i, j, i', j');
    }
  }

  lemma FitsByDigest(t: Tree, parent: nat, j: nat, child: nat)
    requires Lawful(t.enc) && KeepsDigest(t.enc) && PageOk(t.enc, At(t, parent)) && PageOk(t.enc, At(t, child))
    requires Inexact(t.enc, At(t, parent)) && j < Count(t, parent)
    requires SeparatorFits(t.enc, SeparatorOf(At(t, parent), j), At(t, child))
    ensures Count(t, child) > 0 && t.enc.digest(KeyAt(t.enc, At(t, parent), j)) == t.enc.digest(FirstKey(t, child))
  {
    var e, p, c := t.enc, At(t, parent), At(t, child);
    CheckedKeysReadable(e, c);
    assert e.readable(Keys(e, c)[0]);
    if !c.layout.omittedKeys {
      CheckedEntry(e, c, 0);
    }
  }

  lemma RowHasDigest(t: Tree, s: Shape, i: nat)
    requires Lawful(t.enc) && KeepsDigest(t.enc) && Walked(t, s) && CoarseAbove(t, s) && i < |s.levels[0]|
    ensures |LevelKeys(t, s, 1)| == |s.levels[0]| && LeafKeys(t, s)[i] != []
    ensures t.enc.digest(LevelKeys(t, s, 1)[i]) == t.enc.digest(LeafKeys(t, s)[i][0])
  {
    var a, b := WalkedLeads(t, s, 0, i);
    SoundAbove(t, s, 1, a);
    LeafIsSound(t, s, i);
    FitsByDigest(t, s.levels[1][a], b, s.levels[0][i]);
  }

  lemma LeafIsSound(t: Tree, s: Shape, i: nat)
    requires Walked(t, s) && i < |s.levels[0]|
    ensures var p := At(t, s.levels[0][i]);
            && InFile(t, s.levels[0][i]) && p.kind == Leaf && PageOk(t.enc, p)
            && p.left == Neighbour(s.levels[0], i - 1) && p.right == Neighbour(s.levels[0], i + 1)
  {
    assert At(t, s.levels[0][i]) == At(t, s.levels[0][i]);
  }

  lemma LeafOnTheWay(t: Tree, s: Shape, k: Key, m: nat, goal: nat)
    requires Lawful(t.enc) && Walked(t, s) && t.enc.readable(k) && m <= goal < |s.levels[0]|
    requires m < goal ==> AllBelow(t.enc, LeafKeys(t, s)[m], LooseLeaves(t, s)[m], k)
    requires m == goal ==> Has(t.enc, LeafKeys(t, s)[m], LooseLeaves(t, s)[m], k)
    ensures OnTheWay(t, s.levels[0], k, m, goal)
  {
    var p := At(t, s.levels[0][m]);
    LeafIsSound(t, s, m);
    LeafAnswers(t, s, k, m);
    if m < goal {
      CutIs(t.enc, Inexact(t.enc, p), LowerBound, Keys(t.enc, p), k, |p.keys|);
    }
  }

  /** So every key of the leaves is found, whatever their layouts. */
  lemma CoarseComesTo(t: Tree, s: Shape, i: nat, j: nat)
    requires Lawful(t.enc) && KeepsDigest(t.enc) && Walked(t, s) && CoarseAbove(t, s) && Stands(LeafKeys(t, s), i, j)
    ensures ComesTo(t, s, LeafKeys(t, s)[i][j])
  {
    var k := LeafKeys(t, s)[i][j];
    forall a: nat, flag | Routed(t, s, k, 0, a, flag)
      ensures exists goal: nat :: LiesAhead(t, s.levels[0], k, a, goal) && (a < goal ==> flag)
    {
      var goal := CoarseGoal(t, s, i, j, a, flag);
    }
  }

  lemma CoarseGoal(t: Tree, s: Shape, i: nat, j: nat, a: nat, flag: bool) returns (goal: nat)
    requires Lawful(t.enc) && KeepsDigest(t.enc) && Walked(t, s) && CoarseAbove(t, s) && Stands(LeafKeys(t, s), i, j)
    requires Routed(t, s, LeafKeys(t, s)[i][j], 0, a, flag)
    ensures LiesAhead(t, s.levels[0], LeafKeys(t, s)[i][j], a, goal) && (a < goal ==> flag)
  {
    var rows, leaves, loose := LevelKeys(t, s, 1), LeafKeys(t, s), LooseLeaves(t, s);
    var k := leaves[i][j];
    WalkedIsRanked(t, s);
    WalkedSize(t, s, 0);
    CheckedLeafReadable(t, s, i);
    RowHasDigest(t, s, i);
    forall m | 0 <= m < |rows|
      ensures t.enc.digest(rows[m]) == t.enc.digest(leaves[m][0])
    {
      RowHasDigest(t, s, m);
    }
    StopsInDoubt(t.enc, rows, leaves, i, j, a, flag);
    goal := FirstThatHas(t.enc, leaves, loose, i, j, a);
    forall m | a <= m <= goal
      ensures OnTheWay(t, s.levels[0], k, m, goal)
    {
      LeafOnTheWay(t, s, k, m, goal);
    }
  }

  // ---------------------------------------------------------------- looking up

  ghost predicate OnLeaves(t: Tree, s: Shape, k: Key)
    requires |s.levels| > 0
  {
    exists i: nat, j: nat {:trigger Stands(LeafKeys(t, s), i, j)} ::
      Stands(LeafKeys(t, s), i, j) && LeafKeys(t, s)[i][j] == k
  }

  /** A tree that passes every check, with keys above the leaves. */
  ghost predicate CleanKeyed(t: Tree, s: Shape) {
    Lawful(t.enc) && Walked(t, s) && KeyedAbove(t, s)
  }

  /** And with digests above them. */
  ghost predicate CleanCoarse(t: Tree, s: Shape) {
    Lawful(t.enc) && KeepsDigest(t.enc) && Walked(t, s) && CoarseAbove(t, s)
  }

  /** Looks a key up in a tree that passes every check. Where the pages above the leaves compare keys, what comes out
      is what `Finds` says. Where they compare digests, every key on a leaf is found. */
  method Lookup(t: Tree, avail: set<nat>, probe: Key, ghost s: Shape) returns (r: Result<Option<Spot>>)
    ensures r.Ok? && r.value.Some? ==> IsMatch(t, r.value.value, probe)
    ensures CleanKeyed(t, s) && r.Ok? ==> (r.value.Some? <==> Finds(t, s, probe))
    ensures CleanKeyed(t, s) && AllAvailable(t, avail) && t.enc.readable(probe) ==> r.Ok?
    ensures CleanCoarse(t, s) && AllAvailable(t, avail) && OnLeaves(t, s, probe) ==> r.Ok? && r.value.Some?
  {
    ghost var keyed, coarse := CleanKeyed(t, s), CleanCoarse(t, s) && OnLeaves(t, s, probe);
    ghost var way := s;
    if keyed {
      KeyedLookup(t, s);
      way := Way(s);
    }
    if coarse {
      CoarseLookup(t, s, probe);
    }
    r := Search(t, avail, probe, EqualTo, way);
    if keyed && r.Ok? {
      LookupFinds(t, s, probe, r.value);
    }
  }

  lemma KeyedLookup(t: Tree, s: Shape)
    requires CleanKeyed(t, s)
    ensures Routable(t, Way(s)) && !CoarseAbove(t, s)
  {
    WalkedRoutes(t, s, Way(s));
    assert s.levels[|s.levels| - 1][0] == t.root.value;
  }

  lemma CoarseLookup(t: Tree, s: Shape, k: Key)
    requires CleanCoarse(t, s) && OnLeaves(t, s, k)
    ensures Routable(t, s) && ComesTo(t, s, k) && t.enc.readable(k)
  {
    var i: nat, j: nat :| Stands(LeafKeys(t, s), i, j) && LeafKeys(t, s)[i][j] == k;
    WalkedRoutes(t, s, s);
    CoarseComesTo(t, s, i, j);
    CheckedLeafReadable(t, s, i);
  }

  lemma OneLeaf(t: Tree, s: Shape, k: Key, a: nat, b: nat)
    requires |s.levels| > 1 && t.enc.readable(k)
    requires Laid(t.enc, LevelKeys(t, s, 1), LeafKeys(t, s), LooseLeaves(t, s))
    requires Routed(t, Way(s), k, 0, a, false) && Routed(t, Way(s), k, 0, b, false)
    ensures a == b
  {
    var e, rows, leaves, loose := t.enc, LevelKeys(t, s, 1), LeafKeys(t, s), LooseLeaves(t, s);
    forall i | 0 <= i < |rows|
      ensures e.readable(rows[i])
    {
      assert Listed(e, rows[i], leaves[i], loose[i]);
    }
    OneLanding(e, rows, k, a, b);
  }

  lemma LookupFinds(t: Tree, s: Shape, k: Key, found: Option<Spot>)
    requires Lawful(t.enc) && Walked(t, s) && KeyedAbove(t, s) && t.enc.readable(k)
    requires FindsWhereRouted(t, Way(s), k, found)
    ensures found.Some? <==> Finds(t, s, k)
  {
    var leaf :| 0 <= leaf < |s.levels[0]| && Routed(t, Way(s), k, 0, leaf, false) &&
      (found.Some? <==> PageAnswer(t.enc, At(t, s.levels[0][leaf]), EqualTo, k).Some?);
    if Finds(t, s, k) {
      var other: nat :| Routed(t, Way(s), k, 0, other, false) &&
        PageAnswer(t.enc, At(t, s.levels[0][other]), EqualTo, k).Some?;
      if |s.levels| > 1 {
        WalkedIsLaid(t, s);
        OneLeaf(t, s, k, leaf, other);
      }
    }
  }
}
