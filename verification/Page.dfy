/**
 One decoded page: searching it and checking it. `check_digests` is what lets a search trust the
 digest array, so the two belong together: a page that passes is searched as if key by key.
 */
module Pages {
  import opened Base
  import opened Encodings
  import Eytzinger

  datatype NodeKind = Leaf | Internal

  datatype Layout = Layout(eytzinger: bool, compactMeta: bool, omittedKeys: bool)

  datatype Payload = Inline(bytes: seq<Byte>) | Overflow(blob: nat) | Child(page: nat)

  datatype RawPage = RawPage(
    kind: NodeKind,
    layout: Layout,
    keys: seq<Key>,
    slots: seq<U64>,
    payloads: seq<Payload>,
    left: Option<nat>,
    right: Option<nat>,
    /** What a page without entries holds instead: the bytes of one value. */
    blob: seq<Byte>)

  /** Slots the digest array occupies. */
  function DigestSlots(layout: Layout, count: nat): nat {
    if layout.eytzinger then Eytzinger.CompleteSize(count) else count
  }

  /** What parsing and validating a page establishes. */
  predicate Shaped(p: RawPage) {
    && |p.payloads| == |p.keys|
    && |p.slots| == DigestSlots(p.layout, |p.keys|)
    && (p.layout.omittedKeys ==> p.layout.compactMeta && !p.layout.eytzinger)
    && (p.layout.omittedKeys ==> forall i :: 0 <= i < |p.keys| ==> p.keys[i] == [])
    && (forall i :: 0 <= i < |p.payloads| ==> (p.payloads[i].Child? <==> p.kind == Internal))
  }

  const EMPTY_LEAF: RawPage := RawPage(Leaf, Layout(false, false, false), [], [], [], None, None, [])

  type Page = p: RawPage | Shaped(p) witness EMPTY_LEAF

  /** The digests in entry order, followed by the padding if there is any. */
  ghost function Digests(p: Page): (s: seq<U64>)
    ensures |s| >= |p.keys|
    ensures |s| == |p.slots|
  {
    if p.layout.eytzinger then
      Eytzinger.CompleteSizeIsLeast(|p.keys|, 0);
      Eytzinger.LeftToRight(p.slots, Eytzinger.Height(|p.keys|))
    else p.slots
  }

  /** The key an entry stands for: stored, or rebuilt from its digest. */
  ghost function KeyAt(e: Encoding, p: Page, i: nat): Key
    requires i < |p.keys|
  {
    if !p.layout.omittedKeys then p.keys[i]
    else if e.rebuild(p.slots[i]).Some? then e.rebuild(p.slots[i]).value else []
  }

  ghost function Keys(e: Encoding, p: Page): (ks: seq<Key>)
    ensures |ks| == |p.keys|
    ensures forall i {:trigger ks[i]} :: 0 <= i < |ks| ==> ks[i] == KeyAt(e, p, i)
  {
    seq(|p.keys|, i requires 0 <= i < |p.keys| => KeyAt(e, p, i))
  }

  /** Entries of this page can only be compared through digests that do not determine a key. */
  predicate Inexact(e: Encoding, p: Page) {
    p.layout.omittedKeys && !e.exact
  }

  // ---------------------------------------------------------------- checking

  /** A stored key is readable, stands behind its digest, and sorts above the one before it. */
  ghost predicate EntryOk(e: Encoding, p: Page, i: nat)
    requires i < |p.keys|
  {
    && e.wellFormed(p.keys[i])
    && e.readable(p.keys[i])
    && e.accepts(p.keys[i], Digests(p)[i])
    && (i > 0 ==> e.compare(p.keys[i - 1], p.keys[i]) == Less)
  }

  /** The `i`-th digest in order belongs to its entry, or pads the tree. */
  ghost predicate SlotOk(e: Encoding, p: Page, i: nat)
    requires i < |p.slots|
  {
    if i < |p.keys| then EntryOk(e, p, i) else Digests(p)[i] == U64_MAX
  }

  ghost predicate AllSlotsOk(e: Encoding, p: Page, n: nat)
    requires n <= |p.slots|
  {
    forall i :: 0 <= i < n ==> SlotOk(e, p, i)
  }

  ghost predicate SlotsAscend(slots: seq<U64>, strict: bool) {
    forall i, j :: 0 <= i < j < |slots| ==> slots[i] <= slots[j] && (strict ==> slots[i] < slots[j])
  }

  /** What `check_digests` demands of a page. */
  ghost predicate PageOk(e: Encoding, p: Page) {
    if p.layout.omittedKeys then
      && e.rebuilds
      && SlotsAscend(p.slots, e.exact)
    else
      AllSlotsOk(e, p, |p.slots|)
  }

  /** A page that stores its keys is sound if every key is one the encoding takes, may have the digest it has and sorts
      above the one before it, and all ones pad the digests. */
  lemma SoundStoredPage(e: Encoding, p: Page)
    requires !p.layout.omittedKeys
    ensures PageOk(e, p) <==>
              && (forall i :: 0 <= i < |p.keys| ==>
                    e.wellFormed(p.keys[i]) && e.readable(p.keys[i]) && e.accepts(p.keys[i], Digests(p)[i]))
              && (forall i, j :: 0 <= i && j == i + 1 && j < |p.keys| ==> e.compare(p.keys[i], p.keys[j]) == Less)
              && (forall i :: |p.keys| <= i < |p.slots| ==> Digests(p)[i] == 0xFFFF_FFFF_FFFF_FFFF)
  {
    assert |Digests(p)| == |p.slots| >= |p.keys|;
    if PageOk(e, p) {
      forall i | 0 <= i < |p.keys|
        ensures e.wellFormed(p.keys[i]) && e.readable(p.keys[i]) && e.accepts(p.keys[i], Digests(p)[i])
      {
        assert SlotOk(e, p, i);
      }
      forall i | |p.keys| <= i < |p.slots|
        ensures Digests(p)[i] == 0xFFFF_FFFF_FFFF_FFFF
      {
        assert SlotOk(e, p, i);
      }
      forall i, j | 0 <= i && j == i + 1 && j < |p.keys|
        ensures e.compare(p.keys[i], p.keys[j]) == Less
      {
        assert SlotOk(e, p, j);
      }
    } else {
      var i :| 0 <= i < |p.slots| && !SlotOk(e, p, i);
    }
  }

  /** One that leaves them out, if the encoding can rebuild keys and each digest is above the one before it, or equal
      where digests do not determine keys. */
  lemma SoundOmittedPage(e: Encoding, p: Page)
    requires p.layout.omittedKeys
    ensures PageOk(e, p) <==>
              && e.rebuilds
              && forall i, j :: 0 <= i && j == i + 1 && j < |p.slots| ==>
                   p.slots[i] < p.slots[j] || (!e.exact && p.slots[i] == p.slots[j])
  {
    if forall i, j :: 0 <= i && j == i + 1 && j < |p.slots| ==>
         p.slots[i] < p.slots[j] || (!e.exact && p.slots[i] == p.slots[j]) {
      forall i, j | 0 <= i < j < |p.slots|
        ensures p.slots[i] <= p.slots[j] && (e.exact ==> p.slots[i] < p.slots[j])
      {
        SlotsClimb(e, p, i, j);
      }
    }
  }

  lemma {:induction false} SlotsClimb(e: Encoding, p: Page, i: nat, j: nat)
    requires i < j < |p.slots|
    requires forall i, j :: 0 <= i && j == i + 1 && j < |p.slots| ==>
               p.slots[i] < p.slots[j] || (!e.exact && p.slots[i] == p.slots[j])
    ensures p.slots[i] <= p.slots[j] && (e.exact ==> p.slots[i] < p.slots[j])
  {
    assert p.slots[j - 1] <= p.slots[j];
    if i < j - 1 {
      SlotsClimb(e, p, i, j - 1);
    }
  }

  method CheckOmitted(e: Encoding, p: Page) returns (r: Result<()>)
    requires p.layout.omittedKeys
    ensures r.Ok? <==> PageOk(e, p)
    ensures r.Err? ==> r.kind == Corrupt
  {
    if !e.rebuilds {
      return Err(Corrupt);
    }
    var previous: Option<U64> := None;
    for index := 0 to |p.keys|
      invariant previous == if index == 0 then None else Some(p.slots[index - 1])
      invariant forall i, j :: 0 <= i < j < index ==>
                                 p.slots[i] <= p.slots[j] && (e.exact ==> p.slots[i] < p.slots[j])
    {
      var stored := p.slots[index];
      if previous.Some? && (stored < previous.value || (e.exact && stored == previous.value)) {
        assert 0 <= index - 1 < index < |p.slots|;
        return Err(Corrupt);
      }
      previous := Some(stored);
    }
    r := Ok(());
  }

  /** One stored key against its digest and the key before it. */
  method CheckEntry(e: Encoding, p: Page, index: nat, stored: U64) returns (ok: bool)
    requires !p.layout.omittedKeys && index < |p.keys|
    requires stored == Digests(p)[index]
    ensures ok <==> EntryOk(e, p, index)
  {
    var key := p.keys[index];
    if !e.wellFormed(key) || !e.readable(key) || !e.accepts(key, stored) {
      return false;
    }
    ok := index == 0 || e.compare(p.keys[index - 1], key) == Less;
  }

  method CheckSorted(e: Encoding, p: Page) returns (r: Result<()>)
    requires !p.layout.omittedKeys && !p.layout.eytzinger
    ensures r.Ok? <==> PageOk(e, p)
    ensures r.Err? ==> r.kind == Corrupt
  {
    for index := 0 to |p.keys|
      invariant forall i :: 0 <= i < index ==> SlotOk(e, p, i)
    {
      var ok := CheckEntry(e, p, index, p.slots[index]);
      if !ok {
        assert !SlotOk(e, p, index);
        return Err(Corrupt);
      }
    }
    r := Ok(());
  }

  /** The walk stands on `node`, the `rank`-th slot in order, or past the last one. */
  ghost predicate WalkAt(p: Page, node: nat, rank: nat) {
    if node == 0 then rank == |p.slots|
    else node <= |p.slots| && rank < |p.slots| && node - 1 == Eytzinger.SlotAt(Eytzinger.Height(|p.keys|), rank)
  }

  method CheckNode(e: Encoding, p: Page, node: nat, rank: nat) returns (ok: bool)
    requires p.layout.eytzinger
    requires node > 0 && WalkAt(p, node, rank)
    ensures ok <==> SlotOk(e, p, rank)
  {
    var stored := p.slots[node - 1];
    if rank < |p.keys| {
      ok := CheckEntry(e, p, rank, stored);
    } else {
      ok := stored == U64_MAX;
    }
  }

  method FirstNode(p: Page) returns (node: nat)
    requires p.layout.eytzinger && |p.slots| > 0
    ensures WalkAt(p, node, 0)
  {
    node := Eytzinger.First(|p.slots|, Eytzinger.Height(|p.keys|));
  }

  method NextNode(p: Page, node: nat, ghost rank: nat) returns (next: nat)
    requires p.layout.eytzinger
    requires node > 0 && WalkAt(p, node, rank)
    ensures WalkAt(p, next, rank + 1)
  {
    next := Eytzinger.Successor(|p.slots|, node, Eytzinger.Height(|p.keys|), rank);
  }

  /** Walks the slots in order with the stackless successor; every slot is visited once. */
  method CheckEytzinger(e: Encoding, p: Page) returns (r: Result<()>)
    requires p.layout.eytzinger
    ensures r.Ok? <==> AllSlotsOk(e, p, |p.slots|)
    ensures r.Err? ==> r.kind == Corrupt
  {
    var complete := |p.slots|;
    if complete == 0 {
      return Ok(());
    }
    var node: nat := FirstNode(p);
    var rank: nat := 0;
    while node != 0
      invariant WalkAt(p, node, rank)
      invariant AllSlotsOk(e, p, rank)
      decreases complete - rank
    {
      var ok := CheckNode(e, p, node, rank);
      if !ok {
        return Err(Corrupt);
      }
      node := NextNode(p, node, rank);
      rank := rank + 1;
    }
    if rank != complete {
      return Err(Corrupt);
    }
    r := Ok(());
  }

  method CheckDigests(e: Encoding, p: Page) returns (r: Result<()>)
    ensures r.Ok? <==> PageOk(e, p)
    ensures r.Err? ==> r.kind == Corrupt
  {
    if p.layout.eytzinger {
      r := CheckEytzinger(e, p);
    } else if p.layout.omittedKeys {
      r := CheckOmitted(e, p);
    } else {
      r := CheckSorted(e, p);
    }
  }

  // ---------------------------------------------------------------- what a checked page gives

  lemma CheckedEntry(e: Encoding, p: Page, i: nat)
    requires PageOk(e, p) && !p.layout.omittedKeys
    requires i < |p.keys|
    ensures EntryOk(e, p, i)
  {
    assert |Digests(p)| >= |p.keys|;
    assert SlotOk(e, p, i);
  }

  lemma CheckedKeysReadable(e: Encoding, p: Page)
    requires Lawful(e) && PageOk(e, p)
    ensures AllReadable(e, Keys(e, p))
  {
    forall i | 0 <= i < |p.keys|
      ensures e.readable(Keys(e, p)[i])
    {
      if !p.layout.omittedKeys {
        CheckedEntry(e, p, i);
      }
    }
  }

  lemma {:induction false} StoredKeysAscend(e: Encoding, p: Page, i: nat, j: nat)
    requires Lawful(e) && PageOk(e, p) && !p.layout.omittedKeys
    requires i < j < |p.keys|
    ensures e.compare(p.keys[i], p.keys[j]) == Less
    decreases j
  {
    CheckedEntry(e, p, j);
    if i < j - 1 {
      StoredKeysAscend(e, p, i, j - 1);
      CheckedEntry(e, p, i);
      CheckedEntry(e, p, j - 1);
    }
  }

  /** The keys of a checked page ascend in the order a search on it uses. */
  lemma CheckedKeysAscend(e: Encoding, p: Page)
    requires Lawful(e) && PageOk(e, p)
    ensures Ascending(e, Inexact(e, p), Keys(e, p))
  {
    CheckedKeysReadable(e, p);
    var ks := Keys(e, p);
    forall i, j | 0 <= i < j < |ks|
      ensures Precedes(e, Inexact(e, p), ks[i], ks[j])
    {
      if p.layout.omittedKeys {
        if e.exact {
          LowerDigestIsLess(e, ks[i], ks[j]);
        }
      } else {
        StoredKeysAscend(e, p, i, j);
      }
    }
  }

  /** Every entry before a turn of the digests is below the probe, even when the digests do not
      ascend: an entry at or above the probe never has a smaller digest. */
  lemma BeforeTurnIsLess(e: Encoding, p: Page, probe: Key, r: nat)
    requires Lawful(e) && PageOk(e, p) && e.readable(probe)
    requires Eytzinger.IsTurn(Digests(p), e.digest(probe), r)
    ensures r <= |p.keys|
    ensures forall i :: 0 <= i < r ==> Sees(e, Inexact(e, p), Keys(e, p)[i], probe) == Less
  {
    var ks := Keys(e, p);
    CheckedKeysReadable(e, p);
    CheckedKeysAscend(e, p);
    if r > 0 {
      assert Digests(p)[r - 1] < e.digest(probe);
      if !p.layout.omittedKeys {
        assert SlotOk(e, p, r - 1);
      }
      LastBeforeTurn(e, p, probe, r);
      forall i | 0 <= i < r
        ensures Sees(e, Inexact(e, p), ks[i], probe) == Less
      {
        if i < r - 1 {
          SeenInOrder(e, Inexact(e, p), ks[i], ks[r - 1], probe);
        }
      }
    }
  }

  lemma LastBeforeTurn(e: Encoding, p: Page, probe: Key, r: nat)
    requires Lawful(e) && PageOk(e, p) && e.readable(probe)
    requires 0 < r <= |p.keys| && Digests(p)[r - 1] < e.digest(probe)
    ensures Sees(e, Inexact(e, p), Keys(e, p)[r - 1], probe) == Less
  {
    CheckedKeysReadable(e, p);
    var k := Keys(e, p)[r - 1];
    if !p.layout.omittedKeys {
      CheckedEntry(e, p, r - 1);
    }
    assert e.digest(k) <= Digests(p)[r - 1];
    LowerDigestIsLess(e, k, probe);
  }

  // ---------------------------------------------------------------- searching one page

  /** A turn of the digests: by Eytzinger descent or by bisection. */
  method LowerBoundRank(p: Page, probe: U64) returns (rank: nat)
    ensures Eytzinger.IsTurn(Digests(p), probe, rank)
  {
    if p.layout.eytzinger {
      ghost var top := Eytzinger.Height(|p.keys|);
      Eytzinger.CompleteSizeIsLeast(|p.keys|, 0);
      rank := Eytzinger.DescendRank(p.slots, probe, top);
    } else {
      var lo, hi := 0, |p.keys|;
      while lo < hi
        invariant 0 <= lo <= hi <= |p.slots|
        invariant lo > 0 ==> p.slots[lo - 1] < probe
        invariant hi < |p.slots| ==> p.slots[hi] >= probe
      {
        var mid := lo + (hi - lo) / 2;
        if p.slots[mid] < probe {
          lo := mid + 1;
        } else {
          hi := mid;
        }
      }
      rank := lo;
    }
  }

  /** Compares an entry with a key: through the key bytes, or through the digest where they are
      omitted. */
  function CompareAt(e: Encoding, p: Page, i: nat, probe: Key): Result<Ordering>
    requires i < |p.keys|
  {
    if p.layout.omittedKeys then Ok(CompareInts(p.slots[i], e.digest(probe)))
    else if e.readable(p.keys[i]) && e.readable(probe) then Ok(e.compare(p.keys[i], probe))
    else Err(Corrupt)
  }

  /** On a checked page that comparison is the one between the keys the entries stand for. */
  lemma CompareAtMeans(e: Encoding, p: Page, i: nat, probe: Key)
    requires Lawful(e) && PageOk(e, p) && e.readable(probe)
    requires i < |p.keys|
    ensures CompareAt(e, p, i, probe) == Ok(Sees(e, Inexact(e, p), Keys(e, p)[i], probe))
  {
    CheckedKeysReadable(e, p);
    if p.layout.omittedKeys {
      var k := Keys(e, p)[i];
      assert e.digest(k) == p.slots[i];
      if e.exact {
        if e.digest(k) < e.digest(probe) {
          LowerDigestIsLess(e, k, probe);
        } else if e.digest(k) > e.digest(probe) {
          LowerDigestIsLess(e, probe, k);
          assert e.compare(k, probe) == Greater;
        }
      }
    } else {
      CheckedEntry(e, p, i);
    }
  }

  /** The first entry from `start` on that is not before the place, or the entry count. */
  method ScanForward(e: Encoding, p: Page, probe: Key, op: SearchOp, start: nat) returns (r: Result<nat>)
    requires start <= |p.keys|
    ensures r.Ok? ==> start <= r.value <= |p.keys|
    ensures r.Ok? ==> forall i :: start <= i < r.value ==>
                        && CompareAt(e, p, i, probe).Ok?
                        && if op == UpperBound then CompareAt(e, p, i, probe).value != Greater
                           else CompareAt(e, p, i, probe).value == Less
    ensures r.Ok? && r.value < |p.keys| ==>
              && CompareAt(e, p, r.value, probe).Ok?
              && if op == UpperBound then CompareAt(e, p, r.value, probe).value == Greater
                 else CompareAt(e, p, r.value, probe).value != Less
    ensures (forall i :: 0 <= i < |p.keys| ==> CompareAt(e, p, i, probe).Ok?) ==> r.Ok?
  {
    var i := start;
    while i < |p.keys|
      invariant start <= i <= |p.keys|
      invariant forall j :: start <= j < i ==>
                              && CompareAt(e, p, j, probe).Ok?
                              && if op == UpperBound then CompareAt(e, p, j, probe).value != Greater
                                 else CompareAt(e, p, j, probe).value == Less
    {
      var c := CompareAt(e, p, i, probe);
      if c.Err? {
        return Err(c.kind);
      }
      if (if op == UpperBound then c.value == Greater else c.value != Less) {
        break;
      }
      i := i + 1;
    }
    r := Ok(i);
  }

  /** Where the linear scan of a page's keys stops. */
  ghost function PageCut(e: Encoding, p: Page, op: SearchOp, probe: Key): (n: nat)
    ensures n <= |p.keys|
  {
    Cut(e, Inexact(e, p), op, Keys(e, p), probe)
  }

  /** On a checked page, scanning from a turn of the digests finds what a linear scan finds. */
  lemma ScanFindsCut(e: Encoding, p: Page, probe: Key, op: SearchOp, start: nat, n: nat)
    requires Lawful(e) && PageOk(e, p) && e.readable(probe)
    requires Eytzinger.IsTurn(Digests(p), e.digest(probe), start)
    requires start <= n <= |p.keys|
    requires forall i :: start <= i < n ==>
                           && CompareAt(e, p, i, probe).Ok?
                           && if op == UpperBound then CompareAt(e, p, i, probe).value != Greater
                              else CompareAt(e, p, i, probe).value == Less
    requires n < |p.keys| ==>
               && CompareAt(e, p, n, probe).Ok?
               && if op == UpperBound then CompareAt(e, p, n, probe).value == Greater
                  else CompareAt(e, p, n, probe).value != Less
    ensures n == PageCut(e, p, op, probe)
  {
    BeforeTurnIsLess(e, p, probe, start);
    var ks := Keys(e, p);
    forall i | 0 <= i < n
      ensures Before(e, Inexact(e, p), op, ks[i], probe)
    {
      if i >= start {
        CompareAtMeans(e, p, i, probe);
      }
    }
    if n < |p.keys| {
      CompareAtMeans(e, p, n, probe);
    }
    CutIs(e, Inexact(e, p), op, ks, probe, n);
  }

  /** What a search for `op` on this page answers. */
  ghost function PageAnswer(e: Encoding, p: Page, op: SearchOp, probe: Key): (r: Option<nat>)
    ensures r.Some? ==> r.value < |p.keys|
  {
    var n := PageCut(e, p, op, probe);
    if n == |p.keys| then None
    else if op == EqualTo && Sees(e, Inexact(e, p), Keys(e, p)[n], probe) != Equal then None
    else Some(n)
  }

  /** Resolves `op` inside one page. */
  method LeafSearch(e: Encoding, p: Page, probe: Key, op: SearchOp) returns (r: Result<Option<nat>>)
    requires e.readable(probe)
    ensures r.Ok? && r.value.Some? ==> r.value.value < |p.keys|
    ensures Lawful(e) && PageOk(e, p) ==> r == Ok(PageAnswer(e, p, op, probe))
    ensures r.Ok? && r.value.Some? && op == EqualTo ==> CompareAt(e, p, r.value.value, probe) == Ok(Equal)
  {
    var rank := LowerBoundRank(p, e.digest(probe));
    ghost var turn := rank;
    if rank > |p.keys| {
      rank := |p.keys|;
    }
    var scan := ScanForward(e, p, probe, op, rank);
    ghost var trusted := Lawful(e) && PageOk(e, p);
    if trusted {
      BeforeTurnIsLess(e, p, probe, turn);
      forall i | 0 <= i < |p.keys|
        ensures CompareAt(e, p, i, probe) == Ok(Sees(e, Inexact(e, p), Keys(e, p)[i], probe))
      {
        CompareAtMeans(e, p, i, probe);
      }
      ScanFindsCut(e, p, probe, op, rank, scan.value);
    }
    if scan.Err? {
      return Err(scan.kind);
    }
    var n := scan.value;
    if n == |p.keys| {
      return Ok(None);
    }
    if op == EqualTo && CompareAt(e, p, n, probe).value != Equal {
      return Ok(None);
    }
    r := Ok(Some(n));
  }
}
