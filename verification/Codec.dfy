/** Little-endian numbers inside byte sequences. */
module Bytes {
  import opened Base
  import opened Sequences

  function Pow256(w: nat): (n: nat)
    ensures n > 0
  {
    if w == 0 then 1 else 256 * Pow256(w - 1)
  }

  /** The low `w` bytes of `n`, least significant first. */
  function Le(n: nat, w: nat): (b: seq<Byte>)
    ensures |b| == w
  {
    if w == 0 then [] else [n % 256] + Le(n / 256, w - 1)
  }

  /** The number stored in the `w` bytes from `at`. */
  function FromLe(b: seq<Byte>, at: nat, w: nat): nat
    requires at + w <= |b|
    decreases w
  {
    if w == 0 then 0 else b[at] + 256 * FromLe(b, at + 1, w - 1)
  }

  lemma {:induction false} LeReadsBack(b: seq<Byte>, at: nat, n: nat, w: nat)
    requires at + w <= |b| && b[at..at + w] == Le(n, w) && n < Pow256(w)
    ensures FromLe(b, at, w) == n
    decreases w
  {
    if w > 0 {
      assert b[at] == b[at..at + w][0] == n % 256;
      assert b[at + 1..at + w] == b[at..at + w][1..] == Le(n / 256, w - 1);
      LeReadsBack(b, at + 1, n / 256, w - 1);
    }
  }

  lemma {:induction false} FromLeBound(b: seq<Byte>, at: nat, w: nat)
    requires at + w <= |b|
    ensures FromLe(b, at, w) < Pow256(w)
    decreases w
  {
    if w > 0 {
      FromLeBound(b, at + 1, w - 1);
    }
  }

  /** The widths the format uses. */
  lemma Widths()
    ensures Pow256(2) == 0x1_0000 && Pow256(4) == 0x1_0000_0000 && Pow256(8) == 0x1_0000_0000_0000_0000
  {
    assert Pow256(3) == 0x100_0000;
    assert Pow256(5) == 0x100_0000_0000;
    assert Pow256(6) == 0x1_0000_0000_0000;
    assert Pow256(7) == 0x100_0000_0000_0000;
  }

  function ReadInt(b: seq<Byte>, at: nat, w: nat): Result<nat> {
    if at + w <= |b| then Ok(FromLe(b, at, w)) else Err(Corrupt)
  }

  /** Reads a number of the given width at a position. */
  type Reader = (nat, nat) -> Result<nat>

  function ReaderOf(b: seq<Byte>): Reader {
    (at: nat, w: nat) => ReadInt(b, at, w)
  }

  ghost predicate Stores(b: seq<Byte>, at: nat, w: nat, n: nat) {
    at + w <= |b| && b[at..at + w] == Le(n, w) && n < Pow256(w)
  }

  /** The reader finds every number that is stored in the bytes. */
  ghost predicate Finds(rd: Reader, b: seq<Byte>) {
    forall at: nat, w: nat, n: nat :: Stores(b, at, w, n) ==> rd(at, w) == Ok(n)
  }

  lemma ReaderFinds(b: seq<Byte>)
    ensures Finds(ReaderOf(b), b)
  {
    forall at: nat, w: nat, n: nat | Stores(b, at, w, n)
      ensures ReaderOf(b)(at, w) == Ok(n)
    {
      LeReadsBack(b, at, n, w);
    }
  }

  /** A number written somewhere in the bytes is read back from there. */
  lemma ReadsAt(b: seq<Byte>, rd: Reader, pre: seq<Byte>, n: nat, w: nat, post: seq<Byte>, at: nat)
    requires b == pre + Le(n, w) + post && at == |pre| && n < Pow256(w) && Finds(rd, b)
    ensures rd(at, w) == Ok(n)
  {
    assert b[at..at + w] == Le(n, w);
    assert Stores(b, at, w, n);
  }

  /** A part of a concatenation is the slice where it starts. */
  lemma {:induction false} CatSlice<T>(parts: seq<seq<T>>, i: nat)
    requires i < |parts|
    ensures Start(parts, i) + |parts[i]| <= |Cat(parts)|
    ensures Cat(parts)[Start(parts, i)..Start(parts, i) + |parts[i]|] == parts[i]
    decreases |parts|
  {
    var n := |parts| - 1;
    if i < n {
      CatSlice(parts[..n], i);
      assert parts[..n][..i] == parts[..i];
      assert Cat(parts)[..|Cat(parts[..n])|] == Cat(parts[..n]);
    }
  }

  lemma SliceInside<T>(pre: seq<T>, mid: seq<T>, post: seq<T>, from: nat, to: nat)
    requires from <= to <= |mid|
    ensures (pre + mid + post)[|pre| + from..|pre| + to] == mid[from..to]
  {
  }

  lemma SubSlice<T>(b: seq<T>, from: nat, to: nat, i: nat, j: nat)
    requires from <= to <= |b| && i <= j <= to - from
    ensures b[from..to][i..j] == b[from + i..from + j]
  {
    forall k | 0 <= k < j - i
      ensures b[from..to][i..j][k] == b[from + i..from + j][k]
    {
    }
  }

  /** A slice made of three pieces, taken apart. */
  lemma SplitThree<T>(b: seq<T>, at: nat, u: seq<T>, v: seq<T>, w: seq<T>)
    requires at + |u| + |v| + |w| <= |b| && b[at..at + |u| + |v| + |w|] == u + v + w
    ensures b[at..at + |u|] == u
    ensures b[at + |u|..at + |u| + |v|] == v
    ensures b[at + |u| + |v|..at + |u| + |v| + |w|] == w
  {
    var all := u + v + w;
    SubSlice(b, at, at + |all|, 0, |u|);
    SubSlice(b, at, at + |all|, |u|, |u| + |v|);
    SubSlice(b, at, at + |all|, |u| + |v|, |all|);
    assert all[0..|u|] == u;
    assert all[|u|..|u| + |v|] == v;
    assert all[|u| + |v|..|all|] == w;
  }

  /** The fields of a record of four, two and, at the end, further bytes. */
  lemma FieldsStored(b: seq<Byte>, at: nat, x: nat, y: nat, tail: seq<Byte>)
    requires at + 6 + |tail| <= |b| && b[at..at + 6 + |tail|] == Le(x, 4) + Le(y, 2) + tail
    requires x < Pow256(4) && y < Pow256(2)
    ensures Stores(b, at, 4, x) && Stores(b, at + 4, 2, y)
    ensures b[at + 6..at + 6 + |tail|] == tail
  {
    SplitThree(b, at, Le(x, 4), Le(y, 2), tail);
  }

  lemma RegroupMiddle<T>(a: seq<T>, b: seq<T>, c: seq<T>, d: seq<T>)
    ensures a + (b + c) + d == a + b + c + d
    ensures a + (b + c) + d == a + b + (c + d)
  {
  }

  lemma Regroup<T>(a: seq<T>, b: seq<T>, c: seq<T>, d: seq<T>)
    ensures a + (b + c + d) == a + b + (c + d)
    ensures a + (b + c + d) == (a + b) + c + d
    ensures a + (b + c + d) == (a + b + c) + d + []
  {
  }

  lemma RegroupSix<T>(a: seq<T>, b: seq<T>, c: seq<T>, d: seq<T>, e: seq<T>, f: seq<T>)
    ensures var all := a + b + c + d + e + f;
            && all == [] + a + (b + c + d + e + f)
            && all == a + b + (c + d + e + f)
            && all == (a + b) + c + (d + e + f)
            && all == (a + b + c) + d + (e + f)
  {
  }

  /** Parts of one width start at its multiples. */
  lemma {:induction false} EvenStarts<T>(parts: seq<seq<T>>, w: nat, i: nat)
    requires forall j :: 0 <= j < |parts| ==> |parts[j]| == w
    requires i <= |parts|
    ensures Start(parts, i) == i * w
    decreases i
  {
    if i > 0 {
      EvenStarts(parts, w, i - 1);
      StartNext(parts, i - 1);
    }
  }

  /** Part `i` of a concatenation inside some bytes. */
  lemma PartInside(b: seq<Byte>, pre: seq<Byte>, parts: seq<seq<Byte>>, post: seq<Byte>, i: nat, from: nat)
    requires b == pre + Cat(parts) + post && i < |parts| && from == |pre| + Start(parts, i)
    ensures from + |parts[i]| <= |pre| + |Cat(parts)| <= |b|
    ensures b[from..from + |parts[i]|] == parts[i]
  {
    CatSlice(parts, i);
    SliceInside(pre, Cat(parts), post, Start(parts, i), Start(parts, i) + |parts[i]|);
  }

  /** Row `i` of a table whose rows all take `w` bytes. */
  lemma RowInside(b: seq<Byte>, pre: seq<Byte>, parts: seq<seq<Byte>>, post: seq<Byte>, w: nat, i: nat, from: nat)
    requires b == pre + Cat(parts) + post
    requires forall j :: 0 <= j < |parts| ==> |parts[j]| == w
    requires i < |parts| && from == |pre| + i * w
    ensures from + w <= |b|
    ensures b[from..from + w] == parts[i]
  {
    EvenStarts(parts, w, i);
    PartInside(b, pre, parts, post, i, from);
  }

  /** A table of numbers is read back number by number. */
  lemma TableRead(b: seq<Byte>, rd: Reader, pre: seq<Byte>, parts: seq<seq<Byte>>, post: seq<Byte>, w: nat, i: nat,
                  n: nat, at: nat)
    requires b == pre + Cat(parts) + post && Finds(rd, b)
    requires forall j :: 0 <= j < |parts| ==> |parts[j]| == w
    requires i < |parts| && parts[i] == Le(n, w) && n < Pow256(w) && at == |pre| + i * w
    ensures at + w <= |b|
    ensures rd(at, w) == Ok(n)
  {
    RowInside(b, pre, parts, post, w, i, at);
    assert Stores(b, at, w, n);
  }

  /** A table of records of four and two bytes. */
  lemma RecordRead(b: seq<Byte>, rd: Reader, pre: seq<Byte>, parts: seq<seq<Byte>>, post: seq<Byte>, i: nat, x: nat,
                   y: nat, at: nat)
    requires b == pre + Cat(parts) + post && Finds(rd, b)
    requires forall j :: 0 <= j < |parts| ==> |parts[j]| == 6
    requires i < |parts| && parts[i] == Le(x, 4) + Le(y, 2) && x < Pow256(4) && y < Pow256(2) && at == |pre| + i * 6
    ensures rd(at, 4) == Ok(x) && rd(at + 4, 2) == Ok(y)
  {
    RowInside(b, pre, parts, post, 6, i, at);
    FieldsStored(b, at, x, y, []);
  }

  /** A table of records of four, two and two bytes. */
  lemma LongRecordRead(b: seq<Byte>, rd: Reader, pre: seq<Byte>, parts: seq<seq<Byte>>, post: seq<Byte>, i: nat,
                       x: nat, y: nat, z: nat, at: nat)
    requires b == pre + Cat(parts) + post && Finds(rd, b)
    requires forall j :: 0 <= j < |parts| ==> |parts[j]| == 8
    requires i < |parts| && parts[i] == Le(x, 4) + Le(y, 2) + Le(z, 2)
    requires x < Pow256(4) && y < Pow256(2) && z < Pow256(2) && at == |pre| + i * 8
    ensures rd(at, 4) == Ok(x) && rd(at + 4, 2) == Ok(y) && rd(at + 6, 2) == Ok(z)
  {
    RowInside(b, pre, parts, post, 8, i, at);
    FieldsStored(b, at, x, y, Le(z, 2));
    assert Stores(b, at + 6, 2, z);
  }
}

/**
 The bytes of a page: what the writer emits and what the reader makes of any bytes at all. Reading
 undoes writing in every layout the format allows.
 */
module Codec {
  import opened Base
  import opened Sequences
  import opened Bytes
  import opened Pages
  import Eytzinger

  const PREFIX: nat := 28
  const RIGHT_SIBLING: nat := 20
  const MAX_COMPACT: nat := 0x7FFF
  const SENTINEL: nat := 0xFFFF
  const OVERFLOW_BIT: nat := 0x8000
  const I32_LIMIT: nat := 0x8000_0000
  const I64_LIMIT: nat := 0x8000_0000_0000_0000

  // ---------------------------------------------------------------- sizes

  function MetaSize(layout: Layout, kind: NodeKind, count: nat): nat {
    match kind
    case Leaf =>
      if layout.compactMeta then 2 * (count + 1 + (if layout.omittedKeys then 0 else count)) else 8 * count
    case Internal =>
      if !layout.compactMeta then 6 * count else if layout.omittedKeys then 0 else 2 * (count + 1)
  }

  function PayloadBase(layout: Layout, kind: NodeKind, count: nat): nat {
    PREFIX + 8 * DigestSlots(layout, count) + MetaSize(layout, kind, count)
  }

  // ---------------------------------------------------------------- writing

  function Bit(b: bool, value: nat): nat {
    if b then value else 0
  }

  function KindWord(p: RawPage): nat {
    Bit(p.kind == Internal, 1) + Bit(p.layout.eytzinger, 512) + Bit(p.layout.compactMeta, 1024) +
        Bit(p.layout.omittedKeys, 2048)
  }

  /** An ordinal on disk; -1 where there is none. */
  function OrdinalWord(o: Option<nat>): nat {
    if o.Some? then o.value else U64_MAX
  }

  function Head(p: RawPage, len: nat): (b: seq<Byte>)
    ensures |b| == PREFIX
  {
    Le(len, 4) + Le(KindWord(p), 4) + Le(|p.keys|, 4) + Le(OrdinalWord(p.left), 8) + Le(OrdinalWord(p.right), 8)
  }

  function PayloadBytes(payload: Payload): seq<Byte> {
    match payload
    case Inline(bytes) => bytes
    case Overflow(o) => Le(o, 8)
    case Child(o) => Le(o, 8)
  }

  function EntryBytes(key: Key, payload: Payload): seq<Byte> {
    key + PayloadBytes(payload)
  }

  ghost function EntryParts(p: Page): (parts: seq<seq<Byte>>)
    ensures |parts| == |p.keys|
    ensures forall i {:trigger parts[i]} :: 0 <= i < |parts| ==> parts[i] == EntryBytes(p.keys[i], p.payloads[i])
  {
    seq(|p.keys|, i requires 0 <= i < |p.keys| => EntryBytes(p.keys[i], p.payloads[i]))
  }

  ghost function DigestParts(slots: seq<U64>): (parts: seq<seq<Byte>>)
    ensures |parts| == |slots|
    ensures forall i {:trigger parts[i]} :: 0 <= i < |parts| ==> parts[i] == Le(slots[i], 8)
  {
    seq(|slots|, i requires 0 <= i < |slots| => Le(slots[i], 8))
  }

  /** Where entry `i` starts if the entries start at `base`; entry `|keys|` is the end. */
  ghost function EntryOffset(p: Page, base: nat, i: nat): nat
    requires i <= |p.keys|
  {
    base + Start(EntryParts(p), i)
  }

  ghost function OffsetWord(p: Page, base: nat, i: nat): nat
    requires i <= |p.keys|
  {
    EntryOffset(p, base, i) + Bit(i < |p.keys| && p.payloads[i].Overflow?, OVERFLOW_BIT)
  }

  ghost function OffsetParts(p: Page, base: nat): (parts: seq<seq<Byte>>)
    ensures |parts| == |p.keys| + 1
    ensures forall i {:trigger parts[i]} :: 0 <= i < |parts| ==> parts[i] == Le(OffsetWord(p, base, i), 2)
  {
    seq(|p.keys| + 1, i requires 0 <= i < |p.keys| + 1 => Le(OffsetWord(p, base, i), 2))
  }

  ghost function KeyLenParts(p: Page): (parts: seq<seq<Byte>>)
    ensures |parts| == |p.keys|
    ensures forall i {:trigger parts[i]} :: 0 <= i < |parts| ==> parts[i] == Le(|p.keys[i]|, 2)
  {
    seq(|p.keys|, i requires 0 <= i < |p.keys| => Le(|p.keys[i]|, 2))
  }

  function ValueWord(payload: Payload): nat {
    if payload.Overflow? then SENTINEL else |PayloadBytes(payload)|
  }

  ghost function RecordParts(p: Page, base: nat): (parts: seq<seq<Byte>>)
    ensures |parts| == |p.keys|
    ensures forall i {:trigger parts[i]} :: 0 <= i < |parts| ==>
              parts[i] == Le(EntryOffset(p, base, i), 4) + Le(|p.keys[i]|, 2) +
                  (if p.kind == Leaf then Le(ValueWord(p.payloads[i]), 2) else [])
  {
    seq(|p.keys|, i requires 0 <= i < |p.keys| =>
      Le(EntryOffset(p, base, i), 4) + Le(|p.keys[i]|, 2) +
          (if p.kind == Leaf then Le(ValueWord(p.payloads[i]), 2) else []))
  }

  ghost function Meta(p: Page, base: nat): seq<Byte> {
    if !p.layout.compactMeta then Cat(RecordParts(p, base))
    else if p.kind == Internal && p.layout.omittedKeys then []
    else if p.kind == Leaf && !p.layout.omittedKeys then Cat(OffsetParts(p, base)) + Cat(KeyLenParts(p))
    else Cat(OffsetParts(p, base))
  }

  ghost function Areas(p: Page, base: nat): seq<Byte> {
    Cat(DigestParts(p.slots)) + Meta(p, base) + Cat(EntryParts(p))
  }

  ghost function Body(p: Page): seq<Byte> {
    if |p.keys| == 0 then p.blob else Areas(p, PayloadBase(p.layout, p.kind, |p.keys|))
  }

  ghost function Encode(p: Page): seq<Byte> {
    Head(p, PREFIX + |Body(p)|) + Body(p)
  }

  // ---------------------------------------------------------------- reading

  /** A signed 32-bit length; a negative one is refused. */
  function ReadLen(rd: Reader, at: nat): Result<nat> {
    var n :- rd(at, 4);
    if n < I32_LIMIT then Ok(n) else Err(Corrupt)
  }

  function ReadOrdinal(rd: Reader, at: nat): Result<Option<nat>> {
    var n :- rd(at, 8);
    if n == U64_MAX then Ok(None) else if n < I64_LIMIT then Ok(Some(n)) else Err(Corrupt)
  }

  /** An ordinal that must be there. */
  function ReadPage(rd: Reader, at: nat): Result<nat> {
    var o :- ReadOrdinal(rd, at);
    if o.Some? then Ok(o.value) else Err(Corrupt)
  }

  datatype Header = Header(
    kind: NodeKind,
    layout: Layout,
    count: nat,
    left: Option<nat>,
    right: Option<nat>,
    metaBase: nat,
    payloadBase: nat)

  function ParseKind(word: nat): Result<(NodeKind, Layout)> {
    if word % 256 > 1 then Err(Corrupt)
    else if (word / 256) % 2 != 0 || word >= 4096 then Err(Corrupt)
    else
      var layout := Layout((word / 512) % 2 == 1, (word / 1024) % 2 == 1, (word / 2048) % 2 == 1);
      if layout.omittedKeys && (!layout.compactMeta || layout.eytzinger) then Err(Corrupt)
      else Ok((if word % 256 == 0 then Leaf else Internal, layout))
  }

  /** What a parsed header promises about its page. */
  predicate HeaderFits(b: seq<Byte>, h: Header) {
    && PREFIX + 8 * DigestSlots(h.layout, h.count) <= |b|
    && (h.layout.omittedKeys ==> h.layout.compactMeta && !h.layout.eytzinger)
  }

  /** The header of a page, with its areas checked against its length. */
  function Parse(b: seq<Byte>, rd: Reader): (r: Result<Header>)
    ensures r.Ok? ==> HeaderFits(b, r.value)
  {
    if |b| < PREFIX then Err(Corrupt)
    else
      var len :- ReadLen(rd, 0);
      if len != |b| then Err(Corrupt)
      else
        var word :- rd(4, 4);
        var kind :- ParseKind(word);
        if kind.1.compactMeta && len > MAX_COMPACT then Err(Corrupt)
        else
          var count :- ReadLen(rd, 8);
          var left :- ReadOrdinal(rd, 12);
          var right :- ReadOrdinal(rd, 20);
          var metaBase := PREFIX + 8 * DigestSlots(kind.1, count);
          var payloadBase := metaBase + MetaSize(kind.1, kind.0, count);
          if payloadBase > |b| then Err(Corrupt)
          else Ok(Header(kind.0, kind.1, count, left, right, metaBase, payloadBase))
  }

  predicate InPayload(b: seq<Byte>, h: Header, offset: nat, len: nat) {
    h.payloadBase <= offset && offset + len <= |b|
  }

  /** Where a leaf entry is, how long its key is, and the stored length of its value. */
  function LeafSpan(rd: Reader, h: Header, i: nat): Result<(nat, nat, nat)> {
    if h.layout.compactMeta then
      var raw :- rd(h.metaBase + i * 2, 2);
      var next :- rd(h.metaBase + (i + 1) * 2, 2);
      var offset, end := raw % OVERFLOW_BIT, next % OVERFLOW_BIT;
      var keyLen :- if h.layout.omittedKeys then Ok(0) else rd(h.metaBase + (h.count + 1) * 2 + i * 2, 2);
      if end < offset || keyLen > end - offset then Err(Corrupt)
      else Ok((offset, keyLen, if raw >= OVERFLOW_BIT then SENTINEL else end - offset - keyLen))
    else
      var offset :- ReadLen(rd, h.metaBase + i * 8);
      var keyLen :- rd(h.metaBase + i * 8 + 4, 2);
      var valueLen :- rd(h.metaBase + i * 8 + 6, 2);
      Ok((offset, keyLen, valueLen))
  }

  function LeafEntry(b: seq<Byte>, rd: Reader, h: Header, i: nat): (r: Result<(Key, Payload)>)
    ensures r.Ok? ==> !r.value.1.Child? && (h.layout.omittedKeys && h.layout.compactMeta ==> r.value.0 == [])
  {
    var span :- LeafSpan(rd, h, i);
    var (offset, keyLen, valueLen) := span;
    if valueLen == SENTINEL then
      if !InPayload(b, h, offset, keyLen + 8) then Err(Corrupt)
      else
        var o :- ReadPage(rd, offset + keyLen);
        Ok((b[offset..offset + keyLen], Overflow(o)))
    else if !InPayload(b, h, offset, keyLen + valueLen) then Err(Corrupt)
    else Ok((b[offset..offset + keyLen], Inline(b[offset + keyLen..offset + keyLen + valueLen])))
  }

  /** Where an internal entry is and how long its key is. */
  function InternalSpan(rd: Reader, h: Header, i: nat): Result<(nat, nat)> {
    if !h.layout.compactMeta then
      var offset :- ReadLen(rd, h.metaBase + i * 6);
      var keyLen :- rd(h.metaBase + i * 6 + 4, 2);
      Ok((offset, keyLen))
    else if h.layout.omittedKeys then Ok((h.metaBase + i * 8, 0))
    else
      var raw :- rd(h.metaBase + i * 2, 2);
      var next :- rd(h.metaBase + (i + 1) * 2, 2);
      if next < raw + 8 then Err(Corrupt) else Ok((raw, next - raw - 8))
  }

  function InternalEntry(b: seq<Byte>, rd: Reader, h: Header, i: nat): (r: Result<(Key, Payload)>)
    ensures r.Ok? ==> r.value.1.Child? && (h.layout.omittedKeys && h.layout.compactMeta ==> r.value.0 == [])
  {
    var span :- InternalSpan(rd, h, i);
    var (offset, keyLen) := span;
    if !InPayload(b, h, offset, keyLen + 8) then Err(Corrupt)
    else
      var o :- ReadPage(rd, offset + keyLen);
      Ok((b[offset..offset + keyLen], Child(o)))
  }

  function EntryAt(b: seq<Byte>, rd: Reader, h: Header, i: nat): (r: Result<(Key, Payload)>)
    ensures r.Ok? ==> (r.value.1.Child? <==> h.kind == Internal)
    ensures r.Ok? && h.layout.omittedKeys && h.layout.compactMeta ==> r.value.0 == []
  {
    match h.kind
    case Leaf => LeafEntry(b, rd, h, i)
    case Internal => InternalEntry(b, rd, h, i)
  }

  predicate EntriesOk(b: seq<Byte>, rd: Reader, h: Header) {
    forall i :: 0 <= i < h.count ==> EntryAt(b, rd, h, i).Ok?
  }

  /** Walks every entry, as the page store does when a page comes in. */
  method Validate(b: seq<Byte>, rd: Reader, h: Header) returns (r: Result<()>)
    ensures r.Ok? <==> EntriesOk(b, rd, h)
  {
    for i := 0 to h.count
      invariant forall j :: 0 <= j < i ==> EntryAt(b, rd, h, j).Ok?
    {
      var _ :- EntryAt(b, rd, h, i);
    }
    r := Ok(());
  }

  /** Digest `i`; parsing has made sure that it is inside the page. */
  function SlotAt(rd: Reader, i: nat): U64 {
    var slot := rd(PREFIX + 8 * i, 8);
    if slot.Ok? && slot.value <= U64_MAX then slot.value else 0
  }

  function Slots(rd: Reader, n: nat): (slots: seq<U64>)
    ensures |slots| == n
    ensures forall i {:trigger slots[i]} :: 0 <= i < n ==> slots[i] == SlotAt(rd, i)
  {
    seq(n, i requires 0 <= i < n => SlotAt(rd, i))
  }

  /** What a reader sees of a page it accepts. */
  function PageOf(b: seq<Byte>, rd: Reader, h: Header): Page
    requires HeaderFits(b, h) && EntriesOk(b, rd, h)
  {
    RawPage(h.kind, h.layout,
            seq(h.count, i requires 0 <= i < h.count => EntryAt(b, rd, h, i).value.0),
            Slots(rd, DigestSlots(h.layout, h.count)),
            seq(h.count, i requires 0 <= i < h.count => EntryAt(b, rd, h, i).value.1),
            h.left, h.right,
            if h.count == 0 then b[PREFIX..] else [])
  }

  function Decode(b: seq<Byte>): Result<Page> {
    var rd := ReaderOf(b);
    var h :- Parse(b, rd);
    if EntriesOk(b, rd, h) then Ok(PageOf(b, rd, h)) else Err(Corrupt)
  }

  // ---------------------------------------------------------------- the bytes of the format

  lemma WordBytes(b: seq<Byte>, at: nat)
    requires at + 4 <= |b|
    ensures FromLe(b, at, 4) ==
            b[at] as int + 0x100 * b[at + 1] as int + 0x1_0000 * b[at + 2] as int + 0x100_0000 * b[at + 3] as int
  {
    assert FromLe(b, at + 3, 1) == b[at + 3] as int + 256 * FromLe(b, at + 4, 0);
    assert FromLe(b, at + 2, 2) == b[at + 2] as int + 256 * FromLe(b, at + 3, 1);
    assert FromLe(b, at + 1, 3) == b[at + 1] as int + 256 * FromLe(b, at + 2, 2);
  }

  /** The kind word: one byte for the kind, one for the flags of which the lowest is retired, and nothing above. */
  lemma KindBytes(x: Byte, y: Byte, high: nat)
    ensures var word := x as int + 0x100 * y as int + 0x1_0000 * high;
            var kind := ParseKind(word);
            && (kind.Ok? <==>
                  && x <= 1 && high == 0 && y < 16 && y % 2 == 0
                  && (y / 8 % 2 == 1 ==> y / 4 % 2 == 1 && y / 2 % 2 == 0))
            && (kind.Ok? ==>
                  && (kind.value.0 == Internal <==> x == 1)
                  && (kind.value.1.eytzinger <==> y / 2 % 2 == 1)
                  && (kind.value.1.compactMeta <==> y / 4 % 2 == 1)
                  && (kind.value.1.omittedKeys <==> y / 8 % 2 == 1))
  {
    var word := x as int + 0x100 * y as int + 0x1_0000 * high;
    assert word % 256 == x && word / 256 == y as int + 0x100 * high;
    if high == 0 {
      assert word / 512 == y / 2 && word / 1024 == y / 4 && word / 2048 == y / 8;
    }
  }

  /** What a page says in its first 28 bytes: its length, its kind and flags, how many entries it has, and its
      neighbours, all ones for none. */
  lemma HeaderBytes(b: seq<Byte>)
    requires Decode(b).Ok?
    ensures |b| >= 28 && FromLe(b, 0, 4) == |b| < 0x8000_0000
    ensures var p := Decode(b).value;
            && b[4] <= 1 && (p.kind == Internal <==> b[4] == 1)
            && b[5] < 16 && b[5] % 2 == 0 && b[6] == 0 && b[7] == 0
            && (p.layout.eytzinger <==> b[5] / 2 % 2 == 1)
            && (p.layout.compactMeta <==> b[5] / 4 % 2 == 1)
            && (p.layout.omittedKeys <==> b[5] / 8 % 2 == 1)
            && |p.keys| == FromLe(b, 8, 4)
            && p.left == (if FromLe(b, 12, 8) == 0xFFFF_FFFF_FFFF_FFFF then None else Some(FromLe(b, 12, 8)))
            && p.right == (if FromLe(b, 20, 8) == 0xFFFF_FFFF_FFFF_FFFF then None else Some(FromLe(b, 20, 8)))
  {
    WordBytes(b, 4);
    KindBytes(b[4], b[5], b[6] as int + 0x100 * b[7] as int);
  }

  /** The digests follow, eight bytes each, and then what says where the entries are. */
  lemma DigestBytes(b: seq<Byte>, i: nat)
    requires Decode(b).Ok? && i < |Decode(b).value.slots|
    ensures 28 + 8 * i + 8 <= |b| && Decode(b).value.slots[i] == FromLe(b, 28 + 8 * i, 8)
  {
    Widths();
    FromLeBound(b, 28 + 8 * i, 8);
  }

  /** A leaf entry in the classic layout: where it starts, how long its key is, and how long its value. A value length
      of 0xFFFF stands for a value on the page whose number is there instead. */
  ghost predicate ClassicLeafAt(b: seq<Byte>, rd: Reader, at: nat, key: Key, payload: Payload) {
    exists from, keyLen, valueLen ::
      && rd(at, 4) == Ok(from) && rd(at + 4, 2) == Ok(keyLen) && rd(at + 6, 2) == Ok(valueLen)
      && IsEntry(b, rd, from, keyLen, key) && IsValue(b, rd, from + keyLen, valueLen, valueLen == 0xFFFF, payload)
  }

  ghost predicate IsEntry(b: seq<Byte>, rd: Reader, from: nat, keyLen: nat, key: Key) {
    from + keyLen <= |b| && key == b[from..from + keyLen]
  }

  ghost predicate IsValue(b: seq<Byte>, rd: Reader, at: nat, len: nat, elsewhere: bool, payload: Payload) {
    if elsewhere then payload.Overflow? && rd(at, 8) == Ok(payload.blob)
    else at + len <= |b| && payload == Inline(b[at..at + len])
  }

  lemma ClassicLeafBytes(b: seq<Byte>, rd: Reader, h: Header, i: nat)
    requires LeafEntry(b, rd, h, i).Ok? && !h.layout.compactMeta
    ensures var (key, payload) := LeafEntry(b, rd, h, i).value;
            ClassicLeafAt(b, rd, h.metaBase + 8 * i, key, payload)
  {
    var at := h.metaBase + 8 * i;
    var from, keyLen, valueLen := rd(at, 4).value, rd(at + 4, 2).value, rd(at + 6, 2).value;
    var (key, payload) := LeafEntry(b, rd, h, i).value;
    SpanGives(b, rd, h, i, from, keyLen, valueLen);
  }

  lemma SpanGives(b: seq<Byte>, rd: Reader, h: Header, i: nat, from: nat, keyLen: nat, valueLen: nat)
    requires LeafSpan(rd, h, i) == Ok((from, keyLen, valueLen)) && LeafEntry(b, rd, h, i).Ok?
    ensures var (key, payload) := LeafEntry(b, rd, h, i).value;
            IsEntry(b, rd, from, keyLen, key) && IsValue(b, rd, from + keyLen, valueLen, valueLen == 0xFFFF, payload)
  {
  }

  /** In the compact layout there are two bytes for where an entry starts, of which the top bit says that its value is
      on another page; an entry ends where the next one starts. The lengths of keys are behind, if there are keys. */
  ghost predicate CompactLeafAt(b: seq<Byte>, rd: Reader, at: nat, lens: Option<nat>, key: Key, payload: Payload) {
    exists raw, next, keyLen ::
      && rd(at, 2) == Ok(raw) && rd(at + 2, 2) == Ok(next)
      && (if lens.Some? then rd(lens.value, 2) == Ok(keyLen) else keyLen == 0)
      && var (from, end) := (raw % 0x8000, next % 0x8000);
      && from + keyLen <= end && IsEntry(b, rd, from, keyLen, key)
      && IsValue(b, rd, from + keyLen, end - from - keyLen, raw >= 0x8000, payload)
  }

  lemma CompactLeafBytes(b: seq<Byte>, rd: Reader, h: Header, i: nat)
    requires LeafEntry(b, rd, h, i).Ok? && h.layout.compactMeta && |b| <= 0x7FFF
    ensures var (key, payload) := LeafEntry(b, rd, h, i).value;
            var lens := if h.layout.omittedKeys then None else Some(h.metaBase + 2 * (h.count + 1) + 2 * i);
            CompactLeafAt(b, rd, h.metaBase + 2 * i, lens, key, payload)
  {
    var at := h.metaBase + 2 * i;
    var lens := if h.layout.omittedKeys then None else Some(h.metaBase + 2 * (h.count + 1) + 2 * i);
    var raw, next := rd(at, 2).value, rd(at + 2, 2).value;
    var keyLen := if lens.Some? then rd(lens.value, 2).value else 0;
    var (key, payload) := LeafEntry(b, rd, h, i).value;
    var (from, end) := (raw % 0x8000, next % 0x8000);
    SpanGives(b, rd, h, i, from, keyLen, if raw >= 0x8000 then 0xFFFF else end - from - keyLen);
    assert IsValue(b, rd, from + keyLen, end - from - keyLen, raw >= 0x8000, payload);
  }

  /** An internal entry ends in the number of its child. In the classic layout the length of its key is given; in the
      compact one it ends where the next one starts; without keys there is nothing but numbers. */
  ghost predicate InternalAt(b: seq<Byte>, rd: Reader, layout: Layout, meta: nat, i: nat, key: Key, payload: Payload) {
    && payload.Child?
    && if !layout.compactMeta then
         exists from, keyLen ::
           && rd(meta + 6 * i, 4) == Ok(from) && rd(meta + 6 * i + 4, 2) == Ok(keyLen)
           && IsEntry(b, rd, from, keyLen, key) && rd(from + keyLen, 8) == Ok(payload.page)
       else if layout.omittedKeys then rd(meta + 8 * i, 8) == Ok(payload.page)
       else
         exists from, end ::
           && rd(meta + 2 * i, 2) == Ok(from) && rd(meta + 2 * i + 2, 2) == Ok(end) && from + 8 <= end
           && IsEntry(b, rd, from, end - 8 - from, key) && rd(end - 8, 8) == Ok(payload.page)
  }

  lemma InternalBytes(b: seq<Byte>, rd: Reader, h: Header, i: nat)
    requires InternalEntry(b, rd, h, i).Ok?
    ensures var (key, payload) := InternalEntry(b, rd, h, i).value;
            InternalAt(b, rd, h.layout, h.metaBase, i, key, payload)
  {
    var meta := h.metaBase;
    var (key, payload) := InternalEntry(b, rd, h, i).value;
    if !h.layout.compactMeta {
      var from, keyLen := rd(meta + 6 * i, 4).value, rd(meta + 6 * i + 4, 2).value;
      assert InternalSpan(rd, h, i) == Ok((from, keyLen));
      assert IsEntry(b, rd, from, keyLen, key);
    } else if !h.layout.omittedKeys {
      var from, end := rd(meta + 2 * i, 2).value, rd(meta + 2 * i + 2, 2).value;
      assert InternalSpan(rd, h, i) == Ok((from, end - from - 8));
      assert IsEntry(b, rd, from, end - 8 - from, key);
    }
  }

  lemma DecodedFrom(b: seq<Byte>, i: nat) returns (h: Header)
    requires Decode(b).Ok? && i < |Decode(b).value.keys|
    ensures var p := Decode(b).value;
            && p.kind == h.kind && p.layout == h.layout && |p.keys| == h.count && h.metaBase == 28 + 8 * |p.slots|
            && EntryAt(b, ReaderOf(b), h, i) == Ok((p.keys[i], p.payloads[i]))
            && (p.layout.compactMeta ==> |b| <= 0x7FFF)
  {
    h := Parse(b, ReaderOf(b)).value;
    assert EntryAt(b, ReaderOf(b), h, i).Ok?;
  }

  ghost predicate LeafEntryAt(b: seq<Byte>, rd: Reader, layout: Layout, meta: nat, count: nat, i: nat, key: Key,
                              payload: Payload) {
    if !layout.compactMeta then ClassicLeafAt(b, rd, meta + 8 * i, key, payload)
    else
      var lens := if layout.omittedKeys then None else Some(meta + 2 * (count + 1) + 2 * i);
      CompactLeafAt(b, rd, meta + 2 * i, lens, key, payload)
  }

  lemma LeafSaid(b: seq<Byte>, rd: Reader, h: Header, i: nat)
    requires LeafEntry(b, rd, h, i).Ok? && (h.layout.compactMeta ==> |b| <= 0x7FFF)
    ensures var (key, payload) := LeafEntry(b, rd, h, i).value;
            LeafEntryAt(b, rd, h.layout, h.metaBase, h.count, i, key, payload)
  {
    if h.layout.compactMeta {
      CompactLeafBytes(b, rd, h, i);
    } else {
      ClassicLeafBytes(b, rd, h, i);
    }
  }

  /** What a leaf says about its entries, behind its digests. */
  lemma LeafBytes(b: seq<Byte>, i: nat)
    requires Decode(b).Ok? && i < |Decode(b).value.keys| && Decode(b).value.kind == Leaf
    ensures var p := Decode(b).value;
            LeafEntryAt(b, ReaderOf(b), p.layout, 28 + 8 * |p.slots|, |p.keys|, i, p.keys[i], p.payloads[i])
  {
    var h := DecodedFrom(b, i);
    LeafSaid(b, ReaderOf(b), h, i);
  }

  /** And an internal page about its children. */
  lemma ChildBytes(b: seq<Byte>, i: nat)
    requires Decode(b).Ok? && i < |Decode(b).value.keys| && Decode(b).value.kind == Internal
    ensures var p := Decode(b).value;
            InternalAt(b, ReaderOf(b), p.layout, 28 + 8 * |p.slots|, i, p.keys[i], p.payloads[i])
  {
    var h := DecodedFrom(b, i);
    InternalBytes(b, ReaderOf(b), h, i);
  }

  // ---------------------------------------------------------------- reading undoes writing

  /** An entry the format has room for. */
  ghost predicate EntryFits(p: Page, i: nat)
    requires i < |p.keys|
  {
    && |p.keys[i]| <= 0xFFFF
    && match p.payloads[i]
       case Inline(bytes) => p.layout.compactMeta || |bytes| < SENTINEL
       case Overflow(o) => o < I64_LIMIT
       case Child(o) => o < I64_LIMIT
  }

  /** A page the format has room for. */
  ghost predicate Encodable(p: Page) {
    && PREFIX + |Body(p)| < I32_LIMIT
    && (p.layout.compactMeta ==> PREFIX + |Body(p)| <= MAX_COMPACT)
    && (p.left.Some? ==> p.left.value < I64_LIMIT)
    && (p.right.Some? ==> p.right.value < I64_LIMIT)
    && (if |p.keys| == 0 then PREFIX + |p.blob| >= PayloadBase(p.layout, p.kind, 0) else p.blob == [])
    && (forall i :: 0 <= i < |p.keys| ==> EntryFits(p, i))
  }

  lemma EvenLength<T>(parts: seq<seq<T>>, w: nat)
    requires forall j :: 0 <= j < |parts| ==> |parts[j]| == w
    ensures |Cat(parts)| == |parts| * w
  {
    EvenStarts(parts, w, |parts|);
    StartEnds(parts);
  }

  lemma DigestArea(p: Page)
    ensures |Cat(DigestParts(p.slots))| == 8 * DigestSlots(p.layout, |p.keys|)
  {
    EvenLength(DigestParts(p.slots), 8);
  }

  lemma MetaArea(p: Page, base: nat)
    ensures |Meta(p, base)| == MetaSize(p.layout, p.kind, |p.keys|)
  {
    EvenLength(OffsetParts(p, base), 2);
    EvenLength(KeyLenParts(p), 2);
    EvenLength(RecordParts(p, base), if p.kind == Leaf then 8 else 6);
  }

  lemma KindReads(p: Page)
    ensures KindWord(p) < 4096
    ensures ParseKind(KindWord(p)) == Ok((p.kind, p.layout))
  {
  }

  lemma HeadReads(p: Page, len: nat, body: seq<Byte>, b: seq<Byte>, rd: Reader)
    requires len < I32_LIMIT && |p.keys| < I32_LIMIT
    requires p.left.Some? ==> p.left.value < I64_LIMIT
    requires p.right.Some? ==> p.right.value < I64_LIMIT
    requires b == Head(p, len) + body && Finds(rd, b)
    ensures ReadLen(rd, 0) == Ok(len) && rd(4, 4) == Ok(KindWord(p)) && ReadLen(rd, 8) == Ok(|p.keys|)
    ensures ReadOrdinal(rd, 12) == Ok(p.left) && ReadOrdinal(rd, 20) == Ok(p.right)
  {
    Widths();
    KindReads(p);
    var l, k, n, left, right := Le(len, 4), Le(KindWord(p), 4), Le(|p.keys|, 4), Le(OrdinalWord(p.left), 8),
      Le(OrdinalWord(p.right), 8);
    RegroupSix(l, k, n, left, right, body);
    ReadsAt(b, rd, [], len, 4, k + n + left + right + body, 0);
    ReadsAt(b, rd, l, KindWord(p), 4, n + left + right + body, 4);
    ReadsAt(b, rd, l + k, |p.keys|, 4, left + right + body, 8);
    ReadsAt(b, rd, l + k + n, OrdinalWord(p.left), 8, right + body, 12);
    ReadsAt(b, rd, l + k + n + left, OrdinalWord(p.right), 8, body, 20);
  }

  ghost function HeaderOf(p: Page): Header {
    Header(p.kind, p.layout, |p.keys|, p.left, p.right,
           PREFIX + 8 * DigestSlots(p.layout, |p.keys|), PayloadBase(p.layout, p.kind, |p.keys|))
  }

  /** The areas of a page fit inside it. */
  lemma AreasFit(p: Page)
    requires Encodable(p)
    ensures HeaderOf(p).payloadBase <= PREFIX + |Body(p)|
    ensures |p.keys| < I32_LIMIT
  {
    DigestArea(p);
    MetaArea(p, PayloadBase(p.layout, p.kind, |p.keys|));
    Eytzinger.CompleteSizeIsLeast(|p.keys|, 0);
  }

  lemma ParseSteps(b: seq<Byte>, rd: Reader, p: Page)
    requires PREFIX <= |b| && HeaderOf(p).payloadBase <= |b| && (p.layout.compactMeta ==> |b| <= MAX_COMPACT)
    requires ReadLen(rd, 0) == Ok(|b|) && rd(4, 4) == Ok(KindWord(p)) && ReadLen(rd, 8) == Ok(|p.keys|)
    requires ReadOrdinal(rd, 12) == Ok(p.left) && ReadOrdinal(rd, 20) == Ok(p.right)
    ensures Parse(b, rd) == Ok(HeaderOf(p))
  {
    KindReads(p);
  }

  lemma ParsesWith(p: Page, body: seq<Byte>, b: seq<Byte>, rd: Reader)
    requires b == Head(p, PREFIX + |body|) + body && Finds(rd, b)
    requires PREFIX + |body| < I32_LIMIT && |p.keys| < I32_LIMIT
    requires HeaderOf(p).payloadBase <= PREFIX + |body| && (p.layout.compactMeta ==> PREFIX + |body| <= MAX_COMPACT)
    requires p.left.Some? ==> p.left.value < I64_LIMIT
    requires p.right.Some? ==> p.right.value < I64_LIMIT
    ensures Parse(b, rd) == Ok(HeaderOf(p))
  {
    HeadReads(p, PREFIX + |body|, body, b, rd);
    ParseSteps(b, rd, p);
  }

  // The lemmas below speak of any bytes `b` in which the areas of a page stand where the header `h`
  // says they do.

  ghost predicate HasDigests(b: seq<Byte>, p: Page, pre: seq<Byte>, post: seq<Byte>) {
    b == pre + Cat(DigestParts(p.slots)) + post && |pre| == PREFIX
  }

  ghost predicate HasMeta(b: seq<Byte>, p: Page, h: Header, pre: seq<Byte>, post: seq<Byte>) {
    b == pre + Meta(p, h.payloadBase) + post && |pre| == h.metaBase
  }

  ghost predicate HasEntries(b: seq<Byte>, p: Page, h: Header, pre: seq<Byte>) {
    b == pre + Cat(EntryParts(p)) + [] && |pre| == h.payloadBase
  }

  /** Entry `i` stands where its offset says. */
  ghost predicate EntryThere(b: seq<Byte>, p: Page, base: nat, i: nat)
    requires i < |p.keys|
  {
    var from, to := EntryOffset(p, base, i), EntryOffset(p, base, i + 1);
    && base <= from && from + |EntryBytes(p.keys[i], p.payloads[i])| == to <= |b|
    && b[from..to] == EntryBytes(p.keys[i], p.payloads[i])
  }

  /** Where the areas of a page stand. */
  lemma AreasInside(p: Page, h: Header, head: seq<Byte>)
    returns (pre: seq<Byte>, front: seq<Byte>, rest: seq<Byte>, post: seq<Byte>)
    requires |head| == PREFIX && h == HeaderOf(p)
    ensures HasDigests(head + Areas(p, h.payloadBase), p, head, rest)
    ensures HasMeta(head + Areas(p, h.payloadBase), p, h, pre, post)
    ensures HasEntries(head + Areas(p, h.payloadBase), p, h, front)
  {
    DigestArea(p);
    MetaArea(p, h.payloadBase);
    var digests, meta, entries := Cat(DigestParts(p.slots)), Meta(p, h.payloadBase), Cat(EntryParts(p));
    Regroup(head, digests, meta, entries);
    pre, front, rest, post := head + digests, head + digests + meta, meta + entries, entries;
  }

  lemma SlotReads(b: seq<Byte>, rd: Reader, p: Page, pre: seq<Byte>, post: seq<Byte>, i: nat)
    requires Finds(rd, b)
    requires HasDigests(b, p, pre, post) && i < |p.slots|
    ensures SlotAt(rd, i) == p.slots[i]
  {
    Widths();
    var at := PREFIX + 8 * i;
    TableRead(b, rd, pre, DigestParts(p.slots), post, 8, i, p.slots[i], at);
  }

  lemma EntryIsThere(b: seq<Byte>, p: Page, h: Header, pre: seq<Byte>, i: nat)
    requires HasEntries(b, p, h, pre) && i < |p.keys|
    ensures EntryThere(b, p, h.payloadBase, i)
  {
    StartNext(EntryParts(p), i);
    PartInside(b, pre, EntryParts(p), [], i, EntryOffset(p, h.payloadBase, i));
  }

  lemma OffsetRead(b: seq<Byte>, rd: Reader, p: Page, base: nat, pre: seq<Byte>, rest: seq<Byte>, i: nat, at: nat)
    requires Finds(rd, b)
    requires b == pre + Cat(OffsetParts(p, base)) + rest && at == |pre| + i * 2
    requires i <= |p.keys| && EntryOffset(p, base, i) < OVERFLOW_BIT
    ensures rd(at, 2) == Ok(OffsetWord(p, base, i))
  {
    Widths();
    TableRead(b, rd, pre, OffsetParts(p, base), rest, 2, i, OffsetWord(p, base, i), at);
  }

  // Reading a span, once the words it is made of are known.

  lemma CompactSpan(rd: Reader, h: Header, i: nat, at: nat, next: nat, offset: nat, end: nat, keyLen: nat,
                    spilled: bool, bit: nat)
    requires h.layout.compactMeta && offset + keyLen <= end < OVERFLOW_BIT
    requires bit == 0 || bit == OVERFLOW_BIT
    requires at == h.metaBase + i * 2 && next == h.metaBase + (i + 1) * 2
    requires rd(at, 2) == Ok(offset + Bit(spilled, OVERFLOW_BIT))
    requires rd(next, 2) == Ok(end + bit)
    requires if h.layout.omittedKeys then keyLen == 0 else rd(h.metaBase + (h.count + 1) * 2 + i * 2, 2) == Ok(keyLen)
    ensures LeafSpan(rd, h, i) == Ok((offset, keyLen, if spilled then SENTINEL else end - offset - keyLen))
  {
  }

  lemma ClassicSpan(rd: Reader, h: Header, i: nat, at: nat, offset: nat, keyLen: nat, valueLen: nat)
    requires !h.layout.compactMeta && at == h.metaBase + i * 8 && offset < I32_LIMIT
    requires rd(at, 4) == Ok(offset) && rd(at + 4, 2) == Ok(keyLen) && rd(at + 6, 2) == Ok(valueLen)
    ensures LeafSpan(rd, h, i) == Ok((offset, keyLen, valueLen))
  {
  }

  lemma InternalCompactSpan(rd: Reader, h: Header, i: nat, at: nat, next: nat, offset: nat, end: nat)
    requires h.layout.compactMeta && !h.layout.omittedKeys && offset + 8 <= end
    requires at == h.metaBase + i * 2 && next == h.metaBase + (i + 1) * 2
    requires rd(at, 2) == Ok(offset) && rd(next, 2) == Ok(end)
    ensures InternalSpan(rd, h, i) == Ok((offset, end - offset - 8))
  {
  }

  lemma InternalClassicSpan(rd: Reader, h: Header, i: nat, at: nat, offset: nat, keyLen: nat)
    requires !h.layout.compactMeta && at == h.metaBase + i * 6 && offset < I32_LIMIT
    requires rd(at, 4) == Ok(offset) && rd(at + 4, 2) == Ok(keyLen)
    ensures InternalSpan(rd, h, i) == Ok((offset, keyLen))
  {
  }

  /** A key and what follows it, taken out of the bytes again. */
  lemma EntrySplits(b: seq<Byte>, rd: Reader, from: nat, key: Key, payload: Payload)
    requires Finds(rd, b)
    requires from + |EntryBytes(key, payload)| <= |b|
    requires b[from..from + |EntryBytes(key, payload)|] == EntryBytes(key, payload)
    ensures b[from..from + |key|] == key
    ensures b[from + |key|..from + |key| + |PayloadBytes(payload)|] == PayloadBytes(payload)
    ensures payload.Overflow? && payload.blob < I64_LIMIT ==> ReadPage(rd, from + |key|) == Ok(payload.blob)
    ensures payload.Child? && payload.page < I64_LIMIT ==> ReadPage(rd, from + |key|) == Ok(payload.page)
  {
    assert EntryBytes(key, payload) == key + PayloadBytes(payload) + [];
    SplitThree(b, from, key, PayloadBytes(payload), []);
    match payload {
      case Inline(_) =>
      case Overflow(o) => OrdinalReads(b, rd, from + |key|, o);
      case Child(o) => OrdinalReads(b, rd, from + |key|, o);
    }
  }

  lemma OrdinalReads(b: seq<Byte>, rd: Reader, at: nat, o: nat)
    requires Finds(rd, b)
    requires at + 8 <= |b| && b[at..at + 8] == Le(o, 8)
    ensures o < I64_LIMIT ==> ReadPage(rd, at) == Ok(o)
  {
    if o < I64_LIMIT {
      Widths();
      assert Stores(b, at, 8, o);
    }
  }

  lemma LeafEntryFrom(b: seq<Byte>, rd: Reader, h: Header, i: nat, from: nat, key: Key, payload: Payload)
    requires Finds(rd, b)
    requires LeafSpan(rd, h, i) == Ok((from, |key|, ValueWord(payload))) && !payload.Child?
    requires h.payloadBase <= from && from + |EntryBytes(key, payload)| <= |b|
    requires b[from..from + |EntryBytes(key, payload)|] == EntryBytes(key, payload)
    requires payload.Overflow? ==> payload.blob < I64_LIMIT
    requires payload.Inline? ==> |payload.bytes| < SENTINEL
    ensures LeafEntry(b, rd, h, i) == Ok((key, payload))
  {
    EntrySplits(b, rd, from, key, payload);
    assert InPayload(b, h, from, |key| + |PayloadBytes(payload)|);
  }

  lemma InternalEntryFrom(b: seq<Byte>, rd: Reader, h: Header, i: nat, from: nat, key: Key, payload: Payload)
    requires Finds(rd, b)
    requires InternalSpan(rd, h, i) == Ok((from, |key|)) && payload.Child? && payload.page < I64_LIMIT
    requires h.payloadBase <= from && from + |EntryBytes(key, payload)| <= |b|
    requires b[from..from + |EntryBytes(key, payload)|] == EntryBytes(key, payload)
    ensures InternalEntry(b, rd, h, i) == Ok((key, payload))
  {
    EntrySplits(b, rd, from, key, payload);
    InternalEntryIs(b, rd, h, i, from, key, payload.page);
  }

  lemma InternalEntryIs(b: seq<Byte>, rd: Reader, h: Header, i: nat, from: nat, key: Key, page: nat)
    requires InternalSpan(rd, h, i) == Ok((from, |key|)) && InPayload(b, h, from, |key| + 8)
    requires b[from..from + |key|] == key && ReadPage(rd, from + |key|) == Ok(page)
    ensures InternalEntry(b, rd, h, i) == Ok((key, Child(page)))
  {
  }

  // ---------------------------------------------------------------- one lemma per layout

  /** The header speaks of this page, and entry `i` is inside it. */
  ghost predicate Placed(b: seq<Byte>, p: Page, h: Header, i: nat) {
    && i < |p.keys| && EntryFits(p, i)
    && EntryOffset(p, h.payloadBase, i) + |p.keys[i]| + |PayloadBytes(p.payloads[i])| ==
         EntryOffset(p, h.payloadBase, i + 1) <= |b|
    && h.kind == p.kind && h.layout == p.layout && h.count == |p.keys|
    && |b| < I32_LIMIT && (p.layout.compactMeta ==> |b| <= MAX_COMPACT)
  }

  lemma ClassicLeafReads(b: seq<Byte>, rd: Reader, p: Page, h: Header, pre: seq<Byte>, post: seq<Byte>, i: nat)
    requires Finds(rd, b)
    requires Placed(b, p, h, i) && p.kind == Leaf && !p.layout.compactMeta
    requires b == pre + Cat(RecordParts(p, h.payloadBase)) + post && |pre| == h.metaBase
    ensures LeafSpan(rd, h, i) == Ok((EntryOffset(p, h.payloadBase, i), |p.keys[i]|, ValueWord(p.payloads[i])))
  {
    var offset, at := EntryOffset(p, h.payloadBase, i), h.metaBase + i * 8;
    Widths();
    LongRecordRead(b, rd, pre, RecordParts(p, h.payloadBase), post, i, offset, |p.keys[i]|, ValueWord(p.payloads[i]),
                   at);
    ClassicSpan(rd, h, i, at, offset, |p.keys[i]|, ValueWord(p.payloads[i]));
  }

  lemma ClassicInternalReads(b: seq<Byte>, rd: Reader, p: Page, h: Header, pre: seq<Byte>, post: seq<Byte>, i: nat)
    requires Finds(rd, b)
    requires Placed(b, p, h, i) && p.kind == Internal && !p.layout.compactMeta
    requires b == pre + Cat(RecordParts(p, h.payloadBase)) + post && |pre| == h.metaBase
    ensures InternalSpan(rd, h, i) == Ok((EntryOffset(p, h.payloadBase, i), |p.keys[i]|))
  {
    var offset, at := EntryOffset(p, h.payloadBase, i), h.metaBase + i * 6;
    Widths();
    RecordRead(b, rd, pre, RecordParts(p, h.payloadBase), post, i, offset, |p.keys[i]|, at);
    InternalClassicSpan(rd, h, i, at, offset, |p.keys[i]|);
  }

  /** The words of a compact entry, given where its offset, the next one and its key length stand. */
  ghost predicate WordsAt(rd: Reader, p: Page, base: nat, i: nat, at: nat, next: nat, len: nat)
    requires i < |p.keys|
  {
    && rd(at, 2) == Ok(OffsetWord(p, base, i)) && rd(next, 2) == Ok(OffsetWord(p, base, i + 1))
    && (p.kind == Leaf && !p.layout.omittedKeys ==> rd(len, 2) == Ok(|p.keys[i]|))
  }

  lemma OffsetPair(b: seq<Byte>, rd: Reader, p: Page, base: nat, pre: seq<Byte>, post: seq<Byte>, i: nat, at: nat,
                   next: nat, len: nat)
    requires Finds(rd, b)
    requires b == pre + Cat(OffsetParts(p, base)) + post && at == |pre| + i * 2 && next == |pre| + (i + 1) * 2
    requires i < |p.keys| && EntryOffset(p, base, i) < OVERFLOW_BIT && EntryOffset(p, base, i + 1) < OVERFLOW_BIT
    requires p.kind == Internal || p.layout.omittedKeys || rd(len, 2) == Ok(|p.keys[i]|)
    ensures WordsAt(rd, p, base, i, at, next, len)
  {
    OffsetRead(b, rd, p, base, pre, post, i, at);
    OffsetRead(b, rd, p, base, pre, post, i + 1, next);
  }

  lemma KeyLenRead(b: seq<Byte>, rd: Reader, p: Page, base: nat, pre: seq<Byte>, post: seq<Byte>, i: nat, len: nat)
    requires Finds(rd, b)
    requires b == pre + (Cat(OffsetParts(p, base)) + Cat(KeyLenParts(p))) + post
    requires i < |p.keys| && |p.keys[i]| <= 0xFFFF && len == |pre| + (|p.keys| + 1) * 2 + i * 2
    ensures rd(len, 2) == Ok(|p.keys[i]|)
  {
    var offsets := Cat(OffsetParts(p, base));
    RegroupMiddle(pre, offsets, Cat(KeyLenParts(p)), post);
    EvenLength(OffsetParts(p, base), 2);
    Widths();
    TableRead(b, rd, pre + offsets, KeyLenParts(p), post, 2, i, |p.keys[i]|, len);
  }

  /** The metadata of a compact entry, wherever the page keeps it. */
  lemma WordsRead(b: seq<Byte>, rd: Reader, p: Page, base: nat, pre: seq<Byte>, post: seq<Byte>, i: nat, at: nat,
                  next: nat, len: nat)
    requires Finds(rd, b)
    requires b == pre + Meta(p, base) + post && p.layout.compactMeta && (p.kind == Leaf || !p.layout.omittedKeys)
    requires at == |pre| + i * 2 && next == |pre| + (i + 1) * 2 && len == |pre| + (|p.keys| + 1) * 2 + i * 2
    requires i < |p.keys| && |p.keys[i]| <= 0xFFFF && EntryOffset(p, base, i) < OVERFLOW_BIT
             && EntryOffset(p, base, i + 1) < OVERFLOW_BIT
    ensures WordsAt(rd, p, base, i, at, next, len)
  {
    if p.kind == Leaf && !p.layout.omittedKeys {
      RegroupMiddle(pre, Cat(OffsetParts(p, base)), Cat(KeyLenParts(p)), post);
      KeyLenRead(b, rd, p, base, pre, post, i, len);
      OffsetPair(b, rd, p, base, pre, Cat(KeyLenParts(p)) + post, i, at, next, len);
    } else {
      OffsetPair(b, rd, p, base, pre, post, i, at, next, len);
    }
  }

  lemma CompactLeafReads(b: seq<Byte>, rd: Reader, p: Page, h: Header, i: nat, at: nat, next: nat)
    requires Placed(b, p, h, i) && p.layout.compactMeta && p.kind == Leaf
    requires at == h.metaBase + i * 2 && next == h.metaBase + (i + 1) * 2
    requires WordsAt(rd, p, h.payloadBase, i, at, next, h.metaBase + (h.count + 1) * 2 + i * 2)
    ensures LeafSpan(rd, h, i) == Ok((EntryOffset(p, h.payloadBase, i), |p.keys[i]|, ValueWord(p.payloads[i])))
  {
    var end := EntryOffset(p, h.payloadBase, i + 1);
    CompactSpan(rd, h, i, at, next, EntryOffset(p, h.payloadBase, i), end, |p.keys[i]|, p.payloads[i].Overflow?,
                OffsetWord(p, h.payloadBase, i + 1) - end);
  }

  lemma CompactInternalReads(rd: Reader, p: Page, h: Header, i: nat, at: nat, next: nat, len: nat)
    requires h.layout == p.layout && p.layout.compactMeta && !p.layout.omittedKeys && p.kind == Internal && i < |p.keys|
    requires at == h.metaBase + i * 2 && next == h.metaBase + (i + 1) * 2
    requires WordsAt(rd, p, h.payloadBase, i, at, next, len)
    requires EntryOffset(p, h.payloadBase, i) + |p.keys[i]| + 8 == EntryOffset(p, h.payloadBase, i + 1)
    ensures InternalSpan(rd, h, i) == Ok((EntryOffset(p, h.payloadBase, i), |p.keys[i]|))
  {
    InternalCompactSpan(rd, h, i, at, next, EntryOffset(p, h.payloadBase, i), EntryOffset(p, h.payloadBase, i + 1));
  }

  /** Without keys the entries of an internal page are a dense array of ordinals. */
  lemma OmittedInternalReads(b: seq<Byte>, rd: Reader, p: Page, h: Header, i: nat)
    requires Placed(b, p, h, i) && p.kind == Internal && p.layout.omittedKeys && h.metaBase == h.payloadBase
    ensures InternalSpan(rd, h, i) == Ok((EntryOffset(p, h.payloadBase, i), |p.keys[i]|))
  {
    EvenStarts(EntryParts(p), 8, i);
  }

  lemma OffsetsAreSmall(b: seq<Byte>, p: Page, h: Header, i: nat)
    requires Placed(b, p, h, i) && p.layout.compactMeta
    ensures EntryOffset(p, h.payloadBase, i) < OVERFLOW_BIT && EntryOffset(p, h.payloadBase, i + 1) < OVERFLOW_BIT
    ensures |p.keys[i]| <= 0xFFFF
  {
  }

  lemma CompactLeafSpan(b: seq<Byte>, rd: Reader, p: Page, h: Header, pre: seq<Byte>, post: seq<Byte>, i: nat)
    requires Finds(rd, b) && p.layout.compactMeta
    requires Placed(b, p, h, i) && p.kind == Leaf && HasMeta(b, p, h, pre, post)
    ensures LeafSpan(rd, h, i) == Ok((EntryOffset(p, h.payloadBase, i), |p.keys[i]|, ValueWord(p.payloads[i])))
  {
    var at, next, len := h.metaBase + i * 2, h.metaBase + (i + 1) * 2, h.metaBase + (h.count + 1) * 2 + i * 2;
    OffsetsAreSmall(b, p, h, i);
    WordsRead(b, rd, p, h.payloadBase, pre, post, i, at, next, len);
    CompactLeafReads(b, rd, p, h, i, at, next);
  }

  lemma LeafSpanReads(b: seq<Byte>, rd: Reader, p: Page, h: Header, pre: seq<Byte>, post: seq<Byte>, i: nat)
    requires Finds(rd, b)
    requires Placed(b, p, h, i) && p.kind == Leaf && HasMeta(b, p, h, pre, post)
    ensures LeafSpan(rd, h, i) == Ok((EntryOffset(p, h.payloadBase, i), |p.keys[i]|, ValueWord(p.payloads[i])))
  {
    if !p.layout.compactMeta {
      ClassicLeafReads(b, rd, p, h, pre, post, i);
    } else {
      CompactLeafSpan(b, rd, p, h, pre, post, i);
    }
  }

  lemma InternalSpanReads(b: seq<Byte>, rd: Reader, p: Page, h: Header, pre: seq<Byte>, post: seq<Byte>, i: nat)
    requires Finds(rd, b)
    requires Placed(b, p, h, i) && p.kind == Internal && HasMeta(b, p, h, pre, post)
    requires p.layout.omittedKeys ==> h.metaBase == h.payloadBase
    ensures InternalSpan(rd, h, i) == Ok((EntryOffset(p, h.payloadBase, i), |p.keys[i]|))
  {
    if !p.layout.compactMeta {
      ClassicInternalReads(b, rd, p, h, pre, post, i);
    } else if p.layout.omittedKeys {
      OmittedInternalReads(b, rd, p, h, i);
    } else {
      var at, next, len := h.metaBase + i * 2, h.metaBase + (i + 1) * 2, h.metaBase + (|p.keys| + 1) * 2 + i * 2;
      WordsRead(b, rd, p, h.payloadBase, pre, post, i, at, next, len);
      CompactInternalReads(rd, p, h, i, at, next, len);
    }
  }

  lemma EntryFollows(b: seq<Byte>, rd: Reader, p: Page, h: Header, i: nat)
    requires Finds(rd, b)
    requires Placed(b, p, h, i) && EntryThere(b, p, h.payloadBase, i)
    requires p.kind == Leaf ==>
               LeafSpan(rd, h, i) == Ok((EntryOffset(p, h.payloadBase, i), |p.keys[i]|, ValueWord(p.payloads[i])))
    requires p.kind == Internal ==> InternalSpan(rd, h, i) == Ok((EntryOffset(p, h.payloadBase, i), |p.keys[i]|))
    ensures EntryAt(b, rd, h, i) == Ok((p.keys[i], p.payloads[i]))
  {
    if p.kind == Leaf {
      LeafEntryFrom(b, rd, h, i, EntryOffset(p, h.payloadBase, i), p.keys[i], p.payloads[i]);
    } else {
      InternalEntryFrom(b, rd, h, i, EntryOffset(p, h.payloadBase, i), p.keys[i], p.payloads[i]);
    }
  }

  lemma EntryReadsIn(b: seq<Byte>, rd: Reader, p: Page, h: Header, pre: seq<Byte>, post: seq<Byte>, i: nat)
    requires Finds(rd, b)
    requires Placed(b, p, h, i) && EntryThere(b, p, h.payloadBase, i)
    requires HasMeta(b, p, h, pre, post)
    requires p.kind == Internal && p.layout.omittedKeys ==> h.metaBase == h.payloadBase
    ensures EntryAt(b, rd, h, i) == Ok((p.keys[i], p.payloads[i]))
  {
    if p.kind == Leaf {
      LeafSpanReads(b, rd, p, h, pre, post, i);
    } else {
      InternalSpanReads(b, rd, p, h, pre, post, i);
    }
    EntryFollows(b, rd, p, h, i);
  }

  lemma EntriesReadBack(p: Page, h: Header, head: seq<Byte>, b: seq<Byte>, rd: Reader)
    requires Finds(rd, b)
    requires h == HeaderOf(p) && |head| == PREFIX && b == head + Areas(p, h.payloadBase)
    requires |b| < I32_LIMIT && (p.layout.compactMeta ==> |b| <= MAX_COMPACT)
    requires forall i :: 0 <= i < |p.keys| ==> EntryFits(p, i)
    ensures forall i :: 0 <= i < |p.keys| ==> EntryAt(b, rd, h, i) == Ok((p.keys[i], p.payloads[i]))
    ensures forall i :: 0 <= i < |p.slots| ==> SlotAt(rd, i) == p.slots[i]
  {
    var pre, front, rest, post := AreasInside(p, h, head);
    forall i | 0 <= i < |p.keys|
      ensures EntryAt(b, rd, h, i) == Ok((p.keys[i], p.payloads[i]))
    {
      assert EntryFits(p, i);
      EntryIsThere(b, p, h, front, i);
      EntryReadsIn(b, rd, p, h, pre, post, i);
    }
    forall i | 0 <= i < |p.slots|
      ensures SlotAt(rd, i) == p.slots[i]
    {
      SlotReads(b, rd, p, head, rest, i);
    }
  }

  lemma SameParts(b: seq<Byte>, rd: Reader, p: Page)
    requires rd == ReaderOf(b)
    requires Parse(b, rd) == Ok(HeaderOf(p))
    requires forall i :: 0 <= i < |p.keys| ==> EntryAt(b, rd, HeaderOf(p), i) == Ok((p.keys[i], p.payloads[i]))
    requires forall i :: 0 <= i < |p.slots| ==> SlotAt(rd, i) == p.slots[i]
    requires |b| >= PREFIX && p.blob == if |p.keys| == 0 then b[PREFIX..] else []
    ensures Decode(b) == Ok(p)
  {
    var q := PageOf(b, rd, HeaderOf(p));
    assert q.keys == p.keys;
    assert q.slots == p.slots;
    assert q.payloads == p.payloads;
  }

  lemma TreePageReads(p: Page, head: seq<Byte>, b: seq<Byte>, rd: Reader)
    requires Finds(rd, b) && rd == ReaderOf(b)
    requires |p.keys| > 0 && p.blob == [] && |head| == PREFIX && b == head + Areas(p, HeaderOf(p).payloadBase)
    requires |b| < I32_LIMIT && (p.layout.compactMeta ==> |b| <= MAX_COMPACT)
    requires forall i :: 0 <= i < |p.keys| ==> EntryFits(p, i)
    requires Parse(b, rd) == Ok(HeaderOf(p))
    ensures Decode(b) == Ok(p)
  {
    EntriesReadBack(p, HeaderOf(p), head, b, rd);
    SameParts(b, rd, p);
  }

  /** Reading undoes writing, in every layout and for leaves, internal pages and blob pages alike. */
  lemma RoundTrip(p: Page)
    requires Encodable(p)
    ensures Decode(Encode(p)) == Ok(p)
  {
    var b, rd := Encode(p), ReaderOf(Encode(p));
    ReaderFinds(b);
    AreasFit(p);
    ParsesWith(p, Body(p), b, rd);
    if |p.keys| > 0 {
      TreePageReads(p, Head(p, PREFIX + |Body(p)|), b, rd);
    } else {
      SameParts(b, rd, p);
    }
  }

  // ---------------------------------------------------------------- patching the right sibling

  /** Overwrites the bytes from `at`. */
  function Patch(b: seq<Byte>, at: nat, bytes: seq<Byte>): seq<Byte>
    requires at + |bytes| <= |b|
  {
    b[..at] + bytes + b[at + |bytes|..]
  }

  /** Patching the right sibling into a written page gives the page with that sibling. */
  lemma PatchSetsRight(p: Page, o: nat)
    ensures |Encode(p)| >= PREFIX
    ensures Patch(Encode(p), RIGHT_SIBLING, Le(o, 8)) == Encode(p.(right := Some(o)))
  {
    var q := p.(right := Some(o));
    SameBody(p, q);
    PatchHead(p, q, PREFIX + |Body(p)|, Body(p), o);
  }

  lemma PatchHead(p: Page, q: Page, len: nat, body: seq<Byte>, o: nat)
    requires q == p.(right := Some(o))
    ensures Patch(Head(p, len) + body, RIGHT_SIBLING, Le(o, 8)) == Head(q, len) + body
  {
    var front := Le(len, 4) + Le(KindWord(p), 4) + Le(|p.keys|, 4) + Le(OrdinalWord(p.left), 8);
    var b := front + Le(OrdinalWord(p.right), 8) + body;
    assert b[..RIGHT_SIBLING] == front;
    assert b[RIGHT_SIBLING + 8..] == body;
  }

  lemma SameBody(p: Page, q: Page)
    requires q == p.(right := q.right)
    ensures Body(q) == Body(p)
  {
    assert EntryParts(q) == EntryParts(p);
    var base := PayloadBase(p.layout, p.kind, |p.keys|);
    SameMeta(p, q, base);
  }

  lemma SameMeta(p: Page, q: Page, base: nat)
    requires q == p.(right := q.right) && EntryParts(q) == EntryParts(p)
    ensures Meta(q, base) == Meta(p, base)
  {
    assert OffsetParts(q, base) == OffsetParts(p, base);
    assert KeyLenParts(q) == KeyLenParts(p);
    assert RecordParts(q, base) == RecordParts(p, base);
  }

  // ---------------------------------------------------------------- blob pages

  /** The page of a value that does not fit on its leaf. */
  function BlobPage(value: seq<Byte>): Page {
    EMPTY_LEAF.(blob := value)
  }

  /** A value of more than 2^31 - 29 bytes gives its page a length that reads as negative. Values up to
      2^31 - 1 bytes are accepted, so the last 28 lengths are written but cannot be read. */
  lemma BlobReadsBack(value: seq<Byte>)
    requires |value| < I32_LIMIT
    ensures Decode(Encode(BlobPage(value))) == Ok(BlobPage(value)) <==> |value| + PREFIX < I32_LIMIT
    ensures |value| + PREFIX >= I32_LIMIT ==> Decode(Encode(BlobPage(value))).Err?
  {
    var p := BlobPage(value);
    if |value| + PREFIX < I32_LIMIT {
      RoundTrip(p);
    } else {
      var b, rd := Encode(p), ReaderOf(Encode(p));
      ReaderFinds(b);
      LongBlob(value, b, rd);
    }
  }

  lemma LongBlob(value: seq<Byte>, b: seq<Byte>, rd: Reader)
    requires |value| < I32_LIMIT <= |value| + PREFIX && b == Encode(BlobPage(value)) && Finds(rd, b)
    ensures Parse(b, rd).Err?
  {
    var p, len := BlobPage(value), PREFIX + |value|;
    var l, k, n, left, right := Le(len, 4), Le(KindWord(p), 4), Le(|p.keys|, 4), Le(OrdinalWord(p.left), 8),
      Le(OrdinalWord(p.right), 8);
    RegroupSix(l, k, n, left, right, value);
    Widths();
    ReadsAt(b, rd, [], len, 4, k + n + left + right + value, 0);
  }
}
