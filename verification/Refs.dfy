/** References to a value inside a page: how an index entry says where its row is. */
module References {
  import opened Base
  import opened Sequences
  import opened Bytes
  import opened Pages
  import opened Codec
  import opened PageBuilding
  import opened Trees

  datatype PageRef = PageRef(page: nat, start: nat, length: nat)

  const REF_LEN: nat := 16

  function RefBytes(ref: PageRef): (b: seq<Byte>)
    ensures |b| == REF_LEN
  {
    Le(ref.page, 8) + Le(ref.start, 4) + Le(ref.length, 4)
  }

  /** The format has room for the numbers. */
  predicate RefFits(ref: PageRef) {
    ref.page < I64_LIMIT && ref.start < I32_LIMIT && ref.length < I32_LIMIT
  }

  /** Reads a reference back. Negative numbers are refused. */
  function ParseRef(b: seq<Byte>): Result<PageRef> {
    ParseRefWith(ReaderOf(b), b)
  }

  function ParseRefWith(rd: Reader, b: seq<Byte>): Result<PageRef> {
    if |b| < REF_LEN then Err(Corrupt)
    else
      var page :- rd(0, 8);
      var start :- rd(8, 4);
      var length :- rd(12, 4);
      if page >= I64_LIMIT || start >= I32_LIMIT || length >= I32_LIMIT then Err(Corrupt)
      else Ok(PageRef(page, start, length))
  }

  /** What a reference is in bytes: eight for the page, four each for where its value starts and how long it is, none
      of them negative. Bytes behind are not looked at. */
  lemma RefInBytes(b: seq<Byte>)
    ensures ParseRef(b).Ok? <==>
              && |b| >= 16 && FromLe(b, 0, 8) < 0x8000_0000_0000_0000
              && FromLe(b, 8, 4) < 0x8000_0000 && FromLe(b, 12, 4) < 0x8000_0000
    ensures ParseRef(b).Ok? ==> ParseRef(b).value == PageRef(FromLe(b, 0, 8), FromLe(b, 8, 4), FromLe(b, 12, 4))
  {
  }

  lemma RefReadsBack(ref: PageRef)
    requires RefFits(ref)
    ensures ParseRef(RefBytes(ref)) == Ok(ref)
  {
    var b := RefBytes(ref);
    ReaderFinds(b);
    Widths();
    assert b[0..8] == Le(ref.page, 8) && b[8..12] == Le(ref.start, 4) && b[12..16] == Le(ref.length, 4);
    assert Stores(b, 0, 8, ref.page) && Stores(b, 8, 4, ref.start) && Stores(b, 12, 4, ref.length);
  }

  /** The bytes the reference is to, checked against the page it is in. */
  function RefRange(ref: PageRef, pageLen: nat): Result<(nat, nat)> {
    var end := ref.start + ref.length;
    if end > pageLen || ref.start < PREFIX then Err(Corrupt) else Ok((ref.start, end))
  }

  /** The bytes an index entry stands for, in a file whose pages have these bytes. */
  function Target(sink: seq<seq<Byte>>, b: seq<Byte>): Result<seq<Byte>> {
    var ref :- ParseRef(b);
    if ref.page >= |sink| then Err(Corrupt)
    else
      var range :- RefRange(ref, |sink[ref.page]|);
      Ok(sink[ref.page][range.0..range.1])
  }

  /** What a reference gives: bytes of a page of the file that are behind its prefix and inside it. */
  lemma TargetIs(sink: seq<seq<Byte>>, b: seq<Byte>)
    ensures Target(sink, b).Ok? <==>
              && ParseRef(b).Ok? && ParseRef(b).value.page < |sink| && 28 <= ParseRef(b).value.start
              && ParseRef(b).value.start + ParseRef(b).value.length <= |sink[ParseRef(b).value.page]|
    ensures Target(sink, b).Ok? ==>
              var ref := ParseRef(b).value;
              Target(sink, b).value == sink[ref.page][ref.start..ref.start + ref.length]
  {
  }

  // ---------------------------------------------------------------- where a value is

  /** Value `i` of a page whose entries start at `base`. */
  ghost predicate ValueAt(parts: seq<seq<Byte>>, base: nat, i: nat, key: Key, value: seq<Byte>, start: nat) {
    i < |parts| && parts[i] == key + value && start == base + Start(parts, i) + |key|
  }

  /** The reference is to this value: inside the page, or all of it. */
  ghost predicate Locates(p: Page, ref: PageRef, value: seq<Byte>) {
    && ref.length == |value|
    && if |p.keys| == 0 then p.blob == value && ref.start == PREFIX
       else exists i, key :: ValueAt(EntryParts(p), PayloadBase(p.layout, p.kind, |p.keys|), i, key, value, ref.start)
  }

  /** The bytes hold the value where the reference says. */
  ghost predicate InBytes(b: seq<Byte>, ref: PageRef, value: seq<Byte>) {
    PREFIX <= ref.start && ref.start + ref.length <= |b| && b[ref.start..ref.start + ref.length] == value
  }

  /** Following a reference that was handed out finds the value. */
  lemma RefLeadsTo(sink: seq<seq<Byte>>, ref: PageRef, value: seq<Byte>)
    requires RefFits(ref) && ref.page < |sink| && InBytes(sink[ref.page], ref, value)
    ensures Target(sink, RefBytes(ref)) == Ok(value)
  {
    RefReadsBack(ref);
  }

  /** What the reference is to is the value, in the bytes of the page. */
  lemma LocatedBytes(p: Page, ref: PageRef, value: seq<Byte>)
    requires Locates(p, ref, value)
    ensures InBytes(Encode(p), ref, value)
  {
    var head, body := EncodedParts(p);
    LocatedBehind(p, head, body, ref, value);
  }

  lemma EncodedParts(p: Page) returns (head: seq<Byte>, body: seq<Byte>)
    ensures |head| == PREFIX && body == Body(p) && Encode(p) == head + body
  {
    head, body := Head(p, PREFIX + |Body(p)|), Body(p);
  }

  lemma LocatedBehind(p: Page, head: seq<Byte>, body: seq<Byte>, ref: PageRef, value: seq<Byte>)
    requires Locates(p, ref, value) && |head| == PREFIX && body == Body(p)
    ensures InBytes(head + body, ref, value)
  {
    if |p.keys| == 0 {
      BehindHead(head, value);
    } else {
      var base := PayloadBase(p.layout, p.kind, |p.keys|);
      AreasOf(p, base);
      var i, key :| ValueAt(EntryParts(p), base, i, key, value, ref.start);
      EntryBehind(head, Cat(DigestParts(p.slots)), Meta(p, base), EntryParts(p), base, i, key, value, ref);
    }
  }

  lemma BehindHead(head: seq<Byte>, value: seq<Byte>)
    ensures (head + value)[|head|..|head| + |value|] == value
  {
  }

  lemma AreasOf(p: Page, base: nat)
    requires |p.keys| > 0 && base == PayloadBase(p.layout, p.kind, |p.keys|)
    ensures Body(p) == Cat(DigestParts(p.slots)) + Meta(p, base) + Cat(EntryParts(p))
    ensures PREFIX + |Cat(DigestParts(p.slots))| + |Meta(p, base)| == base
  {
    DigestArea(p);
    MetaArea(p, base);
  }

  lemma EntryBehind(head: seq<Byte>, digests: seq<Byte>, meta: seq<Byte>, parts: seq<seq<Byte>>, base: nat, i: nat,
                    key: Key, value: seq<Byte>, ref: PageRef)
    requires ValueAt(parts, base, i, key, value, ref.start) && ref.length == |value|
    requires |head| == PREFIX && base == PREFIX + |digests| + |meta|
    ensures InBytes(head + (digests + meta + Cat(parts)), ref, value)
  {
    var b, pre := head + (digests + meta + Cat(parts)), head + digests + meta;
    assert b == pre + Cat(parts) + [];
    PartInside(b, pre, parts, [], i, |pre| + Start(parts, i));
    ValueInEntry(b, |pre| + Start(parts, i), key, value);
  }

  lemma ValueInEntry(b: seq<Byte>, from: nat, key: Key, value: seq<Byte>)
    requires from + |key| + |value| <= |b| && b[from..from + |key| + |value|] == key + value
    ensures b[from + |key|..from + |key| + |value|] == value
  {
    SubSlice(b, from, from + |key| + |value|, |key|, |key| + |value|);
  }

  /** Where a value is does not depend on what page follows. */
  lemma LocatesStill(p: Page, q: Page, ref: PageRef, value: seq<Byte>)
    requires q == p.(right := q.right) && Locates(p, ref, value)
    ensures Locates(q, ref, value)
  {
    assert EntryParts(q) == EntryParts(p);
  }

  // ---------------------------------------------------------------- handing them out

  /** The reference to row `i` of a leaf that is page `o`: the one kept for a value on a page of its own,
      or where the value starts. */
  ghost predicate IsRef(layout: Layout, row: Row, kept: Option<PageRef>, o: nat, base: nat, parts: seq<seq<Byte>>,
                        i: nat, ref: PageRef) {
    if kept.Some? then ref == kept.value
    else
      && row.payload.Inline? && ref.page == o && ref.length == |row.payload.bytes|
      && ValueAt(parts, base, i, StoredKey(layout, row.key), row.payload.bytes, ref.start)
  }

  /** The reference to one row of a leaf, and where the next row starts. */
  method EntryRef(layout: Layout, row: Row, kept: Option<PageRef>, o: nat, base: nat, offset: nat,
                  ghost parts: seq<seq<Byte>>, ghost i: nat)
    returns (ref: PageRef, next: nat)
    requires i < |parts| && parts[i] == StoredKey(layout, row.key) + PayloadBytes(row.payload)
    requires (kept.Some? <==> !row.payload.Inline?) && offset == base + Start(parts, i)
    ensures IsRef(layout, row, kept, o, base, parts, i, ref) && next == base + Start(parts, i + 1)
  {
    var keyLen, payloadLen := |StoredKey(layout, row.key)|, |PayloadBytes(row.payload)|;
    ref := if kept.Some? then kept.value else PageRef(o, offset + keyLen, payloadLen);
    next := offset + keyLen + payloadLen;
    StartNext(parts, i);
  }

  /** The references to the rows of a leaf, as they are handed out when it is written. */
  method LeafRefs(layout: Layout, rows: seq<Row>, kept: seq<Option<PageRef>>, o: nat, base: nat,
                  ghost parts: seq<seq<Byte>>)
    returns (refs: seq<PageRef>)
    requires |kept| == |rows| && |parts| == |rows|
    requires forall i :: 0 <= i < |rows| ==> (kept[i].Some? <==> !rows[i].payload.Inline?)
    requires forall i :: 0 <= i < |rows| ==> parts[i] == StoredKey(layout, rows[i].key) + PayloadBytes(rows[i].payload)
    ensures |refs| == |rows|
    ensures forall i {:trigger refs[i]} :: 0 <= i < |rows| ==>
              IsRef(layout, rows[i], kept[i], o, base, parts, i, refs[i])
  {
    refs := [];
    var offset := base;
    var i := 0;
    while i < |rows|
      invariant i <= |rows| && |refs| == i && offset == base + Start(parts, i)
      invariant forall j {:trigger refs[j]} :: 0 <= j < i ==>
                  IsRef(layout, rows[j], kept[j], o, base, parts, j, refs[j])
    {
      var ref;
      ref, offset := EntryRef(layout, rows[i], kept[i], o, base, offset, parts, i);
      refs := refs + [ref];
      i := i + 1;
    }
  }

  /** The references found that way are to the values. */
  lemma LeafRefLocates(c: Config, rows: seq<Row>, p: Page, i: nat, ref: PageRef)
    requires Carries(c, Leaf, rows, p) && i < |rows| && rows[i].payload.Inline? && ref.length == |rows[i].payload.bytes|
    requires ValueAt(EntryParts(p), PayloadBase(c.layout, Leaf, |rows|), i, StoredKey(c.layout, rows[i].key),
                     rows[i].payload.bytes, ref.start)
    ensures Locates(p, ref, rows[i].payload.bytes)
  {
  }
}
