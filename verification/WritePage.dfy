/** Building the bytes of one page from the entries of a level. */
module PageWriting {
  import opened Base
  import opened Sequences
  import opened Bytes
  import opened Encodings
  import opened Pages
  import opened Codec
  import Eytzinger

  lemma CatNext<T>(parts: seq<seq<T>>, i: nat)
    requires i < |parts|
    ensures Cat(parts[..i + 1]) == Cat(parts[..i]) + parts[i]
  {
    assert parts[..i + 1][..i] == parts[..i];
  }

  lemma CatWhole<T>(parts: seq<seq<T>>)
    ensures parts[..|parts|] == parts && parts[..0] == [] && Cat(parts[..0]) == []
  {
  }

  /** The digests in the order the page keeps them. */
  method ArrangeDigests(layout: Layout, digests: seq<U64>) returns (slots: seq<U64>)
    ensures |slots| == DigestSlots(layout, |digests|)
    ensures !layout.eytzinger ==> slots == digests
    ensures layout.eytzinger ==>
              && |digests| <= |slots| && Eytzinger.IsComplete(slots, Eytzinger.Height(|digests|))
              && Eytzinger.LeftToRight(slots, Eytzinger.Height(|digests|)) == Eytzinger.PadTo(digests, |slots|)
  {
    if !layout.eytzinger {
      return digests;
    }
    var size := Eytzinger.ComputeCompleteSize(|digests|);
    Eytzinger.CompleteSizeIsLeast(|digests|, 0);
    var scattered := new U64[size];
    Eytzinger.ScatterEytzinger(digests, scattered, Eytzinger.Height(|digests|));
    slots := scattered[..];
  }

  method DigestBytes(slots: seq<U64>) returns (b: seq<Byte>)
    ensures b == Cat(DigestParts(slots))
  {
    b := [];
    ghost var parts := DigestParts(slots);
    CatWhole(parts);
    for i := 0 to |slots|
      invariant b == Cat(parts[..i])
    {
      CatNext(parts, i);
      b := b + Le(slots[i], 8);
    }
  }

  method EntryArea(p: Page) returns (b: seq<Byte>)
    ensures b == Cat(EntryParts(p))
  {
    b := [];
    ghost var parts := EntryParts(p);
    CatWhole(parts);
    for i := 0 to |p.keys|
      invariant b == Cat(parts[..i])
    {
      CatNext(parts, i);
      b := b + EntryBytes(p.keys[i], p.payloads[i]);
    }
  }

  lemma EndWord(p: Page, base: nat)
    ensures Cat(OffsetParts(p, base)) == Cat(OffsetParts(p, base)[..|p.keys|]) + Le(EntryOffset(p, base, |p.keys|), 2)
  {
    var parts := OffsetParts(p, base);
    CatNext(parts, |p.keys|);
    CatWhole(parts);
  }

  /** Compact offsets: one word per entry and one for the end. */
  method OffsetWords(p: Page, base: nat) returns (b: seq<Byte>)
    ensures b == Cat(OffsetParts(p, base))
  {
    b := [];
    var offset := base;
    ghost var parts := OffsetParts(p, base);
    CatWhole(parts);
    StartEnds(EntryParts(p));
    for i := 0 to |p.keys|
      invariant b == Cat(parts[..i])
      invariant offset == EntryOffset(p, base, i)
    {
      CatNext(parts, i);
      StartNext(EntryParts(p), i);
      var word := offset + Bit(p.payloads[i].Overflow?, OVERFLOW_BIT);
      assert word == OffsetWord(p, base, i);
      b := b + Le(word, 2);
      offset := offset + |p.keys[i]| + |PayloadBytes(p.payloads[i])|;
    }
    EndWord(p, base);
    b := b + Le(offset, 2);
  }

  method KeyLenWords(p: Page) returns (b: seq<Byte>)
    ensures b == Cat(KeyLenParts(p))
  {
    b := [];
    ghost var parts := KeyLenParts(p);
    CatWhole(parts);
    for i := 0 to |p.keys|
      invariant b == Cat(parts[..i])
    {
      CatNext(parts, i);
      b := b + Le(|p.keys[i]|, 2);
    }
  }

  /** Classic records: offset, key length and, on a leaf, value length. */
  method Records(p: Page, base: nat) returns (b: seq<Byte>)
    ensures b == Cat(RecordParts(p, base))
  {
    b := [];
    var offset := base;
    ghost var parts := RecordParts(p, base);
    CatWhole(parts);
    StartEnds(EntryParts(p));
    for i := 0 to |p.keys|
      invariant b == Cat(parts[..i])
      invariant offset == EntryOffset(p, base, i)
    {
      CatNext(parts, i);
      StartNext(EntryParts(p), i);
      var record := Le(offset, 4) + Le(|p.keys[i]|, 2);
      if p.kind == Leaf {
        record := record + Le(ValueWord(p.payloads[i]), 2);
      }
      b := b + record;
      offset := offset + |p.keys[i]| + |PayloadBytes(p.payloads[i])|;
    }
  }

  method MetaBytes(p: Page, base: nat) returns (b: seq<Byte>)
    ensures b == Meta(p, base)
  {
    if !p.layout.compactMeta {
      b := Records(p, base);
      return;
    }
    b := [];
    if p.kind == Leaf || !p.layout.omittedKeys {
      b := OffsetWords(p, base);
      if p.kind == Leaf && !p.layout.omittedKeys {
        var lens := KeyLenWords(p);
        b := b + lens;
      }
    }
  }

  /** What follows the prefix of a page without entries. */
  function EmptyBody(layout: Layout, kind: NodeKind): seq<Byte> {
    if layout.compactMeta && (kind == Leaf || !layout.omittedKeys) then Le(PayloadBase(layout, kind, 0), 2) else []
  }

  lemma EmptyAreas(p: Page, base: nat)
    requires |p.keys| == 0 && base == PayloadBase(p.layout, p.kind, 0)
    ensures Areas(p, base) == EmptyBody(p.layout, p.kind)
    ensures PREFIX + |EmptyBody(p.layout, p.kind)| == base
  {
    assert Eytzinger.CompleteSize(0) == 0 by {
      Eytzinger.CompleteSizeIsLeast(0, 0);
    }
    assert DigestParts(p.slots) == [] && EntryParts(p) == [] && KeyLenParts(p) == [] && RecordParts(p, base) == [];
    var parts := OffsetParts(p, base);
    assert parts == [Le(OffsetWord(p, base, 0), 2)];
    assert parts[..0] == [];
    assert Cat(parts) == parts[0];
  }

  function Prefixed(p: Page, body: seq<Byte>): (b: seq<Byte>)
    ensures body == Body(p) ==> b == Encode(p)
  {
    Head(p, PREFIX + |body|) + body
  }

  lemma BodyIsAreas(p: Page, base: nat)
    requires |p.keys| == 0 ==> p.blob == EmptyBody(p.layout, p.kind)
    requires base == PayloadBase(p.layout, p.kind, |p.keys|)
    ensures Body(p) == Areas(p, base)
  {
    if |p.keys| == 0 {
      EmptyAreas(p, base);
    }
  }

  /** Digests, metadata and entries, one after the other. */
  method AreaBytes(p: Page, base: nat) returns (b: seq<Byte>)
    ensures b == Areas(p, base)
  {
    var digests := DigestBytes(p.slots);
    var meta := MetaBytes(p, base);
    var entries := EntryArea(p);
    b := digests + meta + entries;
  }

  /** Writes a tree page. */
  method WritePage(p: Page) returns (b: seq<Byte>)
    requires |p.keys| == 0 ==> p.blob == EmptyBody(p.layout, p.kind)
    ensures b == Encode(p)
  {
    var base := PayloadBase(p.layout, p.kind, |p.keys|);
    var body := AreaBytes(p, base);
    BodyIsAreas(p, base);
    b := Prefixed(p, body);
  }
}
