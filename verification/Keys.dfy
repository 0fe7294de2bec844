/** Byte order, and the digest of the first eight bytes that follows it. */
module ByteOrder {
  import opened Base
  import opened Bytes

  /** Byte-lexicographic order. */
  function Lex(a: Key, b: Key): Ordering
    decreases |a|
  {
    if a == [] then if b == [] then Equal else Less
    else if b == [] then Greater
    else if a[0] != b[0] then CompareInts(a[0], b[0])
    else Lex(a[1..], b[1..])
  }

  lemma {:induction false} LexEqual(a: Key, b: Key)
    ensures Lex(a, b) == Equal <==> a == b
    ensures Lex(a, b) == Less <==> Lex(b, a) == Greater
    decreases |a|
  {
    if a != [] && b != [] {
      LexEqual(a[1..], b[1..]);
      assert a == [a[0]] + a[1..] && b == [b[0]] + b[1..];
    }
  }

  lemma {:induction false} LexTransitive(a: Key, b: Key, c: Key)
    requires Lex(a, b) == Less && Lex(b, c) == Less
    ensures Lex(a, c) == Less
    decreases |a|
  {
    if a != [] && a[0] == b[0] == c[0] {
      LexTransitive(a[1..], b[1..], c[1..]);
    }
  }

  /** Up to `n` the keys agree, and there the first one ends or has the lower byte. */
  ghost predicate LowerAt(a: Key, b: Key, n: nat) {
    && n <= |a| && n < |b| && a[..n] == b[..n]
    && (n == |a| || a[n] < b[n])
  }

  /** What byte order is: the first difference decides, and a key goes before its extensions. */
  lemma {:induction false} LexDecides(a: Key, b: Key)
    ensures Lex(a, b) == Less <==> exists n: nat :: LowerAt(a, b, n)
    decreases |a|
  {
    if a != [] && b != [] && a[0] == b[0] {
      LexDecides(a[1..], b[1..]);
      if Lex(a[1..], b[1..]) == Less {
        var n: nat :| LowerAt(a[1..], b[1..], n);
        FirstSame(a, b, n);
      }
      forall n: nat | LowerAt(a, b, n)
        ensures LowerAt(a[1..], b[1..], n - 1)
      {
        FirstSame(a, b, n - 1);
      }
    } else if a == [] && b != [] {
      assert LowerAt(a, b, 0);
    } else if a != [] && b != [] && a[0] < b[0] {
      assert LowerAt(a, b, 0);
    }
  }

  lemma FirstSame(a: Key, b: Key, n: nat)
    requires a != [] && b != [] && a[0] == b[0]
    ensures LowerAt(a[1..], b[1..], n) <==> LowerAt(a, b, n + 1)
  {
    if n + 1 <= |a| && n + 1 <= |b| {
      var u, v := a[1..][..n], b[1..][..n];
      assert a[..n + 1] == [a[0]] + u && b[..n + 1] == [b[0]] + v;
      assert ([a[0]] + u)[1..] == u && ([b[0]] + v)[1..] == v;
    }
  }

  /** The first `n` bytes, big-endian, padded with zeros. */
  function Leading(key: Key, n: nat): (d: nat)
    ensures d < Pow256(n)
    decreases n
  {
    if n == 0 then 0
    else if key == [] then 0
    else
      Shifted(key[0], Pow256(n - 1));
      key[0] * Pow256(n - 1) + Leading(key[1..], n - 1)
  }

  lemma Shifted(b: Byte, p: nat)
    ensures 0 <= b * p <= 255 * p
  {
  }

  /** Keys in order have leading bytes in order. */
  lemma {:induction false} LeadingFollows(a: Key, b: Key, n: nat)
    requires Lex(a, b) != Greater
    ensures Leading(a, n) <= Leading(b, n)
    decreases n
  {
    if n > 0 && a != [] {
      var p := Pow256(n - 1);
      if a[0] == b[0] {
        LeadingFollows(a[1..], b[1..], n - 1);
      } else {
        HigherByte(a[0], b[0], p);
      }
    }
  }

  lemma HigherByte(x: Byte, y: Byte, p: nat)
    requires x < y
    ensures x * p + p <= y * p
  {
    var more: nat := y - x - 1;
    assert y * p == (x + 1 + more) * p == x * p + p + more * p;
  }

  lemma {:induction false} PrefixIsLess(k: Key, tail: Key)
    ensures Lex(k, k + tail) != Greater
  {
    if k != [] {
      PrefixIsLess(k[1..], tail);
      assert (k + tail)[1..] == k[1..] + tail;
    }
  }

  /** The digest of a byte-ordered key. */
  function AsciiDigest(key: Key): U64 {
    Widths();
    Leading(key, 8)
  }

  function ByteOrZero(key: Key, i: nat): Byte {
    if i < |key| then key[i] else 0
  }

  /** Byte by byte from the top: the byte of the key, or nought where the key is shorter. */
  lemma AsciiDigestIs(key: Key)
    ensures AsciiDigest(key) ==
            ByteOrZero(key, 0) * 0x100_0000_0000_0000 + ByteOrZero(key, 1) * 0x1_0000_0000_0000
            + ByteOrZero(key, 2) * 0x100_0000_0000 + ByteOrZero(key, 3) * 0x1_0000_0000
            + ByteOrZero(key, 4) * 0x100_0000 + ByteOrZero(key, 5) * 0x1_0000
            + ByteOrZero(key, 6) * 0x100 + ByteOrZero(key, 7)
  {
    AllWidths();
    LeadingStep(key, 0, 7);
    LeadingStep(key, 1, 6);
    LeadingStep(key, 2, 5);
    LeadingStep(key, 3, 4);
    LeadingStep(key, 4, 3);
    LeadingStep(key, 5, 2);
    LeadingStep(key, 6, 1);
    LeadingStep(key, 7, 0);
  }

  lemma AllWidths()
    ensures Pow256(0) == 1 && Pow256(1) == 0x100 && Pow256(2) == 0x1_0000 && Pow256(3) == 0x100_0000
    ensures Pow256(4) == 0x1_0000_0000 && Pow256(5) == 0x100_0000_0000
    ensures Pow256(6) == 0x1_0000_0000_0000 && Pow256(7) == 0x100_0000_0000_0000
  {
    Widths();
  }

  function From(key: Key, i: nat): Key {
    if i <= |key| then key[i..] else []
  }

  lemma LeadingStep(key: Key, i: nat, n: nat)
    ensures Leading(From(key, i), n + 1) == ByteOrZero(key, i) * Pow256(n) + Leading(From(key, i + 1), n)
  {
    if i < |key| {
      assert key[i..][1..] == key[i + 1..];
    }
  }

  // ---------------------------------------------------------------- keys in parts

  /** Of keys in parts of one length each, the first parts that differ decide. */
  lemma {:induction false} LexInParts(a: Key, b: Key, c: Key, d: Key)
    requires |a| == |b|
    ensures Lex(a + c, b + d) == if a == b then Lex(c, d) else Lex(a, b)
    decreases |a|
  {
    if a == [] {
      assert a + c == c && b + d == d;
    } else {
      assert (a + c)[1..] == a[1..] + c && (b + d)[1..] == b[1..] + d;
      LexInParts(a[1..], b[1..], c, d);
      assert a == [a[0]] + a[1..] && b == [b[0]] + b[1..];
    }
  }

  /** Keys of one length are in order as the numbers they are, read from the top. */
  lemma {:induction false} LexIsNumber(a: Key, b: Key)
    requires |a| == |b|
    ensures Lex(a, b) == CompareInts(Leading(a, |a|), Leading(b, |b|))
    decreases |a|
  {
    if a != [] {
      LexIsNumber(a[1..], b[1..]);
      var p := Pow256(|a| - 1);
      if a[0] < b[0] {
        HigherByte(a[0], b[0], p);
      } else if b[0] < a[0] {
        HigherByte(b[0], a[0], p);
      }
    }
  }

  lemma {:induction false} LeadingInParts(a: Key, b: Key, n: nat)
    ensures Leading(a + b, |a| + n) == Leading(a, |a|) * Pow256(n) + Leading(b, n)
    decreases |a|
  {
    if a == [] {
      assert a + b == b;
    } else {
      assert (a + b)[1..] == a[1..] + b;
      LeadingInParts(a[1..], b, n);
      PowAdds(|a| - 1, n);
      Distributes(a[0], Pow256(|a| - 1), Leading(a[1..], |a| - 1), Pow256(n));
    }
  }

  lemma Distributes(x: nat, p: nat, y: nat, q: nat)
    ensures (x * p + y) * q == x * (p * q) + y * q
  {
  }

  lemma {:induction false} PowAdds(m: nat, n: nat)
    ensures Pow256(m + n) == Pow256(m) * Pow256(n)
  {
    if m > 0 {
      PowAdds(m - 1, n);
    }
  }

  /** Puts in one byte after the other, each below the last. */
  method AsciiDigestBytes(key: Key) returns (digest: U64)
    ensures digest == AsciiDigest(key)
  {
    Widths();
    digest := 0;
    var i := 0;
    while i < 8 && i < |key|
      invariant i <= 8 && i <= |key| && digest + Leading(key[i..], 8 - i) == AsciiDigest(key)
    {
      assert key[i..][1..] == key[i + 1..];
      assert Leading(key[i..], 8 - i) == key[i] * Pow256(7 - i) + Leading(key[i + 1..], 7 - i);
      digest := digest + key[i] * Pow256(7 - i);
      i := i + 1;
    }
    assert i == |key| ==> key[i..] == [];
  }

  // ---------------------------------------------------------------- prefixes

  /** The key starts with these bytes. */
  predicate StartsWith(k: Key, prefix: Key) {
    |prefix| <= |k| && k[..|prefix|] == prefix
  }

  /** Where the keys with a prefix end: the last byte that can be raised, raised; none if there is none. */
  method PrefixEnd(prefix: Key) returns (end: Option<Key>)
    ensures forall k :: StartsWith(k, prefix) <==>
                          Lex(k, prefix) != Less && (end.Some? ==> Lex(k, end.value) == Less)
  {
    var n: nat := |prefix|;
    while n > 0 && prefix[n - 1] == 0xFF
      invariant n <= |prefix| && forall i :: n <= i < |prefix| ==> prefix[i] == 0xFF
    {
      n := n - 1;
    }
    if n == 0 {
      forall k
        ensures StartsWith(k, prefix) <==> Lex(k, prefix) != Less
      {
        AllHighest(k, prefix);
      }
      return None;
    }
    var raised := prefix[..n - 1] + [prefix[n - 1] + 1];
    forall k
      ensures StartsWith(k, prefix) <==> Lex(k, prefix) != Less && Lex(k, raised) == Less
    {
      Raised(k, prefix, n, raised);
    }
    return Some(raised);
  }

  lemma {:induction false} AllHighest(k: Key, prefix: Key)
    requires forall i :: 0 <= i < |prefix| ==> prefix[i] == 0xFF
    ensures StartsWith(k, prefix) <==> Lex(k, prefix) != Less
    decreases |prefix|
  {
    if prefix == [] {
    } else if k != [] && k[0] == prefix[0] {
      AllHighest(k[1..], prefix[1..]);
      Rest(k, prefix);
    }
  }

  lemma Rest(k: Key, prefix: Key)
    requires k != [] && prefix != [] && k[0] == prefix[0]
    ensures StartsWith(k, prefix) <==> StartsWith(k[1..], prefix[1..])
  {
    if |prefix| <= |k| {
      assert k[..|prefix|] == [k[0]] + k[1..][..|prefix| - 1];
      assert prefix == [prefix[0]] + prefix[1..];
    }
  }

  lemma {:induction false} Raised(k: Key, prefix: Key, n: nat, raised: Key)
    requires 0 < n <= |prefix| && prefix[n - 1] < 0xFF && raised == prefix[..n - 1] + [prefix[n - 1] + 1]
    requires forall i :: n <= i < |prefix| ==> prefix[i] == 0xFF
    ensures StartsWith(k, prefix) <==> Lex(k, prefix) != Less && Lex(k, raised) == Less
    decreases n
  {
    if k != [] && k[0] == prefix[0] {
      Rest(k, prefix);
      if n == 1 {
        AllHighest(k[1..], prefix[1..]);
      } else {
        assert raised[1..] == prefix[1..][..n - 2] + [prefix[1..][n - 2] + 1];
        Raised(k[1..], prefix[1..], n - 1, raised[1..]);
      }
    }
  }
}

/** The built-in encodings, and that each keeps the laws trees rely on. */
module KeyEncodings {
  import opened Base
  import opened Bytes
  import opened ByteOrder
  import opened Encodings

  // ---------------------------------------------------------------- byte-ordered keys

  /** Keys of any bytes (`ascii`), or of a fixed number of them (`ulid`). */
  function ByteKeys(length: Option<nat>): Encoding {
    Encoding(
      (k: Key) => true,
      (k: Key) => length.Some? ==> |k| == length.value,
      (a: Key, b: Key) => Lex(a, b),
      (k: Key) => AsciiDigest(k),
      (k: Key, stored: U64) => AsciiDigest(k) == stored,
      false, false, (d: U64) => None)
  }

  /** Keys are in byte order, and the digest holds their first bytes. */
  lemma ByteKeysOrder(length: Option<nat>, a: Key, b: Key)
    ensures ByteKeys(length).compare(a, b) == Less <==> exists n: nat :: LowerAt(a, b, n)
    ensures ByteKeys(length).compare(a, b) == Equal <==> a == b
    ensures ByteKeys(length).digest(a) == Leading(a, 8)
  {
    LexDecides(a, b);
    LexEqual(a, b);
  }

  lemma ByteKeysLawful(length: Option<nat>)
    ensures Lawful(ByteKeys(length)) && ValidKeysAreReadable(ByteKeys(length)) && Stretches(ByteKeys(length))
  {
    forall a, b
      ensures (Lex(a, b) == Equal <==> a == b) && (Lex(a, b) == Less <==> Lex(b, a) == Greater)
      ensures Lex(a, b) == Less ==> AsciiDigest(a) <= AsciiDigest(b)
    {
      LexEqual(a, b);
      if Lex(a, b) == Less {
        LeadingFollows(a, b, 8);
      }
    }
    forall a, b, c | Lex(a, b) == Less && Lex(b, c) == Less
      ensures Lex(a, c) == Less
    {
      LexTransitive(a, b, c);
    }
    forall k: Key, tail: Key
      ensures AsciiDigest(k) <= AsciiDigest(k + tail)
    {
      PrefixIsLess(k, tail);
      LeadingFollows(k, k + tail, 8);
    }
  }

  /** Longer keys do not have lower digests. */
  ghost predicate Stretches(e: Encoding) {
    forall k: Key, tail: Key :: e.readable(k) && e.readable(k + tail) ==> e.digest(k) <= e.digest(k + tail)
  }

  /** Keys of one length only have no longer ones. */
  lemma FixedStretches(e: Encoding, n: nat)
    requires forall k :: e.readable(k) ==> |k| == n
    ensures Stretches(e)
  {
    forall k: Key, tail: Key | e.readable(k) && e.readable(k + tail)
      ensures e.digest(k) <= e.digest(k + tail)
    {
      assert k + tail == k;
    }
  }

  // ---------------------------------------------------------------- numbers

  /** The bytes are the number. */
  lemma {:induction false} BytesAreNumber(a: Key, at: nat, b: Key, bt: nat, w: nat)
    requires at + w <= |a| && bt + w <= |b| && FromLe(a, at, w) == FromLe(b, bt, w)
    ensures a[at..at + w] == b[bt..bt + w]
    decreases w
  {
    if w > 0 {
      BytesAreNumber(a, at + 1, b, bt + 1, w - 1);
      assert a[at..at + w] == [a[at]] + a[at + 1..at + w];
      assert b[bt..bt + w] == [b[bt]] + b[bt + 1..bt + w];
    }
  }

  /** Eight bytes as an unsigned number. */
  function Number(k: Key): (n: U64)
    requires |k| == 8
  {
    Widths();
    FromLeBound(k, 0, 8);
    FromLe(k, 0, 8)
  }

  const HALF: int := 0x8000_0000_0000_0000

  function Signed(n: U64): int {
    if n >= HALF then n - 2 * HALF else n
  }

  /** The number with its sign bit flipped. */
  function Flipped(n: U64): U64 {
    if n >= HALF then n - HALF else n + HALF
  }

  function CompareNumbers(a: Key, b: Key): Ordering
    requires |a| == 8 && |b| == 8
  {
    CompareInts(Signed(Number(a)), Signed(Number(b)))
  }

  function IntDigest(k: Key): U64
    requires |k| == 8
  {
    Flipped(Number(k))
  }

  function IntKey(digest: U64): (k: Key)
    ensures |k| == 8
  {
    Le(Flipped(digest), 8)
  }

  /** Signed numbers, little-endian (`i64`). */
  function IntKeys(): Encoding {
    Encoding(
      (k: Key) => |k| == 8,
      (k: Key) => |k| == 8,
      (a: Key, b: Key) => if |a| == 8 && |b| == 8 then CompareNumbers(a, b) else Equal,
      (k: Key) => if |k| == 8 then IntDigest(k) else 0,
      (k: Key, stored: U64) => |k| == 8 && IntDigest(k) == stored,
      true, true, (d: U64) => Some(IntKey(d)))
  }

  lemma NumberIs(a: Key, b: Key)
    requires |a| == 8 && |b| == 8
    ensures Number(a) == Number(b) <==> a == b
  {
    if Number(a) == Number(b) {
      BytesAreNumber(a, 0, b, 0, 8);
      assert a[0..8] == a && b[0..8] == b;
    }
  }

  lemma NumberOfBytes(n: U64)
    ensures Number(Le(n, 8)) == n
  {
    Widths();
    var b := Le(n, 8);
    assert b[0..8] == b;
    LeReadsBack(b, 0, n, 8);
  }

  lemma IntOrder(a: Key, b: Key)
    requires |a| == 8 && |b| == 8
    ensures CompareNumbers(a, b) == Equal <==> a == b
    ensures CompareNumbers(a, b) == Less <==> CompareNumbers(b, a) == Greater
    ensures CompareNumbers(a, b) == Less <==> IntDigest(a) < IntDigest(b)
  {
    NumberIs(a, b);
  }

  lemma IntKeyIs(digest: U64)
    ensures IntDigest(IntKey(digest)) == digest
  {
    NumberOfBytes(Flipped(digest));
  }

  /** A number as it is written: two's complement, the lowest byte first. */
  function IntBytes(x: int): (k: Key)
    requires -HALF <= x < HALF
    ensures |k| == 8
  {
    Le(x % (2 * HALF), 8)
  }

  /** The eight bytes, each worth 256 times the one before. */
  lemma NumberIsBytes(k: Key)
    requires |k| == 8
    ensures Number(k) ==
            k[0] as int + k[1] as int * 0x100 + k[2] as int * 0x1_0000 + k[3] as int * 0x100_0000
            + k[4] as int * 0x1_0000_0000 + k[5] as int * 0x100_0000_0000
            + k[6] as int * 0x1_0000_0000_0000 + k[7] as int * 0x100_0000_0000_0000
  {
    assert FromLe(k, 8, 0) == 0;
    assert FromLe(k, 6, 2) == k[6] as int + 256 * k[7] as int;
    assert FromLe(k, 4, 4) == k[4] + 256 * (k[5] + 256 * FromLe(k, 6, 2));
    assert FromLe(k, 2, 6) == k[2] + 256 * (k[3] + 256 * FromLe(k, 4, 4));
    assert FromLe(k, 0, 8) == k[0] + 256 * (k[1] + 256 * FromLe(k, 2, 6));
  }

  /** Keys are in the order of the numbers they are written for, digests count from the least of them, and a key is
      rebuilt to the same bytes. */
  lemma IntKeysOrder(x: int, y: int)
    requires -HALF <= x < HALF && -HALF <= y < HALF
    ensures IntKeys().compare(IntBytes(x), IntBytes(y)) == CompareInts(x, y)
    ensures IntKeys().digest(IntBytes(x)) == x + HALF
    ensures IntKeys().rebuild(x + HALF) == Some(IntBytes(x))
  {
    NumberOfBytes(x % (2 * HALF));
    NumberOfBytes(y % (2 * HALF));
    Wraps(x);
    Wraps(y);
  }

  lemma Wraps(x: int)
    requires -HALF <= x < HALF
    ensures x % (2 * HALF) == if x < 0 then x + 2 * HALF else x
  {
  }

  /** Every key of eight bytes is written for a number. */
  lemma EveryIntKey(k: Key) returns (x: int)
    requires |k| == 8
    ensures -HALF <= x < HALF && IntBytes(x) == k
  {
    x := Signed(Number(k));
    Wraps(x);
    NumberOfBytes(Number(k));
    NumberIs(IntBytes(x), k);
  }

  lemma IntKeysLawful()
    ensures Lawful(IntKeys()) && ValidKeysAreReadable(IntKeys()) && Stretches(IntKeys())
  {
    forall a, b | |a| == 8 && |b| == 8
      ensures CompareNumbers(a, b) == Equal <==> a == b
      ensures CompareNumbers(a, b) == Less <==> CompareNumbers(b, a) == Greater
      ensures CompareNumbers(a, b) == Less <==> IntDigest(a) < IntDigest(b)
    {
      IntOrder(a, b);
    }
    forall d: U64
      ensures IntDigest(IntKey(d)) == d
    {
      IntKeyIs(d);
    }
    FixedStretches(IntKeys(), 8);
  }

  // ---------------------------------------------------------------- uuids

  function FieldsOf(k: Key): (f: (nat, nat, nat))
    requires |k| == 16
    ensures f.0 < 0x1_0000_0000 && f.1 < 0x1_0000 && f.2 < 0x1_0000
  {
    Widths();
    FromLeBound(k, 0, 4);
    FromLeBound(k, 4, 2);
    FromLeBound(k, 6, 2);
    (FromLe(k, 0, 4), FromLe(k, 4, 2), FromLe(k, 6, 2))
  }

  function Then(first: Ordering, second: Ordering): Ordering {
    if first != Equal then first else second
  }

  function CompareUuids(a: Key, b: Key): Ordering
    requires |a| == 16 && |b| == 16
  {
    var (a0, a1, a2) := FieldsOf(a);
    var (b0, b1, b2) := FieldsOf(b);
    Then(CompareInts(a0, b0), Then(CompareInts(a1, b1), Then(CompareInts(a2, b2), Lex(a[8..], b[8..]))))
  }

  function UuidDigest(k: Key): U64
    requires |k| == 16
  {
    var (a, b, c) := FieldsOf(k);
    a * 0x1_0000_0000 + b * 0x1_0000 + c
  }

  /** The bytes in the order they are written in text, which is the order of RFC 4122. */
  function Canonical(k: Key): (c: Key)
    requires |k| == 16
    ensures |c| == 16
  {
    [k[3], k[2], k[1], k[0], k[5], k[4], k[7], k[6]] + k[8..]
  }

  /** The layouts are turned into each other by the same exchange of bytes. */
  lemma CanonicalTwice(k: Key)
    requires |k| == 16
    ensures Canonical(Canonical(k)) == k
  {
  }

  /** A field and the bytes it stands for, read from the top. */
  lemma FieldsAreCanonical(k: Key)
    requires |k| == 16
    ensures var (a, b, c) := FieldsOf(k);
            && a == Leading([k[3], k[2], k[1], k[0]], 4)
            && b == Leading([k[5], k[4]], 2)
            && c == Leading([k[7], k[6]], 2)
  {
    AllWidths();
    TwoBytes(k, 2);
    TwoBytes(k, 4);
    TwoBytes(k, 6);
    assert FromLe(k, 0, 4) == k[0] + 256 * (k[1] + 256 * FromLe(k, 2, 2));
    var four := [k[3], k[2], k[1], k[0]];
    assert four[1..] == [k[2], k[1], k[0]] && four[1..][1..] == [k[1], k[0]];
    assert Leading(four, 4) == k[3] * Pow256(3) + (k[2] * Pow256(2) + Leading([k[1], k[0]], 2));
    TwoLeading(k[1], k[0]);
  }

  lemma TwoBytes(k: Key, at: nat)
    requires at + 2 <= |k|
    ensures FromLe(k, at, 2) == k[at] as int + 256 * k[at + 1] as int == Leading([k[at + 1], k[at]], 2)
  {
    assert FromLe(k, at + 1, 1) == k[at + 1] + 256 * FromLe(k, at + 2, 0);
    TwoLeading(k[at + 1], k[at]);
  }

  lemma TwoLeading(x: Byte, y: Byte)
    ensures Leading([x, y], 2) == 256 * x as int + y as int
  {
    assert [x, y][1..] == [y];
    assert Leading([y], 1) == y * Pow256(0) + Leading([y][1..], 0);
    assert Pow256(1) == 256 * Pow256(0);
  }

  /** UUIDs are in byte order of their canonical form, and the digest is its first eight bytes. */
  lemma UuidsAreCanonical(a: Key, b: Key)
    requires |a| == 16 && |b| == 16
    ensures UuidKeys().compare(a, b) == Lex(Canonical(a), Canonical(b))
    ensures UuidKeys().digest(a) == Leading(Canonical(a), 8)
  {
    var (a0, a1, a2, a3) := ([a[3], a[2], a[1], a[0]], [a[5], a[4]], [a[7], a[6]], a[8..]);
    var (b0, b1, b2, b3) := ([b[3], b[2], b[1], b[0]], [b[5], b[4]], [b[7], b[6]], b[8..]);
    FieldsAreCanonical(a);
    FieldsAreCanonical(b);
    assert Canonical(a) == a0 + (a1 + (a2 + a3)) && Canonical(b) == b0 + (b1 + (b2 + b3));
    LexInParts(a0, b0, a1 + (a2 + a3), b1 + (b2 + b3));
    LexInParts(a1, b1, a2 + a3, b2 + b3);
    LexInParts(a2, b2, a3, b3);
    SameNumber(a0, b0);
    SameNumber(a1, b1);
    SameNumber(a2, b2);
    UuidDigestIs(a0, a1, a2, a3);
  }

  lemma SameNumber(a: Key, b: Key)
    requires |a| == |b|
    ensures Lex(a, b) == CompareInts(Leading(a, |a|), Leading(b, |b|))
    ensures a == b <==> Leading(a, |a|) == Leading(b, |b|)
  {
    LexIsNumber(a, b);
    LexEqual(a, b);
  }

  lemma UuidDigestIs(a0: Key, a1: Key, a2: Key, a3: Key)
    requires |a0| == 4 && |a1| == 2 && |a2| == 2
    ensures Leading(a0 + (a1 + (a2 + a3)), 8) ==
            Leading(a0, 4) * 0x1_0000_0000 + Leading(a1, 2) * 0x1_0000 + Leading(a2, 2)
  {
    AllWidths();
    LeadingInParts(a0, a1 + (a2 + a3), 4);
    LeadingInParts(a1, a2 + a3, 2);
    LeadingInParts(a2, a3, 0);
  }

  /** UUIDs with their first three fields little-endian (`uuidv7`). */
  function UuidKeys(): Encoding {
    Encoding(
      (k: Key) => |k| == 16,
      (k: Key) => |k| == 16,
      (a: Key, b: Key) => if |a| == 16 && |b| == 16 then CompareUuids(a, b) else Equal,
      (k: Key) => if |k| == 16 then UuidDigest(k) else 0,
      (k: Key, stored: U64) => |k| == 16 && UuidDigest(k) == stored,
      false, false, (d: U64) => None)
  }

  lemma UuidOrder(a: Key, b: Key)
    requires |a| == 16 && |b| == 16
    ensures CompareUuids(a, b) == Equal <==> a == b
    ensures CompareUuids(a, b) == Less <==> CompareUuids(b, a) == Greater
    ensures CompareUuids(a, b) == Less ==> UuidDigest(a) <= UuidDigest(b)
  {
    LexEqual(a[8..], b[8..]);
    if FieldsOf(a) == FieldsOf(b) && a[8..] == b[8..] {
      BytesAreNumber(a, 0, b, 0, 4);
      BytesAreNumber(a, 4, b, 4, 2);
      BytesAreNumber(a, 6, b, 6, 2);
      assert a == a[0..4] + a[4..6] + a[6..8] + a[8..];
      assert b == b[0..4] + b[4..6] + b[6..8] + b[8..];
    }
  }

  lemma UuidTransitive(a: Key, b: Key, c: Key)
    requires |a| == 16 && |b| == 16 && |c| == 16
    requires CompareUuids(a, b) == Less && CompareUuids(b, c) == Less
    ensures CompareUuids(a, c) == Less
  {
    if FieldsOf(a) == FieldsOf(b) == FieldsOf(c) {
      LexTransitive(a[8..], b[8..], c[8..]);
    }
  }

  lemma UuidKeysLawful()
    ensures Lawful(UuidKeys()) && ValidKeysAreReadable(UuidKeys()) && Stretches(UuidKeys())
  {
    var e := UuidKeys();
    forall a, b | |a| == 16 && |b| == 16
      ensures CompareUuids(a, b) == Equal <==> a == b
      ensures CompareUuids(a, b) == Less <==> CompareUuids(b, a) == Greater
      ensures CompareUuids(a, b) == Less ==> UuidDigest(a) <= UuidDigest(b)
    {
      UuidOrder(a, b);
    }
    forall a, b, c | |a| == 16 && |b| == 16 && |c| == 16 && CompareUuids(a, b) == Less && CompareUuids(b, c) == Less
      ensures CompareUuids(a, c) == Less
    {
      UuidTransitive(a, b, c);
    }
    FixedStretches(e, 16);
  }
}

/** Keys of a non-unique index: the index key, and behind it the record id that keeps duplicates apart. */
module Composites {
  import opened Base
  import opened Bytes
  import opened Encodings
  import opened KeyEncodings

  const RID_LEN: nat := 4
  const MAX_RID: int := 0x7FFF_FFFF

  type Rid = r: int | 0 <= r <= 0x7FFF_FFFF

  function Compose(source: Key, rid: Rid): (k: Key)
    ensures |k| == |source| + RID_LEN
  {
    source + Le(rid, RID_LEN)
  }

  /** The index key and the record id, unless there is none or it is negative. */
  function Split(k: Key): Option<(Key, Rid)> {
    if |k| < RID_LEN then None
    else
      var n := |k| - RID_LEN;
      var rid := FromLe(k, n, RID_LEN);
      if rid > MAX_RID then None else Some((k[..n], rid))
  }

  lemma SplitComposed(source: Key, rid: Rid)
    ensures Split(Compose(source, rid)) == Some((source, rid))
  {
    var k := Compose(source, rid);
    Widths();
    assert k[|source|..|source| + RID_LEN] == Le(rid, RID_LEN);
    LeReadsBack(k, |source|, rid, RID_LEN);
  }

  /** A composite key is nothing but its two parts. */
  lemma ComposeSplit(k: Key)
    requires Split(k).Some?
    ensures Compose(Split(k).value.0, Split(k).value.1) == k
  {
    var (source, rid) := Split(k).value;
    var k' := Compose(source, rid);
    SplitComposed(source, rid);
    var n := |source|;
    BytesAreNumber(k, n, k', n, RID_LEN);
    assert k == k[..n] + k[n..n + RID_LEN] && k' == k'[..n] + k'[n..n + RID_LEN];
  }

  function CompareParts(e: Encoding, a: (Key, Rid), b: (Key, Rid)): Ordering {
    Then(e.compare(a.0, b.0), CompareInts(a.1, b.1))
  }

  function SourceDigest(e: Encoding, k: Key): U64 {
    if Split(k).Some? then e.digest(Split(k).value.0) else 0
  }

  function Composite(e: Encoding): Encoding {
    Encoding(
      (k: Key) => Split(k).Some? && e.readable(Split(k).value.0),
      (k: Key) => Split(k).Some? && e.wellFormed(Split(k).value.0),
      (a: Key, b: Key) =>
        if Split(a).Some? && Split(b).Some? then CompareParts(e, Split(a).value, Split(b).value) else Equal,
      (k: Key) => SourceDigest(e, k),
      (k: Key, stored: U64) =>
        Split(k).Some? && (SourceDigest(e, k) == stored || (e.readable(k) && e.digest(k) == stored)),
      false, e.rebuilds,
      (d: U64) => if e.rebuild(d).Some? then Some(Compose(e.rebuild(d).value, 0)) else None)
  }

  lemma PartsOrder(e: Encoding, a: (Key, Rid), b: (Key, Rid))
    requires TotalOrder(e) && e.readable(a.0) && e.readable(b.0)
    ensures CompareParts(e, a, b) == Equal <==> a == b
    ensures CompareParts(e, a, b) == Less <==> CompareParts(e, b, a) == Greater
  {
    assert e.compare(b.0, a.0) == Less <==> e.compare(a.0, b.0) == Greater;
  }

  lemma SameParts(a: Key, b: Key)
    requires Split(a).Some? && Split(b).Some?
    ensures Split(a) == Split(b) <==> a == b
  {
    ComposeSplit(a);
    ComposeSplit(b);
  }

  lemma CompositeOrder(e: Encoding)
    requires Lawful(e)
    ensures TotalOrder(Composite(e)) && DigestFollowsOrder(Composite(e))
  {
    var c := Composite(e);
    forall a, b | c.readable(a) && c.readable(b)
      ensures (c.compare(a, b) == Equal <==> a == b) && (c.compare(a, b) == Less <==> c.compare(b, a) == Greater)
      ensures c.compare(a, b) == Less ==> c.digest(a) <= c.digest(b)
    {
      SameParts(a, b);
      PartsOrder(e, Split(a).value, Split(b).value);
    }
    forall x, y, z | c.readable(x) && c.readable(y) && c.readable(z) && c.compare(x, y) == Less
      && c.compare(y, z) == Less
      ensures c.compare(x, z) == Less
    {
      PartsTransitive(e, Split(x).value, Split(y).value, Split(z).value);
    }
  }

  lemma PartsTransitive(e: Encoding, a: (Key, Rid), b: (Key, Rid), c: (Key, Rid))
    requires TotalOrder(e) && e.readable(a.0) && e.readable(b.0) && e.readable(c.0)
    requires CompareParts(e, a, b) == Less && CompareParts(e, b, c) == Less
    ensures CompareParts(e, a, c) == Less
  {
  }

  lemma ComposedIs(e: Encoding, k: Key, rid: Rid)
    requires e.readable(k) && e.wellFormed(k)
    ensures var c := Composite(e);
            && c.readable(Compose(k, rid)) && c.wellFormed(Compose(k, rid)) && c.digest(Compose(k, rid)) == e.digest(k)
            && c.accepts(Compose(k, rid), e.digest(k))
  {
    SplitComposed(k, rid);
  }

  /** By index key, and among equal ones by record id. */
  lemma ComposedCompares(e: Encoding, a: Key, x: Rid, b: Key, y: Rid)
    ensures Composite(e).compare(Compose(a, x), Compose(b, y)) == CompareParts(e, (a, x), (b, y))
    ensures Composite(e).compare(Compose(a, x), Compose(b, y)) ==
            if e.compare(a, b) == Equal then CompareInts(x, y) else e.compare(a, b)
  {
    SplitComposed(a, x);
    SplitComposed(b, y);
  }

  /** Which keys there are: an index key and a record id behind it, and nothing else. */
  lemma ComposedOnly(e: Encoding, k: Key)
    ensures Composite(e).readable(k) <==>
              exists source: Key, rid: Rid :: k == Compose(source, rid) && e.readable(source)
    ensures Composite(e).wellFormed(k) <==>
              exists source: Key, rid: Rid :: k == Compose(source, rid) && e.wellFormed(source)
  {
    if Split(k).Some? {
      ComposeSplit(k);
    }
    forall source: Key, rid: Rid | k == Compose(source, rid)
      ensures Split(k) == Some((source, rid))
    {
      SplitComposed(source, rid);
    }
  }

  /** A key with a record id behind it, where it is a key as well, does not have a lower digest. */
  ghost predicate RidsDigestHigher(e: Encoding) {
    forall k: Key, rid: Rid ::
      e.readable(k) && e.readable(Compose(k, rid)) ==> e.digest(k) <= e.digest(Compose(k, rid))
  }

  /** Appending record ids keeps the laws, with either digest accepted on a page, exactly when the digest
      of the whole key never falls behind. */
  lemma CompositeLawful(e: Encoding)
    requires Lawful(e)
    ensures Lawful(Composite(e)) <==> RidsDigestHigher(e)
  {
    var c := Composite(e);
    CompositeOrder(e);
    if RidsDigestHigher(e) {
      forall k, stored | c.readable(k) && c.accepts(k, stored)
        ensures c.digest(k) <= stored
      {
        ComposeSplit(k);
      }
    }
    forall k: Key, rid: Rid | AcceptsNoLower(c) && e.readable(k) && e.readable(Compose(k, rid))
      ensures e.digest(k) <= e.digest(Compose(k, rid))
    {
      SplitComposed(k, rid);
      var key := Compose(k, rid);
      assert c.accepts(key, e.digest(key));
    }
    forall d: U64 | e.rebuild(d).Some?
      ensures Split(Compose(e.rebuild(d).value, 0)) == Some((e.rebuild(d).value, 0))
    {
      SplitComposed(e.rebuild(d).value, 0);
    }
  }

  /** Every built-in encoding can be indexed without being unique. */
  lemma BuiltInComposites(length: Option<nat>)
    ensures Lawful(Composite(ByteKeys(length))) && Lawful(Composite(IntKeys())) && Lawful(Composite(UuidKeys()))
  {
    ByteKeysLawful(length);
    CompositeLawful(ByteKeys(length));
    IntKeysLawful();
    CompositeLawful(IntKeys());
    UuidKeysLawful();
    CompositeLawful(UuidKeys());
  }
}
