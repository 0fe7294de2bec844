/**
 One shard of the page cache: a table of pages, the CLOCK ring that decides which of them go, and the
 charge that pays for both. Everything here happens with the shard locked.
 */
module Shards {
  import opened Base

  // ---------------------------------------------------------------- what a ring costs

  const RING_MIN_CAPACITY: nat := 4

  function RingBytes(capacity: nat): nat {
    8 * capacity
  }

  function Doubled(capacity: nat): nat {
    if 2 * capacity < RING_MIN_CAPACITY then RING_MIN_CAPACITY else 2 * capacity
  }

  /** What a ring of this capacity has become once it holds `entries`. */
  function Grown(capacity: nat, entries: nat): (g: nat)
    ensures g >= capacity && g >= entries
    decreases if capacity < entries then entries - capacity else 0
  {
    if capacity >= entries then capacity else Grown(Doubled(capacity), entries)
  }

  /** What that costs, both buffers counted while the last growth moves the entries. */
  function RingTarget(capacity: nat, entries: nat): nat {
    if entries <= capacity then RingBytes(capacity)
    else RingBytes(Grown(capacity, entries)) + RingBytes(Grown(capacity, entries) / 2)
  }

  method RingTargetBytes(capacity: nat, entries: nat) returns (bytes: nat)
    ensures bytes == RingTarget(capacity, entries)
  {
    if entries <= capacity {
      return RingBytes(capacity);
    }
    var grown := capacity;
    while grown < entries
      invariant Grown(grown, entries) == Grown(capacity, entries)
    {
      grown := Doubled(grown);
    }
    bytes := RingBytes(grown) + RingBytes(grown / 2);
  }

  lemma {:induction false} GrownPassesDouble(capacity: nat, entries: nat)
    requires capacity < entries
    ensures Grown(capacity, entries) >= Doubled(capacity)
    ensures Grown(capacity, entries) / 2 >= capacity
  {
    assert Grown(capacity, entries) == Grown(Doubled(capacity), entries);
  }

  /** The step a full ring takes when an entry is pushed is covered: old buffer and new one together
      cost no more than was reserved, and neither does what comes after. */
  lemma PushIsCovered(capacity: nat, entries: nat)
    requires capacity < entries
    ensures RingBytes(capacity) + RingBytes(Doubled(capacity)) <= RingTarget(capacity, entries)
    ensures RingTarget(Doubled(capacity), entries) <= RingTarget(capacity, entries)
  {
    GrownPassesDouble(capacity, entries);
  }

  lemma {:induction false} GrownGrows(capacity: nat, a: nat, b: nat)
    requires a <= b
    ensures Grown(capacity, a) <= Grown(capacity, b)
    decreases if capacity < b then b - capacity else 0
  {
    if capacity < a {
      GrownGrows(Doubled(capacity), a, b);
    }
  }

  lemma TargetGrows(capacity: nat, a: nat, b: nat)
    requires a <= b
    ensures RingTarget(capacity, a) <= RingTarget(capacity, b)
  {
    GrownGrows(capacity, a, b);
  }

  // ---------------------------------------------------------------- what a table costs

  /** The least power of two that is at least `n`. */
  function PowerOfTwo(n: nat, from: nat): (p: nat)
    requires from > 0
    ensures p >= n && p >= from
    decreases if from < n then n - from else 0
  {
    if from >= n then from else PowerOfTwo(n, 2 * from)
  }

  lemma {:induction false} PowerGrows(a: nat, b: nat, from: nat)
    requires from > 0 && a <= b
    ensures PowerOfTwo(a, from) <= PowerOfTwo(b, from)
    decreases if from < b then b - from else 0
  {
    if from < a {
      PowerGrows(a, b, 2 * from);
    }
  }

  const HASH_GROUP: nat := 16

  function RoundUp(n: nat): nat {
    (n + HASH_GROUP - 1) / HASH_GROUP * HASH_GROUP
  }

  function Buckets(entries: nat): nat {
    var least := (entries * 8 + 6) / 7;
    PowerOfTwo(if least < 4 then 4 else least, 1)
  }

  /** What the smallest table for `entries` of `entry` bytes has allocated. */
  function TableBytes(entries: nat, entry: nat): nat {
    if entries == 0 then 0 else RoundUp(Buckets(entries) * (entry + 1) + HASH_GROUP)
  }

  lemma BucketsGrow(a: nat, b: nat)
    requires a <= b
    ensures Buckets(a) <= Buckets(b)
  {
    var x, y := (a * 8 + 6) / 7, (b * 8 + 6) / 7;
    PowerGrows(if x < 4 then 4 else x, if y < 4 then 4 else y, 1);
  }

  lemma ProductGrows(p: nat, q: nat, entry: nat)
    requires p <= q
    ensures p * (entry + 1) <= q * (entry + 1)
  {
  }

  lemma TableGrows(a: nat, b: nat, entry: nat)
    requires a <= b
    ensures TableBytes(a, entry) <= TableBytes(b, entry)
  {
    if 0 < a {
      BucketsGrow(a, b);
      var p, q := Buckets(a), Buckets(b);
      ProductGrows(p, q, entry);
      RoundUpGrows(p * (entry + 1) + HASH_GROUP, q * (entry + 1) + HASH_GROUP);
    }
  }

  lemma RoundUpGrows(x: nat, y: nat)
    requires x <= y
    ensures RoundUp(x) <= RoundUp(y)
  {
  }

  /** What a table that is the smallest for its entries says it can hold: seven buckets in eight. */
  function FullAt(entries: nat): nat {
    if entries == 0 then 0
    else if Buckets(entries) < 8 then Buckets(entries) - 1
    else Buckets(entries) / 8 * 7
  }

  lemma {:induction false} PowerAgain(n: nat, from: nat)
    requires from > 0
    ensures PowerOfTwo(PowerOfTwo(n, from), from) == PowerOfTwo(n, from)
    decreases if from < n then n - from else 0
  {
    if from < n {
      PowerAgain(n, 2 * from);
    }
  }

  lemma {:induction false} PowerFromEight(n: nat, from: nat, eighth: nat) returns (p: nat)
    requires from > 0 && from == 8 * eighth
    ensures PowerOfTwo(n, from) == 8 * p
    decreases if from < n then n - from else 0
  {
    if from < n {
      p := PowerFromEight(n, 2 * from, 2 * eighth);
    } else {
      p := eighth;
    }
  }

  lemma BucketsAreEights(entries: nat)
    ensures Buckets(entries) == 4 || Buckets(entries) % 8 == 0
  {
    var least := (entries * 8 + 6) / 7;
    var n := if least < 4 then 4 else least;
    assert PowerOfTwo(n, 1) == PowerOfTwo(n, 2) == PowerOfTwo(n, 4);
    var p := PowerFromEight(n, 8, 1);
  }

  /** The smallest table for what it says it can hold is the one for its entries. */
  lemma FullCostsTheSame(entries: nat, entry: nat)
    ensures FullAt(entries) >= entries && TableBytes(FullAt(entries), entry) == TableBytes(entries, entry)
  {
    if entries > 0 {
      var least := (entries * 8 + 6) / 7;
      BucketsAreEights(entries);
      PowerAgain(if least < 4 then 4 else least, 1);
      assert (FullAt(entries) * 8 + 6) / 7 == Buckets(entries);
    }
  }

  /** What is reserved before a table is made smaller covers the old table, the new one and the ring. */
  lemma TableShrinkIsCovered(slots: nat, entries: nat, entry: nat, ring: nat, held: nat)
    ensures TableBytes(slots, entry) + TableBytes(FullAt(entries), entry) + RingBytes(ring) <=
            TableBytes(slots, entry) + RingTarget(ring, held) + TableBytes(entries, entry)
  {
    FullCostsTheSame(entries, entry);
    if held > ring {
      GrownPassesDouble(ring, held);
    }
  }

  /** And before a ring is cut to what it keeps, or up to the next power of two: both rings and the table. */
  lemma RingShrinkIsCovered(slots: nat, entry: nat, ring: nat, keep: nat, cut: nat)
    requires cut <= PowerOfTwo(if keep < 4 then 4 else keep, 1)
    ensures TableBytes(slots, entry) + RingBytes(ring) + RingBytes(cut) <=
            TableBytes(slots, entry) + RingTarget(ring, keep) + RingBytes(PowerOfTwo(if keep < 4 then 4 else keep, 1))
  {
    if keep > ring {
      GrownPassesDouble(ring, keep);
    }
  }

  // ---------------------------------------------------------------- costs in general

  /** What tables and rings cost; the arithmetic above is one instance. */
  datatype Costs = Costs(table: nat -> nat, ring: (nat, nat) -> nat)

  /** A table for more costs no less, nor does a ring; and the price of a ring that must grow covers
      both buffers of its next growth and everything after it. */
  ghost predicate CostsOk(k: Costs) {
    && (forall a: nat, b: nat {:trigger k.table(a), k.table(b)} :: a <= b ==> k.table(a) <= k.table(b))
    && (forall c: nat, a: nat, b: nat {:trigger k.ring(c, a), k.ring(c, b)} :: a <= b ==> k.ring(c, a) <= k.ring(c, b))
    && (forall c: nat, n: nat {:trigger k.ring(c, n)} :: n <= c ==> k.ring(c, n) == RingBytes(c))
    && (forall c: nat, n: nat {:trigger k.ring(Doubled(c), n)} :: c < n ==>
          k.ring(Doubled(c), n) <= k.ring(c, n) && RingBytes(c) + RingBytes(Doubled(c)) <= k.ring(c, n))
  }

  /** What the shards of a cache are charged for tables of `entry` bytes a slot. */
  function Actual(entry: nat): (k: Costs)
    ensures CostsOk(k)
  {
    var k := Costs((entries: nat) => TableBytes(entries, entry),
                   (capacity: nat, entries: nat) => RingTarget(capacity, entries));
    ActualIsOk(entry, k);
    k
  }

  lemma ActualIsOk(entry: nat, k: Costs)
    requires forall n: nat :: k.table(n) == TableBytes(n, entry)
    requires forall c: nat, n: nat :: k.ring(c, n) == RingTarget(c, n)
    ensures CostsOk(k)
  {
    forall a: nat, b: nat | a <= b
      ensures k.table(a) <= k.table(b)
    {
      TableGrows(a, b, entry);
    }
    forall c: nat, a: nat, b: nat | a <= b
      ensures k.ring(c, a) <= k.ring(c, b)
    {
      TargetGrows(c, a, b);
    }
    forall c: nat, n: nat | c < n
      ensures k.ring(Doubled(c), n) <= k.ring(c, n) && RingBytes(c) + RingBytes(Doubled(c)) <= k.ring(c, n)
    {
      PushIsCovered(c, n);
    }
  }

  /** What a table needs at its peak to take one more entry. */
  function TablePeak(slots: nat, capacity: nat, len: nat, k: Costs): nat {
    if capacity > len then k.table(slots) else k.table(slots) + k.table(if slots == 0 then 1 else 2 * slots)
  }

  // ---------------------------------------------------------------- the shard

  datatype Slot = Ready(bytes: nat, referenced: bool) | Loading

  datatype Shard = Shard(
    table: map<nat, Slot>,
    clock: seq<nat>,
    resident: nat,
    /** What the table could hold at the bucket count it has, and what it will take before it grows. */
    slots: nat,
    tableCapacity: nat,
    ringCapacity: nat,
    /** Ring pushes that loads in flight are still to make. */
    pending: nat,
    /** Bytes charged for the table and the ring. */
    book: nat)

  const EMPTY: Shard := Shard(map[], [], 0, 0, 0, 0, 0, 0)

  predicate IsReady(s: Shard, p: nat) {
    p in s.table && s.table[p].Ready?
  }

  ghost function Markers(table: map<nat, Slot>): set<nat> {
    set p | p in table && table[p].Loading?
  }

  /** Bytes of the pages that are in. */
  ghost function ReadyBytes(table: map<nat, Slot>): nat {
    if table == map[] then 0
    else
      var p :| p in table;
      (if table[p].Ready? then table[p].bytes else 0) + ReadyBytes(table - {p})
  }

  function SlotBytes(slot: Slot): nat {
    if slot.Ready? then slot.bytes else 0
  }

  /** The sum does not depend on the order it is taken in. */
  lemma {:induction false} ReadyBytesWithout(table: map<nat, Slot>, p: nat)
    requires p in table
    ensures ReadyBytes(table) == SlotBytes(table[p]) + ReadyBytes(table - {p})
    decreases |table|
  {
    var q :| q in table && ReadyBytes(table) == SlotBytes(table[q]) + ReadyBytes(table - {q});
    if q != p {
      var rest := table - {q};
      assert rest.Keys == table.Keys - {q};
      ReadyBytesWithout(rest, p);
      var other := table - {p};
      assert other.Keys == table.Keys - {p};
      ReadyBytesWithout(other, q);
      assert rest - {p} == other - {q};
    }
  }

  lemma ReadyBytesWith(table: map<nat, Slot>, p: nat, slot: Slot)
    ensures ReadyBytes(table[p := slot]) == ReadyBytes(table - {p}) + SlotBytes(slot)
  {
    var t' := table[p := slot];
    ReadyBytesWithout(t', p);
    assert t' - {p} == table - {p};
  }

  function Footprint(s: Shard, k: Costs): nat {
    k.table(s.slots) + k.ring(s.ringCapacity, |s.clock| + s.pending)
  }

  /** What holds whenever the shard is not being changed: the counts are right, every page that is in is
      on the ring, and the charge covers the table and the ring, however the loads in flight end. */
  ghost predicate ShardOk(s: Shard, k: Costs) {
    CostsOk(k) && Sound(s) && Footprint(s, k) <= s.book
  }

  ghost predicate Sound(s: Shard) {
    && s.resident == ReadyBytes(s.table)
    && s.pending == |Markers(s.table)|
    && (forall p :: IsReady(s, p) ==> p in s.clock)
    && |s.table| <= s.tableCapacity <= s.slots
    && |s.clock| <= s.ringCapacity
  }

  // ---------------------------------------------------------------- giving room back

  /** What the allocator does, which the shard does not decide: the capacity a table reports after a
      removal, and what shrinking leaves if it is paid for at all. */
  datatype Alloc = Alloc(afterRemoval: nat, table: Option<nat>, ring: Option<nat>)

  function Between(x: nat, lo: nat, hi: nat): (y: nat)
    requires lo <= hi
    ensures lo <= y <= hi
  {
    if x < lo then lo else if x > hi then hi else x
  }

  /** The table rebuilt for what it holds. If its capacity did not change it was not rebuilt. */
  function ShrinkTable(s: Shard, alloc: Alloc): Shard
    requires |s.table| <= s.tableCapacity
  {
    if s.slots > 2 * |s.table| && alloc.table.Some? then
      var capacity := Between(alloc.table.value, |s.table|, s.tableCapacity);
      s.(tableCapacity := capacity, slots := if capacity != s.tableCapacity then capacity else s.slots)
    else s
  }

  /** The ring cut down, never below what it holds and has promised to hold. */
  function ShrinkRing(s: Shard, alloc: Alloc): Shard {
    var keep := |s.clock| + s.pending;
    if s.ringCapacity > 2 * keep && alloc.ring.Some?
      then s.(ringCapacity := Between(alloc.ring.value, keep, s.ringCapacity))
    else s
  }

  /** Gives back the table and ring the shard no longer needs, and the charge for them. */
  function Release(s: Shard, k: Costs, alloc: Alloc): Shard
    requires |s.table| <= s.tableCapacity
  {
    var s1 := ShrinkRing(ShrinkTable(s, alloc), alloc);
    s1.(book := Footprint(s1, k))
  }

  /** Settling after that only ever lowers the charge. */
  lemma ReleaseLowers(s: Shard, k: Costs, alloc: Alloc)
    requires CostsOk(k) && |s.table| <= s.tableCapacity <= s.slots
    ensures Footprint(Release(s, k, alloc), k) <= Footprint(s, k)
  {
    var s1 := ShrinkTable(s, alloc);
    assert k.table(s1.slots) <= k.table(s.slots);
  }

  lemma ReleaseOk(s: Shard, k: Costs, alloc: Alloc)
    requires ShardOk(s, k)
    ensures ShardOk(Release(s, k, alloc), k)
    ensures Release(s, k, alloc).book <= s.book
  {
    ReleaseLowers(s, k, alloc);
  }

  // ---------------------------------------------------------------- evicting

  /** A page goes: out of the table, its bytes off the count. */
  function Without(s: Shard, p: nat, alloc: Alloc): Shard
    requires p in s.table && |s.table| <= s.tableCapacity <= s.slots && SlotBytes(s.table[p]) <= s.resident
  {
    s.(table := s.table - {p}, tableCapacity := Between(alloc.afterRemoval, |s.table - {p}|, s.slots),
       resident := s.resident - SlotBytes(s.table[p]))
  }

  function Unreferenced(s: Shard, p: nat): Shard
    requires IsReady(s, p)
  {
    s.(table := s.table[p := Ready(s.table[p].bytes, false)])
  }

  /** The shard without the entry at the front of its ring. */
  function Popped(s: Shard): Shard
    requires s.clock != []
  {
    s.(clock := s.clock[1..])
  }

  datatype Turn = Give(page: nat) | Passed(shard: Shard) | Nothing

  /** One turn of the clock: the page at the front goes, unless it is referenced, when it gets a second
      chance, or is not there any more. */
  function Tick(s: Shard): (turn: Turn)
    ensures turn.Give? ==> s.clock != [] && turn.page == s.clock[0] && IsReady(s, turn.page)
  {
    if s.clock == [] then Nothing
    else
      var p := s.clock[0];
      if !IsReady(s, p) then Passed(Popped(s))
      else if s.table[p].referenced then Passed(Unreferenced(Popped(s), p).(clock := s.clock[1..] + [p]))
      else Give(p)
  }

  /** The page at the front of the ring goes, and with it the room it took. */
  function Removed(s: Shard, k: Costs, alloc: Alloc): Shard
    requires ShardOk(s, k) && s.clock != [] && IsReady(s, s.clock[0])
  {
    ReadyBytesWithout(s.table, s.clock[0]);
    Release(Without(Popped(s), s.clock[0], alloc), k, alloc)
  }

  /** CLOCK: turns until a page goes, none is left on the ring, or the steps run out. */
  ghost function EvictFrom(s: Shard, k: Costs, alloc: Alloc, steps: nat): (Shard, Option<nat>)
    requires ShardOk(s, k)
    decreases steps
  {
    if steps == 0 then (s, None)
    else
      match Tick(s)
      case Nothing => (s, None)
      case Give(p) => (Removed(s, k, alloc), Some(s.table[p].bytes))
      case Passed(s') =>
        TickKeeps(s, k);
        EvictFrom(s', k, alloc, steps - 1)
  }

  lemma TickKeeps(s: Shard, k: Costs)
    requires ShardOk(s, k)
    ensures Tick(s).Passed? ==> ShardOk(Tick(s).shard, k)
  {
    if s.clock != [] {
      PopOk(s, k);
      if IsReady(s, s.clock[0]) {
        SecondChanceOk(s, k);
      }
    }
  }

  /** A ring entry that stands for no page can go. */
  lemma PopOk(s: Shard, k: Costs)
    requires ShardOk(s, k) && s.clock != []
    ensures !IsReady(s, s.clock[0]) ==> ShardOk(Popped(s), k)
    ensures Footprint(Popped(s), k) <= Footprint(s, k)
  {
    forall p | IsReady(s, p) && !IsReady(s, s.clock[0])
      ensures p in s.clock[1..]
    {
      assert p in s.clock;
    }
  }

  lemma SecondChanceOk(s: Shard, k: Costs)
    requires ShardOk(s, k) && s.clock != [] && IsReady(s, s.clock[0])
    ensures ShardOk(Unreferenced(Popped(s), s.clock[0]).(clock := s.clock[1..] + [s.clock[0]]), k)
  {
    var p := s.clock[0];
    var s' := Unreferenced(Popped(s), p).(clock := s.clock[1..] + [p]);
    ReadyBytesWithout(s.table, p);
    ReadyBytesWith(s.table, p, s'.table[p]);
    assert Markers(s'.table) == Markers(s.table);
    assert s'.table.Keys == s.table.Keys;
    forall q | IsReady(s', q)
      ensures q in s'.clock
    {
      assert IsReady(s, q);
      assert q in s.clock;
    }
  }

  ghost function Referenced(s: Shard): set<nat> {
    set p | p in s.table && s.table[p].Ready? && s.table[p].referenced
  }

  /** What evicting leaves. */
  ghost predicate AfterEviction(s: Shard, k: Costs, s': Shard, freed: Option<nat>) {
    && ShardOk(s', k) && s'.book <= s.book && s'.pending == s.pending
    && Markers(s'.table) == Markers(s.table)
    && (forall q :: IsReady(s', q) ==> IsReady(s, q) && s'.table[q].bytes == s.table[q].bytes)
    && match freed
       case None => s'.table.Keys == s.table.Keys && s'.resident == s.resident
       case Some(bytes) =>
         && s'.resident + bytes == s.resident
         && exists p :: IsReady(s, p) && s.table[p].bytes == bytes && s'.table.Keys == s.table.Keys - {p}
  }

  lemma AfterTrans(s: Shard, s1: Shard, k: Costs, s': Shard, freed: Option<nat>)
    requires AfterEviction(s, k, s1, None) && AfterEviction(s1, k, s', freed)
    ensures AfterEviction(s, k, s', freed)
  {
    if freed.Some? {
      var p :| IsReady(s1, p) && s1.table[p].bytes == freed.value && s'.table.Keys == s1.table.Keys - {p};
      assert IsReady(s, p) && s.table[p].bytes == freed.value && s'.table.Keys == s.table.Keys - {p};
    }
  }

  /** A page at the front of the ring can go. */
  lemma WithoutOk(s: Shard, k: Costs, alloc: Alloc)
    requires ShardOk(s, k) && s.clock != [] && IsReady(s, s.clock[0])
    ensures SlotBytes(s.table[s.clock[0]]) <= s.resident
    ensures ShardOk(Without(Popped(s), s.clock[0], alloc), k)
    ensures var s1 := Without(Popped(s), s.clock[0], alloc);
            Markers(s1.table) == Markers(s.table) && s1.table.Keys == s.table.Keys - {s.clock[0]}
  {
    ReadyBytesWithout(s.table, s.clock[0]);
    PopOk(s, k);
    WithoutSound(s, Without(Popped(s), s.clock[0], alloc));
  }

  lemma WithoutSound(s: Shard, s': Shard)
    requires Sound(s) && s.clock != [] && IsReady(s, s.clock[0])
    requires s'.table == s.table - {s.clock[0]} && s'.clock == s.clock[1..]
             && s'.resident == s.resident - s.table[s.clock[0]].bytes
    requires s'.pending == s.pending && s'.ringCapacity == s.ringCapacity && |s'.table| <= s'.tableCapacity <= s'.slots
    ensures Sound(s')
    ensures Markers(s'.table) == Markers(s.table) && s'.table.Keys == s.table.Keys - {s.clock[0]}
  {
    ReadyBytesWithout(s.table, s.clock[0]);
    assert Markers(s'.table) == Markers(s.table);
    forall q | IsReady(s', q)
      ensures q in s'.clock
    {
      assert IsReady(s, q) && q in s.clock;
    }
  }

  lemma RemovedOk(s: Shard, k: Costs, alloc: Alloc)
    requires ShardOk(s, k) && s.clock != [] && IsReady(s, s.clock[0])
    ensures SlotBytes(s.table[s.clock[0]]) <= s.resident
    ensures AfterEviction(s, k, Removed(s, k, alloc), Some(s.table[s.clock[0]].bytes))
  {
    WithoutOk(s, k, alloc);
    var s1 := Without(Popped(s), s.clock[0], alloc);
    ReleaseOk(s1, k, alloc);
    var s2 := Release(s1, k, alloc);
    assert s2.table == s1.table && s2.resident == s1.resident && s2.pending == s1.pending;
    assert IsReady(s, s.clock[0]) && s2.table.Keys == s.table.Keys - {s.clock[0]};
  }

  ghost predicate NoneReady(s: Shard) {
    forall p :: p in s.table ==> !s.table[p].Ready?
  }

  lemma PopKeeps(s: Shard, k: Costs)
    requires ShardOk(s, k) && s.clock != [] && !IsReady(s, s.clock[0])
    ensures AfterEviction(s, k, Popped(s), None)
    ensures Referenced(Popped(s)) == Referenced(s) && (NoneReady(Popped(s)) ==> NoneReady(s))
  {
    PopOk(s, k);
  }

  /** What one turn does. */
  lemma TickWorks(s: Shard, k: Costs)
    requires ShardOk(s, k)
    ensures match Tick(s)
            case Nothing => NoneReady(s)
            case Give(_) => true
            case Passed(s') =>
              && AfterEviction(s, k, s', None) && (NoneReady(s') ==> NoneReady(s))
              && |s'.clock| + |Referenced(s')| == |s.clock| + |Referenced(s)| - 1
  {
    if s.clock == [] {
      forall p | p in s.table
        ensures !s.table[p].Ready?
      {
        assert IsReady(s, p) ==> p in s.clock;
      }
    } else if !IsReady(s, s.clock[0]) {
      PopKeeps(s, k);
    } else if s.table[s.clock[0]].referenced {
      var s1 := Unreferenced(Popped(s), s.clock[0]).(clock := s.clock[1..] + [s.clock[0]]);
      ChanceTaken(s, k, s1);
      assert s1.table[s.clock[0]].Ready? && s.clock[0] in s1.table;
    }
  }

  /** Whatever it does, evicting leaves the shard in order. */
  lemma {:induction false} EvictFromKeeps(s: Shard, k: Costs, alloc: Alloc, steps: nat)
    requires ShardOk(s, k)
    ensures AfterEviction(s, k, EvictFrom(s, k, alloc, steps).0, EvictFrom(s, k, alloc, steps).1)
    decreases steps
  {
    if steps > 0 {
      TickWorks(s, k);
      var turn := Tick(s);
      if turn.Give? {
        RemovedOk(s, k, alloc);
      } else if turn.Passed? {
        EvictFromKeeps(turn.shard, k, alloc, steps - 1);
        var next := EvictFrom(turn.shard, k, alloc, steps - 1);
        AfterTrans(s, turn.shard, k, next.0, next.1);
      }
    }
  }

  /** Every turn uses up a ring entry or a second chance, so with steps enough a shard that holds a page
      gives one up. */
  lemma {:induction false} EvictFromGives(s: Shard, k: Costs, alloc: Alloc, steps: nat)
    requires ShardOk(s, k) && steps > |s.clock| + |Referenced(s)|
    ensures EvictFrom(s, k, alloc, steps).1.None? ==> NoneReady(s)
    decreases steps
  {
    TickWorks(s, k);
    var turn := Tick(s);
    if turn.Passed? {
      EvictFromGives(turn.shard, k, alloc, steps - 1);
    }
  }

  lemma ChanceTaken(s: Shard, k: Costs, s1: Shard)
    requires ShardOk(s, k) && s.clock != [] && IsReady(s, s.clock[0])
    requires s1 == Unreferenced(Popped(s), s.clock[0]).(clock := s.clock[1..] + [s.clock[0]])
    ensures AfterEviction(s, k, s1, None)
    ensures s.table[s.clock[0]].referenced ==> |Referenced(s1)| == |Referenced(s)| - 1
  {
    SecondChanceOk(s, k);
    assert Markers(s1.table) == Markers(s.table);
    assert s1.table.Keys == s.table.Keys;
    assert Referenced(s1) == Referenced(s) - {s.clock[0]};
  }

  lemma {:induction false} ElementsAreFew(s: seq<nat>, ps: set<nat>)
    requires forall p :: p in ps ==> p in s
    ensures |ps| <= |s|
    decreases |s|
  {
    if s == [] {
      assert ps == {};
    } else {
      ElementsAreFew(s[1..], ps - {s[0]});
    }
  }

  ghost function EvictOneSpec(s: Shard, k: Costs, alloc: Alloc): (Shard, Option<nat>)
    requires ShardOk(s, k)
  {
    EvictFrom(s, k, alloc, 2 * |s.clock| + 1)
  }

  /** One eviction: it ends, and comes back empty-handed only if there is no page to give. */
  lemma EvictOneWorks(s: Shard, k: Costs, alloc: Alloc)
    requires ShardOk(s, k)
    ensures var (s', freed) := EvictOneSpec(s, k, alloc);
            && AfterEviction(s, k, s', freed)
            && (freed.None? <==> NoneReady(s))
  {
    forall p | p in Referenced(s)
      ensures p in s.clock
    {
      assert IsReady(s, p);
    }
    ElementsAreFew(s.clock, Referenced(s));
    EvictFromKeeps(s, k, alloc, 2 * |s.clock| + 1);
    EvictFromGives(s, k, alloc, 2 * |s.clock| + 1);
  }

  // ---------------------------------------------------------------- which page goes

  /** The page at this place of the ring is cached and has had its chance: it is not referenced, or stands earlier
      on the ring too. */
  ghost predicate MustGo(s: Shard, i: nat) {
    && i < |s.clock| && IsReady(s, s.clock[i])
    && (!s.table[s.clock[i]].referenced || s.clock[i] in s.clock[..i])
  }

  /** The pages of these that are cached, in order. */
  ghost function Cached(s: Shard, ps: seq<nat>): (r: seq<nat>)
    ensures forall p :: p in r <==> p in ps && IsReady(s, p)
  {
    if ps == [] then []
    else
      var n := |ps| - 1;
      if IsReady(s, ps[n]) then Cached(s, ps[..n]) + [ps[n]] else Cached(s, ps[..n])
  }

  /** The table with these pages no longer referenced. */
  ghost function Cleared(table: map<nat, Slot>, ps: seq<nat>): (t: map<nat, Slot>)
    ensures t.Keys == table.Keys
  {
    map p | p in table :: if table[p].Ready? && p in ps then Ready(table[p].bytes, false) else table[p]
  }

  ghost predicate NoneMustGo(s: Shard, n: nat) {
    forall i: nat {:trigger MustGo(s, i)} :: i < n ==> !MustGo(s, i)
  }

  /** The page at place `i` of the ring went. The cached pages before it follow the rest of the ring, in order, and
      are no longer referenced. */
  ghost predicate WentFrom(s: Shard, i: nat, s': Shard, freed: Option<nat>)
    requires i < |s.clock|
  {
    && IsReady(s, s.clock[i]) && freed == Some(s.table[s.clock[i]].bytes)
    && s'.clock == s.clock[i + 1..] + Cached(s, s.clock[..i])
    && s'.table == Cleared(s.table, s.clock[..i]) - {s.clock[i]}
  }

  /** No page had to go, so the whole ring was passed over: the first cached page went after all, and none is
      referenced any more. */
  ghost predicate WentRound(s: Shard, s': Shard, freed: Option<nat>) {
    var ps := Cached(s, s.clock);
    if ps == [] then freed == None && s'.clock == [] && s'.table == s.table
    else
      && IsReady(s, ps[0]) && freed == Some(s.table[ps[0]].bytes)
      && s'.clock == ps[1..] && s'.table == Cleared(s.table, s.clock) - {ps[0]}
  }

  ghost predicate GoesIfFirst(s: Shard, i: nat, s': Shard, freed: Option<nat>) {
    MustGo(s, i) && NoneMustGo(s, i) ==> WentFrom(s, i, s', freed)
  }

  /** What evicting does to ring and table: the first page that must go goes. */
  ghost predicate Evicts(s: Shard, s': Shard, freed: Option<nat>) {
    && (forall i: nat {:trigger GoesIfFirst(s, i, s', freed)} :: GoesIfFirst(s, i, s', freed))
    && (NoneMustGo(s, |s.clock|) ==> WentRound(s, s', freed))
  }

  /** The shard after the first entries of its ring were passed over. */
  ghost function PassedOver(s: Shard, n: nat): Shard
    requires n <= |s.clock|
  {
    s.(clock := s.clock[n..] + Cached(s, s.clock[..n]), table := Cleared(s.table, s.clock[..n]))
  }

  lemma ClearOne(s: Shard, ps: seq<nat>, p: nat)
    ensures !IsReady(s, p) ==> Cleared(s.table, ps + [p]) == Cleared(s.table, ps)
    ensures IsReady(s, p) ==> Cleared(s.table, ps)[p := Ready(s.table[p].bytes, false)] == Cleared(s.table, ps + [p])
  {
    if !IsReady(s, p) {
      forall q | q in s.table
        ensures Cleared(s.table, ps + [p])[q] == Cleared(s.table, ps)[q]
      {
      }
    }
  }

  lemma PassOne(s: Shard, n: nat)
    requires n < |s.clock|
    ensures MustGo(s, n) ==> Tick(PassedOver(s, n)) == Give(s.clock[n])
    ensures !MustGo(s, n) ==> Tick(PassedOver(s, n)) == Passed(PassedOver(s, n + 1))
  {
    var p, before, rest := s.clock[n], s.clock[..n], s.clock[n + 1..];
    assert s.clock[n..] == [p] + rest && s.clock[..n + 1] == before + [p];
    assert (before + [p])[..n] == before;
    var s1 := PassedOver(s, n);
    assert s1.clock[0] == p && s1.clock[1..] == rest + Cached(s, before);
    ClearOne(s, before, p);
    if IsReady(s, p) {
      assert rest + Cached(s, before) + [p] == rest + Cached(s, before + [p]);
    }
  }

  lemma PassNext(s: Shard, k: Costs, alloc: Alloc, steps: nat, n: nat)
    requires n < |s.clock| && !MustGo(s, n) && ShardOk(PassedOver(s, n), k)
    ensures ShardOk(PassedOver(s, n + 1), k)
    ensures EvictFrom(PassedOver(s, n), k, alloc, steps + 1) == EvictFrom(PassedOver(s, n + 1), k, alloc, steps)
  {
    var s1, s2 := PassedOver(s, n), PassedOver(s, n + 1);
    PassOne(s, n);
    NextTurn(s1, s2, k, alloc, steps);
  }

  lemma NextTurn(s1: Shard, s2: Shard, k: Costs, alloc: Alloc, steps: nat)
    requires ShardOk(s1, k) && Tick(s1) == Passed(s2)
    ensures ShardOk(s2, k) && EvictFrom(s1, k, alloc, steps + 1) == EvictFrom(s2, k, alloc, steps)
  {
    TickKeeps(s1, k);
  }

  lemma PassNone(s: Shard)
    ensures PassedOver(s, 0) == s
  {
    assert s.clock[0..] + [] == s.clock && s.clock[..0] == [];
    assert Cleared(s.table, []) == s.table;
  }

  lemma {:induction false} PassSome(s: Shard, k: Costs, alloc: Alloc, steps: nat, n: nat)
    requires ShardOk(s, k) && n <= |s.clock| && n <= steps && NoneMustGo(s, n)
    ensures ShardOk(PassedOver(s, n), k)
    ensures EvictFrom(s, k, alloc, steps) == EvictFrom(PassedOver(s, n), k, alloc, steps - n)
    decreases n
  {
    if n == 0 {
      PassNone(s);
    } else {
      PassSome(s, k, alloc, steps, n - 1);
      assert !MustGo(s, n - 1);
      PassNext(s, k, alloc, steps - n, n - 1);
    }
  }

  /** The page at the front of the ring went. */
  ghost predicate FrontWent(s: Shard, s': Shard, freed: Option<nat>) {
    && s.clock != [] && IsReady(s, s.clock[0]) && freed == Some(s.table[s.clock[0]].bytes)
    && s'.clock == s.clock[1..] && s'.table == s.table - {s.clock[0]}
  }

  lemma GivesFront(s: Shard, k: Costs, alloc: Alloc, steps: nat)
    requires ShardOk(s, k) && steps > 0 && Tick(s).Give?
    ensures FrontWent(s, EvictFrom(s, k, alloc, steps).0, EvictFrom(s, k, alloc, steps).1)
  {
    ReadyBytesWithout(s.table, s.clock[0]);
  }

  lemma FrontWentFrom(s: Shard, i: nat, s': Shard, freed: Option<nat>)
    requires i < |s.clock| && FrontWent(PassedOver(s, i), s', freed)
    ensures WentFrom(s, i, s', freed)
  {
    var p, before, rest := s.clock[i], s.clock[..i], s.clock[i + 1..];
    assert s.clock[i..] == [p] + rest;
    var s1 := PassedOver(s, i);
    assert s1.clock[0] == p && s1.clock[1..] == rest + Cached(s, before);
  }

  lemma GoesFrom(s: Shard, k: Costs, alloc: Alloc, i: nat, steps: nat)
    requires ShardOk(s, k) && MustGo(s, i) && NoneMustGo(s, i) && steps > i
    ensures WentFrom(s, i, EvictFrom(s, k, alloc, steps).0, EvictFrom(s, k, alloc, steps).1)
  {
    PassSome(s, k, alloc, steps, i);
    var s1 := PassedOver(s, i);
    assert Tick(s1).Give? by {
      PassOne(s, i);
    }
    GivesFront(s1, k, alloc, steps - i);
    var next := EvictFrom(s1, k, alloc, steps - i);
    FrontWentFrom(s, i, next.0, next.1);
  }

  lemma FrontWentRound(s: Shard, s': Shard, freed: Option<nat>)
    requires Cached(s, s.clock) != [] && FrontWent(PassedOver(s, |s.clock|), s', freed)
    ensures WentRound(s, s', freed)
  {
    var n, ps := |s.clock|, Cached(s, s.clock);
    assert s.clock[..n] == s.clock && s.clock[n..] + ps == ps;
    assert ps[0] in ps;
  }

  lemma AllPassed(s: Shard)
    ensures var s1, ps := PassedOver(s, |s.clock|), Cached(s, s.clock);
            && s1.clock == ps
            && (ps == [] ==> Tick(s1).Nothing? && s1.table == s.table)
            && (ps != [] ==> Tick(s1).Give?)
  {
    var n, ps := |s.clock|, Cached(s, s.clock);
    assert s.clock[..n] == s.clock && s.clock[n..] + ps == ps;
    if ps == [] {
      assert Cleared(s.table, s.clock) == s.table;
    } else {
      assert ps[0] in ps;
    }
  }

  lemma GoesRound(s: Shard, k: Costs, alloc: Alloc, steps: nat)
    requires ShardOk(s, k) && NoneMustGo(s, |s.clock|) && steps > |s.clock|
    ensures WentRound(s, EvictFrom(s, k, alloc, steps).0, EvictFrom(s, k, alloc, steps).1)
  {
    var n := |s.clock|;
    PassSome(s, k, alloc, steps, n);
    AllPassed(s);
    var s1 := PassedOver(s, n);
    if Cached(s, s.clock) != [] {
      GivesFront(s1, k, alloc, steps - n);
      var next := EvictFrom(s1, k, alloc, steps - n);
      FrontWentRound(s, next.0, next.1);
    }
  }

  lemma EvictFromEvicts(s: Shard, k: Costs, alloc: Alloc, steps: nat)
    requires ShardOk(s, k) && steps > |s.clock|
    ensures Evicts(s, EvictFrom(s, k, alloc, steps).0, EvictFrom(s, k, alloc, steps).1)
  {
    var next := EvictFrom(s, k, alloc, steps);
    forall i: nat
      ensures GoesIfFirst(s, i, next.0, next.1)
    {
      if MustGo(s, i) && NoneMustGo(s, i) {
        GoesFrom(s, k, alloc, i, steps);
      }
    }
    if NoneMustGo(s, |s.clock|) {
      GoesRound(s, k, alloc, steps);
    }
  }

  /** Which page goes, and what becomes of the others. */
  lemma EvictOneEvicts(s: Shard, k: Costs, alloc: Alloc)
    requires ShardOk(s, k)
    ensures Evicts(s, EvictOneSpec(s, k, alloc).0, EvictOneSpec(s, k, alloc).1)
  {
    EvictFromEvicts(s, k, alloc, 2 * |s.clock| + 1);
  }

  lemma {:induction false} FirstFrom(s: Shard, i: nat) returns (first: nat)
    requires MustGo(s, i)
    ensures first <= i && MustGo(s, first) && NoneMustGo(s, first)
  {
    if NoneMustGo(s, i) {
      first := i;
    } else {
      var j: nat :| j < i && MustGo(s, j);
      first := FirstFrom(s, j);
    }
  }

  /** A second chance: a referenced page that stands on the ring once does not go while a cached page is there that
      is not referenced. */
  lemma ReferencedStays(s: Shard, k: Costs, alloc: Alloc, p: nat, q: nat)
    requires ShardOk(s, k) && IsReady(s, p) && s.table[p].referenced && IsReady(s, q) && !s.table[q].referenced
    requires forall i, j :: 0 <= i < j < |s.clock| && s.clock[i] == p ==> s.clock[j] != p
    ensures p in EvictOneSpec(s, k, alloc).0.table
  {
    assert q in s.clock;
    var at: nat :| at < |s.clock| && s.clock[at] == q;
    var first := FirstFrom(s, at);
    EvictOneEvicts(s, k, alloc);
    var (s', freed) := EvictOneSpec(s, k, alloc);
    assert GoesIfFirst(s, first, s', freed);
  }

  // ---------------------------------------------------------------- a ring in order

  /** Every entry of the ring stands for a cached page, and no page has two. */
  ghost predicate RingOk(s: Shard) {
    && (forall i :: 0 <= i < |s.clock| ==> IsReady(s, s.clock[i]))
    && (forall i, j :: 0 <= i < j < |s.clock| ==> s.clock[i] != s.clock[j])
  }

  lemma {:induction false} AllCached(s: Shard, ps: seq<nat>)
    requires forall i :: 0 <= i < |ps| ==> IsReady(s, ps[i])
    ensures Cached(s, ps) == ps
  {
    if ps != [] {
      var n := |ps| - 1;
      AllCached(s, ps[..n]);
      assert ps == ps[..n] + [ps[n]];
    }
  }

  /** The page at this place is not referenced, and all before it are. */
  ghost predicate FirstUnused(s: Shard, i: nat) {
    && i < |s.clock| && IsReady(s, s.clock[i]) && !s.table[s.clock[i]].referenced
    && forall j :: 0 <= j < i ==> IsReady(s, s.clock[j]) && s.table[s.clock[j]].referenced
  }

  lemma FirstUnusedGoes(s: Shard, i: nat)
    requires RingOk(s) && FirstUnused(s, i)
    ensures MustGo(s, i) && NoneMustGo(s, i)
  {
    forall j: nat | j < i
      ensures !MustGo(s, j)
    {
      assert s.clock[j] !in s.clock[..j];
    }
  }

  lemma AllUsed(s: Shard)
    requires RingOk(s) && forall i :: 0 <= i < |s.clock| ==> s.table[s.clock[i]].referenced
    ensures NoneMustGo(s, |s.clock|)
  {
    forall j: nat | j < |s.clock|
      ensures !MustGo(s, j)
    {
      assert s.clock[j] !in s.clock[..j];
    }
  }

  /** The page at place `i` went, the ones before it behind the others and no longer referenced. */
  ghost predicate Rotated(s: Shard, i: nat, s': Shard) {
    && i < |s.clock|
    && s'.clock == s.clock[i + 1..] + s.clock[..i]
    && s'.table == Cleared(s.table, s.clock[..i]) - {s.clock[i]}
  }

  /** The first page went, and none is referenced any more. */
  ghost predicate Swept(s: Shard, s': Shard) {
    && s.clock != []
    && s'.clock == s.clock[1..] && s'.table == Cleared(s.table, s.clock) - {s.clock[0]}
  }

  lemma RotatesFrom(s: Shard, k: Costs, alloc: Alloc, i: nat)
    requires ShardOk(s, k) && RingOk(s) && FirstUnused(s, i)
    ensures Rotated(s, i, EvictOneSpec(s, k, alloc).0)
  {
    var (s', freed) := EvictOneSpec(s, k, alloc);
    EvictOneEvicts(s, k, alloc);
    FirstUnusedGoes(s, i);
    assert GoesIfFirst(s, i, s', freed);
    AllCached(s, s.clock[..i]);
  }

  lemma SweepsAll(s: Shard, k: Costs, alloc: Alloc)
    requires ShardOk(s, k) && RingOk(s) && forall i :: 0 <= i < |s.clock| ==> s.table[s.clock[i]].referenced
    ensures var s' := EvictOneSpec(s, k, alloc).0;
            if s.clock == [] then s'.clock == [] && s'.table == s.table else Swept(s, s')
  {
    EvictOneEvicts(s, k, alloc);
    AllUsed(s);
    AllCached(s, s.clock);
  }

  /** CLOCK, on a ring in order: the first page that is not referenced goes; if all are, the first. */
  lemma ClockRule(s: Shard, k: Costs, alloc: Alloc)
    requires ShardOk(s, k) && RingOk(s)
    ensures var s' := EvictOneSpec(s, k, alloc).0;
            && (forall i: nat {:trigger FirstUnused(s, i)} :: FirstUnused(s, i) ==> Rotated(s, i, s'))
            && (s.clock != [] && (forall i :: 0 <= i < |s.clock| ==> s.table[s.clock[i]].referenced) ==> Swept(s, s'))
            && (s.clock == [] ==> s'.clock == [] && s'.table == s.table)
  {
    forall i: nat | FirstUnused(s, i)
      ensures Rotated(s, i, EvictOneSpec(s, k, alloc).0)
    {
      RotatesFrom(s, k, alloc, i);
    }
    if forall i :: 0 <= i < |s.clock| ==> s.table[s.clock[i]].referenced {
      SweepsAll(s, k, alloc);
    }
  }

  /** Where an entry of a rotated ring stood before. */
  ghost function Before(n: nat, i: nat, j: nat): nat {
    if j + i + 1 < n then j + i + 1 else j + i + 1 - n
  }

  lemma RotatedAt(s: Shard, i: nat, s': Shard, j: nat)
    requires RingOk(s) && Rotated(s, i, s') && j < |s'.clock|
    ensures var n := |s.clock|; var from := Before(n, i, j);
            && |s'.clock| == n - 1 && from < n && from != i && s'.clock[j] == s.clock[from]
            && IsReady(s', s'.clock[j]) && s'.table[s'.clock[j]].bytes == s.table[s.clock[from]].bytes
            && (s'.table[s'.clock[j]].referenced <==> from > i && s.table[s.clock[from]].referenced)
  {
    var n, from := |s.clock|, Before(|s.clock|, i, j);
    if from < i {
      assert s.clock[..i][from] == s.clock[from];
    } else {
      forall m | 0 <= m < i
        ensures s.clock[..i][m] != s.clock[from]
      {
      }
    }
  }

  lemma RotatedKeepsRing(s: Shard, i: nat, s': Shard)
    requires RingOk(s) && Rotated(s, i, s')
    ensures RingOk(s')
  {
    forall j | 0 <= j < |s'.clock|
      ensures IsReady(s', s'.clock[j])
    {
      RotatedAt(s, i, s', j);
    }
    forall j, m | 0 <= j < m < |s'.clock|
      ensures s'.clock[j] != s'.clock[m]
    {
      RotatedAt(s, i, s', j);
      RotatedAt(s, i, s', m);
    }
  }

  lemma SweptAt(s: Shard, s': Shard, j: nat)
    requires RingOk(s) && Swept(s, s') && j < |s'.clock|
    ensures s'.clock[j] == s.clock[j + 1] && IsReady(s', s'.clock[j])
    ensures s'.table[s'.clock[j]] == Ready(s.table[s.clock[j + 1]].bytes, false)
  {
  }

  lemma SweptKeepsRing(s: Shard, s': Shard)
    requires RingOk(s) && Swept(s, s')
    ensures RingOk(s')
  {
    forall j | 0 <= j < |s'.clock|
      ensures IsReady(s', s'.clock[j])
    {
      SweptAt(s, s', j);
    }
  }

  lemma {:induction false} SomeUnused(s: Shard, from: nat) returns (i: nat)
    requires RingOk(s) && from <= |s.clock|
    requires forall j :: 0 <= j < from ==> s.table[s.clock[j]].referenced
    ensures i <= |s.clock|
    ensures i < |s.clock| ==> FirstUnused(s, i)
    ensures i == |s.clock| ==> forall j :: 0 <= j < |s.clock| ==> s.table[s.clock[j]].referenced
    decreases |s.clock| - from
  {
    if from == |s.clock| || !s.table[s.clock[from]].referenced {
      i := from;
    } else {
      i := SomeUnused(s, from + 1);
    }
  }

  /** Evicting keeps the ring in order. */
  lemma EvictKeepsRing(s: Shard, k: Costs, alloc: Alloc)
    requires ShardOk(s, k) && RingOk(s)
    ensures RingOk(EvictOneSpec(s, k, alloc).0)
  {
    var s' := EvictOneSpec(s, k, alloc).0;
    ClockRule(s, k, alloc);
    var i := SomeUnused(s, 0);
    if i < |s.clock| {
      RotatedKeepsRing(s, i, s');
    } else if s.clock != [] {
      SweptKeepsRing(s, s');
    }
  }

  ghost predicate Unused(s: Shard, i: nat) {
    i < |s.clock| && IsReady(s, s.clock[i]) && !s.table[s.clock[i]].referenced
  }

  /** A page that was just cached: it is referenced and none behind it on the ring is, or it is the last of pages none
      of which is referenced. */
  ghost predicate Newest(s: Shard, p: nat, i: nat) {
    && i < |s.clock| && s.clock[i] == p && IsReady(s, p)
    && (s.table[p].referenced ==> forall j {:trigger Unused(s, j)} :: i < j < |s.clock| ==> Unused(s, j))
    && (!s.table[p].referenced ==>
          i == |s.clock| - 1 && forall j {:trigger Unused(s, j)} :: 0 <= j < |s.clock| ==> Unused(s, j))
  }

  lemma AllUnused(s: Shard, first: nat, s': Shard, from: nat)
    requires RingOk(s) && FirstUnused(s, first) && Rotated(s, first, s') && from <= |s.clock|
    requires forall j {:trigger Unused(s, j)} :: first < j < |s.clock| && j >= from ==> Unused(s, j)
    ensures forall j {:trigger Unused(s', j)} :: 0 <= j < |s'.clock| && j + first + 1 >= from ==> Unused(s', j)
  {
    forall j | 0 <= j < |s'.clock| && j + first + 1 >= from
      ensures Unused(s', j)
    {
      RotatedAt(s, first, s', j);
      assert Unused(s, j + first + 1) || j + first + 1 >= |s.clock|;
    }
  }

  lemma RotatedNewest(s: Shard, first: nat, s': Shard, p: nat, i: nat) returns (i': nat)
    requires RingOk(s) && FirstUnused(s, first) && Rotated(s, first, s') && Newest(s, p, i) && |s.clock| > 1
    ensures Newest(s', p, i') && s'.table[p].bytes == s.table[p].bytes
  {
    var n := |s.clock|;
    if !s.table[p].referenced {
      assert Unused(s, 0);
      assert first == 0;
      i' := n - 2;
      AllUnused(s, first, s', 0);
    } else if first < i {
      i' := i - first - 1;
      AllUnused(s, first, s', i + 1);
    } else {
      assert Unused(s, i + 1);
      assert first == i + 1;
      i' := n - 2;
      AllUnused(s, first, s', i + 1);
    }
    RotatedAt(s, first, s', i');
  }

  lemma SweptNewest(s: Shard, s': Shard, p: nat, i: nat)
    requires RingOk(s) && Swept(s, s') && Newest(s, p, i) && |s.clock| > 1
    requires forall j :: 0 <= j < |s.clock| ==> s.table[s.clock[j]].referenced
    ensures i == |s.clock| - 1 && Newest(s', p, i - 1) && s'.table[p].bytes == s.table[p].bytes
  {
    assert i + 1 < |s.clock| ==> Unused(s, i + 1);
    forall j | 0 <= j < |s'.clock|
      ensures Unused(s', j)
    {
      SweptAt(s, s', j);
    }
    SweptAt(s, s', i - 1);
  }

  /** It does not go while there is another. */
  lemma NewestStays(s: Shard, k: Costs, alloc: Alloc, p: nat, i: nat) returns (i': nat)
    requires ShardOk(s, k) && RingOk(s) && Newest(s, p, i) && |s.clock| > 1
    ensures Newest(EvictOneSpec(s, k, alloc).0, p, i')
    ensures EvictOneSpec(s, k, alloc).0.table[p].bytes == s.table[p].bytes
  {
    var s' := EvictOneSpec(s, k, alloc).0;
    ClockRule(s, k, alloc);
    var first := SomeUnused(s, 0);
    if first < |s.clock| {
      i' := RotatedNewest(s, first, s', p, i);
    } else {
      SweptNewest(s, s', p, i);
      i' := i - 1;
    }
  }

  lemma EmptyHandedIsEmpty(s: Shard, k: Costs)
    requires ShardOk(s, k) && NoneReady(s)
    ensures s.resident == 0
  {
    NoReadyBytes(s.table);
  }

  lemma {:induction false} NoReadyBytes(table: map<nat, Slot>)
    requires forall p :: p in table ==> !table[p].Ready?
    ensures ReadyBytes(table) == 0
    decreases |table|
  {
    if table != map[] {
      var p :| p in table;
      ReadyBytesWithout(table, p);
      assert (table - {p}).Keys == table.Keys - {p};
      NoReadyBytes(table - {p});
    }
  }

  /** The loop that does it. */
  method EvictOne(s: Shard, k: Costs, alloc: Alloc) returns (s': Shard, freed: Option<nat>)
    requires ShardOk(s, k)
    ensures (s', freed) == EvictOneSpec(s, k, alloc)
  {
    s' := s;
    var steps: nat := 2 * |s.clock| + 1;
    while steps > 0
      invariant ShardOk(s', k)
      invariant EvictFrom(s', k, alloc, steps) == EvictOneSpec(s, k, alloc)
    {
      match Tick(s') {
        case Nothing =>
          return s', None;
        case Give(p) =>
          return Removed(s', k, alloc), Some(s'.table[p].bytes);
        case Passed(next) =>
          TickKeeps(s', k);
          s' := next;
      }
      steps := steps - 1;
    }
    freed := None;
  }

  // ---------------------------------------------------------------- staying inside the capacity

  ghost function EvictDown(s: Shard, k: Costs, capacity: nat, alloc: nat -> Alloc): Shard
    requires ShardOk(s, k)
    decreases |s.table|
  {
    if s.resident <= capacity then s
    else
      var (s', freed) := EvictOneSpec(s, k, alloc(|s.table|));
      EvictOneWorks(s, k, alloc(|s.table|));
      if freed.None? then s'
      else
        FewerKeys(s, k, s', freed);
        EvictDown(s', k, capacity, alloc)
  }

  lemma FewerKeys(s: Shard, k: Costs, s': Shard, freed: Option<nat>)
    requires AfterEviction(s, k, s', freed) && freed.Some?
    ensures |s'.table| < |s.table|
  {
    var p :| IsReady(s, p) && s.table[p].bytes == freed.value && s'.table.Keys == s.table.Keys - {p};
    assert |s'.table.Keys| == |s.table.Keys| - 1;
  }

  /** What any number of evictions leaves. */
  ghost predicate Slimmer(s: Shard, k: Costs, s': Shard) {
    && ShardOk(s', k) && s'.book <= s.book && s'.pending == s.pending
    && Markers(s'.table) == Markers(s.table)
    && s'.table.Keys <= s.table.Keys
    && (forall q :: IsReady(s', q) ==> IsReady(s, q) && s'.table[q].bytes == s.table[q].bytes)
  }

  /** The shard never keeps more than its capacity: if evicting cannot get below it, nothing is left. */
  lemma {:induction false} EvictDownWorks(s: Shard, k: Costs, capacity: nat, alloc: nat -> Alloc)
    requires ShardOk(s, k)
    ensures Slimmer(s, k, EvictDown(s, k, capacity, alloc))
    ensures EvictDown(s, k, capacity, alloc).resident <= capacity
    decreases |s.table|
  {
    if s.resident > capacity {
      var (s', freed) := EvictOneSpec(s, k, alloc(|s.table|));
      EvictOneWorks(s, k, alloc(|s.table|));
      if freed.None? {
        EmptyHandedIsEmpty(s, k);
      } else {
        FewerKeys(s, k, s', freed);
        EvictDownWorks(s', k, capacity, alloc);
      }
    }
  }

  /** And no page goes that did not have to: with the last one that did, it was over its capacity. */
  lemma {:induction false} EvictDownStops(s: Shard, k: Costs, capacity: nat, alloc: nat -> Alloc)
    requires ShardOk(s, k)
    ensures var s' := EvictDown(s, k, capacity, alloc);
            && (s.resident <= capacity ==> s' == s)
            && (s.resident > capacity ==>
                  exists p :: IsReady(s, p) && p !in s'.table && s'.resident + s.table[p].bytes > capacity)
    decreases |s.table|, 0
  {
    if s.resident > capacity {
      var (s', freed) := EvictOneSpec(s, k, alloc(|s.table|));
      EvictOneWorks(s, k, alloc(|s.table|));
      if freed.None? {
        EmptyHandedIsEmpty(s, k);
      } else {
        FewerKeys(s, k, s', freed);
        LastToGo(s, s', k, freed, capacity, alloc);
      }
    }
  }

  lemma {:induction false} LastToGo(s: Shard, s': Shard, k: Costs, freed: Option<nat>, capacity: nat,
                                    alloc: nat -> Alloc)
    requires s.resident > capacity && AfterEviction(s, k, s', freed) && freed.Some?
    ensures var last := EvictDown(s', k, capacity, alloc);
            exists p :: IsReady(s, p) && p !in last.table && last.resident + s.table[p].bytes > capacity
    decreases |s'.table|, 1
  {
    EvictDownStops(s', k, capacity, alloc);
    var last := EvictDown(s', k, capacity, alloc);
    if s'.resident <= capacity {
      var p :| IsReady(s, p) && s.table[p].bytes == freed.value && s'.table.Keys == s.table.Keys - {p};
      assert IsReady(s, p) && p !in last.table;
    } else {
      var p :| IsReady(s', p) && p !in last.table && last.resident + s'.table[p].bytes > capacity;
      assert IsReady(s, p) && s.table[p].bytes == s'.table[p].bytes;
    }
  }

  lemma OnlyPage(s: Shard, p: nat)
    requires Sound(s) && s.clock == [p] && IsReady(s, p)
    ensures s.resident == s.table[p].bytes
  {
    ReadyBytesWithout(s.table, p);
    var rest := s.table - {p};
    forall q | q in rest
      ensures !rest[q].Ready?
    {
      assert IsReady(s, q) ==> q in s.clock;
    }
    NoReadyBytes(rest);
  }

  lemma MoreThanOne(s: Shard, p: nat, i: nat, capacity: nat)
    requires Sound(s) && Newest(s, p, i) && s.table[p].bytes <= capacity < s.resident
    ensures |s.clock| > 1
  {
    if |s.clock| == 1 {
      assert s.clock == [p];
      OnlyPage(s, p);
    }
  }

  /** A page that was just cached stays, if it fits at all. */
  lemma {:induction false} NewestIsKept(s: Shard, k: Costs, capacity: nat, alloc: nat -> Alloc, p: nat, i: nat)
    requires ShardOk(s, k) && RingOk(s) && Newest(s, p, i) && s.table[p].bytes <= capacity
    ensures var s' := EvictDown(s, k, capacity, alloc);
            IsReady(s', p) && s'.table[p].bytes == s.table[p].bytes
    decreases |s.table|
  {
    if s.resident > capacity {
      var (s', freed) := EvictOneSpec(s, k, alloc(|s.table|));
      EvictOneWorks(s, k, alloc(|s.table|));
      MoreThanOne(s, p, i, capacity);
      var i' := NewestStays(s, k, alloc(|s.table|), p, i);
      if freed.Some? {
        EvictKeepsRing(s, k, alloc(|s.table|));
        FewerKeys(s, k, s', freed);
        NewestIsKept(s', k, capacity, alloc, p, i');
      }
    }
  }

  lemma {:induction false} EvictDownKeepsRing(s: Shard, k: Costs, capacity: nat, alloc: nat -> Alloc)
    requires ShardOk(s, k) && RingOk(s)
    ensures RingOk(EvictDown(s, k, capacity, alloc))
    decreases |s.table|
  {
    if s.resident > capacity {
      var (s', freed) := EvictOneSpec(s, k, alloc(|s.table|));
      EvictOneWorks(s, k, alloc(|s.table|));
      EvictKeepsRing(s, k, alloc(|s.table|));
      if freed.Some? {
        FewerKeys(s, k, s', freed);
        EvictDownKeepsRing(s', k, capacity, alloc);
      }
    }
  }

  method EvictDownToCapacity(s: Shard, k: Costs, capacity: nat, alloc: nat -> Alloc) returns (s': Shard)
    requires ShardOk(s, k)
    ensures s' == EvictDown(s, k, capacity, alloc)
  {
    s' := s;
    while s'.resident > capacity
      invariant ShardOk(s', k)
      invariant EvictDown(s', k, capacity, alloc) == EvictDown(s, k, capacity, alloc)
      decreases |s'.table|
    {
      var next, freed := EvictOne(s', k, alloc(|s'.table|));
      EvictOneWorks(s', k, alloc(|s'.table|));
      if freed.None? {
        return next;
      }
      FewerKeys(s', k, next, freed);
      s' := next;
    }
  }

  // ---------------------------------------------------------------- a load, from marker to page

  /** What the table and the ring would cost with one more entry, beyond what is charged already. */
  function GrowthForOneMore(s: Shard, k: Costs): nat {
    var want := TablePeak(s.slots, s.tableCapacity, |s.table|, k) + k.ring(s.ringCapacity, |s.clock| + s.pending + 1);
    if want < s.book then 0 else want - s.book
  }

  /** How a table may answer an insertion: out of what it has, or, when that is used up, by rehashing in
      place or growing to at most twice the size. */
  ghost predicate InsertFits(s: Shard, k: Costs, capacity: nat) {
    && |s.table| < capacity
    && (capacity <= s.slots
        || (s.tableCapacity <= |s.table| && k.table(capacity) <= k.table(if s.slots == 0 then 1 else 2 * s.slots)))
  }

  /** A marker goes in for a load, paid for by `charge`; what is left over goes back. */
  function Marked(s: Shard, k: Costs, p: nat, capacity: nat): Shard {
    var s1 := s.(table := s.table[p := Loading], tableCapacity := capacity,
                 slots := if capacity > s.slots then capacity else s.slots, pending := s.pending + 1);
    s1.(book := Footprint(s1, k))
  }

  /** The reservation covers the table and the ring, the old table counted too while it is rebuilt, so
      settling after the insertion cannot fail. */
  lemma MarkerIsCovered(s: Shard, k: Costs, p: nat, charge: nat, capacity: nat)
    requires CostsOk(k) && charge >= GrowthForOneMore(s, k) && InsertFits(s, k, capacity)
    ensures Marked(s, k, p, capacity).book <= s.book + charge
    ensures capacity > s.slots ==>
              k.table(s.slots) + k.table(capacity) + k.ring(s.ringCapacity, |s.clock| + s.pending) <= s.book + charge
  {
    assert k.ring(s.ringCapacity, |s.clock| + s.pending) <= k.ring(s.ringCapacity, |s.clock| + s.pending + 1);
  }

  lemma MarkedOk(s: Shard, k: Costs, p: nat, capacity: nat)
    requires ShardOk(s, k) && p !in s.table && InsertFits(s, k, capacity)
    ensures ShardOk(Marked(s, k, p, capacity), k)
    ensures Markers(Marked(s, k, p, capacity).table) == Markers(s.table) + {p}
    ensures Marked(s, k, p, capacity).resident == s.resident
  {
    MarkedSound(s, p, Marked(s, k, p, capacity));
  }

  lemma MarkedSound(s: Shard, p: nat, s': Shard)
    requires Sound(s) && p !in s.table
    requires s'.table == s.table[p := Loading] && s'.clock == s.clock && s'.resident == s.resident
    requires s'.pending == s.pending + 1 && s'.ringCapacity == s.ringCapacity
             && |s.table| < s'.tableCapacity <= s'.slots
    ensures Sound(s')
    ensures Markers(s'.table) == Markers(s.table) + {p}
  {
    assert Markers(s'.table) == Markers(s.table) + {p};
    MarkerSums(s.table, p);
    assert s'.table.Keys == s.table.Keys + {p};
    assert |s'.table.Keys| == |s.table.Keys| + 1;
    forall q | IsReady(s', q)
      ensures q in s'.clock
    {
      assert IsReady(s, q);
    }
  }

  lemma MarkerSums(table: map<nat, Slot>, p: nat)
    requires p !in table
    ensures ReadyBytes(table[p := Loading]) == ReadyBytes(table)
  {
    ReadyBytesWith(table, p, Loading);
    assert table - {p} == table;
  }

  /** The marker gives way to the page, which goes on the ring; the ring grows if it is full. */
  function WithPage(s: Shard, p: nat, bytes: nat): Shard
    requires s.pending > 0
  {
    s.(table := s.table[p := Ready(bytes, true)], clock := s.clock + [p], resident := s.resident + bytes,
       pending := s.pending - 1,
       ringCapacity := if |s.clock| >= s.ringCapacity then Doubled(s.ringCapacity) else s.ringCapacity)
  }

  /** What was reserved with the marker covers the push, both rings counted if it makes the ring grow. */
  lemma PageIsCovered(s: Shard, k: Costs, p: nat, bytes: nat)
    requires ShardOk(s, k) && p in Markers(s.table)
    ensures s.pending > 0
    ensures ShardOk(WithPage(s, p, bytes), k)
    ensures |s.clock| == s.ringCapacity ==>
              k.table(s.slots) + RingBytes(s.ringCapacity) + RingBytes(Doubled(s.ringCapacity)) <= s.book
    ensures Markers(WithPage(s, p, bytes).table) == Markers(s.table) - {p}
  {
    var s' := WithPage(s, p, bytes);
    assert Markers(s'.table) == Markers(s.table) - {p};
    PageSums(s.table, p, bytes);
    assert s'.table.Keys == s.table.Keys;
    forall q | IsReady(s', q)
      ensures q in s'.clock
    {
      assert q != p ==> IsReady(s, q);
    }
  }

  lemma PageSums(table: map<nat, Slot>, p: nat, bytes: nat)
    requires p in table && table[p].Loading?
    ensures ReadyBytes(table[p := Ready(bytes, true)]) == ReadyBytes(table) + bytes
  {
    ReadyBytesWith(table, p, Ready(bytes, true));
    ReadyBytesWithout(table, p);
  }

  /** The load ends with a page. */
  ghost function Published(s: Shard, k: Costs, p: nat, bytes: nat, capacity: nat, alloc: nat -> Alloc): Shard
    requires ShardOk(s, k) && p in Markers(s.table)
  {
    PageIsCovered(s, k, p, bytes);
    var s1 := EvictDown(WithPage(s, p, bytes), k, capacity, alloc);
    s1.(book := Footprint(s1, k))
  }

  /** The charge is enough, so the page need not be given up for want of a table to keep it in; and the
      shard is inside its capacity again. */
  lemma PublishedOk(s: Shard, k: Costs, p: nat, bytes: nat, capacity: nat, alloc: nat -> Alloc)
    requires ShardOk(s, k) && p in Markers(s.table)
    ensures var s' := Published(s, k, p, bytes, capacity, alloc);
            && ShardOk(s', k) && s'.book <= s.book && s'.resident <= capacity
            && Markers(s'.table) == Markers(s.table) - {p}
  {
    PageIsCovered(s, k, p, bytes);
    var s1 := EvictDown(WithPage(s, p, bytes), k, capacity, alloc);
    EvictDownWorks(WithPage(s, p, bytes), k, capacity, alloc);
    SettleOk(s1, k);
    assert WithPage(s, p, bytes).book == s.book;
  }

  lemma WithPageRing(s: Shard, p: nat, bytes: nat)
    requires RingOk(s) && p in Markers(s.table) && s.pending > 0
    ensures RingOk(WithPage(s, p, bytes)) && Newest(WithPage(s, p, bytes), p, |s.clock|)
  {
    var s' := WithPage(s, p, bytes);
    forall j | 0 <= j < |s.clock|
      ensures s.clock[j] != p && IsReady(s', s.clock[j])
    {
      assert IsReady(s, s.clock[j]);
    }
  }

  /** What a load leaves in the shard: the page, unless it is larger than the shard's whole capacity, and a ring in
      order. */
  lemma PublishedIsCached(s: Shard, k: Costs, p: nat, bytes: nat, capacity: nat, alloc: nat -> Alloc)
    requires ShardOk(s, k) && RingOk(s) && p in Markers(s.table)
    ensures var s' := Published(s, k, p, bytes, capacity, alloc);
            RingOk(s') && (bytes <= capacity ==> IsReady(s', p) && s'.table[p].bytes == bytes)
  {
    PageIsCovered(s, k, p, bytes);
    WithPageRing(s, p, bytes);
    var s1 := WithPage(s, p, bytes);
    EvictDownKeepsRing(s1, k, capacity, alloc);
    if bytes <= capacity {
      NewestIsKept(s1, k, capacity, alloc, p, |s.clock|);
    }
  }

  lemma MarkerRing(s: Shard, k: Costs, p: nat, capacity: nat)
    requires RingOk(s) && p !in s.table
    ensures RingOk(Marked(s, k, p, capacity))
  {
    var s' := Marked(s, k, p, capacity);
    forall j | 0 <= j < |s.clock|
      ensures IsReady(s', s.clock[j])
    {
      assert IsReady(s, s.clock[j]);
    }
  }

  lemma UnmarkedRing(s: Shard, k: Costs, p: nat, alloc: Alloc)
    requires ShardOk(s, k) && RingOk(s) && p in Markers(s.table) && s.pending > 0
    ensures RingOk(Unmarked(s, k, p, alloc))
  {
    var s' := Unmarked(s, k, p, alloc);
    assert s'.clock == s.clock && s'.table == s.table - {p};
    forall j | 0 <= j < |s.clock|
      ensures IsReady(s', s.clock[j])
    {
      assert IsReady(s, s.clock[j]);
    }
  }

  /** Settling a charge that covers the shard lowers it to what the shard costs. */
  lemma SettleOk(s: Shard, k: Costs)
    requires ShardOk(s, k)
    ensures var s' := s.(book := Footprint(s, k));
            ShardOk(s', k) && s'.book <= s.book && s'.resident == s.resident && s'.table == s.table
  {
  }

  /** The load ends without one, by an error or a panic. */
  function Unmarked(s: Shard, k: Costs, p: nat, alloc: Alloc): Shard
    requires p in s.table && |s.table| <= s.tableCapacity <= s.slots && s.pending > 0
  {
    Release(WithoutMarker(s, p, alloc), k, alloc)
  }

  function WithoutMarker(s: Shard, p: nat, alloc: Alloc): Shard
    requires p in s.table && |s.table| <= s.tableCapacity <= s.slots && s.pending > 0
  {
    s.(table := s.table - {p}, tableCapacity := Between(alloc.afterRemoval, |s.table - {p}|, s.slots),
       pending := s.pending - 1)
  }

  lemma UnmarkedOk(s: Shard, k: Costs, p: nat, alloc: Alloc)
    requires ShardOk(s, k) && p in Markers(s.table)
    ensures s.pending > 0
    ensures var s' := Unmarked(s, k, p, alloc);
            && ShardOk(s', k) && s'.book <= s.book && s'.resident == s.resident
            && Markers(s'.table) == Markers(s.table) - {p}
  {
    WithoutMarkerOk(s, k, p, alloc);
    ReleaseOk(WithoutMarker(s, p, alloc), k, alloc);
  }

  lemma WithoutMarkerOk(s: Shard, k: Costs, p: nat, alloc: Alloc)
    requires ShardOk(s, k) && p in Markers(s.table)
    ensures s.pending > 0
    ensures ShardOk(WithoutMarker(s, p, alloc), k)
    ensures Markers(WithoutMarker(s, p, alloc).table) == Markers(s.table) - {p}
  {
    var s1 := WithoutMarker(s, p, alloc);
    ReadyBytesWithout(s.table, p);
    assert Markers(s1.table) == Markers(s.table) - {p};
    forall q | IsReady(s1, q)
      ensures q in s1.clock
    {
      assert IsReady(s, q);
    }
  }

  /** A hit marks the page as used. */
  lemma HitOk(s: Shard, k: Costs, p: nat)
    requires ShardOk(s, k) && IsReady(s, p)
    ensures var s' := s.(table := s.table[p := Ready(s.table[p].bytes, true)]);
            ShardOk(s', k) && Markers(s'.table) == Markers(s.table) && (RingOk(s) ==> RingOk(s'))
  {
    var s' := s.(table := s.table[p := Ready(s.table[p].bytes, true)]);
    ReadyBytesWithout(s.table, p);
    ReadyBytesWith(s.table, p, s'.table[p]);
    assert Markers(s'.table) == Markers(s.table);
    assert s'.table.Keys == s.table.Keys;
    forall q | IsReady(s', q)
      ensures q in s'.clock
    {
      assert IsReady(s, q);
    }
  }
}
