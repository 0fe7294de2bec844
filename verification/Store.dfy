/**
 The page store: everything that is kept on one budget and can be let go of (cached pages, directory
 chunks, retained roots), and what a reservation does to get at it.
 */
module Storing {
  import opened Base
  import opened Sequences
  import opened Shards

  const EVICT_ROUNDS: nat := 16

  // ---------------------------------------------------------------- evicting from all shards

  function ReadyPages(s: Shard): set<nat> {
    set p | p in s.table && s.table[p].Ready?
  }

  ghost function Pages(shards: seq<Shard>): nat {
    if shards == [] then 0 else Pages(shards[..|shards| - 1]) + |ReadyPages(shards[|shards| - 1])|
  }

  ghost function Resident(shards: seq<Shard>): nat {
    if shards == [] then 0 else Resident(shards[..|shards| - 1]) + shards[|shards| - 1].resident
  }

  lemma {:induction false} SumsChange(shards: seq<Shard>, i: nat, s: Shard)
    requires i < |shards|
    ensures Pages(shards[i := s]) + |ReadyPages(shards[i])| == Pages(shards) + |ReadyPages(s)|
    ensures Resident(shards[i := s]) + shards[i].resident == Resident(shards) + s.resident
  {
    var n := |shards| - 1;
    if i < n {
      SumsChange(shards[..n], i, s);
      assert shards[i := s][..n] == shards[..n][i := s];
    } else {
      assert shards[i := s][..n] == shards[..n];
    }
  }

  ghost predicate AllOk(shards: seq<Shard>, k: Costs) {
    forall i :: 0 <= i < |shards| ==> ShardOk(shards[i], k)
  }

  /** No shard has a page to give. */
  ghost predicate NothingCached(shards: seq<Shard>) {
    forall i :: 0 <= i < |shards| ==> NoneReady(shards[i])
  }

  /** The last `idle` shards looked at, coming round to `at`, have nothing to give. */
  ghost predicate IdleBefore(shards: seq<Shard>, at: nat, idle: nat) {
    && at < |shards| && idle <= |shards|
    && forall i :: 0 <= i < |shards| && (at - idle <= i < at || i >= |shards| + at - idle) ==> NoneReady(shards[i])
  }

  function Following(at: nat, count: nat): nat {
    if at + 1 < count then at + 1 else 0
  }

  lemma FewerReady(s: Shard, k: Costs, s': Shard, freed: Option<nat>)
    requires AfterEviction(s, k, s', freed) && freed.Some?
    ensures |ReadyPages(s')| < |ReadyPages(s)|
  {
    var p :| IsReady(s, p) && s.table[p].bytes == freed.value && s'.table.Keys == s.table.Keys - {p};
    assert p in ReadyPages(s) && ReadyPages(s') <= ReadyPages(s) - {p} by {
      forall q | q in ReadyPages(s')
        ensures q in ReadyPages(s) - {p}
      {
        assert IsReady(s', q);
        assert q in s'.table.Keys;
      }
    }
    SubsetCount(ReadyPages(s'), ReadyPages(s) - {p});
  }

  lemma StillNone(s: Shard, k: Costs, s': Shard)
    requires AfterEviction(s, k, s', None) && NoneReady(s)
    ensures NoneReady(s') && ReadyPages(s') == ReadyPages(s)
  {
    forall p | p in s'.table
      ensures !s'.table[p].Ready?
    {
      assert IsReady(s', p) ==> IsReady(s, p);
    }
  }

  /** Some shard has a cached page of this size. */
  ghost predicate HasPage(shards: seq<Shard>, bytes: nat) {
    exists i, p :: 0 <= i < |shards| && IsReady(shards[i], p) && shards[i].table[p].bytes == bytes
  }

  ghost predicate HasNoOthers(shards: seq<Shard>, next: seq<Shard>) {
    forall bytes: nat {:trigger HasPage(next, bytes)} :: HasPage(next, bytes) ==> HasPage(shards, bytes)
  }

  lemma OneOfThem(shards: seq<Shard>, k: Costs, at: nat, s': Shard, freed: Option<nat>)
    requires at < |shards| && AfterEviction(shards[at], k, s', freed)
    ensures HasNoOthers(shards, shards[at := s']) && (freed.Some? ==> HasPage(shards, freed.value))
  {
    var next := shards[at := s'];
    forall bytes: nat | HasPage(next, bytes)
      ensures HasPage(shards, bytes)
    {
      var i, p :| 0 <= i < |next| && IsReady(next[i], p) && next[i].table[p].bytes == bytes;
      assert IsReady(shards[i], p) && shards[i].table[p].bytes == bytes;
    }
    if freed.Some? {
      var p :| IsReady(shards[at], p) && shards[at].table[p].bytes == freed.value;
    }
  }

  /** What one shard's turn leaves. */
  ghost predicate AfterTurn(shards: seq<Shard>, k: Costs, at: nat, idle: nat, next: seq<Shard>, freed: Option<nat>) {
    && |next| == |shards| && AllOk(next, k)
    && IdleBefore(next, Following(at, |shards|), if freed.Some? then 0 else idle + 1)
    && Resident(next) + (if freed.Some? then freed.value else 0) == Resident(shards)
    && (if freed.Some? then Pages(next) < Pages(shards) else Pages(next) == Pages(shards))
  }

  lemma Turned(shards: seq<Shard>, k: Costs, at: nat, idle: nat, s': Shard, freed: Option<nat>)
    requires AllOk(shards, k) && IdleBefore(shards, at, idle) && idle < |shards|
    requires AfterEviction(shards[at], k, s', freed) && (freed.None? <==> NoneReady(shards[at]))
    ensures AfterTurn(shards, k, at, idle, shards[at := s'], freed)
  {
    SumsChange(shards, at, s');
    if freed.Some? {
      FewerReady(shards[at], k, s', freed);
    } else {
      StillNone(shards[at], k, s');
      IdleMore(shards, at, idle, s');
    }
  }

  lemma IdleMore(shards: seq<Shard>, at: nat, idle: nat, s': Shard)
    requires IdleBefore(shards, at, idle) && idle < |shards| && NoneReady(s')
    ensures IdleBefore(shards[at := s'], Following(at, |shards|), idle + 1)
  {
    var next := shards[at := s'];
    forall i | 0 <= i < |next| && i != at && NoneReady(shards[i])
      ensures NoneReady(next[i])
    {
      assert next[i] == shards[i];
    }
  }

  method TakeTurn(shards: seq<Shard>, k: Costs, at: nat, alloc: Alloc, ghost idle: nat)
    returns (next: seq<Shard>, freed: Option<nat>)
    requires AllOk(shards, k) && IdleBefore(shards, at, idle) && idle < |shards|
    ensures AfterTurn(shards, k, at, idle, next, freed)
    ensures HasNoOthers(shards, next) && (freed.Some? ==> HasPage(shards, freed.value))
  {
    var s;
    s, freed := EvictOne(shards[at], k, alloc);
    EvictOneWorks(shards[at], k, alloc);
    OneOfThem(shards, k, at, s, freed);
    Turned(shards, k, at, idle, s, freed);
    next := shards[at := s];
  }

  /** Lets go of pages until enough bytes are out, or no shard has one to give. */
  method EvictBytes(shards: seq<Shard>, k: Costs, target: nat, start: nat, alloc: nat -> Alloc)
    returns (shards': seq<Shard>, released: nat)
    requires AllOk(shards, k) && |shards| > 0
    ensures AllOk(shards', k) && |shards'| == |shards|
    ensures Resident(shards') + released == Resident(shards)
    ensures released < target ==> NothingCached(shards')
    ensures released > 0 ==> exists last: nat :: HasPage(shards, last) && last <= released < target + last
    ensures Pages(shards') <= Pages(shards) && (released > 0 ==> Pages(shards') < Pages(shards))
  {
    shards', released := shards, 0;
    var at: nat := start % |shards|;
    var idle: nat := 0;
    while released < target && idle < |shards|
      invariant |shards'| == |shards| && AllOk(shards', k) && IdleBefore(shards', at, idle)
      invariant Resident(shards') + released == Resident(shards)
      invariant HasNoOthers(shards, shards')
      invariant released > 0 ==> exists last: nat :: HasPage(shards, last) && last <= released < target + last
      invariant Pages(shards') <= Pages(shards) && (released > 0 ==> Pages(shards') < Pages(shards))
      decreases Pages(shards'), |shards| - idle
    {
      var freed;
      shards', freed := TakeTurn(shards', k, at, alloc(at), idle);
      at := Following(at, |shards|);
      match freed {
        case Some(bytes) => released, idle := released + bytes, 0;
        case None => idle := idle + 1;
      }
    }
  }

  // ---------------------------------------------------------------- the page directory

  /** A piece of the page directory: the slots from `index * perChunk` on. */
  datatype Chunk = Chunk(index: nat, slots: seq<int>, lastUsed: nat)

  datatype Directory = Directory(flat: seq<int>, perChunk: nat, maxChunks: nat, base: nat)

  const HEADER_LEN: int := 26

  ghost predicate DirectoryOk(d: Directory) {
    d.perChunk > 0 && d.maxChunks > 0
  }

  function ChunkEnd(d: Directory, index: nat): nat {
    var end := index * d.perChunk + d.perChunk;
    if end < |d.flat| then end else |d.flat|
  }

  /** The chunk is that piece of the directory. */
  ghost predicate ChunkOk(d: Directory, c: Chunk) {
    c.index * d.perChunk < |d.flat| && c.slots == d.flat[c.index * d.perChunk..ChunkEnd(d, c.index)]
  }

  ghost predicate ChunksOk(d: Directory, chunks: seq<Chunk>) {
    && DirectoryOk(d) && |chunks| <= d.maxChunks
    && (forall i :: 0 <= i < |chunks| ==> ChunkOk(d, chunks[i]))
    && (forall i, j :: 0 <= i < j < |chunks| ==> chunks[i].index != chunks[j].index)
  }

  /** The chunk used longest ago. */
  method LeastRecent(chunks: seq<Chunk>) returns (pos: nat)
    requires chunks != []
    ensures pos < |chunks| && forall i :: 0 <= i < |chunks| ==> chunks[pos].lastUsed <= chunks[i].lastUsed
  {
    pos := 0;
    var i := 1;
    while i < |chunks|
      invariant 1 <= i <= |chunks| && pos < i && forall j :: 0 <= j < i ==> chunks[pos].lastUsed <= chunks[j].lastUsed
    {
      if chunks[i].lastUsed < chunks[pos].lastUsed {
        pos := i;
      }
      i := i + 1;
    }
  }

  /** The chunk at `pos` taken out, the last one put in its place. */
  function SwapRemove(chunks: seq<Chunk>, pos: nat): (r: seq<Chunk>)
    requires pos < |chunks|
    ensures |r| == |chunks| - 1
    ensures forall i {:trigger r[i]} :: 0 <= i < |r| ==> r[i] == chunks[if i == pos then |chunks| - 1 else i]
  {
    chunks[pos := chunks[|chunks| - 1]][..|chunks| - 1]
  }

  /** `rest` is all the chunks but one, and none was used longer ago than that one. */
  ghost predicate DropsOldest(chunks: seq<Chunk>, rest: seq<Chunk>) {
    && |rest| + 1 == |chunks|
    && exists gone :: IsOldest(chunks, gone) && forall c :: c in rest <==> c in chunks && c != gone
  }

  ghost predicate IsOldest(chunks: seq<Chunk>, gone: Chunk) {
    gone in chunks && forall c :: c in chunks ==> gone.lastUsed <= c.lastUsed
  }

  lemma SwapRemoved(d: Directory, chunks: seq<Chunk>, pos: nat)
    requires ChunksOk(d, chunks) && pos < |chunks|
    requires forall i :: 0 <= i < |chunks| ==> chunks[pos].lastUsed <= chunks[i].lastUsed
    ensures ChunksOk(d, SwapRemove(chunks, pos)) && DropsOldest(chunks, SwapRemove(chunks, pos))
  {
    var rest, gone := SwapRemove(chunks, pos), chunks[pos];
    forall c
      ensures c in rest <==> c in chunks && c != gone
    {
      if c in chunks && c != gone {
        var i :| 0 <= i < |chunks| && chunks[i] == c;
        assert rest[if i == |chunks| - 1 then pos else i] == c;
      }
    }
    assert IsOldest(chunks, gone);
  }

  /** Drops the chunk used longest ago, if there is one. */
  method EvictChunk(d: Directory, chunks: seq<Chunk>) returns (chunks': seq<Chunk>, dropped: bool)
    requires ChunksOk(d, chunks)
    ensures ChunksOk(d, chunks') && (dropped <==> chunks != [])
    ensures if dropped then DropsOldest(chunks, chunks') else chunks' == chunks
  {
    if chunks == [] {
      return chunks, false;
    }
    var pos := LeastRecent(chunks);
    SwapRemoved(d, chunks, pos);
    return SwapRemove(chunks, pos), true;
  }

  ghost predicate HasChunk(chunks: seq<Chunk>, index: nat) {
    exists i :: 0 <= i < |chunks| && chunks[i].index == index
  }

  method FindChunk(chunks: seq<Chunk>, index: nat) returns (found: Option<nat>)
    ensures found.Some? ==> found.value < |chunks| && chunks[found.value].index == index
    ensures found.None? <==> !HasChunk(chunks, index)
  {
    var i := 0;
    while i < |chunks|
      invariant i <= |chunks| && forall j :: 0 <= j < i ==> chunks[j].index != index
    {
      if chunks[i].index == index {
        return Some(i);
      }
      i := i + 1;
    }
    return None;
  }

  /** Keeps a chunk that was read, unless it is there already. Where there is no room for one more the chunk used
      longest ago makes way for it, and only that one. */
  method InsertChunk(d: Directory, chunks: seq<Chunk>, c: Chunk) returns (chunks': seq<Chunk>)
    requires ChunksOk(d, chunks) && ChunkOk(d, c)
    ensures ChunksOk(d, chunks') && HasChunk(chunks', c.index)
    ensures HasChunk(chunks, c.index) ==> chunks' == chunks
    ensures !HasChunk(chunks, c.index) && |chunks| < d.maxChunks ==> chunks' == chunks + [c]
    ensures !HasChunk(chunks, c.index) && |chunks| >= d.maxChunks ==>
              exists rest :: DropsOldest(chunks, rest) && chunks' == rest + [c]
  {
    var found := FindChunk(chunks, c.index);
    if found.Some? {
      return chunks;
    }
    var rest := chunks;
    if |chunks| >= d.maxChunks {
      var pos := LeastRecent(chunks);
      SwapRemoved(d, chunks, pos);
      rest := SwapRemove(chunks, pos);
    }
    chunks' := rest + [c];
    assert chunks'[|chunks'| - 1].index == c.index;
  }

  // ---------------------------------------------------------------- what can be let go of

  /** What is held on the budget, and how much of the budget is in use. */
  datatype Pool = Pool(shards: seq<Shard>, chunks: seq<Chunk>, roots: seq<nat>, used: nat)

  ghost predicate PoolOk(p: Pool, k: Costs, d: Directory, limit: nat) {
    |p.shards| > 0 && AllOk(p.shards, k) && ChunksOk(d, p.chunks) && p.used <= limit
  }

  ghost predicate Subset(some: seq<Chunk>, chunks: seq<Chunk>) {
    forall c :: c in some ==> c in chunks
  }

  /** Every chunk was used before this tick. */
  ghost predicate UsedBefore(chunks: seq<Chunk>, tick: nat) {
    forall c :: c in chunks ==> c.lastUsed < tick
  }

  /** The chunk is held, and every other was used before it. */
  ghost predicate UsedLast(chunks: seq<Chunk>, index: nat) {
    exists last :: last in chunks && last.index == index
                && forall c :: c in chunks && c != last ==> c.lastUsed < last.lastUsed
  }

  ghost predicate NothingLeft(p: Pool) {
    NothingCached(p.shards) && p.chunks == [] && p.roots == []
  }

  /** How often something can still be let go of. */
  ghost function Holds(p: Pool): nat {
    Pages(p.shards) + |p.chunks| + if p.roots == [] then 0 else 1
  }

  /** Memory comes back as the last reader of it lets go: how much of it, and when, is not up to the store. */
  function Returned(used: nat, back: nat): nat {
    if back <= used then used - back else 0
  }

  function Sum(lengths: seq<nat>): nat {
    if lengths == [] then 0 else lengths[0] + Sum(lengths[1..])
  }

  /** What the allocator and the readers of pages decide during one round. */
  datatype Round = Round(start: nat, alloc: nat -> Alloc, back: nat)

  /** Lets go of cached pages, or if there are none of the retained roots. */
  method ReclaimPages(p: Pool, k: Costs, bytes: nat, round: Round) returns (p': Pool, freed: nat)
    requires |p.shards| > 0 && AllOk(p.shards, k)
    ensures |p'.shards| > 0 && AllOk(p'.shards, k) && p'.chunks == p.chunks && p'.used <= p.used
    ensures Holds(p') <= Holds(p) && (freed > 0 ==> Holds(p') < Holds(p))
    ensures freed == 0 ==> p'.used == p.used && (bytes > 0 ==> NothingCached(p'.shards) && p'.roots == [])
    ensures bytes > 0 && p'.roots != p.roots ==> NothingCached(p'.shards) && p'.roots == []
  {
    var shards;
    shards, freed := EvictBytes(p.shards, k, bytes, round.start, round.alloc);
    p' := p.(shards := shards);
    if freed == 0 {
      freed := Sum(p.roots);
      p' := p'.(roots := []);
    }
    if freed > 0 {
      p' := p'.(used := Returned(p.used, round.back));
    }
  }

  /** One round of a reservation: pages first, then a chunk, then the roots. */
  method ReclaimAny(p: Pool, k: Costs, d: Directory, bytes: nat, round: Round) returns (p': Pool, any: bool)
    requires |p.shards| > 0 && AllOk(p.shards, k) && ChunksOk(d, p.chunks)
    ensures |p'.shards| > 0 && AllOk(p'.shards, k) && ChunksOk(d, p'.chunks) && p'.used <= p.used
    ensures p'.chunks == p.chunks || DropsOldest(p.chunks, p'.chunks)
    ensures bytes > 0 && p'.chunks != p.chunks ==> NothingCached(p'.shards) && p'.roots == p.roots
    ensures bytes > 0 && p'.roots != p.roots ==> NothingCached(p'.shards) && p.chunks == [] && p'.roots == []
    ensures Holds(p') <= Holds(p) && (any ==> Holds(p') < Holds(p))
    ensures !any && bytes > 0 ==> NothingLeft(p')
  {
    var shards, freed := EvictBytes(p.shards, k, bytes, round.start, round.alloc);
    p' := p.(shards := shards, used := Returned(p.used, round.back));
    any := freed > 0;
    if freed == 0 {
      var chunks;
      chunks, any := EvictChunk(d, p.chunks);
      p' := p'.(chunks := chunks);
      if !any {
        any := Sum(p.roots) > 0;
        p' := p'.(roots := []);
      }
    }
  }

  /** How many pages are cached. */
  method CountPages(shards: seq<Shard>) returns (n: nat)
    ensures n == Pages(shards)
  {
    n := 0;
    var i := 0;
    while i < |shards|
      invariant i <= |shards| && n == Pages(shards[..i])
    {
      n := n + |ReadyPages(shards[i])|;
      assert shards[..i + 1][..i] == shards[..i];
      i := i + 1;
    }
    assert shards[..i] == shards;
  }

  const SLOT_LEN: nat := 8
  const BUFFER_OVERHEAD: nat := 192

  /** The store takes memory from whatever can be let go of, and gives up only when nothing can. */
  class PageStore {
    const k: Costs
    const d: Directory
    const limit: nat
    var pool: Pool
    var tick: nat

    ghost predicate Valid()
      reads this
    {
      CostsOk(k) && PoolOk(pool, k, d, limit) && UsedBefore(pool.chunks, tick)
    }

    constructor (k: Costs, d: Directory, limit: nat, shardCount: nat)
      requires CostsOk(k) && DirectoryOk(d) && shardCount > 0 && ShardOk(EMPTY, k)
      ensures Valid() && pool.used == 0 && this.limit == limit && this.d == d
    {
      this.k, this.d, this.limit := k, d, limit;
      pool, tick := Pool(seq(shardCount, _ => EMPTY), [], [], 0), 0;
    }

    /** Takes from the budget, if there is room. */
    method TryReserve(bytes: nat) returns (ok: bool)
      requires Valid()
      modifies this
      ensures Valid() && tick == old(tick) && (ok <==> old(pool.used) + bytes <= limit)
      ensures pool == if ok then old(pool).(used := old(pool.used) + bytes) else old(pool)
    {
      ok := pool.used + bytes <= limit;
      if ok {
        pool := pool.(used := pool.used + bytes);
      }
    }

    /** A request that could ever fit is refused only once everything has been let go of. */
    method Reserve(bytes: nat, rounds: nat -> Round) returns (r: Result<()>)
      requires Valid()
      modifies this
      ensures Valid()
      ensures old(pool.used) + bytes <= limit ==> r.Ok? && pool == old(pool).(used := old(pool.used) + bytes)
      ensures bytes > limit ==> r.Err? && pool == old(pool)
      ensures r.Ok? ==> bytes <= pool.used <= limit
      ensures r.Err? ==> r.kind == BudgetExceeded && pool.used + bytes > limit
      ensures r.Err? && bytes <= limit ==> NothingLeft(pool)
    {
      var ok := TryReserve(bytes);
      if ok {
        return Ok(());
      }
      if bytes > limit {
        return Err(BudgetExceeded);
      }
      var pages := CountPages(pool.shards);
      var left := pages + |pool.chunks| + EVICT_ROUNDS;
      while left > 0
        invariant Valid() && pool.used + bytes > limit && left > Holds(pool) + 1
      {
        left := left - 1;
        var any;
        pool, any := ReclaimAny(pool, k, d, bytes, rounds(left));
        ok := TryReserve(bytes);
        if ok {
          return Ok(());
        }
        if !any {
          return Err(BudgetExceeded);
        }
      }
      return Err(BudgetExceeded);
    }

    /** Makes room for a chunk: another chunk first, then pages, then the roots. */
    method ReserveChunk(wanted: nat, rounds: nat -> Round) returns (ok: bool)
      requires Valid() && wanted > 0
      modifies this
      ensures Valid() && tick == old(tick) && Subset(pool.chunks, old(pool.chunks))
      ensures ok ==> wanted <= pool.used <= limit
      ensures !ok ==> NothingLeft(pool) && pool.used + wanted > limit
    {
      var turn: nat := 0;
      while true
        invariant Valid() && tick == old(tick) && Subset(pool.chunks, old(pool.chunks))
        decreases Holds(pool)
      {
        ok := TryReserve(wanted);
        if ok {
          return;
        }
        var chunks, dropped := EvictChunk(d, pool.chunks);
        var round := rounds(turn);
        turn := turn + 1;
        if dropped {
          pool := pool.(chunks := chunks, used := Returned(pool.used, round.back));
        } else {
          var freed;
          pool, freed := ReclaimPages(pool, k, wanted, round);
          if freed == 0 {
            return;
          }
        }
      }
    }

    /** Where a page is: what the directory says, if that is inside the page area, whichever chunks are held. The
        chunk it was read from is then the one used last. */
    method OffsetOf(ordinal: nat, rounds: nat -> Round, readable: bool) returns (r: Result<nat>)
      requires Valid()
      modifies this
      ensures Valid()
      ensures ordinal >= |d.flat| ==> r == Err(Corrupt)
      ensures ordinal < |d.flat| && r != Err(Io) && r != Err(BudgetExceeded) ==>
                && r == (if 26 <= d.flat[ordinal] < d.base then Ok(d.flat[ordinal]) else Err(Corrupt))
                && UsedLast(pool.chunks, ordinal / d.perChunk)
      ensures r == Err(Io) || r == Err(BudgetExceeded) ==> !HasChunk(old(pool.chunks), ordinal / d.perChunk)
      ensures r == Err(Io) ==> !readable
      ensures r == Err(BudgetExceeded) ==> NothingLeft(pool)
    {
      if ordinal >= |d.flat| {
        return Err(Corrupt);
      }
      var cached := LookUp(ordinal);
      if cached.Some? {
        return Validate(d, cached.value);
      }
      var raw := ReadSlot(ordinal, rounds, readable);
      if raw.Err? {
        return Err(raw.kind);
      }
      r := Validate(d, raw.value);
    }

    /** The slot of an ordinal, if its chunk is held. */
    method LookUp(ordinal: nat) returns (raw: Option<int>)
      requires Valid() && ordinal < |d.flat|
      modifies this
      ensures Valid()
      ensures raw.Some? <==> HasChunk(old(pool.chunks), ordinal / d.perChunk)
      ensures raw.Some? ==> raw.value == d.flat[ordinal] && UsedLast(pool.chunks, ordinal / d.perChunk)
      ensures raw.None? ==> pool == old(pool)
    {
      InChunk(d, ordinal);
      var found := FindChunk(pool.chunks, ordinal / d.perChunk);
      var now := tick;
      tick := now + 1;
      if found.None? {
        return None;
      }
      var c := pool.chunks[found.value];
      Touched(d, pool.chunks, found.value, now);
      TouchedLast(d, pool.chunks, found.value, now);
      pool := pool.(chunks := pool.chunks[found.value := c.(lastUsed := now)]);
      raw := Some(c.slots[ordinal % d.perChunk]);
    }

    /** Reads the chunk of an ordinal, and keeps it. */
    method ReadSlot(ordinal: nat, rounds: nat -> Round, readable: bool) returns (r: Result<int>)
      requires Valid() && ordinal < |d.flat| && !HasChunk(pool.chunks, ordinal / d.perChunk)
      modifies this
      ensures Valid()
      ensures r.Ok? ==> r.value == d.flat[ordinal] && UsedLast(pool.chunks, ordinal / d.perChunk)
      ensures r.Err? ==> (r.kind == Io && !readable) || (r.kind == BudgetExceeded && NothingLeft(pool))
    {
      InChunk(d, ordinal);
      var index := ordinal / d.perChunk;
      var first, end := index * d.perChunk, ChunkEnd(d, index);
      var wanted := (end - first) * SLOT_LEN + BUFFER_OVERHEAD;
      var ok := ReserveChunk(wanted, rounds);
      if !ok {
        return Err(BudgetExceeded);
      }
      if !readable {
        pool := pool.(used := Returned(pool.used, wanted));
        return Err(Io);
      }
      var c := Chunk(index, d.flat[first..end], tick);
      Hold(c);
      r := Ok(c.slots[ordinal % d.perChunk]);
    }

    /** Keeps a chunk that was just read. */
    method Hold(c: Chunk)
      requires Valid() && ChunkOk(d, c) && !HasChunk(pool.chunks, c.index) && c.lastUsed == tick
      modifies this
      ensures Valid() && UsedLast(pool.chunks, c.index)
    {
      var chunks := InsertChunk(d, pool.chunks, c);
      InsertedLast(pool.chunks, c, chunks);
      pool, tick := pool.(chunks := chunks), tick + 1;
    }
  }

  lemma InsertedLast(chunks: seq<Chunk>, c: Chunk, chunks': seq<Chunk>)
    requires UsedBefore(chunks, c.lastUsed)
    requires chunks' == chunks + [c] || exists rest :: DropsOldest(chunks, rest) && chunks' == rest + [c]
    ensures UsedLast(chunks', c.index) && UsedBefore(chunks', c.lastUsed + 1)
  {
    assert c in chunks';
    if chunks' != chunks + [c] {
      var rest :| DropsOldest(chunks, rest) && chunks' == rest + [c];
      assert Subset(rest, chunks);
    }
  }

  /** An offset inside the page area. */
  function Validate(d: Directory, raw: int): Result<nat> {
    if raw < HEADER_LEN || raw >= d.base then Err(Corrupt) else Ok(raw)
  }

  /** The chunks tile the directory: chunk `index` has exactly the ordinals that are looked for in it. */
  lemma ChunksTile(d: Directory, index: nat, ordinal: nat)
    requires d.perChunk > 0 && ordinal < |d.flat|
    ensures ordinal / d.perChunk == index <==> index * d.perChunk <= ordinal < ChunkEnd(d, index)
    ensures ChunkEnd(d, index) <= index * d.perChunk + d.perChunk
  {
    var q, r := ordinal / d.perChunk, ordinal % d.perChunk;
    assert ordinal == q * d.perChunk + r;
    if index < q {
      Multiples(index, q, d.perChunk);
    } else if q < index {
      Multiples(q, index, d.perChunk);
    }
  }

  lemma Multiples(a: nat, b: nat, n: nat)
    requires a < b
    ensures a * n + n <= b * n
  {
    var more: nat := b - a - 1;
    assert b * n == (a + 1 + more) * n == a * n + n + more * n;
  }

  /** The slot of an ordinal, in its chunk. */
  lemma InChunk(d: Directory, ordinal: nat)
    requires d.perChunk > 0 && ordinal < |d.flat|
    ensures var first := ordinal / d.perChunk * d.perChunk;
            && first + ordinal % d.perChunk == ordinal
            && first <= ordinal < ChunkEnd(d, ordinal / d.perChunk)
  {
    var q, r := ordinal / d.perChunk, ordinal % d.perChunk;
    assert ordinal == d.perChunk * q + r;
    assert q * d.perChunk == d.perChunk * q;
  }

  lemma TouchedLast(d: Directory, chunks: seq<Chunk>, i: nat, tick: nat)
    requires ChunksOk(d, chunks) && i < |chunks| && UsedBefore(chunks, tick)
    ensures var next := chunks[i := chunks[i].(lastUsed := tick)];
            UsedLast(next, chunks[i].index) && UsedBefore(next, tick + 1)
  {
    var last := chunks[i].(lastUsed := tick);
    var next := chunks[i := last];
    assert next[i] == last;
    forall c | c in next && c != last
      ensures c.lastUsed < tick
    {
      var j :| 0 <= j < |next| && next[j] == c;
      assert chunks[j] in chunks;
    }
  }

  lemma Touched(d: Directory, chunks: seq<Chunk>, i: nat, tick: nat)
    requires ChunksOk(d, chunks) && i < |chunks|
    ensures ChunksOk(d, chunks[i := chunks[i].(lastUsed := tick)])
  {
    var next := chunks[i := chunks[i].(lastUsed := tick)];
    forall j | 0 <= j < |next|
      ensures ChunkOk(d, next[j]) && next[j].index == chunks[j].index
    {
      assert ChunkOk(d, chunks[j]);
    }
  }
}
