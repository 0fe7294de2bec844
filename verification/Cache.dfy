/**
 The page cache as a protocol. Every critical section, every reservation and every notification is one
 step of one thread, and steps of different threads interleave in any order. A miss marks its page as
 loading, loads it with no lock held, and publishes what came of it; others who want the page wait.
 */
module Caching {
  import opened Base
  import opened Shards

  const LOADING_SLOT_BYTES: nat := 128
  const RESERVE_ATTEMPTS: nat := 8

  /** Where a thread is in `get_or_load`. */
  datatype Phase =
    | Idle
    | Looking(page: nat, charge: Option<nat>, attempts: nat)
    | Waiting(page: nat, charge: Option<nat>, attempts: nat)
    | Reserving(page: nat, want: nat, attempts: nat)
    | Fetching(page: nat)
    | Notifying(shard: nat)

  datatype Cache = Cache(shardOf: nat -> nat, costs: Costs, capacity: nat, limit: nat)

  /** `others` is what everything outside the cache has charged to the budget. */
  datatype State = State(shards: seq<Shard>, threads: seq<Phase>, used: nat, others: nat)

  datatype Event =
    | Call(thread: nat, page: nat)
    | Look(thread: nat, tableCapacity: nat)
    | Reserve(thread: nat, ok: bool)
    /** The load ends: with a page of this size, or with none, by an error or a panic. */
    | Load(thread: nat, loaded: Option<nat>, alloc: nat -> Alloc)
    | Notify(thread: nat)
    /** A wait may end for no reason. */
    | Wake(thread: nat)
    | Evict(shard: nat, one: Alloc)
    | Take(amount: nat)
    | Return(amount: nat)

  // ---------------------------------------------------------------- sums over shards and threads

  ghost function Books(shards: seq<Shard>): nat {
    if shards == [] then 0 else Books(shards[..|shards| - 1]) + shards[|shards| - 1].book
  }

  function ChargeOf(p: Phase): nat {
    if (p.Looking? || p.Waiting?) && p.charge.Some? then p.charge.value else 0
  }

  ghost function Charges(threads: seq<Phase>): nat {
    if threads == [] then 0 else Charges(threads[..|threads| - 1]) + ChargeOf(threads[|threads| - 1])
  }

  lemma {:induction false} BooksChange(shards: seq<Shard>, i: nat, s: Shard)
    requires i < |shards|
    ensures Books(shards[i := s]) + shards[i].book == Books(shards) + s.book
  {
    var n := |shards| - 1;
    if i < n {
      BooksChange(shards[..n], i, s);
      assert shards[i := s][..n] == shards[..n][i := s];
    } else {
      assert shards[i := s][..n] == shards[..n];
    }
  }

  lemma {:induction false} ChargesChange(threads: seq<Phase>, i: nat, p: Phase)
    requires i < |threads|
    ensures Charges(threads[i := p]) + ChargeOf(threads[i]) == Charges(threads) + ChargeOf(p)
  {
    var n := |threads| - 1;
    if i < n {
      ChargesChange(threads[..n], i, p);
      assert threads[i := p][..n] == threads[..n][i := p];
    } else {
      assert threads[i := p][..n] == threads[..n];
    }
  }

  lemma {:induction false} ChargesSame(a: seq<Phase>, b: seq<Phase>)
    requires |a| == |b| && forall i :: 0 <= i < |a| ==> ChargeOf(a[i]) == ChargeOf(b[i])
    ensures Charges(a) == Charges(b)
  {
    if a != [] {
      var n := |a| - 1;
      ChargesSame(a[..n], b[..n]);
    }
  }

  // ---------------------------------------------------------------- the invariant

  /** A shard in order, with every cached page on its ring once and nothing else, and inside its capacity. */
  ghost predicate Fits(c: Cache, shard: Shard) {
    ShardOk(shard, c.costs) && RingOk(shard) && shard.resident <= c.capacity
  }

  ghost predicate ShardsOk(c: Cache, s: State) {
    && (forall p: nat :: c.shardOf(p) < |s.shards|)
    && (forall k :: 0 <= k < |s.shards| ==> Fits(c, s.shards[k]))
  }

  /** A load for `p` is marked. */
  ghost predicate Live(c: Cache, s: State, p: nat) {
    c.shardOf(p) < |s.shards| && p in Markers(s.shards[c.shardOf(p)].table)
  }

  /** Every marker belongs to exactly one thread, which is loading that page, and the other way round. */
  ghost predicate Owned(c: Cache, s: State) {
    && (forall k, p :: 0 <= k < |s.shards| && p in Markers(s.shards[k].table) ==> c.shardOf(p) == k)
    && (forall p: nat :: Live(c, s, p) ==> exists t :: 0 <= t < |s.threads| && s.threads[t] == Fetching(p))
    && (forall t :: 0 <= t < |s.threads| && s.threads[t].Fetching? ==> Live(c, s, s.threads[t].page))
    && (forall t, u :: 0 <= t < u < |s.threads| && s.threads[t].Fetching? && s.threads[u].Fetching? ==>
                         s.threads[t].page != s.threads[u].page)
  }

  /** Nobody waits in vain: the page waited for is still being loaded, or somebody is about to wake the
      shard. */
  ghost predicate WillWake(c: Cache, s: State) {
    forall t :: 0 <= t < |s.threads| && s.threads[t].Waiting? ==>
      || Live(c, s, s.threads[t].page)
      || exists u :: 0 <= u < |s.threads| && s.threads[u] == Notifying(c.shardOf(s.threads[t].page))
  }

  /** The budget counts what is held and is never exceeded. */
  ghost predicate Paid(c: Cache, s: State) {
    s.used == Books(s.shards) + Charges(s.threads) + s.others && s.used <= c.limit
  }

  ghost predicate Inv(c: Cache, s: State) {
    CostsOk(c.costs) && ShardsOk(c, s) && Owned(c, s) && WillWake(c, s) && Paid(c, s)
  }

  // ---------------------------------------------------------------- the steps

  function Set(s: State, t: nat, p: Phase): State
    requires t < |s.threads|
  {
    s.(threads := s.threads[t := p])
  }

  /** A shard replaced, and what that frees or costs settled with the budget. */
  function Put(s: State, k: nat, shard: Shard): State
    requires k < |s.shards| && s.used + shard.book >= s.shards[k].book
  {
    s.(shards := s.shards[k := shard], used := s.used + shard.book - s.shards[k].book)
  }

  /** The thread lets go of what it had reserved. */
  function Dropped(s: State, t: nat, p: Phase): State
    requires t < |s.threads| && ChargeOf(s.threads[t]) <= s.used && ChargeOf(p) == 0
  {
    Set(s, t, p).(used := s.used - ChargeOf(s.threads[t]))
  }

  /** What a miss asks for before it marks its page. */
  function Wanted(c: Cache, shard: Shard): nat {
    LOADING_SLOT_BYTES + GrowthForOneMore(shard, c.costs)
  }

  /** One look at the shard, with it locked: a hit, a wait, a reservation to make, or the marker. */
  ghost predicate LookStep(c: Cache, s: State, t: nat, tableCapacity: nat, s': State)
    requires t < |s.threads| && s.threads[t].Looking?
    requires c.shardOf(s.threads[t].page) < |s.shards| && ChargeOf(s.threads[t]) <= s.used
  {
    var Looking(p, charge, attempts) := s.threads[t];
    var k := c.shardOf(p);
    var shard := s.shards[k];
    if p in shard.table then
      match shard.table[p]
      case Ready(bytes, _) =>
        s' == Dropped(s, t, Idle).(shards := s.shards[k := shard.(table := shard.table[p := Ready(bytes, true)])])
      case Loading => s' == Set(s, t, Waiting(p, charge, attempts))
    else if charge.None? then s' == Set(s, t, Reserving(p, Wanted(c, shard), attempts))
    else if charge.value < GrowthForOneMore(shard, c.costs) then
      // The shard grew while the lock was down, so what was reserved may not cover it any more.
      s' == Dropped(s, t, if attempts + 1 > RESERVE_ATTEMPTS then Idle
        else Reserving(p, Wanted(c, shard), attempts + 1))
    else
      var marked := Marked(shard, c.costs, p, tableCapacity);
      && InsertFits(shard, c.costs, tableCapacity)
      && s'.shards == s.shards[k := marked]
      && s'.threads == s.threads[t := Fetching(p)]
      && s'.others == s.others
      && s'.used + shard.book + charge.value == s.used + marked.book
  }

  /** The shard after a load has ended. */
  ghost function Ended(c: Cache, shard: Shard, p: nat, loaded: Option<nat>, alloc: nat -> Alloc): Shard
    requires ShardOk(shard, c.costs) && p in Markers(shard.table)
  {
    UnmarkedOk(shard, c.costs, p, alloc(0));
    match loaded
    case Some(bytes) => Published(shard, c.costs, p, bytes, c.capacity, alloc)
    case None => Unmarked(shard, c.costs, p, alloc(0))
  }

  function Woken(p: Phase, shard: nat, c: Cache): Phase {
    if p.Waiting? && c.shardOf(p.page) == shard then Looking(p.page, p.charge, p.attempts) else p
  }

  function WokenAll(c: Cache, threads: seq<Phase>, shard: nat): (woken: seq<Phase>)
    ensures |woken| == |threads|
    ensures forall i {:trigger woken[i]} :: 0 <= i < |woken| ==> woken[i] == Woken(threads[i], shard, c)
  {
    seq(|threads|, i requires 0 <= i < |threads| => Woken(threads[i], shard, c))
  }

  /** One step of the protocol. */
  ghost predicate Next(c: Cache, s: State, e: Event, s': State)
    requires Inv(c, s)
  {
    ChargesBound(s.threads);
    BooksBound(s.shards);
    match e
    case Call(t, p) => t < |s.threads| && s.threads[t].Idle? && s' == Set(s, t, Looking(p, None, 0))
    case Look(t, tableCapacity) => t < |s.threads| && s.threads[t].Looking? && LookStep(c, s, t, tableCapacity, s')
    case Reserve(t, ok) =>
      && t < |s.threads| && s.threads[t].Reserving?
      && var Reserving(p, want, attempts) := s.threads[t];
      if ok then s.used + want <= c.limit && s' == Set(s, t, Looking(p, Some(want), attempts)).(used := s.used + want)
      else s' == Set(s, t, Idle)
    case Load(t, loaded, alloc) =>
      && t < |s.threads| && s.threads[t].Fetching?
      && var p := s.threads[t].page;
      var k := c.shardOf(p);
      assert Live(c, s, p);
      var ended := Ended(c, s.shards[k], p, loaded, alloc);
      s' == Set(Put(s, k, ended), t, Notifying(k))
    case Notify(t) =>
      && t < |s.threads| && s.threads[t].Notifying?
      && s' == s.(threads := WokenAll(c, s.threads, s.threads[t].shard)[t := Idle])
    case Wake(t) =>
      && t < |s.threads| && s.threads[t].Waiting?
      && s' == Set(s, t, Looking(s.threads[t].page, s.threads[t].charge, s.threads[t].attempts))
    case Evict(k, alloc) => k < |s.shards| && s' == Put(s, k, EvictOneSpec(s.shards[k], c.costs, alloc).0)
    case Take(n) => s.used + n <= c.limit && s' == s.(used := s.used + n, others := s.others + n)
    case Return(n) => n <= s.others && s' == s.(used := s.used - n, others := s.others - n)
  }

  lemma {:induction false} ChargesBound(threads: seq<Phase>)
    ensures forall t :: 0 <= t < |threads| ==> ChargeOf(threads[t]) <= Charges(threads)
  {
    if threads != [] {
      ChargesBound(threads[..|threads| - 1]);
    }
  }

  lemma {:induction false} BooksBound(shards: seq<Shard>)
    ensures forall k :: 0 <= k < |shards| ==> shards[k].book <= Books(shards)
  {
    if shards != [] {
      BooksBound(shards[..|shards| - 1]);
    }
  }

  // ---------------------------------------------------------------- one thread changes its phase

  lemma OwnedSet(c: Cache, s: State, t: nat, p: Phase)
    requires Owned(c, s) && t < |s.threads| && !s.threads[t].Fetching? && !p.Fetching?
    ensures Owned(c, Set(s, t, p))
  {
    var s' := Set(s, t, p);
    forall q: nat | Live(c, s', q)
      ensures exists u :: 0 <= u < |s'.threads| && s'.threads[u] == Fetching(q)
    {
      assert Live(c, s, q);
      var u :| 0 <= u < |s.threads| && s.threads[u] == Fetching(q);
      assert s'.threads[u] == Fetching(q);
    }
    forall u | 0 <= u < |s'.threads| && s'.threads[u].Fetching?
      ensures Live(c, s', s'.threads[u].page)
    {
      assert Live(c, s, s.threads[u].page);
    }
  }

  lemma WillWakeSet(c: Cache, s: State, t: nat, p: Phase)
    requires WillWake(c, s) && t < |s.threads| && !s.threads[t].Notifying? && (p.Waiting? ==> Live(c, s, p.page))
    ensures WillWake(c, Set(s, t, p))
  {
    var s' := Set(s, t, p);
    forall u | 0 <= u < |s'.threads| && s'.threads[u].Waiting? && !Live(c, s', s'.threads[u].page)
      ensures exists w :: 0 <= w < |s'.threads| && s'.threads[w] == Notifying(c.shardOf(s'.threads[u].page))
    {
      var q := s'.threads[u].page;
      assert Live(c, s, q) == Live(c, s', q);
      var w :| 0 <= w < |s.threads| && s.threads[w] == Notifying(c.shardOf(q));
      assert s'.threads[w] == s.threads[w];
    }
  }

  /** A phase that neither loads nor notifies, changed for another such. */
  lemma SetKeeps(c: Cache, s: State, t: nat, p: Phase, s': State)
    requires Inv(c, s) && t < |s.threads|
    requires !s.threads[t].Fetching? && !p.Fetching? && !s.threads[t].Notifying? && (p.Waiting? ==> Live(c, s, p.page))
    requires s'.shards == s.shards && s'.threads == s.threads[t := p] && s'.others == s.others
    requires s'.used + ChargeOf(s.threads[t]) == s.used + ChargeOf(p) && s'.used <= c.limit
    ensures Inv(c, s')
  {
    OwnedSet(c, s, t, p);
    WillWakeSet(c, s, t, p);
    ChargesChange(s.threads, t, p);
    SameShards(c, Set(s, t, p), s');
  }

  lemma SameShards(c: Cache, s: State, s': State)
    requires s'.shards == s.shards && s'.threads == s.threads
    ensures ShardsOk(c, s) ==> ShardsOk(c, s')
    ensures Owned(c, s) ==> Owned(c, s')
    ensures WillWake(c, s) ==> WillWake(c, s')
  {
    assert forall p: nat :: Live(c, s', p) == Live(c, s, p);
  }

  // ---------------------------------------------------------------- one shard changes, markers and all

  ghost predicate SameMarkers(a: Shard, b: Shard) {
    Markers(a.table) == Markers(b.table)
  }

  lemma LivePut(c: Cache, s: State, k: nat, shard: Shard, used: nat)
    requires k < |s.shards| && SameMarkers(s.shards[k], shard)
    ensures forall p: nat :: Live(c, s.(shards := s.shards[k := shard], used := used), p) == Live(c, s, p)
  {
  }

  lemma ShardsPut(c: Cache, s: State, k: nat, shard: Shard, s': State)
    requires ShardsOk(c, s) && k < |s.shards| && Fits(c, shard)
    requires s'.shards == s.shards[k := shard]
    ensures ShardsOk(c, s')
  {
  }

  lemma PutKeeps(c: Cache, s: State, k: nat, shard: Shard, used: nat)
    requires Inv(c, s) && k < |s.shards| && Fits(c, shard)
    requires SameMarkers(s.shards[k], shard)
    requires used + s.shards[k].book == s.used + shard.book && used <= c.limit
    ensures Inv(c, s.(shards := s.shards[k := shard], used := used))
  {
    var s' := s.(shards := s.shards[k := shard], used := used);
    ShardsPut(c, s, k, shard, s');
    LivePut(c, s, k, shard, used);
    OwnedPut(c, s, k, shard, used);
    BooksChange(s.shards, k, shard);
    assert WillWake(c, s');
  }

  lemma OwnedPut(c: Cache, s: State, k: nat, shard: Shard, used: nat)
    requires Owned(c, s) && k < |s.shards| && SameMarkers(s.shards[k], shard)
    ensures Owned(c, s.(shards := s.shards[k := shard], used := used))
  {
    var s' := s.(shards := s.shards[k := shard], used := used);
    LivePut(c, s, k, shard, used);
    forall q: nat | Live(c, s', q)
      ensures exists u :: 0 <= u < |s'.threads| && s'.threads[u] == Fetching(q)
    {
      assert Live(c, s, q);
    }
  }

  // ---------------------------------------------------------------- a marker goes in

  lemma MarkedOwned(c: Cache, s: State, t: nat, p: nat, shard: Shard, s': State)
    requires Owned(c, s) && t < |s.threads| && !s.threads[t].Fetching? && c.shardOf(p) < |s.shards| && !Live(c, s, p)
    requires Markers(shard.table) == Markers(s.shards[c.shardOf(p)].table) + {p}
    requires s'.shards == s.shards[c.shardOf(p) := shard] && s'.threads == s.threads[t := Fetching(p)]
    ensures Owned(c, s')
  {
    forall q: nat | Live(c, s', q)
      ensures exists u :: 0 <= u < |s'.threads| && s'.threads[u] == Fetching(q)
    {
      if q == p {
        assert s'.threads[t] == Fetching(p);
      } else {
        assert Live(c, s, q);
        var u :| 0 <= u < |s.threads| && s.threads[u] == Fetching(q);
        assert s'.threads[u] == Fetching(q);
      }
    }
    forall u | 0 <= u < |s'.threads| && s'.threads[u].Fetching?
      ensures Live(c, s', s'.threads[u].page)
      ensures u != t ==> s'.threads[u].page != p
    {
      if u != t {
        assert Live(c, s, s.threads[u].page);
      }
    }
  }

  lemma MarkedWake(c: Cache, s: State, t: nat, p: nat, shard: Shard, s': State)
    requires WillWake(c, s) && t < |s.threads| && s.threads[t].Looking? && c.shardOf(p) < |s.shards|
    requires Markers(shard.table) == Markers(s.shards[c.shardOf(p)].table) + {p}
    requires s'.shards == s.shards[c.shardOf(p) := shard] && s'.threads == s.threads[t := Fetching(p)]
    ensures WillWake(c, s')
  {
    forall u | 0 <= u < |s'.threads| && s'.threads[u].Waiting? && !Live(c, s', s'.threads[u].page)
      ensures exists w :: 0 <= w < |s'.threads| && s'.threads[w] == Notifying(c.shardOf(s'.threads[u].page))
    {
      var q := s'.threads[u].page;
      assert !Live(c, s, q);
      var w :| 0 <= w < |s.threads| && s.threads[w] == Notifying(c.shardOf(q));
      assert s'.threads[w] == s.threads[w];
    }
  }

  // ---------------------------------------------------------------- a marker comes out

  lemma EndedOwned(c: Cache, s: State, t: nat, shard: Shard, s': State)
    requires Owned(c, s) && t < |s.threads| && s.threads[t].Fetching?
    requires c.shardOf(s.threads[t].page) < |s.shards|
    requires Markers(shard.table) == Markers(s.shards[c.shardOf(s.threads[t].page)].table) - {s.threads[t].page}
    requires s'.shards == s.shards[c.shardOf(s.threads[t].page) := shard]
    requires s'.threads == s.threads[t := Notifying(c.shardOf(s.threads[t].page))]
    ensures Owned(c, s')
  {
    var p := s.threads[t].page;
    forall q: nat | Live(c, s', q)
      ensures exists u :: 0 <= u < |s'.threads| && s'.threads[u] == Fetching(q)
    {
      assert Live(c, s, q) && q != p;
      var u :| 0 <= u < |s.threads| && s.threads[u] == Fetching(q);
      assert s'.threads[u] == Fetching(q);
    }
    forall u | 0 <= u < |s'.threads| && s'.threads[u].Fetching?
      ensures Live(c, s', s'.threads[u].page)
    {
      assert Live(c, s, s.threads[u].page);
      assert s.threads[u].page != p;
    }
  }

  /** Whoever waited for the page is woken by the thread that took the marker out. */
  lemma EndedWake(c: Cache, s: State, t: nat, shard: Shard, s': State)
    requires WillWake(c, s) && t < |s.threads| && s.threads[t].Fetching?
    requires c.shardOf(s.threads[t].page) < |s.shards|
    requires Markers(shard.table) == Markers(s.shards[c.shardOf(s.threads[t].page)].table) - {s.threads[t].page}
    requires s'.shards == s.shards[c.shardOf(s.threads[t].page) := shard]
    requires s'.threads == s.threads[t := Notifying(c.shardOf(s.threads[t].page))]
    ensures WillWake(c, s')
  {
    var p := s.threads[t].page;
    forall u | 0 <= u < |s'.threads| && s'.threads[u].Waiting? && !Live(c, s', s'.threads[u].page)
      ensures exists w :: 0 <= w < |s'.threads| && s'.threads[w] == Notifying(c.shardOf(s'.threads[u].page))
    {
      var q := s'.threads[u].page;
      if q == p {
        assert s'.threads[t] == Notifying(c.shardOf(q));
      } else {
        assert Live(c, s, q) == Live(c, s', q);
        var w :| 0 <= w < |s.threads| && s.threads[w] == Notifying(c.shardOf(q));
        assert s'.threads[w] == s.threads[w];
      }
    }
  }

  // ---------------------------------------------------------------- every step keeps the invariant

  lemma HitKeeps(c: Cache, s: State, t: nat, s': State)
    requires Inv(c, s) && t < |s.threads| && s.threads[t].Looking? && ChargeOf(s.threads[t]) <= s.used
    requires var k := c.shardOf(s.threads[t].page);
             && IsReady(s.shards[k], s.threads[t].page)
             && s' == Dropped(s, t, Idle).(shards := s.shards[k := s.shards[k].(table := s.shards[k].table[
                        s.threads[t].page := Ready(s.shards[k].table[s.threads[t].page].bytes, true)])])
    ensures Inv(c, s')
  {
    var p := s.threads[t].page;
    var k := c.shardOf(p);
    var shard := s.shards[k].(table := s.shards[k].table[p := Ready(s.shards[k].table[p].bytes, true)]);
    HitOk(s.shards[k], c.costs, p);
    var s1 := Dropped(s, t, Idle);
    SetKeeps(c, s, t, Idle, s1);
    PutKeeps(c, s1, k, shard, s1.used);
  }

  lemma MarkKeeps(c: Cache, s: State, t: nat, tableCapacity: nat, s': State)
    requires Inv(c, s) && t < |s.threads| && s.threads[t].Looking? && s.threads[t].charge.Some?
    requires var p, charge := s.threads[t].page, s.threads[t].charge.value;
             var k := c.shardOf(p);
             var marked := Marked(s.shards[k], c.costs, p, tableCapacity);
             && p !in s.shards[k].table && charge >= GrowthForOneMore(s.shards[k], c.costs)
             && InsertFits(s.shards[k], c.costs, tableCapacity)
             && s'.shards == s.shards[k := marked] && s'.threads == s.threads[t := Fetching(p)] && s'.others == s.others
             && s'.used + s.shards[k].book + charge == s.used + marked.book
    ensures Inv(c, s')
  {
    var p, charge := s.threads[t].page, s.threads[t].charge.value;
    var k := c.shardOf(p);
    var marked := Marked(s.shards[k], c.costs, p, tableCapacity);
    MarkerIsCovered(s.shards[k], c.costs, p, charge, tableCapacity);
    MarkedOk(s.shards[k], c.costs, p, tableCapacity);
    MarkerRing(s.shards[k], c.costs, p, tableCapacity);
    MarkedOwned(c, s, t, p, marked, s');
    MarkedWake(c, s, t, p, marked, s');
    ShardsPut(c, s, k, marked, s');
    PaidAfter(c, s, t, Fetching(p), k, marked, s');
  }

  /** A thread and a shard change together, and so does the budget. */
  lemma PaidAfter(c: Cache, s: State, t: nat, p: Phase, k: nat, shard: Shard, s': State)
    requires Paid(c, s) && t < |s.threads| && k < |s.shards|
    requires s'.shards == s.shards[k := shard] && s'.threads == s.threads[t := p] && s'.others == s.others
    requires s'.used + s.shards[k].book + ChargeOf(s.threads[t]) == s.used + shard.book + ChargeOf(p)
             && s'.used <= c.limit
    ensures Paid(c, s')
  {
    ChargesChange(s.threads, t, p);
    BooksChange(s.shards, k, shard);
  }

  lemma LookKeeps(c: Cache, s: State, t: nat, tableCapacity: nat, s': State)
    requires Inv(c, s) && t < |s.threads| && s.threads[t].Looking? && ChargeOf(s.threads[t]) <= s.used
    requires LookStep(c, s, t, tableCapacity, s')
    ensures Inv(c, s')
  {
    var Looking(p, charge, attempts) := s.threads[t];
    var shard := s.shards[c.shardOf(p)];
    if p in shard.table {
      if shard.table[p].Ready? {
        HitKeeps(c, s, t, s');
      } else {
        assert Live(c, s, p);
        SetKeeps(c, s, t, Waiting(p, charge, attempts), s');
      }
    } else if charge.None? || charge.value < GrowthForOneMore(shard, c.costs) {
      ReserveKeeps(c, s, t, s');
    } else {
      MarkKeeps(c, s, t, tableCapacity, s');
    }
  }

  /** Going off to reserve, or giving up, with what was reserved before let go. */
  lemma ReserveKeeps(c: Cache, s: State, t: nat, s': State)
    requires Inv(c, s) && t < |s.threads| && s.threads[t].Looking?
    requires s'.shards == s.shards && s'.others == s.others && s'.used + ChargeOf(s.threads[t]) == s.used
    requires |s'.threads| == |s.threads| && s'.threads == s.threads[t := s'.threads[t]]
    requires s'.threads[t] == Idle || s'.threads[t].Reserving?
    ensures Inv(c, s')
  {
    SetKeeps(c, s, t, s'.threads[t], s');
  }

  lemma EndedOk(c: Cache, shard: Shard, p: nat, loaded: Option<nat>, alloc: nat -> Alloc)
    requires Fits(c, shard) && p in Markers(shard.table)
    ensures var shard' := Ended(c, shard, p, loaded, alloc);
            && Fits(c, shard') && shard'.book <= shard.book
            && Markers(shard'.table) == Markers(shard.table) - {p}
            && (loaded.Some? && loaded.value <= c.capacity ==>
                  IsReady(shard', p) && shard'.table[p].bytes == loaded.value)
  {
    match loaded
    case Some(bytes) =>
      PublishedOk(shard, c.costs, p, bytes, c.capacity, alloc);
      PublishedIsCached(shard, c.costs, p, bytes, c.capacity, alloc);
    case None =>
      UnmarkedOk(shard, c.costs, p, alloc(0));
      UnmarkedRing(shard, c.costs, p, alloc(0));
  }

  lemma LoadKeeps(c: Cache, s: State, t: nat, loaded: Option<nat>, alloc: nat -> Alloc, s': State)
    requires Inv(c, s) && t < |s.threads| && s.threads[t].Fetching? && Live(c, s, s.threads[t].page)
    requires var k := c.shardOf(s.threads[t].page);
             var ended := Ended(c, s.shards[k], s.threads[t].page, loaded, alloc);
             s.used + ended.book >= s.shards[k].book && s' == Set(Put(s, k, ended), t, Notifying(k))
    ensures Inv(c, s')
  {
    var k := c.shardOf(s.threads[t].page);
    var ended := Ended(c, s.shards[k], s.threads[t].page, loaded, alloc);
    EndedOk(c, s.shards[k], s.threads[t].page, loaded, alloc);
    EndKeeps(c, s, t, ended, s');
  }

  lemma EndKeeps(c: Cache, s: State, t: nat, ended: Shard, s': State)
    requires Inv(c, s) && t < |s.threads| && s.threads[t].Fetching?
    requires var k := c.shardOf(s.threads[t].page);
             && Markers(ended.table) == Markers(s.shards[k].table) - {s.threads[t].page}
             && Fits(c, ended) && ended.book <= s.shards[k].book
             && s'.shards == s.shards[k := ended] && s'.threads == s.threads[t := Notifying(k)] && s'.others == s.others
             && s'.used + s.shards[k].book == s.used + ended.book
    ensures Inv(c, s')
  {
    var k := c.shardOf(s.threads[t].page);
    EndedOwned(c, s, t, ended, s');
    EndedWake(c, s, t, ended, s');
    ShardsPut(c, s, k, ended, s');
    PaidAfter(c, s, t, Notifying(k), k, ended, s');
  }

  lemma NotifyKeeps(c: Cache, s: State, t: nat, s': State)
    requires Inv(c, s) && t < |s.threads| && s.threads[t].Notifying?
    requires s' == s.(threads := WokenAll(c, s.threads, s.threads[t].shard)[t := Idle])
    ensures Inv(c, s')
  {
    var woken := WokenAll(c, s.threads, s.threads[t].shard);
    assert woken[t] == s.threads[t];
    ChargesSame(woken, s.threads);
    ChargesChange(woken, t, Idle);
    assert forall p: nat :: Live(c, s', p) == Live(c, s, p);
    NotifyOwned(c, s, t, s');
    NotifyWakes(c, s, t, s');
  }

  lemma NotifyOwned(c: Cache, s: State, t: nat, s': State)
    requires Owned(c, s) && t < |s.threads| && s.threads[t].Notifying?
    requires s' == s.(threads := WokenAll(c, s.threads, s.threads[t].shard)[t := Idle])
    ensures Owned(c, s')
  {
    forall q: nat | Live(c, s', q)
      ensures exists u :: 0 <= u < |s'.threads| && s'.threads[u] == Fetching(q)
    {
      assert Live(c, s, q);
      var u :| 0 <= u < |s.threads| && s.threads[u] == Fetching(q);
      assert s'.threads[u] == Fetching(q);
    }
    assert forall u :: 0 <= u < |s'.threads| && s'.threads[u].Fetching? ==> s.threads[u] == s'.threads[u];
    forall u | 0 <= u < |s'.threads| && s'.threads[u].Fetching?
      ensures Live(c, s', s'.threads[u].page)
    {
      assert Live(c, s, s.threads[u].page);
    }
  }

  lemma NotifyWakes(c: Cache, s: State, t: nat, s': State)
    requires WillWake(c, s) && t < |s.threads| && s.threads[t].Notifying?
    requires s' == s.(threads := WokenAll(c, s.threads, s.threads[t].shard)[t := Idle])
    ensures WillWake(c, s')
  {
    forall u | 0 <= u < |s'.threads| && s'.threads[u].Waiting? && !Live(c, s', s'.threads[u].page)
      ensures exists w :: 0 <= w < |s'.threads| && s'.threads[w] == Notifying(c.shardOf(s'.threads[u].page))
    {
      assert s.threads[u] == s'.threads[u] && c.shardOf(s.threads[u].page) != s.threads[t].shard;
      assert !Live(c, s, s.threads[u].page);
      var w :| 0 <= w < |s.threads| && s.threads[w] == Notifying(c.shardOf(s.threads[u].page));
      assert s'.threads[w] == s.threads[w];
    }
  }

  lemma EvictKeeps(c: Cache, s: State, k: nat, alloc: Alloc, s': State)
    requires Inv(c, s) && k < |s.shards|
    requires var shard := EvictOneSpec(s.shards[k], c.costs, alloc).0;
             s.used + shard.book >= s.shards[k].book && s' == Put(s, k, shard)
    ensures Inv(c, s')
  {
    var shard := EvictOneSpec(s.shards[k], c.costs, alloc).0;
    EvictOneWorks(s.shards[k], c.costs, alloc);
    EvictKeepsRing(s.shards[k], c.costs, alloc);
    PutKeeps(c, s, k, shard, s'.used);
  }

  /** Whatever a thread does next, the invariant holds after it. */
  lemma StepKeeps(c: Cache, s: State, e: Event, s': State)
    requires Inv(c, s) && Next(c, s, e, s')
    ensures Inv(c, s')
  {
    ChargesBound(s.threads);
    BooksBound(s.shards);
    match e
    case Call(t, p) => SetKeeps(c, s, t, Looking(p, None, 0), s');
    case Look(t, tableCapacity) => LookKeeps(c, s, t, tableCapacity, s');
    case Reserve(t, ok) =>
      ReservedKeeps(c, s, t, ok, s');
    case Load(t, loaded, alloc) => LoadKeeps(c, s, t, loaded, alloc, s');
    case Notify(t) => NotifyKeeps(c, s, t, s');
    case Wake(t) => SetKeeps(c, s, t, Looking(s.threads[t].page, s.threads[t].charge, s.threads[t].attempts), s');
    case Evict(k, alloc) => EvictKeeps(c, s, k, alloc, s');
    case Take(n) => OthersKeep(c, s, s');
    case Return(n) => OthersKeep(c, s, s');
  }

  lemma ReservedKeeps(c: Cache, s: State, t: nat, ok: bool, s': State)
    requires Inv(c, s) && t < |s.threads| && s.threads[t].Reserving? && Next(c, s, Reserve(t, ok), s')
    ensures Inv(c, s')
  {
    var Reserving(p, want, attempts) := s.threads[t];
    SetKeeps(c, s, t, if ok then Looking(p, Some(want), attempts) else Idle, s');
  }

  /** Something outside the cache takes from the budget, or gives back. */
  lemma OthersKeep(c: Cache, s: State, s': State)
    requires Inv(c, s) && s'.shards == s.shards && s'.threads == s.threads
    requires s'.used + s.others == s.used + s'.others && s'.used <= c.limit
    ensures Inv(c, s')
  {
    SameShards(c, s, s');
  }

  // ---------------------------------------------------------------- whole runs

  ghost predicate Start(c: Cache, s: State) {
    && CostsOk(c.costs)
    && (forall p: nat :: c.shardOf(p) < |s.shards|)
    && (forall k :: 0 <= k < |s.shards| ==> s.shards[k] == EMPTY)
    && (forall t :: 0 <= t < |s.threads| ==> s.threads[t] == Idle)
    && s.used == s.others <= c.limit
    && c.costs.table(0) == 0
  }

  lemma {:induction false} NothingHeld(shards: seq<Shard>, threads: seq<Phase>)
    requires forall k :: 0 <= k < |shards| ==> shards[k] == EMPTY
    requires forall t :: 0 <= t < |threads| ==> threads[t] == Idle
    ensures Books(shards) == 0 && Charges(threads) == 0
    decreases |shards| + |threads|
  {
    if shards != [] {
      NothingHeld(shards[..|shards| - 1], threads);
    } else if threads != [] {
      NothingHeld(shards, threads[..|threads| - 1]);
    }
  }

  lemma StartIsOk(c: Cache, s: State)
    requires Start(c, s)
    ensures Inv(c, s)
  {
    NothingHeld(s.shards, s.threads);
    assert Markers(EMPTY.table) == {};
    assert ShardOk(EMPTY, c.costs);
  }

  /** A run: states joined by steps, in whatever order the threads take them. */
  ghost predicate Run(c: Cache, states: seq<State>, events: seq<Event>) {
    && |states| == |events| + 1
    && forall i :: 0 <= i < |events| ==> Inv(c, states[i]) ==> Next(c, states[i], events[i], states[i + 1])
  }

  /** In every state of every run the invariant holds. */
  lemma {:induction false} RunsKeep(c: Cache, states: seq<State>, events: seq<Event>, i: nat)
    requires Run(c, states, events) && Start(c, states[0]) && i < |states|
    ensures Inv(c, states[i])
    decreases i
  {
    if i == 0 {
      StartIsOk(c, states[0]);
    } else {
      RunsKeep(c, states, events, i - 1);
      StepKeeps(c, states[i - 1], events[i - 1], states[i]);
    }
  }

  /** A marker is taken out by the thread that put it in, when its load ends, and by nothing else. */
  lemma OnlyTheOwnerUnmarks(c: Cache, s: State, e: Event, s': State, p: nat)
    requires Inv(c, s) && Next(c, s, e, s') && Live(c, s, p) && !Live(c, s', p)
    ensures e.Load? && s.threads[e.thread] == Fetching(p)
  {
    ChargesBound(s.threads);
    BooksBound(s.shards);
    match e
    case Look(t, tableCapacity) => LookKeepsMarkers(c, s, t, tableCapacity, s', p);
    case Load(t, loaded, alloc) =>
      var q := s.threads[t].page;
      assert Live(c, s, q);
      EndedOk(c, s.shards[c.shardOf(q)], q, loaded, alloc);
    case Evict(k, alloc) => EvictOneWorks(s.shards[k], c.costs, alloc);
    case _ =>
  }

  lemma LookKeepsMarkers(c: Cache, s: State, t: nat, tableCapacity: nat, s': State, p: nat)
    requires Inv(c, s) && t < |s.threads| && s.threads[t].Looking? && ChargeOf(s.threads[t]) <= s.used
    requires LookStep(c, s, t, tableCapacity, s') && Live(c, s, p)
    ensures Live(c, s', p)
  {
    var q := s.threads[t].page;
    var shard := s.shards[c.shardOf(q)];
    if q in shard.table {
      if shard.table[q].Ready? {
        HitOk(shard, c.costs, q);
      }
    } else if s.threads[t].charge.Some? && s.threads[t].charge.value >= GrowthForOneMore(shard, c.costs) {
      MarkedOk(shard, c.costs, q, tableCapacity);
    }
  }

  // ---------------------------------------------------------------- what a thread gets

  /** A load that ends with a page leaves it cached, if it is not larger than a whole shard may be. */
  lemma LoadedIsCached(c: Cache, s: State, e: Event, s': State)
    requires Inv(c, s) && e.Load? && e.loaded.Some? && e.loaded.value <= c.capacity && Next(c, s, e, s')
    ensures var p := s.threads[e.thread].page; var k := c.shardOf(p);
            k < |s'.shards| && IsReady(s'.shards[k], p) && s'.shards[k].table[p].bytes == e.loaded.value
  {
    var p := s.threads[e.thread].page;
    assert Live(c, s, p);
    EndedOk(c, s.shards[c.shardOf(p)], p, e.loaded, e.alloc);
  }

  /** A look that finds the page ends the call, gives back what it had reserved, and marks the page as used: it is not
      the next to go while the shard has one that is not. */
  lemma HitIsUsed(c: Cache, s: State, e: Event, s': State, alloc: Alloc, q: nat)
    requires Inv(c, s) && e.Look? && Next(c, s, e, s')
    requires var p := s.threads[e.thread].page; IsReady(s.shards[c.shardOf(p)], p)
    ensures Inv(c, s') && s'.threads == s.threads[e.thread := Idle]
    ensures s'.used + ChargeOf(s.threads[e.thread]) == s.used
    ensures var p := s.threads[e.thread].page;
            var shard := s'.shards[c.shardOf(p)];
            && shard.table == s.shards[c.shardOf(p)].table[p := Ready(s.shards[c.shardOf(p)].table[p].bytes, true)]
            && (IsReady(shard, q) && !shard.table[q].referenced ==>
                  p in EvictOneSpec(shard, c.costs, alloc).0.table)
  {
    ChargesBound(s.threads);
    BooksBound(s.shards);
    StepKeeps(c, s, e, s');
    var p := s.threads[e.thread].page;
    var shard := s'.shards[c.shardOf(p)];
    if IsReady(shard, q) && !shard.table[q].referenced {
      assert Fits(c, shard);
      ReferencedStays(shard, c.costs, alloc, p, q);
    }
  }

  /** How often a thread has found its reservation too small. */
  function Tries(p: Phase): nat {
    if p.Looking? || p.Waiting? || p.Reserving? then p.attempts else 0
  }

  ghost predicate TriesOk(s: State) {
    forall t {:trigger s.threads[t]} :: 0 <= t < |s.threads| ==> Tries(s.threads[t]) <= 8
  }

  lemma StepKeepsTries(c: Cache, s: State, e: Event, s': State)
    requires Inv(c, s) && Next(c, s, e, s') && TriesOk(s)
    ensures TriesOk(s')
  {
    ChargesBound(s.threads);
    BooksBound(s.shards);
    match e
    case Look(t, tableCapacity) => LookKeepsTries(c, s, t, tableCapacity, s');
    case Load(t, loaded, alloc) => assert s'.threads == s.threads[t := Notifying(c.shardOf(s.threads[t].page))];
    case Evict(k, alloc) => assert s'.threads == s.threads;
    case _ =>
  }

  lemma LookKeepsTries(c: Cache, s: State, t: nat, tableCapacity: nat, s': State)
    requires t < |s.threads| && s.threads[t].Looking? && TriesOk(s)
    requires c.shardOf(s.threads[t].page) < |s.shards| && ChargeOf(s.threads[t]) <= s.used
    requires LookStep(c, s, t, tableCapacity, s')
    ensures TriesOk(s')
  {
    assert |s'.threads| == |s.threads| && s'.threads == s.threads[t := s'.threads[t]];
  }

  /** No call tries to reserve more than eight times over, however the others grow the shard meanwhile. */
  lemma {:induction false} RunsTryFewTimes(c: Cache, states: seq<State>, events: seq<Event>, i: nat)
    requires Run(c, states, events) && Start(c, states[0]) && i < |states|
    ensures TriesOk(states[i])
    decreases i
  {
    if i > 0 {
      RunsTryFewTimes(c, states, events, i - 1);
      RunsKeep(c, states, events, i - 1);
      StepKeepsTries(c, states[i - 1], events[i - 1], states[i]);
    }
  }
}
