/** Spooled records: the bytes one is written as, and reading it back from a run. */
module Records {
  import opened Base
  import opened Bytes

  datatype Rec = Rec(order: nat, key: Key, value: seq<Byte>)

  const HEADER_LEN: nat := 16

  function Len(r: Rec): nat {
    HEADER_LEN + |r.key| + |r.value|
  }

  function RecordBytes(r: Rec): (b: seq<Byte>)
    ensures |b| == Len(r)
  {
    Le(r.order, 8) + Le(|r.key|, 4) + Le(|r.value|, 4) + r.key + r.value
  }

  /** The header has room for the lengths. */
  predicate Fits(r: Rec) {
    r.order <= U64_MAX && |r.key| < 0x1_0000_0000 && |r.value| < 0x1_0000_0000
  }

  /** The record at `pos` of a run that ends at `end`, and where the next one starts. */
  function ReadNext(file: seq<Byte>, pos: nat, end: nat): Result<Option<(Rec, nat)>> {
    ReadWith(ReaderOf(file), file, pos, end)
  }

  function ReadWith(rd: Reader, file: seq<Byte>, pos: nat, end: nat): Result<Option<(Rec, nat)>> {
    if pos >= end then Ok(None)
    else
      var order, keyLen, valueLen := rd(pos, 8), rd(pos + 8, 4), rd(pos + 12, 4);
      if order.Err? || keyLen.Err? || valueLen.Err? then Err(Io)
      else
        var key := pos + HEADER_LEN;
        var value := key + keyLen.value;
        var next := value + valueLen.value;
        if next > end then Err(Corrupt)
        else if next > |file| then Err(Io)
        else Ok(Some((Rec(order.value, file[key..value], file[value..next]), next)))
  }

  ghost predicate StoredAt(file: seq<Byte>, pos: nat, r: Rec) {
    pos + Len(r) <= |file| && file[pos..pos + Len(r)] == RecordBytes(r)
  }

  lemma PartsOfRecord(file: seq<Byte>, pos: nat, r: Rec)
    requires StoredAt(file, pos, r)
    ensures file[pos..pos + 8] == Le(r.order, 8)
    ensures file[pos + 8..pos + 12] == Le(|r.key|, 4) && file[pos + 12..pos + 16] == Le(|r.value|, 4)
    ensures file[pos + 16..pos + 16 + |r.key|] == r.key
    ensures file[pos + 16 + |r.key|..pos + Len(r)] == r.value
  {
    var b := RecordBytes(r);
    assert b[..8] == Le(r.order, 8);
    assert b[8..12] == Le(|r.key|, 4);
    assert b[12..16] == Le(|r.value|, 4);
    assert b[16..16 + |r.key|] == r.key;
    assert b[16 + |r.key|..] == r.value;
    SubSlice(file, pos, pos + Len(r), 0, 8);
    SubSlice(file, pos, pos + Len(r), 8, 12);
    SubSlice(file, pos, pos + Len(r), 12, 16);
    SubSlice(file, pos, pos + Len(r), 16, 16 + |r.key|);
    SubSlice(file, pos, pos + Len(r), 16 + |r.key|, Len(r));
  }

  lemma FittingReadsBack(rd: Reader, file: seq<Byte>, pos: nat, end: nat, r: Rec)
    requires Finds(rd, file) && StoredAt(file, pos, r) && pos + Len(r) <= end && Fits(r)
    ensures ReadWith(rd, file, pos, end) == Ok(Some((r, pos + Len(r))))
  {
    PartsOfRecord(file, pos, r);
    Widths();
    assert Stores(file, pos, 8, r.order) && Stores(file, pos + 8, 4, |r.key|) && Stores(file, pos + 12, 4, |r.value|);
  }

  /** A stored record reads back exactly when its header had room for its lengths. */
  lemma RecordReadsBack(file: seq<Byte>, pos: nat, end: nat, r: Rec)
    requires StoredAt(file, pos, r) && pos + Len(r) <= end
    ensures ReadNext(file, pos, end) == Ok(Some((r, pos + Len(r)))) <==> Fits(r)
  {
    if Fits(r) {
      ReaderFinds(file);
      FittingReadsBack(ReaderOf(file), file, pos, end, r);
    }
    Widths();
    FromLeBound(file, pos, 8);
    FromLeBound(file, pos + 8, 4);
    FromLeBound(file, pos + 12, 4);
  }

  /** Records as they are read from a file: from a position, up to where the run ends. */
  type RecordFile = (nat, nat) -> Result<Option<(Rec, nat)>>

  function FileOf(file: seq<Byte>): RecordFile {
    (pos: nat, end: nat) => ReadNext(file, pos, end)
  }

  /** Reading on from `pos` finds these records one after the other, and then the end. */
  ghost predicate Holds(f: RecordFile, pos: nat, end: nat, rs: seq<Rec>)
    decreases |rs|
  {
    if rs == [] then f(pos, end) == Ok(None)
    else f(pos, end) == Ok(Some((rs[0], pos + Len(rs[0])))) && Holds(f, pos + Len(rs[0]), end, rs[1..])
  }

  /** Records written one after the other. */
  function Written(w: Rec -> seq<Byte>, rs: seq<Rec>): seq<Byte> {
    if rs == [] then [] else Written(w, rs[..|rs| - 1]) + w(rs[|rs| - 1])
  }

  lemma WrittenMore(w: Rec -> seq<Byte>, rs: seq<Rec>, r: Rec)
    ensures Written(w, rs + [r]) == Written(w, rs) + w(r)
  {
    assert (rs + [r])[..|rs|] == rs;
  }

  lemma {:induction false} WrittenHead(w: Rec -> seq<Byte>, rs: seq<Rec>)
    requires rs != []
    ensures Written(w, rs) == w(rs[0]) + Written(w, rs[1..])
  {
    var n := |rs| - 1;
    if n == 0 {
      assert rs[..0] == [] && rs[1..] == [];
    } else {
      WrittenHead(w, rs[..n]);
      assert rs[1..][..n - 1] == rs[..n][1..];
    }
  }

  ghost predicate WrittenAt(w: Rec -> seq<Byte>, file: seq<Byte>, pos: nat, r: Rec) {
    pos + |w(r)| <= |file| && file[pos..pos + |w(r)|] == w(r)
  }

  /** The file reads back what was written to it. */
  ghost predicate ReadsBack(w: Rec -> seq<Byte>, f: RecordFile, file: seq<Byte>) {
    && (forall r :: |w(r)| == Len(r))
    && (forall pos: nat :: f(pos, pos) == Ok(None))
    && (forall pos: nat, end: nat, r {:trigger f(pos, end), WrittenAt(w, file, pos, r)} ::
          WrittenAt(w, file, pos, r) && Fits(r) && pos + Len(r) <= end ==> f(pos, end) == Ok(Some((r, pos + Len(r)))))
  }

  lemma FileReadsBack(file: seq<Byte>)
    ensures ReadsBack(RecordBytes, FileOf(file), file)
  {
    forall pos: nat, end: nat, r | WrittenAt(RecordBytes, file, pos, r) && Fits(r) && pos + Len(r) <= end
      ensures FileOf(file)(pos, end) == Ok(Some((r, pos + Len(r))))
    {
      RecordReadsBack(file, pos, end, r);
    }
  }

  ghost predicate Stored(w: Rec -> seq<Byte>, file: seq<Byte>, start: nat, end: nat, rs: seq<Rec>) {
    start <= end <= |file| && file[start..end] == Written(w, rs)
  }

  /** A stored run is read back record by record. */
  lemma {:induction false} StoredHolds(w: Rec -> seq<Byte>, f: RecordFile, file: seq<Byte>, start: nat, end: nat,
                                       rs: seq<Rec>)
    requires ReadsBack(w, f, file)
    requires Stored(w, file, start, end, rs) && forall i :: 0 <= i < |rs| ==> Fits(rs[i])
    ensures Holds(f, start, end, rs)
    decreases |rs|
  {
    if rs == [] {
      assert |file[start..end]| == 0;
    } else {
      WrittenHead(w, rs);
      SplitTwo(file, start, end, w(rs[0]), Written(w, rs[1..]));
      assert WrittenAt(w, file, start, rs[0]);
      StoredHolds(w, f, file, start + Len(rs[0]), end, rs[1..]);
    }
  }

  lemma SplitTwo<T>(b: seq<T>, from: nat, to: nat, u: seq<T>, v: seq<T>)
    requires from <= to <= |b| && b[from..to] == u + v
    ensures from + |u| <= to && b[from..from + |u|] == u && b[from + |u|..to] == v
  {
    SubSlice(b, from, to, 0, |u|);
    SubSlice(b, from, to, |u|, to - from);
    assert (u + v)[..|u|] == u && (u + v)[|u|..] == v;
  }

  /** Writing over the file from `pos` on. */
  function Overwrite(file: seq<Byte>, pos: nat, b: seq<Byte>): (r: seq<Byte>)
    requires pos <= |file|
    ensures |r| >= pos + |b| && r[..pos] == file[..pos] && r[pos..pos + |b|] == b
    ensures pos == |file| ==> |r| == pos + |b|
  {
    file[..pos] + b + if pos + |b| <= |file| then file[pos + |b|..] else []
  }
}

/**
 Sorting records and merging sorted runs of them. Records are ordered by key, and by the order they
 were appended in where keys are equal, so no two records are ever equal and the sort is stable.
 */
module Merging {
  import opened Base
  import opened Encodings
  import opened Records

  predicate Ahead(e: Encoding, a: Rec, b: Rec) {
    match e.compare(a.key, b.key)
    case Less => true
    case Equal => a.order < b.order
    case Greater => false
  }

  /** Records the encoding can order and a record header has room for. */
  ghost predicate Spoolable(e: Encoding, rs: seq<Rec>) {
    forall i :: 0 <= i < |rs| ==> e.readable(rs[i].key) && Fits(rs[i])
  }

  ghost predicate Sorted(e: Encoding, rs: seq<Rec>) {
    forall i, j :: 0 <= i < j < |rs| ==> !Ahead(e, rs[j], rs[i])
  }

  lemma AheadOrder(e: Encoding, a: Rec, b: Rec, c: Rec)
    requires TotalOrder(e) && e.readable(a.key) && e.readable(b.key) && e.readable(c.key)
    ensures Ahead(e, a, b) ==> !Ahead(e, b, a)
    ensures !Ahead(e, b, a) && !Ahead(e, c, b) ==> !Ahead(e, c, a)
  {
  }

  // ---------------------------------------------------------------- the heap

  /** Run `a` has its next record before run `b`. */
  predicate Before(e: Encoding, front: seq<Option<Rec>>, a: nat, b: nat) {
    && a < |front| && b < |front| && front[a].Some? && front[b].Some?
    && Ahead(e, front[a].value, front[b].value)
  }

  /** No child comes before its parent, for parents from `from` on. */
  ghost predicate Heap(e: Encoding, front: seq<Option<Rec>>, heap: seq<nat>, from: nat) {
    forall i, c :: from <= i && (c == 2 * i + 1 || c == 2 * i + 2) && c < |heap| ==> !Before(e, front, heap[c], heap[i])
  }

  /** The same, with node `at` excused. */
  ghost predicate HeapBut(e: Encoding, front: seq<Option<Rec>>, heap: seq<nat>, from: nat, at: nat) {
    && (forall i, c :: from <= i && i != at && (c == 2 * i + 1 || c == 2 * i + 2) && c < |heap| ==>
                         !Before(e, front, heap[c], heap[i]))
    && (forall p, c ::
          from <= p && (at == 2 * p + 1 || at == 2 * p + 2) && (c == 2 * at + 1 || c == 2 * at + 2) && c < |heap| ==>
          !Before(e, front, heap[c], heap[p]))
  }

  /** The heap lists the runs that have a record left, each once, and those records can be compared. */
  ghost predicate Listed(e: Encoding, front: seq<Option<Rec>>, heap: seq<nat>) {
    && TotalOrder(e)
    && (forall i :: 0 <= i < |heap| ==>
         heap[i] < |front| && front[heap[i]].Some? && e.readable(front[heap[i]].value.key))
    && (forall i, j :: 0 <= i < j < |heap| ==> heap[i] != heap[j])
    && (forall r: nat :: r < |front| && front[r].Some? ==> r in heap)
  }

  lemma BeforeOrder(e: Encoding, front: seq<Option<Rec>>, heap: seq<nat>, i: nat, j: nat, k: nat)
    requires Listed(e, front, heap) && i < |heap| && j < |heap| && k < |heap|
    ensures Before(e, front, heap[i], heap[j]) ==> !Before(e, front, heap[j], heap[i])
    ensures !Before(e, front, heap[j], heap[i]) && !Before(e, front, heap[k], heap[j]) ==>
              !Before(e, front, heap[k], heap[i])
  {
    AheadOrder(e, front[heap[i]].value, front[heap[j]].value, front[heap[k]].value);
  }

  function Exchanged(heap: seq<nat>, i: nat, j: nat): (r: seq<nat>)
    requires i < |heap| && j < |heap|
    ensures |r| == |heap|
  {
    heap[i := heap[j]][j := heap[i]]
  }

  /** `c` is the child of `i` that no child of `i` comes before. */
  ghost predicate LeastChild(e: Encoding, front: seq<Option<Rec>>, heap: seq<nat>, i: nat, c: nat) {
    && (c == 2 * i + 1 || c == 2 * i + 2) && c < |heap|
    && forall d :: (d == 2 * i + 1 || d == 2 * i + 2) && d < |heap| ==> !Before(e, front, heap[d], heap[c])
  }

  lemma Swapped(e: Encoding, front: seq<Option<Rec>>, heap: seq<nat>, from: nat, i: nat, least: nat, heap': seq<nat>)
    requires Listed(e, front, heap) && from <= i && HeapBut(e, front, heap, from, i)
    requires LeastChild(e, front, heap, i, least) && Before(e, front, heap[least], heap[i])
    requires heap' == Exchanged(heap, i, least)
    ensures HeapBut(e, front, heap', from, least)
  {
    BeforeOrder(e, front, heap, least, i, i);
    forall j, c | from <= j && j != least && (c == 2 * j + 1 || c == 2 * j + 2) && c < |heap'|
      ensures !Before(e, front, heap'[c], heap'[j])
    {
      if j != i {
        assert !Before(e, front, heap[c], heap[j]);
      }
    }
  }

  lemma SameEntries(e: Encoding, front: seq<Option<Rec>>, heap: seq<nat>, i: nat, j: nat)
    requires Listed(e, front, heap) && i < |heap| && j < |heap|
    ensures Listed(e, front, Exchanged(heap, i, j))
  {
    var heap' := Exchanged(heap, i, j);
    forall r: nat | r < |front| && front[r].Some?
      ensures r in heap'
    {
      var k :| 0 <= k < |heap| && heap[k] == r;
      assert heap'[if k == i then j else if k == j then i else k] == r;
    }
  }

  lemma Settled(e: Encoding, front: seq<Option<Rec>>, heap: seq<nat>, from: nat, i: nat, least: nat)
    requires Listed(e, front, heap) && from <= i && HeapBut(e, front, heap, from, i)
    requires LeastChild(e, front, heap, i, least) && !Before(e, front, heap[least], heap[i])
    ensures Heap(e, front, heap, from)
  {
    forall j, c | from <= j && (c == 2 * j + 1 || c == 2 * j + 2) && c < |heap|
      ensures !Before(e, front, heap[c], heap[j])
    {
      if j == i {
        BeforeOrder(e, front, heap, i, least, c);
      }
    }
  }

  method PickChild(e: Encoding, front: seq<Option<Rec>>, heap: seq<nat>, i: nat) returns (least: nat)
    requires Listed(e, front, heap) && 2 * i + 1 < |heap|
    ensures LeastChild(e, front, heap, i, least)
  {
    least := 2 * i + 1;
    BeforeOrder(e, front, heap, least, least, least);
    var right := least + 1;
    if right < |heap| {
      BeforeOrder(e, front, heap, right, least, least);
      BeforeOrder(e, front, heap, right, right, right);
      if Before(e, front, heap[right], heap[least]) {
        least := right;
      }
    }
  }

  /** Moves an entry down until no child comes before it. */
  method SiftDown(e: Encoding, front: seq<Option<Rec>>, heap: seq<nat>, at: nat) returns (heap': seq<nat>)
    requires Listed(e, front, heap) && Heap(e, front, heap, at + 1)
    ensures Listed(e, front, heap') && |heap'| == |heap| && Heap(e, front, heap', at)
  {
    heap' := heap;
    var i := at;
    while 2 * i + 1 < |heap'|
      invariant at <= i && |heap'| == |heap|
      invariant Listed(e, front, heap') && HeapBut(e, front, heap', at, i)
      decreases |heap| - i
    {
      var least := PickChild(e, front, heap', i);
      if !Before(e, front, heap'[least], heap'[i]) {
        Settled(e, front, heap', at, i, least);
        return;
      }
      Swapped(e, front, heap', at, i, least, Exchanged(heap', i, least));
      SameEntries(e, front, heap', i, least);
      heap', i := Exchanged(heap', i, least), least;
    }
  }

  /** Makes a heap of entries in any order. */
  method Heapify(e: Encoding, front: seq<Option<Rec>>, heap: seq<nat>) returns (heap': seq<nat>)
    requires Listed(e, front, heap)
    ensures Listed(e, front, heap') && Heap(e, front, heap', 0)
  {
    heap' := heap;
    var i: nat := |heap| / 2;
    while i > 0
      invariant |heap'| == |heap|
      invariant Listed(e, front, heap') && Heap(e, front, heap', i)
    {
      i := i - 1;
      heap' := SiftDown(e, front, heap', i);
    }
  }

  /** The root comes before everything. */
  lemma {:induction false} RootIsLeast(e: Encoding, front: seq<Option<Rec>>, heap: seq<nat>, i: nat)
    requires Listed(e, front, heap) && Heap(e, front, heap, 0) && i < |heap|
    ensures !Before(e, front, heap[i], heap[0])
    decreases i
  {
    if i > 0 {
      var p := (i - 1) / 2;
      assert i == 2 * p + 1 || i == 2 * p + 2;
      RootIsLeast(e, front, heap, p);
      BeforeOrder(e, front, heap, 0, p, i);
    } else {
      BeforeOrder(e, front, heap, 0, 0, 0);
    }
  }

  // ---------------------------------------------------------------- what is left of the runs

  ghost function Bag(qs: seq<seq<Rec>>): multiset<Rec> {
    if qs == [] then multiset{} else multiset(qs[0]) + Bag(qs[1..])
  }

  lemma {:induction false} BagPop(qs: seq<seq<Rec>>, i: nat)
    requires i < |qs| && qs[i] != []
    ensures Bag(qs) == Bag(qs[i := qs[i][1..]]) + multiset{qs[i][0]}
  {
    var next := qs[i := qs[i][1..]];
    if i == 0 {
      assert qs[0] == [qs[0][0]] + qs[0][1..];
      assert next[1..] == qs[1..];
    } else {
      BagPop(qs[1..], i - 1);
      assert next[1..] == qs[1..][i - 1 := qs[i][1..]];
    }
  }

  lemma {:induction false} BagMember(qs: seq<seq<Rec>>, r: Rec) returns (i: nat, j: nat)
    requires r in Bag(qs)
    ensures i < |qs| && j < |qs[i]| && qs[i][j] == r
  {
    if r in multiset(qs[0]) {
      i := 0;
      j :| 0 <= j < |qs[0]| && qs[0][j] == r;
    } else {
      i, j := BagMember(qs[1..], r);
      i := i + 1;
    }
  }

  lemma {:induction false} BagOfNone(qs: seq<seq<Rec>>)
    requires forall i :: 0 <= i < |qs| ==> qs[i] == []
    ensures Bag(qs) == multiset{}
  {
    if qs != [] {
      BagOfNone(qs[1..]);
    }
  }

  lemma {:induction false} BagSplit(qs: seq<seq<Rec>>, k: nat)
    requires k <= |qs|
    ensures Bag(qs) == Bag(qs[..k]) + Bag(qs[k..])
  {
    if k == 0 {
      assert qs[..0] == [] && qs[0..] == qs;
    } else {
      BagSplit(qs[1..], k - 1);
      assert qs[..k][1..] == qs[1..][..k - 1] && qs[1..][k - 1..] == qs[k..];
    }
  }

  lemma BagMore(qs: seq<seq<Rec>>, q: seq<Rec>)
    ensures Bag(qs + [q]) == Bag(qs) + multiset(q)
  {
    BagSplit(qs + [q], |qs|);
    assert (qs + [q])[..|qs|] == qs && (qs + [q])[|qs|..] == [q];
    assert Bag([q]) == multiset(q) + Bag([]) by {
      assert [q][1..] == [];
    }
  }

  /** The least of the first records is the least of all. */
  lemma LeastOfAll(e: Encoding, qs: seq<seq<Rec>>, least: nat, r: Rec)
    requires TotalOrder(e) && least < |qs| && qs[least] != []
    requires forall i :: 0 <= i < |qs| ==> Sorted(e, qs[i]) && Spoolable(e, qs[i])
    requires forall i :: 0 <= i < |qs| && qs[i] != [] ==> !Ahead(e, qs[i][0], qs[least][0])
    requires r in Bag(qs)
    ensures !Ahead(e, r, qs[least][0])
  {
    var i, j := BagMember(qs, r);
    assert j > 0 ==> !Ahead(e, qs[i][j], qs[i][0]);
    AheadOrder(e, qs[least][0], qs[i][0], r);
  }

  // ---------------------------------------------------------------- the merger

  datatype RunReader = RunReader(pos: nat, end: nat)

  ghost function Head(q: seq<Rec>): Option<Rec> {
    if q == [] then None else Some(q[0])
  }

  ghost function Tail(q: seq<Rec>): seq<Rec> {
    if q == [] then [] else q[1..]
  }

  /** A run with `q` left: the first of it read already, the rest still in the file. */
  ghost predicate QueueOk(e: Encoding, file: RecordFile, reader: RunReader, front: Option<Rec>, q: seq<Rec>) {
    && front == Head(q) && Holds(file, reader.pos, reader.end, Tail(q))
    && Sorted(e, q) && Spoolable(e, q)
  }

  class Merger {
    const e: Encoding
    var readers: seq<RunReader>
    var front: seq<Option<Rec>>
    var heap: seq<nat>
    ghost var queues: seq<seq<Rec>>

    ghost predicate Valid(file: RecordFile)
      reads this
    {
      && TotalOrder(e) && |readers| == |front| && |front| == |queues|
      && (forall i :: 0 <= i < |queues| ==> QueueOk(e, file, readers[i], front[i], queues[i]))
      && Listed(e, front, heap) && Heap(e, front, heap, 0)
    }

    constructor (e: Encoding, file: RecordFile, readers: seq<RunReader>, ghost runs: seq<seq<Rec>>)
      requires TotalOrder(e) && RunsOk(e, file, readers, runs)
      ensures this.e == e && queues == runs && Valid(file)
    {
      var readers', front, heap := Fronts(e, file, readers, runs);
      heap := Heapify(e, front, heap);
      this.e, this.readers, this.front, this.heap := e, readers', front, heap;
      queues := runs;
    }

    lemma EmptyHeap(file: RecordFile)
      requires Valid(file) && heap == []
      ensures Bag(queues) == multiset{}
    {
      forall i | 0 <= i < |queues|
        ensures queues[i] == []
      {
        assert front[i].None?;
      }
      BagOfNone(queues);
    }

    lemma LeastIsNext(file: RecordFile, x: Rec)
      requires Valid(file) && heap != [] && x in Bag(queues)
      ensures heap[0] < |queues| && queues[heap[0]] != [] && !Ahead(e, x, queues[heap[0]][0])
    {
      forall i | 0 <= i < |queues| && queues[i] != []
        ensures !Ahead(e, queues[i][0], queues[heap[0]][0])
      {
        assert i in heap;
        var k :| 0 <= k < |heap| && heap[k] == i;
        RootIsLeast(e, front, heap, k);
      }
      LeastOfAll(e, queues, heap[0], x);
    }

    /** Hands out the next record in order, and reads the one behind it. */
    method Next(file: RecordFile) returns (r: Option<Rec>)
      requires Valid(file)
      modifies this
      ensures Valid(file)
      ensures r.None? ==> queues == old(queues) && Bag(queues) == multiset{}
      ensures r.Some? ==> Bag(old(queues)) == Bag(queues) + multiset{r.value}
      ensures r.Some? ==> forall x :: x in Bag(old(queues)) ==> !Ahead(e, x, r.value)
    {
      if heap == [] {
        EmptyHeap(file);
        return None;
      }
      var run := heap[0];
      r := front[run];
      forall x | x in Bag(queues)
        ensures !Ahead(e, x, r.value)
      {
        LeastIsNext(file, x);
      }
      BagPop(queues, run);
      Refill(file, run);
      heap := SiftDown(e, front, heap, 0);
    }

    /** Reads the next record of the run at the root, or drops the run from the heap. */
    method Refill(file: RecordFile, run: nat)
      requires Valid(file) && heap != [] && run == heap[0]
      modifies this
      ensures |readers| == |front| && |front| == |queues| == |old(queues)|
      ensures old(queues)[run] != [] && queues == old(queues)[run := old(queues)[run][1..]]
      ensures forall i :: 0 <= i < |queues| ==> QueueOk(e, file, readers[i], front[i], queues[i])
      ensures Listed(e, front, heap) && Heap(e, front, heap, 1)
    {
      var read := file(readers[run].pos, readers[run].end);
      NextOf(e, file, readers[run], front[run], queues[run], read.value);
      if read.value.Some? {
        readers := readers[run := readers[run].(pos := read.value.value.1)];
        StillListed(e, front, heap, read.value.value.0);
        front := front[run := Some(read.value.value.0)];
      } else {
        Dropped(e, front, heap);
        front := front[run := None];
        heap := WithoutRoot(heap);
      }
      queues := queues[run := queues[run][1..]];
    }
  }

  /** The root replaced by the last entry. */
  function WithoutRoot(heap: seq<nat>): (r: seq<nat>)
    requires heap != []
    ensures |r| == |heap| - 1
    ensures forall i {:trigger r[i]} :: 0 <= i < |r| ==> r[i] == if i == 0 then heap[|heap| - 1] else heap[i]
  {
    var rest := heap[..|heap| - 1];
    if rest == [] then [] else rest[0 := heap[|heap| - 1]]
  }

  lemma RestOk(e: Encoding, q: seq<Rec>)
    requires q != [] && Sorted(e, q) && Spoolable(e, q)
    ensures Sorted(e, q[1..]) && Spoolable(e, q[1..])
    ensures |q| > 1 ==> e.readable(q[1].key)
  {
  }

  /** The run is as good once its next record is read. */
  lemma NextOf(e: Encoding, file: RecordFile, reader: RunReader, front: Option<Rec>, q: seq<Rec>, x: Option<(Rec, nat)>)
    requires QueueOk(e, file, reader, front, q) && front.Some?
    requires file(reader.pos, reader.end) == Ok(x)
    ensures q != []
    ensures x.None? ==> QueueOk(e, file, reader, None, q[1..])
    ensures x.Some? ==> e.readable(x.value.0.key)
    ensures x.Some? ==> QueueOk(e, file, reader.(pos := x.value.1), Some(x.value.0), q[1..])
  {
    RestOk(e, q);
  }

  lemma StillListed(e: Encoding, front: seq<Option<Rec>>, heap: seq<nat>, x: Rec)
    requires Listed(e, front, heap) && heap != [] && Heap(e, front, heap, 0) && e.readable(x.key)
    ensures Listed(e, front[heap[0] := Some(x)], heap) && Heap(e, front[heap[0] := Some(x)], heap, 1)
  {
    var front' := front[heap[0] := Some(x)];
    forall i, c | 1 <= i && (c == 2 * i + 1 || c == 2 * i + 2) && c < |heap|
      ensures !Before(e, front', heap[c], heap[i])
    {
      assert heap[c] != heap[0] && heap[i] != heap[0];
    }
  }

  lemma Dropped(e: Encoding, front: seq<Option<Rec>>, heap: seq<nat>)
    requires Listed(e, front, heap) && heap != [] && Heap(e, front, heap, 0)
    ensures Listed(e, front[heap[0] := None], WithoutRoot(heap))
    ensures Heap(e, front[heap[0] := None], WithoutRoot(heap), 1)
  {
    var front', heap' := front[heap[0] := None], WithoutRoot(heap);
    forall i, c | 1 <= i && (c == 2 * i + 1 || c == 2 * i + 2) && c < |heap'|
      ensures !Before(e, front', heap'[c], heap'[i])
    {
      assert heap'[c] == heap[c] && heap'[i] == heap[i];
    }
    DroppedList(e, front, heap);
  }

  lemma DroppedList(e: Encoding, front: seq<Option<Rec>>, heap: seq<nat>)
    requires Listed(e, front, heap) && heap != []
    ensures Listed(e, front[heap[0] := None], WithoutRoot(heap))
  {
    var front', heap' := front[heap[0] := None], WithoutRoot(heap);
    forall r: nat | r < |front'| && front'[r].Some?
      ensures r in heap'
    {
      var k :| 0 <= k < |heap| && heap[k] == r;
      assert heap'[if k == |heap| - 1 then 0 else k] == r;
    }
  }

  /** Reads the first record of every run. */
  method Fronts(e: Encoding, file: RecordFile, readers: seq<RunReader>, ghost runs: seq<seq<Rec>>)
    returns (readers': seq<RunReader>, front: seq<Option<Rec>>, heap: seq<nat>)
    requires TotalOrder(e) && RunsOk(e, file, readers, runs)
    ensures |readers'| == |front| && |front| == |runs|
    ensures forall i :: 0 <= i < |runs| ==> QueueOk(e, file, readers'[i], front[i], runs[i])
    ensures Listed(e, front, heap)
  {
    readers', front, heap := [], [], [];
    var i := 0;
    while i < |readers|
      invariant i <= |readers| && |readers'| == i && |front| == i
      invariant forall k :: 0 <= k < i ==> QueueOk(e, file, readers'[k], front[k], runs[k])
      invariant Listed(e, front, heap)
    {
      var x, reader := First(e, file, readers[i], runs[i]);
      if x.Some? {
        OneMoreListed(e, front, heap, x.value);
        heap := heap + [i];
      }
      front, readers' := front + [x], readers' + [reader];
      i := i + 1;
    }
  }

  method First(e: Encoding, file: RecordFile, reader: RunReader, ghost run: seq<Rec>)
    returns (x: Option<Rec>, reader': RunReader)
    requires Holds(file, reader.pos, reader.end, run) && Sorted(e, run) && Spoolable(e, run)
    ensures QueueOk(e, file, reader', x, run) && (x.Some? ==> e.readable(x.value.key))
  {
    var read := file(reader.pos, reader.end).value;
    if read.None? {
      return None, reader;
    }
    return Some(read.value.0), reader.(pos := read.value.1);
  }

  ghost predicate RunsOk(e: Encoding, file: RecordFile, readers: seq<RunReader>, runs: seq<seq<Rec>>) {
    && |readers| == |runs|
    && forall i :: 0 <= i < |runs| ==>
         Holds(file, readers[i].pos, readers[i].end, runs[i]) && Sorted(e, runs[i]) && Spoolable(e, runs[i])
  }

  lemma OneMoreListed(e: Encoding, front: seq<Option<Rec>>, heap: seq<nat>, x: Rec)
    requires Listed(e, front, heap) && e.readable(x.key)
    ensures Listed(e, front + [Some(x)], heap + [|front|])
  {
    var front', heap' := front + [Some(x)], heap + [|front|];
    forall r: nat | r < |front'| && front'[r].Some?
      ensures r in heap'
    {
      if r < |front| {
        assert front[r].Some? && r in heap;
      } else {
        assert heap'[|heap|] == r;
      }
    }
  }

  /** Nothing left to merge comes before what is out. */
  ghost predicate AllAfter(e: Encoding, out: seq<Rec>, left: multiset<Rec>) {
    forall i, x :: 0 <= i < |out| && x in left ==> !Ahead(e, x, out[i])
  }

  ghost predicate AllSpoolable(e: Encoding, all: multiset<Rec>) {
    forall x :: x in all ==> e.readable(x.key) && Fits(x)
  }

  lemma BagSpoolable(e: Encoding, runs: seq<seq<Rec>>)
    requires forall i :: 0 <= i < |runs| ==> Spoolable(e, runs[i])
    ensures AllSpoolable(e, Bag(runs))
  {
    forall x | x in Bag(runs)
      ensures e.readable(x.key) && Fits(x)
    {
      var i, j := BagMember(runs, x);
    }
  }

  /** How far a merge has come: what is out is in order, and before what is left. */
  ghost predicate Merged(e: Encoding, out: seq<Rec>, left: multiset<Rec>, all: multiset<Rec>) {
    && multiset(out) + left == all && AllSpoolable(e, all)
    && Sorted(e, out) && Spoolable(e, out) && AllAfter(e, out, left)
  }

  lemma OneMoreOut(e: Encoding, out: seq<Rec>, left: multiset<Rec>, left': multiset<Rec>, all: multiset<Rec>, r: Rec)
    requires Merged(e, out, left, all) && left == left' + multiset{r}
    requires forall x :: x in left ==> !Ahead(e, x, r)
    ensures Merged(e, out + [r], left', all) && Fits(r)
  {
    assert r in left && r in all;
    assert forall x :: x in left' ==> x in left;
  }

  /** The records of some runs, and nothing else, in order, as the bytes of one run. */
  method MergeRuns(e: Encoding, file: RecordFile, readers: seq<RunReader>, w: Rec -> seq<Byte>,
                   ghost runs: seq<seq<Rec>>)
    returns (b: seq<Byte>, out: seq<Rec>)
    requires TotalOrder(e) && RunsOk(e, file, readers, runs)
    ensures Sorted(e, out) && Spoolable(e, out) && multiset(out) == Bag(runs)
    ensures b == Written(w, out)
  {
    var merger := new Merger(e, file, readers, runs);
    BagSpoolable(e, runs);
    b, out := [], [];
    while true
      invariant merger.Valid(file) && merger.e == e
      invariant Merged(e, out, Bag(merger.queues), Bag(runs))
      invariant b == Written(w, out)
      decreases |Bag(merger.queues)|
    {
      ghost var left := Bag(merger.queues);
      var r := merger.Next(file);
      if r.None? {
        break;
      }
      OneMoreOut(e, out, left, Bag(merger.queues), Bag(runs), r.value);
      WrittenMore(w, out, r.value);
      b, out := b + w(r.value), out + [r.value];
    }
  }

  // ---------------------------------------------------------------- sorting

  function Insert(e: Encoding, r: Rec, rs: seq<Rec>): seq<Rec> {
    if rs == [] || Ahead(e, r, rs[0]) then [r] + rs else [rs[0]] + Insert(e, r, rs[1..])
  }

  /** The records in order. */
  function InOrder(e: Encoding, rs: seq<Rec>): seq<Rec> {
    if rs == [] then [] else Insert(e, rs[|rs| - 1], InOrder(e, rs[..|rs| - 1]))
  }

  lemma {:induction false} InsertKeeps(e: Encoding, r: Rec, rs: seq<Rec>)
    ensures multiset(Insert(e, r, rs)) == multiset(rs) + multiset{r}
  {
    if rs != [] && !Ahead(e, r, rs[0]) {
      InsertKeeps(e, r, rs[1..]);
      assert rs == [rs[0]] + rs[1..];
    }
  }

  lemma {:induction false} InOrderKeeps(e: Encoding, rs: seq<Rec>)
    ensures multiset(InOrder(e, rs)) == multiset(rs)
  {
    if rs != [] {
      var n := |rs| - 1;
      InOrderKeeps(e, rs[..n]);
      InsertKeeps(e, rs[n], InOrder(e, rs[..n]));
      assert rs == rs[..n] + [rs[n]];
    }
  }

  lemma {:induction false} InsertSorts(e: Encoding, r: Rec, rs: seq<Rec>)
    requires TotalOrder(e) && e.readable(r.key) && Fits(r) && Sorted(e, rs) && Spoolable(e, rs)
    ensures Sorted(e, Insert(e, r, rs)) && Spoolable(e, Insert(e, r, rs))
  {
    if rs == [] {
    } else if Ahead(e, r, rs[0]) {
      forall j | 0 <= j < |rs|
        ensures !Ahead(e, rs[j], r)
      {
        AheadOrder(e, r, rs[0], rs[j]);
        AheadOrder(e, rs[0], rs[0], rs[0]);
      }
    } else {
      InsertSorts(e, r, rs[1..]);
      InsertKeeps(e, r, rs[1..]);
      var rest := Insert(e, r, rs[1..]);
      forall j | 0 <= j < |rest|
        ensures !Ahead(e, rest[j], rs[0])
      {
        assert rest[j] in multiset(rest);
        if rest[j] != r {
          var k :| 0 <= k < |rs[1..]| && rs[1..][k] == rest[j];
        }
      }
    }
  }

  lemma {:induction false} InOrderSorts(e: Encoding, rs: seq<Rec>)
    requires TotalOrder(e) && Spoolable(e, rs)
    ensures Sorted(e, InOrder(e, rs)) && Spoolable(e, InOrder(e, rs)) && multiset(InOrder(e, rs)) == multiset(rs)
  {
    if rs != [] {
      var n := |rs| - 1;
      InOrderSorts(e, rs[..n]);
      InsertSorts(e, rs[n], InOrder(e, rs[..n]));
      InsertKeeps(e, rs[n], InOrder(e, rs[..n]));
      assert rs == rs[..n] + [rs[n]];
    }
  }

  /** No two records were appended at the same moment. */
  ghost predicate OneEach(rs: seq<Rec>) {
    forall i, j :: 0 <= i < j < |rs| ==> rs[i].order != rs[j].order
  }

  /** Nothing but the records decides their order: sorted, they can only come out one way. */
  lemma {:induction false} OneWaySorted(e: Encoding, a: seq<Rec>, b: seq<Rec>)
    requires TotalOrder(e) && Spoolable(e, a) && Sorted(e, a) && Sorted(e, b) && OneEach(a)
    requires multiset(a) == multiset(b)
    ensures a == b
    decreases |a|
  {
    assert |a| == |multiset(a)| == |multiset(b)| == |b|;
    if a != [] {
      SameHead(e, a, b);
      WithoutHead(e, a);
      WithoutHead(e, b);
      OneWaySorted(e, a[1..], b[1..]);
      assert a == [a[0]] + a[1..] && b == [b[0]] + b[1..];
    }
  }

  lemma WithoutHead(e: Encoding, a: seq<Rec>)
    requires a != [] && Sorted(e, a)
    ensures Sorted(e, a[1..]) && multiset(a[1..]) == multiset(a) - multiset{a[0]}
    ensures Spoolable(e, a) ==> Spoolable(e, a[1..])
    ensures OneEach(a) ==> OneEach(a[1..])
  {
    assert a == [a[0]] + a[1..];
  }

  lemma SameHead(e: Encoding, a: seq<Rec>, b: seq<Rec>)
    requires TotalOrder(e) && Spoolable(e, a) && Sorted(e, a) && Sorted(e, b) && OneEach(a)
    requires multiset(a) == multiset(b) && a != [] && b != []
    ensures a[0] == b[0]
  {
    assert a[0] in multiset(b) && b[0] in multiset(a);
    var i :| 0 <= i < |b| && b[i] == a[0];
    var j :| 0 <= j < |a| && a[j] == b[0];
    assert i > 0 ==> !Ahead(e, b[i], b[0]);
    assert j > 0 ==> !Ahead(e, a[j], a[0]);
  }

  /** Records with the same key come out in the order they went in. */
  lemma SortIsStable(e: Encoding, pushed: seq<Rec>, out: seq<Rec>, i: nat, j: nat)
    requires TotalOrder(e) && Spoolable(e, pushed) && OneEach(pushed)
    requires Sorted(e, out) && multiset(out) == multiset(pushed)
    requires i < j < |out| && out[i].key == out[j].key
    ensures out[i].order < out[j].order
  {
    SameOrders(pushed, out, i, j);
    assert out[i] in multiset(pushed);
    assert e.compare(out[j].key, out[i].key) == Equal;
    assert !Ahead(e, out[j], out[i]);
  }

  lemma SameOrders(a: seq<Rec>, b: seq<Rec>, i: nat, j: nat)
    requires OneEach(a) && multiset(a) == multiset(b) && i < j < |b|
    ensures b[i].order != b[j].order
  {
    assert b[i] in multiset(a) && b[j] in multiset(a);
    var k :| 0 <= k < |a| && a[k] == b[i];
    var l :| 0 <= l < |a| && a[l] == b[j];
    AtMostOnce(a, b[i]);
    Twice(b, i, j);
  }

  lemma {:induction false} AtMostOnce(a: seq<Rec>, r: Rec)
    requires OneEach(a)
    ensures multiset(a)[r] <= 1
  {
    if a != [] {
      AtMostOnce(a[1..], r);
      assert a == [a[0]] + a[1..];
      assert r in multiset(a[1..]) ==> r in a[1..];
    }
  }

  lemma Twice(b: seq<Rec>, i: nat, j: nat)
    requires i < j < |b|
    ensures b[i] == b[j] ==> multiset(b)[b[i]] >= 2
  {
    assert b == b[..j] + b[j..];
    assert b[..j][i] == b[i] && b[j..][0] == b[j];
    assert b[i] in multiset(b[..j]) && b[j] in multiset(b[j..]);
  }
}
