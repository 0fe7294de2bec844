/** Reading through an index: every entry is followed to the row it stands for. */
module IndexScanning {
  import opened Base
  import opened Encodings
  import opened Composites
  import opened Trees
  import opened Searching
  import opened Queries
  import opened Cursors
  import opened References

  /** The index key a tree key stands for: all of it, or without its record id. */
  function SourceKey(unique: bool, k: Key): Option<Key> {
    if unique then Some(k) else if Split(k).Some? then Some(Split(k).value.0) else None
  }

  /** The row an index entry stands for. `loads` are the pages that can be loaded, and `room` says whether
      a buffer for the key can be reserved. */
  function Follow(file: seq<seq<Byte>>, loads: set<nat>, room: bool, unique: bool, row: Entry): Result<Entry> {
    var ref :- if |row.value| == REF_LEN then ParseRef(row.value) else Err(Corrupt);
    if SourceKey(unique, row.key).None? then Err(Corrupt)
    else if !room then Err(BudgetExceeded)
    else if ref.page < |file| && ref.page !in loads then Err(Io)
    else
      var value :- Target(file, row.value);
      Ok(Entry(SourceKey(unique, row.key).value, value))
  }

  ghost predicate Resolves(file: seq<seq<Byte>>, unique: bool, row: Entry, out: Entry) {
    SourceKey(unique, row.key) == Some(out.key) && Target(file, row.value) == Ok(out.value)
  }

  ghost predicate AllResolve(file: seq<seq<Byte>>, unique: bool, rows: seq<Entry>, out: seq<Entry>) {
    |rows| == |out| && forall i :: 0 <= i < |rows| ==> Resolves(file, unique, rows[i], out[i])
  }

  ghost predicate Resolvable(file: seq<seq<Byte>>, loads: set<nat>, unique: bool, rows: seq<Entry>) {
    forall i :: 0 <= i < |rows| ==> Follow(file, loads, true, unique, rows[i]).Ok?
  }

  lemma ResolvesNext(file: seq<seq<Byte>>, unique: bool, rows: seq<Entry>, out: seq<Entry>, row: Entry, next: Entry)
    requires AllResolve(file, unique, rows, out) && Resolves(file, unique, row, next)
    ensures AllResolve(file, unique, rows + [row], out + [next])
  {
  }

  lemma NextSelected(handed: seq<Entry>, all: seq<Entry>, rows: seq<Entry>, row: Entry)
    requires handed <= all && handed == rows + [row]
    ensures |rows| < |all| && all[|rows|] == row
  {
    assert handed[|rows|] == row;
  }

  class IndexCursor {
    const file: seq<seq<Byte>>
    const cursor: Cursor
    const unique: bool
    var key: Key
    var value: Option<seq<Byte>>
    /** Every row handed out so far. */
    ghost var handed: seq<Entry>

    ghost predicate Valid()
      reads this, cursor
    {
      cursor.Valid() && AllResolve(file, unique, cursor.handed, handed)
    }

    constructor (file: seq<seq<Byte>>, cursor: Cursor, unique: bool)
      requires cursor.Valid() && cursor.handed == []
      ensures Valid() && handed == [] && this.file == file && this.cursor == cursor && this.unique == unique
    {
      this.file, this.cursor, this.unique := file, cursor, unique;
      key, value := [], None;
      handed := [];
    }

    /** All the rows the scan selects. */
    ghost function Rows(): seq<Entry>
      requires |cursor.shape.levels| > 0
      reads cursor
    {
      Selected(cursor.tree, cursor.shape, cursor.order, cursor.range)
    }

    /** Moves to the next row. If the entry is found but the row it leads to cannot be read, the cursor is
        put back, so the call after it tries the same row again: none is skipped and none handed out twice. */
    method Advance(avail: set<nat>, loads: set<nat>, room: bool) returns (r: Result<bool>)
      requires Valid()
      modifies this, cursor
      ensures Valid()
      ensures r.Ok? && r.value ==> value.Some? && handed == old(handed) + [Entry(key, value.value)]
      ensures r.Ok? && !r.value ==> value.None? && handed == old(handed)
      ensures r.Err? ==> value.None? && handed == old(handed) && cursor.handed == old(cursor.handed)
      ensures r.Err? ==> cursor.pos == old(cursor.pos)
      ensures WellFormed(cursor.tree, cursor.shape) && r.Ok? ==> (r.value <==> |old(handed)| < |Rows()|)
      ensures (&& WellFormed(cursor.tree, cursor.shape) && BlobsOk(cursor.tree, cursor.shape)
               && AllAvailable(cursor.tree, avail) && room && Resolvable(file, loads, unique, Rows())) ==> r.Ok?
    {
      var saved := cursor.pos;
      ghost var savedLeaf, rows := cursor.leaf, cursor.handed;
      r := AdvanceInner(avail, loads, room);
      if r.Err? {
        cursor.Restore(saved, savedLeaf, rows);
        key, value := [], None;
      }
    }

    /** Follows an entry, the next behind `rows`. */
    method Resolve(row: Entry, loads: set<nat>, room: bool, ghost rows: seq<Entry>) returns (r: Result<()>)
      requires AllResolve(file, unique, rows, handed)
      modifies this
      ensures r.Ok? ==> AllResolve(file, unique, rows + [row], handed)
      ensures r.Ok? ==> value.Some? && handed == old(handed) + [Entry(key, value.value)]
      ensures r.Err? ==> handed == old(handed)
      ensures room && Follow(file, loads, true, unique, row).Ok? ==> r.Ok?
    {
      var found := Follow(file, loads, room, unique, row);
      if found.Err? {
        return Err(found.kind);
      }
      ResolvesNext(file, unique, rows, handed, row, found.value);
      key, value := found.value.key, Some(found.value.value);
      handed := handed + [found.value];
      r := Ok(());
    }

    /** The step inside `Advance`, which may have moved the cursor when it fails. */
    method AdvanceInner(avail: set<nat>, loads: set<nat>, room: bool) returns (r: Result<bool>)
      requires Valid()
      modifies this, cursor
      ensures r.Err? ==> handed == old(handed)
      ensures r.Ok? ==> Valid()
      ensures r.Ok? && r.value ==> value.Some? && handed == old(handed) + [Entry(key, value.value)]
      ensures r.Ok? && !r.value ==> value.None? && handed == old(handed)
      ensures WellFormed(cursor.tree, cursor.shape) && r.Ok? ==> (r.value <==> |old(handed)| < |Rows()|)
      ensures (&& WellFormed(cursor.tree, cursor.shape) && BlobsOk(cursor.tree, cursor.shape)
               && AllAvailable(cursor.tree, avail) && room && Resolvable(file, loads, unique, Rows())) ==> r.Ok?
    {
      value := None;
      ghost var rows := cursor.handed;
      var more := cursor.Advance(avail, room);
      if more.Err? {
        return Err(more.kind);
      }
      if !more.value {
        key := [];
        return Ok(false);
      }
      var row := cursor.current.value;
      assert cursor.handed == rows + [row];
      if WellFormed(cursor.tree, cursor.shape) {
        NextSelected(cursor.handed, Rows(), rows, row);
      }
      var found := Resolve(row, loads, room, rows);
      if found.Err? {
        return Err(found.kind);
      }
      r := Ok(true);
    }
  }
}
