/** The step relation and the class RecBuffer read the ring in one way: what
    one says about lags, reads and runs is what the other says. */
module PipelineBuffers {
  import opened Rings
  import opened Chunks
  import opened ChunkBuffers
  import opened RecBuffers
  import opened Pipeline

  /** The unsigned lag and its stand-in agree on every test the readers make of
      them, and are one number whenever the cursor is not in the future. */
  lemma BehindIsLag(total: nat, size: nat, cursor: Cursor)
    requires size <= total
    ensures Behind(total, cursor) == 0 <==> Lag(total, cursor) == 0
    ensures Behind(total, cursor) > size <==> Lag(total, cursor) > size
    ensures 0 < Behind(total, cursor) <= size <==> 0 < Lag(total, cursor) <= size
    ensures cursor <= total ==> Behind(total, cursor) == Lag(total, cursor)
  {
  }

  lemma WindowIsLag(buf: RecBuffer, cursor: nat)
    requires buf.Valid()
    ensures buf.InWindow(cursor) <==> 0 < Behind(|buf.impl.history|, cursor) <= buf.impl.ring.size
    ensures buf.impl.ring.size <= |buf.impl.history|
  {
    assert |buf.impl.ring.Contents()| == buf.impl.ring.size;
  }

  /** The step relation's read of the buffer's ring is what ReadFromGlobal
      promises its bytes to hold: the same records, and nothing when that finds
      nothing. */
  lemma SameRead(buf: RecBuffer, at: Cursor, count: nat)
    requires buf.Valid() && (buf.InWindow(at) ==> at + count <= |buf.impl.history|)
    ensures ReadGlobal(buf.impl.ring, |buf.impl.history|, at, count) ==
      if buf.InWindow(at) then buf.impl.history[at..at + count] else []
    ensures ReadInRange(buf.impl.ring, |buf.impl.history|, at, count)
  {
    WindowIsLag(buf, at);
    if buf.InWindow(at) { WindowSlice(buf.impl.history, buf.impl.ring.size, at, count); }
  }

  /** The step relation's run is the batch GetBatchPtrFromGlobal hands out: as
      long, at the same slot, and none outside the window. */
  lemma SameRun(buf: RecBuffer, cursor: Cursor, max: nat)
    requires buf.Valid()
    ensures RunAt(buf.impl.ring, |buf.impl.history|, cursor, max) ==
      if buf.InWindow(cursor) then buf.BatchLength(cursor, max) else 0
    ensures buf.InWindow(cursor) ==>
      SlotOf(buf.impl.ring, |buf.impl.history|, cursor) ==
        buf.impl.ring.Slot(buf.impl.ring.size - Behind(|buf.impl.history|, cursor))
  {
    WindowIsLag(buf, cursor);
  }

  /** The worker's read, on the buffer: its bytes hold what the Read step reads. */
  method ReadStepBytes(buf: RecBuffer, at: Cursor, count: nat) returns (n: nat, dest: seq<Byte>)
    requires buf.Valid() && (buf.InWindow(at) ==> at + count <= |buf.impl.history|)
    ensures var data := ReadGlobal(buf.impl.ring, |buf.impl.history|, at, count);
      Holds(dest, data, buf.impl.chunkSize) && n == |data|
  {
    n, dest := buf.ReadFromGlobal(at, count);
    SameRead(buf, at, count);
  }
}
