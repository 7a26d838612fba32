/** RecordReader with its two buffers in memory, and RecordReaderZC on the ring
    itself: every critical section of the classes is a step, or a run of steps,
    of the reader in the step relation. */
module RecordReaders {
  import opened Helpers
  import opened Rings
  import opened Chunks
  import opened ChunkBuffers
  import opened RecBuffers
  import opened Pipeline
  import opened PipelineReaders

  class RecordReader {
    const capacity: nat
    const start: nat
    var activeBuf: array<Record>
    var bgBuf: array<Record>
    var activeIdx: nat
    var activeCount: nat
    var bgCount: nat
    var bgIsFull: bool
    var finishing: bool
    var finishTarget: nat
    var running: bool
    var readerCursor: nat
    var cursor: nat                    // local of the worker: where it reads
    var count: nat                     // local of the worker: how much
    ghost var pc: CopyPc
    ghost var log: seq<Block>
    ghost var skipped: nat
    ghost var delivered: seq<Record>

    ghost predicate Valid()
      reads this, activeBuf, bgBuf
    {
      && activeBuf != bgBuf && activeBuf.Length == bgBuf.Length == capacity
      && activeIdx <= activeCount <= capacity && bgCount <= capacity
      && (bgIsFull <==> bgCount > 0)
      && (pc.Awake? || pc.Fetch? || pc.Copied? || pc.Stored? ==> running && !bgIsFull)
      && (pc.Fetch? ==> pc.at == cursor && pc.count == count <= capacity)
      && (pc.Copied? ==> pc.at == cursor && count <= capacity && pc.data == bgBuf[..count])
      && (pc.Stored? ==> 0 < count <= capacity && pc.data == bgBuf[..count])
    }

    ghost function View(): Reader
      reads this, activeBuf, bgBuf
      requires activeIdx <= activeCount <= activeBuf.Length && bgCount <= bgBuf.Length
    {
      Reader(false, start, readerCursor, capacity, finishing, finishTarget, running, log, skipped, delivered,
             pc, bgBuf[..bgCount], bgIsFull, activeBuf[activeIdx..activeCount], Out, start, 0)
    }

    /** initBase: from the oldest record that is there. */
    constructor (capacity: nat, totalWritten: nat, currentBufferSize: nat, ghost ring: Ring<Record>)
      requires ring.size == currentBufferSize
      ensures Valid() && FreshReader(View(), ring, totalWritten) && this.capacity == capacity
      ensures fresh(activeBuf) && fresh(bgBuf)
    {
      var first := if totalWritten > currentBufferSize then totalWritten - currentBufferSize else 0;
      this.capacity, start, readerCursor := capacity, first, first;
      activeBuf := new Record[capacity];
      bgBuf := new Record[capacity];
      activeIdx, activeCount, bgCount, bgIsFull := 0, 0, 0, false;
      finishing, finishTarget, running, cursor, count := false, 0, true, 0, 0;
      pc, log, skipped, delivered := Waiting, [], 0, [];
    }

    /** The worker picks the range to read from its snapshot: the oldest record
        still there when it has been overrun. */
    method ChooseRange(totalWritten: nat, currentBufferSize: nat, ghost ring: Ring<Record>)
      requires Valid() && pc.Awake? && ring.Valid() && ring.size == currentBufferSize <= totalWritten
      requires readerCursor <= totalWritten
      modifies this`pc, this`cursor, this`count
      ensures Valid() && View() == RNext(old(View()), Snapshot, ring, totalWritten)
      ensures pc.Waiting? <==> readerCursor == totalWritten
      ensures readerCursor < totalWritten ==>
        && pc == Fetch(cursor, count)
        && cursor == (if readerCursor + currentBufferSize < totalWritten then totalWritten - currentBufferSize
                      else readerCursor)
        && count == Min(capacity, totalWritten - cursor)
    {
      cursor := readerCursor;
      var lag := totalWritten - cursor;
      if lag == 0 {
        pc := Waiting;
        return;
      }
      if lag > currentBufferSize {
        cursor := totalWritten - currentBufferSize;
        lag := currentBufferSize;
      }
      count := if lag < capacity then lag else capacity;
      pc := Fetch(cursor, count);
    }

    /** readFromGlobal into the background buffer; `data` is what it found. */
    method CopyIn(data: seq<Record>, ghost ring: Ring<Record>, ghost totalWritten: nat)
      requires Valid() && pc.Fetch? && ring.Valid() && data == ReadGlobal(ring, totalWritten, pc.at, pc.count)
      modifies this`pc, this`count, bgBuf
      ensures Valid() && View() == RNext(old(View()), Read, ring, totalWritten)
      ensures if data == [] && old(count) > 0 then pc.Waiting? else pc == Copied(cursor, data) && bgBuf[..count] == data
    {
      if |data| == 0 && count > 0 {
        pc := Waiting;
        return;
      }
      assert |data| == count;
      for i := 0 to |data|
        invariant bgBuf[..i] == data[..i]
        modifies bgBuf
      {
        bgBuf[i] := data[i];
      }
      assert bgBuf[..count] == data;
      pc := Copied(cursor, data);
    }

    /** The cursor moves past what was copied, and past what was skipped. */
    method StoreCursor(ghost ring: Ring<Record>, ghost totalWritten: nat)
      requires Valid() && pc.Copied? && ring.Valid()
      modifies this`pc, this`readerCursor, this`skipped, this`log
      ensures Valid() && View() == RNext(old(View()), Store, ring, totalWritten)
      ensures readerCursor == cursor + count
    {
      var end := cursor + count;
      if readerCursor <= cursor { skipped := skipped + (cursor - readerCursor); }
      readerCursor := end;
      if count > 0 {
        log := log + [Block(cursor, end)];
        pc := Stored(pc.data);
      } else {
        pc := Waiting;
      }
    }

    method Publish(ghost ring: Ring<Record>, ghost totalWritten: nat)
      requires Valid() && pc.Stored? && ring.Valid()
      modifies this`pc, this`bgCount, this`bgIsFull
      ensures Valid() && View() == RNext(old(View()), RAct.Publish, ring, totalWritten)
      ensures bgIsFull && bgBuf[..bgCount] == old(pc).data
    {
      bgCount := count;
      bgIsFull := true;
      pc := Waiting;
    }

    /** swapBuffers, on a used-up active buffer. */
    method SwapBuffers(ghost ring: Ring<Record>, ghost totalWritten: nat) returns (ok: bool)
      requires Valid() && activeIdx == activeCount && ring.Valid()
      modifies this`activeBuf, this`bgBuf, this`activeCount, this`activeIdx, this`bgCount, this`bgIsFull
      ensures Valid() && ok == (old(bgIsFull) || !running)
      ensures View() == if ok then RNext(old(View()), SwapIn, ring, totalWritten) else old(View())
      ensures {activeBuf, bgBuf} == old({activeBuf, bgBuf})
      ensures ok ==> activeIdx == 0 && activeBuf[..activeCount] == old(bgBuf[..bgCount]) && !bgIsFull
      ensures delivered == old(delivered) && View().Held() == old(View().Held())
    {
      if !bgIsFull && running {
        return false;
      }
      activeBuf, bgBuf := bgBuf, activeBuf;
      activeCount := bgCount;
      activeIdx := 0;
      bgCount := 0;
      bgIsFull := false;
      ok := true;
    }

    /** nextBatch, once its wait (if it waits) is over: the front of the active
        buffer, swapped in first when it is used up. The batch is the front of
        what was held, the rest is held on to, and there is a batch whenever
        something is asked for and was ready. */
    method NextBatch(maxRecords: nat, ghost ring: Ring<Record>, ghost totalWritten: nat) returns (batch: seq<Record>)
      requires Valid() && ring.Valid()
      modifies this`activeBuf, this`bgBuf, this`activeCount, this`activeIdx, this`bgCount, this`bgIsFull, this`delivered
      ensures Valid()
      ensures var r := old(View());
        var r1 := if REnabled(r, SwapIn, ring, totalWritten) then RNext(r, SwapIn, ring, totalWritten) else r;
        && batch == r1.active[..Min(maxRecords, |r1.active|)]
        && View() == if r1.active == [] then r1 else RNext(r1, Take(maxRecords), ring, totalWritten)
      ensures delivered == old(delivered) + batch
      ensures batch + View().Held() == old(View().Held())
      ensures maxRecords > 0 && (old(activeIdx < activeCount) || old(bgIsFull)) ==> batch != []
    {
      if activeIdx >= activeCount {
        var ok := SwapBuffers(ring, totalWritten);
        if !ok {
          return [];
        }
      }
      if activeIdx >= activeCount {
        return [];
      }
      batch := TakeFront(maxRecords, ring, totalWritten);
    }

    method TakeFront(maxRecords: nat, ghost ring: Ring<Record>, ghost totalWritten: nat) returns (batch: seq<Record>)
      requires Valid() && ring.Valid() && activeIdx < activeCount
      modifies this`activeIdx, this`delivered
      ensures Valid() && View() == RNext(old(View()), Take(maxRecords), ring, totalWritten)
      ensures batch == old(View()).active[..Min(maxRecords, |old(View()).active|)]
      ensures delivered == old(delivered) + batch && batch + View().Held() == old(View().Held())
    {
      ghost var r := View();
      var available := activeCount - activeIdx;
      var n := if maxRecords < available then maxRecords else available;
      batch := Advance(n);
      HeldFront(r, n);
    }

    method Advance(n: nat) returns (batch: seq<Record>)
      requires Valid() && activeIdx + n <= activeCount
      modifies this`activeIdx, this`delivered
      ensures Valid() && batch == old(View()).active[..n]
      ensures View() == old(View()).(delivered := old(delivered) + batch, active := old(View()).active[n..])
    {
      batch := activeBuf[activeIdx..activeIdx + n];
      activeIdx := activeIdx + n;
      delivered := delivered + batch;
    }
  }

  class RecordReaderZC {
    const target: RecBuffer
    const capacity: nat
    var readerCursor: Cursor
    var pinnedEnd: Cursor
    var running: bool
    var finishing: bool
    var finishTarget: nat

    ghost predicate Valid()
      reads this, target, target.impl, target.impl.buffer, target.impl.buffer.arr
    {
      target.Valid() && readerCursor <= pinnedEnd <= |target.impl.history| <= NO_CURSOR
    }

    constructor (target: RecBuffer, capacity: nat)
      requires target.Valid() && |target.impl.history| <= NO_CURSOR
      ensures Valid() && running && !finishing && this.target == target && this.capacity == capacity
      ensures readerCursor == pinnedEnd == |target.impl.history| - target.impl.ring.size
    {
      assert |target.impl.ring.Contents()| == target.impl.ring.size;
      var totalWritten := target.impl.totalWritten;
      var currentBufferSize := target.impl.Size();
      var first: Cursor := if totalWritten > currentBufferSize then totalWritten - currentBufferSize else 0;
      this.target, this.capacity := target, capacity;
      readerCursor, pinnedEnd := first, first;
      running, finishing, finishTarget := true, false, 0;
    }

    method Release()
      requires Valid()
      modifies this`readerCursor
      ensures Valid() && readerCursor == pinnedEnd
    {
      if pinnedEnd == readerCursor {
        return;
      }
      readerCursor := pinnedEnd;
    }

    /** nextBatch that does not wait. After the last batch is released there is
        a batch exactly when the reader is live, something may be and is there
        to be read; it is the history at the cursor, which was moved to the oldest
        record when the writer had passed it. */
    method NextBatch(maxRecords: nat) returns (ptr: nat, contiguous: nat)
      requires Valid()
      modifies this`readerCursor, this`pinnedEnd, this`running
      ensures Valid() && pinnedEnd == readerCursor + contiguous
      ensures var drained := finishing && old(pinnedEnd) >= finishTarget;
        && running == (old(running) && !drained)
        && (contiguous > 0 <==> running && Min(maxRecords, capacity) > 0 && old(pinnedEnd) < |target.impl.history|)
      ensures var oldest := |target.impl.history| - target.impl.ring.size;
        readerCursor == if running && oldest > old(pinnedEnd) then oldest else old(pinnedEnd)
      ensures contiguous > 0 ==> target.IsBatchAt(readerCursor, ptr, contiguous, Min(maxRecords, capacity))
    {
      Release();
      var cursor := readerCursor;
      var max := if maxRecords < capacity then maxRecords else capacity;
      if finishing && cursor >= finishTarget {
        running := false;
        return 0, 0;
      }
      if !running {
        return 0, 0;
      }
      ptr, contiguous := TakePointer(max);
    }

    /** The part of nextBatch that takes the pointer, at a cursor with nothing
        pinned: where the cursor is, or at the oldest record when the writer has
        passed it. */
    method TakePointer(max: nat) returns (ptr: nat, contiguous: nat)
      requires Valid() && pinnedEnd == readerCursor
      modifies this`readerCursor, this`pinnedEnd
      ensures Valid() && pinnedEnd == readerCursor + contiguous
      ensures contiguous > 0 <==> max > 0 && old(readerCursor) < |target.impl.history|
      ensures var oldest := |target.impl.history| - target.impl.ring.size;
        readerCursor == if oldest > old(readerCursor) then oldest else old(readerCursor)
      ensures contiguous > 0 ==> target.IsBatchAt(readerCursor, ptr, contiguous, max)
    {
      ptr, contiguous := TryPointer(max);
      if contiguous == 0 {
        var skipped := SkipAhead();
        if skipped {
          ptr, contiguous := TryPointer(max);
        }
      }
    }

    /** One try for a pointer at the cursor; what it gives is pinned. */
    method TryPointer(max: nat) returns (ptr: nat, contiguous: nat)
      requires Valid() && pinnedEnd == readerCursor
      modifies this`pinnedEnd
      ensures Valid() && pinnedEnd == readerCursor + contiguous
      ensures contiguous > 0 <==> max > 0 && target.InWindow(readerCursor)
      ensures contiguous > 0 ==> target.IsBatchAt(readerCursor, ptr, contiguous, max)
    {
      var found;
      found, ptr, contiguous := target.GetBatchPtrFromGlobal(readerCursor, max);
      if !found || contiguous == 0 {
        return 0, 0;
      }
      pinnedEnd := readerCursor + contiguous;
    }

    /** The overrun check: past the records that are gone. */
    method SkipAhead() returns (skipped: bool)
      requires Valid() && pinnedEnd == readerCursor
      modifies this`readerCursor, this`pinnedEnd
      ensures Valid() && pinnedEnd == readerCursor
      ensures var oldest := |target.impl.history| - target.impl.ring.size;
        skipped == (oldest > old(readerCursor)) && readerCursor == if skipped then oldest else old(readerCursor)
    {
      assert |target.impl.ring.Contents()| == target.impl.ring.size;
      var tw := target.impl.totalWritten;
      var bs := target.impl.Size();
      if bs > 0 && tw > readerCursor && tw - readerCursor > bs {
        var newCursor := tw - bs;
        readerCursor := newCursor;
        pinnedEnd := newCursor;
        return true;
      }
      return false;
    }
  }
}
