/** DynamicChunkBuffer: fixed-size chunks over a CircularBuffer of bytes, with
    the lifetime count of chunks written. */
module ChunkBuffers {
  import opened Rings
  import opened Chunks
  import opened Buffers

  class DynamicChunkBuffer {
    var buffer: CircularBuffer<Byte>
    var chunkSize: nat
    var totalWritten: nat

    ghost var ring: Ring<Record>       // the byte ring, read as a ring of chunks
    ghost var history: seq<Record>     // every chunk ever pushed

    ghost predicate Valid()
      reads this, buffer, buffer.arr
    {
      && buffer.Valid()
      && Lays(buffer.View(), ring, chunkSize)
      && Represents(ring, history)
      && totalWritten == |history|
    }

    /** The chunks still in the buffer are the newest ones. */
    ghost function Window(): seq<Record>
      reads this, buffer, buffer.arr
      requires Valid()
    {
      history[|history| - ring.size..]
    }

    constructor (itemCapacity: nat, chunkSize: nat)
      requires itemCapacity > 0 && chunkSize > 0
      ensures Valid() && fresh(buffer) && fresh(buffer.arr)
      ensures history == [] && |ring.mem| == itemCapacity && this.chunkSize == chunkSize
    {
      this.chunkSize := chunkSize;
      BytesIsMul(itemCapacity, chunkSize);
      BytesOrder(0, itemCapacity, chunkSize);
      buffer := new CircularBuffer<Byte>(itemCapacity * chunkSize);
      totalWritten := 0;
      history := [];
      new;
      ring := Ring(Cut(buffer.arr[..], itemCapacity, chunkSize), 0, 0);
    }

    /** Drops everything and starts over with a new shape. */
    method Init(itemCapacity: nat, chunkSize: nat)
      requires itemCapacity > 0 && chunkSize > 0
      modifies this
      ensures Valid() && fresh(buffer) && fresh(buffer.arr)
      ensures history == [] && |ring.mem| == itemCapacity && this.chunkSize == chunkSize
    {
      this.chunkSize := chunkSize;
      BytesIsMul(itemCapacity, chunkSize);
      BytesOrder(0, itemCapacity, chunkSize);
      buffer := new CircularBuffer<Byte>(itemCapacity * chunkSize);
      totalWritten := 0;
      history := [];
      ring := Ring(Cut(buffer.arr[..], itemCapacity, chunkSize), 0, 0);
    }

    /** Appends `count` chunks. The count grows by all of them, also when the
        block is longer than the buffer. */
    method Push(data: seq<Byte>, count: nat, ghost chunks: seq<Record>)
      requires Valid()
      requires |chunks| == count && Holds(data, chunks, chunkSize)
      modifies this`totalWritten, this`ring, this`history, buffer`head, buffer`size, buffer.arr
      ensures Valid() && buffer.arr == old(buffer.arr)
      ensures history == old(history) + chunks
      ensures ring == PushMany(old(ring), chunks)
    {
      BytesOrder(0, count, chunkSize);
      if count == 0 {
        PushNothing(ring, chunks);
        assert history + chunks == history;
        return;
      }
      PushScale(buffer.View(), ring, data, chunks, chunkSize);
      PushKeepsHistory(ring, history, chunks);
      buffer.PushMany(data);
      totalWritten := totalWritten + count;
      ring := PushMany(ring, chunks);
      history := history + chunks;
    }

    method Size() returns (n: nat)
      requires Valid()
      ensures n == ring.size == if |history| < |ring.mem| then |history| else |ring.mem|
    {
      BytesIsMul(ring.size, chunkSize);
      MulMod(ring.size, chunkSize, 0);
      n := buffer.size / chunkSize;
      assert |ring.Contents()| == ring.size;
    }

    method Capacity() returns (n: nat)
      requires Valid()
      ensures n == |ring.mem|
    {
      BytesIsMul(|ring.mem|, chunkSize);
      MulMod(|ring.mem|, chunkSize, 0);
      assert buffer.arr.Length == |buffer.View().mem|;
      n := buffer.arr.Length / chunkSize;
    }

    /** Copies `count` chunks, `index` chunks after the oldest one. */
    method ReadAt(index: nat, count: nat) returns (dest: seq<Byte>)
      requires Valid()
      requires index + count <= ring.size
      ensures Holds(dest, Window()[index..index + count], chunkSize)
    {
      ContentsScale(buffer.View(), ring, chunkSize);
      HoldsSlice(buffer.View().Contents(), ring.Contents(), chunkSize, index, index + count);
      BytesIsMul(index, chunkSize);
      BytesIsMul(count, chunkSize);
      BytesAdd(index, count, chunkSize);
      assert ring.Contents() == Window();
      if count == 0 {
        return [];
      }
      dest := buffer.PeekManyAt(index * chunkSize, count * chunkSize);
    }

    /** get_ptr_unsafe of a chunk: index of its first byte in the array. */
    method Address(index: nat) returns (ptr: nat)
      requires Valid()
      requires index < ring.size
      ensures ptr == Bytes(ring.Slot(index), chunkSize) <= buffer.arr.Length
    {
      BytesIsMul(index, chunkSize);
      SlotScale(buffer.View(), ring, chunkSize, index, 0);
      ptr := Reduce(buffer.head + index * chunkSize, buffer.arr.Length);
    }

    /** Address of one chunk. No chunk ever wraps round the end. */
    method GetChunkPtr(index: nat) returns (ptr: nat, isSplit: bool)
      requires Valid()
      requires index < ring.size
      ensures !isSplit && ptr + chunkSize <= buffer.arr.Length
      ensures buffer.arr[ptr..ptr + chunkSize] == Window()[index]
    {
      ptr := Address(index);
      isSplit := ptr + chunkSize > buffer.arr.Length;
      ChunkAt(buffer.View(), ring, chunkSize, index);
    }

    /** Address of the longest stretch of at most `maxChunks` chunks from
        `relChunkIdx` on that does not go round the end. */
    method GetBatchPtr(relChunkIdx: nat, maxChunks: nat) returns (ptr: nat, contiguous: nat)
      requires Valid()
      requires relChunkIdx < ring.size && relChunkIdx + maxChunks <= ring.size
      ensures contiguous == RunLength(ring, relChunkIdx, maxChunks) <= maxChunks
      ensures contiguous == maxChunks || ring.Slot(relChunkIdx) + contiguous == |ring.mem|
      ensures ptr == Bytes(ring.Slot(relChunkIdx), chunkSize)
      ensures ptr + Bytes(contiguous, chunkSize) <= buffer.arr.Length
      ensures Holds(buffer.arr[ptr..ptr + Bytes(contiguous, chunkSize)],
                    Window()[relChunkIdx..relChunkIdx + contiguous], chunkSize)
    {
      contiguous := Contiguous(relChunkIdx, maxChunks);
      ptr := Address(relChunkIdx);
      RunFits(|ring.mem|, ring.Slot(relChunkIdx), contiguous, chunkSize);
      RunIsContiguous(buffer.View(), ring, chunkSize, relChunkIdx, contiguous,
                      buffer.arr[ptr..ptr + Bytes(contiguous, chunkSize)],
                      Window()[relChunkIdx..relChunkIdx + contiguous]);
    }

    /** How many of maxChunks chunks lie before the end of the array. */
    method Contiguous(relChunkIdx: nat, maxChunks: nat) returns (contiguous: nat)
      requires Valid()
      requires relChunkIdx < ring.size && relChunkIdx + maxChunks <= ring.size
      ensures contiguous == RunLength(ring, relChunkIdx, maxChunks) <= maxChunks
      ensures contiguous == maxChunks || ring.Slot(relChunkIdx) + contiguous == |ring.mem|
    {
      var itemCap := Capacity();
      var headChunk := HeadChunk();
      var physChunkIdx := Reduce(headChunk + relChunkIdx, itemCap);
      var avail := itemCap - physChunkIdx;
      contiguous := if maxChunks < avail then maxChunks else avail;
    }

    method HeadChunk() returns (h: nat)
      requires Valid()
      ensures h == ring.head
    {
      BytesIsMul(ring.head, chunkSize);
      MulMod(ring.head, chunkSize, 0);
      h := buffer.head / chunkSize;
    }
  }

  lemma ChunkAt(b: Ring<Byte>, r: Ring<Record>, c: nat, i: nat)
    requires Lays(b, r, c) && i < r.size
    ensures var p := Bytes(r.Slot(i), c);
      p + c <= |b.mem| && b.mem[p..p + c] == r.Contents()[i]
  {
    var p := Bytes(r.Slot(i), c);
    RunFits(|r.mem|, r.Slot(i), 1, c);
    assert Bytes(1, c) == c;
    RunIsContiguous(b, r, c, i, 1, b.mem[p..p + c], r.Contents()[i..i + 1]);
    OnlyRecord(b.mem[p..p + c], r.Contents()[i..i + 1], c);
  }

  lemma OnlyRecord(bytes: seq<Byte>, rs: seq<Record>, c: nat)
    requires c > 0 && |rs| == 1 && Holds(bytes, rs, c)
    ensures bytes == rs[0]
  {
    HoldsOne(rs[0], c);
    assert rs == [rs[0]];
    HoldsSameBytes(bytes, rs[0], rs, c);
  }

  /** Length of the run of at most n chunks from relative index i on that stays
      below the end of the array. */
  function RunLength(r: Ring<Record>, i: nat, n: nat): nat
    requires r.Valid() && i < |r.mem|
  {
    var room := |r.mem| - r.Slot(i);
    if n < room then n else room
  }
}
