/** RecBuffer: absolute read positions over the chunk buffer, the registered
    readers and the space their slowest cursor leaves for writing. */
module RecBuffers {
  import opened Rings
  import opened Chunks
  import opened Buffers
  import opened ChunkBuffers

  const NO_CURSOR: nat := 0xFFFF_FFFF_FFFF_FFFF

  type Cursor = c: nat | c <= NO_CURSOR

  /** totalWritten - cursor in unsigned 64-bit arithmetic: a cursor in the
      future comes out as a lag no buffer can hold. */
  function Lag(total: nat, cursor: Cursor): (lag: nat)
    ensures cursor > total ==> lag > total
  {
    if cursor <= total then total - cursor else total + NO_CURSOR + 1 - cursor
  }

  /** How many records may be written without overwriting position `slowest`. */
  function SpaceFor(total: nat, cap: nat, slowest: nat): (space: nat)
    ensures space <= cap
    ensures slowest <= total ==> total - slowest + space <= cap || space == 0
  {
    if total < slowest then cap
    else if total - slowest >= cap then 0
    else cap - (total - slowest)
  }

  /** A registered reader, as far as the buffer sees it. */
  class Client {
    var cursor: Cursor

    constructor (start: Cursor)
      ensures cursor == start
    {
      cursor := start;
    }
  }

  class RecBuffer {
    var impl: DynamicChunkBuffer
    var clients: seq<Client>
    var phantomReadCursor: Cursor

    ghost predicate Valid()
      reads this, impl, impl.buffer, impl.buffer.arr
    {
      impl.Valid() && forall i, j | 0 <= i < j < |clients| :: clients[i] != clients[j]
    }

    constructor (recSize: nat, capacity: nat)
      requires capacity > 0 && recSize > 0
      ensures Valid() && fresh(impl) && fresh(impl.buffer) && fresh(impl.buffer.arr)
      ensures impl.history == [] && |impl.ring.mem| == capacity && impl.chunkSize == recSize
      ensures clients == [] && phantomReadCursor == 0
    {
      impl := new DynamicChunkBuffer(capacity, recSize);
      clients := [];
      phantomReadCursor := 0;
    }

    // --- data ---

    method Push(data: seq<Byte>, count: nat, ghost recs: seq<Record>)
      requires Valid()
      requires |recs| == count && Holds(data, recs, impl.chunkSize)
      modifies impl`totalWritten, impl`ring, impl`history, impl.buffer`head, impl.buffer`size, impl.buffer.arr
      ensures Valid() && impl.buffer.arr == old(impl.buffer.arr)
      ensures impl.history == old(impl.history) + recs
      ensures impl.ring == PushMany(old(impl.ring), recs)
    {
      impl.Push(data, count, recs);
    }

    /** The record at absolute position `cursor` is still in the buffer. */
    ghost predicate InWindow(cursor: nat)
      reads this, impl
    {
      cursor < |impl.history| <= cursor + impl.ring.size
    }

    method ReadFromGlobal(globalCursor: Cursor, count: nat) returns (n: nat, dest: seq<Byte>)
      requires Valid()
      requires InWindow(globalCursor) ==> globalCursor + count <= |impl.history|
      ensures if InWindow(globalCursor)
        then n == count && Holds(dest, impl.history[globalCursor..globalCursor + count], impl.chunkSize)
        else n == 0 && dest == []
    {
      var totalWritten := impl.totalWritten;
      var currentSize := impl.Size();
      var lag := Lag(totalWritten, globalCursor);
      if lag > currentSize || lag == 0 {
        return 0, [];
      }
      var relativeIndex := currentSize - lag;
      dest := impl.ReadAt(relativeIndex, count);
      n := count;
      WindowSlice(impl.history, impl.ring.size, globalCursor, count);
    }

    /** How many of at most `max` records from a position of the window on lie
        in one stretch of the array. */
    ghost function BatchLength(cursor: nat, max: nat): nat
      reads this, impl, impl.buffer, impl.buffer.arr
      requires Valid() && InWindow(cursor)
    {
      var lag := |impl.history| - cursor;
      RunLength(impl.ring, impl.ring.size - lag, if max < lag then max else lag)
    }

    /** The memory from ptr on holds the next records at the cursor: as many as
        asked for, there, and in one piece. */
    ghost predicate IsBatchAt(cursor: nat, ptr: nat, contiguous: nat, max: nat)
      reads this, impl, impl.buffer, impl.buffer.arr
      requires Valid()
    {
      && InWindow(cursor) && cursor + contiguous <= |impl.history|
      && contiguous == BatchLength(cursor, max) <= max
      && (contiguous == max || cursor + contiguous == |impl.history|
          || SlotOf(impl.ring, |impl.history|, cursor) + contiguous == |impl.ring.mem|)
      && ptr + Bytes(contiguous, impl.chunkSize) <= impl.buffer.arr.Length
      && Holds(impl.buffer.arr[ptr..ptr + Bytes(contiguous, impl.chunkSize)],
               impl.history[cursor..cursor + contiguous], impl.chunkSize)
    }

    /** Zero-copy read: where the run starts in the byte array and how many
        records it has. */
    method GetBatchPtrFromGlobal(globalCursor: Cursor, maxRecords: nat)
      returns (found: bool, ptr: nat, contiguous: nat)
      requires Valid()
      ensures found == InWindow(globalCursor)
      ensures !found ==> contiguous == 0
      ensures found ==> IsBatchAt(globalCursor, ptr, contiguous, maxRecords)
      ensures found ==> (contiguous == 0 <==> maxRecords == 0)
      ensures found ==> ptr == Bytes(SlotOf(impl.ring, |impl.history|, globalCursor), impl.chunkSize)
    {
      var totalWritten := impl.totalWritten;
      var currentSize := impl.Size();
      var lag := Lag(totalWritten, globalCursor);
      if lag == 0 || lag > currentSize {
        return false, 0, 0;
      }
      var relativeIndex := currentSize - lag;
      var limitedMax := if maxRecords < lag then maxRecords else lag;
      found := true;
      ptr, contiguous := BatchAt(relativeIndex, globalCursor, limitedMax);
    }

    /** The batch of at most `max` records at index `rel` of the window, which
        is where the record at `cursor` lies. */
    method BatchAt(rel: nat, ghost cursor: nat, max: nat) returns (ptr: nat, contiguous: nat)
      requires Valid() && InWindow(cursor) && rel + |impl.history| == cursor + impl.ring.size
      requires cursor + max <= |impl.history|
      ensures contiguous == RunLength(impl.ring, rel, max) <= max && cursor + contiguous <= |impl.history|
      ensures contiguous == max || impl.ring.Slot(rel) + contiguous == |impl.ring.mem|
      ensures ptr == Bytes(impl.ring.Slot(rel), impl.chunkSize)
      ensures ptr + Bytes(contiguous, impl.chunkSize) <= impl.buffer.arr.Length
      ensures Holds(impl.buffer.arr[ptr..ptr + Bytes(contiguous, impl.chunkSize)],
                    impl.history[cursor..cursor + contiguous], impl.chunkSize)
    {
      ptr, contiguous := impl.GetBatchPtr(rel, max);
      assert impl.Window()[rel..rel + contiguous] == impl.history[cursor..cursor + contiguous];
    }

    method ReadRelative(index: nat, count: nat) returns (dest: seq<Byte>)
      requires Valid()
      requires index + count <= impl.ring.size
      ensures Holds(dest, impl.Window()[index..index + count], impl.chunkSize)
    {
      dest := impl.ReadAt(index, count);
    }

    /** processRecord hands its visitor one record in place, or none; here the
        record is returned. */
    method ProcessRecord(index: nat) returns (valid: bool, rec: seq<Byte>)
      requires Valid()
      ensures valid == (index < impl.ring.size)
      ensures rec == if valid then impl.Window()[index] else []
    {
      var size := impl.Size();
      if index >= size {
        return false, [];
      }
      var ptr, isSplit := impl.GetChunkPtr(index);
      assert !isSplit;
      return true, impl.buffer.arr[ptr..ptr + impl.chunkSize];
    }

    // --- readers and backpressure ---

    method AddClient(client: Client)
      requires Valid()
      modifies this`clients
      ensures Valid()
      ensures clients == if client in old(clients) then old(clients) else old(clients) + [client]
    {
      if client !in clients {
        clients := clients + [client];
      }
    }

    method RemoveClient(client: Client)
      requires Valid()
      modifies this`clients
      ensures Valid() && client !in clients
      ensures forall c | c != client :: c in clients <==> c in old(clients)
      ensures client !in old(clients) ==> clients == old(clients)
      ensures client in old(clients) ==> exists i | 0 <= i < |old(clients)| ::
        old(clients)[i] == client && clients == old(clients)[..i] + old(clients)[i + 1..]
    {
      var i := 0;
      while i < |clients| && clients[i] != client
        invariant 0 <= i <= |clients|
        invariant client !in clients[..i]
      {
        i := i + 1;
      }
      if i < |clients| {
        clients := clients[..i] + clients[i + 1..];
      }
    }

    /** m is the smallest cursor of a reader that has one. */
    ghost predicate IsSlowest(m: nat)
      reads this, clients
    {
      && (exists i | 0 <= i < |clients| :: clients[i].cursor == m != NO_CURSOR)
      && (forall i | 0 <= i < |clients| :: clients[i].cursor == NO_CURSOR || m <= clients[i].cursor)
    }

    ghost predicate NoReader()
      reads this, clients
    {
      forall i | 0 <= i < |clients| :: clients[i].cursor == NO_CURSOR
    }

    method CalculateMinReadCursor() returns (m: Cursor)
      requires Valid()
      modifies this`phantomReadCursor
      ensures m == phantomReadCursor
      ensures if NoReader() then m == old(phantomReadCursor) else IsSlowest(m)
    {
      if |clients| == 0 {
        return phantomReadCursor;
      }
      var minCursor: Cursor := NO_CURSOR;
      for i := 0 to |clients|
        invariant minCursor == NO_CURSOR ==> forall k | 0 <= k < i :: clients[k].cursor == NO_CURSOR
        invariant minCursor != NO_CURSOR ==> exists k | 0 <= k < i :: clients[k].cursor == minCursor
        invariant forall k | 0 <= k < i :: clients[k].cursor == NO_CURSOR || minCursor <= clients[k].cursor
      {
        var c := clients[i].cursor;
        if c != NO_CURSOR && c < minCursor {
          minCursor := c;
        }
      }
      if minCursor == NO_CURSOR {
        return phantomReadCursor;
      }
      phantomReadCursor := minCursor;
      return minCursor;
    }

    /** The space that this count and this smallest cursor leave. */
    method SpaceBehind(totalWritten: nat, minReaderCursor: nat) returns (space: nat)
      requires Valid()
      ensures space == SpaceFor(totalWritten, |impl.ring.mem|, minReaderCursor)
    {
      var cap := impl.Capacity();
      if totalWritten < minReaderCursor {
        return cap;
      }
      var unread := totalWritten - minReaderCursor;
      space := if unread >= cap then 0 else cap - unread;
    }

    /** Writing at most this many records overwrites nothing that a registered
        reader has yet to read. */
    method GetAvailableWriteSpace() returns (space: nat)
      requires Valid()
      modifies this`phantomReadCursor
      ensures space == SpaceFor(|impl.history|, |impl.ring.mem|, phantomReadCursor)
      ensures if NoReader() then phantomReadCursor == old(phantomReadCursor) else IsSlowest(phantomReadCursor)
      ensures forall i | 0 <= i < |clients| && space > 0 && clients[i].cursor != NO_CURSOR ::
        |impl.history| + space <= clients[i].cursor + |impl.ring.mem| || |impl.history| < clients[i].cursor
    {
      var totalWritten := impl.totalWritten;
      var minReaderCursor := CalculateMinReadCursor();
      space := SpaceBehind(totalWritten, minReaderCursor);
    }
  }

  lemma WindowSlice(history: seq<Record>, size: nat, cursor: nat, count: nat)
    requires size <= |history| <= cursor + size && cursor + count <= |history|
    ensures var rel := size - (|history| - cursor);
      history[|history| - size..][rel..rel + count] == history[cursor..cursor + count]
  {
  }
}
