/** Readers, whatever the writers do: what a reader hands out is made of whole
    slices of history, taken in strictly increasing order, and every position
    its cursor passed was delivered, is still held, or was counted as skipped. */
module PipelineReaders {
  import opened Helpers
  import opened Rings
  import opened Chunks
  import opened Pipeline

  /** The blocks of the log lie one after the other between start and end. */
  ghost predicate Ordered(start: nat, log: seq<Block>, end: nat) {
    if |log| == 0 then start <= end
    else
      var b := log[|log| - 1];
      b.lo < b.hi <= end && Ordered(start, log[..|log| - 1], b.lo)
  }

  ghost function Span(log: seq<Block>): int {
    if |log| == 0 then 0 else Span(log[..|log| - 1]) + log[|log| - 1].hi - log[|log| - 1].lo
  }

  /** The records of the blocks, one block after the other. */
  ghost function Gather(h: seq<Record>, log: seq<Block>): seq<Record> {
    if |log| == 0 then []
    else
      var b := log[|log| - 1];
      Gather(h, log[..|log| - 1]) + if b.lo <= b.hi <= |h| then h[b.lo..b.hi] else []
  }

  lemma {:induction false} OrderedWiden(start: nat, log: seq<Block>, end: nat, end': nat)
    requires Ordered(start, log, end) && end <= end'
    ensures Ordered(start, log, end')
  {
  }

  lemma {:induction false} GatherExtend(h: seq<Record>, p: seq<Record>, start: nat, log: seq<Block>, end: nat)
    requires Ordered(start, log, end) && end <= |h|
    ensures Gather(h + p, log) == Gather(h, log)
  {
    if |log| > 0 {
      var b := log[|log| - 1];
      GatherExtend(h, p, start, log[..|log| - 1], b.lo);
      assert (h + p)[b.lo..b.hi] == h[b.lo..b.hi];
    }
  }

  lemma {:induction false} GatherSize(h: seq<Record>, start: nat, log: seq<Block>, end: nat)
    requires Ordered(start, log, end) && end <= |h|
    ensures |Gather(h, log)| == Span(log) <= end - start
  {
    if |log| > 0 {
      GatherSize(h, start, log[..|log| - 1], log[|log| - 1].lo);
    }
  }

  /** Blocks that cover as many positions as lie between start and end leave no
      gap, so together they are one slice. */
  lemma {:induction false} GatherWhole(h: seq<Record>, start: nat, log: seq<Block>, end: nat)
    requires Ordered(start, log, end) && end <= |h|
    requires Span(log) == end - start
    ensures start <= end && Gather(h, log) == h[start..end]
  {
    if |log| == 0 {
      assert h[start..end] == [];
    } else {
      var b := log[|log| - 1];
      GatherSize(h, start, log[..|log| - 1], b.lo);
      GatherWhole(h, start, log[..|log| - 1], b.lo);
      assert h[start..end] == h[start..b.lo] + h[b.lo..b.hi];
    }
  }

  /** What a range read copies is the slice of history at that position. */
  lemma ReadIsSlice(ring: Ring<Record>, h: seq<Record>, at: nat, count: nat)
    requires Represents(ring, h)
    requires 0 < Behind(|h|, at) <= ring.size && count <= Behind(|h|, at)
    ensures at + count <= |h| && ReadGlobal(ring, |h|, at, count) == h[at..at + count]
  {
    assert |ring.Contents()| == ring.size;
    SliceOfLast(ring.Contents(), h, |h| - ring.size, at, count);
  }

  lemma SliceOfLast<T>(s: seq<T>, h: seq<T>, d: nat, at: nat, count: nat)
    requires d <= |h| && s == h[d..] && d <= at && at + count <= |h|
    ensures s[at - d..at - d + count] == h[at..at + count]
  {
  }

  // ---------------------------------------------------------------------------
  // The invariant of one reader
  // ---------------------------------------------------------------------------

  ghost predicate Accounted(r: Reader, h: seq<Record>) {
    && Ordered(r.start, r.log, r.Frontier())
    && r.Frontier() - r.start == Span(r.log) + r.skipped
    && r.delivered + r.Held() == Gather(h, r.log)
  }

  ghost predicate CopyInv(r: Reader, h: seq<Record>) {
    && (r.bgFull <==> r.bg != [])
    && (r.pc.Stored? ==> r.pc.data != [])
    && (r.batchCap > 0 ==> (r.pc.Fetch? ==> r.pc.count > 0) && (r.pc.Copied? ==> r.pc.data != []))
    && (r.pc.Awake? || r.pc.Fetch? || r.pc.Copied? || r.pc.Stored? ==> !r.bgFull && r.running)
    && (r.pc.Fetch? ==> r.cursor <= r.pc.at && r.pc.at + r.pc.count <= |h|)
    && (r.pc.Copied? ==>
         && r.cursor <= r.pc.at <= r.pc.at + |r.pc.data| <= |h|
         && r.pc.data == h[r.pc.at..r.pc.at + |r.pc.data|])
    && (r.running <==> !r.pc.Ended?)
    && (!r.running ==> r.FinishReached() && !r.bgFull)
  }

  ghost predicate ZcInv(r: Reader, h: seq<Record>) {
    && r.cursor <= r.pinnedEnd <= |h|
    && (!r.zpc.Out? ==> r.pinnedEnd == r.cursor && r.running)
    && (r.zpc.Skip? ==> r.cursor < r.zpc.to < |h|)
    && (r.zpc.Ready? && r.zpc.waited ==> r.FinishReached() || |h| > r.cursor)
    && ((r.zpc.Get? || r.zpc.Missed?) && r.zpc.waited ==> |h| > r.cursor)
  }

  ghost predicate RInv(r: Reader, h: seq<Record>) {
    && r.start <= r.cursor <= |h|
    && (r.finishing ==> r.finishTarget <= |h|)
    && Accounted(r, h)
    && if r.zeroCopy then ZcInv(r, h) else CopyInv(r, h)
  }

  lemma ReaderInit(r: Reader, ring: Ring<Record>, h: seq<Record>)
    requires FreshReader(r, ring, |h|)
    ensures RInv(r, h)
  {
  }

  /** A push by anyone leaves a reader's accounts as they are. */
  lemma ReaderPush(r: Reader, h: seq<Record>, p: seq<Record>)
    requires RInv(r, h)
    ensures RInv(r, h + p)
  {
    GatherExtend(h, p, r.start, r.log, r.Frontier());
    if !r.zeroCopy && r.pc.Copied? {
      assert (h + p)[r.pc.at..r.pc.at + |r.pc.data|] == h[r.pc.at..r.pc.at + |r.pc.data|];
    }
  }

  lemma AccountedAppend(h: seq<Record>, start: nat, log: seq<Block>, end: nat, lo: nat, hi: nat)
    requires Ordered(start, log, end) && end <= lo < hi <= |h|
    ensures var log' := log + [Block(lo, hi)];
      Ordered(start, log', hi) && Span(log') == Span(log) + hi - lo && Gather(h, log') == Gather(h, log) + h[lo..hi]
  {
    OrderedWiden(start, log, end, lo);
    assert (log + [Block(lo, hi)])[..|log|] == log;
  }

  lemma StoreStep(r: Reader, ring: Ring<Record>, h: seq<Record>)
    requires RInv(r, h) && ring.Valid() && REnabled(r, Store, ring, |h|)
    ensures RInv(RNext(r, Store, ring, |h|), h)
  {
    if r.pc.data == [] {
      OrderedWiden(r.start, r.log, r.cursor, r.pc.at);
      assert RNext(r, Store, ring, |h|).Held() == r.Held();
    } else {
      StoreData(r, ring, h);
    }
  }

  lemma StoreData(r: Reader, ring: Ring<Record>, h: seq<Record>)
    requires RInv(r, h) && ring.Valid() && REnabled(r, Store, ring, |h|) && r.pc.data != []
    ensures RInv(RNext(r, Store, ring, |h|), h)
  {
    StoreAccounts(r, RNext(r, Store, ring, |h|), h, r.pc.at, r.pc.data);
  }

  lemma StoreAccounts(r: Reader, r': Reader, h: seq<Record>, at: nat, data: seq<Record>)
    requires Accounted(r, h) && !r.zeroCopy && !r.bgFull && r.pc == Copied(at, data) && data != []
    requires r.cursor <= at && at + |data| <= |h| && data == h[at..at + |data|]
    requires r' == r.(cursor := at + |data|, skipped := r.skipped + (at - r.cursor), pc := Stored(data),
                      log := r.log + [Block(at, at + |data|)])
    ensures Accounted(r', h)
  {
    AccountedAppend(h, r.start, r.log, r.cursor, at, at + |data|);
    AddNothing(r.active);
    assert r.Held() == r.active + [] + [] && r'.Held() == r.active + [] + data;
    Reassociate(r.delivered, r.active, data);
  }

  lemma ReadStep(r: Reader, ring: Ring<Record>, h: seq<Record>)
    requires RInv(r, h) && Represents(ring, h) && REnabled(r, Read, ring, |h|)
    ensures ReadInRange(ring, |h|, r.pc.at, r.pc.count)
    ensures RInv(RNext(r, Read, ring, |h|), h)
  {
    var data := ReadGlobal(ring, |h|, r.pc.at, r.pc.count);
    if 0 < Behind(|h|, r.pc.at) <= ring.size {
      ReadIsSlice(ring, h, r.pc.at, r.pc.count);
      assert |data| == r.pc.count;
    }
    assert RNext(r, Read, ring, |h|).Held() == r.Held();
  }

  lemma SnapshotStep(r: Reader, ring: Ring<Record>, h: seq<Record>)
    requires RInv(r, h) && Represents(ring, h) && REnabled(r, Snapshot, ring, |h|)
    ensures RInv(RNext(r, Snapshot, ring, |h|), h)
  {
    assert |ring.Contents()| == ring.size <= |h|;
  }

  lemma SwapInStep(r: Reader, ring: Ring<Record>, h: seq<Record>)
    requires RInv(r, h) && ring.Valid() && REnabled(r, SwapIn, ring, |h|)
    ensures RInv(RNext(r, SwapIn, ring, |h|), h)
  {
    assert RNext(r, SwapIn, ring, |h|).Held() == r.Held();
  }

  /** The front of the active buffer is the front of what is held. */
  lemma HeldFront(r: Reader, n: nat)
    requires !r.zeroCopy && n <= |r.active|
    ensures r.active[..n] + r.(active := r.active[n..]).Held() == r.Held()
  {
    var bg := if r.bgFull then r.bg else [];
    var stored := if r.pc.Stored? then r.pc.data else [];
    assert r.active == r.active[..n] + r.active[n..];
    Reassociate(r.active[..n], r.active[n..], bg);
    Reassociate(r.active[..n], r.active[n..] + bg, stored);
  }

  lemma TakeStep(r: Reader, max: nat, ring: Ring<Record>, h: seq<Record>)
    requires RInv(r, h) && ring.Valid() && REnabled(r, Take(max), ring, |h|)
    ensures RInv(RNext(r, Take(max), ring, |h|), h)
  {
    var n := Min(max, |r.active|);
    var r' := r.(delivered := r.delivered + r.active[..n], active := r.active[n..]);
    TakeAccounts(r, r', n);
    assert Accounted(r', h);
  }

  lemma TakeAccounts(r: Reader, r': Reader, n: nat)
    requires !r.zeroCopy && n <= |r.active|
    requires r' == r.(delivered := r.delivered + r.active[..n], active := r.active[n..])
    ensures r'.delivered + r'.Held() == r.delivered + r.Held()
  {
    var bg := if r.bgFull then r.bg else [];
    var stored := if r.pc.Stored? then r.pc.data else [];
    TakeSome(r.delivered, r.active, n, bg + stored);
    Reassociate(r.active, bg, stored);
    Reassociate(r.active[n..], bg, stored);
  }

  lemma TakeSome<T>(done: seq<T>, active: seq<T>, n: nat, later: seq<T>)
    requires n <= |active|
    ensures (done + active[..n]) + (active[n..] + later) == done + (active + later)
  {
    assert active == active[..n] + active[n..];
  }

  lemma PinStep(r: Reader, a: RAct, ring: Ring<Record>, h: seq<Record>)
    requires RInv(r, h) && Represents(ring, h) && REnabled(r, a, ring, |h|) && (a.TakePtr? || a.TakePtrAgain?)
    ensures RInv(RNext(r, a, ring, |h|), h)
  {
    var n := RunAt(ring, |h|, r.cursor, r.zpc.max);
    if n > 0 { PinnedSlice(r, ring, h, n); }
  }

  /** A batch handed out by pointer is the slice of history at the cursor. */
  lemma PinnedSlice(r: Reader, ring: Ring<Record>, h: seq<Record>, n: nat)
    requires RInv(r, h) && Represents(ring, h) && r.zeroCopy && !r.zpc.Out?
    requires 0 < Behind(|h|, r.cursor) <= ring.size && 0 < n <= Behind(|h|, r.cursor)
    ensures var r' := Pinned(r, ring, |h|, n);
      r'.delivered == r.delivered + h[r.cursor..r.cursor + n] && RInv(r', h)
  {
    PinnedIs(r, ring, h, n);
    var r' := Pinned(r, ring, |h|, n);
    PinnedAccounts(r, r', h, n);
    PinnedKeeps(r, r', h);
  }

  lemma PinnedIs(r: Reader, ring: Ring<Record>, h: seq<Record>, n: nat)
    requires Represents(ring, h) && r.zeroCopy
    requires 0 < Behind(|h|, r.cursor) <= ring.size && 0 < n <= Behind(|h|, r.cursor)
    ensures r.cursor + n <= |h|
    ensures var r' := Pinned(r, ring, |h|, n);
      r' == r.(zpc := Out, ptr := r'.ptr, pinnedEnd := r.cursor + n, log := r.log + [Block(r.cursor, r.cursor + n)],
               delivered := r.delivered + h[r.cursor..r.cursor + n])
  {
    PinnedData(ring, h, r.cursor, n);
  }

  lemma PinnedKeeps(r: Reader, r': Reader, h: seq<Record>)
    requires RInv(r, h) && r.zeroCopy && r'.zeroCopy && Accounted(r', h)
    requires r' == r.(zpc := Out, ptr := r'.ptr, pinnedEnd := r'.pinnedEnd, log := r'.log, delivered := r'.delivered)
    requires r.cursor <= r'.pinnedEnd <= |h|
    ensures RInv(r', h)
  {
  }

  lemma PinnedData(ring: Ring<Record>, h: seq<Record>, at: nat, n: nat)
    requires Represents(ring, h) && 0 < Behind(|h|, at) <= ring.size && 0 < n <= Behind(|h|, at)
    ensures at + n <= |h|
    ensures var rel := ring.size - Behind(|h|, at); ring.Contents()[rel..rel + n] == h[at..at + n]
  {
    ReadIsSlice(ring, h, at, n);
  }

  lemma PinnedAccounts(r: Reader, r': Reader, h: seq<Record>, n: nat)
    requires Accounted(r, h) && r.zeroCopy && r'.zeroCopy && r.pinnedEnd == r.cursor && 0 < n && r.cursor + n <= |h|
    requires r' == r.(zpc := r'.zpc, ptr := r'.ptr, pinnedEnd := r.cursor + n,
                      log := r.log + [Block(r.cursor, r.cursor + n)],
                      delivered := r.delivered + h[r.cursor..r.cursor + n])
    ensures Accounted(r', h)
  {
    AccountedAppend(h, r.start, r.log, r.cursor, r.cursor, r.cursor + n);
    AddNothing(r.delivered);
    AddNothing(r'.delivered);
  }

  lemma SkipStep(r: Reader, a: RAct, ring: Ring<Record>, h: seq<Record>)
    requires RInv(r, h) && Represents(ring, h) && REnabled(r, a, ring, |h|) && (a.Probe? || a.StoreSkip?)
    ensures RInv(RNext(r, a, ring, |h|), h)
  {
    if a.StoreSkip? { OrderedWiden(r.start, r.log, r.cursor, r.zpc.to); }
  }

  /** The steps that take nothing from the ring and hand nothing out. */
  lemma QuietCopyStep(r: Reader, a: RAct, ring: Ring<Record>, h: seq<Record>)
    requires RInv(r, h) && ring.Valid() && REnabled(r, a, ring, |h|) && !r.zeroCopy
    requires a.Finish? || a.Wake? || a.Publish?
    ensures RInv(RNext(r, a, ring, |h|), h)
  {
    if a.Publish? { AddNothing(r.active + r.pc.data); AddNothing(r.active); }
    assert RNext(r, a, ring, |h|).Held() == r.Held();
  }

  lemma QuietZcStep(r: Reader, a: RAct, ring: Ring<Record>, h: seq<Record>)
    requires RInv(r, h) && ring.Valid() && REnabled(r, a, ring, |h|) && r.zeroCopy
    requires a.Finish? || a.Release? || a.Begin? || a.Arrive? || a.Recheck?
    ensures RInv(RNext(r, a, ring, |h|), h)
  {
    assert RNext(r, a, ring, |h|).Held() == r.Held();
  }

  /** No step takes back what was delivered or moves the cursor back. */
  lemma ReaderMoves(r: Reader, a: RAct, ring: Ring<Record>, h: seq<Record>)
    requires RInv(r, h) && ring.Valid() && REnabled(r, a, ring, |h|)
    ensures var r' := RNext(r, a, ring, |h|);
      && r.cursor <= r'.cursor
      && r'.start == r.start
      && r.skipped <= r'.skipped
      && r.delivered <= r'.delivered
  {
  }

  /** Every step of a reader keeps its invariant and never reads past the end of
      the window. */
  lemma ReaderStep(r: Reader, a: RAct, ring: Ring<Record>, h: seq<Record>)
    requires RInv(r, h) && Represents(ring, h) && REnabled(r, a, ring, |h|)
    ensures RInv(RNext(r, a, ring, |h|), h)
    ensures a.Read? ==> ReadInRange(ring, |h|, r.pc.at, r.pc.count)
  {
    match a
    case Store => StoreStep(r, ring, h);
    case Read => ReadStep(r, ring, h);
    case Snapshot => SnapshotStep(r, ring, h);
    case SwapIn => SwapInStep(r, ring, h);
    case Take(max) => TakeStep(r, max, ring, h);
    case TakePtr => PinStep(r, a, ring, h);
    case TakePtrAgain => PinStep(r, a, ring, h);
    case Probe => SkipStep(r, a, ring, h);
    case StoreSkip => SkipStep(r, a, ring, h);
    case _ => if r.zeroCopy { QuietZcStep(r, a, ring, h); } else { QuietCopyStep(r, a, ring, h); }
  }
}
