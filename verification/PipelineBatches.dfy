/** What consumers are handed, call by call, and what they never are: every
    batch is what was held at the front, the batches joined are what counts as
    delivered, and what a reader skips had already left the ring. */
module PipelineBatches {
  import opened Helpers
  import opened Rings
  import opened Chunks
  import opened ChunkBuffers
  import opened Pipeline
  import opened PipelineWriters
  import opened PipelineReaders
  import opened PipelineTheorems
  import opened PipelineProgress

  // ---------------------------------------------------------------------------
  // Batches
  // ---------------------------------------------------------------------------

  /** What the consumer of reader j gets to see in the step from s to t: the
      front of the active buffer, or the memory its new pointer points to. */
  ghost function Handed(s: State, a: Action, t: State, j: nat): seq<Record>
    requires j < |s.readers| && j < |t.readers|
  {
    if !a.Consume? || a.r != j then []
    else
      match a.ra
      case Take(max) => s.readers[j].active[..Min(max, |s.readers[j].active|)]
      case TakePtr => if t.readers[j].Holding() then PinnedBytes(t, j) else []
      case TakePtrAgain => if t.readers[j].Holding() then PinnedBytes(t, j) else []
      case _ => []
  }

  /** A batch from the active buffer is the front of what was held; the rest is
      still held. */
  lemma TakeHands(s: State, max: nat, j: nat)
    requires Inv(s) && Enabled(s, Consume(j, Take(max)))
    ensures var t := Apply(s, Consume(j, Take(max))); var batch := Handed(s, Consume(j, Take(max)), t, j);
      && t.readers[j].delivered == s.readers[j].delivered + batch
      && batch + t.readers[j].Held() == s.readers[j].Held()
      && |batch| == Min(max, |s.readers[j].active|)
  {
    HeldFront(s.readers[j], Min(max, |s.readers[j].active|));
  }

  lemma PinnedMemoryIs(ring: Ring<Record>, h: seq<Record>, at: nat, n: nat)
    requires Represents(ring, h) && 0 < Behind(|h|, at) <= ring.size && 0 < n <= Behind(|h|, at)
    requires var rel := ring.size - Behind(|h|, at); n <= |ring.mem| - ring.Slot(rel)
    ensures var slot := ring.Slot(ring.size - Behind(|h|, at));
      && at + n <= |h| && slot + n <= |ring.mem|
      && ring.mem[slot..slot + n] == h[at..at + n]
  {
    var rel := ring.size - Behind(|h|, at);
    ReadIsSlice(ring, h, at, n);
    RunRead(ring, rel, n);
  }

  /** What the pointer of a reader between calls points to. */
  ghost function Memory(r: Reader, ring: Ring<Record>): seq<Record> {
    if r.Holding() && r.ptr + r.pinnedEnd - r.cursor <= |ring.mem|
    then ring.mem[r.ptr..r.ptr + (r.pinnedEnd - r.cursor)] else []
  }

  /** The reader came to hold batch, which is the history at its cursor. */
  ghost predicate Took(r: Reader, r': Reader, batch: seq<Record>, h: seq<Record>) {
    && r'.delivered == r.delivered + batch
    && r'.cursor == r.cursor && r.cursor + |batch| == r'.pinnedEnd <= |h|
    && batch == h[r.cursor..r'.pinnedEnd]
  }

  lemma PinnedTook(r: Reader, ring: Ring<Record>, h: seq<Record>, n: nat)
    requires Represents(ring, h) && r.zeroCopy
    requires 0 < Behind(|h|, r.cursor) <= ring.size && 0 < n <= Behind(|h|, r.cursor)
    requires n <= |ring.mem| - ring.Slot(ring.size - Behind(|h|, r.cursor))
    ensures var r' := Pinned(r, ring, |h|, n);
      Took(r, r', Memory(r', ring), h) && r'.Holding() && Memory(r', ring) != []
  {
    PinnedIs(r, ring, h, n);
    PinnedMemoryIs(ring, h, r.cursor, n);
  }

  lemma PointerTakes(r: Reader, a: RAct, ring: Ring<Record>, h: seq<Record>)
    requires RInv(r, h) && Represents(ring, h) && REnabled(r, a, ring, |h|) && (a.TakePtr? || a.TakePtrAgain?)
    ensures var r' := RNext(r, a, ring, |h|);
      Took(r, r', Memory(r', ring), h) && (r'.Holding() ==> Memory(r', ring) != [])
  {
    var n := RunAt(ring, |h|, r.cursor, r.zpc.max);
    if n > 0 { PinnedTook(r, ring, h, n); } else { AddNothing(r.delivered); }
  }

  /** A batch by pointer is the memory pointed to, and that is the history at
      the cursor. */
  lemma PointerHands(s: State, a: RAct, j: nat)
    requires Inv(s) && Enabled(s, Consume(j, a)) && (a.TakePtr? || a.TakePtrAgain?)
    ensures var r, t := s.readers[j], Apply(s, Consume(j, a)); var batch := Handed(s, Consume(j, a), t, j);
      && t.readers[j].delivered == r.delivered + batch
      && r.cursor + |batch| == t.readers[j].pinnedEnd <= |s.history|
      && batch == s.history[r.cursor..r.cursor + |batch|]
  {
    assert RInv(s.readers[j], s.history);
    PointerTakes(s.readers[j], a, s.ring, s.history);
    SeesMemory(s, a, j, RNext(s.readers[j], a, s.ring, s.Total()));
  }

  lemma SeesMemory(s: State, a: RAct, j: nat, r: Reader)
    requires j < |s.readers| && (a.TakePtr? || a.TakePtrAgain?)
    requires r.Holding() ==> Memory(r, s.ring) != []
    ensures var t := s.(readers := s.readers[j := r]); Handed(s, Consume(j, a), t, j) == Memory(r, s.ring)
  {
  }

  lemma OtherHands(s: State, a: Action, j: nat)
    requires Inv(s) && Enabled(s, a) && j < |s.readers|
    requires a.Consume? && a.r == j ==> !a.ra.Take? && !a.ra.TakePtr? && !a.ra.TakePtrAgain?
    ensures var t := Apply(s, a); t.readers[j].delivered == s.readers[j].delivered && Handed(s, a, t, j) == []
  {
  }

  /** What counts as delivered grows by exactly what was handed out. */
  lemma StepHands(s: State, a: Action, j: nat)
    requires Inv(s) && Enabled(s, a) && j < |s.readers|
    ensures var t := Apply(s, a); t.readers[j].delivered == s.readers[j].delivered + Handed(s, a, t, j)
  {
    if a.Consume? && a.r == j && a.ra.Take? { TakeHands(s, a.ra.max, j); }
    else if a.Consume? && a.r == j && (a.ra.TakePtr? || a.ra.TakePtrAgain?) { PointerHands(s, a.ra, j); }
    else {
      OtherHands(s, a, j);
      AddNothing(s.readers[j].delivered);
    }
  }

  /** The actions of the first steps of a run. */
  ghost predicate Acted(run: seq<State>, acts: seq<Action>) {
    |acts| < |run| && forall i | 0 <= i < |acts| :: ActedAt(run, i, acts[i])
  }

  ghost predicate ActedAt(run: seq<State>, i: nat, a: Action)
    requires i + 1 < |run|
  {
    Enabled(run[i], a) && run[i + 1] == Apply(run[i], a)
  }

  lemma {:induction false} ActionsOf(run: seq<State>, n: nat) returns (acts: seq<Action>)
    requires IsRun(run) && n < |run|
    ensures Acted(run, acts) && |acts| == n
  {
    if n == 0 {
      acts := [];
    } else {
      var first := ActionsOf(run, n - 1);
      var a := StepAt(run, n - 1);
      acts := first + [a];
      assert ActedAt(run, n - 1, a);
    }
  }

  /** The batches reader j handed out in the first n steps, joined. */
  ghost function Batches(run: seq<State>, acts: seq<Action>, n: nat, j: nat): seq<Record>
    requires n < |run| && n <= |acts| && HasReader(run, j)
  {
    if n == 0 then [] else Batches(run, acts, n - 1, j) + Handed(run[n - 1], acts[n - 1], run[n], j)
  }

  ghost predicate HasReader(run: seq<State>, j: nat) {
    forall k | 0 <= k < |run| :: j < |run[k].readers|
  }

  lemma ReadersStay(run: seq<State>, j: nat)
    requires IsRun(run) && j < |run[0].readers|
    ensures HasReader(run, j)
  {
    forall k | 0 <= k < |run| ensures j < |run[k].readers| { RunExtends(run, 0, k); }
  }

  /** Over a whole run the batches joined are what was delivered. */
  lemma {:induction false} BatchesAreDelivered(run: seq<State>, acts: seq<Action>, n: nat, j: nat)
    requires IsRun(run) && Acted(run, acts) && n <= |acts| && HasReader(run, j)
    ensures run[n].readers[j].delivered == Batches(run, acts, n, j)
  {
    if n == 0 {
      assert FreshReader(run[0].readers[j], run[0].ring, |run[0].history|);
    } else {
      BatchesAreDelivered(run, acts, n - 1, j);
      assert ActedAt(run, n - 1, acts[n - 1]);
      RunInv(run, n - 1);
      StepHands(run[n - 1], acts[n - 1], j);
    }
  }

  /** So next to one blocking writer the batches handed out, followed by what is
      still held, are one slice of the stream: exactly once, call by call. */
  lemma BatchesExactlyOnce(run: seq<State>, acts: seq<Action>, n: nat, j: nat)
    requires IsRun(run) && Acted(run, acts) && n <= |acts| && HasReader(run, j) && OneBlockingWriter(run[0])
    ensures |run[n].writers| == 1
    ensures var r, all := run[n].readers[j], run[0].history + run[n].writers[0].committed;
      && r.start <= r.Frontier() <= |all|
      && Batches(run, acts, n, j) + r.Held() == all[r.start..r.Frontier()]
  {
    BatchesAreDelivered(run, acts, n, j);
    ExactlyOnce(run, n, j);
  }

  // ---------------------------------------------------------------------------
  // Ranges and skips
  // ---------------------------------------------------------------------------

  function Later(a: int, b: int): int { if a < b then b else a }

  /** The range a worker fetches begins at the cursor, or at the oldest record
      there is when that is further on, and ends at the write head or where the
      batch is full. */
  lemma SnapshotRange(r: Reader, ring: Ring<Record>, h: seq<Record>)
    requires RInv(r, h) && Represents(ring, h) && REnabled(r, Snapshot, ring, |h|)
    ensures var pc := RNext(r, Snapshot, ring, |h|).pc;
      && (pc.Waiting? <==> r.cursor == |h|)
      && (r.cursor < |h| ==>
            && pc.Fetch? && pc.at == Later(r.cursor, |h| - ring.size)
            && pc.count == Min(r.batchCap, |h| - pc.at))
  {
    assert |ring.Contents()| == ring.size;
  }

  /** The copy is the whole range, or nothing when its start is gone. */
  lemma ReadWhole(r: Reader, ring: Ring<Record>, h: seq<Record>)
    requires RInv(r, h) && Represents(ring, h) && REnabled(r, Read, ring, |h|) && r.pc.count > 0
    ensures var pc := RNext(r, Read, ring, |h|).pc;
      if r.pc.at < |h| - ring.size then pc.Waiting?
      else pc == Copied(r.pc.at, h[r.pc.at..r.pc.at + r.pc.count])
  {
    assert |ring.Contents()| == ring.size;
    if r.pc.at >= |h| - ring.size { ReadIsSlice(ring, h, r.pc.at, r.pc.count); }
  }

  /** A zero-copy reader skips to the oldest record there is, and only when its
      own is gone. */
  lemma ProbeSkips(r: Reader, ring: Ring<Record>, h: seq<Record>)
    requires RInv(r, h) && Represents(ring, h) && REnabled(r, Probe, ring, |h|)
    ensures var zpc := RNext(r, Probe, ring, |h|).zpc;
      && (zpc.Skip? <==> ring.size > 0 && r.cursor < |h| - ring.size)
      && (zpc.Skip? ==> zpc.to == |h| - ring.size)
  {
    assert |ring.Contents()| == ring.size;
  }

  ghost predicate Covered(log: seq<Block>, p: nat) {
    exists i | 0 <= i < |log| :: log[i].lo <= p < log[i].hi
  }

  /** Whatever the reader passed without taking it, or is about to, has left the
      ring. */
  ghost predicate SkipsGone(r: Reader, ring: Ring<Record>, h: seq<Record>) {
    && (forall p: nat | r.start <= p < r.Frontier() && !Covered(r.log, p) :: p + ring.size < |h|)
    && (!r.zeroCopy && r.pc.Fetch? && r.cursor < r.pc.at ==> r.pc.at + ring.size <= |h|)
    && (!r.zeroCopy && r.pc.Copied? && r.cursor < r.pc.at ==> r.pc.at + ring.size <= |h|)
    && (r.zeroCopy && r.zpc.Skip? ==> r.zpc.to + ring.size <= |h|)
  }

  lemma GonePush(r: Reader, ring: Ring<Record>, h: seq<Record>, p: seq<Record>)
    requires Represents(ring, h) && SkipsGone(r, ring, h)
    ensures SkipsGone(r, PushMany(ring, p), h + p)
  {
    PushKeepsHistory(ring, h, p);
    var ring' := PushMany(ring, p);
    assert |ring.Contents()| == ring.size && |ring'.Contents()| == ring'.size;
    assert ring'.size <= ring.size + |p|;
  }

  lemma CoveredMore(log: seq<Block>, b: Block, p: nat)
    ensures Covered(log + [b], p) <==> Covered(log, p) || b.lo <= p < b.hi
  {
    var more := log + [b];
    if Covered(log, p) {
      var i :| 0 <= i < |log| && log[i].lo <= p < log[i].hi;
      assert more[i] == log[i];
    }
    assert more[|log|] == b;
  }

  lemma GoneStore(r: Reader, ring: Ring<Record>, h: seq<Record>)
    requires Represents(ring, h) && RInv(r, h) && SkipsGone(r, ring, h) && REnabled(r, Store, ring, |h|)
    ensures SkipsGone(RNext(r, Store, ring, |h|), ring, h)
  {
    var r' := RNext(r, Store, ring, |h|);
    forall p: nat | r'.start <= p < r'.Frontier() && !Covered(r'.log, p) ensures p + ring.size < |h| {
      if r.pc.data != [] { CoveredMore(r.log, Block(r.pc.at, r.pc.at + |r.pc.data|), p); }
    }
  }

  lemma GonePin(r: Reader, a: RAct, ring: Ring<Record>, h: seq<Record>)
    requires Represents(ring, h) && RInv(r, h) && SkipsGone(r, ring, h) && REnabled(r, a, ring, |h|)
    requires a.TakePtr? || a.TakePtrAgain?
    ensures SkipsGone(RNext(r, a, ring, |h|), ring, h)
  {
    var r' := RNext(r, a, ring, |h|);
    forall p: nat | r'.start <= p < r'.Frontier() && !Covered(r'.log, p) ensures p + ring.size < |h| {
      if r'.log != r.log { CoveredMore(r.log, Block(r.cursor, r'.pinnedEnd), p); }
    }
  }

  lemma GoneOther(r: Reader, a: RAct, ring: Ring<Record>, h: seq<Record>)
    requires Represents(ring, h) && RInv(r, h) && SkipsGone(r, ring, h) && REnabled(r, a, ring, |h|)
    requires !a.Store? && !a.TakePtr? && !a.TakePtrAgain?
    ensures SkipsGone(RNext(r, a, ring, |h|), ring, h)
  {
    if a.Snapshot? { SnapshotRange(r, ring, h); }
    if a.Probe? { ProbeSkips(r, ring, h); }
  }

  lemma GoneAction(s: State, a: Action, j: nat)
    requires Inv(s) && Enabled(s, a) && j < |s.readers| && SkipsGone(s.readers[j], s.ring, s.history)
    ensures var t := Apply(s, a); SkipsGone(t.readers[j], t.ring, t.history)
  {
    match a
    case Write(i, wa) => GonePush(s.readers[j], s.ring, s.history, Pushed(s.writers[i], wa));
    case Consume(i, ra) =>
      if i == j {
        if ra.Store? { GoneStore(s.readers[j], s.ring, s.history); }
        else if ra.TakePtr? || ra.TakePtrAgain? { GonePin(s.readers[j], ra, s.ring, s.history); }
        else { GoneOther(s.readers[j], ra, s.ring, s.history); }
      }
  }

  /** A skip loses only what is gone: next to any writers, every position a
      reader has passed was taken, or had left the ring. */
  lemma {:induction false} RunSkipsGone(run: seq<State>, k: nat, j: nat)
    requires IsRun(run) && k < |run| && j < |run[k].readers|
    ensures SkipsGone(run[k].readers[j], run[k].ring, run[k].history)
  {
    if k == 0 {
      assert FreshReader(run[0].readers[j], run[0].ring, |run[0].history|);
    } else {
      var a := StepAt(run, k - 1);
      RunSkipsGone(run, k - 1, j);
      GoneAction(run[k - 1], a, j);
    }
  }

  // ---------------------------------------------------------------------------
  // One call of a zero-copy reader
  // ---------------------------------------------------------------------------

  /** A live zero-copy reader whose last batch was released. */
  ghost predicate Calling(r: Reader, ring: Ring<Record>, h: seq<Record>) {
    && Represents(ring, h) && RInv(r, h) && r.zeroCopy && r.running && !r.FinishReached()
    && r.zpc.Out? && r.cursor == r.pinnedEnd
  }

  /** The steps of a call that finds data, and those of one that was overrun. */
  function CallActs(max: nat, wait: bool, overrun: bool): seq<RAct> {
    [Begin(max, wait)] + (if wait then [Arrive] else [])
    + ([Recheck] + ([TakePtr] + if overrun then [Probe] + ([StoreSkip] + [TakePtrAgain]) else []))
  }

  lemma CallBegins(r: Reader, max: nat, wait: bool, rest: seq<RAct>, ring: Ring<Record>, h: seq<Record>)
    requires Calling(r, ring, h) && r.cursor < |h|
    requires Can(r.(zpc := Get(Min(max, r.batchCap), wait)), rest, ring, |h|)
    ensures var acts := [Begin(max, wait)] + (if wait then [Arrive] else []) + ([Recheck] + rest);
      && Can(r, acts, ring, |h|)
      && After(r, acts, ring, |h|) == After(r.(zpc := Get(Min(max, r.batchCap), wait)), rest, ring, |h|)
  {
    var n, total := Min(max, r.batchCap), |h|;
    var r2 := r.(zpc := ZcPc.Ready(n, wait));
    CanCons(r2, Recheck, rest, ring, total);
    if wait {
      var r1 := r.(zpc := InWait(n));
      CanCons(r1, Arrive, [Recheck] + rest, ring, total);
      CanCons(r, Begin(max, wait), [Arrive] + ([Recheck] + rest), ring, total);
      assert [Begin(max, wait)] + [Arrive] + ([Recheck] + rest) == [Begin(max, wait)] + ([Arrive] + ([Recheck] + rest));
    } else {
      CanCons(r, Begin(max, wait), [Recheck] + rest, ring, total);
      assert [Begin(max, wait)] + [] + ([Recheck] + rest) == [Begin(max, wait)] + ([Recheck] + rest);
    }
  }

  /** The batch at `at`: the history there, as long as asked for, available and
      in one piece of the array. */
  ghost predicate LongestBatch(r: Reader, at: nat, max: nat, ring: Ring<Record>, h: seq<Record>) {
    && ring.Valid() && ring.size <= |h| && |h| - ring.size <= at < |h|
    && r.zpc.Out? && r.cursor == at && r.ptr == SlotOf(ring, |h|, at)
    && at < r.pinnedEnd <= |h| && r.pinnedEnd - at <= max
    && Memory(r, ring) == h[at..r.pinnedEnd]
    && (r.pinnedEnd - at == max || r.pinnedEnd == |h| || r.ptr + (r.pinnedEnd - at) == |ring.mem|)
  }

  lemma TakesLongest(r: Reader, a: RAct, ring: Ring<Record>, h: seq<Record>)
    requires Represents(ring, h) && RInv(r, h) && r.zeroCopy
    requires ((a.TakePtr? && r.zpc.Get?) || (a.TakePtrAgain? && r.zpc.Retry?)) && r.zpc.max > 0
    requires |h| - ring.size <= r.cursor < |h|
    ensures LongestBatch(RNext(r, a, ring, |h|), r.cursor, r.zpc.max, ring, h)
  {
    assert |ring.Contents()| == ring.size;
    PinnedTook(r, ring, h, RunAt(ring, |h|, r.cursor, r.zpc.max));
  }

  lemma OneAct(r: Reader, a: RAct, ring: Ring<Record>, total: nat)
    requires ring.Valid() && REnabled(r, a, ring, total)
    ensures Can(r, [a], ring, total) && After(r, [a], ring, total) == RNext(r, a, ring, total)
  {
    CanCons(r, a, [], ring, total);
  }

  /** A call on data that is there hands out the longest batch at the cursor. */
  lemma CallTakes(r: Reader, max: nat, wait: bool, ring: Ring<Record>, h: seq<Record>) returns (last: Reader)
    requires Calling(r, ring, h) && Min(max, r.batchCap) > 0 && |h| - ring.size <= r.cursor < |h|
    ensures Can(r, CallActs(max, wait, false), ring, |h|) && last == After(r, CallActs(max, wait, false), ring, |h|)
    ensures LongestBatch(last, r.cursor, Min(max, r.batchCap), ring, h)
  {
    var r3 := r.(zpc := Get(Min(max, r.batchCap), wait));
    last := RNext(r3, TakePtr, ring, |h|);
    assert RInv(r3, h);
    TakesLongest(r3, TakePtr, ring, h);
    OneAct(r3, TakePtr, ring, |h|);
    CallBegins(r, max, wait, [TakePtr] + [], ring, h);
  }

  /** From the overrun pointer on: look, skip, and try again. */
  lemma SkipTakes(r: Reader, ring: Ring<Record>, h: seq<Record>) returns (r': Reader)
    requires Represents(ring, h) && RInv(r, h) && r.zeroCopy && r.zpc.Get? && r.zpc.max > 0
    requires ring.size > 0 && r.cursor < |h| - ring.size
    ensures r' == r.(zpc := Retry(r.zpc.max), cursor := |h| - ring.size, pinnedEnd := |h| - ring.size,
                     skipped := r.skipped + (|h| - ring.size - r.cursor))
    ensures forall rest :: Can(r', rest, ring, |h|) ==>
      && Can(r, [TakePtr] + ([Probe] + ([StoreSkip] + rest)), ring, |h|)
      && After(r, [TakePtr] + ([Probe] + ([StoreSkip] + rest)), ring, |h|) == After(r', rest, ring, |h|)
  {
    var total, max, to := |h|, r.zpc.max, |h| - ring.size;
    var r4, r5 := r.(zpc := Missed(max, r.zpc.waited)), r.(zpc := Skip(max, to));
    r' := RNext(r5, StoreSkip, ring, total);
    assert RNext(r, TakePtr, ring, total) == r4 && RNext(r4, Probe, ring, total) == r5;
    forall rest | Can(r', rest, ring, total)
      ensures Can(r, [TakePtr] + ([Probe] + ([StoreSkip] + rest)), ring, total)
      ensures After(r, [TakePtr] + ([Probe] + ([StoreSkip] + rest)), ring, total) == After(r', rest, ring, total)
    {
      CanCons(r5, StoreSkip, rest, ring, total);
      CanCons(r4, Probe, [StoreSkip] + rest, ring, total);
      CanCons(r, TakePtr, [Probe] + ([StoreSkip] + rest), ring, total);
    }
  }

  lemma RetryKeeps(r: Reader, ring: Ring<Record>, h: seq<Record>, to: nat)
    requires RInv(r, h) && r.zeroCopy && r.zpc.Get? && r.cursor < to <= |h|
    ensures RInv(r.(zpc := Retry(r.zpc.max), cursor := to, pinnedEnd := to, skipped := r.skipped + (to - r.cursor)), h)
  {
    OrderedWiden(r.start, r.log, r.cursor, to);
  }

  /** A call that was overrun hands out the longest batch at the oldest record. */
  lemma OverrunCallTakes(r: Reader, max: nat, wait: bool, ring: Ring<Record>, h: seq<Record>) returns (last: Reader)
    requires Calling(r, ring, h) && Min(max, r.batchCap) > 0 && ring.size > 0 && r.cursor < |h| - ring.size
    ensures Can(r, CallActs(max, wait, true), ring, |h|) && last == After(r, CallActs(max, wait, true), ring, |h|)
    ensures LongestBatch(last, |h| - ring.size, Min(max, r.batchCap), ring, h)
  {
    var r3 := r.(zpc := Get(Min(max, r.batchCap), wait));
    assert RInv(r3, h);
    var r6 := SkipTakes(r3, ring, h);
    RetryKeeps(r3, ring, h, |h| - ring.size);
    last := RNext(r6, TakePtrAgain, ring, |h|);
    TakesLongest(r6, TakePtrAgain, ring, h);
    OneAct(r6, TakePtrAgain, ring, |h|);
    CallBegins(r, max, wait, [TakePtr] + ([Probe] + ([StoreSkip] + [TakePtrAgain])), ring, h);
  }
}
