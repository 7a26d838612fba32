/** RecordWriter with its two buffers in memory: every critical section of the
    class is one step of the writer in the step relation. */
module RecordWriters {
  import opened Helpers
  import opened Chunks
  import opened Wire
  import opened ByteValues
  import opened RecBuffers
  import opened Rings
  import opened Pipeline
  import opened PipelineWriters

  const STAMP_BYTES: nat := 8
  const SIGN_BIT: nat := 0x8000_0000_0000_0000

  /** ts == 0.0: all bits but the sign are clear. */
  predicate IsZeroStamp(b: seq<Byte>)
    requires |b| == STAMP_BYTES
  {
    b[..7] == [0, 0, 0, 0, 0, 0, 0] && b[7] & 0x7F == 0
  }

  /** A record with its stamp set to the clock, unless it has one. */
  function Stamped(r: Record, at: nat, clock: seq<Byte>): (s: Record)
    requires at + STAMP_BYTES <= |r| && |clock| == STAMP_BYTES
    ensures |s| == |r|
  {
    if IsZeroStamp(r[at..at + STAMP_BYTES]) then r[..at] + clock + r[at + STAMP_BYTES..] else r
  }

  ghost predicate Clocks(clocks: seq<seq<Byte>>) {
    forall i | 0 <= i < |clocks| :: |clocks[i]| == STAMP_BYTES
  }

  ghost predicate Slots(s: seq<Record>, recSize: nat) {
    forall i | 0 <= i < |s| :: |s[i]| == recSize
  }

  function Zero(n: nat): (r: Record)
    ensures |r| == n
  {
    seq(n, _ => 0 as Byte)
  }

  /** Stamping records one after the other, a clock reading for each. */
  ghost function StampAll(recs: seq<Record>, at: nat, clocks: seq<seq<Byte>>): (s: seq<Record>)
    requires |recs| <= |clocks| && Clocks(clocks) && forall i | 0 <= i < |recs| :: at + STAMP_BYTES <= |recs[i]|
    ensures |s| == |recs|
    ensures forall i | 0 <= i < |s| :: s[i] == Stamped(recs[i], at, clocks[i])
  {
    if recs == [] then []
    else
      var n := |recs| - 1;
      StampAll(recs[..n], at, clocks) + [Stamped(recs[n], at, clocks[n])]
  }

  /** The stamp of a record. */
  function StampOf(r: Record, at: nat): seq<Byte>
    requires at + STAMP_BYTES <= |r|
  {
    r[at..at + STAMP_BYTES]
  }

  /** Of the number in the eight bytes the top bit, the sign, does not matter. */
  lemma ZeroStampIs(b: seq<Byte>)
    requires |b| == STAMP_BYTES
    ensures IsZeroStamp(b) <==> Decode(b) % SIGN_BIT == 0
  {
    LowSeven(b);
    AllZero(b[..7]);
    SignBit(b[7]);
  }

  lemma SignIs()
    ensures SIGN_BIT == 128 * Limit(7)
  {
    assert Limit(2) == 65536 && Limit(3) == 256 * Limit(2) && Limit(4) == 256 * Limit(3);
    assert Limit(5) == 256 * Limit(4) && Limit(6) == 256 * Limit(5) && Limit(7) == 256 * Limit(6);
  }

  lemma LowSeven(b: seq<Byte>)
    requires |b| == STAMP_BYTES
    ensures Decode(b) % SIGN_BIT == 0 <==> Decode(b[..7]) == 0 && ValueOf(b[7]) % 128 == 0
  {
    assert b == b[..7] + b[7..];
    DecodeAppend(b[..7], b[7..]);
    BytesIsMul(Limit(7), Decode(b[7..]));
    LastByte(b);
    SignIs();
    MixedRadix(Decode(b[..7]), ValueOf(b[7]), Limit(7));
  }

  lemma LastByte(b: seq<Byte>)
    requires |b| == STAMP_BYTES
    ensures Decode(b[7..]) == ValueOf(b[7])
  {
    assert b[7..] == [b[7]] + [];
    Front(b[7], []);
  }

  lemma MixedRadix(low: nat, high: nat, l: nat)
    requires low < l
    ensures (low + l * high) % (128 * l) == 0 <==> low == 0 && high % 128 == 0
  {
    var q, m := high / 128, high % 128;
    Scaled(l, q, m);
    Below(l, m, low);
    MulMod(q, 128 * l, low + l * m);
  }

  lemma Scaled(l: nat, q: nat, m: nat)
    ensures l * (128 * q + m) == q * (128 * l) + l * m
  {
  }

  lemma Below(l: nat, m: nat, low: nat)
    requires m < 128 && low < l
    ensures low + l * m < 128 * l && (low + l * m == 0 <==> low == 0 && m == 0)
  {
    assert l * m + l * (128 - m) == 128 * l;
    assert l * (128 - m) >= l;
  }

  lemma SignBit(x: Byte)
    ensures x & 0x7F == 0 <==> ValueOf(x) % 128 == 0
  {
  }

  ghost predicate HasStamp(r: Record, at: nat)
    requires at + STAMP_BYTES <= |r|
  {
    Decode(StampOf(r, at)) % SIGN_BIT != 0
  }

  /** A record with a stamp is kept; one without gets the clock's, and nothing
      else of it changes. */
  ghost predicate StampedBy(r: Record, at: nat, clock: seq<Byte>, s: Record)
    requires at + STAMP_BYTES <= |r|
  {
    && |s| == |r|
    && if HasStamp(r, at) then s == r
       else StampOf(s, at) == clock && s[..at] == r[..at] && s[at + STAMP_BYTES..] == r[at + STAMP_BYTES..]
  }

  lemma StampIs(r: Record, at: nat, clock: seq<Byte>)
    requires at + STAMP_BYTES <= |r| && |clock| == STAMP_BYTES
    ensures StampedBy(r, at, clock, Stamped(r, at, clock))
  {
    ZeroStampIs(StampOf(r, at));
  }

  ghost predicate AllStampedBy(before: seq<Record>, at: nat, clocks: seq<seq<Byte>>, after: seq<Record>)
    requires |before| <= |clocks| && forall i | 0 <= i < |before| :: at + STAMP_BYTES <= |before[i]|
  {
    |after| == |before| && forall i | 0 <= i < |before| :: StampedBy(before[i], at, clocks[i], after[i])
  }

  lemma StampAllIs(recs: seq<Record>, at: nat, clocks: seq<seq<Byte>>)
    requires |recs| <= |clocks| && Clocks(clocks) && forall i | 0 <= i < |recs| :: at + STAMP_BYTES <= |recs[i]|
    ensures AllStampedBy(recs, at, clocks, StampAll(recs, at, clocks))
  {
    forall i | 0 <= i < |recs| ensures StampedBy(recs[i], at, clocks[i], StampAll(recs, at, clocks)[i]) {
      StampIs(recs[i], at, clocks[i]);
    }
  }

  /** Unless the clock reads zero, every record that was stamped has a stamp. */
  lemma NoneUnstamped(before: seq<Record>, at: nat, clocks: seq<seq<Byte>>, after: seq<Record>, i: nat)
    requires |before| <= |clocks| && forall k | 0 <= k < |before| :: at + STAMP_BYTES <= |before[k]|
    requires AllStampedBy(before, at, clocks, after) && i < |after| && Decode(clocks[i]) % SIGN_BIT != 0
    ensures HasStamp(after[i], at)
  {
    assert StampedBy(before[i], at, clocks[i], after[i]);
  }

  /** Slots as they are handed out have no stamp. */
  lemma ClearedHasNone(n: nat, at: nat)
    requires at + STAMP_BYTES <= n
    ensures !HasStamp(Zero(n), at)
  {
    AllZero(StampOf(Zero(n), at));
  }

  /** A stamp is set at most once, and nothing but the stamp ever changes. */
  lemma StampOnce(r: Record, at: nat, clock: seq<Byte>, later: seq<Byte>)
    requires at + STAMP_BYTES <= |r| && |clock| == |later| == STAMP_BYTES
    ensures var s := Stamped(r, at, clock);
      && s[..at] == r[..at] && s[at + STAMP_BYTES..] == r[at + STAMP_BYTES..]
      && (s != r ==> s[at..at + STAMP_BYTES] == clock)
      && (!IsZeroStamp(clock) ==> Stamped(s, at, later) == s)
  {
    var s := Stamped(r, at, clock);
    assert IsZeroStamp(r[at..at + STAMP_BYTES]) ==> s[at..at + STAMP_BYTES] == clock;
  }

  /** The steps that do not look at the ring are the same whatever it holds, so
      the class states them for an empty one. */
  lemma LooksAtNothing(w: Writer, a: WAct, total: nat, cap: nat, slowest: nat)
    requires !a.Look? && !a.Check?
    ensures WEnabled(w, a, cap, slowest) == WEnabled(w, a, 0, 0)
    ensures WEnabled(w, a, 0, 0) ==> WNext(w, a, total, cap, slowest) == WNext(w, a, 0, 0, 0)
  {
  }

  /** So a step of a class instance that is writer i of the pipeline, and pushes
      nothing, is a step of the pipeline that changes writer i only. */
  lemma ClassStepLifts(s: State, i: nat, a: WAct, w: Writer)
    requires s.ring.Valid() && s.readers != [] && i < |s.writers|
    requires !a.Look? && !a.Check? && Pushed(s.writers[i], a) == []
    requires WEnabled(s.writers[i], a, 0, 0) && w == WNext(s.writers[i], a, 0, 0, 0)
    ensures Enabled(s, Write(i, a)) && Apply(s, Write(i, a)) == s.(writers := s.writers[i := w])
  {
    LooksAtNothing(s.writers[i], a, s.Total(), s.Cap(), s.Slowest());
    StillStep(s, i, a);
  }

  lemma CommitIsStep(w: Writer, recs: seq<Record>, w': Writer)
    requires WInv(w) && !w.direct && w.user.Running? && |recs| <= w.batchCap - |w.active|
    requires w' == w.(active := w.active + recs, committed := w.committed + recs)
    ensures WEnabled(w, Commit(recs), 0, 0) && w' == WNext(w, Commit(recs), 0, 0, 0) && WInv(w')
  {
    assert recs[..|recs|] == recs;
  }

  /** The stamping loop of commitBatch. */
  method StampRange(slots: array<Record>, from: nat, end: nat, at: nat, clocks: seq<seq<Byte>>)
    requires from <= end <= slots.Length && end - from <= |clocks| && Clocks(clocks)
    requires forall k | 0 <= k < slots.Length :: at + STAMP_BYTES <= |slots[k]|
    modifies slots
    ensures forall k | from <= k < end :: slots[k] == Stamped(old(slots[k]), at, clocks[k - from])
    ensures forall k | 0 <= k < slots.Length && !(from <= k < end) :: slots[k] == old(slots[k])
  {
    for i := from to end
      invariant forall k | from <= k < i :: slots[k] == Stamped(old(slots[k]), at, clocks[k - from])
      invariant forall k | 0 <= k < slots.Length && !(from <= k < i) :: slots[k] == old(slots[k])
    {
      slots[i] := Stamped(slots[i], at, clocks[i - from]);
    }
  }

  /** Slots stamped in place, read as records. */
  lemma StampedSlots(
      before: seq<Record>, after: seq<Record>, from: nat, end: nat, at: nat, clocks: seq<seq<Byte>>, recSize: nat)
    requires |before| == |after| && from <= end <= |before| && end - from <= |clocks| && Clocks(clocks)
    requires at + STAMP_BYTES <= recSize && Slots(before, recSize)
    requires forall k | from <= k < end :: after[k] == Stamped(before[k], at, clocks[k - from])
    requires forall k | 0 <= k < |after| && !(from <= k < end) :: after[k] == before[k]
    ensures Slots(after, recSize)
    ensures after[..from] == before[..from] && after[from..end] == StampAll(before[from..end], at, clocks)
  {
  }

  class RecordWriter {
    const recSize: nat
    const capacity: nat
    const stampAt: nat
    const blockOnFull: bool
    var activeBuf: array<Record>
    var bgBuf: array<Record>
    var currentIdx: nat
    var bgCount: nat
    var hasWork: bool
    var running: bool
    var pc: PushPc                     // where the worker stands
    ghost var user: UserPc             // where the owner stands
    ghost var committed: seq<Record>   // everything commit accepted

    ghost predicate Valid()
      reads this, activeBuf, bgBuf
    {
      && activeBuf != bgBuf && activeBuf.Length == bgBuf.Length == capacity
      && currentIdx <= capacity && bgCount <= capacity && stampAt + STAMP_BYTES <= recSize
      && Slots(activeBuf[..], recSize) && Slots(bgBuf[..], recSize)
      && WInv(View())
    }

    ghost function View(): Writer
      reads this, activeBuf, bgBuf
      requires currentIdx <= activeBuf.Length && bgCount <= bgBuf.Length
    {
      Writer(false, blockOnFull, capacity, activeBuf[..currentIdx], bgBuf[..bgCount],
             hasWork, running, pc, user, committed)
    }

    constructor (recSize: nat, capacity: nat, stampAt: nat, blockOnFull: bool, blank: Record)
      requires stampAt + STAMP_BYTES <= recSize && |blank| == recSize
      ensures Valid() && FreshWriter(View()) && this.capacity == capacity && this.blockOnFull == blockOnFull
      ensures fresh(activeBuf) && fresh(bgBuf)
    {
      this.recSize, this.capacity, this.stampAt, this.blockOnFull := recSize, capacity, stampAt, blockOnFull;
      activeBuf := new Record[capacity](_ => blank);
      bgBuf := new Record[capacity](_ => blank);
      currentIdx, bgCount, hasWork, running := 0, 0, false, true;
      pc, user, committed := Idle, Running, [];
    }

    /** nextBatch once there is room: hands out cleared slots. Nothing committed
        or under way changes. */
    method ClearSlots(maxRecords: nat) returns (count: nat)
      requires Valid()
      modifies activeBuf
      ensures Valid() && View() == old(View())
      ensures count == Min(maxRecords, capacity - currentIdx)
      ensures forall i | currentIdx <= i < currentIdx + count :: activeBuf[i] == Zero(recSize)
      ensures forall i, o | currentIdx <= i < currentIdx + count && 0 <= o < recSize :: activeBuf[i][o] == 0
    {
      var zero := Zero(recSize);
      var available := capacity - currentIdx;
      count := if maxRecords < available then maxRecords else available;
      for k := 0 to count
        invariant forall i | currentIdx <= i < currentIdx + k :: activeBuf[i] == zero
        invariant forall i | 0 <= i < currentIdx || currentIdx + k <= i < capacity :: activeBuf[i] == old(activeBuf[i])
      {
        activeBuf[currentIdx + k] := zero;
      }
      assert activeBuf[..currentIdx] == old(activeBuf[..currentIdx]);
    }

    /** nextBatch, once its wait (if it waits) is over: on a full buffer it hands
        the block to the worker first, or gives up when that is still busy. */
    method NextBatch(maxRecords: nat, wait: bool) returns (ok: bool, count: nat)
      requires Valid() && user.Running? && (wait && currentIdx == capacity ==> !hasWork || !running)
      modifies this`activeBuf, this`bgBuf, this`bgCount, this`currentIdx, this`hasWork, activeBuf, bgBuf
      ensures Valid() && ok == (old(currentIdx) < capacity || (running && !old(hasWork)))
      ensures if ok && old(currentIdx) == capacity
        then WEnabled(old(View()), SwapFull, 0, 0) && View() == WNext(old(View()), SwapFull, 0, 0, 0)
        else View() == old(View())
      ensures count == if ok then Min(maxRecords, capacity - currentIdx) else 0
      ensures ok && maxRecords > 0 && capacity > 0 ==> count > 0
      ensures forall i | currentIdx <= i < currentIdx + count :: activeBuf[i] == Zero(recSize)
    {
      if currentIdx >= capacity {
        ok := SwapBuffers(wait);
        if !ok {
          return false, 0;
        }
      }
      count := ClearSlots(maxRecords);
      ok := true;
    }

    /** commitBatch: stamps the slots and takes them, as many as there are. */
    method CommitBatch(count: nat, clocks: seq<seq<Byte>>) returns (ghost recs: seq<Record>)
      requires Valid() && user.Running? && |clocks| == count && Clocks(clocks)
      modifies this`currentIdx, this`committed, activeBuf
      ensures Valid()
      ensures currentIdx == old(currentIdx) + Min(count, capacity - old(currentIdx))
      ensures recs == StampAll(old(activeBuf[..])[old(currentIdx)..currentIdx], stampAt, clocks)
      ensures AllStampedBy(old(activeBuf[..])[old(currentIdx)..currentIdx], stampAt, clocks, recs)
      ensures View().active == old(View()).active + recs && committed == old(committed) + recs
      ensures WEnabled(old(View()), Commit(recs), 0, 0) && View() == WNext(old(View()), Commit(recs), 0, 0, 0)
    {
      var available := capacity - currentIdx;
      var taken := if count <= available then count else available;
      var end := currentIdx + taken;
      StampAllIs(activeBuf[..][currentIdx..end], stampAt, clocks);
      StampSlots(end, clocks);
      recs := TakeSlots(end);
    }

    method TakeSlots(end: nat) returns (ghost recs: seq<Record>)
      requires Valid() && user.Running? && currentIdx <= end <= capacity
      modifies this`currentIdx, this`committed
      ensures Valid() && currentIdx == end
      ensures recs == activeBuf[old(currentIdx)..end]
      ensures View().active == old(View()).active + recs && committed == old(committed) + recs
      ensures WEnabled(old(View()), Commit(recs), 0, 0) && View() == WNext(old(View()), Commit(recs), 0, 0, 0)
    {
      recs := activeBuf[currentIdx..end];
      assert activeBuf[..end] == activeBuf[..currentIdx] + recs;
      currentIdx := end;
      committed := committed + recs;
      CommitIsStep(old(View()), recs, View());
    }

    /** The stamping loop over the slots up to `end`. */
    method StampSlots(end: nat, clocks: seq<seq<Byte>>)
      requires Valid() && currentIdx <= end <= capacity && end - currentIdx <= |clocks| && Clocks(clocks)
      modifies activeBuf
      ensures Valid() && View() == old(View())
      ensures activeBuf[currentIdx..end] == StampAll(old(activeBuf[..])[currentIdx..end], stampAt, clocks)
    {
      StampRange(activeBuf, currentIdx, end, stampAt, clocks);
      StampedSlots(old(activeBuf[..]), activeBuf[..], currentIdx, end, stampAt, clocks, recSize);
    }

    /** swapBuffers, once its wait (if it waits) is over. */
    method SwapBuffers(blocking: bool) returns (ok: bool)
      requires Valid() && user.Running? && (blocking ==> !hasWork || !running)
      modifies this`activeBuf, this`bgBuf, this`bgCount, this`currentIdx, this`hasWork
      ensures Valid() && ok == (running && !old(hasWork))
      ensures ok && |old(View()).active| == capacity ==>
        WEnabled(old(View()), SwapFull, 0, 0) && View() == WNext(old(View()), SwapFull, 0, 0, 0)
      ensures View() == if ok then Swapped(old(View())) else old(View())
      ensures activeBuf == (if ok then old(bgBuf) else old(activeBuf))
      ensures bgBuf == (if ok then old(activeBuf) else old(bgBuf))
    {
      if !blocking && hasWork {
        return false;
      }
      if !running {
        return false;
      }
      activeBuf, bgBuf := bgBuf, activeBuf;
      bgCount := currentIdx;
      currentIdx := 0;
      hasWork := true;
      ok := true;
    }

    /** The worker, space found: the records of the next push and where the loop
        over the block then stands. */
    method NextChunk(available: nat, ghost cap: nat, ghost slowest: nat) returns (chunk: seq<Record>)
      requires Valid() && WEnabled(View(), Check(available), cap, slowest)
      modifies this`pc
      ensures Valid() && View() == WNext(old(View()), Check(available), 0, cap, slowest)
      ensures chunk == Pushed(View(), PushChunk) && 0 < |chunk|
      ensures |chunk| == Min(available, bgCount - old(pc.done))
      ensures chunk == bgBuf[old(pc.done)..old(pc.done) + |chunk|]
    {
      var writtenSoFar := pc.done;
      var remaining := bgCount - writtenSoFar;
      var size := if remaining < available then remaining else available;
      chunk := bgBuf[writtenSoFar..writtenSoFar + size];
      SubSlice(bgBuf[..], bgCount, writtenSoFar, writtenSoFar + size);
      pc := Checked(writtenSoFar, size);
    }

    /** The worker's last critical section: the background buffer is free. */
    method Cleanup()
      requires Valid() && pc.Cleanup?
      modifies this`hasWork, this`bgCount, this`pc
      ensures Valid() && WEnabled(old(View()), ClearWork, 0, 0) && View() == WNext(old(View()), ClearWork, 0, 0, 0)
    {
      hasWork := false;
      bgCount := 0;
      pc := Idle;
    }
  }

  // ---------------------------------------------------------------------------
  // The synchronous writer
  // ---------------------------------------------------------------------------

  /** Records laid out one after the other. */
  function Flat(recs: seq<Record>): seq<Byte> {
    if recs == [] then [] else Flat(recs[..|recs| - 1]) + recs[|recs| - 1]
  }

  lemma {:induction false} FlatHolds(recs: seq<Record>, c: nat)
    requires Uniform(recs, c)
    ensures Holds(Flat(recs), recs, c)
  {
    if recs != [] {
      var init, last := recs[..|recs| - 1], recs[|recs| - 1];
      FlatHolds(init, c);
      HoldsOne(last, c);
      HoldsConcat(Flat(init), init, last, [last], c);
      assert recs == init + [last];
    }
  }

  /** How many of n records are pushed into a ring of `cap` records that has
      seen `total` before, when successive looks at the readers find `minima` as
      their smallest cursor. */
  function Fill(n: nat, total: nat, cap: nat, minima: seq<nat>): (p: nat)
    ensures p <= n
  {
    if minima == [] then 0
    else
      var p := Fill(n, total, cap, minima[..|minima| - 1]);
      Min(n, p + SpaceFor(total + p, cap, minima[|minima| - 1]))
  }

  /** What the first i looks let through. */
  function Through(n: nat, total: nat, cap: nat, minima: seq<nat>, i: nat): (p: nat)
    requires i <= |minima|
    ensures p <= n
  {
    Fill(n, total, cap, minima[..i])
  }

  lemma NextLook(n: nat, total: nat, cap: nat, minima: seq<nat>, i: nat)
    requires i < |minima|
    ensures var p := Through(n, total, cap, minima, i);
      Through(n, total, cap, minima, i + 1) == Min(n, p + SpaceFor(total + p, cap, minima[i]))
  {
    assert minima[..i + 1][..i] == minima[..i];
  }

  lemma {:induction false} LaterLooks(n: nat, total: nat, cap: nat, minima: seq<nat>, i: nat)
    requires i <= |minima|
    ensures Through(n, total, cap, minima, i) <= Fill(n, total, cap, minima)
    decreases |minima| - i
  {
    if i == |minima| {
      assert minima[..i] == minima;
    } else {
      NextLook(n, total, cap, minima, i);
      LaterLooks(n, total, cap, minima, i + 1);
    }
  }

  /** No look finds a reader ahead of what was written by then. */
  ghost predicate NotAhead(n: nat, total: nat, cap: nat, minima: seq<nat>) {
    forall i | 0 <= i < |minima| :: minima[i] <= total + Through(n, total, cap, minima, i)
  }

  /** What is pushed after a look overwrites nothing from the cursor it found on. */
  lemma FillOverwritesNothing(n: nat, total: nat, cap: nat, minima: seq<nat>, i: nat)
    requires i < |minima| && NotAhead(n, total, cap, minima)
    ensures var p, q := Through(n, total, cap, minima, i), Through(n, total, cap, minima, i + 1);
      p <= q && (p < q ==> total + q <= minima[i] + cap)
  {
    NextLook(n, total, cap, minima, i);
  }

  /** One of the first i looks finds the slowest reader within a capacity of `end`. */
  ghost predicate Clears(end: nat, cap: nat, minima: seq<nat>, i: nat)
    requires i <= |minima|
  {
    exists j | 0 <= j < i :: end <= minima[j] + cap
  }

  lemma {:induction false} ThroughIff(n: nat, total: nat, cap: nat, minima: seq<nat>, i: nat)
    requires NotAhead(n, total, cap, minima) && n > 0 && i <= |minima|
    ensures Through(n, total, cap, minima, i) == n <==> Clears(total + n, cap, minima, i)
  {
    if i > 0 {
      ThroughIff(n, total, cap, minima, i - 1);
      ThroughNext(n, total, cap, minima, i - 1);
      ClearsNext(total + n, cap, minima, i - 1);
    }
  }

  lemma ClearsNext(end: nat, cap: nat, minima: seq<nat>, i: nat)
    requires i < |minima|
    ensures Clears(end, cap, minima, i + 1) <==> Clears(end, cap, minima, i) || end <= minima[i] + cap
  {
  }

  lemma ThroughNext(n: nat, total: nat, cap: nat, minima: seq<nat>, i: nat)
    requires NotAhead(n, total, cap, minima) && i < |minima|
    ensures Through(n, total, cap, minima, i + 1) == n <==>
      Through(n, total, cap, minima, i) == n || total + n <= minima[i] + cap
  {
    NextLook(n, total, cap, minima, i);
    LastLook(n, total, cap, Through(n, total, cap, minima, i), minima[i]);
  }

  /** All n records go through exactly when some look finds the slowest reader
      within a capacity of their end. */
  lemma FillIff(n: nat, total: nat, cap: nat, minima: seq<nat>)
    requires NotAhead(n, total, cap, minima) && n > 0
    ensures Fill(n, total, cap, minima) == n <==> Clears(total + n, cap, minima, |minima|)
  {
    ThroughIff(n, total, cap, minima, |minima|);
    assert minima[..|minima|] == minima;
  }

  lemma LastLook(n: nat, total: nat, cap: nat, p: nat, m: nat)
    requires p <= n && m <= total + p
    ensures Min(n, p + SpaceFor(total + p, cap, m)) == n <==> p == n || total + n <= m + cap
  {
  }

  class RecordWriterZC {
    const target: RecBuffer
    const capacity: nat
    const stampAt: nat
    const blockOnFull: bool
    const buf: array<Record>
    var pendingCount: nat

    ghost predicate Valid()
      reads this, buf, target, target.impl, target.impl.buffer, target.impl.buffer.arr
    {
      && target.Valid() && buf.Length == capacity && pendingCount <= capacity
      && stampAt + STAMP_BYTES <= target.impl.chunkSize
      && Slots(buf[..], target.impl.chunkSize)
      && buf as object != target.impl.buffer.arr as object
    }

    constructor (target: RecBuffer, capacity: nat, stampAt: nat, blockOnFull: bool, blank: Record)
      requires target.Valid() && stampAt + STAMP_BYTES <= target.impl.chunkSize == |blank|
      ensures Valid() && pendingCount == 0 && fresh(buf)
      ensures this.target == target && this.capacity == capacity && this.blockOnFull == blockOnFull
    {
      this.target, this.capacity, this.stampAt, this.blockOnFull := target, capacity, stampAt, blockOnFull;
      buf := new Record[capacity](_ => blank);
      pendingCount := 0;
    }

    /** nextBatch: cleared slots, no more than the buffer has. */
    method NextBatch(maxRecords: nat) returns (count: nat)
      requires Valid()
      modifies this`pendingCount, buf
      ensures Valid() && count == pendingCount == Min(maxRecords, capacity)
      ensures forall i | 0 <= i < count :: buf[i] == Zero(target.impl.chunkSize)
      ensures forall i, o | 0 <= i < count && 0 <= o < target.impl.chunkSize :: buf[i][o] == 0
      ensures forall i | count <= i < capacity :: buf[i] == old(buf[i])
    {
      var zero := Zero(target.impl.chunkSize);
      pendingCount := if maxRecords < capacity then maxRecords else capacity;
      count := pendingCount;
      for k := 0 to count
        modifies buf
        invariant forall i | 0 <= i < k :: buf[i] == zero
        invariant forall i | k <= i < capacity :: buf[i] == old(buf[i])
      {
        buf[k] := zero;
      }
    }

    /** commitBatch: stamps what it is given, at most what was handed out, and
        pushes it in order, in as many chunks as the space left by the smallest
        cursors found at successive looks asks for. It returns as soon as all is
        pushed; when `minima` ends before that it is still waiting. */
    method CommitBatch(count: nat, clocks: seq<seq<Byte>>, minima: seq<nat>) returns (pushed: nat, done: bool)
      requires Valid() && |clocks| == count && Clocks(clocks)
      modifies this`pendingCount, buf
      modifies target.impl`totalWritten, target.impl`ring, target.impl`history
      modifies target.impl.buffer`head, target.impl.buffer`size, target.impl.buffer.arr
      ensures Valid()
      ensures var n := Min(count, old(pendingCount));
        && pushed == (if blockOnFull then Fill(n, old(|target.impl.history|), |target.impl.ring.mem|, minima) else n)
        && done == (pushed == n)
        && target.impl.history == old(target.impl.history) + StampAll(old(buf[..])[..n], stampAt, clocks)[..pushed]
        && AllStampedBy(old(buf[..])[..n], stampAt, clocks, StampAll(old(buf[..])[..n], stampAt, clocks))
      ensures pendingCount == if done && count > 0 then 0 else old(pendingCount)
    {
      if count == 0 {
        return 0, true;
      }
      var n := if count < pendingCount then count else pendingCount;
      StampAllIs(buf[..][..n], stampAt, clocks);
      StampPending(n, clocks);
      pushed := PushPending(n, minima);
      done := pushed == n;
      if done {
        pendingCount := 0;
      }
    }

    method PushPending(n: nat, minima: seq<nat>) returns (pushed: nat)
      requires Valid() && n <= capacity
      modifies target.impl`totalWritten, target.impl`ring, target.impl`history
      modifies target.impl.buffer`head, target.impl.buffer`size, target.impl.buffer.arr
      ensures Valid() && |target.impl.ring.mem| == old(|target.impl.ring.mem|)
      ensures pushed ==
        if blockOnFull then Fill(n, old(|target.impl.history|), |target.impl.ring.mem|, minima) else n
      ensures target.impl.history == old(target.impl.history) + buf[..n][..pushed]
    {
      if blockOnFull {
        pushed := PushInChunks(n, minima);
      } else {
        PushSlots(0, n);
        pushed := n;
      }
      SubSlice(buf[..], n, 0, pushed);
    }

    method StampPending(n: nat, clocks: seq<seq<Byte>>)
      requires Valid() && n <= capacity && n <= |clocks| && Clocks(clocks)
      modifies buf
      ensures Valid() && buf[..n] == StampAll(old(buf[..])[..n], stampAt, clocks)
    {
      StampRange(buf, 0, n, stampAt, clocks);
      StampedSlots(old(buf[..]), buf[..], 0, n, stampAt, clocks, target.impl.chunkSize);
      assert buf[..][0..n] == buf[..n] && old(buf[..])[0..n] == old(buf[..])[..n];
    }

    /** One push of the slots from..end-1. */
    method PushSlots(from: nat, end: nat)
      requires Valid() && from <= end <= capacity
      modifies target.impl`totalWritten, target.impl`ring, target.impl`history
      modifies target.impl.buffer`head, target.impl.buffer`size, target.impl.buffer.arr
      ensures Valid() && target.impl.buffer.arr == old(target.impl.buffer.arr)
      ensures |target.impl.ring.mem| == old(|target.impl.ring.mem|)
      ensures target.impl.history == old(target.impl.history) + buf[from..end]
    {
      var recs := buf[from..end];
      FlatHolds(recs, target.impl.chunkSize);
      target.Push(Flat(recs), end - from, recs);
    }

    /** The next chunk, after the slots up to `from` have gone. */
    method PushMore(ghost first: seq<Record>, from: nat, end: nat)
      requires Valid() && from <= end <= capacity && target.impl.history == first + buf[..][0..from]
      modifies target.impl`totalWritten, target.impl`ring, target.impl`history
      modifies target.impl.buffer`head, target.impl.buffer`size, target.impl.buffer.arr
      ensures Valid() && target.impl.buffer.arr == old(target.impl.buffer.arr)
      ensures |target.impl.ring.mem| == old(|target.impl.ring.mem|)
      ensures target.impl.history == first + buf[..][0..end]
    {
      Extend(first, buf[..], from, end);
      PushSlots(from, end);
    }

    /** The blocking push loop. */
    method PushInChunks(n: nat, minima: seq<nat>) returns (pushed: nat)
      requires Valid() && n <= capacity
      modifies target.impl`totalWritten, target.impl`ring, target.impl`history
      modifies target.impl.buffer`head, target.impl.buffer`size, target.impl.buffer.arr
      ensures Valid() && |target.impl.ring.mem| == old(|target.impl.ring.mem|)
      ensures pushed == Fill(n, old(|target.impl.history|), |target.impl.ring.mem|, minima)
      ensures target.impl.history == old(target.impl.history) + buf[0..pushed]
    {
      pushed := 0;
      var look := 0;
      ghost var first, slots := target.impl.history, buf[..];
      ghost var total, cap := |first|, |target.impl.ring.mem|;
      assert first + slots[0..0] == first;
      while pushed < n && look < |minima|
        invariant look <= |minima| && Valid() && |target.impl.ring.mem| == cap
        invariant pushed == Through(n, total, cap, minima, look)
        invariant target.impl.buffer.arr == old(target.impl.buffer.arr) && buf[..] == slots
        invariant target.impl.history == first + slots[0..pushed]
      {
        var avail := target.SpaceBehind(target.impl.totalWritten, minima[look]);
        NextLook(n, total, cap, minima, look);
        look := look + 1;
        if avail == 0 {
          continue;
        }
        var chunk := if n - pushed < avail then n - pushed else avail;
        PushMore(first, pushed, pushed + chunk);
        pushed := pushed + chunk;
      }
      LaterLooks(n, total, cap, minima, look);
      if look == |minima| { assert minima[..look] == minima; }
    }
  }

  lemma Extend<T>(h: seq<T>, s: seq<T>, p: nat, q: nat)
    requires p <= q <= |s|
    ensures (h + s[0..p]) + s[p..q] == h + s[0..q]
  {
    assert s[0..p] + s[p..q] == s[0..q];
  }
}
