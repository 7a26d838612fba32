/** When the memory of a zero-copy batch is safe: exactly next to at most one
    writer, and that one blocking. */
module PipelinePins {
  import opened Helpers
  import opened Rings
  import opened Chunks
  import opened RecBuffers
  import opened Pipeline
  import opened PipelineWriters
  import opened PipelineReaders
  import opened PipelineTheorems
  import opened PipelineProgress
  import opened PipelineLimits

  /** In a run from s, reader j keeps its batch from state k to state m, and the
      memory it points to changes. */
  ghost predicate Overwritten(run: seq<State>, s: State, k: nat, m: nat, j: nat) {
    && IsRun(run) && run[0] == s && k <= m < |run| && j < |run[k].readers| && j < |run[m].readers|
    && run[k].readers[j].Holding() && NotReleased(run, k, m, j)
    && PinnedBytes(run[m], j) != PinnedBytes(run[k], j)
  }

  ghost predicate CanOverwrite(s: State) {
    exists run: seq<State>, k: nat, m: nat, j: nat :: Overwritten(run, s, k, m, j)
  }

  // ---------------------------------------------------------------------------
  // A batch is taken, and one more record pushed
  // ---------------------------------------------------------------------------

  /** The reader holds the record at its cursor by its slot. */
  ghost predicate HoldsFirst(r: Reader, ring: Ring<Record>, total: nat) {
    && ring.Valid() && ring.size <= total && total - ring.size <= r.cursor < total && r.Holding()
    && r.ptr == SlotOf(ring, total, r.cursor) && r.ptr + (r.pinnedEnd - r.cursor) <= |ring.mem|
  }

  lemma TakesPointer(r: Reader, ring: Ring<Record>, h: seq<Record>)
    requires Represents(ring, h) && RInv(r, h) && r.zpc.Get? && r.zpc.max > 0 && r.zeroCopy
    requires 0 < |h| - r.cursor <= ring.size
    ensures var r' := RNext(r, TakePtr, ring, |h|); HoldsFirst(r', ring, |h|) && r'.cursor == r.cursor
  {
    assert |ring.Contents()| == ring.size;
  }

  /** A reader between calls takes a batch of what is there. */
  lemma Pins(s: State, j: nat) returns (run: seq<State>, r: Reader)
    requires Sane(s) && j < |s.readers| && Pinnable(s.readers[j])
    requires 0 < s.Total() - s.readers[j].cursor <= s.ring.size
    ensures Leads(run, s, s.(readers := s.readers[j := r]))
    ensures HoldsFirst(r, s.ring, s.Total()) && r.cursor == s.readers[j].cursor
  {
    var r0, ring, total := s.readers[j], s.ring, s.Total();
    assert RInv(r0, s.history);
    var n := r0.batchCap;
    var r1 := r0.(zpc := InWait(n));
    var r2 := r0.(zpc := ZcPc.Ready(n, true));
    var r3 := r0.(zpc := Get(n, true));
    assert RNext(r0, Begin(n, true), ring, total) == r1;
    assert RNext(r1, Arrive, ring, total) == r2;
    assert RNext(r2, Recheck, ring, total) == r3;
    r := RNext(r3, TakePtr, ring, total);
    TakesPointer(r3, ring, s.history);
    CanCons(r3, TakePtr, [], ring, total);
    CanCons(r2, Recheck, [TakePtr], ring, total);
    CanCons(r1, Arrive, [Recheck] + [TakePtr], ring, total);
    CanCons(r0, Begin(n, true), [Arrive] + ([Recheck] + [TakePtr]), ring, total);
    run := ReaderLeads(s, j, [Begin(n, true)] + ([Arrive] + ([Recheck] + [TakePtr])));
  }

  /** With a full capacity unread, one record more lands in the first slot held. */
  lemma LosesFirst(s: State, i: nat, a: WAct, j: nat, z: Record)
    requires Enabled(s, Write(i, a)) && Pushed(s.writers[i], a) == [z] && Represents(s.ring, s.history)
    requires j < |s.readers| && HoldsFirst(s.readers[j], s.ring, s.Total())
    requires s.Total() - s.readers[j].cursor == s.Cap() && z != s.history[s.readers[j].cursor]
    ensures PinnedBytes(Apply(s, Write(i, a)), j) != PinnedBytes(s, j)
  {
    var r, t := s.readers[j], Apply(s, Write(i, a));
    PushOverwritesBeyondUnread(s.ring, s.Total(), [z], r.cursor);
    SlotReads(s.ring, s.history, r.cursor);
    assert t.ring.mem[r.ptr] == z && s.ring.mem[r.ptr] != z;
    assert PinnedBytes(t, j)[0] == t.ring.mem[r.ptr] && PinnedBytes(s, j)[0] == s.ring.mem[r.ptr];
  }

  lemma LeadsSane(run: seq<State>, s: State, t: State)
    requires Init(s) && Leads(run, s, t)
    ensures IsRun(run) && Sane(t)
  {
    RunInv(run, |run| - 1);
  }

  /** A state from which a push of z ruins the batch the reader takes first. */
  ghost predicate Threatens(s: State, i: nat, a: WAct, j: nat, z: Record) {
    && s.readers != [] && i < |s.writers| && (a.PushChunk? || a.PushAll?)
    && WEnabled(s.writers[i], a, s.Cap(), s.Slowest()) && Pushed(s.writers[i], a) == [z]
    && j < |s.readers| && Pinnable(s.readers[j]) && s.Total() - s.readers[j].cursor == s.Cap() > 0
    && z != s.history[s.readers[j].cursor]
  }

  lemma LeadsOn(run: seq<State>, s: State, t: State, a: Action)
    requires Leads(run, s, t) && Enabled(t, a)
    ensures Leads(run + [Apply(t, a)], s, Apply(t, a))
  {
    var all := run + [Apply(t, a)];
    forall k | 0 <= k < |all| - 1 ensures StepsAt(all, k) {
      if k < |run| - 1 { assert StepsAt(run, k); } else { assert Next(all[k], all[k + 1]); }
    }
  }

  lemma ThreatCarriedOut(s: State, run: seq<State>, t: State, i: nat, a: WAct, j: nat, z: Record)
    requires Init(s) && Leads(run, s, t) && Threatens(t, i, a, j, z)
    ensures CanOverwrite(s)
  {
    LeadsSane(run, s, t);
    assert |t.ring.Contents()| == t.ring.size;
    var pin, r := Pins(t, j);
    var u := t.(readers := t.readers[j := r]);
    var all := LeadsJoin(run, pin, s, t, u);
    LosesFirst(u, i, a, j, z);
    Overwrites(s, all, u, i, a, j);
  }

  lemma Overwrites(s: State, run: seq<State>, u: State, i: nat, a: WAct, j: nat)
    requires Init(s) && Leads(run, s, u) && Enabled(u, Write(i, a))
    requires j < |u.readers| && u.readers[j].Holding()
    requires PinnedBytes(Apply(u, Write(i, a)), j) != PinnedBytes(u, j)
    ensures CanOverwrite(s)
  {
    var v, k := Apply(u, Write(i, a)), |run| - 1;
    LeadsOn(run, s, u, Write(i, a));
    var all := run + [v];
    assert all[k] == u && all[k + 1] == v && u.readers == v.readers;
    assert !ReleasesAt(all, k, j);
    assert Overwritten(all, s, k, k + 1, j);
  }

  // ---------------------------------------------------------------------------
  // Two blocking writers
  // ---------------------------------------------------------------------------

  function Other(r: Record, x: Record, y: Record): (z: Record)
    requires x != y
    ensures z != r
  {
    if r == x then y else x
  }

  /** Both find the last free slot; the second is left with its push to do. */
  lemma OnePushes(s: State, j: nat, x: Record, y: Record) returns (run: seq<State>, t: State, z: Record)
    requires AllReady(s) && |s.writers| >= 2 && Space(s) == 1 && x != y
    requires j < |s.readers| && Pinnable(s.readers[j]) && s.readers[j].cursor == s.Slowest()
    ensures Leads(run, s, t) && Threatens(t, 1, PushChunk, j, z)
  {
    z := Other((s.history + [x])[s.readers[j].cursor], x, y);
    var w0, w1 := s.writers[0], s.writers[1];
    var r1 := BecomesPoised(s, 0, [x]);
    var s1 := s.(writers := s.writers[0 := Poised(w0, [x])]);
    var r2 := BecomesPoised(s1, 1, [z]);
    var s2 := s1.(writers := s1.writers[1 := Poised(w1, [z])]);
    var r3;
    r3, t := PushesBlock(s2, 0, w0, [x]);
    run := LeadsJoin(r2, r3, s1, s2, t);
    run := LeadsJoin(r1, run, s, s1, t);
    PoisedPushes(w1, z);
  }

  lemma PoisedPushes(w: Writer, z: Record)
    ensures Pushed(Poised(w, [z]), PushChunk) == [z]
    ensures forall cap, slowest :: WEnabled(Poised(w, [z]), PushChunk, cap, slowest)
  {
    assert [z][0..1] == [z];
  }

  lemma TwoWritersOverwrite(s: State, j: nat, x: Record, y: Record)
    requires Start(s) && |s.writers| >= 2 && x != y
    requires j < |s.readers| && s.readers[j].zeroCopy && s.readers[j].batchCap > 0
    ensures CanOverwrite(s)
  {
    assert FreshReader(s.readers[j], s.ring, |s.history|);
    var r1, s1 := MakesRoom(s);
    assert forall i | 0 <= i < |s.writers| :: FreshWriter(s.writers[i]);
    var r2, s2 := FillsUp(s1, 1, x);
    var r3, t, z := OnePushes(s2, j, x, y);
    var run := LeadsJoin(r2, r3, s1, s2, t);
    run := LeadsJoin(r1, run, s, s1, t);
    ThreatCarriedOut(s, run, t, 1, PushChunk, j, z);
  }

  // ---------------------------------------------------------------------------
  // One that does not block
  // ---------------------------------------------------------------------------

  /** The block is handed over, the push comes next. */
  function AtPush(w: Writer, block: seq<Record>): Writer {
    w.(active := [], bg := block, committed := w.committed + block, hasWork := !w.direct,
       user := if w.direct then w.user else Flushing(false), pc := Top(0))
  }

  ghost predicate Rushing(s: State, i: nat) {
    && s.ring.Valid() && s.readers != [] && i < |s.writers|
    && Resting(s.writers[i]) && !s.writers[i].blockOnFull
  }

  lemma ComesToPush(s: State, i: nat, z: Record) returns (run: seq<State>)
    requires Rushing(s, i)
    ensures Leads(run, s, s.(writers := s.writers[i := AtPush(s.writers[i], [z])]))
  {
    var w := s.writers[i];
    assert s.(writers := s.writers[i := w]) == s;
    if w.direct {
      assert TurnAt(s, w, DirectCommit([z]), AtPush(w, [z]));
      run := Turns(s, i, [w, AtPush(w, [z])], [DirectCommit([z])]);
    } else {
      var hand := HandsOver(s, i, [z]);
      assert TurnAt(s, Handed(w, [z]), TakeWork, AtPush(w, [z]));
      var take := Turns(s, i, [Handed(w, [z]), AtPush(w, [z])], [TakeWork]);
      run := LeadsJoin(hand, take, s, s.(writers := s.writers[i := Handed(w, [z])]),
                       s.(writers := s.writers[i := AtPush(w, [z])]));
    }
  }

  lemma RushDone(s: State, i: nat, w: Writer, z: Record) returns (run: seq<State>)
    requires s.ring.Valid() && s.readers != [] && i < |s.writers| && Resting(w)
    requires s.writers[i] == AtPush(w, [z]).(pc := Cleanup)
    ensures Leads(run, s, s.(writers := s.writers[i := Wrote(w, [z])]))
  {
    var w1 := AtPush(w, [z]).(pc := Cleanup);
    var w2 := w1.(pc := Idle, bg := [], hasWork := false);
    assert s.(writers := s.writers[i := w1]) == s;
    assert TurnAt(s, w1, ClearWork, w2);
    if w.direct {
      run := Turns(s, i, [w1, w2], [ClearWork]);
    } else {
      var w3 := w2.(user := Running);
      assert TurnAt(s, w2, FlushReturn, w3);
      run := Turns(s, i, [w1, w2, w3], [ClearWork, FlushReturn]);
    }
  }

  /** One record all the way into the ring, space or not. */
  lemma RushesOne(s: State, i: nat, z: Record) returns (run: seq<State>, t: State)
    requires Rushing(s, i)
    ensures Leads(run, s, t) && Grown(s, t, [z]) && Rushing(t, i)
  {
    var w := s.writers[i];
    var come := ComesToPush(s, i, z);
    var s1 := s.(writers := s.writers[i := AtPush(w, [z])]);
    var push := LeadsOne(s1, Write(i, PushAll));
    var s2 := Apply(s1, Write(i, PushAll));
    var done := RushDone(s2, i, w, z);
    t := s2.(writers := s2.writers[i := Wrote(w, [z])]);
    run := LeadsJoin(push, done, s1, s2, t);
    run := LeadsJoin(come, run, s, s1, t);
  }

  /** Until a full capacity is ahead of a reader. */
  lemma {:induction false} RushesFull(s: State, i: nat, j: nat, z: Record) returns (run: seq<State>, t: State)
    requires Rushing(s, i) && j < |s.readers| && s.Total() - s.readers[j].cursor <= s.Cap()
    ensures Leads(run, s, t) && Rushing(t, i) && t.readers == s.readers && t.Total() - t.readers[j].cursor == t.Cap()
    decreases s.Cap() - (s.Total() - s.readers[j].cursor)
  {
    if s.Total() - s.readers[j].cursor == s.Cap() {
      run, t := [s], s;
    } else {
      var first, s1 := RushesOne(s, i, z);
      var rest;
      rest, t := RushesFull(s1, i, j, z);
      run := LeadsJoin(first, rest, s, s1, t);
    }
  }

  lemma RusherOverwrites(s: State, i: nat, j: nat, x: Record, y: Record)
    requires Init(s) && i < |s.writers| && !s.writers[i].blockOnFull && s.writers[i].batchCap > 0 && x != y
    requires j < |s.readers| && s.readers[j].zeroCopy && s.readers[j].batchCap > 0
    ensures CanOverwrite(s)
  {
    InitSane(s);
    assert |s.ring.Contents()| == s.ring.size;
    assert FreshReader(s.readers[j], s.ring, |s.history|) && FreshWriter(s.writers[i]);
    var r1, s1 := RushesFull(s, i, j, x);
    var z := Other(s1.history[s1.readers[j].cursor], x, y);
    var r2 := ComesToPush(s1, i, z);
    var t := s1.(writers := s1.writers[i := AtPush(s1.writers[i], [z])]);
    var run := LeadsJoin(r1, r2, s, s1, t);
    ThreatCarriedOut(s, run, t, i, PushAll, j, z);
  }

  // ---------------------------------------------------------------------------
  // The exact condition
  // ---------------------------------------------------------------------------

  lemma NeverOverwritten(run: seq<State>, s: State, k: nat, m: nat, j: nat)
    requires |s.writers| == 0 || OneBlockingWriter(s)
    ensures !Overwritten(run, s, k, m, j)
  {
    if Overwritten(run, s, k, m, j) {
      if s.writers == [] {
        HoldingRun(run, k, m, j);
        NothingWritten(run, k);
        NothingWritten(run, m);
      } else {
        PinnedMemory(run, k, m, j);
      }
    }
  }

  ghost predicate SomeRush(s: State) {
    exists i | 0 <= i < |s.writers| :: !s.writers[i].blockOnFull
  }

  ghost predicate SomePinnable(s: State) {
    exists j | 0 <= j < |s.readers| :: s.readers[j].zeroCopy && s.readers[j].batchCap > 0
  }

  /** The memory of a zero-copy batch can be overwritten while it is held exactly
      when there are two writers or one that does not block: from any start, of
      any capacity and with any earlier history. */
  lemma OverwriteIff(s: State, x: Record, y: Record)
    requires AnyStart(s) && SomePinnable(s) && x != y
    ensures CanOverwrite(s) <==> |s.writers| >= 2 || SomeRush(s)
  {
    var j :| 0 <= j < |s.readers| && s.readers[j].zeroCopy && s.readers[j].batchCap > 0;
    if SomeRush(s) {
      var i :| 0 <= i < |s.writers| && !s.writers[i].blockOnFull;
      RusherOverwrites(s, i, j, x, y);
    } else if |s.writers| >= 2 {
      TwoWritersOverwrite(s, j, x, y);
    } else {
      forall run: seq<State>, k: nat, m: nat, i: nat ensures !Overwritten(run, s, k, m, i) {
        NeverOverwritten(run, s, k, m, i);
      }
    }
  }

  /** A reader can be overrun under the same condition. */
  lemma OverrunIff(s: State, x: Record)
    requires AnyStart(s)
    ensures CanOverrun(s) <==> |s.writers| >= 2 || SomeRush(s)
  {
    if SomeRush(s) {
      var i :| 0 <= i < |s.writers| && !s.writers[i].blockOnFull;
      RusherOverruns(s, i, x);
    } else {
      OverrunIffSeveralWriters(s, x);
    }
  }

  lemma RusherOverruns(s: State, i: nat, x: Record)
    requires Init(s) && i < |s.writers| && !s.writers[i].blockOnFull && s.writers[i].batchCap > 0
    ensures CanOverrun(s)
  {
    InitSane(s);
    assert |s.ring.Contents()| == s.ring.size;
    assert FreshReader(s.readers[0], s.ring, |s.history|) && FreshWriter(s.writers[i]);
    var r1, s1 := RushesFull(s, i, 0, x);
    var r2, t := RushesOne(s1, i, x);
    var run := LeadsJoin(r1, r2, s, s1, t);
    assert Overruns(run, s, 0);
  }
}
