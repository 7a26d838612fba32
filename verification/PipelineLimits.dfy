/** Where the promises end. Two blocking writers on one buffer can together
    overwrite what a reader has not seen, because each checks for space and
    pushes in two separate critical sections: from any start, an overrun can
    happen exactly when there are at least two writers. */
module PipelineLimits {
  import opened Helpers
  import opened Rings
  import opened Chunks
  import opened RecBuffers
  import opened Pipeline
  import opened PipelineWriters
  import opened PipelineReaders
  import opened PipelineTheorems
  import opened PipelineProgress

  ghost predicate Chained(run: seq<State>) {
    run != [] && forall k | 0 <= k < |run| - 1 :: StepsAt(run, k)
  }

  /** The run leads from s to t. */
  ghost predicate Leads(run: seq<State>, s: State, t: State) {
    Chained(run) && run[0] == s && run[|run| - 1] == t
  }

  lemma LeadsOne(s: State, a: Action) returns (run: seq<State>)
    requires Enabled(s, a)
    ensures Leads(run, s, Apply(s, a))
  {
    run := [s, Apply(s, a)];
    assert Next(run[0], run[1]);
    assert StepsAt(run, 0);
  }

  lemma LeadsJoin(x: seq<State>, y: seq<State>, s: State, t: State, u: State) returns (run: seq<State>)
    requires Leads(x, s, t) && Leads(y, t, u)
    ensures Leads(run, s, u)
  {
    run := x + y[1..];
    forall k | 0 <= k < |run| - 1 ensures StepsAt(run, k) {
      if k < |x| - 1 {
        assert StepsAt(x, k);
      } else {
        assert StepsAt(y, k - (|x| - 1));
      }
    }
  }

  // ---------------------------------------------------------------------------
  // One writer's block
  // ---------------------------------------------------------------------------

  /** A writer with nothing under way. */
  ghost predicate Resting(w: Writer) {
    && w.active == [] && w.bg == [] && !w.hasWork && w.running && w.pc.Idle? && w.user.Running?
    && w.batchCap > 0
  }

  ghost predicate Rested(w: Writer) {
    Resting(w) && w.blockOnFull
  }

  ghost predicate Ready(s: State, i: nat) {
    && s.ring.Valid() && s.readers != [] && s.Slowest() <= s.Total()
    && i < |s.writers| && Rested(s.writers[i])
  }

  ghost function Space(s: State): nat
    requires s.readers != []
  {
    SpaceFor(s.Total(), s.Cap(), s.Slowest())
  }

  /** The writer has a block, has found room for it, and has yet to push it. */
  function Poised(w: Writer, block: seq<Record>): Writer {
    w.(active := [], bg := block, committed := w.committed + block, hasWork := !w.direct,
       user := if w.direct then w.user else Flushing(false), pc := Checked(0, |block|))
  }

  /** The block is pushed, and the writer is at the head of its loop. */
  function Through(w: Writer, block: seq<Record>): Writer {
    Poised(w, block).(pc := Top(|block|))
  }

  function Wrote(w: Writer, block: seq<Record>): Writer {
    w.(committed := w.committed + block)
  }

  lemma Turn(s: State, i: nat, w: Writer, a: WAct, w': Writer) returns (run: seq<State>)
    requires s.ring.Valid() && s.readers != [] && i < |s.writers|
    requires WEnabled(w, a, s.Cap(), s.Slowest()) && Pushed(w, a) == []
    requires w' == WNext(w, a, s.Total(), s.Cap(), s.Slowest())
    ensures Leads(run, s.(writers := s.writers[i := w]), s.(writers := s.writers[i := w']))
  {
    var t := s.(writers := s.writers[i := w]);
    StillStep(t, i, a);
    assert t.writers[i := w'] == s.writers[i := w'];
    run := LeadsOne(t, Write(i, a));
  }

  /** The steps of a writer that push nothing, one after the other. */
  lemma Turns(s: State, i: nat, ws: seq<Writer>, acts: seq<WAct>) returns (run: seq<State>)
    requires s.ring.Valid() && s.readers != [] && i < |s.writers| && |ws| == |acts| + 1
    requires forall k | 0 <= k < |acts| :: TurnAt(s, ws[k], acts[k], ws[k + 1])
    ensures Leads(run, s.(writers := s.writers[i := ws[0]]), s.(writers := s.writers[i := ws[|acts|]]))
    decreases |acts|
  {
    if acts == [] {
      run := [s.(writers := s.writers[i := ws[0]])];
    } else {
      var n := |acts| - 1;
      var first := Turns(s, i, ws[..n + 1], acts[..n]);
      assert TurnAt(s, ws[n], acts[n], ws[n + 1]);
      var last := Turn(s, i, ws[n], acts[n], ws[n + 1]);
      run := LeadsJoin(first, last, s.(writers := s.writers[i := ws[0]]), s.(writers := s.writers[i := ws[n]]),
                       s.(writers := s.writers[i := ws[n + 1]]));
    }
  }

  ghost predicate TurnAt(s: State, w: Writer, a: WAct, w': Writer)
    requires s.readers != []
  {
    && WEnabled(w, a, s.Cap(), s.Slowest()) && Pushed(w, a) == []
    && w' == WNext(w, a, s.Total(), s.Cap(), s.Slowest())
  }

  lemma BecomesPoised(s: State, i: nat, block: seq<Record>) returns (run: seq<State>)
    requires Ready(s, i) && 0 < |block| <= s.writers[i].batchCap && |block| <= Space(s)
    ensures Leads(run, s, s.(writers := s.writers[i := Poised(s.writers[i], block)]))
  {
    var w := s.writers[i];
    assert s.(writers := s.writers[i := w]) == s;
    if w.direct {
      run := DirectPoised(s, i, block);
    } else {
      run := BufferedPoised(s, i, block);
    }
  }

  lemma DirectPoised(s: State, i: nat, block: seq<Record>) returns (run: seq<State>)
    requires Ready(s, i) && 0 < |block| <= s.writers[i].batchCap && |block| <= Space(s) && s.writers[i].direct
    ensures Leads(run, s.(writers := s.writers[i := s.writers[i]]),
                       s.(writers := s.writers[i := Poised(s.writers[i], block)]))
  {
    var w := s.writers[i];
    var w1 := w.(bg := block, pc := Top(0), committed := w.committed + block);
    var w2, w3 := w1.(pc := Sized(0, s.Total())), w1.(pc := Checked(0, |block|));
    assert TurnAt(s, w, DirectCommit(block), w1);
    assert TurnAt(s, w1, Look, w2);
    assert TurnAt(s, w2, Check(|block|), w3);
    run := Turns(s, i, [w, w1, w2, w3], [DirectCommit(block), Look, Check(|block|)]);
  }

  /** The block handed over by commit and flush, the worker not yet awake. */
  function Handed(w: Writer, block: seq<Record>): Writer {
    w.(active := [], bg := block, committed := w.committed + block, hasWork := true, user := Flushing(false))
  }

  lemma HandsOver(s: State, i: nat, block: seq<Record>) returns (run: seq<State>)
    requires s.ring.Valid() && s.readers != [] && i < |s.writers| && Resting(s.writers[i])
    requires 0 < |block| <= s.writers[i].batchCap && !s.writers[i].direct
    ensures Leads(run, s.(writers := s.writers[i := s.writers[i]]),
                       s.(writers := s.writers[i := Handed(s.writers[i], block)]))
  {
    var w := s.writers[i];
    assert block[..|block|] == block;
    AddNothing(block);
    assert Accepted(w, Commit(block)) == block;
    var w1 := w.(active := block, committed := w.committed + block);
    assert TurnAt(s, w, Commit(block), w1);
    assert TurnAt(s, w1, FlushSwap(false), Handed(w, block));
    run := Turns(s, i, [w, w1, Handed(w, block)], [Commit(block), FlushSwap(false)]);
  }

  lemma WorkerChecks(s: State, i: nat, block: seq<Record>) returns (run: seq<State>)
    requires Ready(s, i) && 0 < |block| <= Space(s) && !s.writers[i].direct
    ensures Leads(run, s.(writers := s.writers[i := Handed(s.writers[i], block)]),
                       s.(writers := s.writers[i := Poised(s.writers[i], block)]))
  {
    var w := Handed(s.writers[i], block);
    var w1, w2, w3 := w.(pc := Top(0)), w.(pc := Sized(0, s.Total())), w.(pc := Checked(0, |block|));
    assert TurnAt(s, w, TakeWork, w1);
    assert TurnAt(s, w1, Look, w2);
    assert TurnAt(s, w2, Check(|block|), w3);
    run := Turns(s, i, [w, w1, w2, w3], [TakeWork, Look, Check(|block|)]);
  }

  lemma BufferedPoised(s: State, i: nat, block: seq<Record>) returns (run: seq<State>)
    requires Ready(s, i) && 0 < |block| <= s.writers[i].batchCap && |block| <= Space(s) && !s.writers[i].direct
    ensures Leads(run, s.(writers := s.writers[i := s.writers[i]]),
                       s.(writers := s.writers[i := Poised(s.writers[i], block)]))
  {
    var w := s.writers[i];
    var hand := HandsOver(s, i, block);
    var check := WorkerChecks(s, i, block);
    run := LeadsJoin(hand, check, s.(writers := s.writers[i := w]), s.(writers := s.writers[i := Handed(w, block)]),
                     s.(writers := s.writers[i := Poised(w, block)]));
  }

  /** What a push leaves: the history is longer, no reader moved. */
  ghost predicate Grown(s: State, t: State, block: seq<Record>) {
    && t.ring.Valid() && |t.ring.mem| == |s.ring.mem| && t.history == s.history + block
    && t.readers == s.readers && |t.writers| == |s.writers|
  }

  lemma PushesBlock(s: State, i: nat, w: Writer, block: seq<Record>) returns (run: seq<State>, t: State)
    requires s.ring.Valid() && s.readers != [] && i < |s.writers| && s.writers[i] == Poised(w, block)
    ensures Leads(run, s, t) && Grown(s, t, block) && t.writers == s.writers[i := Through(w, block)]
  {
    assert block[0..|block|] == block;
    run := LeadsOne(s, Write(i, PushChunk));
    t := Apply(s, Write(i, PushChunk));
  }

  lemma Settles(s: State, i: nat, w: Writer, block: seq<Record>) returns (run: seq<State>)
    requires s.ring.Valid() && s.readers != [] && i < |s.writers| && s.writers[i] == Through(w, block) && Rested(w)
    ensures Leads(run, s, s.(writers := s.writers[i := Wrote(w, block)]))
  {
    var w0 := Through(w, block);
    var w1 := w0.(pc := Cleanup);
    var w2 := w1.(pc := Idle, bg := [], hasWork := false);
    assert s.(writers := s.writers[i := w0]) == s;
    assert TurnAt(s, w0, EndBlock, w1);
    assert TurnAt(s, w1, ClearWork, w2);
    if w.direct {
      run := Turns(s, i, [w0, w1, w2], [EndBlock, ClearWork]);
    } else {
      var w3 := w2.(user := Running);
      assert TurnAt(s, w2, FlushReturn, w3);
      run := Turns(s, i, [w0, w1, w2, w3], [EndBlock, ClearWork, FlushReturn]);
    }
  }

  /** One record all the way into the ring. */
  lemma WritesOne(s: State, i: nat, x: Record) returns (run: seq<State>, t: State)
    requires Ready(s, i) && Space(s) > 0
    ensures Leads(run, s, t) && Grown(s, t, [x]) && t.writers == s.writers[i := Wrote(s.writers[i], [x])]
  {
    var w := s.writers[i];
    var poise := BecomesPoised(s, i, [x]);
    var s1 := s.(writers := s.writers[i := Poised(w, [x])]);
    var push, s2 := PushesBlock(s1, i, w, [x]);
    var settle := Settles(s2, i, w, [x]);
    t := s2.(writers := s2.writers[i := Wrote(w, [x])]);
    assert t.writers == s.writers[i := Wrote(w, [x])];
    run := LeadsJoin(push, settle, s1, s2, t);
    run := LeadsJoin(poise, run, s, s1, t);
  }

  /** Blocking writers with nothing under way. */
  ghost predicate AllReady(s: State) {
    && s.ring.Valid() && s.readers != [] && s.Slowest() <= s.Total()
    && forall i | 0 <= i < |s.writers| :: Rested(s.writers[i])
  }

  ghost predicate SameBatches(s: State, t: State) {
    |s.writers| == |t.writers| && forall i | 0 <= i < |s.writers| :: t.writers[i].batchCap == s.writers[i].batchCap
  }

  /** The first writer fills the ring until n slots are free. */
  lemma {:induction false} FillsUp(s: State, n: nat, x: Record) returns (run: seq<State>, t: State)
    requires AllReady(s) && s.writers != [] && 0 < n <= Space(s)
    ensures Leads(run, s, t) && AllReady(t) && Space(t) == n && SameBatches(s, t)
    ensures t.readers == s.readers && |t.ring.mem| == |s.ring.mem|
    decreases Space(s)
  {
    if Space(s) == n {
      run, t := [s], s;
    } else {
      var first, s1 := WritesOne(s, 0, x);
      var rest;
      rest, t := FillsUp(s1, n, x);
      run := LeadsJoin(first, rest, s, s1, t);
    }
  }

  /** Both find the last free slot, and both push. */
  lemma BothPush(s: State, x: Record) returns (run: seq<State>, t: State)
    requires AllReady(s) && |s.writers| >= 2 && Space(s) == 1
    ensures Leads(run, s, t) && t.ring.Valid() && t.readers == s.readers && |t.ring.mem| == |s.ring.mem|
    ensures t.Total() == s.Slowest() + s.Cap() + 1
  {
    var w0, w1 := s.writers[0], s.writers[1];
    var r1 := BecomesPoised(s, 0, [x]);
    var s1 := s.(writers := s.writers[0 := Poised(w0, [x])]);
    var r2 := BecomesPoised(s1, 1, [x]);
    var s2 := s1.(writers := s1.writers[1 := Poised(w1, [x])]);
    var r3, s3 := PushesBlock(s2, 0, w0, [x]);
    var r4, s4 := PushesBlock(s3, 1, w1, [x]);
    t := s4;
    run := LeadsJoin(r3, r4, s2, s3, s4);
    run := LeadsJoin(r2, run, s1, s2, s4);
    run := LeadsJoin(r1, run, s, s1, s4);
  }

  // ---------------------------------------------------------------------------
  // Readers out of the way
  // ---------------------------------------------------------------------------

  ghost predicate Sane(s: State) {
    Represents(s.ring, s.history) && s.readers != [] && forall j | 0 <= j < |s.readers| :: RInv(s.readers[j], s.history)
  }

  /** The own steps of one reader, as steps of the system. */
  lemma {:induction false} ReaderLeads(s: State, j: nat, acts: seq<RAct>) returns (run: seq<State>)
    requires s.ring.Valid() && s.readers != [] && j < |s.readers| && Can(s.readers[j], acts, s.ring, s.Total())
    ensures Leads(run, s, s.(readers := s.readers[j := After(s.readers[j], acts, s.ring, s.Total())]))
    decreases |acts|
  {
    var r := s.readers[j];
    if acts == [] {
      run := [s];
      assert s.readers[j := r] == s.readers;
    } else {
      var s1 := Apply(s, Consume(j, acts[0]));
      var r1 := RNext(r, acts[0], s.ring, s.Total());
      var first := LeadsOne(s, Consume(j, acts[0]));
      var rest := ReaderLeads(s1, j, acts[1..]);
      var last := After(r, acts, s.ring, s.Total());
      assert s1.readers[j := last] == s.readers[j := last];
      run := LeadsJoin(first, rest, s, s1, s.(readers := s.readers[j := last]));
    }
  }

  /** A reader that can be brought to the write head. */
  ghost predicate Live(r: Reader) {
    r.running && r.batchCap > 0 && !r.finishing
  }

  /** A live zero-copy reader between calls. */
  ghost predicate Pinnable(r: Reader) {
    Live(r) && r.zeroCopy && AtRest(r)
  }

  ghost predicate StillPinnable(s: State, t: State) {
    && |t.readers| == |s.readers|
    && forall j | 0 <= j < |s.readers| && Pinnable(s.readers[j]) :: Pinnable(t.readers[j])
  }

  ghost predicate AllLive(s: State) {
    forall j | 0 <= j < |s.readers| :: Live(s.readers[j])
  }

  /** One reader reads everything there is. */
  lemma OneCatchesUp(s: State, i: nat) returns (run: seq<State>, r: Reader)
    requires Sane(s) && i < |s.readers| && Live(s.readers[i])
    ensures Leads(run, s, s.(readers := s.readers[i := r]))
    ensures RInv(r, s.history) && Live(r) && r.cursor == |s.history| && (Pinnable(s.readers[i]) ==> Pinnable(r))
  {
    var acts := CatchUp(s.readers[i], s.ring, s.history);
    run := ReaderLeads(s, i, acts);
    r := After(s.readers[i], acts, s.ring, s.Total());
  }

  /** Every reader does. */
  lemma {:induction false} AllCatchUp(s: State, n: nat) returns (run: seq<State>, t: State)
    requires Sane(s) && n <= |s.readers| && AllLive(s)
    ensures Leads(run, s, t) && Sane(t) && t == s.(readers := t.readers) && AllLive(t) && StillPinnable(s, t)
    ensures forall j | 0 <= j < n :: t.readers[j].cursor == |t.history|
  {
    if n == 0 {
      run, t := [s], s;
    } else {
      var first, s1 := AllCatchUp(s, n - 1);
      var rest, r := OneCatchesUp(s1, n - 1);
      t := s1.(readers := s1.readers[n - 1 := r]);
      run := LeadsJoin(first, rest, s, s1, t);
    }
  }

  /** Writers with room for a record, fresh readers, and a free slot in the ring
      or readers with room for a record to make one. */
  ghost predicate AnyStart(s: State) {
    && Init(s)
    && (forall i | 0 <= i < |s.writers| :: s.writers[i].batchCap > 0)
    && (s.ring.size < s.Cap() || forall j | 0 <= j < |s.readers| :: s.readers[j].batchCap > 0)
  }

  ghost predicate AllBlock(s: State) {
    forall i | 0 <= i < |s.writers| :: s.writers[i].blockOnFull
  }

  ghost predicate Start(s: State) {
    AnyStart(s) && AllBlock(s)
  }

  lemma InitSane(s: State)
    requires Init(s)
    ensures Sane(s) && s.Slowest() == s.Total() - s.ring.size && Abreast(s)
  {
    InvInit(s);
    assert |s.ring.Contents()| == s.ring.size;
    var j :| 0 <= j < |s.readers| && s.Slowest() == s.readers[j].cursor;
    assert forall i | 0 <= i < |s.readers| :: FreshReader(s.readers[i], s.ring, |s.history|);
  }

  /** All readers are at one place. */
  ghost predicate Abreast(s: State) {
    s.readers != [] && forall j | 0 <= j < |s.readers| :: s.readers[j].cursor == s.Slowest()
  }

  lemma EmptiedOut(s: State)
    requires Sane(s) && forall j | 0 <= j < |s.readers| :: s.readers[j].cursor == |s.history|
    ensures s.Slowest() == s.Total() && Abreast(s)
  {
  }

  /** From a start with readers that have room, there is a way to a state in
      which they have seen everything. */
  lemma ReadsAll(s: State) returns (run: seq<State>, t: State)
    requires Init(s) && (s.ring.size == 0 || forall j | 0 <= j < |s.readers| :: s.readers[j].batchCap > 0)
    ensures Leads(run, s, t) && Sane(t) && t.writers == s.writers && |t.ring.mem| == |s.ring.mem|
    ensures t.Slowest() == t.Total() && Abreast(t) && StillPinnable(s, t)
  {
    InitSane(s);
    if s.ring.size == 0 {
      run, t := [s], s;
    } else {
      forall j | 0 <= j < |s.readers| ensures Live(s.readers[j]) {
        assert FreshReader(s.readers[j], s.ring, |s.history|);
      }
      run, t := AllCatchUp(s, |s.readers|);
      EmptiedOut(t);
    }
  }

  /** From any start there is a way to room for a record, the writers untouched. */
  lemma MakesRoom(s: State) returns (run: seq<State>, t: State)
    requires Start(s)
    ensures Leads(run, s, t) && Sane(t) && t.writers == s.writers && |t.ring.mem| == |s.ring.mem|
    ensures t.Slowest() <= t.Total() && Space(t) > 0 && Abreast(t) && StillPinnable(s, t)
  {
    InitSane(s);
    if s.ring.size < s.Cap() {
      run, t := [s], s;
    } else {
      run, t := ReadsAll(s);
    }
  }

  // ---------------------------------------------------------------------------
  // Overruns
  // ---------------------------------------------------------------------------

  /** A record that reader j has not seen is gone from the ring. */
  ghost predicate OverrunAt(s: State, j: nat) {
    s.ring.Valid() && j < |s.readers| && Behind(s.Total(), s.readers[j].cursor) > s.ring.size
  }

  /** A run from s whose last state has reader j overrun. */
  ghost predicate Overruns(run: seq<State>, s: State, j: nat) {
    IsRun(run) && run[0] == s && OverrunAt(run[|run| - 1], j)
  }

  ghost predicate CanOverrun(s: State) {
    exists run: seq<State>, j: nat :: Overruns(run, s, j)
  }

  lemma SeveralWritersLose(s: State, x: Record)
    requires Start(s) && |s.writers| >= 2
    ensures CanOverrun(s)
  {
    var r1, s1 := MakesRoom(s);
    assert forall i | 0 <= i < |s.writers| :: FreshWriter(s.writers[i]);
    var r2, s2 := FillsUp(s1, 1, x);
    var r3, s3 := BothPush(s2, x);
    var run := LeadsJoin(r2, r3, s1, s2, s3);
    run := LeadsJoin(r1, run, s, s1, s3);
    var j :| 0 <= j < |s2.readers| && s2.Slowest() == s2.readers[j].cursor;
    assert Overruns(run, s, j);
  }

  lemma {:induction false} NothingWritten(run: seq<State>, k: nat)
    requires IsRun(run) && k < |run| && run[0].writers == []
    ensures run[k].history == run[0].history && run[k].ring == run[0].ring && run[k].writers == []
  {
    if k > 0 {
      NothingWritten(run, k - 1);
      var a := StepAt(run, k - 1);
    }
  }

  lemma NoWriterNoOverrun(run: seq<State>, k: nat, j: nat)
    requires IsRun(run) && k < |run| && run[0].writers == [] && j < |run[k].readers|
    ensures !OverrunAt(run[k], j)
  {
    NothingWritten(run, k);
    RunExtends(run, 0, k);
    RunInv(run, k);
    assert RInv(run[k].readers[j], run[k].history);
    assert ReaderExtends(run[0].readers[j], run[k].readers[j]);
    assert FreshReader(run[0].readers[j], run[0].ring, |run[0].history|);
  }

  /** Readers see every record exactly when there is at most one blocking writer:
      from any start, of any capacity and with any earlier history, some run
      overruns a reader if and only if there are two writers or more. */
  lemma OverrunIffSeveralWriters(s: State, x: Record)
    requires Start(s)
    ensures CanOverrun(s) <==> |s.writers| >= 2
  {
    if |s.writers| >= 2 {
      SeveralWritersLose(s, x);
    } else {
      forall run: seq<State>, j: nat ensures !Overruns(run, s, j) {
        AtMostOneWriterKeeps(run, s, j);
      }
    }
  }

  lemma AtMostOneWriterKeeps(run: seq<State>, s: State, j: nat)
    requires Start(s) && |s.writers| <= 1
    ensures !Overruns(run, s, j)
  {
    if IsRun(run) && run[0] == s && j < |run[|run| - 1].readers| {
      if s.writers == [] { NoWriterNoOverrun(run, |run| - 1, j); } else { NoOverrun(run, |run| - 1, j); }
    }
  }

  // ---------------------------------------------------------------------------
  // The bound of one capacity and a chunk for each writer but one is reached
  // ---------------------------------------------------------------------------

  function Copies(x: Record, n: nat): (block: seq<Record>)
    ensures |block| == n
  {
    if n == 0 then [] else Copies(x, n - 1) + [x]
  }

  /** The first n writers promise c records each. */
  lemma {:induction false} AllPoised(s: State, n: nat, c: nat, x: Record) returns (run: seq<State>, t: State)
    requires AllReady(s) && n <= |s.writers| && 0 < c <= Space(s)
    requires forall i | 0 <= i < |s.writers| :: s.writers[i].batchCap >= c
    ensures Leads(run, s, t) && t == s.(writers := t.writers) && |t.writers| == |s.writers|
    ensures forall i | n <= i < |s.writers| :: t.writers[i] == s.writers[i]
    ensures AllInFlight(t.writers[..n]) == Bytes(n, c)
  {
    if n == 0 {
      run, t := [s], s;
    } else {
      var first, s1 := AllPoised(s, n - 1, c, x);
      var block := Copies(x, c);
      var last := BecomesPoised(s1, n - 1, block);
      t := s1.(writers := s1.writers[n - 1 := Poised(s1.writers[n - 1], block)]);
      run := LeadsJoin(first, last, s, s1, t);
      assert t.writers[..n][..n - 1] == s1.writers[..n - 1];
    }
  }

  /** Writers that can commit b records at a time, and readers that have room
      unless there is nothing to read. */
  ghost predicate BatchStart(s: State, b: nat) {
    && Init(s) && s.writers != [] && b > 0
    && (s.ring.size == 0 || forall j | 0 <= j < |s.readers| :: s.readers[j].batchCap > 0)
    && (forall i | 0 <= i < |s.writers| :: s.writers[i].blockOnFull && s.writers[i].batchCap >= b)
  }

  /** Whatever the number of writers, a run reaches the bound of
      SharpBackpressure: readers see everything, one writer fills the ring to the
      last b free slots, and every writer finds these. */
  lemma BoundIsReached(s: State, b: nat, x: Record) returns (run: seq<State>)
    requires BatchStart(s, b)
    ensures IsRun(run) && run[0] == s
    ensures var t := run[|run| - 1];
      && t.readers != [] && |t.writers| == |s.writers|
      && t.Total() - t.Slowest() + AllInFlight(t.writers) == s.Cap() + (|s.writers| - 1) * Min(b, s.Cap())
  {
    var c := Min(b, s.Cap());
    var r1, s1 := ReadsAll(s);
    FreshRested(s.writers, b);
    var r2, s2 := FillsUp(s1, c, x);
    var r3, t := AllPoised(s2, |s.writers|, c, x);
    BoundMet(t, |s.writers|, c);
    run := LeadsJoin(r2, r3, s1, s2, t);
    run := LeadsJoin(r1, run, s, s1, t);
  }

  lemma FreshRested(ws: seq<Writer>, b: nat)
    requires b > 0 && forall i | 0 <= i < |ws| :: FreshWriter(ws[i]) && ws[i].blockOnFull && ws[i].batchCap >= b
    ensures forall i | 0 <= i < |ws| :: Rested(ws[i]) && ws[i].batchCap >= b
  {
  }

  lemma BoundMet(t: State, n: nat, c: nat)
    requires t.readers != [] && |t.writers| == n > 0 && 0 < c == Space(t) && t.Slowest() <= t.Total()
    requires AllInFlight(t.writers[..n]) == Bytes(n, c)
    ensures t.Total() - t.Slowest() + AllInFlight(t.writers) == t.Cap() + (n - 1) * c
  {
    assert t.writers[..n] == t.writers;
    BytesIsMul(n - 1, c);
    assert Bytes(n, c) == Bytes(n - 1, c) + c;
  }
}
