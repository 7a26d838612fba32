/** flush() and the destructor come to their end: whatever a blocking writer is
    in the middle of, as long as the readers are alive there is a way on to
    where everything it accepted is in the ring and the call has returned. */
module PipelineFlushes {
  import opened Helpers
  import opened Rings
  import opened Chunks
  import opened Decimal
  import opened RecBuffers
  import opened Pipeline
  import opened PipelineWriters
  import opened PipelineReaders
  import opened PipelineTheorems
  import opened PipelineProgress
  import opened PipelineLimits

  /** Writer i of a system whose readers are alive. */
  ghost function Writing(s: State, i: nat): Option<Writer> {
    if Sane(s) && AllLive(s) && i < |s.writers| then Some(s.writers[i]) else None
  }

  ghost predicate At(s: State, i: nat, w: Writer) {
    Writing(s, i) == Some(w)
  }

  /** Where a run from s leads. */
  ghost function End(run: seq<State>, s: State): Option<State> {
    if Chained(run) && run[0] == s then Some(run[|run| - 1]) else None
  }

  /** On from a state of one writer to another; the others stay as they are. */
  ghost predicate Brings(run: seq<State>, s: State, t: State, i: nat, w: Writer) {
    End(run, s) == Some(t) && At(t, i, w) && |t.writers| == |s.writers| && |t.ring.mem| == |s.ring.mem|
  }

  lemma BringsJoin(x: seq<State>, y: seq<State>, s: State, t: State, u: State, i: nat, w: Writer, w': Writer)
      returns (run: seq<State>)
    requires Brings(x, s, t, i, w) && Brings(y, t, u, i, w')
    ensures Brings(run, s, u, i, w')
  {
    run := LeadsJoin(x, y, s, t, u);
  }

  lemma Stays(s: State, i: nat, w: Writer) returns (run: seq<State>)
    requires At(s, i, w)
    ensures Brings(run, s, s, i, w)
  {
    run := [s];
  }

  /** Steps that push nothing. */
  lemma Still(s: State, i: nat, ws: seq<Writer>, acts: seq<WAct>) returns (run: seq<State>, t: State)
    requires |ws| == |acts| + 1 && At(s, i, ws[0])
    requires forall k | 0 <= k < |acts| :: TurnAt(s, ws[k], acts[k], ws[k + 1])
    ensures Brings(run, s, t, i, ws[|acts|]) && t == s.(writers := s.writers[i := ws[|acts|]])
  {
    assert s.(writers := s.writers[i := ws[0]]) == s;
    run := Turns(s, i, ws, acts);
    t := s.(writers := s.writers[i := ws[|acts|]]);
  }

  lemma StillOne(s: State, i: nat, w: Writer, a: WAct, w': Writer) returns (run: seq<State>, t: State)
    requires At(s, i, w) && TurnAt(s, w, a, w')
    ensures Brings(run, s, t, i, w') && t == s.(writers := s.writers[i := w'])
  {
    run, t := Still(s, i, [w, w'], [a]);
  }

  lemma StillTwo(s: State, i: nat, w: Writer, a: WAct, w': Writer, a': WAct, w'': Writer)
      returns (run: seq<State>, t: State)
    requires At(s, i, w) && TurnAt(s, w, a, w') && TurnAt(s, w', a', w'')
    ensures Brings(run, s, t, i, w'') && t == s.(writers := s.writers[i := w''])
  {
    run, t := Still(s, i, [w, w', w''], [a, a']);
  }

  /** A chunk that was promised is pushed. */
  lemma PushPromised(s: State, i: nat, w: Writer, w': Writer) returns (run: seq<State>, t: State)
    requires At(s, i, w) && w.pc.Checked? && w.pc.done + w.pc.chunk <= |w.bg|
    requires w' == w.(pc := Top(w.pc.done + w.pc.chunk))
    ensures Brings(run, s, t, i, w')
  {
    run := LeadsOne(s, Write(i, PushChunk));
    t := Apply(s, Write(i, PushChunk));
    var p := Pushed(w, PushChunk);
    PushKeepsHistory(s.ring, s.history, p);
    forall j | 0 <= j < |t.readers| ensures RInv(t.readers[j], t.history) {
      ReaderPush(s.readers[j], s.history, p);
    }
  }

  /** The readers read everything, and then there is room for a chunk. */
  lemma PushesMore(s: State, i: nat, w: Writer) returns (run: seq<State>, t: State, done: nat)
    requires At(s, i, w) && w.blockOnFull && w.pc.Top? && w.pc.done < |w.bg|
    ensures Brings(run, s, t, i, w.(pc := Top(done))) && w.pc.done < done <= |w.bg|
  {
    var r1, s1 := AllRead(s, i, w);
    var r2;
    r2, t, done := FillsSpace(s1, i, w);
    run := BringsJoin(r1, r2, s, s1, t, i, w, w.(pc := Top(done)));
  }

  lemma FillsSpace(s: State, i: nat, w: Writer) returns (run: seq<State>, t: State, done: nat)
    requires At(s, i, w) && w.blockOnFull && w.pc.Top? && w.pc.done < |w.bg|
    requires s.readers != [] && s.Slowest() == s.Total()
    ensures Brings(run, s, t, i, w.(pc := Top(done))) && w.pc.done < done <= |w.bg|
  {
    var r1, s1, chunk := FindsSpace(s, i, w);
    done := w.pc.done + chunk;
    var found, pushed := w.(pc := Checked(w.pc.done, chunk)), w.(pc := Top(done));
    var r2;
    r2, t := PushPromised(s1, i, found, pushed);
    run := BringsJoin(r1, r2, s, s1, t, i, found, pushed);
  }

  lemma AllRead(s: State, i: nat, w: Writer) returns (run: seq<State>, t: State)
    requires At(s, i, w)
    ensures Brings(run, s, t, i, w) && t.readers != [] && t.Slowest() == t.Total()
  {
    run, t := AllCatchUp(s, |s.readers|);
    EmptiedOut(t);
  }

  lemma FindsSpace(s: State, i: nat, w: Writer) returns (run: seq<State>, t: State, chunk: nat)
    requires At(s, i, w) && w.blockOnFull && w.pc.Top? && w.pc.done < |w.bg|
    requires s.readers != [] && s.Slowest() == s.Total()
    ensures Brings(run, s, t, i, w.(pc := Checked(w.pc.done, chunk))) && 0 < chunk <= |w.bg| - w.pc.done
  {
    var cap := s.Cap();
    chunk := Min(|w.bg| - w.pc.done, cap);
    LookTurn(s, w);
    CheckTurn(s, w, chunk);
    var w1, w2 := w.(pc := Sized(w.pc.done, s.Total())), w.(pc := Checked(w.pc.done, chunk));
    run, t := StillTwo(s, i, w, Look, w1, Check(cap), w2);
  }

  lemma LookTurn(s: State, w: Writer)
    requires s.readers != [] && w.blockOnFull && w.pc.Top? && w.pc.done < |w.bg|
    ensures TurnAt(s, w, Look, w.(pc := Sized(w.pc.done, s.Total())))
  {
  }

  lemma CheckTurn(s: State, w: Writer, chunk: nat)
    requires s.readers != [] && s.Slowest() == s.Total() && s.Cap() > 0
    requires w.pc.Top? && w.pc.done < |w.bg| && chunk == Min(|w.bg| - w.pc.done, s.Cap())
    ensures TurnAt(s, w.(pc := Sized(w.pc.done, s.Total())), Check(s.Cap()), w.(pc := Checked(w.pc.done, chunk)))
  {
  }

  /** The rest of a block goes into the ring. */
  lemma {:induction false} PushesRest(s: State, i: nat, w: Writer) returns (run: seq<State>, t: State)
    requires At(s, i, w) && w.blockOnFull && w.pc.Top? && w.pc.done <= |w.bg|
    ensures Brings(run, s, t, i, w.(pc := Top(|w.bg|)))
    decreases |w.bg| - w.pc.done
  {
    if w.pc.done == |w.bg| {
      t := s;
      run := Stays(s, i, w);
    } else {
      var r1, s1, done := PushesMore(s, i, w);
      var r2;
      r2, t := PushesRest(s1, i, w.(pc := Top(done)));
      run := BringsJoin(r1, r2, s, s1, t, i, w.(pc := Top(done)), w.(pc := Top(|w.bg|)));
    }
  }

  /** The writer with its block done. */
  function Free(w: Writer): Writer { w.(pc := Idle, bg := [], hasWork := false) }

  lemma Ends(s: State, i: nat, w: Writer) returns (run: seq<State>, t: State)
    requires At(s, i, w) && w.blockOnFull && w.pc == Top(|w.bg|)
    ensures Brings(run, s, t, i, w.(pc := Cleanup))
  {
    var w1 := w.(pc := Cleanup);
    assert TurnAt(s, w, EndBlock, w1);
    run, t := StillOne(s, i, w, EndBlock, w1);
  }

  lemma Clears(s: State, i: nat, w: Writer) returns (run: seq<State>, t: State)
    requires At(s, i, w) && w.pc.Cleanup?
    ensures Brings(run, s, t, i, Free(w))
  {
    assert TurnAt(s, w, ClearWork, Free(w));
    run, t := StillOne(s, i, w, ClearWork, Free(w));
  }

  lemma EndsBlock(s: State, i: nat, w: Writer) returns (run: seq<State>, t: State)
    requires At(s, i, w) && w.blockOnFull && w.pc.Top? && w.pc.done <= |w.bg|
    ensures Brings(run, s, t, i, Free(w))
  {
    var w1 := w.(pc := Top(|w.bg|));
    var r1, s1 := PushesRest(s, i, w);
    var r2;
    var s2;
    r2, s2 := Ends(s1, i, w1);
    var r3;
    r3, t := Clears(s2, i, w1.(pc := Cleanup));
    run := BringsJoin(r1, r2, s, s1, s2, i, w1, w1.(pc := Cleanup));
    run := BringsJoin(run, r3, s, s2, t, i, w1.(pc := Cleanup), Free(w));
  }

  lemma LooksAgain(s: State, i: nat, w: Writer) returns (run: seq<State>, t: State)
    requires At(s, i, w) && w.pc.Sized?
    ensures Brings(run, s, t, i, w.(pc := Top(w.pc.done)))
  {
    var w1 := w.(pc := Top(w.pc.done));
    assert TurnAt(s, w, Full, w1);
    run, t := StillOne(s, i, w, Full, w1);
  }

  lemma Takes(s: State, i: nat, w: Writer) returns (run: seq<State>, t: State)
    requires At(s, i, w) && !w.direct && w.pc.Idle? && w.hasWork
    ensures Brings(run, s, t, i, w.(pc := Top(0)))
  {
    var w1 := w.(pc := Top(0));
    assert TurnAt(s, w, TakeWork, w1);
    run, t := StillOne(s, i, w, TakeWork, w1);
  }

  /** Wherever the pushing thread stands in a block, it gets to the head of its
      loop. */
  lemma ComesToTop(s: State, i: nat, w: Writer) returns (run: seq<State>, t: State, done: nat)
    requires At(s, i, w) && WInv(w) && w.blockOnFull
    requires w.pc.Top? || w.pc.Sized? || w.pc.Checked? || (w.pc.Idle? && w.hasWork)
    ensures Brings(run, s, t, i, w.(pc := Top(done))) && done <= |w.bg|
  {
    match w.pc
    case Top(d) =>
      t, done := s, d;
      run := Stays(s, i, w);
    case Sized(d, total) =>
      done := d;
      run, t := LooksAgain(s, i, w);
    case Checked(d, chunk) =>
      done := d + chunk;
      run, t := PushPromised(s, i, w, w.(pc := Top(done)));
    case Idle =>
      done := 0;
      run, t := Takes(s, i, w);
  }

  /** An idle writer keeps no finished block around. */
  predicate Tidy(w: Writer) { w.pc.Idle? && !w.hasWork ==> w.bg == [] }

  /** The block under way, if there is one, is pushed and done with. */
  lemma BlockCompletes(s: State, i: nat, w: Writer) returns (run: seq<State>, t: State)
    requires At(s, i, w) && WInv(w) && w.blockOnFull && !w.pc.Exited? && Tidy(w)
    ensures Brings(run, s, t, i, Free(w))
  {
    if w.pc.Idle? && !w.hasWork {
      t := s;
      run := Stays(s, i, w);
    } else if w.pc.Cleanup? {
      run, t := Clears(s, i, w);
    } else {
      var r1, s1, done := ComesToTop(s, i, w);
      var r2;
      r2, t := EndsBlock(s1, i, w.(pc := Top(done)));
      run := BringsJoin(r1, r2, s, s1, t, i, w.(pc := Top(done)), Free(w));
    }
  }

  /** The writer with nothing left to push. */
  function Flushed(w: Writer, user: UserPc): Writer { Free(w).(active := [], user := user) }

  lemma Waits(s: State, i: nat, w: Writer, closing: bool) returns (run: seq<State>, t: State)
    requires At(s, i, w) && w.active == [] && !w.direct && w.user.Running?
    ensures Brings(run, s, t, i, w.(user := Flushing(closing)))
  {
    var w1 := w.(user := Flushing(closing));
    assert TurnAt(s, w, FlushWait(closing), w1);
    run, t := StillOne(s, i, w, FlushWait(closing), w1);
  }

  /** With nothing pending flush() only waits for the worker. */
  lemma WaitReturns(s: State, i: nat, w: Writer, closing: bool) returns (run: seq<State>, t: State)
    requires At(s, i, w) && Free(w) == w && w.active == [] && !w.direct && w.user.Running?
    ensures Brings(run, s, t, i, Flushed(w, if closing then Closing else Running))
  {
    var w1 := w.(user := Flushing(closing));
    var r1, s1 := Waits(s, i, w, closing);
    var r2;
    r2, t := Returns(s1, i, w1, closing);
    run := BringsJoin(r1, r2, s, s1, t, i, w1, w1.(user := if closing then Closing else Running));
  }

  lemma Returns(s: State, i: nat, w: Writer, closing: bool) returns (run: seq<State>, t: State)
    requires At(s, i, w) && !w.hasWork && w.user == Flushing(closing)
    ensures Brings(run, s, t, i, w.(user := if closing then Closing else Running))
  {
    var last := w.(user := if closing then Closing else Running);
    assert TurnAt(s, w, FlushReturn, last);
    run, t := StillOne(s, i, w, FlushReturn, last);
  }

  /** With records pending it hands them to the worker first. */
  lemma Swaps(s: State, i: nat, w: Writer, closing: bool) returns (run: seq<State>, t: State)
    requires At(s, i, w) && Free(w) == w && w.active != [] && w.running && !w.direct && w.user.Running?
    ensures Brings(run, s, t, i, Swapped(w).(user := Flushing(closing)))
  {
    var w1 := Swapped(w).(user := Flushing(closing));
    assert TurnAt(s, w, FlushSwap(closing), w1);
    run, t := StillOne(s, i, w, FlushSwap(closing), w1);
  }

  lemma SwapReturns(s: State, i: nat, w: Writer, closing: bool) returns (run: seq<State>, t: State)
    requires At(s, i, w) && WInv(w) && Free(w) == w && w.active != [] && w.blockOnFull && !w.direct && w.user.Running?
    ensures Brings(run, s, t, i, Flushed(w, if closing then Closing else Running))
  {
    var w1 := Swapped(w).(user := Flushing(closing));
    var last := Flushed(w, if closing then Closing else Running);
    var r1, s1 := Swaps(s, i, w, closing);
    var r2, s2 := BlockCompletes(s1, i, w1);
    var r3;
    r3, t := Returns(s2, i, Free(w1), closing);
    run := BringsJoin(r1, r2, s, s1, s2, i, w1, Free(w1));
    run := BringsJoin(run, r3, s, s2, t, i, Free(w1), last);
  }

  /** A call of flush() returns. */
  lemma FlushReturns(s: State, i: nat, w: Writer, closing: bool) returns (run: seq<State>, t: State)
    requires At(s, i, w) && WInv(w) && w.blockOnFull && !w.direct && w.user.Running?
    requires Tidy(w)
    ensures Brings(run, s, t, i, Flushed(w, if closing then Closing else Running))
  {
    var r1, s1 := BlockCompletes(s, i, w);
    var r2;
    if w.active == [] { r2, t := WaitReturns(s1, i, Free(w), closing); }
    else { r2, t := SwapReturns(s1, i, Free(w), closing); }
    run := BringsJoin(r1, r2, s, s1, t, i, Free(w), Flushed(w, if closing then Closing else Running));
  }

  lemma Closes(s: State, i: nat, w: Writer) returns (run: seq<State>, t: State)
    requires At(s, i, w) && w.user.Closing?
    ensures Brings(run, s, t, i, w.(user := Closed, running := false))
  {
    var w1 := w.(user := Closed, running := false);
    assert TurnAt(s, w, Close, w1);
    run, t := StillOne(s, i, w, Close, w1);
  }

  lemma Exits(s: State, i: nat, w: Writer) returns (run: seq<State>, t: State)
    requires At(s, i, w) && w.pc.Idle? && !w.hasWork && !w.direct && !w.running
    ensures Brings(run, s, t, i, w.(pc := Exited))
  {
    var w1 := w.(pc := Exited);
    assert TurnAt(s, w, Exit, w1);
    run, t := StillOne(s, i, w, Exit, w1);
  }

  /** The destructor returns: it flushes, stops and joins its worker. */
  lemma Destructs(s: State, i: nat, w: Writer) returns (run: seq<State>, t: State)
    requires At(s, i, w) && WInv(w) && w.blockOnFull && !w.direct && w.user.Running?
    requires Tidy(w)
    ensures Brings(run, s, t, i, Flushed(w, Closed).(running := false, pc := Exited))
  {
    var r1, s1 := FlushReturns(s, i, w, true);
    var r2;
    var s2;
    r2, s2 := Closes(s1, i, Flushed(w, Closing));
    var w2 := Flushed(w, Closed).(running := false);
    var r3;
    r3, t := Exits(s2, i, w2);
    run := BringsJoin(r1, r2, s, s1, s2, i, Flushed(w, Closing), w2);
    run := BringsJoin(run, r3, s, s2, t, i, w2, w2.(pc := Exited));
  }

  // ---------------------------------------------------------------------------
  // From any point of a run
  // ---------------------------------------------------------------------------

  lemma TidyStep(w: Writer, a: WAct, total: nat, cap: nat, slowest: nat)
    requires Tidy(w) && WInv(w) && WEnabled(w, a, cap, slowest)
    ensures Tidy(WNext(w, a, total, cap, slowest))
  {
  }

  lemma TidyAction(s: State, a: Action, i: nat)
    requires Inv(s) && Enabled(s, a) && i < |s.writers| && Tidy(s.writers[i])
    ensures Tidy(Apply(s, a).writers[i])
  {
    if a.Write? && a.w == i { TidyStep(s.writers[i], a.wa, s.Total(), s.Cap(), s.Slowest()); }
  }

  lemma {:induction false} StaysTidy(run: seq<State>, k: nat, i: nat)
    requires IsRun(run) && k < |run| && i < |run[k].writers|
    ensures Tidy(run[k].writers[i])
  {
    if k > 0 {
      var a := StepAt(run, k - 1);
      RunInv(run, k - 1);
      StaysTidy(run, k - 1, i);
      TidyAction(run[k - 1], a, i);
    }
  }

  lemma UpTo(run: seq<State>, k: nat) returns (first: seq<State>)
    requires IsRun(run) && k < |run|
    ensures Leads(first, run[0], run[k])
  {
    first := run[..k + 1];
    forall n | 0 <= n < |first| - 1 ensures StepsAt(first, n) { assert StepsAt(run, n); }
  }

  /** Where the writer is closed by a run that goes on, all it accepted is in
      the ring. */
  lemma ClosedDelivered(run: seq<State>, k: nat, more: seq<State>, t: State, i: nat)
    requires IsRun(run) && k < |run| && Leads(more, run[k], t) && i < |t.writers|
    requires !t.writers[i].direct && t.writers[i].user.Closed?
    ensures |t.history| == |t.origin| && Proj(t.history, t.origin, i) == t.writers[i].committed
  {
    var first := UpTo(run, k);
    var all := LeadsJoin(first, more, run[0], run[k], t);
    FlushDelivers(all, |all| - 1, i);
  }

  /** However many writers there are and whatever they are doing, as long as the
      readers are alive the destructor of a blocking writer has a way to return,
      and then every record it accepted was pushed, in order. */
  lemma DestructorReturns(run: seq<State>, k: nat, i: nat) returns (more: seq<State>, t: State)
    requires IsRun(run) && k < |run| && AllLive(run[k]) && i < |run[k].writers|
    requires var w := run[k].writers[i]; w.blockOnFull && !w.direct && w.user.Running?
    ensures Leads(more, run[k], t) && i < |t.writers|
    ensures t.writers[i].user.Closed? && t.writers[i].pc.Exited?
    ensures t.writers[i].committed == run[k].writers[i].committed
    ensures |t.history| == |t.origin| && Proj(t.history, t.origin, i) == run[k].writers[i].committed
  {
    RunInv(run, k);
    StaysTidy(run, k, i);
    more, t := Destructs(run[k], i, run[k].writers[i]);
    ClosedDelivered(run, k, more, t, i);
  }
}
