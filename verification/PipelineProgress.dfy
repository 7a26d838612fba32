/** Progress: a reader that is served catches up, a reader told to finish gets to
    the end, and when a blocking writer sees no space it can be told whether the
    slowest reader will ever make some. */
module PipelineProgress {
  import opened Helpers
  import opened Rings
  import opened Chunks
  import opened RecBuffers
  import opened Pipeline
  import opened PipelineReaders
  import opened PipelineTheorems
  import opened PipelineDraining

  /** The steps acts, one after the other, of one reader while nothing is pushed. */
  ghost predicate Can(r: Reader, acts: seq<RAct>, ring: Ring<Record>, total: nat)
    requires ring.Valid()
    decreases |acts|
  {
    acts == [] || (REnabled(r, acts[0], ring, total) && Can(RNext(r, acts[0], ring, total), acts[1..], ring, total))
  }

  ghost function After(r: Reader, acts: seq<RAct>, ring: Ring<Record>, total: nat): Reader
    requires ring.Valid() && Can(r, acts, ring, total)
    decreases |acts|
  {
    if acts == [] then r else After(RNext(r, acts[0], ring, total), acts[1..], ring, total)
  }

  lemma CanCons(r: Reader, a: RAct, rest: seq<RAct>, ring: Ring<Record>, total: nat)
    requires ring.Valid() && REnabled(r, a, ring, total) && Can(RNext(r, a, ring, total), rest, ring, total)
    ensures Can(r, [a] + rest, ring, total)
    ensures After(r, [a] + rest, ring, total) == After(RNext(r, a, ring, total), rest, ring, total)
  {
    assert ([a] + rest)[1..] == rest;
  }

  lemma {:induction false} CanAppend(r: Reader, x: seq<RAct>, y: seq<RAct>, ring: Ring<Record>, total: nat)
    requires ring.Valid() && Can(r, x, ring, total) && Can(After(r, x, ring, total), y, ring, total)
    ensures Can(r, x + y, ring, total)
    ensures After(r, x + y, ring, total) == After(After(r, x, ring, total), y, ring, total)
    decreases |x|
  {
    if x == [] {
      assert x + y == y;
    } else {
      CanAppend(RNext(r, x[0], ring, total), x[1..], y, ring, total);
      assert x + y == [x[0]] + (x[1..] + y);
      CanCons(r, x[0], x[1..] + y, ring, total);
    }
  }

  /** No call of finish() among the steps. */
  predicate NoFinish(acts: seq<RAct>) {
    Finish !in acts
  }

  // ---------------------------------------------------------------------------
  // Catching up
  // ---------------------------------------------------------------------------

  /** A served reader: not stopped, with room to read, and short of its target
      if it was told to finish. */
  ghost predicate Serving(r: Reader) {
    r.running && r.batchCap > 0 && !r.FinishReached()
  }

  /** The next thing to do for the reader or its consumer. */
  function NextAct(r: Reader): RAct {
    if r.zeroCopy then
      match r.zpc
      case Out => if r.cursor < r.pinnedEnd then Release else Begin(r.batchCap, true)
      case InWait(_) => Arrive
      case Ready(_, _) => Recheck
      case Get(_, _) => TakePtr
      case Missed(_, _) => Probe
      case Skip(_, _) => StoreSkip
      case Retry(_) => TakePtrAgain
    else
      match r.pc
      case Waiting => if !r.bgFull then Wake else if r.active == [] then SwapIn else Take(|r.active|)
      case Awake => Snapshot
      case Fetch(_, _) => Read
      case Copied(_, _) => Store
      case Stored(_) => Publish
      case Ended => Take(|r.active|)
  }

  /** Between calls, that is: a worker that waits, no zero-copy batch in use. */
  ghost predicate AtRest(r: Reader) {
    if r.zeroCopy then r.zpc.Out? && !r.Holding() else r.pc.Waiting? || r.pc.Ended?
  }

  ghost predicate Overrun(ring: Ring<Record>, total: nat, cursor: nat) {
    Behind(total, cursor) > ring.size
  }

  /** How far the reader is from storing a larger cursor. */
  ghost function Stage(r: Reader, ring: Ring<Record>, total: nat): nat {
    if r.zeroCopy then
      match r.zpc
      case Out => if r.cursor < r.pinnedEnd then 1 else 8
      case InWait(max) => if max > 0 then 7 else 14
      case Ready(max, _) => if max > 0 then 6 else 13
      case Get(max, _) => if max > 0 then 5 else 12
      case Missed(_, _) => if Overrun(ring, total, r.cursor) then 4 else 11
      case Skip(_, _) => 3
      case Retry(_) => 9
    else
      match r.pc
      case Waiting => if !r.bgFull then 5 else if r.active == [] then 6 else 7
      case Awake => 4
      case Fetch(at, _) => if Overrun(ring, total, at) then 9 else 3
      case Copied(_, _) => 2
      case Stored(_) => 8
      case Ended => 0
  }

  /** One step on: the cursor grows, or the stage falls. */
  ghost predicate StepsOn(r: Reader, r': Reader, ring: Ring<Record>, total: nat) {
    && (Serving(r') || (r'.running && r'.FinishReached()))
    && r'.batchCap == r.batchCap && r'.finishing == r.finishing && r'.finishTarget == r.finishTarget
    && (r.cursor < r'.cursor || (r'.cursor == r.cursor && Stage(r', ring, total) < Stage(r, ring, total)))
  }

  lemma OneStepCopying(r: Reader, ring: Ring<Record>, h: seq<Record>)
    requires Represents(ring, h) && RInv(r, h) && Serving(r) && r.cursor < |h| && !r.zeroCopy
    ensures REnabled(r, NextAct(r), ring, |h|) && StepsOn(r, RNext(r, NextAct(r), ring, |h|), ring, |h|)
  {
    assert |ring.Contents()| == ring.size;
  }

  lemma OneStepZeroCopy(r: Reader, ring: Ring<Record>, h: seq<Record>)
    requires Represents(ring, h) && RInv(r, h) && Serving(r) && r.cursor < |h| && r.zeroCopy
    ensures REnabled(r, NextAct(r), ring, |h|) && StepsOn(r, RNext(r, NextAct(r), ring, |h|), ring, |h|)
    ensures var r' := RNext(r, NextAct(r), ring, |h|); r'.cursor == |h| ==> AtRest(r')
  {
    assert |ring.Contents()| == ring.size;
  }

  lemma OneStep(r: Reader, ring: Ring<Record>, h: seq<Record>)
    requires Represents(ring, h) && RInv(r, h) && Serving(r) && r.cursor < |h|
    ensures REnabled(r, NextAct(r), ring, |h|) && NextAct(r) != Finish
    ensures var r' := RNext(r, NextAct(r), ring, |h|); StepsOn(r, r', ring, |h|) && RInv(r', h)
    ensures var r' := RNext(r, NextAct(r), ring, |h|);
      r'.zeroCopy == r.zeroCopy && (r.zeroCopy && r'.cursor == |h| ==> AtRest(r'))
  {
    if r.zeroCopy { OneStepZeroCopy(r, ring, h); } else { OneStepCopying(r, ring, h); }
    ReaderStep(r, NextAct(r), ring, h);
  }

  /** From r the reader came to r', at the write head or its target; a zero-copy
      reader that got to the head by reading is between calls. */
  ghost predicate Caught(r: Reader, r': Reader, h: seq<Record>) {
    && RInv(r', h) && r'.running && r'.batchCap > 0
    && r'.finishing == r.finishing && r'.finishTarget == r.finishTarget
    && r.cursor <= r'.cursor && (r'.cursor == |h| || r'.FinishReached())
    && r'.zeroCopy == r.zeroCopy
    && (r.zeroCopy && !r.finishing && (AtRest(r) || r.cursor < |h|) ==> AtRest(r'))
  }

  lemma CaughtAfter(r: Reader, r1: Reader, r': Reader, h: seq<Record>)
    requires Caught(r1, r', h) && r.cursor <= r1.cursor && r1.zeroCopy == r.zeroCopy
    requires r1.finishing == r.finishing && r1.finishTarget == r.finishTarget
    requires r.zeroCopy && r1.cursor == |h| ==> AtRest(r1)
    ensures Caught(r, r', h)
  {
  }

  /** Whatever it is in the middle of, a served reader has a finite sequence of
      own steps, each enabled, that brings its cursor to the write head, or to
      its target if it was told to finish. The measure is the lag, then the
      stage; wrap-shortened batches only make the sequence longer. */
  lemma {:induction false} CatchUp(r: Reader, ring: Ring<Record>, h: seq<Record>) returns (acts: seq<RAct>)
    requires Represents(ring, h) && RInv(r, h) && r.running && r.batchCap > 0
    ensures Can(r, acts, ring, |h|) && NoFinish(acts) && Caught(r, After(r, acts, ring, |h|), h)
    decreases |h| - r.cursor, Stage(r, ring, |h|)
  {
    acts := [];
    if Serving(r) && r.cursor < |h| {
      OneStep(r, ring, h);
      var r1 := RNext(r, NextAct(r), ring, |h|);
      var rest := CatchUp(r1, ring, h);
      CaughtAfter(r, r1, After(r1, rest, ring, |h|), h);
      CanCons(r, NextAct(r), rest, ring, |h|);
      acts := [NextAct(r)] + rest;
    }
  }

  // ---------------------------------------------------------------------------
  // Finishing
  // ---------------------------------------------------------------------------

  /** Nothing more will come of the reader. */
  ghost predicate AtEnd(r: Reader) {
    if r.zeroCopy then !r.running && r.zpc.Out? && !r.Holding() else EndOfStream(r)
  }

  /** Done for good: it is still among the readers, but will not move again. */
  ghost predicate Gone(r: Reader) {
    !r.running && AtRest(r)
  }

  /** Where there is nothing more to come, nothing moves any more. */
  lemma EndIsGone(r: Reader, h: seq<Record>)
    requires RInv(r, h) && AtEnd(r)
    ensures Gone(r)
  {
  }

  /** How far a reader that reached its target is from its end. */
  ghost function Remaining(r: Reader): nat {
    if r.zeroCopy then
      match r.zpc
      case Out => (if r.Holding() then 1 else 0) + if r.running then 2 else 0
      case Retry(_) => 4
      case Skip(_, _) => 5
      case Missed(_, _) => 6
      case Get(_, _) => 7
      case Ready(_, _) => 8
      case InWait(_) => 9
    else
      match r.pc
      case Ended => if r.active == [] then 0 else 1
      case Waiting => if !r.bgFull then 2 else if r.active == [] then 3 else 4
      case Stored(_) => 5
      case Copied(_, _) => 6
      case Fetch(_, _) => 7
      case Awake => 8
  }

  /** The next step of a reader that reached its target brings it closer to its
      end. */
  lemma OneStepToEnd(r: Reader, ring: Ring<Record>, h: seq<Record>)
    requires Represents(ring, h) && RInv(r, h) && r.FinishReached() && !AtEnd(r)
    ensures REnabled(r, NextAct(r), ring, |h|) && NextAct(r) != Finish
    ensures var r' := RNext(r, NextAct(r), ring, |h|);
      RInv(r', h) && r'.FinishReached() && Remaining(r') < Remaining(r)
  {
    assert |ring.Contents()| == ring.size;
    if r.zeroCopy { ZeroCopyToEnd(r, ring, h); } else { CopyingToEnd(r, ring, h); }
    ReaderStep(r, NextAct(r), ring, h);
  }

  lemma ZeroCopyToEnd(r: Reader, ring: Ring<Record>, h: seq<Record>)
    requires Represents(ring, h) && RInv(r, h) && r.FinishReached() && !AtEnd(r) && r.zeroCopy
    ensures REnabled(r, NextAct(r), ring, |h|)
    ensures var r' := RNext(r, NextAct(r), ring, |h|); r'.FinishReached() && Remaining(r') < Remaining(r)
  {
  }

  lemma CopyingToEnd(r: Reader, ring: Ring<Record>, h: seq<Record>)
    requires Represents(ring, h) && RInv(r, h) && r.FinishReached() && !AtEnd(r) && !r.zeroCopy
    ensures REnabled(r, NextAct(r), ring, |h|)
    ensures var r' := RNext(r, NextAct(r), ring, |h|); r'.FinishReached() && Remaining(r') < Remaining(r)
  {
  }

  lemma {:induction false} RunOut(r: Reader, ring: Ring<Record>, h: seq<Record>) returns (acts: seq<RAct>)
    requires Represents(ring, h) && RInv(r, h) && r.FinishReached()
    ensures Can(r, acts, ring, |h|) && NoFinish(acts)
    ensures AtEnd(After(r, acts, ring, |h|)) && RInv(After(r, acts, ring, |h|), h)
    decreases Remaining(r)
  {
    acts := [];
    if !AtEnd(r) {
      OneStepToEnd(r, ring, h);
      acts := RunOut(RNext(r, NextAct(r), ring, |h|), ring, h);
      CanCons(r, NextAct(r), acts, ring, |h|);
      acts := [NextAct(r)] + acts;
    }
  }

  /** finish() is enough: a reader told to finish has a finite sequence of own
      steps that takes it past its target and to its end, where the consumer is
      told that nothing is left and the reader rests for good. */
  lemma FinishCompletes(r: Reader, ring: Ring<Record>, h: seq<Record>) returns (acts: seq<RAct>)
    requires Represents(ring, h) && RInv(r, h) && r.running && r.batchCap > 0 && r.finishing
    ensures Can(r, acts, ring, |h|) && NoFinish(acts)
    ensures AtEnd(After(r, acts, ring, |h|)) && Gone(After(r, acts, ring, |h|))
  {
    var first := CatchUp(r, ring, h);
    var r1 := After(r, first, ring, |h|);
    var rest := RunOut(r1, ring, h);
    CanAppend(r, first, rest, ring, |h|);
    acts := first + rest;
    EndIsGone(After(r1, rest, ring, |h|), h);
  }

  // ---------------------------------------------------------------------------
  // Whether a reader will make room
  // ---------------------------------------------------------------------------

  /** What can be read off a reader that is behind: whether its own steps, without
      another finish(), ever move its cursor. */
  ghost predicate MayAdvance(r: Reader, ring: Ring<Record>, total: nat) {
    if r.running && !r.FinishReached() then true
    else if r.zeroCopy then
      match r.zpc
      case Out => r.Holding()
      case Skip(_, _) => true
      case Missed(_, _) => Overrun(ring, total, r.cursor)
      case Get(max, _) => max > 0 || Overrun(ring, total, r.cursor)
      case Retry(max) => max > 0 && !Overrun(ring, total, r.cursor)
      case InWait(_) => false
      case Ready(_, _) => false
    else
      match r.pc
      case Awake => true
      case Fetch(at, _) => !Overrun(ring, total, at)
      case Copied(_, _) => true
      case Waiting => false
      case Stored(_) => false
      case Ended => false
  }

  /** Some sequence of own steps moves the cursor. */
  ghost predicate CanAdvance(r: Reader, ring: Ring<Record>, total: nat)
    requires ring.Valid()
  {
    exists acts: seq<RAct> ::
      NoFinish(acts) && Can(r, acts, ring, total) && After(r, acts, ring, total).cursor > r.cursor
  }

  ghost predicate BehindHead(r: Reader, ring: Ring<Record>, h: seq<Record>) {
    Represents(ring, h) && RInv(r, h) && r.cursor < |h| && r.batchCap > 0
  }

  lemma LastStepsCopying(r: Reader, ring: Ring<Record>, h: seq<Record>)
    requires BehindHead(r, ring, h) && MayAdvance(r, ring, |h|) && !Serving(r) && !r.zeroCopy
    ensures REnabled(r, NextAct(r), ring, |h|) && NextAct(r) != Finish
    ensures var r' := RNext(r, NextAct(r), ring, |h|);
      r.cursor < r'.cursor || (r'.cursor == r.cursor && r'.batchCap == r.batchCap && MayAdvance(r', ring, |h|)
                               && !Serving(r') && Remaining(r') < Remaining(r))
  {
    assert |ring.Contents()| == ring.size;
  }

  lemma LastStepsZeroCopy(r: Reader, ring: Ring<Record>, h: seq<Record>)
    requires BehindHead(r, ring, h) && MayAdvance(r, ring, |h|) && !Serving(r) && r.zeroCopy
    ensures REnabled(r, NextAct(r), ring, |h|) && NextAct(r) != Finish
    ensures var r' := RNext(r, NextAct(r), ring, |h|);
      r.cursor < r'.cursor || (r'.cursor == r.cursor && r'.batchCap == r.batchCap && MayAdvance(r', ring, |h|)
                               && !Serving(r') && Remaining(r') < Remaining(r))
  {
    assert |ring.Contents()| == ring.size;
  }

  lemma {:induction false} Advance(r: Reader, ring: Ring<Record>, h: seq<Record>) returns (acts: seq<RAct>)
    requires BehindHead(r, ring, h) && MayAdvance(r, ring, |h|)
    ensures Can(r, acts, ring, |h|) && NoFinish(acts) && After(r, acts, ring, |h|).cursor > r.cursor
    decreases Remaining(r)
  {
    if Serving(r) {
      acts := CatchUp(r, ring, h);
    } else {
      if r.zeroCopy { LastStepsZeroCopy(r, ring, h); } else { LastStepsCopying(r, ring, h); }
      ReaderStep(r, NextAct(r), ring, h);
      var r' := RNext(r, NextAct(r), ring, |h|);
      acts := [];
      if r'.cursor == r.cursor { acts := Advance(r', ring, h); }
      CanCons(r, NextAct(r), acts, ring, |h|);
      acts := [NextAct(r)] + acts;
    }
  }

  lemma StuckStep(r: Reader, a: RAct, ring: Ring<Record>, h: seq<Record>)
    requires BehindHead(r, ring, h) && !MayAdvance(r, ring, |h|) && REnabled(r, a, ring, |h|) && a != Finish
    ensures var r' := RNext(r, a, ring, |h|);
      r'.cursor == r.cursor && r'.batchCap == r.batchCap && !MayAdvance(r', ring, |h|)
  {
    assert |ring.Contents()| == ring.size;
    if r.zeroCopy { StuckZeroCopy(r, a, ring, h); } else { StuckCopying(r, a, ring, h); }
  }

  lemma StuckCopying(r: Reader, a: RAct, ring: Ring<Record>, h: seq<Record>)
    requires BehindHead(r, ring, h) && !MayAdvance(r, ring, |h|) && REnabled(r, a, ring, |h|) && a != Finish
    requires !r.zeroCopy
    ensures var r' := RNext(r, a, ring, |h|);
      r'.cursor == r.cursor && r'.batchCap == r.batchCap && !MayAdvance(r', ring, |h|)
  {
  }

  lemma StuckZeroCopy(r: Reader, a: RAct, ring: Ring<Record>, h: seq<Record>)
    requires BehindHead(r, ring, h) && !MayAdvance(r, ring, |h|) && REnabled(r, a, ring, |h|) && a != Finish
    requires r.zeroCopy && ring.size <= |h| && ring.size > 0
    ensures var r' := RNext(r, a, ring, |h|);
      r'.cursor == r.cursor && r'.batchCap == r.batchCap && !MayAdvance(r', ring, |h|)
  {
  }

  lemma {:induction false} StaysStuck(r: Reader, acts: seq<RAct>, ring: Ring<Record>, h: seq<Record>)
    requires BehindHead(r, ring, h) && !MayAdvance(r, ring, |h|) && NoFinish(acts) && Can(r, acts, ring, |h|)
    ensures After(r, acts, ring, |h|).cursor == r.cursor
    decreases |acts|
  {
    if acts != [] {
      StuckStep(r, acts[0], ring, h);
      ReaderStep(r, acts[0], ring, h);
      StaysStuck(RNext(r, acts[0], ring, |h|), acts[1..], ring, h);
    }
  }

  /** Exactly when a reader that is behind can move. */
  lemma AdvanceIff(r: Reader, ring: Ring<Record>, h: seq<Record>)
    requires BehindHead(r, ring, h)
    ensures CanAdvance(r, ring, |h|) <==> MayAdvance(r, ring, |h|)
  {
    if MayAdvance(r, ring, |h|) {
      var acts := Advance(r, ring, h);
    } else {
      forall acts: seq<RAct> | NoFinish(acts) && Can(r, acts, ring, |h|)
        ensures After(r, acts, ring, |h|).cursor == r.cursor
      {
        StaysStuck(r, acts, ring, h);
      }
    }
  }

  /** At rest it is whether the reader is live and short of its target. */
  lemma AtRestIff(r: Reader, ring: Ring<Record>, h: seq<Record>)
    requires BehindHead(r, ring, h) && AtRest(r)
    ensures CanAdvance(r, ring, |h|) <==> Serving(r)
  {
    AdvanceIff(r, ring, h);
  }

  /** A blocking writer that finds no space is behind a slowest reader, and that
      reader can move exactly when MayAdvance says so; at rest, exactly when it
      is live and has not reached its target. */
  lemma ProgressAtZeroSpace(run: seq<State>, k: nat) returns (j: nat)
    requires IsRun(run) && k < |run|
    requires run[k].readers != [] && SpaceFor(run[k].Total(), run[k].Cap(), run[k].Slowest()) == 0
    ensures var s := run[k]; j < |s.readers| && s.readers[j].cursor == s.Slowest() < s.Total()
    ensures run[k].ring.Valid()
    ensures forall i | 0 <= i < |run[k].readers|
        && run[k].readers[i].cursor == run[k].Slowest() && run[k].readers[i].batchCap > 0 ::
      && (CanAdvance(run[k].readers[i], run[k].ring, run[k].Total()) <==>
            MayAdvance(run[k].readers[i], run[k].ring, run[k].Total()))
      && (AtRest(run[k].readers[i]) ==>
            (CanAdvance(run[k].readers[i], run[k].ring, run[k].Total()) <==> Serving(run[k].readers[i])))
  {
    RunInv(run, k);
    var s := run[k];
    j :| 0 <= j < |s.readers| && s.Slowest() == s.readers[j].cursor;
    assert RInv(s.readers[j], s.history);
    forall i | 0 <= i < |s.readers| && s.readers[i].cursor == s.Slowest() && s.readers[i].batchCap > 0
      ensures CanAdvance(s.readers[i], s.ring, s.Total()) <==> MayAdvance(s.readers[i], s.ring, s.Total())
      ensures AtRest(s.readers[i]) ==> (CanAdvance(s.readers[i], s.ring, s.Total()) <==> Serving(s.readers[i]))
    {
      AdvanceIff(s.readers[i], s.ring, s.history);
      if AtRest(s.readers[i]) { AtRestIff(s.readers[i], s.ring, s.history); }
    }
  }

  // ---------------------------------------------------------------------------
  // A reader that is done stays registered
  // ---------------------------------------------------------------------------

  lemma GoneStep(s: State, a: Action, j: nat)
    requires Inv(s) && Enabled(s, a) && j < |s.readers| && Gone(s.readers[j])
    ensures var t := Apply(s, a); Gone(t.readers[j]) && t.readers[j].cursor == s.readers[j].cursor
  {
    assert RInv(s.readers[j], s.history);
  }

  /** Over any run, finish() again or not, it stays where it is. */
  lemma {:induction false} StaysGone(run: seq<State>, k: nat, m: nat, j: nat)
    requires IsRun(run) && k <= m < |run| && j < |run[k].readers| && Gone(run[k].readers[j])
    ensures j < |run[m].readers| && Gone(run[m].readers[j]) && run[m].readers[j].cursor == run[k].readers[j].cursor
  {
    if k < m {
      StaysGone(run, k, m - 1, j);
      GoneNext(run, m - 1, j);
    }
  }

  lemma GoneNext(run: seq<State>, k: nat, j: nat)
    requires IsRun(run) && k + 1 < |run| && j < |run[k].readers| && Gone(run[k].readers[j])
    ensures j < |run[k + 1].readers| && Gone(run[k + 1].readers[j])
    ensures run[k + 1].readers[j].cursor == run[k].readers[j].cursor
  {
    var a := StepAt(run, k);
    GoneStep(run[k], a, j);
  }

  /** So a reader that has come to its end stays there. */
  lemma EndsForGood(run: seq<State>, k: nat, m: nat, j: nat)
    requires IsRun(run) && k <= m < |run| && j < |run[k].readers| && AtEnd(run[k].readers[j])
    ensures j < |run[m].readers| && Gone(run[m].readers[j]) && run[m].readers[j].cursor == run[k].readers[j].cursor
  {
    RunInv(run, k);
    assert RInv(run[k].readers[j], run[k].history);
    EndIsGone(run[k].readers[j], run[k].history);
    StaysGone(run, k, m, j);
  }

  /** Once the write head is a capacity ahead of such a reader there is never
      space again: no writer that looks from then on gets past its wait. */
  lemma NoSpaceEverAgain(run: seq<State>, k: nat, m: nat, j: nat, i: nat, space: nat)
    requires IsRun(run) && k <= m < |run| && j < |run[k].readers| && Gone(run[k].readers[j])
    requires run[k].Total() >= run[k].readers[j].cursor + run[k].Cap()
    ensures run[m].readers != [] && SpaceFor(run[m].Total(), run[m].Cap(), run[m].Slowest()) == 0
    ensures i < |run[m].writers| && run[m].writers[i].pc.Sized? && run[m].writers[i].pc.total >= run[k].Total() ==>
      !Enabled(run[m], Write(i, Check(space)))
  {
    StaysGone(run, k, m, j);
    RunExtends(run, k, m);
    RunInv(run, m);
  }

  /** With one blocking writer that is the end: nothing is written any more. */
  lemma {:induction false} WritingStops(run: seq<State>, k: nat, m: nat, j: nat)
    requires IsRun(run) && k <= m < |run| && OneBlockingWriter(run[0])
    requires j < |run[k].readers| && Gone(run[k].readers[j])
    requires run[k].Total() >= run[k].readers[j].cursor + run[k].Cap()
    ensures run[m].history == run[k].history
  {
    if k < m {
      WritingStops(run, k, m - 1, j);
      StaysGone(run, k, m - 1, j);
      assert |run[k].ring.mem| == |run[m - 1].ring.mem| by { RunExtends(run, k, m - 1); }
      RunTight(run, m - 1);
      var a := StepAt(run, m - 1);
      NoPromise(run[m - 1], j);
      NothingPushed(run[m - 1], a);
    }
  }

  /** The writer has no chunk to push when a reader is a full capacity behind. */
  lemma NoPromise(s: State, j: nat)
    requires Inv(s) && OneBlockingWriter(s) && j < |s.readers| && s.Total() >= s.readers[j].cursor + s.Cap()
    ensures s.writers[0].InFlight() == 0
  {
    UnreadFits(s, j);
  }

  lemma NothingPushed(s: State, a: Action)
    requires OneBlockingWriter(s) && s.writers[0].InFlight() == 0 && Enabled(s, a)
    ensures Apply(s, a).history == s.history
  {
    if a.Write? { NothingPromised(s, a.wa); }
  }

  lemma NothingPromised(s: State, a: WAct)
    requires s.writers != [] && s.writers[0].blockOnFull && s.writers[0].InFlight() == 0 && Enabled(s, Write(0, a))
    ensures Apply(s, Write(0, a)).history == s.history
  {
    PushedIsPromised(s.writers[0], a, s.Cap(), s.Slowest());
    AddNothing(s.history);
  }
}
