/** RecordReader::finish joins the worker, and the worker waits for its last
    block to be taken. So a call from the consuming thread returns only when the
    worker has nothing to hand over. */
module PipelineJoins {
  import opened Rings
  import opened Chunks
  import opened RecBuffers
  import opened Pipeline
  import opened PipelineReaders
  import opened PipelineTheorems
  import opened PipelineProgress

  predicate IsWorker(a: RAct) {
    a.Wake? || a.Snapshot? || a.Read? || a.Store? || a.Publish?
  }

  predicate WorkerOnly(acts: seq<RAct>) {
    forall i | 0 <= i < |acts| :: IsWorker(acts[i])
  }

  /** The worker gets to its end by its own steps, nothing being pushed: finish()
      returns although nobody takes a block. */
  ghost predicate CanEnd(r: Reader, ring: Ring<Record>, total: nat)
    requires ring.Valid()
  {
    exists acts: seq<RAct> :: WorkerOnly(acts) && Can(r, acts, ring, total) && After(r, acts, ring, total).pc.Ended?
  }

  /** What that takes: no block in hand and, where the worker stands, none to
      come. */
  ghost predicate MayEnd(r: Reader, ring: Ring<Record>, total: nat) {
    match r.pc
    case Ended => true
    case Waiting => !r.bgFull && r.FinishReached()
    case Awake => r.cursor == total
    case Fetch(at, _) => Overrun(ring, total, at) && r.FinishReached()
    case Copied(_, _) => false
    case Stored(_) => false
  }

  /** A RecordReader with room to read that was told to finish. */
  ghost predicate Finishing(r: Reader, ring: Ring<Record>, h: seq<Record>) {
    Represents(ring, h) && RInv(r, h) && !r.zeroCopy && r.batchCap > 0 && r.finishing
  }

  lemma WorkerStays(r: Reader, a: RAct, ring: Ring<Record>, h: seq<Record>)
    requires Finishing(r, ring, h) && IsWorker(a) && REnabled(r, a, ring, |h|) && !MayEnd(r, ring, |h|)
    ensures var r' := RNext(r, a, ring, |h|); Finishing(r', ring, h) && !MayEnd(r', ring, |h|)
  {
    assert |ring.Contents()| == ring.size;
    ReaderStep(r, a, ring, h);
  }

  lemma {:induction false} NeverEnds(r: Reader, acts: seq<RAct>, ring: Ring<Record>, h: seq<Record>)
    requires Finishing(r, ring, h) && !MayEnd(r, ring, |h|) && WorkerOnly(acts) && Can(r, acts, ring, |h|)
    ensures !After(r, acts, ring, |h|).pc.Ended?
    decreases |acts|
  {
    if acts != [] {
      WorkerStays(r, acts[0], ring, h);
      NeverEnds(RNext(r, acts[0], ring, |h|), acts[1..], ring, h);
    }
  }

  function EndActs(pc: CopyPc): seq<RAct> {
    match pc
    case Awake => [Snapshot, Wake]
    case Fetch(_, _) => [Read, Wake]
    case Waiting => [Wake]
    case _ => []
  }

  lemma Ends(r: Reader, ring: Ring<Record>, h: seq<Record>)
    requires Finishing(r, ring, h) && MayEnd(r, ring, |h|)
    ensures var acts := EndActs(r.pc);
      WorkerOnly(acts) && Can(r, acts, ring, |h|) && After(r, acts, ring, |h|).pc.Ended?
  {
    assert |ring.Contents()| == ring.size;
    if r.pc.Waiting? {
      CanCons(r, Wake, [], ring, |h|);
    } else if !r.pc.Ended? {
      var a := EndActs(r.pc)[0];
      var r1 := RNext(r, a, ring, |h|);
      CanCons(r1, Wake, [], ring, |h|);
      CanCons(r, a, [Wake], ring, |h|);
    }
  }

  lemma EndIff(r: Reader, ring: Ring<Record>, h: seq<Record>)
    requires Finishing(r, ring, h)
    ensures CanEnd(r, ring, |h|) <==> MayEnd(r, ring, |h|)
  {
    if MayEnd(r, ring, |h|) {
      Ends(r, ring, h);
    } else {
      forall acts: seq<RAct> | WorkerOnly(acts) && Can(r, acts, ring, |h|)
        ensures !After(r, acts, ring, |h|).pc.Ended?
      {
        NeverEnds(r, acts, ring, h);
      }
    }
  }

  /** Called by the consumer while the worker waits: finish() returns exactly
      when no block is ready and nothing is left to read. */
  lemma FinishReturnsIff(r: Reader, ring: Ring<Record>, h: seq<Record>)
    requires Represents(ring, h) && RInv(r, h) && !r.zeroCopy && r.batchCap > 0
    requires REnabled(r, Finish, ring, |h|) && r.pc.Waiting?
    ensures CanEnd(RNext(r, Finish, ring, |h|), ring, |h|) <==> !r.bgFull && r.cursor == |h|
  {
    var r' := RNext(r, Finish, ring, |h|);
    ReaderStep(r, Finish, ring, h);
    EndIff(r', ring, h);
  }

  // ---------------------------------------------------------------------------
  // Over whole runs
  // ---------------------------------------------------------------------------

  /** Step k of the run is the consumer of reader j taking the ready block. */
  ghost predicate SwapsAt(run: seq<State>, k: nat, j: nat)
    requires k + 1 < |run|
  {
    Enabled(run[k], Consume(j, SwapIn)) && run[k + 1] == Apply(run[k], Consume(j, SwapIn))
  }

  ghost predicate NotSwapped(run: seq<State>, k: nat, m: nat, j: nat)
    requires k <= m < |run|
  {
    forall i | k <= i < m :: !SwapsAt(run, i, j)
  }

  ghost predicate BlockReady(r: Reader) {
    !r.zeroCopy && r.bgFull
  }

  lemma BlockStays(s: State, a: Action, j: nat)
    requires Inv(s) && Enabled(s, a) && j < |s.readers| && BlockReady(s.readers[j]) && a != Consume(j, SwapIn)
    ensures j < |Apply(s, a).readers| && BlockReady(Apply(s, a).readers[j])
  {
    assert RInv(s.readers[j], s.history);
  }

  /** Whatever is written meanwhile, with a block ready and nobody to take it the
      worker runs on, and finish() does not return. */
  lemma {:induction false} JoinWaits(run: seq<State>, k: nat, m: nat, j: nat)
    requires IsRun(run) && k <= m < |run| && j < |run[k].readers| && BlockReady(run[k].readers[j])
    requires NotSwapped(run, k, m, j)
    ensures j < |run[m].readers| && BlockReady(run[m].readers[j]) && !run[m].readers[j].pc.Ended?
  {
    if k < m {
      JoinWaits(run, k, m - 1, j);
      var a := StepAt(run, m - 1);
      assert !SwapsAt(run, m - 1, j);
      BlockStays(run[m - 1], a, j);
    }
    RunInv(run, m);
    assert RInv(run[m].readers[j], run[m].history);
  }
}
