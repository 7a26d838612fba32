/** finish() drains: an empty batch after it means there was nothing left. */
module PipelineDraining {
  import opened Helpers
  import opened Rings
  import opened Chunks
  import opened RecBuffers
  import opened Pipeline
  import opened PipelineReaders
  import opened PipelineTheorems

  /** Step k of the run is finish() on reader j. */
  ghost predicate FinishAt(run: seq<State>, k: nat, j: nat)
    requires k + 1 < |run|
  {
    Enabled(run[k], Consume(j, Finish)) && run[k + 1] == Apply(run[k], Consume(j, Finish))
  }

  /** The consumer of a RecordReader finds both buffers empty and the worker
      gone: no batch will come. */
  ghost predicate EndOfStream(r: Reader) {
    !r.zeroCopy && r.active == [] && !r.bgFull && !r.running
  }

  /** A swap brings an empty buffer exactly at the end of the stream. */
  lemma EmptySwap(r: Reader, ring: Ring<Record>, h: seq<Record>)
    requires RInv(r, h) && ring.Valid() && REnabled(r, SwapIn, ring, |h|)
    ensures RNext(r, SwapIn, ring, |h|).active == [] <==> EndOfStream(r)
  {
  }

  lemma FinishSetsTarget(run: seq<State>, k: nat, m: nat, j: nat)
    requires IsRun(run) && k < m < |run| && FinishAt(run, k, j)
    ensures j < |run[m].readers|
    ensures run[m].readers[j].finishing && |run[k].history| <= run[m].readers[j].finishTarget
    ensures run[k].history <= run[m].history && run[m].readers[j].start == run[k].readers[j].start
  {
    RunExtends(run, k + 1, m);
    RunExtends(run, k, m);
    assert ReaderExtends(run[k + 1].readers[j], run[m].readers[j]);
    assert ReaderExtends(run[k].readers[j], run[m].readers[j]);
  }

  /** A reader that holds nothing and has taken everything up to position n has
      delivered or skipped it all, and all of it when it skipped nothing. */
  lemma TakenUpTo(r: Reader, h: seq<Record>, n: nat)
    requires RInv(r, h) && r.Held() == [] && r.start <= n <= r.Frontier()
    ensures n - r.start <= |r.delivered| + r.skipped
    ensures r.skipped == 0 ==> n <= |h| && h[r.start..n] <= r.delivered
  {
    GatherSize(h, r.start, r.log, r.Frontier());
    AddNothing(r.delivered);
    if r.skipped == 0 {
      GatherWhole(h, r.start, r.log, r.Frontier());
      assert h[r.start..r.Frontier()][..n - r.start] == h[r.start..n];
    }
  }

  /** Everything written before step k was delivered by reader j, as of step m. */
  ghost predicate Drained(run: seq<State>, k: nat, m: nat, j: nat)
    requires k < |run| && m < |run| && j < |run[m].readers|
  {
    var r, h := run[m].readers[j], run[k].history;
    r.start <= |h| && h[r.start..] <= r.delivered
  }

  /** The same up to what the reader counted as skipped. */
  ghost predicate DrainedOrSkipped(run: seq<State>, k: nat, m: nat, j: nat)
    requires k < |run| && m < |run| && j < |run[m].readers|
  {
    var r, h := run[m].readers[j], run[k].history;
    r.start <= |h| <= r.start + |r.delivered| + r.skipped
  }

  lemma FinishedMeansDrained(run: seq<State>, k: nat, m: nat, j: nat)
    requires IsRun(run) && k < m < |run| && FinishAt(run, k, j) && j < |run[m].readers|
    requires run[m].readers[j].FinishReached() && run[m].readers[j].Held() == []
    ensures DrainedOrSkipped(run, k, m, j)
    ensures run[m].readers[j].skipped == 0 ==> Drained(run, k, m, j)
  {
    FinishSetsTarget(run, k, m, j);
    RunInv(run, k);
    RunInv(run, m);
    var r, h, later := run[m].readers[j], run[k].history, run[m].history;
    assert RInv(r, later) && RInv(run[k].readers[j], h);
    TakenUpTo(r, later, |h|);
    if r.skipped == 0 { SamePrefix(h, later, r.start, |h|); }
  }

  /** finish() on a RecordReader, next to any writers: when the consumer is told
      there is nothing left, everything written before the call was delivered, or
      counted as skipped in a run that overran the reader. */
  lemma FinishDrains(run: seq<State>, k: nat, m: nat, j: nat)
    requires IsRun(run) && k < m < |run|
    requires FinishAt(run, k, j) && j < |run[m].readers| && EndOfStream(run[m].readers[j])
    ensures DrainedOrSkipped(run, k, m, j)
    ensures run[m].readers[j].skipped == 0 ==> Drained(run, k, m, j)
  {
    RunInv(run, m);
    assert RInv(run[m].readers[j], run[m].history);
    FinishedMeansDrained(run, k, m, j);
  }

  /** The batch nextBatch returns once its wait is over, on a used-up active
      buffer; no record means the batch is invalid. */
  function Returned(r: Reader, max: nat, ring: Ring<Record>, total: nat): seq<Record>
    requires ring.Valid() && REnabled(r, SwapIn, ring, total)
  {
    var r' := RNext(r, SwapIn, ring, total);
    r'.active[..Min(max, |r'.active|)]
  }

  /** A waiting call comes back with nothing exactly at the end of the stream, or
      when it asked for nothing. */
  lemma EmptyBatch(r: Reader, max: nat, ring: Ring<Record>, h: seq<Record>)
    requires RInv(r, h) && ring.Valid() && REnabled(r, SwapIn, ring, |h|)
    ensures Returned(r, max, ring, |h|) == [] <==> EndOfStream(r) || max == 0
  {
    EmptySwap(r, ring, h);
  }

  /** The first invalid batch of a waiting consumer that asks for something. */
  lemma FinishDrainsBatch(run: seq<State>, k: nat, m: nat, j: nat, max: nat)
    requires IsRun(run) && k < m < |run| && FinishAt(run, k, j) && Enabled(run[m], Consume(j, SwapIn))
    requires max > 0 && Returned(run[m].readers[j], max, run[m].ring, run[m].Total()) == []
    ensures DrainedOrSkipped(run, k, m, j)
    ensures run[m].readers[j].skipped == 0 ==> Drained(run, k, m, j)
  {
    RunInv(run, m);
    EmptyBatch(run[m].readers[j], max, run[m].ring, run[m].history);
    FinishDrains(run, k, m, j);
  }

  // ---------------------------------------------------------------------------
  // The zero-copy reader
  // ---------------------------------------------------------------------------

  /** A waiting RecordReaderZC call that asked for something comes back empty
      for the first time. */
  ghost predicate ComesBackEmpty(r: Reader, a: RAct, r': Reader) {
    && r.zeroCopy && r.running && r'.zpc.Out? && !r'.Holding()
    && match a
       case Begin(_, wait) => wait
       case Recheck => r.zpc.Ready? && r.zpc.waited
       case Probe => r.zpc.Missed? && r.zpc.waited && r.zpc.max > 0
       case TakePtrAgain => true
       case _ => false
  }

  /** A call that waited and asked for something misses only because it was
      overrun, and one that tries again has skipped. */
  ghost predicate HonestMiss(r: Reader, ring: Ring<Record>, h: seq<Record>) {
    r.zeroCopy ==>
      && (r.zpc.Missed? && r.zpc.waited && r.zpc.max > 0 ==> |h| - r.cursor > ring.size > 0)
      && (r.zpc.Retry? ==> r.skipped > 0)
  }

  lemma HonestPush(r: Reader, ring: Ring<Record>, h: seq<Record>, p: seq<Record>)
    requires Represents(ring, h) && HonestMiss(r, ring, h)
    ensures HonestMiss(r, PushMany(ring, p), h + p)
  {
    assert |ring.Contents()| == ring.size;
  }

  lemma HonestStep(r: Reader, a: RAct, ring: Ring<Record>, h: seq<Record>)
    requires Represents(ring, h) && RInv(r, h) && HonestMiss(r, ring, h) && REnabled(r, a, ring, |h|)
    ensures HonestMiss(RNext(r, a, ring, |h|), ring, h)
  {
    assert |ring.Contents()| == ring.size;
  }

  lemma {:induction false} RunHonest(run: seq<State>, k: nat, j: nat)
    requires IsRun(run) && k < |run| && j < |run[k].readers|
    ensures HonestMiss(run[k].readers[j], run[k].ring, run[k].history)
  {
    if k > 0 {
      var a := StepAt(run, k - 1);
      RunHonest(run, k - 1, j);
      HonestAction(run[k - 1], a, j);
    }
  }

  lemma HonestAction(s: State, a: Action, j: nat)
    requires Inv(s) && Enabled(s, a) && j < |s.readers| && HonestMiss(s.readers[j], s.ring, s.history)
    ensures HonestMiss(Apply(s, a).readers[j], Apply(s, a).ring, Apply(s, a).history)
  {
    match a
    case Write(i, wa) => HonestPush(s.readers[j], s.ring, s.history, Pushed(s.writers[i], wa));
    case Consume(i, ra) => if i == j { HonestStep(s.readers[j], ra, s.ring, s.history); }
  }

  /** Unless the call skipped and was overrun once more, coming back empty means
      the target was reached. */
  lemma EmptyMeansFinished(r: Reader, a: RAct, ring: Ring<Record>, h: seq<Record>)
    requires Represents(ring, h) && RInv(r, h) && HonestMiss(r, ring, h) && REnabled(r, a, ring, |h|)
    requires ComesBackEmpty(r, a, RNext(r, a, ring, |h|)) && !a.TakePtrAgain?
    ensures r.FinishReached() && r.cursor == r.pinnedEnd
  {
  }

  /** finish() on a RecordReaderZC, next to any writers: the first empty batch of
      a waiting consumer that asks for at least one record comes after everything
      written before the call was delivered, or counted as skipped. The one
      exception is a call that was overrun twice. */
  lemma FinishDrainsZeroCopy(run: seq<State>, k: nat, m: nat, j: nat, a: RAct)
    requires IsRun(run) && k < m < |run| && FinishAt(run, k, j) && Enabled(run[m], Consume(j, a))
    requires ComesBackEmpty(run[m].readers[j], a, RNext(run[m].readers[j], a, run[m].ring, run[m].Total()))
    ensures !a.TakePtrAgain? ==> DrainedOrSkipped(run, k, m, j)
    ensures run[m].readers[j].skipped == 0 ==> Drained(run, k, m, j)
  {
    RunInv(run, m);
    RunHonest(run, m, j);
    if !a.TakePtrAgain? {
      EmptyMeansFinished(run[m].readers[j], a, run[m].ring, run[m].history);
      FinishedMeansDrained(run, k, m, j);
    }
  }

  /** The exception: the second try gives nothing exactly when the writer has
      passed the new cursor as well, or nothing was asked for. */
  lemma OverrunTwice(r: Reader, ring: Ring<Record>, h: seq<Record>)
    requires Represents(ring, h) && RInv(r, h) && r.zeroCopy && r.zpc.Retry? && r.cursor < |h|
    ensures ComesBackEmpty(r, TakePtrAgain, RNext(r, TakePtrAgain, ring, |h|))
      <==> |h| - r.cursor > ring.size || r.zpc.max == 0
  {
    assert |ring.Contents()| == ring.size;
  }

  /** With one blocking writer no reader ever skips, so both kinds drain whole. */
  lemma OneWriterNeverSkips(run: seq<State>, m: nat, j: nat)
    requires IsRun(run) && m < |run| && OneBlockingWriter(run[0]) && j < |run[m].readers|
    ensures run[m].readers[j].skipped == 0
  {
    RunTight(run, m);
    assert Tight(run[m].readers[j], run[m].ring, run[m].history);
  }

  lemma FinishDrainsOneWriter(run: seq<State>, k: nat, m: nat, j: nat)
    requires IsRun(run) && k < m < |run| && OneBlockingWriter(run[0])
    requires FinishAt(run, k, j) && j < |run[m].readers| && EndOfStream(run[m].readers[j])
    ensures Drained(run, k, m, j)
  {
    OneWriterNeverSkips(run, m, j);
    FinishDrains(run, k, m, j);
  }

  lemma FinishDrainsZeroCopyOneWriter(run: seq<State>, k: nat, m: nat, j: nat, a: RAct)
    requires IsRun(run) && k < m < |run| && OneBlockingWriter(run[0])
    requires FinishAt(run, k, j) && Enabled(run[m], Consume(j, a))
    requires ComesBackEmpty(run[m].readers[j], a, RNext(run[m].readers[j], a, run[m].ring, run[m].Total()))
    ensures Drained(run, k, m, j)
  {
    OneWriterNeverSkips(run, m, j);
    FinishDrainsZeroCopy(run, k, m, j, a);
  }

  /** Asking for nothing is the one way to miss what is there: a waiting call
      that found data gets no pointer exactly when its limit, the request cut to
      the batch capacity, is 0. */
  lemma EmptyRequest(r: Reader, ring: Ring<Record>, h: seq<Record>)
    requires Represents(ring, h) && RInv(r, h) && |h| - r.cursor <= ring.size
    requires r.zeroCopy && r.zpc.Get? && r.zpc.waited
    ensures RNext(r, TakePtr, ring, |h|).zpc.Missed? <==> r.zpc.max == 0
  {
  }
}
