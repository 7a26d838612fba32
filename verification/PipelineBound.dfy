/** The sharp form of backpressure: several blocking writers with batches of at
    most b records can together be ahead of the slowest reader by one capacity
    and one batch for each writer but one. Beyond the latest look that found
    space, no writer has more than one chunk. */
module PipelineBounds {
  import opened Helpers
  import opened Rings
  import opened Chunks
  import opened RecBuffers
  import opened Pipeline
  import opened PipelineWriters
  import opened PipelineReaders
  import opened PipelineTheorems

  /** A blocking writer with batches of at most b records. */
  ghost predicate Batched(w: Writer, b: nat) {
    w.blockOnFull && w.batchCap <= b && |w.bg| <= b
  }

  /** What writer i pushed from position `from` on, and is about to push. */
  ghost function Beyond(s: State, i: nat, from: nat): nat
    requires i < |s.writers|
  {
    Share(s.origin, i, from) + s.writers[i].InFlight()
  }

  /** `from` is where writer l looked when it last found space, and no later look
      of another found any: writer l stays within a capacity of the slowest
      reader, and every writer within one chunk of `from`. */
  ghost predicate Sharp(s: State, b: nat, from: nat, l: nat) {
    && s.readers != [] && s.base <= from <= |s.history|
    && l < |s.writers| && from + Beyond(s, l, from) <= s.Slowest() + s.Cap()
    && (s.writers[l].pc.Sized? ==> from <= s.writers[l].pc.total)
    && forall i | 0 <= i < |s.writers| :: Batched(s.writers[i], b) && Beyond(s, i, from) <= Min(b, s.Cap())
  }

  /** Blocking writers with batches of at most b records, at the start of a run. */
  ghost predicate BlockingUpTo(s: State, b: nat) {
    s.writers != [] && forall i | 0 <= i < |s.writers| :: s.writers[i].blockOnFull && s.writers[i].batchCap <= b
  }

  lemma SharpInit(s: State, b: nat)
    requires Init(s) && BlockingUpTo(s, b)
    ensures Sharp(s, b, |s.history|, 0)
  {
    InvInit(s);
    assert |s.ring.Contents()| == s.ring.size;
    forall i | 0 <= i < |s.writers| ensures Batched(s.writers[i], b) && Beyond(s, i, |s.history|) == 0 {
      assert FreshWriter(s.writers[i]);
    }
  }

  lemma BatchedStep(w: Writer, a: WAct, total: nat, cap: nat, slowest: nat, b: nat)
    requires WInv(w) && Batched(w, b) && WEnabled(w, a, cap, slowest)
    ensures Batched(WNext(w, a, total, cap, slowest), b)
  {
  }

  /** A look that found space: the chunk is no more than that, and no record of
      the writer came after it. */
  lemma FoundSpace(s: State, i: nat, space: nat)
    requires Enabled(s, Write(i, Check(space))) && s.writers[i].blockOnFull
    requires WInv(s.writers[i]) && Bounded(s, i) && |s.history| == |s.origin|
    ensures var w := s.writers[i];
      var chunk := WNext(w, Check(space), s.Total(), s.Cap(), s.Slowest()).InFlight();
      && chunk <= |w.bg| && chunk <= s.Cap() && w.pc.total + chunk <= s.Slowest() + s.Cap()
      && w.pc.total <= |s.history|
    ensures forall from | s.writers[i].pc.total <= from :: Share(s.origin, i, from) == 0
  {
    ChunkFits(s.writers[i], space, s.Total(), s.Cap(), s.Slowest());
    forall from | s.writers[i].pc.total <= from ensures Share(s.origin, i, from) == 0 {
      ShareBound(s.origin, i, from, s.writers[i].pc.total);
    }
  }

  lemma ChunkFits(w: Writer, space: nat, total: nat, cap: nat, slowest: nat)
    requires WInv(w) && WEnabled(w, Check(space), cap, slowest)
    ensures var chunk := WNext(w, Check(space), total, cap, slowest).InFlight();
      chunk <= |w.bg| && chunk <= cap && w.pc.total + chunk <= slowest + cap
  {
  }

  /** What a step of writer i leaves beyond a position, if it is not one that
      finds space. */
  lemma BeyondStep(s: State, i: nat, a: WAct, j: nat, from: nat)
    requires Inv(s) && Enabled(s, Write(i, a)) && j < |s.writers| && from <= |s.history|
    requires s.writers[i].blockOnFull && (a.Check? ==> j != i)
    ensures Beyond(Apply(s, Write(i, a)), j, from) <= Beyond(s, j, from)
  {
    var t, p := Apply(s, Write(i, a)), Pushed(s.writers[i], a);
    assert t.origin == s.origin + Same(i, |p|);
    ShareAppend(s.origin, j, i, |p|, from);
    PushedIsPromised(s.writers[i], a, s.Cap(), s.Slowest());
    if j == i { NothingMorePromised(s.writers[i], a, s.Total(), s.Cap(), s.Slowest()); }
  }

  lemma NothingMorePromised(w: Writer, a: WAct, total: nat, cap: nat, slowest: nat)
    requires WInv(w) && WEnabled(w, a, cap, slowest) && !a.Check? && w.blockOnFull
    ensures |Pushed(w, a)| + WNext(w, a, total, cap, slowest).InFlight() <= w.InFlight()
  {
  }

  /** A look that found space after `from` becomes the latest one. */
  lemma SharpLater(s: State, i: nat, space: nat, b: nat, from: nat, l: nat)
    requires Enabled(s, Write(i, Check(space))) && from <= s.writers[i].pc.total && Sharp(s, b, from, l) && Inv(s)
    ensures Sharp(Apply(s, Write(i, Check(space))), b, s.writers[i].pc.total, i)
  {
    assert WInv(s.writers[i]) && Bounded(s, i) && Batched(s.writers[i], b);
    FoundSpace(s, i, space);
    Latest(s, i, WNext(s.writers[i], Check(space), s.Total(), s.Cap(), s.Slowest()), b, from, s.writers[i].pc.total, l);
    StillStep(s, i, Check(space));
  }

  lemma Latest(s: State, i: nat, w: Writer, b: nat, from: nat, at: nat, l: nat)
    requires Sharp(s, b, from, l) && i < |s.writers| && Batched(w, b) && !w.pc.Sized? && from <= at <= |s.history|
    requires Share(s.origin, i, at) == 0
    requires w.InFlight() <= Min(b, s.Cap()) && at + w.InFlight() <= s.Slowest() + s.Cap()
    ensures Sharp(s.(writers := s.writers[i := w]), b, at, i)
  {
    var t := s.(writers := s.writers[i := w]);
    forall j | 0 <= j < |t.writers| ensures Batched(t.writers[j], b) && Beyond(t, j, at) <= Min(b, s.Cap()) {
      assert Batched(s.writers[j], b) && Beyond(s, j, from) <= Min(b, s.Cap());
      if j != i { BeyondLater(s, j, b, from, at); }
    }
  }

  lemma BeyondLater(s: State, j: nat, b: nat, from: nat, at: nat)
    requires s.readers != [] && j < |s.writers| && from <= at && Beyond(s, j, from) <= Min(b, s.Cap())
    ensures Beyond(s, j, at) <= Min(b, s.Cap())
  {
    ShareMonotone(s.origin, j, from, at);
  }

  /** One that looked before does not. */
  lemma SharpEarlier(s: State, i: nat, space: nat, b: nat, from: nat, l: nat)
    requires Enabled(s, Write(i, Check(space))) && s.writers[i].pc.total < from && Sharp(s, b, from, l) && Inv(s)
    ensures Sharp(Apply(s, Write(i, Check(space))), b, from, l)
  {
    assert WInv(s.writers[i]) && Bounded(s, i);
    SharpBefore(s, i, space, b, from, l);
  }

  lemma SharpBefore(s: State, i: nat, space: nat, b: nat, from: nat, l: nat)
    requires Enabled(s, Write(i, Check(space))) && WInv(s.writers[i]) && Bounded(s, i) && |s.history| == |s.origin|
    requires Sharp(s, b, from, l) && s.writers[i].pc.total < from
    ensures Sharp(Apply(s, Write(i, Check(space))), b, from, l)
  {
    assert Batched(s.writers[i], b);
    FoundSpace(s, i, space);
    Promised(s, i, WNext(s.writers[i], Check(space), s.Total(), s.Cap(), s.Slowest()), b, from, l);
    StillStep(s, i, Check(space));
  }

  lemma Promised(s: State, i: nat, w: Writer, b: nat, from: nat, l: nat)
    requires Sharp(s, b, from, l) && i < |s.writers| && i != l && Batched(w, b)
    requires Share(s.origin, i, from) == 0 && w.InFlight() <= Min(b, s.Cap())
    ensures Sharp(s.(writers := s.writers[i := w]), b, from, l)
  {
    var t := s.(writers := s.writers[i := w]);
    forall j | 0 <= j < |t.writers| ensures Batched(t.writers[j], b) && Beyond(t, j, from) <= Min(b, s.Cap()) {
      assert Batched(s.writers[j], b) && Beyond(s, j, from) <= Min(b, s.Cap());
    }
  }

  lemma SharpWrite(s: State, i: nat, a: WAct, b: nat, from: nat, l: nat)
    requires Inv(s) && Sharp(s, b, from, l) && Enabled(s, Write(i, a)) && !a.Check?
    ensures Sharp(Apply(s, Write(i, a)), b, from, l)
  {
    var t := Apply(s, Write(i, a));
    forall j | 0 <= j < |t.writers| ensures Batched(t.writers[j], b) && Beyond(t, j, from) <= Beyond(s, j, from) {
      assert Batched(s.writers[j], b) && WInv(s.writers[j]);
      BeyondStep(s, i, a, j, from);
      if j == i { BatchedStep(s.writers[i], a, s.Total(), s.Cap(), s.Slowest(), b); }
    }
  }

  lemma SharpConsume(s: State, j: nat, a: RAct, b: nat, from: nat, l: nat)
    requires Inv(s) && Sharp(s, b, from, l) && Enabled(s, Consume(j, a))
    ensures Sharp(Apply(s, Consume(j, a)), b, from, l)
  {
    var t := Apply(s, Consume(j, a));
    ReaderMoves(s.readers[j], a, s.ring, s.history);
    MinCursorGrows(s.readers, j, t.readers[j]);
    forall i | 0 <= i < |t.writers| ensures Beyond(t, i, from) == Beyond(s, i, from) {
    }
  }

  lemma SharpStep(s: State, a: Action, b: nat, from: nat, l: nat) returns (from': nat, l': nat)
    requires Inv(s) && Sharp(s, b, from, l) && Enabled(s, a)
    ensures Sharp(Apply(s, a), b, from', l')
  {
    from', l' := from, l;
    if a.Consume? {
      SharpConsume(s, a.r, a.ra, b, from, l);
    } else if !a.wa.Check? {
      SharpWrite(s, a.w, a.wa, b, from, l);
    } else if s.writers[a.w].pc.total < from {
      SharpEarlier(s, a.w, a.wa.space, b, from, l);
    } else {
      SharpLater(s, a.w, a.wa.space, b, from, l);
      from', l' := s.writers[a.w].pc.total, a.w;
    }
  }

  lemma {:induction false} RunSharp(run: seq<State>, k: nat, b: nat) returns (from: nat, l: nat)
    requires IsRun(run) && k < |run| && BlockingUpTo(run[0], b)
    ensures Sharp(run[k], b, from, l)
  {
    if k == 0 {
      SharpInit(run[0], b);
      from, l := |run[0].history|, 0;
    } else {
      from, l := RunSharp(run, k - 1, b);
      from, l := SharpNext(run, k - 1, b, from, l);
    }
  }

  lemma SharpNext(run: seq<State>, k: nat, b: nat, from: nat, l: nat) returns (from': nat, l': nat)
    requires IsRun(run) && k + 1 < |run| && Sharp(run[k], b, from, l)
    ensures Sharp(run[k + 1], b, from', l')
  {
    var a := StepAt(run, k);
    from', l' := SharpStep(run[k], a, b, from, l);
  }

  /** The share of one writer more. */
  lemma OneMoreShare(o: seq<int>, ws: seq<Writer>, n: nat, from: nat)
    requires n < |ws|
    ensures ShareOf(o, n + 1, from) + AllInFlight(ws[..n + 1]) <=
      (if n == 0 then 0 else ShareOf(o, n, from) + AllInFlight(ws[..n])) + Share(o, n, from) + ws[n].InFlight()
  {
    assert ws[..n + 1][..n] == ws[..n];
    ShareOfMore(o, n, from);
    if n == 0 { assert ws[..0] == []; }
  }

  /** All shares together, one of them as it is. */
  lemma {:induction false} SharpSum(o: seq<int>, ws: seq<Writer>, n: nat, from: nat, m: nat, l: nat)
    requires 0 < n <= |ws| && l < |ws| && forall i | 0 <= i < n :: Share(o, i, from) + ws[i].InFlight() <= m
    ensures ShareOf(o, n, from) + AllInFlight(ws[..n]) <=
      if l < n then Share(o, l, from) + ws[l].InFlight() + Bytes(n - 1, m) else Bytes(n, m)
  {
    OneMoreShare(o, ws, n - 1, from);
    if n > 1 {
      SharpSum(o, ws, n - 1, from, m, l);
      BytesOrder(n - 2, n - 1, m);
    }
  }

  lemma SharpTotal(s: State, b: nat, from: nat, l: nat)
    requires ShareOf(s.origin, |s.writers|, from) == s.Total() - from && Sharp(s, b, from, l)
    ensures s.Total() - s.Slowest() + AllInFlight(s.writers) <= s.Cap() + Bytes(|s.writers| - 1, Min(b, s.Cap()))
  {
    var n, m := |s.writers|, Min(b, s.Cap());
    forall i | 0 <= i < n ensures Share(s.origin, i, from) + s.writers[i].InFlight() <= m {
      assert Beyond(s, i, from) <= m;
    }
    SharpSum(s.origin, s.writers, n, from, m, l);
    assert s.writers[..n] == s.writers;
    assert from + Beyond(s, l, from) <= s.Slowest() + s.Cap();
  }

  /** With W blocking writers whose batches are at most b, unread records and
      promised space together stay within one capacity and W - 1 chunks of at
      most b. */
  lemma SharpBackpressure(run: seq<State>, k: nat, b: nat)
    requires IsRun(run) && k < |run| && BlockingUpTo(run[0], b)
    ensures var s := run[k];
      && s.readers != [] && s.Slowest() <= s.Total() && |s.writers| == |run[0].writers|
      && s.Total() - s.Slowest() + AllInFlight(s.writers) <= s.Cap() + (|s.writers| - 1) * Min(b, s.Cap())
  {
    RunExtends(run, 0, k);
    SharpState(run, k, b);
    BytesIsMul(|run[k].writers| - 1, Min(b, run[k].Cap()));
  }

  lemma RunShares(run: seq<State>, k: nat, from: nat)
    requires IsRun(run) && k < |run| && from <= |run[k].history|
    ensures var s := run[k];
      s.readers != [] && s.Slowest() <= s.Total() && ShareOf(s.origin, |s.writers|, from) == s.Total() - from
  {
    RunInv(run, k);
    ShareOfAll(run[k].origin, |run[k].writers|, from);
  }

  lemma SharpState(run: seq<State>, k: nat, b: nat)
    requires IsRun(run) && k < |run| && BlockingUpTo(run[0], b)
    ensures var s := run[k];
      && s.readers != [] && s.writers != [] && s.Slowest() <= s.Total()
      && s.Total() - s.Slowest() + AllInFlight(s.writers) <= s.Cap() + Bytes(|s.writers| - 1, Min(b, s.Cap()))
  {
    var from, l := RunSharp(run, k, b);
    RunShares(run, k, from);
    SharpTotal(run[k], b, from, l);
  }
}
