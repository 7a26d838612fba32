/** Writers: nothing accepted is lost, reordered or duplicated, and a blocking
    writer never has more than one capacity of its own records unread. */
module PipelineWriters {
  import opened Rings
  import opened Chunks
  import opened RecBuffers
  import opened Pipeline

  ghost predicate WInv(w: Writer) {
    && |w.active| <= w.batchCap
    && (w.pc.Top? ==> w.pc.done <= |w.bg|)
    && (w.pc.Sized? ==> w.pc.done < |w.bg| && w.blockOnFull)
    && (w.pc.Checked? ==> w.pc.done + w.pc.chunk <= |w.bg| && w.blockOnFull)
    && (w.direct ==> w.active == [] && !w.hasWork && w.running && w.user.Running? && !w.pc.Exited?)
    && (!w.direct ==>
         && (w.pc.Top? || w.pc.Sized? || w.pc.Checked? || w.pc.Cleanup? ==> w.hasWork)
         && (w.hasWork ==> w.running)
         && (w.user.Flushing? || w.user.Closing? || w.user.Closed? ==> w.active == [])
         && (w.user.Closing? ==> !w.hasWork)
         && (w.running <==> !w.user.Closed?)
         && (w.pc.Exited? ==> !w.running))
  }

  /** What a step of a writer keeps: its invariant, the order and number of the
      records it accepted, and the kind of writer it is. */
  ghost predicate Kept(w: Writer, a: WAct, w': Writer) {
    && WInv(w')
    && Pushed(w, a) + w'.Unpushed() == w.Unpushed() + Accepted(w, a)
    && w'.committed == w.committed + Accepted(w, a)
    && w'.blockOnFull == w.blockOnFull
  }

  predicate IsOwner(a: WAct) {
    a.Commit? || a.SwapFull? || a.FlushSwap? || a.FlushWait? || a.FlushReturn? || a.Close? || a.DirectCommit?
  }

  lemma OwnerStep(w: Writer, a: WAct, total: nat, cap: nat, slowest: nat)
    requires WInv(w) && WEnabled(w, a, cap, slowest) && IsOwner(a)
    ensures Kept(w, a, WNext(w, a, total, cap, slowest))
  {
    if a.DirectCommit? { DirectStep(w, a.recs, total, cap, slowest); }
  }

  lemma DirectStep(w: Writer, recs: seq<Record>, total: nat, cap: nat, slowest: nat)
    requires WInv(w) && WEnabled(w, DirectCommit(recs), cap, slowest)
    ensures Kept(w, DirectCommit(recs), WNext(w, DirectCommit(recs), total, cap, slowest))
  {
    assert recs[0..] == recs;
  }

  lemma PushChunkStep(w: Writer, total: nat, cap: nat, slowest: nat)
    requires WInv(w) && WEnabled(w, PushChunk, cap, slowest)
    ensures Kept(w, PushChunk, WNext(w, PushChunk, total, cap, slowest))
  {
    var w' := WNext(w, PushChunk, total, cap, slowest);
    assert w.Pending() == Pushed(w, PushChunk) + w'.Pending();
  }

  lemma PushAllStep(w: Writer, total: nat, cap: nat, slowest: nat)
    requires WInv(w) && WEnabled(w, PushAll, cap, slowest)
    ensures Kept(w, PushAll, WNext(w, PushAll, total, cap, slowest))
  {
    assert w.Pending() == w.bg;
  }

  lemma PusherStep(w: Writer, a: WAct, total: nat, cap: nat, slowest: nat)
    requires WInv(w) && WEnabled(w, a, cap, slowest)
    requires !IsOwner(a) && !a.PushChunk? && !a.PushAll? && !a.Abort?
    ensures Kept(w, a, WNext(w, a, total, cap, slowest))
  {
  }

  lemma WriterStep(w: Writer, a: WAct, total: nat, cap: nat, slowest: nat)
    requires WInv(w) && WEnabled(w, a, cap, slowest)
    ensures Kept(w, a, WNext(w, a, total, cap, slowest))
  {
    if IsOwner(a) { OwnerStep(w, a, total, cap, slowest); }
    else if a.PushChunk? { PushChunkStep(w, total, cap, slowest); }
    else if a.PushAll? { PushAllStep(w, total, cap, slowest); }
    else {
      // Waiting for space means there is work, and then the writer is running.
      assert !a.Abort?;
      PusherStep(w, a, total, cap, slowest);
    }
  }

  /** A step that pushes nothing changes its writer only. */
  lemma StillStep(s: State, i: nat, a: WAct)
    requires Enabled(s, Write(i, a)) && Pushed(s.writers[i], a) == []
    ensures var w' := WNext(s.writers[i], a, s.Total(), s.Cap(), s.Slowest());
      Apply(s, Write(i, a)) == s.(writers := s.writers[i := w'])
  {
    PushManyIsFoldPhysically(s.ring, []);
    assert s.history + [] == s.history && s.origin + [] == s.origin;
    assert seq(0, _ => i as int) == [];
  }

  /** The records of writer i in a history, in order. */
  ghost function Proj(h: seq<Record>, o: seq<int>, i: int): seq<Record>
    requires |h| == |o|
  {
    if |h| == 0 then []
    else Proj(h[..|h| - 1], o[..|o| - 1], i) + if o[|o| - 1] == i then [h[|h| - 1]] else []
  }

  ghost function Same(i: int, n: nat): (o: seq<int>)
    ensures |o| == n && forall k | 0 <= k < n :: o[k] == i
  {
    seq(n, _ => i)
  }

  lemma {:induction false} ProjAppend(h: seq<Record>, o: seq<int>, p: seq<Record>, i: int, j: int)
    requires |h| == |o|
    ensures Proj(h + p, o + Same(i, |p|), j) == Proj(h, o, j) + if i == j then p else []
  {
    if |p| == 0 {
      assert h + p == h && o + Same(i, 0) == o;
    } else {
      var n := |p| - 1;
      ProjAppend(h, o, p[..n], i, j);
      assert (h + p)[..|h| + n] == h + p[..n];
      assert (o + Same(i, |p|))[..|o| + n] == o + Same(i, n);
    }
  }

  /** How many of the records from position `from` on are writer i's, counting
      those that were there before any writer. */
  ghost function Share(o: seq<int>, i: int, from: nat): nat {
    if |o| <= from then 0
    else Share(o[..|o| - 1], i, from) + if o[|o| - 1] == i || o[|o| - 1] == -1 then 1 else 0
  }

  lemma {:induction false} ShareAppend(o: seq<int>, i: int, j: int, n: nat, from: nat)
    requires from <= |o| && j != -1
    ensures Share(o + Same(j, n), i, from) == Share(o, i, from) + if i == j then n else 0
  {
    if n == 0 {
      assert o + Same(j, n) == o;
    } else {
      ShareAppend(o, i, j, n - 1, from);
      assert (o + Same(j, n))[..|o| + n - 1] == o + Same(j, n - 1);
    }
  }

  lemma {:induction false} ShareMonotone(o: seq<int>, i: int, from: nat, later: nat)
    requires from <= later
    ensures Share(o, i, later) <= Share(o, i, from)
  {
    if |o| > later { ShareMonotone(o[..|o| - 1], i, from, later); }
  }

  /** No record of i at or after t: the share is at most what lies before t. */
  lemma {:induction false} ShareBound(o: seq<int>, i: int, from: nat, t: nat)
    requires forall k | t <= k < |o| :: o[k] != i && o[k] != -1
    ensures Share(o, i, from) <= if from <= t then t - from else 0
  {
    if |o| > from {
      ShareBound(o[..|o| - 1], i, from, t);
      if |o| <= t { ShareSize(o[..|o| - 1], i, from); }
    }
  }

  lemma {:induction false} ShareSize(o: seq<int>, i: int, from: nat)
    ensures Share(o, i, from) <= if from <= |o| then |o| - from else 0
  {
    if |o| > from { ShareSize(o[..|o| - 1], i, from); }
  }

  /** What a blocking writer has unread in the ring, together with the chunk it
      has been promised space for, fits the ring. */
  ghost predicate Bounded(s: State, i: nat)
    requires i < |s.writers| && s.readers != []
  {
    var w := s.writers[i];
    w.blockOnFull ==>
      && Share(s.origin, i, s.Slowest()) + w.InFlight() <= s.Cap()
      && (w.pc.Sized? ==>
            && w.pc.total <= |s.origin|
            && forall k | w.pc.total <= k < |s.origin| :: s.origin[k] != i && s.origin[k] != -1)
  }

  ghost predicate WritersInv(s: State) {
    && s.ring.Valid() && s.readers != []
    && |s.history| == |s.origin| >= s.base
    && (forall k | 0 <= k < |s.origin| :: if k < s.base then s.origin[k] == -1 else 0 <= s.origin[k] < |s.writers|)
    && (forall j | 0 <= j < |s.readers| :: s.readers[j].cursor <= |s.history|)
    && (forall i | 0 <= i < |s.writers| :: WInv(s.writers[i]))
    && (forall i | 0 <= i < |s.writers| ::
          Proj(s.history, s.origin, i) + s.writers[i].Unpushed() == s.writers[i].committed)
    && (forall i | 0 <= i < |s.writers| :: Bounded(s, i))
  }

  lemma {:induction false} NoneOf(h: seq<Record>, o: seq<int>, i: nat)
    requires |h| == |o| && forall k | 0 <= k < |o| :: o[k] == -1
    ensures Proj(h, o, i) == []
  {
    if |h| > 0 { NoneOf(h[..|h| - 1], o[..|o| - 1], i); }
  }

  lemma WritersInit(s: State)
    requires Init(s)
    ensures WritersInv(s)
  {
    var slowest := s.Slowest();
    assert |s.ring.Contents()| == s.ring.size <= s.Cap();
    assert slowest >= |s.history| - s.ring.size;
    forall i | 0 <= i < |s.writers|
      ensures Proj(s.history, s.origin, i) + s.writers[i].Unpushed() == s.writers[i].committed && Bounded(s, i)
    {
      NoneOf(s.history, s.origin, i);
      ShareSize(s.origin, i, slowest);
    }
  }

  lemma WritersWrite(s: State, i: nat, a: WAct)
    requires WritersInv(s) && Enabled(s, Write(i, a))
    ensures WritersInv(Apply(s, Write(i, a)))
  {
    var t := Apply(s, Write(i, a));
    assert t.origin == s.origin + Same(i, |Pushed(s.writers[i], a)|);
    WriterStep(s.writers[i], a, s.Total(), s.Cap(), s.Slowest());
    forall j | 0 <= j < |t.writers|
      ensures Proj(t.history, t.origin, j) + t.writers[j].Unpushed() == t.writers[j].committed
      ensures Bounded(t, j)
    {
      ProjWrite(s, i, a, j);
      BoundedWrite(s, i, a, j);
    }
  }

  lemma ProjWrite(s: State, i: nat, a: WAct, j: nat)
    requires WritersInv(s) && Enabled(s, Write(i, a)) && j < |s.writers|
    ensures var t := Apply(s, Write(i, a));
      |t.history| == |t.origin| && Proj(t.history, t.origin, j) + t.writers[j].Unpushed() == t.writers[j].committed
  {
    var t := Apply(s, Write(i, a));
    var w, p := s.writers[i], Pushed(s.writers[i], a);
    assert t.origin == s.origin + Same(i, |p|);
    ProjAppend(s.history, s.origin, p, i, j);
    if j == i {
      WriterStep(w, a, s.Total(), s.Cap(), s.Slowest());
      Rebalance(Proj(s.history, s.origin, j), p, t.writers[j].Unpushed(), w.Unpushed(), Accepted(w, a), w.committed);
    } else {
      assert t.writers[j] == s.writers[j];
      assert Proj(t.history, t.origin, j) == Proj(s.history, s.origin, j);
    }
  }

  /** What moved into the ring left the writer. */
  lemma Rebalance(
      pushed: seq<Record>, p: seq<Record>, rest: seq<Record>,
      before: seq<Record>, accepted: seq<Record>, committed: seq<Record>)
    requires pushed + before == committed
    requires p + rest == before + accepted
    ensures (pushed + p) + rest == committed + accepted
  {
    assert (pushed + p) + rest == pushed + (p + rest);
    assert pushed + (before + accepted) == (pushed + before) + accepted;
  }

  lemma BoundedWrite(s: State, i: nat, a: WAct, j: nat)
    requires WritersInv(s) && Enabled(s, Write(i, a)) && j < |s.writers|
    ensures Bounded(Apply(s, Write(i, a)), j)
  {
    var t := Apply(s, Write(i, a));
    var w, p := s.writers[i], Pushed(s.writers[i], a);
    assert Bounded(s, j) && WInv(w);
    ShareAppend(s.origin, j, i, |p|, s.Slowest());
    assert t.origin == s.origin + Same(i, |p|);
    if j == i && a.Check? && w.blockOnFull {
      ShareBound(s.origin, i, s.Slowest(), w.pc.total);
    }
  }

  lemma MinCursorGrows(rs: seq<Reader>, j: nat, r: Reader)
    requires j < |rs| && rs[j].cursor <= r.cursor
    ensures MinCursor(rs) <= MinCursor(rs[j := r])
  {
  }

  /** A reader step can only help the writers: it moves cursors forward. */
  lemma WritersConsume(s: State, j: nat, r: Reader)
    requires WritersInv(s) && j < |s.readers| && s.readers[j].cursor <= r.cursor <= |s.history|
    ensures WritersInv(s.(readers := s.readers[j := r]))
  {
    var t := s.(readers := s.readers[j := r]);
    MinCursorGrows(s.readers, j, r);
    forall i | 0 <= i < |t.writers| ensures Bounded(t, i) {
      assert Bounded(s, i);
      ShareMonotone(s.origin, i, s.Slowest(), t.Slowest());
    }
  }
}
