/** What holds in every reachable state of every interleaving. */
module PipelineTheorems {
  import opened Rings
  import opened Chunks
  import opened RecBuffers
  import opened Pipeline
  import opened PipelineWriters
  import opened PipelineReaders

  ghost predicate Inv(s: State) {
    && WritersInv(s)
    && Represents(s.ring, s.history)
    && forall j | 0 <= j < |s.readers| :: RInv(s.readers[j], s.history)
  }

  lemma InvInit(s: State)
    requires Init(s)
    ensures Inv(s)
  {
    WritersInit(s);
    forall j | 0 <= j < |s.readers| ensures RInv(s.readers[j], s.history) {
      ReaderInit(s.readers[j], s.ring, s.history);
    }
  }

  lemma InvWrite(s: State, i: nat, a: WAct)
    requires Inv(s) && Enabled(s, Write(i, a))
    ensures Inv(Apply(s, Write(i, a)))
  {
    var t, p := Apply(s, Write(i, a)), Pushed(s.writers[i], a);
    WritersWrite(s, i, a);
    PushKeepsHistory(s.ring, s.history, p);
    forall j | 0 <= j < |t.readers| ensures RInv(t.readers[j], t.history) {
      ReaderPush(s.readers[j], s.history, p);
    }
  }

  lemma InvConsume(s: State, j: nat, a: RAct)
    requires Inv(s) && Enabled(s, Consume(j, a))
    ensures Inv(Apply(s, Consume(j, a)))
  {
    var r := NextReader(s, j, a);
    InvReplaced(s, j, r);
  }

  lemma NextReader(s: State, j: nat, a: RAct) returns (r: Reader)
    requires Represents(s.ring, s.history) && Enabled(s, Consume(j, a)) && RInv(s.readers[j], s.history)
    ensures Apply(s, Consume(j, a)) == s.(readers := s.readers[j := r])
    ensures RInv(r, s.history) && s.readers[j].cursor <= r.cursor
  {
    ReaderStep(s.readers[j], a, s.ring, s.history);
    r := RNext(s.readers[j], a, s.ring, s.Total());
  }

  lemma InvReplaced(s: State, j: nat, r: Reader)
    requires Inv(s) && j < |s.readers| && RInv(r, s.history) && s.readers[j].cursor <= r.cursor
    ensures Inv(s.(readers := s.readers[j := r]))
  {
    WritersConsume(s, j, r);
    OneReplaced(s.readers, j, r, s.history);
  }

  lemma OneReplaced(rs: seq<Reader>, j: nat, r: Reader, h: seq<Record>)
    requires j < |rs| && RInv(r, h) && forall i | 0 <= i < |rs| :: RInv(rs[i], h)
    ensures var rs' := rs[j := r]; forall i | 0 <= i < |rs'| :: RInv(rs'[i], h)
  {
  }

  lemma InvStep(s: State, a: Action)
    requires Inv(s) && Enabled(s, a)
    ensures Inv(Apply(s, a))
  {
    match a
    case Write(i, wa) => InvWrite(s, i, wa);
    case Consume(j, ra) => InvConsume(s, j, ra);
  }

  ghost predicate ReaderExtends(r: Reader, r': Reader) {
    && r.start == r'.start && r.zeroCopy == r'.zeroCopy
    && r.cursor <= r'.cursor && r.delivered <= r'.delivered
    && (r.finishing ==> r'.finishing && r.finishTarget <= r'.finishTarget)
  }

  /** What only grows from one state to a later one. */
  ghost predicate Extends(s: State, t: State) {
    && s.history <= t.history
    && |s.writers| == |t.writers| && |s.readers| == |t.readers|
    && |s.ring.mem| == |t.ring.mem| && s.base == t.base
    && forall j | 0 <= j < |s.readers| :: ReaderExtends(s.readers[j], t.readers[j])
  }

  lemma ExtendsStep(s: State, a: Action)
    requires Inv(s) && Enabled(s, a)
    ensures Extends(s, Apply(s, a))
  {
    if a.Consume? {
      ReaderExtendsStep(s.readers[a.r], a.ra, s.ring, s.history);
    }
  }

  lemma ReaderExtendsStep(r: Reader, a: RAct, ring: Ring<Record>, h: seq<Record>)
    requires Represents(ring, h) && RInv(r, h) && REnabled(r, a, ring, |h|)
    ensures ReaderExtends(r, RNext(r, a, ring, |h|))
  {
    ReaderMoves(r, a, ring, h);
  }

  lemma {:induction false} RunInv(run: seq<State>, k: nat)
    requires IsRun(run) && k < |run|
    ensures Inv(run[k])
  {
    if k == 0 {
      InvInit(run[0]);
    } else {
      RunInv(run, k - 1);
      assert StepsAt(run, k - 1);
      var a :| Enabled(run[k - 1], a) && run[k] == Apply(run[k - 1], a);
      InvStep(run[k - 1], a);
    }
  }

  lemma StepAt(run: seq<State>, k: nat) returns (a: Action)
    requires IsRun(run) && k + 1 < |run|
    ensures Inv(run[k]) && Enabled(run[k], a) && run[k + 1] == Apply(run[k], a)
  {
    RunInv(run, k);
    assert StepsAt(run, k);
    a :| Enabled(run[k], a) && run[k + 1] == Apply(run[k], a);
  }

  lemma ExtendsTrans(s: State, t: State, u: State)
    requires Extends(s, t) && Extends(t, u)
    ensures Extends(s, u)
  {
    forall j | 0 <= j < |s.readers| ensures ReaderExtends(s.readers[j], u.readers[j]) {
      assert ReaderExtends(s.readers[j], t.readers[j]) && ReaderExtends(t.readers[j], u.readers[j]);
    }
  }

  /** Over a whole run history only grows, and no cursor ever goes back. */
  lemma {:induction false} RunExtends(run: seq<State>, k: nat, m: nat)
    requires IsRun(run) && k <= m < |run|
    ensures Extends(run[k], run[m])
  {
    if k < m {
      RunExtends(run, k, m - 1);
      var a := StepAt(run, m - 1);
      ExtendsStep(run[m - 1], a);
      ExtendsTrans(run[k], run[m - 1], run[m]);
    }
  }

  // ---------------------------------------------------------------------------
  // Any number of writers, blocking or not
  // ---------------------------------------------------------------------------

  /** History is an interleaving of the writers: the records of each writer, in
      order, are the first ones it committed, and the rest is still with it. */
  lemma MultiProducer(run: seq<State>, k: nat, i: nat)
    requires IsRun(run) && k < |run| && i < |run[k].writers|
    ensures var s, w := run[k], run[k].writers[i];
      && |s.history| == |s.origin|
      && Proj(s.history, s.origin, i) + w.Unpushed() == w.committed
      && Proj(s.history, s.origin, i) <= w.committed
      && forall p | s.base <= p < |s.history| :: 0 <= s.origin[p] < |s.writers|
  {
    RunInv(run, k);
  }

  /** When flush returns, and after the destructor, nothing is left behind. */
  lemma FlushDelivers(run: seq<State>, k: nat, i: nat)
    requires IsRun(run) && k < |run| && i < |run[k].writers|
    requires var s := run[k]; var w := s.writers[i];
      !w.direct && (Enabled(s, Write(i, FlushReturn)) || w.user.Closed?)
    ensures |run[k].history| == |run[k].origin|
    ensures Proj(run[k].history, run[k].origin, i) == run[k].writers[i].committed
  {
    RunInv(run, k);
    var s, w := run[k], run[k].writers[i];
    assert WInv(w) && w.Unpushed() == [];
    assert Proj(s.history, s.origin, i) + [] == Proj(s.history, s.origin, i);
  }

  /** A RecordWriterZC needs no flush: between its commits nothing is left. */
  lemma CommitDelivers(run: seq<State>, k: nat, i: nat)
    requires IsRun(run) && k < |run| && i < |run[k].writers|
    requires run[k].writers[i].direct && run[k].writers[i].pc.Idle?
    ensures |run[k].history| == |run[k].origin|
    ensures Proj(run[k].history, run[k].origin, i) == run[k].writers[i].committed
  {
    RunInv(run, k);
    var s, w := run[k], run[k].writers[i];
    assert WInv(w) && w.Unpushed() == [];
    assert Proj(s.history, s.origin, i) + [] == Proj(s.history, s.origin, i);
  }

  /** The way out of the space wait that would drop the rest of a block is
      never taken. */
  lemma NeverAborts(run: seq<State>, k: nat, i: nat)
    requires IsRun(run) && k < |run| && i < |run[k].writers|
    ensures !Enabled(run[k], Write(i, Abort))
  {
    RunInv(run, k);
    WaitMeansRunning(run[k].writers[i], run[k].Cap());
    assert Inv(run[k]) ==> WInv(run[k].writers[i]);
  }

  lemma WaitMeansRunning(w: Writer, cap: nat)
    requires WInv(w)
    ensures forall slowest: nat :: !WEnabled(w, Abort, cap, slowest)
  {
  }

  // ---------------------------------------------------------------------------
  // Any reader, next to any writers
  // ---------------------------------------------------------------------------

  /** What a reader has taken is a gathering of whole, non-empty history slices
      in increasing order; with the skipped ones they account for every
      position up to the frontier. */
  lemma ReaderAccounts(run: seq<State>, k: nat, j: nat)
    requires IsRun(run) && k < |run| && j < |run[k].readers|
    ensures var r, h := run[k].readers[j], run[k].history;
      && r.delivered + r.Held() == Gather(h, r.log)
      && Ordered(r.start, r.log, r.Frontier())
      && r.start <= r.cursor <= r.Frontier() <= |h|
      && r.Frontier() - r.start == |r.delivered| + |r.Held()| + r.skipped
  {
    RunInv(run, k);
    var r, h := run[k].readers[j], run[k].history;
    assert RInv(r, h);
    GatherSize(h, r.start, r.log, r.Frontier());
  }

  /** The range assertion of peek_many_at holds at every read, although pushes
      may land between the snapshot and the copy. */
  lemma ReadsStayInRange(run: seq<State>, k: nat, j: nat)
    requires IsRun(run) && k < |run| && Enabled(run[k], Consume(j, Read))
    ensures var s := run[k]; ReadInRange(s.ring, s.Total(), s.readers[j].pc.at, s.readers[j].pc.count)
  {
    RunInv(run, k);
    ReaderStep(run[k].readers[j], Read, run[k].ring, run[k].history);
  }

  // ---------------------------------------------------------------------------
  // Backpressure
  // ---------------------------------------------------------------------------

  ghost function AllInFlight(ws: seq<Writer>): nat {
    if |ws| == 0 then 0 else AllInFlight(ws[..|ws| - 1]) + ws[|ws| - 1].InFlight()
  }

  /** Positions from `from` on written by one of the first n writers, or before
      all of them. */
  ghost function ShareOf(o: seq<int>, n: nat, from: nat): nat {
    if |o| <= from then 0
    else ShareOf(o[..|o| - 1], n, from) + if -1 <= o[|o| - 1] < n then 1 else 0
  }

  lemma {:induction false} ShareOfMore(o: seq<int>, n: nat, from: nat)
    ensures ShareOf(o, n + 1, from) <= ShareOf(o, n, from) + Share(o, n, from)
    ensures ShareOf(o, 1, from) == Share(o, 0, from)
  {
    if |o| > from { ShareOfMore(o[..|o| - 1], n, from); }
  }

  lemma {:induction false} ShareOfAll(o: seq<int>, n: nat, from: nat)
    requires from <= |o| && forall k | 0 <= k < |o| :: -1 <= o[k] < n
    ensures ShareOf(o, n, from) == |o| - from
  {
    if |o| > from { ShareOfAll(o[..|o| - 1], n, from); }
  }

  lemma {:induction false} SharesAddUp(o: seq<int>, ws: seq<Writer>, n: nat, from: nat, cap: nat)
    requires 0 < n <= |ws|
    requires forall i | 0 <= i < n :: Share(o, i, from) + ws[i].InFlight() <= cap
    ensures ShareOf(o, n, from) + AllInFlight(ws[..n]) <= Bytes(n, cap)
  {
    assert ws[..n][..n - 1] == ws[..n - 1];
    ShareOfMore(o, n - 1, from);
    if n > 1 { SharesAddUp(o, ws, n - 1, from, cap); }
  }

  /** Each blocking writer, whatever the others do, keeps what it has unread in
      the ring plus what it is about to push within one capacity. */
  lemma OwnShare(run: seq<State>, k: nat, i: nat)
    requires IsRun(run) && k < |run| && i < |run[k].writers| && run[k].writers[i].blockOnFull
    ensures var s := run[k];
      s.readers != [] && Share(s.origin, i, s.Slowest()) + s.writers[i].InFlight() <= s.Cap()
  {
    RunInv(run, k);
    assert Bounded(run[k], i);
  }

  /** With W blocking writers, unread records and promised space together stay
      within W capacities. */
  lemma Backpressure(run: seq<State>, k: nat)
    requires IsRun(run) && k < |run| && run[k].writers != []
    requires forall i | 0 <= i < |run[k].writers| :: run[k].writers[i].blockOnFull
    ensures var s := run[k];
      && s.readers != [] && s.Slowest() <= s.Total()
      && s.Total() - s.Slowest() + AllInFlight(s.writers) <= |s.writers| * s.Cap()
  {
    RunInv(run, k);
    var s := run[k];
    forall i | 0 <= i < |s.writers| ensures Share(s.origin, i, s.Slowest()) + s.writers[i].InFlight() <= s.Cap() {
      assert Bounded(s, i);
    }
    SharesAddUp(s.origin, s.writers, |s.writers|, s.Slowest(), s.Cap());
    BytesIsMul(|s.writers|, s.Cap());
    ShareOfAll(s.origin, |s.writers|, s.Slowest());
    assert s.writers[..|s.writers|] == s.writers;
  }

  // ---------------------------------------------------------------------------
  // One blocking writer
  // ---------------------------------------------------------------------------

  ghost predicate OneBlockingWriter(s: State) {
    |s.writers| == 1 && s.writers[0].blockOnFull
  }

  lemma {:induction false} OnlyShare(o: seq<int>, from: nat)
    requires from <= |o| && forall k | 0 <= k < |o| :: o[k] == -1 || o[k] == 0
    ensures Share(o, 0, from) == |o| - from
  {
    if |o| > from { OnlyShare(o[..|o| - 1], from); }
  }

  /** Everything unread is still in the ring, with room for the promised chunk. */
  lemma UnreadFits(s: State, j: nat)
    requires Inv(s) && OneBlockingWriter(s) && j < |s.readers|
    ensures s.Total() - s.readers[j].cursor + s.writers[0].InFlight() <= s.Cap()
    ensures s.Total() - s.readers[j].cursor <= s.ring.size
  {
    assert Bounded(s, 0);
    OnlyShare(s.origin, s.Slowest());
    assert |s.ring.Contents()| == s.ring.size;
  }

  /** A reader that never skipped, whose pinned range lies where it was. */
  ghost predicate Tight(r: Reader, ring: Ring<Record>, h: seq<Record>)
    requires Represents(ring, h)
  {
    && r.skipped == 0
    && !r.zpc.Skip? && !r.zpc.Retry?
    && (r.zpc.Missed? && r.zpc.waited ==> r.zpc.max == 0)
    && (!r.zeroCopy && (r.pc.Fetch? || r.pc.Copied?) ==> r.pc.at == r.cursor)
    && (r.Holding() ==>
         && |h| - r.cursor <= ring.size <= |h| && r.pinnedEnd <= |h|
         && r.ptr + (r.pinnedEnd - r.cursor) <= |ring.mem|
         && forall i | r.cursor <= i < r.pinnedEnd :: SlotOf(ring, |h|, i) == r.ptr + (i - r.cursor))
  }

  lemma TightPush(r: Reader, ring: Ring<Record>, h: seq<Record>, p: seq<Record>)
    requires Represents(ring, h) && RInv(r, h) && Tight(r, ring, h)
    requires |h| + |p| - r.cursor <= |ring.mem|
    ensures Represents(PushMany(ring, p), h + p) && Tight(r, PushMany(ring, p), h + p)
  {
    PushKeepsHistory(ring, h, p);
    var ring' := PushMany(ring, p);
    assert |ring'.Contents()| == ring'.size;
    if r.Holding() {
      forall i | r.cursor <= i < r.pinnedEnd ensures SlotOf(ring', |h + p|, i) == r.ptr + (i - r.cursor) {
        PushKeepsUnread(ring, |h|, p, i);
        assert SlotOf(ring, |h|, i) == r.ptr + (i - r.cursor);
      }
    }
  }

  lemma TightCopying(r: Reader, a: RAct, ring: Ring<Record>, h: seq<Record>)
    requires Represents(ring, h) && RInv(r, h) && Tight(r, ring, h) && !r.zeroCopy
    requires |h| - r.cursor <= ring.size && REnabled(r, a, ring, |h|)
    ensures Tight(RNext(r, a, ring, |h|), ring, h)
  {
  }

  lemma TightTakes(r: Reader, a: RAct, ring: Ring<Record>, h: seq<Record>)
    requires Represents(ring, h) && RInv(r, h) && Tight(r, ring, h) && r.zeroCopy && (a.TakePtr? || a.TakePtrAgain?)
    requires |h| - r.cursor <= ring.size <= |h| && REnabled(r, a, ring, |h|)
    ensures Tight(RNext(r, a, ring, |h|), ring, h)
  {
  }

  lemma TightMoves(r: Reader, a: RAct, ring: Ring<Record>, h: seq<Record>)
    requires Represents(ring, h) && RInv(r, h) && Tight(r, ring, h) && r.zeroCopy && !a.TakePtr? && !a.TakePtrAgain?
    requires |h| - r.cursor <= ring.size <= |h| && REnabled(r, a, ring, |h|)
    ensures Tight(RNext(r, a, ring, |h|), ring, h)
  {
  }

  lemma TightStep(r: Reader, a: RAct, ring: Ring<Record>, h: seq<Record>)
    requires Represents(ring, h) && RInv(r, h) && Tight(r, ring, h)
    requires |h| - r.cursor <= ring.size && REnabled(r, a, ring, |h|)
    ensures Tight(RNext(r, a, ring, |h|), ring, h)
  {
    assert |ring.Contents()| == ring.size;
    if !r.zeroCopy { TightCopying(r, a, ring, h); }
    else if a.TakePtr? || a.TakePtrAgain? { TightTakes(r, a, ring, h); }
    else { TightMoves(r, a, ring, h); }
  }

  ghost predicate TightInv(s: State) {
    && Inv(s) && OneBlockingWriter(s)
    && forall j | 0 <= j < |s.readers| :: Tight(s.readers[j], s.ring, s.history)
  }

  lemma TightWrite(s: State, a: WAct, j: nat)
    requires TightInv(s) && Enabled(s, Write(0, a)) && j < |s.readers|
    ensures var t := Apply(s, Write(0, a)); Represents(t.ring, t.history) && Tight(t.readers[j], t.ring, t.history)
  {
    UnreadFits(s, j);
    assert WInv(s.writers[0]);
    PushedIsPromised(s.writers[0], a, s.Cap(), s.Slowest());
    TightPush(s.readers[j], s.ring, s.history, Pushed(s.writers[0], a));
  }

  lemma PushedIsPromised(w: Writer, a: WAct, cap: nat, slowest: nat)
    requires w.blockOnFull && WEnabled(w, a, cap, slowest)
    ensures |Pushed(w, a)| <= w.InFlight()
  {
  }

  lemma TightInvStep(s: State, a: Action)
    requires TightInv(s) && Enabled(s, a)
    ensures TightInv(Apply(s, a))
  {
    if a.Write? { TightInvWrite(s, a.wa); } else { TightInvConsume(s, a.r, a.ra); }
  }

  lemma TightInvWrite(s: State, a: WAct)
    requires TightInv(s) && Enabled(s, Write(0, a))
    ensures TightInv(Apply(s, Write(0, a)))
  {
    InvStep(s, Write(0, a));
    TightWrites(s, a);
  }

  lemma TightInvConsume(s: State, j: nat, a: RAct)
    requires TightInv(s) && Enabled(s, Consume(j, a))
    ensures TightInv(Apply(s, Consume(j, a)))
  {
    InvStep(s, Consume(j, a));
    TightConsume(s, j, a);
  }

  lemma TightWrites(s: State, a: WAct)
    requires TightInv(s) && Enabled(s, Write(0, a))
    ensures var t := Apply(s, Write(0, a));
      && OneBlockingWriter(t) && Represents(t.ring, t.history)
      && forall j | 0 <= j < |t.readers| :: Tight(t.readers[j], t.ring, t.history)
  {
    var t := Apply(s, Write(0, a));
    KeepsBlocking(s.writers[0], a, s.Total(), s.Cap(), s.Slowest());
    PushKeepsHistory(s.ring, s.history, Pushed(s.writers[0], a));
    forall j | 0 <= j < |t.readers| ensures Tight(t.readers[j], t.ring, t.history) {
      TightWrite(s, a, j);
    }
  }

  lemma TightConsume(s: State, j: nat, a: RAct)
    requires TightInv(s) && Enabled(s, Consume(j, a))
    ensures var t := Apply(s, Consume(j, a)); forall i | 0 <= i < |t.readers| :: Tight(t.readers[i], s.ring, s.history)
  {
    UnreadFits(s, j);
    TightStep(s.readers[j], a, s.ring, s.history);
  }

  lemma KeepsBlocking(w: Writer, a: WAct, total: nat, cap: nat, slowest: nat)
    requires WEnabled(w, a, cap, slowest)
    ensures WNext(w, a, total, cap, slowest).blockOnFull == w.blockOnFull
  {
  }

  lemma {:induction false} RunTight(run: seq<State>, k: nat)
    requires IsRun(run) && k < |run| && OneBlockingWriter(run[0])
    ensures TightInv(run[k])
  {
    if k == 0 {
      InvInit(run[0]);
    } else {
      RunTight(run, k - 1);
      assert StepsAt(run, k - 1);
      var a :| Enabled(run[k - 1], a) && run[k] == Apply(run[k - 1], a);
      TightInvStep(run[k - 1], a);
    }
  }

  lemma {:induction false} OnlyWriter(h: seq<Record>, o: seq<int>, base: nat)
    requires |h| == |o| >= base
    requires forall k | 0 <= k < |o| :: o[k] == if k < base then -1 else 0
    ensures Proj(h, o, 0) == h[base..]
  {
    if |h| == base {
      NoneOf(h, o, 0);
    } else {
      OnlyWriter(h[..|h| - 1], o[..|o| - 1], base);
      assert h[base..] == h[..|h| - 1][base..] + [h[|h| - 1]];
    }
  }

  /** End to end, exactly once and in order: with one blocking writer, what each
      reader delivered, followed by what it holds, is one slice of the earlier
      history followed by everything the writer committed. Nothing is skipped. */
  lemma ExactlyOnce(run: seq<State>, k: nat, j: nat)
    requires IsRun(run) && k < |run| && OneBlockingWriter(run[0]) && j < |run[k].readers|
    ensures |run[k].writers| == 1
    ensures var s, r := run[k], run[k].readers[j];
      var all := run[0].history + s.writers[0].committed;
      && s.history <= all
      && r.start <= r.Frontier() <= |all|
      && r.delivered + r.Held() == all[r.start..r.Frontier()]
      && r.skipped == 0
  {
    RunTight(run, k);
    RunExtends(run, 0, k);
    var s, r := run[k], run[k].readers[j];
    OneStream(s, run[0].history);
    NoGaps(r, s.ring, s.history);
    var all := run[0].history + s.writers[0].committed;
    assert all[r.start..r.Frontier()] == s.history[r.start..r.Frontier()];
  }

  /** With a single writer, history is what was there plus what it committed,
      up to what is still with it. */
  lemma OneStream(s: State, first: seq<Record>)
    requires Inv(s) && |s.writers| == 1 && |first| == s.base && first <= s.history
    ensures s.history <= first + s.writers[0].committed
  {
    OnlyWriter(s.history, s.origin, s.base);
    Prepend(first, s.history, s.writers[0].Unpushed(), s.writers[0].committed);
  }

  lemma Prepend<T>(first: seq<T>, h: seq<T>, rest: seq<T>, all: seq<T>)
    requires first <= h && h[|first|..] + rest == all
    ensures h <= first + all
  {
    assert first + all == h + rest;
  }

  lemma NoGaps(r: Reader, ring: Ring<Record>, h: seq<Record>)
    requires Represents(ring, h) && RInv(r, h) && Tight(r, ring, h)
    ensures r.start <= r.Frontier() <= |h| && r.delivered + r.Held() == h[r.start..r.Frontier()]
  {
    GatherWhole(h, r.start, r.log, r.Frontier());
  }

  /** Both overrun branches, the copying reader's and the zero-copy one's, are
      dead code next to one blocking writer. */
  lemma NoOverrun(run: seq<State>, k: nat, j: nat)
    requires IsRun(run) && k < |run| && OneBlockingWriter(run[0]) && j < |run[k].readers|
    ensures var s, r := run[k], run[k].readers[j];
      s.ring.Valid() && Behind(s.Total(), r.cursor) <= s.ring.size && !r.zpc.Skip?
  {
    RunTight(run, k);
    UnreadFits(run[k], j);
    assert RInv(run[k].readers[j], run[k].history) && Tight(run[k].readers[j], run[k].ring, run[k].history);
  }

  /** The memory a zero-copy batch points to. */
  ghost function PinnedBytes(s: State, j: nat): seq<Record>
    requires j < |s.readers|
  {
    var r := s.readers[j];
    if r.ptr + r.pinnedEnd - r.cursor <= |s.ring.mem| && r.cursor <= r.pinnedEnd
    then s.ring.mem[r.ptr..r.ptr + (r.pinnedEnd - r.cursor)] else []
  }

  lemma PinnedIsHistory(s: State, j: nat)
    requires TightInv(s) && j < |s.readers| && s.readers[j].Holding()
    ensures var r := s.readers[j];
      r.pinnedEnd <= |s.history| && PinnedBytes(s, j) == s.history[r.cursor..r.pinnedEnd]
  {
    PinnedSlots(s.readers[j], s.ring, s.history);
  }

  lemma PinnedSlots(r: Reader, ring: Ring<Record>, h: seq<Record>)
    requires Represents(ring, h) && Tight(r, ring, h) && r.Holding()
    ensures r.ptr + (r.pinnedEnd - r.cursor) <= |ring.mem| && r.pinnedEnd <= |h|
    ensures ring.mem[r.ptr..r.ptr + (r.pinnedEnd - r.cursor)] == h[r.cursor..r.pinnedEnd]
  {
    var bytes := ring.mem[r.ptr..r.ptr + (r.pinnedEnd - r.cursor)];
    forall i: nat | i < |bytes| ensures bytes[i] == h[r.cursor + i] {
      PinnedSlot(r, ring, h, i);
    }
  }

  lemma PinnedSlot(r: Reader, ring: Ring<Record>, h: seq<Record>, i: nat)
    requires Represents(ring, h) && Tight(r, ring, h) && r.Holding() && r.cursor + i < r.pinnedEnd
    ensures r.ptr + i < |ring.mem| && ring.mem[r.ptr + i] == h[r.cursor + i]
  {
    SlotReads(ring, h, r.cursor + i);
    assert SlotOf(ring, |h|, r.cursor + i) == r.ptr + (r.cursor + i - r.cursor);
  }

  lemma SlotReads(ring: Ring<Record>, h: seq<Record>, p: nat)
    requires Represents(ring, h) && |h| - ring.size <= p < |h|
    ensures ring.size <= |h| && ring.mem[SlotOf(ring, |h|, p)] == h[p]
  {
    assert |ring.Contents()| == ring.size;
    assert ring.Contents()[p - (|h| - ring.size)] == h[p];
  }

  ghost predicate SameBatch(r: Reader, r': Reader) {
    r'.Holding() && r'.cursor == r.cursor && r'.pinnedEnd == r.pinnedEnd && r'.ptr == r.ptr
  }

  /** Step k of the run is reader j releasing its batch. */
  ghost predicate ReleasesAt(run: seq<State>, k: nat, j: nat)
    requires k + 1 < |run|
  {
    Enabled(run[k], Consume(j, Release)) && run[k + 1] == Apply(run[k], Consume(j, Release))
  }

  ghost predicate NotReleased(run: seq<State>, k: nat, m: nat, j: nat)
    requires k <= m < |run|
  {
    forall i | k <= i < m :: !ReleasesAt(run, i, j)
  }

  lemma HoldingStep(s: State, a: Action, j: nat)
    requires Inv(s) && Enabled(s, a) && j < |s.readers| && s.readers[j].Holding()
    requires a != Consume(j, Release)
    ensures SameBatch(s.readers[j], Apply(s, a).readers[j])
  {
    assert RInv(s.readers[j], s.history);
  }

  lemma HoldingNext(run: seq<State>, k: nat, j: nat)
    requires IsRun(run) && k + 1 < |run| && j < |run[k].readers| && run[k].readers[j].Holding()
    requires !ReleasesAt(run, k, j)
    ensures j < |run[k + 1].readers| && SameBatch(run[k].readers[j], run[k + 1].readers[j])
  {
    var a := StepAt(run, k);
    HoldingStep(run[k], a, j);
  }

  lemma {:induction false} HoldingRun(run: seq<State>, k: nat, m: nat, j: nat)
    requires IsRun(run) && k <= m < |run| && j < |run[k].readers| && run[k].readers[j].Holding()
    requires NotReleased(run, k, m, j)
    ensures j < |run[m].readers| && SameBatch(run[k].readers[j], run[m].readers[j])
  {
    if k < m {
      HoldingRun(run, k, m - 1, j);
      assert !ReleasesAt(run, m - 1, j);
      HoldingNext(run, m - 1, j);
    }
  }

  /** Pinned memory: with one blocking writer, from the moment a batch is handed
      out by pointer until it is released, no step of anyone changes a byte of
      it, and it is the slice of history at the reader's cursor. */
  lemma PinnedMemory(run: seq<State>, k: nat, m: nat, j: nat)
    requires IsRun(run) && k <= m < |run| && OneBlockingWriter(run[0])
    requires j < |run[k].readers| && run[k].readers[j].Holding()
    requires NotReleased(run, k, m, j)
    ensures j < |run[m].readers| && SameBatch(run[k].readers[j], run[m].readers[j])
    ensures var r := run[k].readers[j];
      && PinnedBytes(run[m], j) == PinnedBytes(run[k], j)
      && r.pinnedEnd <= |run[k].history| && PinnedBytes(run[m], j) == run[k].history[r.cursor..r.pinnedEnd]
  {
    HoldingRun(run, k, m, j);
    RunTight(run, k);
    RunTight(run, m);
    PinnedIsHistory(run[k], j);
    PinnedIsHistory(run[m], j);
    assert run[k].history <= run[m].history by { RunExtends(run, k, m); }
    SamePrefix(run[k].history, run[m].history, run[k].readers[j].cursor, run[k].readers[j].pinnedEnd);
  }

  lemma PinnedSlotsStay(run: seq<State>, k: nat, m: nat, j: nat)
    requires IsRun(run) && k <= m < |run| && OneBlockingWriter(run[0])
    requires j < |run[k].readers| && run[k].readers[j].Holding() && NotReleased(run, k, m, j)
    ensures var r, mem, mem' := run[k].readers[j], run[k].ring.mem, run[m].ring.mem;
      && |mem| == |mem'| && r.ptr + (r.pinnedEnd - r.cursor) <= |mem|
      && mem[r.ptr..r.ptr + (r.pinnedEnd - r.cursor)] == mem'[r.ptr..r.ptr + (r.pinnedEnd - r.cursor)]
  {
    PinnedMemory(run, k, m, j);
    PinnedFits(run, k, j);
    assert |run[k].ring.mem| == |run[m].ring.mem| by { RunExtends(run, k, m); }
  }

  lemma PinnedFits(run: seq<State>, k: nat, j: nat)
    requires IsRun(run) && k < |run| && OneBlockingWriter(run[0]) && j < |run[k].readers| && run[k].readers[j].Holding()
    ensures var r := run[k].readers[j]; r.ptr + (r.pinnedEnd - r.cursor) <= |run[k].ring.mem|
  {
    RunTight(run, k);
    PinnedSlots(run[k].readers[j], run[k].ring, run[k].history);
  }

  /** The same, byte for byte, for the byte array the records lie in. */
  lemma PinnedBytesStay(
      run: seq<State>, k: nat, m: nat, j: nat, b: Ring<Byte>, b': Ring<Byte>, c: nat, x: seq<Byte>, y: seq<Byte>)
    requires IsRun(run) && k <= m < |run| && OneBlockingWriter(run[0])
    requires j < |run[k].readers| && run[k].readers[j].Holding() && NotReleased(run, k, m, j)
    requires Lays(b, run[k].ring, c) && Lays(b', run[m].ring, c)
    requires var r := run[k].readers[j]; var from, n := Bytes(r.ptr, c), Bytes(r.pinnedEnd - r.cursor, c);
      && from + n <= |b.mem| == |b'.mem| && x == b.mem[from..from + n] && y == b'.mem[from..from + n]
    ensures x == y
  {
    PinnedSlotsStay(run, k, m, j);
    var r := run[k].readers[j];
    SameSlotsSameBytes(b, run[k].ring, b', run[m].ring, c, r.ptr, r.pinnedEnd - r.cursor, x, y);
  }

  lemma SamePrefix(h: seq<Record>, h': seq<Record>, lo: nat, hi: nat)
    requires h <= h' && lo <= hi <= |h|
    ensures h[lo..hi] == h'[lo..hi]
  {
  }
}
