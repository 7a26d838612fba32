/** The concurrent pipeline: any number of writers and readers on one ring, as
    a step relation. One action is one critical section, or one atomic access,
    of one thread; everything else may run between two of them. */
module Pipeline {
  import opened Helpers
  import opened Rings
  import opened Chunks
  import opened RecBuffers

  // ---------------------------------------------------------------------------
  // Writers
  // ---------------------------------------------------------------------------

  /** Where the thread that pushes a block stands. */
  datatype PushPc =
    | Idle                              // waiting for a block
    | Top(done: nat)                    // head of the push loop
    | Sized(done: nat, total: nat)      // read totalWritten, the cursors still to come
    | Checked(done: nat, chunk: nat)    // space was found, the push is still to come
    | Cleanup                           // block done, hasWork still to be cleared
    | Exited

  /** Where the thread that owns the writer stands. */
  datatype UserPc = Running | Flushing(closing: bool) | Closing | Closed

  /** A RecordWriter (direct == false) or a RecordWriterZC (direct == true).
      The active buffer up to m_currentIdx and the background buffer up to
      m_bgCount are sequences; `committed` records what commit accepted. */
  datatype Writer = Writer(
    direct: bool, blockOnFull: bool, batchCap: nat,
    active: seq<Record>, bg: seq<Record>,
    hasWork: bool, running: bool, pc: PushPc, user: UserPc,
    committed: seq<Record>)
  {
    /** Records of the background block that are not in the ring yet. */
    function Pending(): seq<Record> {
      match pc
      case Idle => if hasWork then bg else []
      case Top(done) => if done <= |bg| then bg[done..] else []
      case Sized(done, _) => if done <= |bg| then bg[done..] else []
      case Checked(done, _) => if done <= |bg| then bg[done..] else []
      case Cleanup => []
      case Exited => []
    }

    function Unpushed(): seq<Record> { Pending() + active }

    function InFlight(): nat { if pc.Checked? then pc.chunk else 0 }
  }

  datatype WAct =
    // the owner of the writer
    | Commit(recs: seq<Record>)       // commitRecord / commitBatch
    | SwapFull                        // nextRecord / nextBatch on a full active buffer
    | FlushSwap(closing: bool)        // flush with records pending
    | FlushWait(closing: bool)        // flush with nothing pending
    | FlushReturn
    | Close                           // the destructor clears m_running after its flush
    | DirectCommit(recs: seq<Record>) // RecordWriterZC hands over a block
    // the pushing thread
    | TakeWork
    | Exit
    | PushAll                         // blockOnFull == false: one push of the block
    | Look                            // getAvailableWriteSpace reads totalWritten ...
    | Check(space: nat)               // ... then the cursors, and finds space
    | Full                            // ... and finds none
    | PushChunk
    | Abort                           // m_running found false while waiting for space
    | EndBlock
    | ClearWork

  /** `slowest` is the smallest reader cursor. The cursors are loaded one after
      the other, each may have moved since; so any space up to the one the
      present cursors leave can come out. */
  predicate WEnabled(w: Writer, a: WAct, cap: nat, slowest: nat) {
    match a
    case Commit(_) => !w.direct && w.user.Running? && |w.active| <= w.batchCap
    case SwapFull => !w.direct && w.user.Running? && |w.active| >= w.batchCap && !w.hasWork && w.running
    case FlushSwap(_) => !w.direct && w.user.Running? && |w.active| > 0 && !w.hasWork && w.running
    case FlushWait(_) => !w.direct && w.user.Running? && |w.active| == 0
    case FlushReturn => w.user.Flushing? && (!w.hasWork || !w.running)
    case Close => w.user.Closing?
    case DirectCommit(recs) => w.direct && w.pc.Idle? && 0 < |recs| <= w.batchCap
    case TakeWork => !w.direct && w.pc.Idle? && w.hasWork
    case Exit => !w.direct && w.pc.Idle? && !w.hasWork && !w.running
    case PushAll => w.pc.Top? && !w.blockOnFull && w.pc.done == 0
    case Look => w.pc.Top? && w.blockOnFull && w.pc.done < |w.bg|
    case Check(space) => w.pc.Sized? && 0 < space <= SpaceFor(w.pc.total, cap, slowest)
    case Full => w.pc.Sized?
    case PushChunk => w.pc.Checked? && w.pc.done + w.pc.chunk <= |w.bg|
    case Abort => w.pc.Sized? && !w.running
    case EndBlock => w.pc.Top? && w.blockOnFull && w.pc.done >= |w.bg|
    case ClearWork => w.pc.Cleanup?
  }

  /** What commit takes of an offered block: it is clamped to the free slots. */
  function Accepted(w: Writer, a: WAct): seq<Record> {
    match a
    case Commit(recs) => if |w.active| <= w.batchCap then recs[..Min(|recs|, w.batchCap - |w.active|)] else []
    case DirectCommit(recs) => recs
    case _ => []
  }

  /** The records the action pushes into the ring. */
  function Pushed(w: Writer, a: WAct): seq<Record> {
    match a
    case PushAll => w.bg
    case PushChunk =>
      if w.pc.Checked? && w.pc.done + w.pc.chunk <= |w.bg|
      then w.bg[w.pc.done..w.pc.done + w.pc.chunk] else []
    case _ => []
  }

  function Swapped(w: Writer): Writer {
    w.(active := [], bg := w.active, hasWork := true)
  }

  function WNext(w: Writer, a: WAct, total: nat, cap: nat, slowest: nat): Writer
    requires WEnabled(w, a, cap, slowest)
  {
    match a
    case Commit(_) => w.(active := w.active + Accepted(w, a), committed := w.committed + Accepted(w, a))
    case SwapFull => Swapped(w)
    case FlushSwap(closing) => Swapped(w).(user := Flushing(closing))
    case FlushWait(closing) => w.(user := Flushing(closing))
    case FlushReturn => w.(user := if w.user.closing then Closing else Running)
    case Close => w.(running := false, user := Closed)
    case DirectCommit(recs) => w.(bg := recs, pc := Top(0), committed := w.committed + recs)
    case TakeWork => w.(pc := Top(0))
    case Exit => w.(pc := Exited)
    case PushAll => w.(pc := Cleanup)
    case Look => w.(pc := Sized(w.pc.done, total))
    case Check(space) => w.(pc := Checked(w.pc.done, if w.pc.done <= |w.bg| then Min(|w.bg| - w.pc.done, space) else 0))
    case Full => w.(pc := Top(w.pc.done))
    case PushChunk => w.(pc := Top(w.pc.done + w.pc.chunk))
    case Abort => w.(pc := Cleanup)
    case EndBlock => w.(pc := Cleanup)
    case ClearWork => w.(pc := Idle, bg := [], hasWork := false)
  }

  // ---------------------------------------------------------------------------
  // Readers
  // ---------------------------------------------------------------------------

  /** A stretch lo..hi of history that a reader took in one go. */
  datatype Block = Block(lo: nat, hi: nat)

  /** Where the prefetch worker of a RecordReader stands. */
  datatype CopyPc =
    | Waiting
    | Awake                                  // left its wait, snapshot still to come
    | Fetch(at: nat, count: nat)             // range chosen from the snapshot
    | Copied(at: nat, data: seq<Record>)     // copied, cursor not stored yet
    | Stored(data: seq<Record>)              // cursor stored, not published yet
    | Ended

  /** Where a RecordReaderZC call stands. */
  datatype ZcPc =
    | Out                                    // no call running; a batch may be pinned
    | InWait(max: nat)                       // released, waiting for data
    | Ready(max: nat, waited: bool)          // about to look at finish and stop
    | Get(max: nat, waited: bool)            // about to take a pointer
    | Missed(max: nat, waited: bool)         // no pointer, about to look for an overrun
    | Skip(max: nat, to: nat)                // overrun seen, new cursor not stored yet
    | Retry(max: nat)                        // new cursor stored

  /** A RecordReader (zeroCopy == false, with a worker, a background and an
      active buffer) or a RecordReaderZC (zeroCopy == true, with a pinned range
      of the ring). `log`, `skipped` and `delivered` record what it did. */
  datatype Reader = Reader(
    zeroCopy: bool, start: nat, cursor: nat, batchCap: nat,
    finishing: bool, finishTarget: nat, running: bool,
    log: seq<Block>, skipped: nat, delivered: seq<Record>,
    pc: CopyPc, bg: seq<Record>, bgFull: bool, active: seq<Record>,
    zpc: ZcPc, pinnedEnd: nat, ptr: nat)
  {
    /** End of what the reader has taken so far. */
    function Frontier(): nat { if zeroCopy then pinnedEnd else cursor }

    /** Taken but not handed to the consumer yet, in order. */
    function Held(): seq<Record> {
      if zeroCopy then []
      else active + (if bgFull then bg else []) + (if pc.Stored? then pc.data else [])
    }

    predicate FinishReached() { finishing && cursor >= finishTarget }

    predicate Holding() { zeroCopy && cursor < pinnedEnd }
  }

  datatype RAct =
    | Finish
    // RecordReader: worker
    | Wake | Snapshot | Read | Store | Publish
    // RecordReader: consumer
    | SwapIn | Take(max: nat)
    // RecordReaderZC
    | Release | Begin(max: nat, wait: bool) | Arrive | Recheck | TakePtr | Probe | StoreSkip | TakePtrAgain

  /** totalWritten - cursor, unsigned: a cursor ahead of the count gives a lag
      beyond anything the ring can hold. */
  function Behind(total: nat, cursor: nat): nat {
    if cursor <= total then total - cursor else total + 1
  }

  /** The read-range assertion of peek_many_at, for a read at absolute position
      `at` that found its window. */
  predicate ReadInRange(ring: Ring<Record>, total: nat, at: nat, count: nat) {
    0 < Behind(total, at) <= ring.size ==> count <= Behind(total, at)
  }

  /** readFromGlobal. */
  function ReadGlobal(ring: Ring<Record>, total: nat, at: nat, count: nat): seq<Record>
    requires ring.Valid()
  {
    var lag := Behind(total, at);
    if 0 < lag <= ring.size && count <= lag
    then ring.Contents()[ring.size - lag..ring.size - lag + count]
    else []
  }

  /** Number of records getBatchPtrFromGlobal gives out, 0 for no pointer. */
  function RunAt(ring: Ring<Record>, total: nat, cursor: nat, max: nat): nat
    requires ring.Valid()
  {
    var lag := Behind(total, cursor);
    if 0 < lag <= ring.size
    then Min(Min(max, lag), |ring.mem| - ring.Slot(ring.size - lag))
    else 0
  }

  function Pinned(r: Reader, ring: Ring<Record>, total: nat, n: nat): Reader
    requires r.zeroCopy && ring.Valid()
    requires 0 < Behind(total, r.cursor) <= ring.size
    requires n <= Behind(total, r.cursor)
  {
    var rel := ring.size - Behind(total, r.cursor);
    var data := ring.Contents()[rel..rel + n];
    r.(zpc := Out, ptr := ring.Slot(rel), pinnedEnd := r.cursor + n,
       log := r.log + [Block(r.cursor, r.cursor + n)], delivered := r.delivered + data)
  }

  predicate REnabled(r: Reader, a: RAct, ring: Ring<Record>, total: nat) {
    match a
    case Finish => r.zeroCopy || r.running
    case Wake => !r.zeroCopy && r.pc.Waiting? &&
      (!r.running || (!r.bgFull && (r.FinishReached() || Behind(total, r.cursor) > 0)))
    case Snapshot => !r.zeroCopy && r.pc.Awake?
    case Read => !r.zeroCopy && r.pc.Fetch?
    case Store => !r.zeroCopy && r.pc.Copied?
    case Publish => !r.zeroCopy && r.pc.Stored?
    case SwapIn => !r.zeroCopy && r.active == [] && (r.bgFull || !r.running)
    case Take(_) => !r.zeroCopy && r.active != []
    case Release => r.zeroCopy && r.zpc.Out?
    case Begin(_, _) => r.zeroCopy && r.zpc.Out? && r.cursor == r.pinnedEnd
    case Arrive => r.zeroCopy && r.zpc.InWait? && (!r.running || r.FinishReached() || total > r.cursor)
    case Recheck => r.zeroCopy && r.zpc.Ready?
    case TakePtr => r.zeroCopy && r.zpc.Get?
    case Probe => r.zeroCopy && r.zpc.Missed?
    case StoreSkip => r.zeroCopy && r.zpc.Skip?
    case TakePtrAgain => r.zeroCopy && r.zpc.Retry?
  }

  function RNext(r: Reader, a: RAct, ring: Ring<Record>, total: nat): Reader
    requires ring.Valid() && REnabled(r, a, ring, total)
  {
    match a
    case Finish => r.(finishing := true, finishTarget := total)
    case Wake =>
      if !r.running then r.(pc := Ended)
      else if r.FinishReached() then r.(pc := Ended, running := false)
      else r.(pc := Awake)
    case Snapshot =>
      var lag := Behind(total, r.cursor);
      if lag == 0 then r.(pc := Waiting)
      else if lag > ring.size && ring.size <= total
      then r.(pc := Fetch(total - ring.size, Min(ring.size, r.batchCap)))
      else r.(pc := Fetch(r.cursor, Min(lag, r.batchCap)))
    case Read =>
      var data := ReadGlobal(ring, total, r.pc.at, r.pc.count);
      if data == [] && r.pc.count > 0 then r.(pc := Waiting)
      else r.(pc := Copied(r.pc.at, data))
    case Store =>
      var end := r.pc.at + |r.pc.data|;
      var gap := if r.cursor <= r.pc.at then r.pc.at - r.cursor else 0;
      var r' := r.(cursor := end, skipped := r.skipped + gap);
      if r.pc.data == [] then r'.(pc := Waiting)
      else r'.(pc := Stored(r.pc.data), log := r.log + [Block(r.pc.at, end)])
    case Publish => r.(pc := Waiting, bg := r.pc.data, bgFull := true)
    case SwapIn => r.(active := if r.bgFull then r.bg else [], bg := [], bgFull := false)
    case Take(max) =>
      var n := Min(max, |r.active|);
      r.(delivered := r.delivered + r.active[..n], active := r.active[n..])
    case Release => r.(cursor := r.pinnedEnd)
    case Begin(max, wait) =>
      if r.FinishReached() then r.(running := false)
      else if !r.running then r
      else r.(zpc := if wait then InWait(Min(max, r.batchCap)) else Ready(Min(max, r.batchCap), false))
    case Arrive => r.(zpc := Ready(r.zpc.max, true))
    case Recheck =>
      if !r.running then r.(zpc := Out)
      else if r.FinishReached() then r.(zpc := Out, running := false)
      else r.(zpc := Get(r.zpc.max, r.zpc.waited))
    case TakePtr =>
      var n := RunAt(ring, total, r.cursor, r.zpc.max);
      if n == 0 then r.(zpc := Missed(r.zpc.max, r.zpc.waited)) else Pinned(r, ring, total, n)
    case Probe =>
      if ring.size > 0 && total > r.cursor && total - r.cursor > ring.size
      then r.(zpc := Skip(r.zpc.max, total - ring.size))
      else r.(zpc := Out)
    case StoreSkip =>
      r.(zpc := Retry(r.zpc.max), cursor := r.zpc.to, pinnedEnd := r.zpc.to,
         skipped := if r.cursor <= r.zpc.to then r.skipped + (r.zpc.to - r.cursor) else r.skipped)
    case TakePtrAgain =>
      var n := RunAt(ring, total, r.cursor, r.zpc.max);
      if n == 0 then r.(zpc := Out) else Pinned(r, ring, total, n)
  }

  // ---------------------------------------------------------------------------
  // The whole system
  // ---------------------------------------------------------------------------

  /** `history` is everything ever pushed and `origin` who pushed it; the first
      `base` records were there before any of the writers. */
  datatype State = State(
    ring: Ring<Record>, history: seq<Record>, origin: seq<int>, base: nat,
    writers: seq<Writer>, readers: seq<Reader>)
  {
    function Total(): nat { |history| }

    function Cap(): nat { |ring.mem| }

    function Slowest(): nat
      requires readers != []
    {
      MinCursor(readers)
    }
  }

  function MinCursor(rs: seq<Reader>): (m: nat)
    requires rs != []
    ensures forall i | 0 <= i < |rs| :: m <= rs[i].cursor
    ensures exists i | 0 <= i < |rs| :: m == rs[i].cursor
  {
    if |rs| == 1 then rs[0].cursor
    else
      var m, n := MinCursor(rs[..|rs| - 1]), rs[|rs| - 1].cursor;
      assert forall i | 0 <= i < |rs| - 1 :: rs[i] == rs[..|rs| - 1][i];
      Min(m, n)
  }

  datatype Action = Write(w: nat, wa: WAct) | Consume(r: nat, ra: RAct)

  predicate Enabled(s: State, a: Action) {
    && s.ring.Valid() && s.readers != []
    && match a
       case Write(i, wa) => i < |s.writers| && WEnabled(s.writers[i], wa, s.Cap(), s.Slowest())
       case Consume(j, ra) => j < |s.readers| && REnabled(s.readers[j], ra, s.ring, s.Total())
  }

  function Apply(s: State, a: Action): State
    requires Enabled(s, a)
  {
    match a
    case Write(i, wa) =>
      var w := s.writers[i];
      var recs := Pushed(w, wa);
      s.(ring := PushMany(s.ring, recs), history := s.history + recs,
         origin := s.origin + seq(|recs|, _ => i),
         writers := s.writers[i := WNext(w, wa, s.Total(), s.Cap(), s.Slowest())])
    case Consume(j, ra) =>
      s.(readers := s.readers[j := RNext(s.readers[j], ra, s.ring, s.Total())])
  }

  ghost predicate Next(s: State, t: State) {
    exists a :: Enabled(s, a) && t == Apply(s, a)
  }

  ghost predicate FreshWriter(w: Writer) {
    && w.active == [] && w.bg == [] && w.committed == []
    && !w.hasWork && w.running && w.pc.Idle? && w.user.Running?
  }

  /** A reader right after initBase: it starts at the oldest record. */
  ghost predicate FreshReader(r: Reader, ring: Ring<Record>, total: nat) {
    && r.start == r.cursor == (if total > ring.size then total - ring.size else 0)
    && !r.finishing && r.running && r.log == [] && r.skipped == 0 && r.delivered == []
    && r.pc.Waiting? && r.bg == [] && !r.bgFull && r.active == []
    && r.zpc.Out? && r.pinnedEnd == r.cursor
  }

  /** Any earlier history, fresh writers, and a fixed set of fresh readers. */
  ghost predicate Init(s: State) {
    && Represents(s.ring, s.history)
    && s.base == |s.history| == |s.origin|
    && (forall i | 0 <= i < |s.origin| :: s.origin[i] == -1)
    && (forall i | 0 <= i < |s.writers| :: FreshWriter(s.writers[i]))
    && s.readers != []
    && (forall j | 0 <= j < |s.readers| :: FreshReader(s.readers[j], s.ring, |s.history|))
  }

  ghost predicate StepsAt(run: seq<State>, k: nat)
    requires k + 1 < |run|
  {
    Next(run[k], run[k + 1])
  }

  ghost predicate IsRun(run: seq<State>) {
    && run != []
    && Init(run[0])
    && forall k | 0 <= k < |run| - 1 :: StepsAt(run, k)
  }
}
