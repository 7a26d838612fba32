/** The TCP relay: a receiver asks for records in a loop, a sender answers each
    request from its reader, over two byte streams that neither lose, change nor
    reorder anything. One action is one turn of one of the two threads. */
module TcpRelay {
  import opened Helpers
  import opened Chunks
  import opened Wire
  import Rings
  import opened Registry
  import opened Attributes
  import opened Rules
  import opened SchemaText
  import SchemaRoundTrip
  import Pipeline
  import PipelineTheorems

  const SIGNATURE: nat := 0x43594300
  const REQUEST_DATA_BATCH: nat := 6
  const RESPONSE_DATA_BATCH: nat := 7
  const HEADER_BYTES: nat := 9

  const UINT32_LIMIT: nat := 0x1_0000_0000

  /** A TcpHeader on the wire; the payload size is cast to 32 bits. */
  function Header(kind: nat, size: nat): (b: seq<Byte>)
    requires kind < 256
    ensures |b| == HEADER_BYTES
  {
    Encode(SIGNATURE, 4) + Encode(kind, 1) + Encode(size % UINT32_LIMIT, 4)
  }

  predicate Accepts(b: seq<Byte>, kind: nat)
    requires |b| == HEADER_BYTES
  {
    Decode(b[..4]) == SIGNATURE && Decode(b[4..5]) == kind
  }

  function PayloadSize(b: seq<Byte>): (n: nat)
    requires |b| == HEADER_BYTES
  {
    Decode(b[5..9])
  }

  lemma LimitIs()
    ensures Limit(1) == 256 && Limit(4) == UINT32_LIMIT
  {
    assert Limit(2) == 256 * Limit(1) && Limit(3) == 256 * Limit(2);
  }

  lemma HeaderReads(kind: nat, size: nat)
    requires kind < 256
    ensures Accepts(Header(kind, size), kind)
    ensures PayloadSize(Header(kind, size)) == size % UINT32_LIMIT
  {
    LimitIs();
    FieldsRead(SIGNATURE, kind, size % UINT32_LIMIT, 4, 1, Header(kind, size));
  }

  lemma FieldsRead(signature: nat, kind: nat, size: nat, w: nat, v: nat, b: seq<Byte>)
    requires b == Encode(signature, w) + Encode(kind, v) + Encode(size, w)
    requires signature < Limit(w) && kind < Limit(v) && size < Limit(w)
    ensures Decode(b[..w]) == signature && Decode(b[w..w + v]) == kind && Decode(b[w + v..w + v + w]) == size
  {
    Sections(Encode(signature, w), Encode(kind, v), Encode(size, w), b, w, v);
    DecodeEncode(signature, w);
    DecodeEncode(kind, v);
    DecodeEncode(size, w);
  }

  lemma Sections<T>(x: seq<T>, y: seq<T>, z: seq<T>, b: seq<T>, w: nat, v: nat)
    requires b == x + y + z && |x| == |z| == w && |y| == v
    ensures b[..w] == x && b[w..w + v] == y && b[w + v..w + v + w] == z
  {
  }

  // ---------------------------------------------------------------------------
  // The two threads
  // ---------------------------------------------------------------------------

  datatype SenderPc = Listening | Asked(max: nat) | SenderDone

  /** `given` records what the reader has handed to the sender. */
  datatype Sender = Sender(recSize: nat, pc: SenderPc, given: seq<Record>)

  datatype ReceiverPc = Free | Requested(cap: nat, max: nat) | Incoming(cap: nat, max: nat, size: nat) | ReceiverDone

  /** `committed` records what the receiver has committed to its writer. */
  datatype Receiver = Receiver(recSize: nat, batchSize: nat, pc: ReceiverPc, committed: seq<Record>)

  datatype State = State(sender: Sender, receiver: Receiver, up: seq<Byte>, down: seq<Byte>)

  datatype Action =
    | Request(cap: nat)            // nextBatch gave room for cap records
    | ReadRequest
    | Answer(recs: seq<Record>, payload: seq<Byte>) // the reader gave recs, laid out as payload
    | ReadHeader
    | ReadPayload
    | QuitSender
    | QuitReceiver

  predicate Enabled(s: State, a: Action) {
    match a
    case Request(cap) => s.receiver.pc.Free? && 0 < cap <= s.receiver.batchSize
    case ReadRequest => s.sender.pc.Listening? && |s.up| >= HEADER_BYTES
    case Answer(recs, payload) => s.sender.pc.Asked? && |recs| <= s.sender.pc.max
    case ReadHeader => s.receiver.pc.Requested? && |s.down| >= HEADER_BYTES
    case ReadPayload => s.receiver.pc.Incoming? && |s.down| >= s.receiver.pc.size && s.receiver.recSize > 0
    case QuitSender => s.sender.pc.Listening?
    case QuitReceiver => s.receiver.pc.Free?
  }

  /** The records the receiver makes of a payload: the whole ones. */
  function Whole(payload: seq<Byte>, recSize: nat): seq<Record>
    requires recSize > 0
  {
    var n := Quot(|payload|, recSize);
    QuotBound(|payload|, recSize);
    Chunks.Cut(payload[..Bytes(n, recSize)], n, recSize)
  }

  function Apply(s: State, a: Action): State
    requires Enabled(s, a)
  {
    var c, r := s.sender, s.receiver;
    match a
    case Request(cap) =>
      var max := Bytes(cap, r.recSize) % UINT32_LIMIT;
      s.(receiver := r.(pc := Requested(cap, max)), up := s.up + Header(REQUEST_DATA_BATCH, max))
    case ReadRequest =>
      var head, rest := s.up[..HEADER_BYTES], s.up[HEADER_BYTES..];
      if !Accepts(head, REQUEST_DATA_BATCH) then s.(up := rest, sender := c.(pc := SenderDone))
      else
        var max := if c.recSize > 0 then Quot(PayloadSize(head), c.recSize) else 0;
        if max == 0 then s.(up := rest, down := s.down + Header(RESPONSE_DATA_BATCH, 0))
        else s.(up := rest, sender := c.(pc := Asked(max)))
    case Answer(recs, payload) =>
      s.(sender := c.(pc := Listening, given := c.given + recs),
         down := s.down + (Header(RESPONSE_DATA_BATCH, Bytes(|recs|, c.recSize)) + payload))
    case ReadHeader =>
      var head, rest := s.down[..HEADER_BYTES], s.down[HEADER_BYTES..];
      if !Accepts(head, RESPONSE_DATA_BATCH) then s.(down := rest, receiver := r.(pc := ReceiverDone))
      else if PayloadSize(head) == 0 then s.(down := rest, receiver := r.(pc := Free))
      else if PayloadSize(head) > r.pc.max then s.(down := rest, receiver := r.(pc := ReceiverDone))
      else s.(down := rest, receiver := r.(pc := Incoming(r.pc.cap, r.pc.max, PayloadSize(head))))
    case ReadPayload =>
      var data := s.down[..r.pc.size];
      s.(down := s.down[r.pc.size..], receiver := r.(pc := Free, committed := r.committed + Whole(data, r.recSize)))
    case QuitSender => s.(sender := c.(pc := SenderDone))
    case QuitReceiver => s.(receiver := r.(pc := ReceiverDone))
  }

  /** What the reader hands over is whole records, laid out one after the other. */
  ghost predicate FromReader(s: State, a: Action) {
    a.Answer? ==> Holds(a.payload, a.recs, s.sender.recSize)
  }

  ghost predicate Next(s: State, t: State) {
    exists a :: Enabled(s, a) && FromReader(s, a) && t == Apply(s, a)
  }

  ghost predicate Init(s: State) {
    && s.sender.pc.Listening? && s.sender.given == []
    && s.receiver.pc.Free? && s.receiver.committed == []
    && s.up == [] && s.down == []
    && s.sender.recSize > 0 && s.receiver.recSize > 0
  }

  ghost predicate StepsAt(run: seq<State>, k: nat)
    requires k + 1 < |run|
  {
    Next(run[k], run[k + 1])
  }

  ghost predicate IsRun(run: seq<State>) {
    run != [] && Init(run[0]) && forall k | 0 <= k < |run| - 1 :: StepsAt(run, k)
  }

  // ---------------------------------------------------------------------------
  // The invariant
  // ---------------------------------------------------------------------------

  /** Handed to the sender and not committed by the receiver yet. */
  function Flying(s: State): seq<Record> {
    var n := |s.receiver.committed|;
    if n <= |s.sender.given| then s.sender.given[n..] else []
  }

  /** Nothing under way. */
  ghost predicate Quiet(s: State) {
    s.up == [] && s.down == [] && !s.sender.pc.Asked? && Flying(s) == []
  }

  /** The request is on its way up. */
  ghost predicate Asking(s: State, max: nat) {
    s.up == Header(REQUEST_DATA_BATCH, max) && s.down == [] && !s.sender.pc.Asked? && Flying(s) == []
  }

  /** The sender is about to answer. */
  ghost predicate Answering(s: State, max: nat) {
    s.up == [] && s.down == [] && Flying(s) == []
    && s.sender.pc.Asked? && Bytes(s.sender.pc.max, s.sender.recSize) <= max
  }

  /** The response is on its way down. */
  ghost predicate Answered(s: State, max: nat) {
    var flying := Flying(s);
    var size := Bytes(|flying|, s.sender.recSize);
    && s.up == [] && !s.sender.pc.Asked? && size <= max
    && |s.down| >= HEADER_BYTES && s.down[..HEADER_BYTES] == Header(RESPONSE_DATA_BATCH, size)
    && Holds(s.down[HEADER_BYTES..], flying, s.sender.recSize)
  }

  ghost predicate Inv(s: State) {
    && s.sender.recSize == s.receiver.recSize > 0
    && s.receiver.committed <= s.sender.given
    && match s.receiver.pc
       case Free => Quiet(s)
       case ReceiverDone => Quiet(s)
       case Requested(cap, max) =>
         && max < UINT32_LIMIT && max <= Bytes(cap, s.receiver.recSize)
         && (Asking(s, max) || Answering(s, max) || Answered(s, max))
       case Incoming(cap, max, size) =>
         && max <= Bytes(cap, s.receiver.recSize) && 0 < size <= max
         && s.up == [] && !s.sender.pc.Asked?
         && |s.down| == size && Holds(s.down, Flying(s), s.sender.recSize)
  }

  /** What a cast to 32 bits does. */
  lemma Cast(n: nat)
    ensures n % UINT32_LIMIT < UINT32_LIMIT && n % UINT32_LIMIT <= n
    ensures n < UINT32_LIMIT ==> n % UINT32_LIMIT == n
  {
  }

  lemma AskingInv(s: State, cap: nat, max: nat)
    requires s.sender.recSize == s.receiver.recSize > 0 && s.receiver.committed <= s.sender.given
    requires s.receiver.pc == Requested(cap, max) && Asking(s, max)
    requires max < UINT32_LIMIT && max <= Bytes(cap, s.receiver.recSize)
    ensures Inv(s)
  {
  }

  lemma RequestStep(s: State, cap: nat)
    requires Inv(s) && Enabled(s, Request(cap))
    ensures Inv(Apply(s, Request(cap)))
  {
    var t := Apply(s, Request(cap));
    AddNothing(Header(REQUEST_DATA_BATCH, t.receiver.pc.max));
    Cast(Bytes(cap, s.receiver.recSize));
    assert Flying(t) == Flying(s);
    AskingInv(t, cap, t.receiver.pc.max);
  }

  /** What the sender does with the one request on the wire. */
  lemma RequestRead(s: State, max: nat)
    requires s.up == Header(REQUEST_DATA_BATCH, max) && max < UINT32_LIMIT
    requires s.sender.pc.Listening? && s.sender.recSize > 0
    ensures var n := Quot(max, s.sender.recSize);
      Apply(s, ReadRequest) ==
        if n == 0 then s.(up := [], down := s.down + Header(RESPONSE_DATA_BATCH, 0))
        else s.(up := [], sender := s.sender.(pc := Asked(n)))
  {
    var head := s.up[..HEADER_BYTES];
    assert head == s.up && s.up[HEADER_BYTES..] == [];
    SizeReads(head, REQUEST_DATA_BATCH, max);
  }

  lemma SizeReads(head: seq<Byte>, kind: nat, size: nat)
    requires kind < 256 && head == Header(kind, size) && size < UINT32_LIMIT
    ensures Accepts(head, kind) && PayloadSize(head) == size
  {
    HeaderReads(kind, size);
    Cast(size);
  }

  lemma ReadRequestStep(s: State)
    requires Inv(s) && Enabled(s, ReadRequest)
    ensures Inv(Apply(s, ReadRequest)) && !Apply(s, ReadRequest).sender.pc.SenderDone?
  {
    var max, c := s.receiver.pc.max, s.sender.recSize;
    assert Asking(s, max);
    RequestRead(s, max);
    QuotBound(max, c);
    var t := Apply(s, ReadRequest);
    if Quot(max, c) == 0 {
      KeepAlive(t, max);
    } else {
      assert Answering(t, max);
    }
  }

  lemma KeepAlive(s: State, max: nat)
    requires s.up == [] && s.down == [] + Header(RESPONSE_DATA_BATCH, 0) && !s.sender.pc.Asked? && Flying(s) == []
    ensures Answered(s, max)
  {
    assert s.down[..HEADER_BYTES] == s.down && s.down[HEADER_BYTES..] == [];
  }

  lemma AnswerStep(s: State, recs: seq<Record>, payload: seq<Byte>)
    requires Inv(s) && Enabled(s, Answer(recs, payload)) && Holds(payload, recs, s.sender.recSize)
    ensures Inv(Apply(s, Answer(recs, payload)))
  {
    var max, c := s.receiver.pc.max, s.sender.recSize;
    var t := Apply(s, Answer(recs, payload));
    assert Flying(t) == recs;
    BytesOrder(|recs|, s.sender.pc.max, c);
    var head := Header(RESPONSE_DATA_BATCH, Bytes(|recs|, c));
    assert t.down == head + payload;
    assert t.down[..HEADER_BYTES] == head && t.down[HEADER_BYTES..] == payload;
    assert Answered(t, max);
  }

  /** What the receiver does with the header of a response that is no larger
      than its request. */
  lemma HeaderRead(s: State, size: nat)
    requires s.receiver.pc.Requested? && |s.down| >= HEADER_BYTES
    requires s.down[..HEADER_BYTES] == Header(RESPONSE_DATA_BATCH, size)
    requires size <= s.receiver.pc.max < UINT32_LIMIT
    ensures var pc := s.receiver.pc;
      Apply(s, ReadHeader) == s.(down := s.down[HEADER_BYTES..], receiver := s.receiver.(
        pc := if size == 0 then Free else Incoming(pc.cap, pc.max, size)))
  {
    SizeReads(s.down[..HEADER_BYTES], RESPONSE_DATA_BATCH, size);
  }

  lemma ReadHeaderStep(s: State)
    requires Inv(s) && Enabled(s, ReadHeader)
    ensures Inv(Apply(s, ReadHeader)) && !Apply(s, ReadHeader).receiver.pc.ReceiverDone?
    ensures Apply(s, ReadHeader).receiver.pc.Free? ==> Flying(s) == []
  {
    var max, c := s.receiver.pc.max, s.sender.recSize;
    assert Answered(s, max);
    HeaderRead(s, Bytes(|Flying(s)|, c));
    BytesOrder(0, |Flying(s)|, c);
    assert Flying(Apply(s, ReadHeader)) == Flying(s);
  }

  /** A payload of whole records is cut into those records. */
  lemma WholeRecords(payload: seq<Byte>, recs: seq<Record>, c: nat)
    requires c > 0 && Holds(payload, recs, c)
    ensures Whole(payload, c) == recs
  {
    QuotAt(|recs|, 0, c);
    assert payload[..|payload|] == payload;
    HoldsSameRecords(payload, Whole(payload, c), recs, c);
  }

  lemma ReadPayloadStep(s: State)
    requires Inv(s) && Enabled(s, ReadPayload)
    ensures Inv(Apply(s, ReadPayload))
    ensures Apply(s, ReadPayload).receiver.committed == s.sender.given
  {
    var size := s.receiver.pc.size;
    assert s.down[..size] == s.down && s.down[size..] == [];
    WholeRecords(s.down, Flying(s), s.sender.recSize);
    assert s.receiver.committed + Flying(s) == s.sender.given;
  }

  lemma QuitStep(s: State, a: Action)
    requires Inv(s) && Enabled(s, a) && (a.QuitSender? || a.QuitReceiver?)
    ensures Inv(Apply(s, a))
  {
    var t := Apply(s, a);
    assert Flying(t) == Flying(s);
    if s.receiver.pc.Requested? {
      var max := s.receiver.pc.max;
      assert Asking(s, max) ==> Asking(t, max);
      assert Answered(s, max) ==> Answered(t, max);
    }
  }

  /** What keeps a thread in its loop: only quitting ends it. */
  ghost predicate StaysIn(s: State, a: Action, t: State) {
    && (!a.QuitSender? && !s.sender.pc.SenderDone? ==> !t.sender.pc.SenderDone?)
    && (!a.QuitReceiver? && !s.receiver.pc.ReceiverDone? ==> !t.receiver.pc.ReceiverDone?)
  }

  lemma StaysInStep(s: State, a: Action)
    requires Inv(s) && Enabled(s, a) && FromReader(s, a)
    ensures StaysIn(s, a, Apply(s, a))
  {
    if a.ReadRequest? { ReadRequestStep(s); }
    if a.ReadHeader? { ReadHeaderStep(s); }
  }

  lemma KeepsInv(s: State, a: Action)
    requires Inv(s) && Enabled(s, a) && FromReader(s, a)
    ensures Inv(Apply(s, a))
  {
    match a
    case Request(cap) => RequestStep(s, cap);
    case ReadRequest => ReadRequestStep(s);
    case Answer(recs, payload) => AnswerStep(s, recs, payload);
    case ReadHeader => ReadHeaderStep(s);
    case ReadPayload => ReadPayloadStep(s);
    case _ => QuitStep(s, a);
  }

  lemma InvStep(s: State, a: Action)
    requires Inv(s) && Enabled(s, a) && FromReader(s, a)
    ensures Inv(Apply(s, a)) && StaysIn(s, a, Apply(s, a))
  {
    KeepsInv(s, a);
    StaysInStep(s, a);
  }

  lemma {:induction false} RunInv(run: seq<State>, k: nat)
    requires IsRun(run) && k < |run| && run[0].sender.recSize == run[0].receiver.recSize
    ensures Inv(run[k])
  {
    if k == 0 {
      InitInv(run[0]);
    } else {
      RunInv(run, k - 1);
      assert StepsAt(run, k - 1);
      var a :| Enabled(run[k - 1], a) && FromReader(run[k - 1], a) && run[k] == Apply(run[k - 1], a);
      InvStep(run[k - 1], a);
    }
  }

  lemma InitInv(s: State)
    requires Init(s) && s.sender.recSize == s.receiver.recSize
    ensures Inv(s)
  {
  }

  // ---------------------------------------------------------------------------
  // What the relay guarantees
  // ---------------------------------------------------------------------------

  /** Conservation: in every reachable state the records the receiver committed,
      followed by the at most one response under way, are the records the
      sender's reader delivered. The response is whole records and no larger
      than the request and the batch it goes to. No bound on the request size is
      needed: a request wrapped to 32 bits is only a smaller request. */
  lemma RelayConserves(run: seq<State>, k: nat)
    requires IsRun(run) && k < |run| && run[0].sender.recSize == run[0].receiver.recSize
    ensures var s := run[k];
      && s.receiver.committed + Flying(s) == s.sender.given
      && (Flying(s) != [] ==> s.receiver.pc.Requested? || s.receiver.pc.Incoming?)
      && ((s.receiver.pc.Requested? && s.down != []) || s.receiver.pc.Incoming? ==>
            Bytes(|Flying(s)|, s.sender.recSize) <= s.receiver.pc.max <= Bytes(s.receiver.pc.cap, s.receiver.recSize))
  {
    RunInv(run, k);
  }

  /** The checks on signature, type and size never end either loop. */
  lemma NeverRejects(run: seq<State>, k: nat)
    requires IsRun(run) && k < |run| && run[0].sender.recSize == run[0].receiver.recSize
    ensures Enabled(run[k], ReadRequest) ==> !Apply(run[k], ReadRequest).sender.pc.SenderDone?
    ensures Enabled(run[k], ReadHeader) ==> !Apply(run[k], ReadHeader).receiver.pc.ReceiverDone?
  {
    RunInv(run, k);
    if Enabled(run[k], ReadRequest) { InvStep(run[k], ReadRequest); }
    if Enabled(run[k], ReadHeader) { InvStep(run[k], ReadHeader); }
  }

  /** The turn brings the exchange closer to its end, and at the end everything
      the reader delivered is committed. */
  ghost predicate Falls(s: State, a: Action) {
    && Enabled(s, a) && FromReader(s, a) && Turns(Apply(s, a)) < Turns(s)
    && (Apply(s, a).receiver.pc.Free? ==> Apply(s, a).receiver.committed == s.sender.given)
  }

  lemma PayloadFalls(s: State)
    requires Inv(s) && s.receiver.pc.Incoming?
    ensures Falls(s, ReadPayload)
  {
    ReadPayloadStep(s);
  }

  lemma AnswerFalls(s: State)
    requires Inv(s) && s.receiver.pc.Requested? && s.sender.pc.Asked?
    ensures Falls(s, Answer([], []))
  {
    AnswerStep(s, [], []);
  }

  lemma RequestFalls(s: State)
    requires Inv(s) && s.receiver.pc.Requested? && s.sender.pc.Listening? && s.up != []
    ensures Falls(s, ReadRequest)
  {
    ReadRequestStep(s);
  }

  lemma HeaderFalls(s: State)
    requires Inv(s) && s.receiver.pc.Requested? && s.sender.pc.Listening? && s.up == []
    ensures Falls(s, ReadHeader)
  {
    ReadHeaderStep(s);
  }

  /** The two never wait for each other: while the sender listens, a receiver
      that has asked gets its answer in at most four turns, and then everything
      the reader delivered is committed. */
  lemma ExchangeEnds(s: State) returns (a: Action)
    requires Inv(s) && (s.receiver.pc.Requested? || s.receiver.pc.Incoming?) && !s.sender.pc.SenderDone?
    ensures Enabled(s, a) && FromReader(s, a) && Turns(Apply(s, a)) < Turns(s)
    ensures Apply(s, a).receiver.pc.Free? ==> Apply(s, a).receiver.committed == s.sender.given
  {
    if s.receiver.pc.Incoming? {
      a := ReadPayload;
      PayloadFalls(s);
    } else if s.sender.pc.Asked? {
      a := Answer([], []);
      AnswerFalls(s);
    } else if s.up != [] {
      a := ReadRequest;
      RequestFalls(s);
    } else {
      a := ReadHeader;
      HeaderFalls(s);
    }
  }

  /** How far an exchange is from its end. */
  function Turns(s: State): nat {
    if s.receiver.pc.Incoming? then 1
    else if !s.receiver.pc.Requested? then 0
    else if s.sender.pc.Asked? then 3
    else if s.up != [] then 4 else 2
  }

  // ---------------------------------------------------------------------------
  // One exchange
  // ---------------------------------------------------------------------------

  /** What the sender takes a request for cap records to ask for. */
  function AskedFor(cap: nat, recSize: nat): nat
    requires recSize > 0
  {
    ((cap * recSize) % UINT32_LIMIT) / recSize
  }

  /** A request asks for all the records there is room for, exactly as long as
      their bytes can be counted in 32 bits. */
  lemma AskedForAll(cap: nat, recSize: nat)
    requires recSize > 0
    ensures AskedFor(cap, recSize) <= cap
    ensures AskedFor(cap, recSize) == cap <==> cap * recSize < UINT32_LIMIT
  {
    var total := cap * recSize;
    var cut := total % UINT32_LIMIT;
    Cast(total);
    DivTimes(cut, recSize);
    Rings.MulMod(cap, recSize, 0);
    if cut / recSize > cap { MoreTimes(cap, cut / recSize, recSize); }
    if cut < total && cut / recSize == cap { assert false; }
  }

  lemma DivTimes(a: nat, c: nat)
    requires c > 0
    ensures a / c * c <= a < a / c * c + c
  {
  }

  lemma MoreTimes(a: nat, b: nat, c: nat)
    requires a < b
    ensures a * c + c <= b * c
  {
    BytesOrder(a, b, c);
    BytesIsMul(a, c);
    BytesIsMul(b, c);
  }

  /** From rest, a request and its reading leave the sender with that number, or
      with a keep-alive on its way when it is 0. */
  lemma RequestAsks(s: State, cap: nat)
    requires Inv(s) && Enabled(s, Request(cap)) && s.sender.pc.Listening?
    ensures Enabled(Apply(s, Request(cap)), ReadRequest)
    ensures var s1, n := Apply(s, Request(cap)), AskedFor(cap, s.sender.recSize);
      Apply(s1, ReadRequest) ==
        s.(receiver := s1.receiver, sender := if n == 0 then s.sender else s.sender.(pc := Asked(n)),
           down := if n == 0 then Header(RESPONSE_DATA_BATCH, 0) else [])
  {
    var c := s.sender.recSize;
    var s1 := Apply(s, Request(cap));
    var max := s1.receiver.pc.max;
    BytesIsMul(cap, c);
    Cast(cap * c);
    QuotIsDiv(max, c);
    AddNothing(Header(REQUEST_DATA_BATCH, max));
    AddNothing(Header(RESPONSE_DATA_BATCH, 0));
    RequestRead(s1, max);
  }

  /** The actions acts, one after the other, lead from s to t. */
  ghost predicate Steps(s: State, acts: seq<Action>, t: State)
    decreases |acts|
  {
    if acts == [] then s == t
    else Enabled(s, acts[0]) && FromReader(s, acts[0]) && Steps(Apply(s, acts[0]), acts[1..], t)
  }

  lemma StepFirst(s: State, a: Action, rest: seq<Action>, t: State)
    requires Enabled(s, a) && FromReader(s, a) && Steps(Apply(s, a), rest, t)
    ensures Steps(s, [a] + rest, t)
  {
    assert ([a] + rest)[1..] == rest;
  }

  /** Where an exchange that moves recs leads. */
  function Exchanged(s: State, recs: seq<Record>): State {
    s.(sender := s.sender.(given := s.sender.given + recs),
       receiver := s.receiver.(committed := s.receiver.committed + recs))
  }

  /** Whatever the reader then gives, up to the number asked for, arrives: the
      turns of one exchange commit exactly those records and leave both at rest. */
  lemma ExchangeCommits(s: State, cap: nat, recs: seq<Record>, payload: seq<Byte>)
    requires Inv(s) && Enabled(s, Request(cap)) && s.sender.pc.Listening?
    requires 0 < |recs| <= AskedFor(cap, s.sender.recSize) && Holds(payload, recs, s.sender.recSize)
    ensures Steps(s, [Request(cap)] + ([ReadRequest] + ([Answer(recs, payload)] + ([ReadHeader] + [ReadPayload]))),
                  Exchanged(s, recs))
  {
    var s1 := Apply(s, Request(cap));
    var s2 := Apply(s1, ReadRequest);
    RequestAsks(s, cap);
    RequestStep(s, cap);
    ReadRequestStep(s1);
    AnswerArrives(s2, recs, payload);
    AnsweredIs(s, s2, recs);
    StepFirst(s1, ReadRequest, [Answer(recs, payload)] + ([ReadHeader] + [ReadPayload]), Exchanged(s, recs));
    StepFirst(s, Request(cap), [ReadRequest] + ([Answer(recs, payload)] + ([ReadHeader] + [ReadPayload])),
              Exchanged(s, recs));
  }

  lemma AnsweredIs(s: State, s2: State, recs: seq<Record>)
    requires s.receiver.pc.Free? && s.sender.pc.Listening? && s.up == [] && s.down == []
    requires s2.up == []
    requires s2.sender == s.sender.(pc := s2.sender.pc) && s2.receiver == s.receiver.(pc := s2.receiver.pc)
    ensures Arrived(s2, recs) == Exchanged(s, recs)
  {
  }

  function Arrived(s: State, recs: seq<Record>): State {
    State(s.sender.(pc := Listening, given := s.sender.given + recs),
          s.receiver.(pc := Free, committed := s.receiver.committed + recs), s.up, [])
  }

  lemma AnswerArrives(s: State, recs: seq<Record>, payload: seq<Byte>)
    requires Inv(s) && s.receiver.pc.Requested? && Answering(s, s.receiver.pc.max)
    requires 0 < |recs| <= s.sender.pc.max && Holds(payload, recs, s.sender.recSize)
    ensures Steps(s, [Answer(recs, payload)] + ([ReadHeader] + [ReadPayload]), Arrived(s, recs))
  {
    var c, max := s.sender.recSize, s.receiver.pc.max;
    var size := Bytes(|recs|, c);
    var head := Header(RESPONSE_DATA_BATCH, size);
    BytesOrder(|recs|, s.sender.pc.max, c);
    BytesOrder(0, |recs|, c);
    var s1 := Apply(s, Answer(recs, payload));
    assert s1.down == head + payload;
    assert s1.down[..HEADER_BYTES] == head && s1.down[HEADER_BYTES..] == payload;
    HeaderRead(s1, size);
    var s2 := Apply(s1, ReadHeader);
    assert payload[..size] == payload && payload[size..] == [];
    WholeRecords(payload, recs, c);
    var t := Apply(s2, ReadPayload);
    assert t == Arrived(s, recs);
    StepFirst(s2, ReadPayload, [], t);
    StepFirst(s1, ReadHeader, [ReadPayload] + [], t);
    StepFirst(s, Answer(recs, payload), [ReadHeader] + [ReadPayload], t);
  }

  // ---------------------------------------------------------------------------
  // What the checks let through
  // ---------------------------------------------------------------------------

  /** A header as it lies on the wire. */
  lemma HeaderBytes()
    ensures Header(REQUEST_DATA_BATCH, 120) == [0x00, 0x43, 0x59, 0x43, 6, 120, 0, 0, 0]
  {
    FourBytes([0x00, 0x43, 0x59, 0x43]);
    OneByte([6]);
    FourBytes([120, 0, 0, 0]);
    Cast(120);
  }

  lemma AcceptedIs(b: seq<Byte>, kind: nat)
    requires |b| == HEADER_BYTES && kind < 256
    ensures Accepts(b, kind) <==> exists n: nat | n < UINT32_LIMIT :: b == Header(kind, n)
    ensures forall n: nat | n < UINT32_LIMIT && b == Header(kind, n) :: PayloadSize(b) == n
  {
    LimitIs();
    if Accepts(b, kind) {
      EncodeDecode(b[..4]);
      EncodeDecode(b[4..5]);
      EncodeDecode(b[5..9]);
      Cast(PayloadSize(b));
      assert b == b[..4] + b[4..5] + b[5..9];
      assert b == Header(kind, PayloadSize(b));
    }
    forall n: nat | n < UINT32_LIMIT && b == Header(kind, n) ensures Accepts(b, kind) && PayloadSize(b) == n {
      HeaderReads(kind, n);
      Cast(n);
    }
  }

  /** The sender's loop ends on exactly what is no request. */
  lemma RequestRejectedIff(s: State)
    requires Enabled(s, ReadRequest)
    ensures Apply(s, ReadRequest).sender.pc.SenderDone? <==>
      !(exists n: nat | n < UINT32_LIMIT :: s.up[..HEADER_BYTES] == Header(REQUEST_DATA_BATCH, n))
  {
    AcceptedIs(s.up[..HEADER_BYTES], REQUEST_DATA_BATCH);
  }

  /** The receiver's loop ends on exactly what is no response, or a larger one
      than was asked for. */
  lemma ResponseRejectedIff(s: State)
    requires Enabled(s, ReadHeader)
    ensures Apply(s, ReadHeader).receiver.pc.ReceiverDone? <==>
      !(exists n: nat | n < UINT32_LIMIT && n <= s.receiver.pc.max ::
          s.down[..HEADER_BYTES] == Header(RESPONSE_DATA_BATCH, n))
  {
    AcceptedIs(s.down[..HEADER_BYTES], RESPONSE_DATA_BATCH);
  }

  /** What the receiver makes of a non-empty response is what was sent exactly
      when both ends work with the same record size. */
  lemma SizesMustMatch(payload: seq<Byte>, recs: seq<Record>, senderSize: nat, receiverSize: nat)
    requires senderSize > 0 && receiverSize > 0 && recs != [] && Holds(payload, recs, senderSize)
    ensures Whole(payload, receiverSize) == recs <==> receiverSize == senderSize
  {
    if receiverSize == senderSize {
      WholeRecords(payload, recs, senderSize);
    } else {
      assert |recs[0]| == senderSize;
    }
  }

  /** End to end: next to one blocking writer, what arrives on the far side is
      an initial part of one slice of everything written, from where the
      sender's reader began, with nothing missing in between. */
  lemma RelayExactlyOnce(run: seq<State>, k: nat, local: seq<Pipeline.State>, m: nat, j: nat)
    requires IsRun(run) && k < |run| && run[0].sender.recSize == run[0].receiver.recSize
    requires Pipeline.IsRun(local) && m < |local| && PipelineTheorems.OneBlockingWriter(local[0])
    requires j < |local[m].readers| && run[k].sender.given == local[m].readers[j].delivered
    ensures |local[m].writers| == 1
    ensures var all, start := local[0].history + local[m].writers[0].committed, local[m].readers[j].start;
      && start + |run[k].sender.given| <= |all|
      && run[k].receiver.committed + Flying(run[k]) == all[start..start + |run[k].sender.given|]
  {
    RelayConserves(run, k);
    PipelineTheorems.ExactlyOnce(local, m, j);
    var r := local[m].readers[j];
    FrontOfSlice(local[0].history + local[m].writers[0].committed, r.start, r.Frontier(), r.delivered, r.Held());
  }

  lemma FrontOfSlice<T>(all: seq<T>, lo: nat, hi: nat, x: seq<T>, y: seq<T>)
    requires lo <= hi <= |all| && x + y == all[lo..hi]
    ensures lo + |x| <= |all| && x == all[lo..lo + |x|]
  {
    assert |x + y| == hi - lo;
    assert x == (x + y)[..|x|];
  }

  /** The receiver works with the rule it parsed from the sender's text. Its
      record size is the sender's exactly when the sender's rule has no padding
      at its end. */
  lemma NegotiatedSize(names: Names, rule: Rule, header: PAttr, input: seq<PAttr>, align: bool)
    requires SchemaRoundTrip.PrintableRule(names, rule, header, input, align)
    ensures var parsed := FromText(names, ToText(names, rule.attrs));
      && parsed.Ok?
      && (parsed.value.1.recSize == rule.recSize <==> !align || SizeSum(rule.attrs) % MaxElem(rule.attrs) == 0)
  {
    SchemaRoundTrip.SchemaRoundTrip(names, rule, header, input, align);
    SchemaRoundTrip.SizeSurvives(header, input, align);
  }
}
