/** Reading a .cbf file back: the rule from its schema section, then the records
    of its data sections in blocks of any size. */
module CbfReaders {
  import opened Helpers
  import Rings
  import opened Chunks
  import opened Wire
  import opened ByteValues
  import opened Decimal
  import opened Registry
  import opened Attributes
  import opened Rules
  import opened SchemaText
  import opened CbfFiles
  import SchemaRoundTrip

  /** The characters of a schema body. */
  function TextOf(b: seq<Byte>): (s: string)
    ensures |s| == |b|
  {
    if b == [] then "" else [ValueOf(b[0]) as char] + TextOf(b[1..])
  }

  predicate ByteText(s: string) {
    forall i | 0 <= i < |s| :: s[i] as int < 256
  }

  function BytesOf(s: string): (b: seq<Byte>)
    requires ByteText(s)
    ensures |b| == |s|
  {
    if s == "" then [] else [ByteOf(s[0] as int)] + BytesOf(s[1..])
  }

  lemma {:induction false} TextRoundTrip(s: string)
    requires ByteText(s)
    ensures TextOf(BytesOf(s)) == s
  {
    if s != "" {
      TextRoundTrip(s[1..]);
      ByteRoundTrip(s[0] as int);
      assert BytesOf(s)[1..] == BytesOf(s[1..]);
      assert s == [s[0]] + s[1..];
    }
  }

  // ---------------------------------------------------------------------------
  // The stream
  // ---------------------------------------------------------------------------

  /** A file open for reading. A read that comes up short clears `good`, and
      then nothing more is read or skipped. */
  datatype Source = Source(bytes: seq<Byte>, pos: nat, good: bool)
  {
    function Left(): nat { if good && pos < |bytes| then |bytes| - pos else 0 }

    function Got(n: nat): (b: seq<Byte>)
      ensures |b| == if n < Left() then n else Left()
    {
      if Left() == 0 then [] else if n < Left() then bytes[pos..pos + n] else bytes[pos..]
    }

    function Read(n: nat): Source {
      if !good then this
      else if |Got(n)| == n then this.(pos := pos + n)
      else this.(pos := pos + |Got(n)|, good := false)
    }
  }

  datatype SectionHeader = SectionHeader(kind: Byte, length: int)

  function Signed(n: nat): int {
    if n < INT64_LIMIT then n else n - 2 * INT64_LIMIT
  }

  function ParseHeader(b: seq<Byte>): Option<SectionHeader> {
    if |b| != HEADER_BYTES || Decode(b[..4]) != MARKER then None
    else Some(SectionHeader(b[4], Signed(Decode(b[LENGTH_FIELD..]))))
  }

  /** skipSection never moves backwards. */
  function Skip(s: Source, h: SectionHeader): (s': Source)
    ensures s'.Left() <= s.Left()
  {
    if h.length > 0 && s.good then s.(pos := s.pos + h.length) else s
  }

  /** readRule: a body of implausible length is left where it is. Names that a
      schema registers before it turns out unreadable stay registered. */
  function ReadRule(names: Names, s: Source, h: SectionHeader): (r: (Source, Names, Option<Rule>))
    ensures r.0.Left() <= s.Left()
  {
    if h.length <= 0 || h.length > MAX_SCHEMA_BODY then (s, names, None)
    else if |s.Got(h.length)| != h.length then (s.Read(h.length), names, None)
    else
      var text := TextOf(s.Got(h.length));
      match FromText(names, text)
      case Err(_) => (s.Read(h.length), TextNames(names, text), None)
      case Ok(r) => (s.Read(h.length), r.0, Some(r.1))
  }

  // ---------------------------------------------------------------------------
  // The reader
  // ---------------------------------------------------------------------------

  datatype Reader = Reader(src: Source, recordSize: nat, valid: bool, remaining: int, running: bool)
  {
    predicate Valid() { valid ==> recordSize > 0 }
  }

  datatype Found = Found(names: Names, rule: Option<Rule>, reader: Reader)

  /** The section scan of defineRule: up to the first data section, every schema
      that reads replaces the one before. */
  function Scan(f: Found): (f': Found)
    requires f.reader.Valid()
    ensures f'.reader.Valid()
    decreases f.reader.src.Left()
  {
    var r := f.reader;
    var src := r.src.Read(HEADER_BYTES);
    match ParseHeader(r.src.Got(HEADER_BYTES))
    case None => f.(reader := r.(src := src))
    case Some(h) =>
      if h.kind == SCHEMA then Scan(TakeRule(f.(reader := r.(src := src)), h))
      else if h.kind == DATA then f.(reader := r.(src := src, remaining := h.length))
      else Scan(f.(reader := r.(src := Skip(src, h))))
  }

  function TakeRule(f: Found, h: SectionHeader): (f': Found)
    requires f.reader.Valid()
    ensures f'.reader.Valid() && f'.reader.src.Left() <= f.reader.src.Left()
  {
    var r := f.reader;
    var (src, names, got) := ReadRule(f.names, r.src, h);
    match got
    case None => f.(names := names, reader := r.(src := src))
    case Some(p) => Found(names, Some(p), r.(src := src, recordSize := p.recSize, valid := p.recSize > 0))
  }

  /** On to the next data section: where its body starts and its length, 0 when
      there is none. */
  function NextData(src: Source): (Source, int)
    decreases src.Left()
  {
    match ParseHeader(src.Got(HEADER_BYTES))
    case None => (src.Read(HEADER_BYTES), 0)
    case Some(h) =>
      if h.kind == DATA then (src.Read(HEADER_BYTES), h.length) else NextData(Skip(src.Read(HEADER_BYTES), h))
  }

  /** produceBatch: the next at most `capacity` records. */
  function Produce(r: Reader, capacity: nat): (p: (Reader, seq<Byte>))
    requires r.Valid()
    ensures p.0.Valid()
  {
    if !r.valid || !r.src.good || r.remaining <= 0 then (r.(running := false), [])
    else
      var count := Min(capacity, Quot(r.remaining, r.recordSize));
      var n := Bytes(count, r.recordSize);
      if count == 0 then (r, [])
      else if |r.src.Got(n)| != n then (r.(src := r.src.Read(n), valid := false), [])
      else if r.remaining == n then
        var (src, length) := NextData(r.src.Read(n));
        (r.(src := src, remaining := length), r.src.Got(n))
      else (r.(src := r.src.Read(n), remaining := r.remaining - n), r.src.Got(n))
  }

  class CbfReader {
    var file: Source
    var recordSize: nat
    var valid: bool
    var dataBytesRemaining: int
    var running: bool

    function View(): Reader
      reads this
    {
      Reader(file, recordSize, valid, dataBytesRemaining, running)
    }

    predicate Valid()
      reads this
    {
      View().Valid()
    }

    constructor (bytes: seq<Byte>)
      ensures Valid() && View() == Reader(Source(bytes, 0, true), 0, false, 0, true)
    {
      file, recordSize, valid, dataBytesRemaining, running := Source(bytes, 0, true), 0, false, 0, true;
    }

    method ReadSectionHeader() returns (h: Option<SectionHeader>)
      modifies this`file
      ensures file == old(file).Read(HEADER_BYTES)
      ensures h == ParseHeader(old(file).Got(HEADER_BYTES))
    {
      var b := file.Got(HEADER_BYTES);
      file := file.Read(HEADER_BYTES);
      if |b| != HEADER_BYTES {
        return None;
      }
      if Decode(b[..4]) != MARKER {
        return None;
      }
      return Some(SectionHeader(b[4], Signed(Decode(b[LENGTH_FIELD..]))));
    }

    method DefineRule(names: Names) returns (names': Names, rule: Option<Rule>)
      requires Valid()
      modifies this
      ensures Valid()
      ensures Found(names', rule, View()) == Scan(Found(names, None, old(View()).(valid := false)))
    {
      valid := false;
      ghost var first := Found(names, None, View());
      names', rule := names, None;
      while true
        invariant Valid()
        invariant Scan(Found(names', rule, View())) == Scan(first)
        decreases file.Left()
      {
        ghost var was := file.Left();
        var h := ReadSectionHeader();
        if h.None? {
          break;
        }
        if h.value.kind == SCHEMA {
          var (src, known, got) := ReadRule(names', file, h.value);
          file, names' := src, known;
          if got.Some? {
            rule := got;
            recordSize := got.value.recSize;
            valid := recordSize > 0;
          }
        } else if h.value.kind == DATA {
          dataBytesRemaining := h.value.length;
          break;
        } else {
          file := Skip(file, h.value);
        }
      }
    }

    method ProduceBatch(capacity: nat) returns (data: seq<Byte>)
      requires Valid()
      modifies this
      ensures Valid() && (View(), data) == Produce(old(View()), capacity)
    {
      if !valid || !file.good || dataBytesRemaining <= 0 {
        running := false;
        return [];
      }
      var countToRead := capacity;
      QuotIsDiv(dataBytesRemaining, recordSize);
      var recordsRemaining := dataBytesRemaining / recordSize;
      if countToRead > recordsRemaining {
        countToRead := recordsRemaining;
      }
      if countToRead == 0 {
        return [];
      }
      BytesIsMul(countToRead, recordSize);
      var bytesToRead := countToRead * recordSize;
      data := file.Got(bytesToRead);
      file := file.Read(bytesToRead);
      if |data| != bytesToRead {
        valid := false;
        return [];
      }
      dataBytesRemaining := dataBytesRemaining - bytesToRead;
      if dataBytesRemaining == 0 {
        FindData();
      }
    }

    method FindData()
      requires dataBytesRemaining == 0
      modifies this`file, this`dataBytesRemaining
      ensures (file, dataBytesRemaining) == NextData(old(file))
    {
      while true
        invariant dataBytesRemaining == 0 && NextData(file) == NextData(old(file))
        decreases file.Left()
      {
        var h := ReadSectionHeader();
        if h.None? {
          break;
        }
        if h.value.kind == DATA {
          dataBytesRemaining := h.value.length;
          break;
        }
        file := Skip(file, h.value);
      }
    }
  }

  // ---------------------------------------------------------------------------
  // Reading what was written
  // ---------------------------------------------------------------------------

  /** Data sections one after the other. */
  function Sections(alias: seq<Byte>, bodies: seq<seq<Byte>>): seq<Byte> {
    if bodies == [] then [] else Section(DATA, alias, bodies[0]) + Sections(alias, bodies[1..])
  }

  ghost predicate WholeBodies(bodies: seq<seq<Byte>>, c: nat) {
    forall i | 0 <= i < |bodies| :: |bodies[i]| < INT64_LIMIT && exists n: nat :: |bodies[i]| == Bytes(n, c)
  }

  /** What is left to deliver: the rest of this body and the bodies after it, up
      to the first empty one. */
  function Due(left: seq<Byte>, tail: seq<seq<Byte>>): seq<Byte>
    decreases |tail|
  {
    if left == [] then [] else if tail == [] then left else left + Due(tail[0], tail[1..])
  }

  /** The reader stands before the bytes `left` of a body, `tail` is yet to come. */
  ghost predicate Stands(r: Reader, alias: seq<Byte>, left: seq<Byte>, tail: seq<seq<Byte>>) {
    && r.Valid() && r.remaining == |left|
    && (left != [] ==>
         && r.valid && r.src.good && r.src.pos <= |r.src.bytes|
         && r.src.bytes[r.src.pos..] == left + Sections(alias, tail)
         && WholeBodies([left] + tail, r.recordSize))
  }

  lemma HeaderParses(kind: Byte, alias: seq<Byte>, length: nat)
    requires length < INT64_LIMIT
    ensures ParseHeader(CbfFiles.Header(kind, alias, length)) == Some(SectionHeader(kind, length))
  {
    assert Limit(2) == 65536 && Limit(4) == 256 * Limit(3) && Limit(3) == 256 * Limit(2);
    DecodeEncode(MARKER, 4);
    LengthReads(length);
    Fields(Encode(MARKER, 4), kind, Name(alias, NAME_BYTES), Encode(length % (2 * INT64_LIMIT), 8),
           CbfFiles.Header(kind, alias, length));
  }

  lemma Fields(marker: seq<Byte>, kind: Byte, name: seq<Byte>, length: seq<Byte>, b: seq<Byte>)
    requires b == marker + ([kind] + name) + length && |marker| == 4 && |name| == NAME_BYTES
    ensures b[..4] == marker && b[4] == kind && b[LENGTH_FIELD..] == length
  {
  }

  lemma GotFront(s: Source, front: seq<Byte>, rest: seq<Byte>)
    requires s.good && s.pos <= |s.bytes| && s.bytes[s.pos..] == front + rest
    ensures s.Got(|front|) == front && s.Read(|front|) == s.(pos := s.pos + |front|)
    ensures s.pos + |front| <= |s.bytes| && s.bytes[s.pos + |front|..] == rest
  {
    assert |s.bytes| - s.pos == |front| + |rest|;
    assert s.bytes[s.pos..][..|front|] == front;
    assert s.bytes[s.pos..][|front|..] == rest;
    assert s.bytes[s.pos..s.pos + |front|] == s.bytes[s.pos..][..|front|];
    assert s.bytes[s.pos + |front|..] == s.bytes[s.pos..][|front|..];
  }

  /** At the header of a data section the search ends, before its body. */
  lemma NextIs(src: Source, alias: seq<Byte>, length: nat, rest: seq<Byte>)
    requires src.good && src.pos <= |src.bytes| && length < INT64_LIMIT
    requires src.bytes[src.pos..] == CbfFiles.Header(DATA, alias, length) + rest
    ensures NextData(src) == (src.(pos := src.pos + HEADER_BYTES), length)
    ensures src.pos + HEADER_BYTES <= |src.bytes| && src.bytes[src.pos + HEADER_BYTES..] == rest
  {
    GotFront(src, CbfFiles.Header(DATA, alias, length), rest);
    HeaderParses(DATA, alias, length);
  }

  /** Past the end of a body the next data section is found, if there is one. */
  lemma NextFound(src: Source, alias: seq<Byte>, tail: seq<seq<Byte>>)
    requires src.good && src.pos <= |src.bytes| && src.bytes[src.pos..] == Sections(alias, tail)
    requires tail != [] ==> |tail[0]| < INT64_LIMIT
    ensures tail == [] ==> NextData(src).1 == 0
    ensures tail != [] ==>
      var (src', length) := NextData(src);
      && length == |tail[0]| && src'.good && src'.pos <= |src'.bytes|
      && src'.bytes[src'.pos..] == tail[0] + Sections(alias, tail[1..])
  {
    if tail == [] {
      assert src.Left() == 0;
    } else {
      var rest := tail[0] + Sections(alias, tail[1..]);
      Reassociate(CbfFiles.Header(DATA, alias, |tail[0]|), tail[0], Sections(alias, tail[1..]));
      NextIs(src, alias, |tail[0]|, rest);
    }
  }

  lemma WholeLeft(left: seq<Byte>, k: nat, n: nat, c: nat)
    requires c > 0 && |left| == Bytes(n, c) && k <= n
    ensures Bytes(k, c) <= |left| && |left[Bytes(k, c)..]| == Bytes(n - k, c)
    ensures Quot(|left|, c) == n
  {
    BytesOrder(k, n, c);
    QuotAt(n, 0, c);
  }

  /** What one call takes off a body of n records. */
  lemma ProduceTakes(r: Reader, left: seq<Byte>, rest: seq<Byte>, n: nat, capacity: nat)
    requires r.Valid() && r.valid && r.src.good && r.src.pos <= |r.src.bytes|
    requires r.src.bytes[r.src.pos..] == left + rest && r.remaining == |left| > 0
    requires capacity > 0 && |left| == Bytes(n, r.recordSize)
    ensures var k := Min(capacity, n);
      var size := Bytes(k, r.recordSize);
      var src := r.src.(pos := r.src.pos + size);
      && 0 < k && size <= |left| && r.src.pos + size <= |r.src.bytes|
      && r.src.bytes[r.src.pos + size..] == left[size..] + rest
      && Produce(r, capacity) ==
        if k == n then (r.(src := NextData(src).0, remaining := NextData(src).1), left)
        else (r.(src := src, remaining := |left| - size), left[..size])
    ensures capacity < n ==> 0 < |left[Bytes(capacity, r.recordSize)..]|
  {
    var c := r.recordSize;
    var k := Min(capacity, n);
    WholeLeft(left, k, n, c);
    BytesOrder(k, n, c);
    var size := Bytes(k, c);
    SplitBody(left, size, rest);
    GotFront(r.src, left[..size], left[size..] + rest);
  }

  lemma SplitBody(left: seq<Byte>, size: nat, rest: seq<Byte>)
    requires size <= |left|
    ensures left + rest == left[..size] + (left[size..] + rest)
    ensures size == |left| ==> left[..size] == left && left[size..] + rest == rest
  {
  }

  /** The next call, for any positive capacity, delivers whole records off the
      front of what is due; when nothing is due it stops. */
  lemma ProduceStep(r: Reader, alias: seq<Byte>, left: seq<Byte>, tail: seq<seq<Byte>>, capacity: nat)
    returns (left': seq<Byte>, tail': seq<seq<Byte>>)
    requires Stands(r, alias, left, tail) && capacity > 0
    ensures left == [] ==> Produce(r, capacity) == (r.(running := false), []) && left' == left && tail' == tail
    ensures var (r', data) := Produce(r, capacity);
      && Stands(r', alias, left', tail') && r'.recordSize == r.recordSize
      && data + Due(left', tail') == Due(left, tail)
    ensures left != [] ==> exists k: nat :: k > 0 && |Produce(r, capacity).1| == Bytes(k, r.recordSize)
  {
    left', tail' := left, tail;
    if left != [] {
      var c := r.recordSize;
      assert ([left] + tail)[0] == left;
      var n: nat :| |left| == Bytes(n, c);
      ProduceTakes(r, left, Sections(alias, tail), n, capacity);
      if capacity < n {
        left' := StepInside(r, alias, left, tail, n, capacity);
      } else {
        left', tail' := StepOver(r, alias, left, tail, n, capacity);
      }
    }
  }

  /** ... within a body */
  lemma StepInside(r: Reader, alias: seq<Byte>, left: seq<Byte>, tail: seq<seq<Byte>>, n: nat, capacity: nat)
    returns (left': seq<Byte>)
    requires Stands(r, alias, left, tail) && 0 < capacity < n && |left| == Bytes(n, r.recordSize) > 0
    ensures var (r', data) := Produce(r, capacity);
      && Stands(r', alias, left', tail) && r'.recordSize == r.recordSize
      && data + Due(left', tail) == Due(left, tail) && |data| == Bytes(capacity, r.recordSize)
  {
    var c := r.recordSize;
    ProduceTakes(r, left, Sections(alias, tail), n, capacity);
    WholeLeft(left, capacity, n, c);
    left' := left[Bytes(capacity, c)..];
    KeepWhole(left', tail, n - capacity, left, c);
    assert left == left[..Bytes(capacity, c)] + left';
    if tail != [] { Reassociate(left[..Bytes(capacity, c)], left', Due(tail[0], tail[1..])); }
  }

  /** ... or to its end and on to the next one. */
  lemma StepOver(r: Reader, alias: seq<Byte>, left: seq<Byte>, tail: seq<seq<Byte>>, n: nat, capacity: nat)
    returns (left': seq<Byte>, tail': seq<seq<Byte>>)
    requires Stands(r, alias, left, tail) && 0 < n <= capacity && |left| == Bytes(n, r.recordSize) > 0
    ensures var (r', data) := Produce(r, capacity);
      && Stands(r', alias, left', tail') && r'.recordSize == r.recordSize
      && data + Due(left', tail') == Due(left, tail) && |data| == Bytes(n, r.recordSize)
  {
    ProduceTakes(r, left, Sections(alias, tail), n, capacity);
    SplitBody(left, |left|, Sections(alias, tail));
    WholeTail(left, tail, r.recordSize);
    NextFound(r.src.(pos := r.src.pos + |left|), alias, tail);
    if tail == [] {
      left', tail' := [], [];
      assert left + [] == left;
    } else {
      left', tail' := tail[0], tail[1..];
    }
  }

  lemma WholeTail(left: seq<Byte>, tail: seq<seq<Byte>>, c: nat)
    requires WholeBodies([left] + tail, c)
    ensures tail != [] ==> |tail[0]| < INT64_LIMIT && WholeBodies([tail[0]] + tail[1..], c)
  {
    TailWhole([left] + tail, c);
    assert ([left] + tail)[1..] == tail;
    if tail != [] { assert [tail[0]] + tail[1..] == tail; }
  }

  lemma KeepWhole(left': seq<Byte>, tail: seq<seq<Byte>>, n: nat, left: seq<Byte>, c: nat)
    requires WholeBodies([left] + tail, c) && |left'| == Bytes(n, c) && |left'| <= |left|
    ensures WholeBodies([left'] + tail, c)
  {
    var old', new' := [left] + tail, [left'] + tail;
    assert |old'[0]| < INT64_LIMIT;
    forall i | 0 <= i < |new'| ensures |new'[i]| < INT64_LIMIT && exists m: nat :: |new'[i]| == Bytes(m, c) {
      if i > 0 { assert new'[i] == old'[i]; }
    }
  }

  lemma TailWhole(bodies: seq<seq<Byte>>, c: nat)
    requires bodies != [] && WholeBodies(bodies, c)
    ensures WholeBodies(bodies[1..], c)
  {
    var rest := bodies[1..];
    forall i | 0 <= i < |rest| ensures |rest[i]| < INT64_LIMIT && exists m: nat :: |rest[i]| == Bytes(m, c) {
      assert rest[i] == bodies[i + 1];
    }
  }

  /** The blocks of a series of calls, put together. */
  function Drain(r: Reader, capacities: seq<nat>): (p: (Reader, seq<Byte>))
    requires r.Valid()
    ensures p.0.Valid()
    decreases |capacities|
  {
    if capacities == [] then (r, [])
    else
      var (r', data) := Produce(r, capacities[0]);
      var (last, more) := Drain(r', capacities[1..]);
      (last, data + more)
  }

  /** Whatever the capacities, the blocks are what is due, from its front, and
      after at most one call per record and one more all of it has come and the
      producer has stopped. */
  lemma {:induction false} DrainsDue(
      r: Reader, alias: seq<Byte>, left: seq<Byte>, tail: seq<seq<Byte>>, capacities: seq<nat>, n: nat)
    requires Stands(r, alias, left, tail) && r.recordSize > 0 && |Due(left, tail)| == Bytes(n, r.recordSize)
    requires forall i | 0 <= i < |capacities| :: capacities[i] > 0
    ensures Drain(r, capacities).1 <= Due(left, tail)
    ensures |capacities| > n ==> Drain(r, capacities).1 == Due(left, tail) && !Drain(r, capacities).0.running
    decreases |capacities|
  {
    if capacities != [] {
      var left', tail' := ProduceStep(r, alias, left, tail, capacities[0]);
      var (r', data) := Produce(r, capacities[0]);
      DrainFirst(r, capacities);
      if left != [] {
        var k: nat :| k > 0 && |data| == Bytes(k, r.recordSize);
        DueCount(|data|, |Due(left', tail')|, n, k, r.recordSize);
        DrainsDue(r', alias, left', tail', capacities[1..], n - k);
        TakenFirst(data, Drain(r', capacities[1..]).1, Due(left', tail'), Due(left, tail));
      } else {
        StaysStopped(r', capacities[1..]);
      }
    }
  }

  lemma DrainFirst(r: Reader, capacities: seq<nat>)
    requires r.Valid() && capacities != []
    ensures var (r', data) := Produce(r, capacities[0]);
      && Drain(r, capacities).0 == Drain(r', capacities[1..]).0
      && Drain(r, capacities).1 == data + Drain(r', capacities[1..]).1
  {
  }

  lemma TakenFirst<T>(data: seq<T>, more: seq<T>, due': seq<T>, due: seq<T>)
    requires data + due' == due && more <= due'
    ensures data + more <= due && (more == due' ==> data + more == due)
  {
  }

  lemma DueCount(data: nat, due: nat, n: nat, k: nat, c: nat)
    requires c > 0 && data + due == Bytes(n, c) && data == Bytes(k, c)
    ensures k <= n && due == Bytes(n - k, c)
  {
    BytesOrder(n, k, c);
    BytesOrder(k, n, c);
  }

  lemma {:induction false} StaysStopped(r: Reader, capacities: seq<nat>)
    requires r.Valid() && r.remaining <= 0 && !r.running
    ensures Drain(r, capacities) == (r, [])
  {
    if capacities != [] {
      StaysStopped(r, capacities[1..]);
      var none: seq<Byte> := [];
      assert Produce(r, capacities[0]) == (r, none) && none + none == none;
    }
  }

  // ---------------------------------------------------------------------------
  // The round trip
  // ---------------------------------------------------------------------------

  /** A reader that has just opened a file. */
  function Opened(names: Names, bytes: seq<Byte>): Found {
    Found(names, None, Reader(Source(bytes, 0, true), 0, false, 0, true))
  }

  /** One turn of the scan at a data header ends it there. */
  lemma ScanData(f: Found, alias: seq<Byte>, length: nat, rest: seq<Byte>)
    requires f.reader.Valid() && length < INT64_LIMIT
    requires var src := f.reader.src;
      src.good && src.pos <= |src.bytes| && src.bytes[src.pos..] == CbfFiles.Header(DATA, alias, length) + rest
    ensures var src := f.reader.src.(pos := f.reader.src.pos + HEADER_BYTES);
      && Scan(f) == f.(reader := f.reader.(src := src, remaining := length))
      && src.pos <= |src.bytes| && src.bytes[src.pos..] == rest
  {
    GotFront(f.reader.src, CbfFiles.Header(DATA, alias, length), rest);
    HeaderParses(DATA, alias, length);
  }

  /** One turn of the scan at a schema section. */
  lemma ScanSchema(f: Found, alias: seq<Byte>, length: nat, rest: seq<Byte>) returns (f1: Found)
    requires f.reader.Valid() && length < INT64_LIMIT
    requires var src := f.reader.src;
      src.good && src.pos <= |src.bytes| && src.bytes[src.pos..] == CbfFiles.Header(SCHEMA, alias, length) + rest
    ensures f1 == f.(reader := f.reader.(src := f.reader.src.(pos := f.reader.src.pos + HEADER_BYTES)))
    ensures Scan(f) == Scan(TakeRule(f1, SectionHeader(SCHEMA, length)))
    ensures var src := f1.reader.src; src.pos <= |src.bytes| && src.bytes[src.pos..] == rest
  {
    GotFront(f.reader.src, CbfFiles.Header(SCHEMA, alias, length), rest);
    HeaderParses(SCHEMA, alias, length);
    f1 := f.(reader := f.reader.(src := f.reader.src.(pos := f.reader.src.pos + HEADER_BYTES)));
    ScanTakes(f, f1, SectionHeader(SCHEMA, length));
  }

  lemma ScanTakes(f: Found, f1: Found, h: SectionHeader)
    requires f.reader.Valid() && ParseHeader(f.reader.src.Got(HEADER_BYTES)) == Some(h) && h.kind == SCHEMA
    requires f1 == f.(reader := f.reader.(src := f.reader.src.Read(HEADER_BYTES)))
    ensures Scan(f) == Scan(TakeRule(f1, h))
  {
  }

  lemma RuleTaken(f: Found, h: SectionHeader, text: seq<Byte>, rule: Rule)
    requires f.reader.Valid() && h.length == |text| && 0 < |text| <= MAX_SCHEMA_BODY && rule.recSize > 0
    requires f.reader.src.Got(|text|) == text
    requires FromText(f.names, TextOf(text)) == Ok((f.names, rule))
    ensures TakeRule(f, h) == Found(f.names, Some(rule),
      f.reader.(src := f.reader.src.Read(|text|), recordSize := rule.recSize, valid := true))
  {
    RuleGot(f.names, f.reader.src, h, text, rule);
  }

  lemma RuleGot(names: Names, s: Source, h: SectionHeader, text: seq<Byte>, rule: Rule)
    requires h.length == |text| && 0 < |text| <= MAX_SCHEMA_BODY && s.Got(|text|) == text
    requires FromText(names, TextOf(text)) == Ok((names, rule))
    ensures ReadRule(names, s, h) == (s.Read(|text|), names, Some(rule))
  {
  }

  lemma RuleText(names: Names, rule: Rule, header: PAttr, input: seq<PAttr>, align: bool)
    requires SchemaRoundTrip.PrintableRule(names, rule, header, input, align)
    ensures ToText(names, rule.attrs) != "" && SizeSum(rule.attrs) > 0
  {
    var order := Ordered(header, input, align);
    assert rule.attrs == Laid(order) && rule.attrs[0].Size() == 8;
    SizeSumSplit(rule.attrs, 0, |rule.attrs|);
    assert rule.attrs[..|rule.attrs|] == rule.attrs;
  }

  /** defineRule on a file with a schema section and data sections finds the rule
      and stops before the first body. The record size it works with is the one
      the records were written with exactly when the rule has no padding at its
      end. */
  lemma RuleReadsBack(
      names: Names, rule: Rule, header: PAttr, input: seq<PAttr>, align: bool,
      alias: seq<Byte>, bodies: seq<seq<Byte>>) returns (found: Found)
    requires SchemaRoundTrip.PrintableRule(names, rule, header, input, align) && ByteText(ToText(names, rule.attrs))
    requires |ToText(names, rule.attrs)| <= MAX_SCHEMA_BODY
    requires bodies != [] && WholeBodies(bodies, SizeSum(rule.attrs))
    ensures var text := BytesOf(ToText(names, rule.attrs));
      found == Scan(Opened(names, Section(SCHEMA, alias, text) + Sections(alias, bodies)))
    ensures found.names == names && found.rule == Some(rule.(aligned := false, recSize := SizeSum(rule.attrs)))
    ensures Stands(found.reader, alias, bodies[0], bodies[1..]) && found.reader.recordSize == SizeSum(rule.attrs) > 0
    ensures found.reader.recordSize == rule.recSize <==> !align || SizeSum(rule.attrs) % MaxElem(rule.attrs) == 0
  {
    var text := BytesOf(ToText(names, rule.attrs));
    var f := Opened(names, Section(SCHEMA, alias, text) + Sections(alias, bodies));
    found := Scan(f);
    RuleText(names, rule, header, input, align);
    TextRoundTrip(ToText(names, rule.attrs));
    SchemaRoundTrip.SchemaRoundTrip(names, rule, header, input, align);
    SchemaRoundTrip.SizeSurvives(header, input, align);
    var parsed := rule.(aligned := false, recSize := SizeSum(rule.attrs));
    ScanFile(f, alias, text, bodies, parsed);
  }

  lemma ScanFile(f: Found, alias: seq<Byte>, text: seq<Byte>, bodies: seq<seq<Byte>>, rule: Rule)
    requires 0 < |text| <= MAX_SCHEMA_BODY && rule.recSize > 0
    requires bodies != [] && WholeBodies(bodies, rule.recSize)
    requires f == Opened(f.names, Section(SCHEMA, alias, text) + Sections(alias, bodies))
    requires FromText(f.names, TextOf(text)) == Ok((f.names, rule))
    ensures var f' := Scan(f);
      && f'.names == f.names && f'.rule == Some(rule)
      && Stands(f'.reader, alias, bodies[0], bodies[1..]) && f'.reader.recordSize == rule.recSize && f'.reader.running
  {
    var rest := Sections(alias, bodies);
    assert f.reader.src.bytes[0..] == f.reader.src.bytes;
    Reassociate(CbfFiles.Header(SCHEMA, alias, |text|), text, rest);
    var f1 := ScanSchema(f, alias, |text|, text + rest);
    GotFront(f1.reader.src, text, rest);
    RuleTaken(f1, SectionHeader(SCHEMA, |text|), text, rule);
    ScanBodies(TakeRule(f1, SectionHeader(SCHEMA, |text|)), alias, bodies);
  }

  lemma ScanBodies(f: Found, alias: seq<Byte>, bodies: seq<seq<Byte>>)
    requires f.reader.Valid() && f.reader.valid
    requires bodies != [] && WholeBodies(bodies, f.reader.recordSize)
    requires var src := f.reader.src;
      src.good && src.pos <= |src.bytes| && src.bytes[src.pos..] == Sections(alias, bodies)
    ensures var f' := Scan(f);
      && f'.names == f.names && f'.rule == f.rule
      && Stands(f'.reader, alias, bodies[0], bodies[1..])
      && f'.reader.recordSize == f.reader.recordSize && f'.reader.running == f.reader.running
  {
    var body, rest := bodies[0], Sections(alias, bodies[1..]);
    assert |bodies[0]| < INT64_LIMIT && [body] + bodies[1..] == bodies;
    Reassociate(CbfFiles.Header(DATA, alias, |body|), body, rest);
    ScanData(f, alias, |body|, body + rest);
  }

  /** The file round trip: what a recording of any blocks of records leaves in
      the file, read by defineRule and then block by block with any positive
      capacities, is the same rule and the same bytes, and then the end. */
  lemma CbfRoundTrip(
      names: Names, rule: Rule, header: PAttr, input: seq<PAttr>,
      alias: seq<Byte>, blocks: seq<seq<Byte>>, recs: seq<Record>, capacities: seq<nat>)
    requires SchemaRoundTrip.PrintableRule(names, rule, header, input, false) && ByteText(ToText(names, rule.attrs))
    requires |ToText(names, rule.attrs)| <= MAX_SCHEMA_BODY
    requires Holds(Flatten(blocks), recs, rule.recSize) && |Flatten(blocks)| < INT64_LIMIT
    requires |capacities| > |recs| && forall i | 0 <= i < |capacities| :: capacities[i] > 0
    ensures var found := Scan(Opened(names, Recording(alias, BytesOf(ToText(names, rule.attrs)), Flatten(blocks))));
      && found.names == names && found.rule == Some(rule)
      && Drain(found.reader, capacities).1 == Flatten(blocks)
      && !Drain(found.reader, capacities).0.running
  {
    var body := Flatten(blocks);
    assert WholeBodies([body], rule.recSize) by { assert |body| == Bytes(|recs|, rule.recSize); }
    var found := RuleReadsBack(names, rule, header, input, false, alias, [body]);
    OneSection(alias, body);
    assert [body][1..] == [];
    DrainsDue(found.reader, alias, body, [], capacities, |recs|);
  }

  lemma OneSection(alias: seq<Byte>, body: seq<Byte>)
    ensures Sections(alias, [body]) == Section(DATA, alias, body)
  {
    assert [body][1..] == [];
    assert Section(DATA, alias, body) + [] == Section(DATA, alias, body);
  }

  /** With several data sections everything is delivered exactly when no empty
      section has a body after it: an empty section ends the reading. */
  lemma {:induction false} AllDue(left: seq<Byte>, tail: seq<seq<Byte>>)
    ensures Due(left, tail) == Joined([left] + tail) <==> NothingAfterEmpty([left] + tail)
    decreases |tail|
  {
    JoinedCons(left, tail);
    if tail == [] {
      assert left + [] == left;
    } else {
      assert [tail[0]] + tail[1..] == tail;
      AllDue(tail[0], tail[1..]);
      if left != [] { SameRest(left, Due(tail[0], tail[1..]), Joined(tail)); }
    }
  }

  /** So repeated calls deliver every body exactly then, given more calls than
      there are records. */
  lemma AllDelivered(r: Reader, alias: seq<Byte>, left: seq<Byte>, tail: seq<seq<Byte>>, capacities: seq<nat>, n: nat)
    requires Stands(r, alias, left, tail) && r.recordSize > 0 && |Due(left, tail)| == Bytes(n, r.recordSize)
    requires |capacities| > n && forall i | 0 <= i < |capacities| :: capacities[i] > 0
    ensures Drain(r, capacities).1 == Joined([left] + tail) <==> NothingAfterEmpty([left] + tail)
    ensures !Drain(r, capacities).0.running
  {
    DrainsDue(r, alias, left, tail, capacities, n);
    AllDue(left, tail);
  }

  lemma {:induction false} DueIsWhole(left: seq<Byte>, tail: seq<seq<Byte>>, c: nat) returns (n: nat)
    requires WholeBodies([left] + tail, c)
    ensures |Due(left, tail)| == Bytes(n, c)
    decreases |tail|
  {
    var k: nat :| |([left] + tail)[0]| == Bytes(k, c);
    if left == [] {
      n := 0;
    } else if tail == [] {
      n := k;
    } else {
      WholeTail(left, tail, c);
      var m := DueIsWhole(tail[0], tail[1..], c);
      BytesAdd(k, m, c);
      n := k + m;
    }
  }

  /** A file of a packed rule and any data sections: read back
      with enough calls it gives all their bytes, in order, exactly when no
      empty section has a body after it. */
  lemma SectionsReadBack(
      names: Names, rule: Rule, header: PAttr, input: seq<PAttr>,
      alias: seq<Byte>, bodies: seq<seq<Byte>>, capacities: seq<nat>)
    requires SchemaRoundTrip.PrintableRule(names, rule, header, input, false) && ByteText(ToText(names, rule.attrs))
    requires |ToText(names, rule.attrs)| <= MAX_SCHEMA_BODY
    requires bodies != [] && WholeBodies(bodies, SizeSum(rule.attrs))
    requires |capacities| > |Joined(bodies)| && forall i | 0 <= i < |capacities| :: capacities[i] > 0
    ensures var text := BytesOf(ToText(names, rule.attrs));
      var found := Scan(Opened(names, Section(SCHEMA, alias, text) + Sections(alias, bodies)));
      && (Drain(found.reader, capacities).1 == Joined(bodies) <==> NothingAfterEmpty(bodies))
      && !Drain(found.reader, capacities).0.running
  {
    var found := RuleReadsBack(names, rule, header, input, false, alias, bodies);
    SectionsDelivered(found.reader, alias, bodies, capacities);
  }

  lemma SectionsDelivered(r: Reader, alias: seq<Byte>, bodies: seq<seq<Byte>>, capacities: seq<nat>)
    requires bodies != [] && Stands(r, alias, bodies[0], bodies[1..])
    requires r.recordSize > 0 && WholeBodies(bodies, r.recordSize)
    requires |capacities| > |Joined(bodies)| && forall i | 0 <= i < |capacities| :: capacities[i] > 0
    ensures Drain(r, capacities).1 == Joined(bodies) <==> NothingAfterEmpty(bodies)
    ensures !Drain(r, capacities).0.running
  {
    assert [bodies[0]] + bodies[1..] == bodies;
    var n := DueIsWhole(bodies[0], bodies[1..], r.recordSize);
    DueWithin(bodies[0], bodies[1..]);
    CountBelow(n, r.recordSize);
    AllDelivered(r, alias, bodies[0], bodies[1..], capacities, n);
  }

  lemma {:induction false} CountBelow(n: nat, c: nat)
    requires c > 0
    ensures n <= Bytes(n, c)
  {
    if n > 0 { CountBelow(n - 1, c); }
  }

  lemma {:induction false} DueWithin(left: seq<Byte>, tail: seq<seq<Byte>>)
    ensures |Due(left, tail)| <= |Joined([left] + tail)|
    decreases |tail|
  {
    JoinedCons(left, tail);
    if tail != [] {
      DueWithin(tail[0], tail[1..]);
      assert [tail[0]] + tail[1..] == tail;
    }
  }

  function Joined(bodies: seq<seq<Byte>>): seq<Byte> {
    if bodies == [] then [] else bodies[0] + Joined(bodies[1..])
  }

  predicate NothingAfterEmpty(bodies: seq<seq<Byte>>) {
    bodies == [] || if bodies[0] == [] then Joined(bodies[1..]) == [] else NothingAfterEmpty(bodies[1..])
  }

  lemma JoinedCons(left: seq<Byte>, tail: seq<seq<Byte>>)
    ensures Joined([left] + tail) == left + Joined(tail)
    ensures NothingAfterEmpty([left] + tail) == if left == [] then Joined(tail) == [] else NothingAfterEmpty(tail)
  {
    assert ([left] + tail)[1..] == tail;
  }

  lemma SameRest<T>(a: seq<T>, x: seq<T>, y: seq<T>)
    ensures a + x == a + y <==> x == y
  {
    if a + x == a + y {
      assert (a + x)[|a|..] == x && (a + y)[|a|..] == y;
    }
  }

  /** A body that is not whole records never ends: with less than a record left,
      a call delivers nothing and changes nothing, so the producer asks again for
      ever; with a whole record left it never happens. */
  lemma PartialRecordNeverEnds(r: Reader, capacity: nat)
    requires r.Valid() && r.valid && r.src.good && r.remaining > 0 && capacity > 0
    ensures Produce(r, capacity) == (r, []) <==> r.remaining < r.recordSize
  {
    if r.remaining >= r.recordSize {
      var c := r.recordSize;
      QuotBound(r.remaining, c);
      var n := Bytes(Min(capacity, Quot(r.remaining, c)), c);
      assert n >= c;
      assert |r.src.Got(n)| == n ==> Produce(r, capacity).1 != [];
    }
  }

  // ---------------------------------------------------------------------------
  // Anything else in the file
  // ---------------------------------------------------------------------------

  lemma MarkerIs(b: seq<Byte>)
    requires |b| == 4
    ensures Decode(b) == MARKER <==> b == [0xD4, 0xC3, 0xB2, 0xA1]
  {
    FourValue([0xD4, 0xC3, 0xB2, 0xA1]);
    EncodeDecode(b);
    EncodeDecode([0xD4, 0xC3, 0xB2, 0xA1]);
  }

  /** 24 bytes with the marker first are a header, and nothing else is. */
  lemma ParsesIff(b: seq<Byte>)
    ensures ParseHeader(b).Some? <==> |b| == 24 && b[..4] == [0xD4, 0xC3, 0xB2, 0xA1]
  {
    if |b| == 24 { MarkerIs(b[..4]); }
  }

  /** The length field is a two's complement number of eight bytes. */
  lemma SignedIs(n: int)
    requires -(INT64_LIMIT as int) <= n < INT64_LIMIT
    ensures Signed(n % (2 * INT64_LIMIT)) == n
  {
    if n < 0 { assert n % (2 * INT64_LIMIT) == n + 2 * INT64_LIMIT; } else { Small(n, 2 * INT64_LIMIT); }
  }

  lemma SectionAt(src: Source, kind: Byte, alias: seq<Byte>, body: seq<Byte>, rest: seq<Byte>)
    requires |body| < INT64_LIMIT
    requires src.good && src.pos <= |src.bytes| && src.bytes[src.pos..] == Section(kind, alias, body) + rest
    ensures var h := SectionHeader(kind, |body|);
      && ParseHeader(src.Got(HEADER_BYTES)) == Some(h)
      && Skip(src.Read(HEADER_BYTES), h) == src.(pos := src.pos + HEADER_BYTES + |body|)
  {
    Reassociate(CbfFiles.Header(kind, alias, |body|), body, rest);
    GotFront(src, CbfFiles.Header(kind, alias, |body|), body + rest);
    HeaderParses(kind, alias, |body|);
  }

  /** A section of another kind is passed over on the way to the first body, */
  lemma OtherSkipped(
      f: Found, src: Source, kind: Byte, alias: seq<Byte>, body: seq<Byte>, rest: seq<Byte>, next: Source)
    requires f.reader.Valid() && f.reader.src == src && kind != SCHEMA && kind != DATA && |body| < INT64_LIMIT
    requires src.good && src.pos <= |src.bytes| && src.bytes[src.pos..] == Section(kind, alias, body) + rest
    requires next == src.(pos := src.pos + HEADER_BYTES + |body|)
    ensures Scan(f) == Scan(f.(reader := f.reader.(src := next)))
  {
    var h := SectionHeader(kind, |body|);
    SectionAt(src, kind, alias, body, rest);
    KindPassed(f, h, next);
  }

  lemma KindPassed(f: Found, h: SectionHeader, src: Source)
    requires f.reader.Valid() && h.kind != SCHEMA && h.kind != DATA
    requires ParseHeader(f.reader.src.Got(HEADER_BYTES)) == Some(h)
    requires src == Skip(f.reader.src.Read(HEADER_BYTES), h)
    ensures Scan(f) == Scan(f.(reader := f.reader.(src := src)))
  {
  }

  /** ... and between the bodies, where schemas are passed over as well. */
  lemma OtherPassed(src: Source, kind: Byte, alias: seq<Byte>, body: seq<Byte>, rest: seq<Byte>)
    requires kind != DATA && |body| < INT64_LIMIT
    requires src.good && src.pos <= |src.bytes| && src.bytes[src.pos..] == Section(kind, alias, body) + rest
    ensures NextData(src) == NextData(src.(pos := src.pos + HEADER_BYTES + |body|))
  {
    SectionAt(src, kind, alias, body, rest);
  }

  /** A schema is taken exactly when its body has 1 byte to 16 MiB, is all there,
      and reads as a rule. */
  lemma SchemaTakenIff(names: Names, s: Source, h: SectionHeader)
    ensures ReadRule(names, s, h).2.Some? <==>
      && 0 < h.length <= 0x100_0000 && h.length <= s.Left()
      && FromText(names, TextOf(s.Got(h.length))).Ok?
  {
  }

  /** One of implausible length changes nothing: the search goes on at its body. */
  lemma ImplausiblePassed(f: Found, alias: seq<Byte>, length: nat, rest: seq<Byte>)
    requires f.reader.Valid() && (length == 0 || 0x100_0000 < length < INT64_LIMIT)
    requires var src := f.reader.src;
      src.good && src.pos <= |src.bytes| && src.bytes[src.pos..] == CbfFiles.Header(SCHEMA, alias, length) + rest
    ensures var src := f.reader.src;
      Scan(f) == Scan(f.(reader := f.reader.(src := src.(pos := src.pos + HEADER_BYTES))))
  {
    GotFront(f.reader.src, CbfFiles.Header(SCHEMA, alias, length), rest);
    HeaderParses(SCHEMA, alias, length);
  }

  lemma {:induction false} NothingMore(r: Reader, capacities: seq<nat>)
    requires !r.valid
    ensures Drain(r, capacities).1 == []
    decreases |capacities|
  {
    if capacities != [] { NothingMore(Produce(r, capacities[0]).0, capacities[1..]); }
  }

  /** A file that ends before the records its header promises gives nothing of
      the block it cannot fill, and nothing after. */
  lemma TruncatedStops(r: Reader, capacity: nat, capacities: seq<nat>)
    requires r.Valid() && r.valid && r.src.good && r.remaining > 0
    requires 0 < Min(capacity, r.remaining / r.recordSize)
    requires r.src.Left() < Min(capacity, r.remaining / r.recordSize) * r.recordSize
    ensures Drain(r, [capacity] + capacities).1 == []
  {
    QuotIsDiv(r.remaining, r.recordSize);
    BytesIsMul(Min(capacity, r.remaining / r.recordSize), r.recordSize);
    var r' := Produce(r, capacity).0;
    NothingMore(r', capacities);
    DrainFirst(r, [capacity] + capacities);
    assert ([capacity] + capacities)[1..] == capacities;
  }
}
