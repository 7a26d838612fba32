/** The .cbf file: a sequence of sections, each a 24-byte header and a body. A
    schema section holds a rule as text, a data section holds raw records; the
    length of a data section is patched into its header when it ends. */
module CbfFiles {
  import opened Chunks
  import opened Wire
  import opened ByteValues

  const MARKER: nat := 0xA1B2C3D4
  const SCHEMA: Byte := 1
  const DATA: Byte := 2
  const NAME_BYTES: nat := 11
  const HEADER_BYTES: nat := 24
  const LENGTH_FIELD: nat := 16
  const MAX_SCHEMA_BODY: nat := 16 * 1024 * 1024
  const INT64_LIMIT: nat := 0x8000_0000_0000_0000

  /** strncpy of the alias into a zeroed name field, leaving its last byte 0. */
  function Name(alias: seq<Byte>, n: nat): (b: seq<Byte>)
    ensures |b| == n
    decreases n
  {
    if n == 0 then []
    else if n == 1 || alias == [] || alias[0] == 0 then [0] + Name([], n - 1)
    else [alias[0]] + Name(alias[1..], n - 1)
  }

  /** A CbfSectionHeader as it lies in the file; the length is an int64. */
  function Header(kind: Byte, alias: seq<Byte>, length: nat): (b: seq<Byte>)
    ensures |b| == HEADER_BYTES
  {
    Encode(MARKER, 4) + ([kind] + Name(alias, NAME_BYTES)) + Encode(length % (2 * INT64_LIMIT), 8)
  }

  /** Writing b at position pos of a file. */
  function Overwrite(file: seq<Byte>, pos: nat, b: seq<Byte>): (r: seq<Byte>)
    requires pos <= |file|
    ensures |r| == if pos + |b| <= |file| then |file| else pos + |b|
  {
    file[..pos] + b + if pos + |b| <= |file| then file[pos + |b|..] else []
  }

  /** A file open for writing. `start` is where the data section under way
      begins, 0 when there is none. */
  datatype Sink = Sink(bytes: seq<Byte>, pos: nat, alias: seq<Byte>, start: nat, written: nat)
  {
    predicate Valid() { pos <= |bytes| && (start > 0 ==> start + HEADER_BYTES <= pos) }
  }

  function Put(s: Sink, b: seq<Byte>): (s': Sink)
    requires s.Valid()
    ensures s'.Valid()
  {
    s.(bytes := Overwrite(s.bytes, s.pos, b), pos := s.pos + |b|)
  }

  function WriteSchema(s: Sink, text: seq<Byte>): (s': Sink)
    requires s.Valid()
    ensures s'.Valid()
  {
    Put(Put(s, Header(SCHEMA, s.alias, |text|)), text)
  }

  function BeginData(s: Sink): (s': Sink)
    requires s.Valid()
    ensures s'.Valid()
  {
    Put(s, Header(DATA, s.alias, 0)).(start := s.pos, written := 0)
  }

  function WriteBlock(s: Sink, b: seq<Byte>): (s': Sink)
    requires s.Valid()
    ensures s'.Valid()
  {
    Put(s, b).(written := s.written + |b|)
  }

  /** endDataSection jumps back, patches the length and returns to the end. A
      section at position 0 counts as none. */
  function EndData(s: Sink): (s': Sink)
    requires s.Valid()
    ensures s'.Valid()
  {
    if s.start == 0 then s
    else
      s.(bytes := Overwrite(s.bytes, s.start + LENGTH_FIELD, Encode(s.written % (2 * INT64_LIMIT), 8)),
         start := 0, written := 0)
  }

  function WriteBlocks(s: Sink, blocks: seq<seq<Byte>>): (s': Sink)
    requires s.Valid()
    ensures s'.Valid()
    decreases |blocks|
  {
    if blocks == [] then s else WriteBlock(WriteBlocks(s, blocks[..|blocks| - 1]), blocks[|blocks| - 1])
  }

  function Flatten(blocks: seq<seq<Byte>>): seq<Byte> {
    if blocks == [] then [] else Flatten(blocks[..|blocks| - 1]) + blocks[|blocks| - 1]
  }

  class CbfFile {
    var writing: bool
    var isOpen: bool
    var bytes: seq<Byte>
    var pos: nat
    var alias: seq<Byte>
    var currentSectionStart: nat
    var writtenBytesInSection: nat

    function View(): Sink
      reads this
    {
      Sink(bytes, pos, alias, currentSectionStart, writtenBytesInSection)
    }

    predicate Valid()
      reads this
    {
      View().Valid()
    }

    /** open for writing: the file is emptied. */
    constructor (alias: seq<Byte>)
      ensures Valid() && writing && isOpen && View() == Sink([], 0, alias, 0, 0)
    {
      writing, isOpen, bytes, pos := true, true, [], 0;
      this.alias, currentSectionStart, writtenBytesInSection := alias, 0, 0;
    }

    method PutBytes(b: seq<Byte>)
      requires Valid()
      modifies this`bytes, this`pos
      ensures View() == Put(old(View()), b)
    {
      bytes := bytes[..pos] + b + if pos + |b| <= |bytes| then bytes[pos + |b|..] else [];
      pos := pos + |b|;
    }

    method AddSchema(text: seq<Byte>) returns (ok: bool)
      requires Valid()
      modifies this
      ensures Valid() && writing == old(writing) && isOpen == old(isOpen) && ok == (writing && isOpen)
      ensures View() == if ok then WriteSchema(old(View()), text) else old(View())
    {
      if !writing || !isOpen {
        return false;
      }
      PutBytes(Header(SCHEMA, alias, |text|));
      PutBytes(text);
      ok := true;
    }

    method BeginDataSection() returns (ok: bool)
      requires Valid()
      modifies this
      ensures Valid() && writing == old(writing) && isOpen == old(isOpen) && ok == (writing && isOpen)
      ensures View() == if ok then BeginData(old(View())) else old(View())
    {
      if !writing || !isOpen {
        return false;
      }
      currentSectionStart := pos;
      bytes := Overwrite(bytes, pos, Header(DATA, alias, 0));
      pos := pos + HEADER_BYTES;
      writtenBytesInSection := 0;
      ok := true;
    }

    method WriteBytes(data: seq<Byte>) returns (ok: bool)
      requires Valid()
      modifies this
      ensures Valid() && writing == old(writing) && isOpen == old(isOpen)
      ensures ok == (writing && isOpen && data != [])
      ensures View() == if ok then WriteBlock(old(View()), data) else old(View())
    {
      if !writing || !isOpen || |data| == 0 {
        return false;
      }
      PutBytes(data);
      writtenBytesInSection := writtenBytesInSection + |data|;
      ok := true;
    }

    method EndDataSection() returns (ok: bool)
      requires Valid()
      modifies this
      ensures Valid() && writing == old(writing) && isOpen == old(isOpen)
      ensures ok == (writing && isOpen && old(currentSectionStart) > 0)
      ensures View() == if ok then EndData(old(View())) else old(View())
    {
      if !writing || !isOpen || currentSectionStart <= 0 {
        return false;
      }
      var endPos := pos;
      pos := currentSectionStart + LENGTH_FIELD;
      var field := Encode(writtenBytesInSection % (2 * INT64_LIMIT), 8);
      bytes := Overwrite(bytes, pos, field);
      pos := endPos;
      currentSectionStart := 0;
      writtenBytesInSection := 0;
      ok := true;
    }

    method Close()
      requires Valid()
      modifies this
      ensures Valid() && writing == old(writing) && !isOpen
      ensures View() == if writing && old(isOpen) then EndData(old(View())) else old(View())
    {
      if writing && currentSectionStart > 0 {
        var _ := EndDataSection();
      }
      isOpen := false;
    }
  }

  /** A whole recording: schema, one data section, the blocks as they come, and
      close. Empty blocks are passed over. */
  method Record(alias: seq<Byte>, text: seq<Byte>, blocks: seq<seq<Byte>>) returns (bytes: seq<Byte>)
    ensures bytes == Recording(alias, text, Flatten(blocks))
  {
    var file := new CbfFile(alias);
    var ok := file.AddSchema(text);
    ok := file.BeginDataSection();
    ghost var begun := file.View();
    for i := 0 to |blocks|
      invariant file.Valid() && file.writing && file.isOpen
      invariant file.View() == WriteBlocks(begun, blocks[..i])
    {
      assert blocks[..i + 1][..i] == blocks[..i];
      if |blocks[i]| > 0 {
        ok := file.WriteBytes(blocks[i]);
      } else {
        WriteNothing(WriteBlocks(begun, blocks[..i]), blocks[i]);
      }
    }
    assert blocks[..|blocks|] == blocks;
    SchemaFirst(alias, text);
    PatchedSection(WriteSchema(Sink([], 0, alias, 0, 0), text), blocks);
    file.Close();
    bytes := file.bytes;
  }

  // ---------------------------------------------------------------------------
  // What the writer leaves behind
  // ---------------------------------------------------------------------------

  function Section(kind: Byte, alias: seq<Byte>, body: seq<Byte>): seq<Byte> {
    Header(kind, alias, |body|) + body
  }

  function Recording(alias: seq<Byte>, text: seq<Byte>, body: seq<Byte>): seq<Byte> {
    Section(SCHEMA, alias, text) + Section(DATA, alias, body)
  }

  lemma WriteNothing(s: Sink, b: seq<Byte>)
    requires s.Valid() && b == []
    ensures WriteBlock(s, b) == s
  {
    assert s.bytes[..s.pos] + b + s.bytes[s.pos..] == s.bytes;
  }

  lemma PutAtEnd(s: Sink, b: seq<Byte>)
    requires s.Valid() && s.pos == |s.bytes|
    ensures Put(s, b) == s.(bytes := s.bytes + b, pos := |s.bytes + b|)
  {
    assert s.bytes[..s.pos] == s.bytes;
    assert |b| == 0 ==> s.bytes + b + s.bytes[s.pos + |b|..] == s.bytes + b;
  }

  lemma SchemaFirst(alias: seq<Byte>, text: seq<Byte>)
    ensures var s := WriteSchema(Sink([], 0, alias, 0, 0), text);
      s == Sink(Section(SCHEMA, alias, text), |Section(SCHEMA, alias, text)|, alias, 0, 0)
  {
    var s := Sink([], 0, alias, 0, 0);
    PutAtEnd(s, Header(SCHEMA, alias, |text|));
    assert [] + Header(SCHEMA, alias, |text|) == Header(SCHEMA, alias, |text|);
    PutAtEnd(Put(s, Header(SCHEMA, alias, |text|)), text);
  }

  lemma {:induction false} BlocksAtEnd(s: Sink, blocks: seq<seq<Byte>>)
    requires s.Valid() && s.pos == |s.bytes|
    ensures var b := Flatten(blocks);
      WriteBlocks(s, blocks) == s.(bytes := s.bytes + b, pos := |s.bytes + b|, written := s.written + |b|)
  {
    if blocks == [] {
      assert s.bytes + [] == s.bytes;
    } else {
      var n := |blocks| - 1;
      BlocksAtEnd(s, blocks[..n]);
      PutAtEnd(WriteBlocks(s, blocks[..n]), blocks[n]);
      assert s.bytes + Flatten(blocks[..n]) + blocks[n] == s.bytes + Flatten(blocks);
    }
  }

  /** Patching the length of a header gives the header of that length. */
  lemma PatchedHeader(before: seq<Byte>, kind: Byte, alias: seq<Byte>, body: seq<Byte>)
    ensures Overwrite(before + Header(kind, alias, 0) + body, |before| + LENGTH_FIELD,
                      Encode(|body| % (2 * INT64_LIMIT), 8))
      == before + Section(kind, alias, body)
  {
    var front := Encode(MARKER, 4) + ([kind] + Name(alias, NAME_BYTES));
    Repatch(before, front, Encode(0, 8), Encode(|body| % (2 * INT64_LIMIT), 8), body);
  }

  lemma Repatch(before: seq<Byte>, front: seq<Byte>, field: seq<Byte>, patch: seq<Byte>, body: seq<Byte>)
    requires |field| == |patch|
    ensures Overwrite(before + (front + field) + body, |before| + |front|, patch) == before + ((front + patch) + body)
  {
    var file, p := before + (front + field) + body, |before| + |front|;
    assert file[..p] == before + front;
    assert file[p + |patch|..] == body;
  }

  /** The back-patch: a data section begun at the end of a file that is not
      empty, however many blocks go into it, ends as header and body with the
      length of the body in the header. */
  lemma PatchedSection(s: Sink, blocks: seq<seq<Byte>>)
    requires s.Valid() && s.pos == |s.bytes| > 0
    ensures EndData(WriteBlocks(BeginData(s), blocks)).bytes == s.bytes + Section(DATA, s.alias, Flatten(blocks))
  {
    var begun := BeginData(s);
    PutAtEnd(s, Header(DATA, s.alias, 0));
    BlocksAtEnd(begun, blocks);
    PatchedHeader(s.bytes, 2, s.alias, Flatten(blocks));
  }

  /** Exactly when the file ends as it should: a section at the very start of a
      file is never patched, so it keeps length 0. */
  lemma PatchedIff(s: Sink, blocks: seq<seq<Byte>>)
    requires s.Valid() && s.pos == |s.bytes| && |Flatten(blocks)| < INT64_LIMIT
    ensures EndData(WriteBlocks(BeginData(s), blocks)).bytes == s.bytes + Section(DATA, s.alias, Flatten(blocks))
      <==> |s.bytes| > 0 || Flatten(blocks) == []
  {
    var body := Flatten(blocks);
    if |s.bytes| > 0 {
      PatchedSection(s, blocks);
    } else {
      PutAtEnd(s, Header(DATA, s.alias, 0));
      BlocksAtEnd(BeginData(s), blocks);
      UnpatchedIff(s.bytes, s.alias, body);
    }
  }

  lemma UnpatchedIff(before: seq<Byte>, alias: seq<Byte>, body: seq<Byte>)
    requires |body| < INT64_LIMIT
    ensures before + Header(DATA, alias, 0) + body == before + Section(DATA, alias, body) <==> body == []
  {
    var front := Encode(MARKER, 4) + ([DATA] + Name(alias, NAME_BYTES));
    if before + Header(DATA, alias, 0) + body == before + Section(DATA, alias, body) {
      SameField(before, front, Encode(0, 8), Encode(|body| % (2 * INT64_LIMIT), 8), body);
      LengthReads(0);
      LengthReads(|body|);
    }
  }

  lemma SameField(before: seq<Byte>, front: seq<Byte>, x: seq<Byte>, y: seq<Byte>, body: seq<Byte>)
    requires |x| == |y| && before + (front + x) + body == before + ((front + y) + body)
    ensures x == y
  {
    var l, r, p := before + (front + x) + body, before + ((front + y) + body), |before| + |front|;
    assert l[p..p + |x|] == x && r[p..p + |y|] == y;
  }

  lemma LengthReads(n: nat)
    requires n < INT64_LIMIT
    ensures Decode(Encode(n % (2 * INT64_LIMIT), 8)) == n
  {
    assert Limit(2) == 65536;
    assert Limit(4) == 256 * Limit(3) && Limit(3) == 256 * Limit(2);
    assert Limit(6) == 256 * Limit(5) && Limit(5) == 256 * Limit(4);
    assert Limit(8) == 256 * Limit(7) && Limit(7) == 256 * Limit(6);
    Small(n, 2 * INT64_LIMIT);
    DecodeEncode(n, 8);
  }

  lemma Small(n: nat, m: nat)
    requires n < m
    ensures n % m == n
  {
  }

  // ---------------------------------------------------------------------------
  // The header, byte by byte
  // ---------------------------------------------------------------------------

  /** The name field holds the alias up to its first zero, as far as there is
      room before the last byte, and zeros from there on. */
  lemma {:induction false} NameIs(alias: seq<Byte>, n: nat) returns (k: nat)
    requires n > 0
    ensures k <= |alias| && k <= n - 1 && Name(alias, n)[..k] == alias[..k] && (forall i | 0 <= i < k :: alias[i] != 0)
    ensures k == |alias| || k == n - 1 || alias[k] == 0
    ensures forall i | k <= i < n :: Name(alias, n)[i] == 0
  {
    if n == 1 || alias == [] || alias[0] == 0 {
      k := 0;
      NoName(n - 1);
      assert Name(alias, n) == [0] + Name([], n - 1);
    } else {
      var m := NameIs(alias[1..], n - 1);
      k := m + 1;
      var rest := Name(alias[1..], n - 1);
      assert Name(alias, n) == [alias[0]] + rest;
      assert ([alias[0]] + rest)[..k] == [alias[0]] + rest[..m] && alias[..k] == [alias[0]] + alias[1..][..m];
    }
  }

  lemma {:induction false} NoName(n: nat)
    ensures forall i | 0 <= i < n :: Name([], n)[i] == 0
  {
    if n > 0 { NoName(n - 1); }
  }

  /** Marker, kind, name, length: the marker and the length with the least
      significant byte first. */
  lemma HeaderIs(kind: Byte, alias: seq<Byte>, length: nat)
    ensures var b := Header(kind, alias, length);
      && b[..4] == [0xD4, 0xC3, 0xB2, 0xA1] && b[4] == kind && b[5..16] == Name(alias, 11)
      && b[16..] == Encode(length % (2 * INT64_LIMIT), 8)
  {
    FourBytes([0xD4, 0xC3, 0xB2, 0xA1]);
    HeaderParts(Encode(MARKER, 4), kind, Name(alias, 11), Encode(length % (2 * INT64_LIMIT), 8));
  }

  lemma HeaderParts(marker: seq<Byte>, kind: Byte, name: seq<Byte>, length: seq<Byte>)
    requires |marker| == 4 && |name| == 11 && |length| == 8
    ensures var b := marker + ([kind] + name) + length;
      b[..4] == marker && b[4] == kind && b[5..16] == name && b[16..] == length
  {
  }
}
