/** Which rules come back from their text: what fromText can give at all, and
    from that the exact condition for the round trip. */
module SchemaConverse {
  import opened Types
  import opened Registry
  import opened Decimal
  import opened Attributes
  import opened Rules
  import opened SchemaText
  import opened SchemaRoundTrip

  // ---------------------------------------------------------------------------
  // What reading can give
  // ---------------------------------------------------------------------------

  /** p has no character that s has not. */
  ghost predicate CharsOf(p: string, s: string) {
    forall c :: c in p ==> c in s
  }

  lemma {:induction false} SplitPieces(s: string, sep: char)
    ensures forall p | p in Split(s, sep) :: sep !in p && CharsOf(p, s)
    decreases |s|
  {
    if s != "" {
      var i := Find(s, sep);
      if i == |s| { assert s[..i] == s; } else { SplitPieces(s[i + 1..], sep); }
    }
  }

  lemma {:induction false} UptoChars(s: string, n: nat)
    ensures CharsOf(Upto(s, n), s)
  {
    if n > 0 && s != "" { UptoChars(s[1..], n - 1); }
  }

  lemma ChompChars(line: string)
    ensures CharsOf(Chomp(line), line)
  {
  }

  /** Every named bit is registered under one of the definitions. */
  ghost predicate NamedFrom(names: Names, bits: seq<int>, defs: seq<string>) {
    forall k | 0 <= k < |bits| && bits[k] != 0 :: 0 < bits[k] <= |names| && NameOf(names, bits[k]) in defs
  }

  lemma PlaceFrom(c: Cells, def: string, defs: seq<string>)
    requires NamedFrom(c.names, c.bits, defs) && def in defs && Place(c, def).Ok?
    ensures NamedFrom(Place(c, def).value.names, Place(c, def).value.bits, defs)
  {
  }

  lemma {:induction false} PlaceAllFrom(c: Cells, some: seq<string>, defs: seq<string>)
    requires NamedFrom(c.names, c.bits, defs) && (forall d | d in some :: d in defs) && PlaceAll(c, some).Ok?
    ensures NamedFrom(PlaceAll(c, some).value.names, PlaceAll(c, some).value.bits, defs)
  {
    if some != [] {
      var n := |some| - 1;
      PlaceAllFrom(c, some[..n], defs);
      PlaceFrom(PlaceAll(c, some[..n]).value, some[n], defs);
    }
  }

  lemma WithBitsFrom(names: Names, name: string, dtype: DataType, defs: seq<string>)
    requires WithBits(names, name, dtype, defs).Ok?
    ensures var (m, a) := WithBits(names, name, dtype, defs).value;
      names <= m && NamedFrom(m, a.bitIds, defs)
  {
    PlaceAllFrom(Cells(Registered(names, Stored(name)), Zeros(8 * TypeSize(dtype)), 0), defs, defs);
  }

  /** A line gives at most one field. Its name and type are those of two of the
      columns, and the names of its bits are pieces of a third. */
  lemma LineGives(names: Names, line: string)
    requires ReadLine(names, line).Ok?
    ensures var (m, fields) := ReadLine(names, line).value; var parts := Split(Chomp(line), ';');
      && names <= m && |fields| <= 1
      && (fields != [] ==>
            && |parts| >= 3 && fields[0].name == Stored(parts[0]) != TIMESTAMP
            && fields[0].dtype == TypeFromName(parts[1]) && fields[0].count < ULONG_LIMIT
            && (fields[0].bitIds != [] ==>
                  |parts| >= 5 && NamedFrom(m, fields[0].bitIds, Split(parts[4], ','))))
  {
    var parts := Split(Chomp(line), ';');
    if !(line == "" || |parts| < 3 || Upto(parts[0], NAME_CHARS) == TIMESTAMP) {
      var defs := if |parts| >= 5 then Split(parts[4], ',') else [];
      if defs != [] { WithBitsFrom(names, parts[0], TypeFromName(parts[1]), defs); }
    }
  }

  /** A field that reading can give. */
  ghost predicate Given(names: Names, a: PAttr) {
    Separable(names, a) && forall k | 0 <= k < |a.bitIds| :: 0 <= a.bitIds[k] <= |names|
  }

  lemma GivenLater(names: Names, later: Names, a: PAttr)
    requires Given(names, a) && names <= later
    ensures Given(later, a)
  {
    forall k | 0 <= k < |a.bitIds| ensures NameOf(later, a.bitIds[k]) == NameOf(names, a.bitIds[k]) {
    }
  }

  lemma LineGiven(names: Names, line: string)
    requires ReadLine(names, line).Ok? && '\n' !in line && ReadLine(names, line).value.1 != []
    ensures var (m, fields) := ReadLine(names, line).value; Given(m, fields[0])
  {
    LineGives(names, line);
    PiecesClean(line);
    ColumnsGiven(ReadLine(names, line).value.0, ReadLine(names, line).value.1[0], Split(Chomp(line), ';'));
  }

  lemma PiecesClean(line: string)
    requires '\n' !in line
    ensures forall p | p in Split(Chomp(line), ';') :: ';' !in p && '\n' !in p
  {
    SplitPieces(Chomp(line), ';');
    ChompChars(line);
  }

  lemma ColumnsGiven(names: Names, a: PAttr, parts: seq<string>)
    requires |parts| >= 3 && forall p | p in parts :: ';' !in p && '\n' !in p
    requires a.name == Stored(parts[0]) != TIMESTAMP && a.dtype == TypeFromName(parts[1]) && a.count < ULONG_LIMIT
    requires a.bitIds != [] ==> |parts| >= 5 && NamedFrom(names, a.bitIds, Split(parts[4], ','))
    ensures Given(names, a)
  {
    assert parts[0] in parts;
    UptoChars(parts[0], NAME_CHARS);
    if a.bitIds != [] {
      assert parts[4] in parts;
      SplitPieces(parts[4], ',');
      BitsGiven(names, a.bitIds, Split(parts[4], ','));
    }
  }

  lemma BitsGiven(names: Names, bits: seq<int>, defs: seq<string>)
    requires NamedFrom(names, bits, defs) && forall d | d in defs :: CleanBit(d)
    ensures forall k | 0 <= k < |bits| :: 0 <= bits[k] <= |names| && CleanBit(NameOf(names, bits[k]))
  {
  }

  lemma {:induction false} LinesGiven(names: Names, lines: seq<string>)
    requires ReadLines(names, lines).Ok? && forall l | l in lines :: '\n' !in l
    ensures var (m, fields) := ReadLines(names, lines).value;
      names <= m && forall i | 0 <= i < |fields| :: Given(m, fields[i])
  {
    if lines != [] {
      var n := |lines| - 1;
      LinesGiven(names, lines[..n]);
      var (m, fields) := ReadLines(names, lines[..n]).value;
      LineGives(m, lines[n]);
      var (m', more) := ReadLine(m, lines[n]).value;
      forall i | 0 <= i < |fields| ensures Given(m', fields[i]) { GivenLater(m, m', fields[i]); }
      assert lines[n] in lines;
      if more != [] { LineGiven(m, lines[n]); }
    }
  }

  /** fromText reads the lines and lays the fields out behind the header. */
  lemma ReadText(names: Names, text: string) returns (fields: seq<PAttr>)
    requires FromText(names, text).Ok?
    ensures var r := FromText(names, text).value; var h := Header(names);
      && ReadLines(h.0, Split(text, '\n')) == Ok((r.0, fields))
      && r.1.attrs == Laid(Ordered(h.1, fields, false))
  {
    fields := ReadLines(Header(names).0, Split(text, '\n')).value.1;
  }

  /** fromText never gives a field whose name or bits hold a separator, one of
      type Void, or, after the header, one named like it. */
  lemma TextGiven(names: Names, text: string)
    requires FromText(names, text).Ok?
    ensures var r := FromText(names, text).value;
      names <= r.0 && r.1.attrs != [] && forall i | 1 <= i < |r.1.attrs| :: Given(r.0, r.1.attrs[i])
  {
    var fields := ReadText(names, text);
    SplitPieces(text, '\n');
    LinesGiven(Header(names).0, Split(text, '\n'));
    LaidGiven(FromText(names, text).value.0, Header(names).1, fields);
  }

  lemma LaidGiven(names: Names, header: PAttr, fields: seq<PAttr>)
    requires forall i | 0 <= i < |fields| :: Given(names, fields[i])
    ensures var attrs := Laid(Ordered(header, fields, false));
      attrs != [] && forall i | 1 <= i < |attrs| :: Given(names, attrs[i])
  {
    var attrs := Laid(Ordered(header, fields, false));
    forall i | 1 <= i < |attrs| ensures Given(names, attrs[i]) {
      assert attrs[i] == fields[i - 1].(offset := attrs[i].offset);
    }
  }

  // ---------------------------------------------------------------------------
  // A carriage return at the end of a line
  // ---------------------------------------------------------------------------

  function Cut(s: string): string
    requires s != ""
  {
    s[..|s| - 1]
  }

  lemma {:induction false} CutJoin(parts: seq<string>, sep: char)
    requires parts != [] && parts[|parts| - 1] != ""
    ensures var n := |parts| - 1;
      Join(parts, sep) != "" && Cut(Join(parts, sep)) == Join(parts[n := Cut(parts[n])], sep)
  {
    if |parts| > 1 {
      var n := |parts| - 1;
      CutJoin(parts[1..], sep);
      assert parts[n := Cut(parts[n])][1..] == parts[1..][n - 1 := Cut(parts[n])];
      CutFront(parts[0] + [sep], Join(parts[1..], sep));
    }
  }

  lemma CutFront(a: string, b: string)
    requires b != ""
    ensures Cut(a + b) == a + Cut(b)
  {
  }

  /** No two bits of the field share a name. */
  ghost predicate OwnNames(a: PAttr) {
    forall i, j | 0 <= i < j < |a.bitIds| && a.bitIds[i] != 0 :: a.bitIds[i] != a.bitIds[j]
  }

  lemma ChompCuts(line: string)
    requires EndsInReturn(line)
    ensures Chomp(line) == Cut(line)
  {
  }

  lemma CutClean(s: string, c: char)
    requires s != "" && c !in s
    ensures c !in Cut(s)
  {
  }

  /** Joined pieces without their last character split into the pieces, the last
      one cut. */
  lemma CutSplit(parts: seq<string>, sep: char)
    requires parts != [] && parts[|parts| - 1] != "" && forall i | 0 <= i < |parts| :: sep !in parts[i]
    ensures var n := |parts| - 1;
      Join(parts, sep) != "" && Split(Cut(Join(parts, sep)), sep) == Kept(parts[n := Cut(parts[n])])
  {
    var n := |parts| - 1;
    var cut := parts[n := Cut(parts[n])];
    CutClean(parts[n], sep);
    CutJoin(parts, sep);
    SplitJoin(cut, sep);
  }

  /** The bit column, when there is one left, is read without its last character. */
  lemma CutLine(names: Names, a: PAttr)
    requires WellMade(names, a) && Separable(names, a) && LosesReturn(names, a)
    ensures var tokens := Tokens(names, a.bitIds, a.Size() * 8, 0); var n := |tokens| - 1;
      var parts := Split(Chomp(Line(names, a)), ';');
      && tokens != [] && tokens[n] != ""
      && (|parts| >= 5 ==> Split(parts[4], ',') == Kept(tokens[n := Cut(tokens[n])]))
  {
    LineSplits(names, a);
    ColumnsClean(names, a);
    var tokens := Tokens(names, a.bitIds, a.Size() * 8, 0);
    BitTokens(names, a, tokens);
    LastToken(names, a, tokens);
    ChompCuts(Line(names, a));
    CutSplit(Fields(names, a), ';');
    CutJoin(tokens, ',');
    CutSplit(tokens, ',');
  }

  /** So the name of the last bit is not among the definitions it is read from. */
  lemma NameIsLost(names: Names, a: PAttr)
    requires Distinct(names) && WellMade(names, a) && Separable(names, a) && LosesReturn(names, a) && OwnNames(a)
    ensures var parts := Split(Chomp(Line(names, a)), ';');
      |parts| >= 5 ==> NameOf(names, a.bitIds[|a.bitIds| - 1]) !in Split(parts[4], ',')
  {
    var tokens, t := Tokens(names, a.bitIds, a.Size() * 8, 0), NameOf(names, a.bitIds[|a.bitIds| - 1]);
    OthersDiffer(names, a);
    NotKept(tokens, t);
    CutLine(names, a);
  }

  lemma NotKept(tokens: seq<string>, t: string)
    requires LastDiffers(tokens, t) && t != ""
    ensures var n := |tokens| - 1; t !in Kept(tokens[n := Cut(tokens[n])])
  {
  }

  lemma OthersDiffer(names: Names, a: PAttr)
    requires Distinct(names) && WellMade(names, a) && LosesReturn(names, a) && OwnNames(a)
    ensures LastDiffers(Tokens(names, a.bitIds, a.Size() * 8, 0), NameOf(names, a.bitIds[|a.bitIds| - 1]))
  {
    TokensEnd(names, a.bitIds, a.Size() * 8, 0);
    TokensDiffer(names, a, Tokens(names, a.bitIds, a.Size() * 8, 0));
  }

  /** The last token is t, and no other is. */
  ghost predicate LastDiffers(tokens: seq<string>, t: string) {
    && tokens != [] && tokens[|tokens| - 1] == t
    && forall i | 0 <= i < |tokens| - 1 :: tokens[i] != t
  }

  lemma TokensDiffer(names: Names, a: PAttr, tokens: seq<string>)
    requires Distinct(names) && WellMade(names, a) && LosesReturn(names, a) && OwnNames(a)
    requires EndsWith(names, a.bitIds, |a.bitIds|, tokens)
    ensures LastDiffers(tokens, NameOf(names, a.bitIds[|a.bitIds| - 1]))
  {
    forall i | 0 <= i < |tokens| - 1 ensures tokens[i] != NameOf(names, a.bitIds[|a.bitIds| - 1]) {
      OtherToken(names, a, tokens[i]);
    }
  }

  lemma OtherToken(names: Names, a: PAttr, t: string)
    requires Distinct(names) && WellMade(names, a) && LosesReturn(names, a) && OwnNames(a)
    requires TokenOf(names, a.bitIds, |a.bitIds| - 1, t)
    ensures t != NameOf(names, a.bitIds[|a.bitIds| - 1])
  {
    if IsUnsignedInteger(t) { DigitsClean(t); }
  }

  /** And the field does not come back, whatever is registered by then. */
  lemma ReturnIsLost(names: Names, a: PAttr, now: Names)
    requires Distinct(names) && WellMade(names, a) && Separable(names, a) && LosesReturn(names, a) && OwnNames(a)
    requires names <= now && Added(now, Line(names, a)).Some?
    ensures var fields := Added(now, Line(names, a)).value;
      fields == [] || fields[0].bitIds != a.bitIds
  {
    NameIsLost(names, a);
    LineGives(now, Line(names, a));
    var (m, fields) := ReadLine(now, Line(names, a)).value;
    var bid := a.bitIds[|a.bitIds| - 1];
    assert NameOf(m, bid) == NameOf(names, bid);
  }

  // ---------------------------------------------------------------------------
  // Line by line
  // ---------------------------------------------------------------------------

  /** What a line adds, when it adds something or nothing. */
  ghost function Added(now: Names, line: string): Option<seq<PAttr>> {
    match ReadLine(now, line)
    case Ok(r) => Some(r.1)
    case Err(_) => None
  }

  function Flat(outs: seq<seq<PAttr>>): seq<PAttr> {
    if outs == [] then [] else Flat(outs[..|outs| - 1]) + outs[|outs| - 1]
  }

  /** What a line adds, as a parameter: what follows needs no more about it. */
  type Adding = (Names, string) -> Option<seq<PAttr>>

  ghost predicate IsAdded(f: Adding) {
    forall now: Names, line: string :: f(now, line) == Added(now, line)
  }

  /** What each line added, and what was registered before it. */
  ghost predicate Traced(f: Adding, names: Names, lines: seq<string>, nows: seq<Names>, outs: seq<seq<PAttr>>) {
    && |nows| == |outs| == |lines| && (nows != [] ==> nows[0] == names)
    && forall i | 0 <= i < |lines| :: names <= nows[i] && f(nows[i], lines[i]) == Some(outs[i]) && |outs[i]| <= 1
  }

  lemma TracedMore(
      f: Adding, names: Names, lines: seq<string>, nows: seq<Names>, now: Names,
      outs: seq<seq<PAttr>>, out: seq<PAttr>)
    requires lines != [] && Traced(f, names, lines[..|lines| - 1], nows, outs)
    requires names <= now && (|lines| == 1 ==> now == names)
    requires f(now, lines[|lines| - 1]) == Some(out) && |out| <= 1
    ensures Traced(f, names, lines, nows + [now], outs + [out])
  {
    var n := |lines| - 1;
    assert forall i | 0 <= i < n :: lines[..n][i] == lines[i];
  }

  lemma FlatSnoc(outs: seq<seq<PAttr>>, out: seq<PAttr>)
    ensures Flat(outs + [out]) == Flat(outs) + out
  {
    assert (outs + [out])[..|outs|] == outs;
  }

  lemma {:induction false} LinesTraced(f: Adding, names: Names, lines: seq<string>)
      returns (nows: seq<Names>, outs: seq<seq<PAttr>>)
    requires IsAdded(f) && ReadLines(names, lines).Ok?
    ensures Traced(f, names, lines, nows, outs) && Flat(outs) == ReadLines(names, lines).value.1
    ensures names <= ReadLines(names, lines).value.0
  {
    if lines == [] {
      nows, outs := [], [];
    } else {
      var n := |lines| - 1;
      nows, outs := LinesTraced(f, names, lines[..n]);
      var now, out := LastLine(f, names, lines);
      TracedMore(f, names, lines, nows, now, outs, out);
      FlatSnoc(outs, out);
      nows, outs := nows + [now], outs + [out];
    }
  }

  lemma LastLine(f: Adding, names: Names, lines: seq<string>) returns (now: Names, out: seq<PAttr>)
    requires IsAdded(f) && lines != [] && ReadLines(names, lines).Ok?
    ensures var n := |lines| - 1;
      && ReadLines(names, lines[..n]).Ok? && ReadLines(names, lines[..n]).value.0 == now
      && f(now, lines[n]) == Some(out) && |out| <= 1
      && ReadLines(names, lines).value.1 == ReadLines(names, lines[..n]).value.1 + out
      && now <= ReadLines(names, lines).value.0
  {
    var n := |lines| - 1;
    now := ReadLines(names, lines[..n]).value.0;
    out := ReadLine(now, lines[n]).value.1;
    LineGives(now, lines[n]);
  }

  lemma {:induction false} FlatSize(outs: seq<seq<PAttr>>)
    requires outs != [] && outs[0] == [] && forall i | 0 <= i < |outs| :: |outs[i]| <= 1
    ensures |Flat(outs)| < |outs|
  {
    if |outs| > 1 { FlatSize(outs[..|outs| - 1]); }
  }

  /** When every line but the first added a field, line i + 1 added field i. */
  lemma {:induction false} OneEach(outs: seq<seq<PAttr>>, i: nat)
    requires outs != [] && outs[0] == [] && forall k | 0 <= k < |outs| :: |outs[k]| <= 1
    requires |Flat(outs)| + 1 == |outs| && i + 1 < |outs|
    ensures outs[i + 1] == [Flat(outs)[i]]
  {
    var n := |outs| - 1;
    FlatSize(outs[..n]);
    if i + 1 < n { OneEach(outs[..n], i); }
  }

  // ---------------------------------------------------------------------------
  // The exact condition
  // ---------------------------------------------------------------------------

  /** Every field given to init is in the layout. */
  lemma LaidCovers(header: PAttr, input: seq<PAttr>, align: bool, k: nat) returns (i: nat)
    requires k < |input|
    ensures 1 <= i < |Laid(Ordered(header, input, align))|
    ensures Laid(Ordered(header, input, align))[i] == input[k].(offset := Laid(Ordered(header, input, align))[i].offset)
  {
    var rest := if align then SortDesc(input) else input;
    SortIsStable(input);
    var j := FindAgain(input, rest, k);
    i := j + 1;
    assert Ordered(header, input, align)[i] == rest[j];
  }

  lemma FindAgain<T>(s: seq<T>, t: seq<T>, k: nat) returns (j: nat)
    requires k < |s| && multiset(s) == multiset(t)
    ensures j < |t| && t[j] == s[k]
  {
    assert s[k] in multiset(t);
    j :| 0 <= j < |t| && t[j] == s[k];
  }

  /** Fields as constructed, behind the header. */
  ghost predicate MadeAttrs(names: Names, attrs: seq<PAttr>) {
    && attrs != [] && WellMade(names, attrs[0]) && attrs[0].name == TIMESTAMP && !attrs[0].HasBits()
    && forall i | 1 <= i < |attrs| :: WellMade(names, attrs[i])
  }

  lemma LaidMade(names: Names, header: PAttr, input: seq<PAttr>, align: bool)
    requires header.id == IdOf(names, TIMESTAMP) > 0 && header == PAttr(header.id, TIMESTAMP, Double, 1, 0, [])
    requires forall i | 0 <= i < |input| :: WellMade(names, input[i])
    ensures MadeAttrs(names, Laid(Ordered(header, input, align)))
  {
    OrderedSize(header, input, align);
    HeaderMade(names, header, Laid(Ordered(header, input, align))[0]);
    forall i | 1 <= i <= |input| ensures WellMade(names, Laid(Ordered(header, input, align))[i]) {
      var k := LaidMember(header, input, align, i);
      RemadeOffset(names, input[k], Laid(Ordered(header, input, align))[i]);
    }
  }

  lemma HeaderMade(names: Names, header: PAttr, laid: PAttr)
    requires header.id == IdOf(names, TIMESTAMP) > 0 && header == PAttr(header.id, TIMESTAMP, Double, 1, 0, [])
    requires laid == header.(offset := laid.offset)
    ensures WellMade(names, laid) && laid.name == TIMESTAMP && !laid.HasBits()
  {
  }

  lemma RemadeOffset(names: Names, a: PAttr, laid: PAttr)
    requires WellMade(names, a) && laid == a.(offset := laid.offset)
    ensures WellMade(names, laid)
  {
  }

  ghost predicate AllSeparable(names: Names, attrs: seq<PAttr>) {
    forall i | 1 <= i < |attrs| :: Separable(names, attrs[i])
  }

  /** The fields that came back are separable. */
  lemma FieldsSeparable(names: Names, attrs: seq<PAttr>)
    requires MadeAttrs(names, attrs)
    requires var r := FromText(names, ToText(names, attrs)); r.Ok? && r.value.1.attrs == attrs
    ensures AllSeparable(names, attrs)
  {
    TextGiven(names, ToText(names, attrs));
    GivenSeparable(names, FromText(names, ToText(names, attrs)).value.0, attrs);
  }

  lemma GivenSeparable(names: Names, later: Names, attrs: seq<PAttr>)
    requires MadeAttrs(names, attrs) && names <= later
    requires forall i | 1 <= i < |attrs| :: Given(later, attrs[i])
    ensures AllSeparable(names, attrs)
  {
    forall i | 1 <= i < |attrs| ensures Separable(names, attrs[i]) {
      assert WellMade(names, attrs[i]) && Given(later, attrs[i]);
      SeparableBefore(names, later, attrs[i]);
    }
  }

  lemma SeparableBefore(names: Names, later: Names, a: PAttr)
    requires WellMade(names, a) && names <= later && Separable(later, a)
    ensures Separable(names, a)
  {
    forall k | 0 <= k < |a.bitIds| ensures NameOf(names, a.bitIds[k]) == NameOf(later, a.bitIds[k]) {
    }
  }

  lemma OwnNamesOf(attrs: seq<PAttr>, i: nat)
    requires BitTable(attrs).Ok? && i < |attrs|
    ensures OwnNames(attrs[i])
  {
    BitTableComplete(attrs);
    var a := attrs[i];
    forall k, l | 0 <= k < l < |a.bitIds| && a.bitIds[k] != 0 ensures a.bitIds[k] != a.bitIds[l] {
      assert Carries(attrs, i, k, a.bitIds[k]);
      assert a.bitIds[k] == a.bitIds[l] ==> Carries(attrs, i, l, a.bitIds[k]);
    }
  }

  /** The lines of a rule, read one after the other. */
  ghost predicate LinesRead(names: Names, attrs: seq<PAttr>, fields: seq<PAttr>) {
    var r := ReadLines(names, Lines(names, attrs));
    r.Ok? && r.value.1 == fields && |attrs| == |fields| + 1
  }

  /** Each line after the first was read as the field it belongs to. */
  ghost predicate EachGave(names: Names, attrs: seq<PAttr>, nows: seq<Names>, fields: seq<PAttr>) {
    && |attrs| == |nows| == |fields| + 1
    && forall i | 0 <= i < |fields| ::
         names <= nows[i + 1] && Added(nows[i + 1], Line(names, attrs[i + 1])) == Some([fields[i]])
  }

  lemma LinesGave(names: Names, attrs: seq<PAttr>, fields: seq<PAttr>) returns (nows: seq<Names>)
    requires MadeAttrs(names, attrs) && LinesRead(names, attrs, fields)
    ensures EachGave(names, attrs, nows, fields)
  {
    var f: Adding := (now, line) => Added(now, line);
    HeaderLine(names, attrs[0], names);
    var outs;
    nows, outs := LinesTraced(f, names, Lines(names, attrs));
    EachLine(f, names, attrs, nows, outs, fields);
  }

  lemma EachLine(
      f: Adding, names: Names, attrs: seq<PAttr>, nows: seq<Names>, outs: seq<seq<PAttr>>, fields: seq<PAttr>)
    requires IsAdded(f) && attrs != [] && Traced(f, names, Lines(names, attrs), nows, outs)
    requires Added(names, Line(names, attrs[0])) == Some([]) && Flat(outs) == fields && |attrs| == |fields| + 1
    ensures EachGave(names, attrs, nows, fields)
  {
    assert f(nows[0], Lines(names, attrs)[0]) == Some(outs[0]);
    forall i | 0 <= i < |fields|
      ensures names <= nows[i + 1] && Added(nows[i + 1], Line(names, attrs[i + 1])) == Some([fields[i]])
    {
      OneEach(outs, i);
      assert f(nows[i + 1], Lines(names, attrs)[i + 1]) == Some(outs[i + 1]);
    }
  }

  /** A field that came back lost no carriage return. */
  lemma KeepsReturn(names: Names, a: PAttr, now: Names, field: PAttr)
    requires Distinct(names) && WellMade(names, a) && Separable(names, a) && OwnNames(a)
    requires names <= now && Added(now, Line(names, a)) == Some([field]) && field.bitIds == a.bitIds
    ensures !LosesReturn(names, a)
  {
    if LosesReturn(names, a) { ReturnIsLost(names, a, now); }
  }

  lemma LinesApart(names: Names, attrs: seq<PAttr>)
    requires MadeAttrs(names, attrs) && AllSeparable(names, attrs)
    ensures Split(ToText(names, attrs), '\n') == Lines(names, attrs)
  {
    forall k | 0 <= k < |attrs| ensures '\n' !in Line(names, attrs[k]) {
      assert k > 0 ==> WellMade(names, attrs[k]) && Separable(names, attrs[k]);
      LineSplits(names, attrs[k]);
    }
    TextSplits(names, attrs);
  }

  lemma SameFields(header: PAttr, fields: seq<PAttr>, attrs: seq<PAttr>)
    requires Laid(Ordered(header, fields, false)) == attrs
    ensures |fields| + 1 == |attrs| && forall i | 0 <= i < |fields| :: fields[i].bitIds == attrs[i + 1].bitIds
  {
    var order := Ordered(header, fields, false);
    forall i | 0 <= i < |fields| ensures fields[i].bitIds == attrs[i + 1].bitIds {
      assert attrs[i + 1] == order[i + 1].(offset := attrs[i + 1].offset);
    }
  }

  ghost predicate NoneLost(names: Names, attrs: seq<PAttr>) {
    forall i | 1 <= i < |attrs| :: !LosesReturn(names, attrs[i])
  }

  lemma AllKeepReturns(names: Names, attrs: seq<PAttr>, nows: seq<Names>, fields: seq<PAttr>)
    requires Distinct(names) && EachGave(names, attrs, nows, fields)
    requires forall i | 1 <= i < |attrs| ::
      WellMade(names, attrs[i]) && Separable(names, attrs[i]) && OwnNames(attrs[i])
    requires forall i | 0 <= i < |fields| :: fields[i].bitIds == attrs[i + 1].bitIds
    ensures NoneLost(names, attrs)
  {
    forall i | 1 <= i < |attrs| ensures !LosesReturn(names, attrs[i]) {
      assert fields[i - 1].bitIds == attrs[i].bitIds;
      KeepsReturn(names, attrs[i], nows[i], fields[i - 1]);
    }
  }

  lemma TextRead(names: Names, header: PAttr, attrs: seq<PAttr>) returns (fields: seq<PAttr>)
    requires MadeAttrs(names, attrs) && AllSeparable(names, attrs) && Header(names) == (names, header)
    requires var r := FromText(names, ToText(names, attrs)); r.Ok? && r.value.1.attrs == attrs
    ensures LinesRead(names, attrs, fields)
    ensures forall i | 0 <= i < |fields| :: fields[i].bitIds == attrs[i + 1].bitIds
  {
    fields := ReadText(names, ToText(names, attrs));
    SameFields(header, fields, attrs);
    LinesApart(names, attrs);
  }

  lemma FieldsKeepReturns(names: Names, header: PAttr, attrs: seq<PAttr>)
    requires Distinct(names) && MadeAttrs(names, attrs) && AllSeparable(names, attrs) && BitTable(attrs).Ok?
    requires Header(names) == (names, header)
    requires var r := FromText(names, ToText(names, attrs)); r.Ok? && r.value.1.attrs == attrs
    ensures NoneLost(names, attrs)
  {
    var fields := TextRead(names, header, attrs);
    var nows := LinesGave(names, attrs, fields);
    forall i | 1 <= i < |attrs| ensures OwnNames(attrs[i]) { OwnNamesOf(attrs, i); }
    AllKeepReturns(names, attrs, nows, fields);
  }

  lemma ComesBackOnlyIf(names: Names, rule: Rule, header: PAttr, input: seq<PAttr>, align: bool)
    requires BuiltRule(names, rule, header, input, align)
    requires var r := FromText(names, ToText(names, rule.attrs)); r.Ok? && r.value.1.attrs == rule.attrs
    ensures AllPrintable(names, input)
  {
    HeaderIs(names);
    LaidMade(names, header, input, align);
    FieldsSeparable(names, rule.attrs);
    FieldsKeepReturns(names, header, rule.attrs);
    InputsPrint(names, header, input, align);
  }

  lemma InputsPrint(names: Names, header: PAttr, input: seq<PAttr>, align: bool)
    requires var attrs := Laid(Ordered(header, input, align)); AllSeparable(names, attrs) && NoneLost(names, attrs)
    ensures AllPrintable(names, input)
  {
    forall k | 0 <= k < |input| ensures Printable(names, input[k]) {
      var i := LaidCovers(header, input, align, k);
      ReprintBack(names, input[k], Laid(Ordered(header, input, align))[i]);
    }
  }

  lemma ReprintBack(names: Names, a: PAttr, laid: PAttr)
    requires laid == a.(offset := laid.offset) && Printable(names, laid)
    ensures Printable(names, a)
  {
  }

  /** A rule comes back from its text exactly when all its fields are printable:
      no separator in a name, no type Void, none named like the header, and no
      carriage return at the end of a line. Then the registry stays as it was,
      and all that can differ is the padding of an aligned rule; otherwise not
      even the fields come back. */
  lemma RoundTripIff(names: Names, rule: Rule, header: PAttr, input: seq<PAttr>, align: bool)
    requires BuiltRule(names, rule, header, input, align)
    ensures var r := FromText(names, ToText(names, rule.attrs));
      && (r == Ok((names, rule.(aligned := false, recSize := SizeSum(rule.attrs)))) <==> AllPrintable(names, input))
      && (r.Ok? && r.value.1.attrs == rule.attrs <==> AllPrintable(names, input))
  {
    var r := FromText(names, ToText(names, rule.attrs));
    if AllPrintable(names, input) { SchemaRoundTrip.SchemaRoundTrip(names, rule, header, input, align); }
    if r.Ok? && r.value.1.attrs == rule.attrs { ComesBackOnlyIf(names, rule, header, input, align); }
  }

  /** So a rule comes back whole exactly when it is packed as well. */
  lemma WholeRoundTripIff(names: Names, rule: Rule, header: PAttr, input: seq<PAttr>, align: bool)
    requires BuiltRule(names, rule, header, input, align)
    ensures FromText(names, ToText(names, rule.attrs)) == Ok((names, rule)) <==> !align && AllPrintable(names, input)
  {
    RoundTripIff(names, rule, header, input, align);
  }

  // ---------------------------------------------------------------------------
  // Rules of one field
  // ---------------------------------------------------------------------------

  const STAMP := PAttr(1, TIMESTAMP, Double, 1, 0, [])

  /** init on one field; it is read back from the text. */
  ghost predicate ComesBack(names: Names, a: PAttr) {
    var built := Build(STAMP, [a], false);
    && built.Ok?
    && var r := FromText(names, ToText(names, built.value.attrs));
      r.Ok? && r.value.1.attrs == built.value.attrs
  }

  lemma OneFieldIff(names: Names, a: PAttr)
    requires Distinct(names) && names != [] && names[0] == TIMESTAMP && WellMade(names, a) && OwnNames(a)
    ensures Build(STAMP, [a], false).Ok?
    ensures ComesBack(names, a) <==> Printable(names, a)
  {
    IdsAreStable(names, names, "");
    assert NameOf(names, 1) == TIMESTAMP;
    var attrs := Laid(Ordered(STAMP, [a], false));
    assert attrs[0] == STAMP.(offset := attrs[0].offset);
    assert attrs[1] == a.(offset := attrs[1].offset);
    forall k: nat, b: nat, k': nat, b': nat, bid: int | Carries(attrs, k, b, bid) && Carries(attrs, k', b', bid)
      ensures k == k' && b == b'
    {
      assert k == 1 && k' == 1;
    }
    BitTableComplete(attrs);
    var rule := Build(STAMP, [a], false).value;
    RoundTripIff(names, rule, STAMP, [a], false);
    assert AllPrintable(names, [a]) <==> Printable(names, a) by { assert [a][0] == a; }
  }

  /** A separator in a name: the line has a column too many. */
  lemma SeparatorIsLost()
    ensures !ComesBack([TIMESTAMP, "a;b"], PAttr(2, "a;b", Int32, 1, 0, []))
  {
    var a := PAttr(2, "a;b", Int32, 1, 0, []);
    assert a.name[1] == ';';
    OneFieldIff([TIMESTAMP, "a;b"], a);
  }

  /** A second field named like the header: init accepts it, fromText drops it. */
  lemma SecondStampIsLost()
    ensures Build(STAMP, [STAMP], false).Ok? && !ComesBack([TIMESTAMP], STAMP)
  {
    OneFieldIff([TIMESTAMP], STAMP);
  }

  lemma VoidIsLost()
    ensures !ComesBack([TIMESTAMP, "v"], PAttr(2, "v", Void, 1, 0, []))
  {
    OneFieldIff([TIMESTAMP, "v"], PAttr(2, "v", Void, 1, 0, []));
  }

  lemma FlagIsMade(names: Names, a: PAttr, at: nat)
    requires names == [TIMESTAMP, "f", "x\r"] && at < 8 && a == PAttr(2, "f", UInt8, 1, 0, Zeros(at) + [3])
    ensures Distinct(names) && WellMade(names, a) && OwnNames(a)
  {
    assert !IsDigit(names[2][0]);
  }

  lemma FlagPrints(names: Names, a: PAttr, at: nat)
    requires names == [TIMESTAMP, "f", "x\r"] && at < 8 && a == PAttr(2, "f", UInt8, 1, 0, Zeros(at) + [3])
    ensures Printable(names, a) <==> at < 7
  {
    assert NameOf(names, 3) == "x\r" && NameOf(names, 0) == "";
    assert a.bitIds[|a.bitIds| - 1] == 3 && |a.bitIds| == at + 1;
  }

  /** A bit name that ends in a carriage return is lost at the end of the line,
      as the last bit of its field, and nowhere else. */
  lemma ReturnIsLostAtEnd(at: nat)
    requires at < 8
    ensures ComesBack([TIMESTAMP, "f", "x\r"], PAttr(2, "f", UInt8, 1, 0, Zeros(at) + [3])) <==> at < 7
  {
    var names, a := [TIMESTAMP, "f", "x\r"], PAttr(2, "f", UInt8, 1, 0, Zeros(at) + [3]);
    FlagIsMade(names, a, at);
    FlagPrints(names, a, at);
    OneFieldIff(names, a);
  }
}
