/** Reading what toText printed gives the same schema back. */
module SchemaRoundTrip {
  import opened Types
  import opened Registry
  import opened Decimal
  import opened Attributes
  import opened Rules
  import opened SchemaText

  // ---------------------------------------------------------------------------
  // Bits
  // ---------------------------------------------------------------------------

  /** The bit table with only its first k entries filled in. */
  function Filled(bits: seq<int>, total: nat, k: nat): (r: seq<int>)
    ensures |r| == total
    ensures forall i | 0 <= i < total :: r[i] == if i < k && i < |bits| then bits[i] else 0
  {
    if total == 0 then []
    else Filled(bits, total - 1, k) + [if total - 1 < k && total - 1 < |bits| then bits[total - 1] else 0]
  }

  lemma {:induction false} PlaceFront(c: Cells, d: string, rest: seq<string>)
    ensures PlaceAll(c, [d] + rest) ==
      match Place(c, d) case Err(e) => Err(e) case Ok(c1) => PlaceAll(c1, rest)
  {
    if rest == [] {
      assert [d] + rest == [d] && [d][..0] == [];
    } else {
      var n := |rest| - 1;
      PlaceFront(c, d, rest[..n]);
      assert ([d] + rest)[..n + 1] == [d] + rest[..n];
    }
  }

  lemma SkipToken(c: Cells, n: nat)
    requires 0 < n && c.pos + n <= |c.bits| < ULONG_LIMIT
    ensures Place(c, Print(n)) == Ok(c.(pos := c.pos + n))
  {
    StoulPrint(n);
    PrintValue(n);
    StoulDigits(Print(n));
  }

  lemma NameToken(c: Cells, bid: int)
    requires c.pos < |c.bits| && 0 < bid <= |c.names| && BitName(c.names[bid - 1]) && Distinct(c.names)
    ensures Place(c, NameOf(c.names, bid)) == Ok(Cells(c.names, c.bits[c.pos := bid], c.pos + 1))
  {
    IdsAreStable(c.names, c.names, "");
  }

  lemma FillNamed(names: Names, bits: seq<int>, total: nat, bit: nat)
    requires Distinct(names) && GoodBits(names, bits) && bit < |bits| <= total && bits[bit] != 0
    ensures Place(Cells(names, Filled(bits, total, bit), bit), NameOf(names, bits[bit]))
      == Ok(Cells(names, Filled(bits, total, bit + 1), bit + 1))
  {
    NameToken(Cells(names, Filled(bits, total, bit), bit), bits[bit]);
    assert Filled(bits, total, bit)[bit := bits[bit]] == Filled(bits, total, bit + 1);
  }

  lemma FillSkipped(names: Names, bits: seq<int>, total: nat, bit: nat, e: nat)
    requires |bits| <= total < ULONG_LIMIT && bit < e <= total
    requires forall k: nat | bit <= k < e :: Reserved(bits, k)
    ensures Place(Cells(names, Filled(bits, total, bit), bit), Print(e - bit))
      == Ok(Cells(names, Filled(bits, total, e), e))
  {
    SkipToken(Cells(names, Filled(bits, total, bit), bit), e - bit);
    forall k: nat | bit <= k < e && k < |bits| ensures bits[k] == 0 { assert Reserved(bits, k); }
    assert Filled(bits, total, e) == Filled(bits, total, bit);
  }

  lemma TokensSkip(names: Names, bits: seq<int>, total: nat, bit: nat)
    requires bit < total && Reserved(bits, bit)
    ensures var e := RunEnd(bits, total, bit);
      bit < e && Tokens(names, bits, total, bit) == [Print(e - bit)] + Tokens(names, bits, total, e)
  {
  }

  ghost function Placing(names: Names, bits: seq<int>, total: nat, bit: nat, tokens: seq<string>): Result<Cells> {
    PlaceAll(Cells(names, Filled(bits, total, bit), bit), tokens)
  }

  /** Placing these tokens from bit on fills in the rest of the table. */
  ghost predicate Fills(names: Names, bits: seq<int>, total: nat, bit: nat, tokens: seq<string>) {
    Placing(names, bits, total, bit, tokens) == Ok(Cells(names, Filled(bits, total, total), total))
  }

  lemma FillsStep(
      names: Names, bits: seq<int>, total: nat, bit: nat, e: nat, first: string, rest: seq<string>)
    requires Place(Cells(names, Filled(bits, total, bit), bit), first) ==
      Ok(Cells(names, Filled(bits, total, e), e))
    requires Fills(names, bits, total, e, rest)
    ensures Fills(names, bits, total, bit, [first] + rest)
  {
    PlaceFront(Cells(names, Filled(bits, total, bit), bit), first, rest);
  }

  lemma TokensNamed(names: Names, bits: seq<int>, total: nat, bit: nat)
    requires bit < |bits| <= total && bits[bit] != 0
    ensures Tokens(names, bits, total, bit) == [NameOf(names, bits[bit])] + Tokens(names, bits, total, bit + 1)
  {
  }

  lemma PlaceNamed(names: Names, bits: seq<int>, total: nat, bit: nat, rest: seq<string>)
    requires Distinct(names) && GoodBits(names, bits) && bit < |bits| <= total < ULONG_LIMIT && bits[bit] != 0
    requires Fills(names, bits, total, bit + 1, rest)
    ensures Fills(names, bits, total, bit, [NameOf(names, bits[bit])] + rest)
  {
    FillNamed(names, bits, total, bit);
    FillsStep(names, bits, total, bit, bit + 1, NameOf(names, bits[bit]), rest);
  }

  lemma PlaceSkip(names: Names, bits: seq<int>, total: nat, bit: nat, e: nat, rest: seq<string>)
    requires |bits| <= total < ULONG_LIMIT && bit < e <= total
    requires forall k: nat | bit <= k < e :: Reserved(bits, k)
    requires Fills(names, bits, total, e, rest)
    ensures Fills(names, bits, total, bit, [Print(e - bit)] + rest)
  {
    FillSkipped(names, bits, total, bit, e);
    FillsStep(names, bits, total, bit, e, Print(e - bit), rest);
  }

  /** Placing the printed tokens fills the bit table in again. */
  lemma {:induction false} PlaceTokens(names: Names, bits: seq<int>, total: nat, bit: nat, tokens: seq<string>)
    requires Distinct(names) && GoodBits(names, bits) && |bits| <= total < ULONG_LIMIT && bit <= total
    requires tokens == Tokens(names, bits, total, bit)
    ensures Fills(names, bits, total, bit, tokens)
    decreases total - bit
  {
    if bit == total {
    } else if bit < |bits| && bits[bit] != 0 {
      TokensNamed(names, bits, total, bit);
      var rest := tokens[1..];
      PlaceTokens(names, bits, total, bit + 1, rest);
      PlaceNamed(names, bits, total, bit, rest);
      assert tokens == [NameOf(names, bits[bit])] + rest;
    } else {
      TokensSkip(names, bits, total, bit);
      var e, rest := RunEnd(bits, total, bit), tokens[1..];
      PlaceTokens(names, bits, total, e, rest);
      PlaceSkip(names, bits, total, bit, e, rest);
      assert tokens == [Print(e - bit)] + rest;
    }
  }

  lemma {:induction false} TrimFilled(bits: seq<int>, total: nat)
    requires |bits| <= total && bits != [] && bits[|bits| - 1] != 0
    ensures Trim(Filled(bits, total, total)) == bits
  {
    TrimZeros(Filled(bits, total, total), bits);
  }

  lemma {:induction false} TrimZeros(f: seq<int>, bits: seq<int>)
    requires bits <= f && bits != [] && bits[|bits| - 1] != 0
    requires forall k | |bits| <= k < |f| :: f[k] == 0
    ensures Trim(f) == bits
  {
    if |f| > |bits| { TrimZeros(f[..|f| - 1], bits); }
  }

  // ---------------------------------------------------------------------------
  // Characters
  // ---------------------------------------------------------------------------

  /** A bit name that the separators of the format cannot cut. */
  predicate CleanBit(s: string) {
    ';' !in s && ',' !in s && '\n' !in s
  }

  predicate EndsInReturn(s: string) { s != "" && s[|s| - 1] == '\r' }

  /** The printed line ends in the name of a bit, and that in a carriage return. */
  predicate LosesReturn(names: Names, a: PAttr) {
    a.HasBits() && |a.bitIds| == a.Size() * 8 && EndsInReturn(NameOf(names, a.bitIds[|a.bitIds| - 1]))
  }

  /** No name contains a separator of the format, and there is a field for the
      line to be read as. */
  ghost predicate Separable(names: Names, a: PAttr) {
    && ';' !in a.name && '\n' !in a.name
    && a.name != TIMESTAMP
    && a.dtype != Void
    && a.count < ULONG_LIMIT
    && forall k | 0 <= k < |a.bitIds| :: CleanBit(NameOf(names, a.bitIds[k]))
  }

  /** What toText needs of a field so that fromText finds it again. */
  ghost predicate Printable(names: Names, a: PAttr) {
    Separable(names, a) && !LosesReturn(names, a)
  }

  lemma DigitsClean(s: string)
    requires IsUnsignedInteger(s)
    ensures CleanBit(s) && s != "" && !EndsInReturn(s)
  {
  }

  lemma TypeNameClean(t: DataType)
    ensures CleanBit(TypeName(t)) && TypeName(t) != ""
  {
  }

  lemma {:induction false} JoinClean(parts: seq<string>, sep: char, x: char)
    requires forall i | 0 <= i < |parts| :: x !in parts[i]
    requires x != sep
    ensures x !in Join(parts, sep)
  {
    if |parts| > 1 { JoinClean(parts[1..], sep, x); }
  }

  lemma {:induction false} TokensClean(names: Names, bits: seq<int>, total: nat, bit: nat)
    requires bit <= total && GoodBits(names, bits)
    requires forall k | 0 <= k < |bits| :: CleanBit(NameOf(names, bits[k]))
    ensures forall t | t in Tokens(names, bits, total, bit) :: CleanBit(t) && t != ""
    ensures bit < total ==> Tokens(names, bits, total, bit) != []
    decreases total - bit
  {
    if bit == total {
    } else if bit < |bits| && bits[bit] != 0 {
      TokensClean(names, bits, total, bit + 1);
    } else {
      assert Reserved(bits, bit);
      var e := RunEnd(bits, total, bit);
      DigitsClean(Print(e - bit));
      TokensClean(names, bits, total, e);
    }
  }

  /** t is a number, or the name of one of the bits before n. */
  ghost predicate TokenOf(names: Names, bits: seq<int>, n: nat, t: string) {
    IsUnsignedInteger(t) || exists k | 0 <= k < n && k < |bits| :: bits[k] != 0 && t == NameOf(names, bits[k])
  }

  /** The last token is the name of the last bit when that has one, and the ones
      before are numbers and names of earlier bits. */
  ghost predicate EndsWith(names: Names, bits: seq<int>, total: nat, tokens: seq<string>) {
    && total > 0 && tokens != []
    && (forall i | 0 <= i < |tokens| - 1 :: TokenOf(names, bits, total - 1, tokens[i]))
    && var last := tokens[|tokens| - 1];
      if Reserved(bits, total - 1) then IsUnsignedInteger(last) else last == NameOf(names, bits[total - 1])
  }

  lemma EndsCons(names: Names, bits: seq<int>, total: nat, first: string, tokens: seq<string>)
    requires EndsWith(names, bits, total, tokens) && TokenOf(names, bits, total - 1, first)
    ensures EndsWith(names, bits, total, [first] + tokens)
  {
  }

  lemma NamedEnd(names: Names, bits: seq<int>, total: nat, bit: nat)
    requires bit < |bits| <= total && bits[bit] != 0
    requires bit + 1 < total ==> EndsWith(names, bits, total, Tokens(names, bits, total, bit + 1))
    ensures EndsWith(names, bits, total, Tokens(names, bits, total, bit))
  {
    TokensNamed(names, bits, total, bit);
    if bit + 1 < total {
      EndsCons(names, bits, total, NameOf(names, bits[bit]), Tokens(names, bits, total, bit + 1));
    }
  }

  lemma SkipEnd(names: Names, bits: seq<int>, total: nat, bit: nat)
    requires bit < total && Reserved(bits, bit)
    requires var e := RunEnd(bits, total, bit);
      e < total ==> EndsWith(names, bits, total, Tokens(names, bits, total, e))
    ensures EndsWith(names, bits, total, Tokens(names, bits, total, bit))
  {
    TokensSkip(names, bits, total, bit);
    var e := RunEnd(bits, total, bit);
    if e < total { EndsCons(names, bits, total, Print(e - bit), Tokens(names, bits, total, e)); }
  }

  lemma {:induction false} TokensEnd(names: Names, bits: seq<int>, total: nat, bit: nat)
    requires |bits| <= total && bit < total
    ensures EndsWith(names, bits, total, Tokens(names, bits, total, bit))
    decreases total - bit
  {
    if bit < |bits| && bits[bit] != 0 {
      if bit + 1 < total { TokensEnd(names, bits, total, bit + 1); }
      NamedEnd(names, bits, total, bit);
    } else {
      assert Reserved(bits, bit);
      var e := RunEnd(bits, total, bit);
      if e < total { TokensEnd(names, bits, total, e); }
      SkipEnd(names, bits, total, bit);
    }
  }

  /** No token has a separator, and none is empty. */
  ghost predicate CleanTokens(tokens: seq<string>) {
    tokens != [] && forall i | 0 <= i < |tokens| :: CleanBit(tokens[i]) && tokens[i] != ""
  }

  lemma BitTokens(names: Names, a: PAttr, tokens: seq<string>)
    requires WellMade(names, a) && Separable(names, a) && a.HasBits()
    requires tokens == Tokens(names, a.bitIds, a.Size() * 8, 0)
    ensures CleanTokens(tokens)
  {
    TokensClean(names, a.bitIds, a.Size() * 8, 0);
    forall i | 0 <= i < |tokens| ensures CleanBit(tokens[i]) && tokens[i] != "" { assert tokens[i] in tokens; }
  }

  lemma LastTokenOf(names: Names, bits: seq<int>, total: nat)
    requires 0 < |bits| <= total && bits[|bits| - 1] != 0
    ensures var tokens := Tokens(names, bits, total, 0);
      && tokens != []
      && (EndsInReturn(tokens[|tokens| - 1]) <==>
            |bits| == total && EndsInReturn(NameOf(names, bits[|bits| - 1])))
  {
    TokensEnd(names, bits, total, 0);
    var tokens := Tokens(names, bits, total, 0);
    if IsUnsignedInteger(tokens[|tokens| - 1]) { DigitsClean(tokens[|tokens| - 1]); }
    assert Reserved(bits, total - 1) <==> |bits| < total;
  }

  /** The last token ends in a carriage return exactly when LosesReturn. */
  lemma LastToken(names: Names, a: PAttr, tokens: seq<string>)
    requires WellMade(names, a) && a.HasBits() && tokens == Tokens(names, a.bitIds, a.Size() * 8, 0)
    ensures tokens != [] && (EndsInReturn(tokens[|tokens| - 1]) <==> LosesReturn(names, a))
  {
    LastTokenOf(names, a.bitIds, a.Size() * 8);
  }

  /** The bit column splits into the tokens it was made of. */
  lemma BitColumn(names: Names, a: PAttr, tokens: seq<string>)
    requires WellMade(names, a) && Separable(names, a) && a.HasBits()
    requires tokens == Tokens(names, a.bitIds, a.Size() * 8, 0)
    ensures CleanColumn(tokens, Join(tokens, ',')) && (EndsInReturn(Join(tokens, ',')) <==> LosesReturn(names, a))
  {
    LastToken(names, a, tokens);
    BitTokens(names, a, tokens);
    JoinedTokens(tokens);
  }

  ghost predicate CleanColumn(tokens: seq<string>, col: string) {
    && tokens != [] && Split(col, ',') == tokens
    && col != "" && ';' !in col && '\n' !in col
  }

  lemma JoinedTokens(tokens: seq<string>)
    requires CleanTokens(tokens)
    ensures CleanColumn(tokens, Join(tokens, ','))
    ensures EndsInReturn(Join(tokens, ',')) <==> EndsInReturn(tokens[|tokens| - 1])
  {
    SplitJoin(tokens, ',');
    JoinClean(tokens, ',', ';');
    JoinClean(tokens, ',', '\n');
    LastOfJoin(tokens, ',');
  }

  lemma ColumnsClean(names: Names, a: PAttr)
    requires WellMade(names, a) && (a.name == TIMESTAMP || Separable(names, a))
    requires a.name == TIMESTAMP ==> !a.HasBits()
    ensures var f := Fields(names, a);
      && (forall i | 0 <= i < |f| :: ';' !in f[i] && '\n' !in f[i])
      && |f| >= 4 && f[|f| - 1] != "" && (EndsInReturn(f[|f| - 1]) <==> LosesReturn(names, a))
  {
    TypeNameClean(a.dtype);
    DigitsClean(Print(a.count));
    DigitsClean(Print(a.offset));
    if a.HasBits() { BitColumn(names, a, Tokens(names, a.bitIds, a.Size() * 8, 0)); }
  }

  /** A printed line splits into the columns it was made of, no line break gets
      in the way, and it ends in a carriage return exactly when LosesReturn. */
  lemma LineSplits(names: Names, a: PAttr)
    requires WellMade(names, a) && (a.name == TIMESTAMP || Separable(names, a))
    requires a.name == TIMESTAMP ==> !a.HasBits()
    ensures Split(Line(names, a), ';') == Fields(names, a)
    ensures Line(names, a) != "" && '\n' !in Line(names, a)
    ensures EndsInReturn(Line(names, a)) <==> LosesReturn(names, a)
  {
    ColumnsClean(names, a);
    JoinedClean(Fields(names, a));
  }

  lemma JoinedClean(f: seq<string>)
    requires f != [] && f[|f| - 1] != ""
    requires forall i | 0 <= i < |f| :: ';' !in f[i] && '\n' !in f[i]
    ensures var line := Join(f, ';');
      Split(line, ';') == f && line != "" && '\n' !in line && (EndsInReturn(line) <==> EndsInReturn(f[|f| - 1]))
  {
    SplitJoin(f, ';');
    JoinClean(f, ';', '\n');
    LastOfJoin(f, ';');
  }

  lemma {:induction false} LastOfJoin(parts: seq<string>, sep: char)
    requires parts != [] && parts[|parts| - 1] != ""
    ensures var j, p := Join(parts, sep), parts[|parts| - 1];
      j != "" && j[|j| - 1] == p[|p| - 1]
  {
    if |parts| > 1 { LastOfJoin(parts[1..], sep); }
  }

  // ---------------------------------------------------------------------------
  // Lines
  // ---------------------------------------------------------------------------

  lemma KnownName(names: Names, a: PAttr)
    requires Distinct(names) && WellMade(names, a)
    ensures Registered(names, a.name) == names && IdOf(names, a.name) == a.id
    ensures Stored(a.name) == a.name
  {
    IdsAreStable(names, names, "");
    assert NameOf(names, a.id) == a.name;
    UptoAll(a.name, NAME_CHARS);
  }

  /** The tokens of a field with bits define the same bits again. */
  lemma BitsReadBack(names: Names, a: PAttr)
    requires Distinct(names) && WellMade(names, a) && a.HasBits()
    ensures WithBits(names, a.name, a.dtype, Tokens(names, a.bitIds, a.Size() * 8, 0)) == Ok((names, a.(offset := 0)))
  {
    var total := 8 * TypeSize(a.dtype);
    var tokens := Tokens(names, a.bitIds, total, 0);
    KnownName(names, a);
    assert Filled(a.bitIds, total, 0) == Zeros(total);
    PlaceTokens(names, a.bitIds, total, 0, tokens);
    TrimFilled(a.bitIds, total);
  }

  /** What reading makes of the columns of a line. */
  lemma ReadColumns(names: Names, line: string, parts: seq<string>, count: nat, dtype: DataType)
    requires line != "" && Chomp(line) == line && Split(line, ';') == parts && 4 <= |parts| <= 5
    requires Upto(parts[0], NAME_CHARS) != TIMESTAMP
    requires Stoul(parts[2]) == Some(count) && TypeFromName(parts[1]) == dtype
    requires |parts| == 5 ==> Split(parts[4], ',') != []
    ensures |parts| == 4 ==>
      ReadLine(names, line) == Ok((Plain(names, parts[0], dtype, count).0, [Plain(names, parts[0], dtype, count).1]))
    ensures |parts| == 5 ==>
      ReadLine(names, line) == match WithBits(names, parts[0], dtype, Split(parts[4], ','))
        case Err(e) => Err(e)
        case Ok(r) => Ok((r.0, [r.1]))
  {
  }

  /** One field: its line reads back as the field, and the registry, which
      knows all its names, does not change. */
  lemma LineRoundTrip(names: Names, a: PAttr)
    requires Distinct(names) && WellMade(names, a) && Printable(names, a)
    ensures ReadLine(names, Line(names, a)) == Ok((names, [a.(offset := 0)]))
  {
    LineSplits(names, a);
    KnownName(names, a);
    StoulPrint(a.count);
    TypeRoundTrip(a.dtype);
    if a.HasBits() {
      BitColumn(names, a, Tokens(names, a.bitIds, a.Size() * 8, 0));
      BitsReadBack(names, a);
    }
    ReadColumns(names, Line(names, a), Fields(names, a), a.count, a.dtype);
  }

  /** The header's line reads as nothing, whatever is registered. */
  lemma HeaderLine(names: Names, a: PAttr, now: Names)
    requires WellMade(names, a) && a.name == TIMESTAMP && !a.HasBits()
    ensures ReadLine(now, Line(names, a)) == Ok((now, []))
  {
    LineSplits(names, a);
    UptoAll(TIMESTAMP, NAME_CHARS);
  }

  /** The attributes of a rule: the header, then fields toText can print. */
  ghost predicate PrintableAttrs(names: Names, attrs: seq<PAttr>) {
    && attrs != [] && WellMade(names, attrs[0]) && attrs[0].name == TIMESTAMP && !attrs[0].HasBits()
    && forall i | 1 <= i < |attrs| :: WellMade(names, attrs[i]) && Printable(names, attrs[i])
  }

  function Lines(names: Names, attrs: seq<PAttr>): (r: seq<string>)
    ensures |r| == |attrs| && forall i | 0 <= i < |r| :: r[i] == Line(names, attrs[i])
  {
    if attrs == [] then [] else [Line(names, attrs[0])] + Lines(names, attrs[1..])
  }

  lemma {:induction false} TextSplits(names: Names, attrs: seq<PAttr>)
    requires forall i | 0 <= i < |attrs| :: '\n' !in Line(names, attrs[i])
    ensures Split(ToText(names, attrs), '\n') == Lines(names, attrs)
  {
    if attrs != [] {
      TextSplits(names, attrs[1..]);
      SplitCons(Line(names, attrs[0]), '\n', ToText(names, attrs[1..]));
    }
  }

  function Bare(attrs: seq<PAttr>): (r: seq<PAttr>)
    ensures |r| == |attrs| && forall i | 0 <= i < |r| :: r[i] == attrs[i].(offset := 0)
  {
    if attrs == [] then [] else [attrs[0].(offset := 0)] + Bare(attrs[1..])
  }

  lemma ReadsOneMore(names: Names, lines: seq<string>, fields: seq<PAttr>)
    requires lines != [] && fields != []
    requires ReadLines(names, lines[..|lines| - 1]) == Ok((names, fields[..|fields| - 1]))
    requires ReadLine(names, lines[|lines| - 1]) == Ok((names, [fields[|fields| - 1]]))
    ensures ReadLines(names, lines) == Ok((names, fields))
  {
    InitAndLast(fields);
  }

  lemma InitAndLast<T>(s: seq<T>)
    requires s != []
    ensures s == s[..|s| - 1] + [s[|s| - 1]]
  {
  }

  lemma ReadsOne(names: Names, line: string)
    requires ReadLine(names, line) == Ok((names, []))
    ensures ReadLines(names, [line]) == Ok((names, []))
  {
    assert [line][..0] == [];
    var none: seq<PAttr> := [];
    assert none + none == none;
  }

  /** Lines that each read back as one field, after one that reads as nothing. */
  lemma {:induction false} ReadsEach(names: Names, lines: seq<string>, fields: seq<PAttr>)
    requires |lines| == |fields| + 1 && ReadLine(names, lines[0]) == Ok((names, []))
    requires forall i | 0 <= i < |fields| :: ReadLine(names, lines[i + 1]) == Ok((names, [fields[i]]))
    ensures ReadLines(names, lines) == Ok((names, fields))
  {
    var n := |fields|;
    if n == 0 {
      ReadsOne(names, lines[0]);
      assert lines == [lines[0]] && fields == [];
    } else {
      ReadsEach(names, lines[..n], fields[..n - 1]);
      ReadsOneMore(names, lines, fields);
    }
  }

  /** What toText prints reads back as the fields, without their offsets. */
  lemma ReadsBack(names: Names, attrs: seq<PAttr>)
    requires Distinct(names) && PrintableAttrs(names, attrs)
    ensures ReadLines(names, Split(ToText(names, attrs), '\n')) == Ok((names, Bare(attrs[1..])))
  {
    forall i | 0 <= i < |attrs| ensures '\n' !in Line(names, attrs[i]) { LineSplits(names, attrs[i]); }
    TextSplits(names, attrs);
    var lines, fields := Lines(names, attrs), Bare(attrs[1..]);
    HeaderLine(names, attrs[0], names);
    forall i | 0 <= i < |fields| ensures ReadLine(names, lines[i + 1]) == Ok((names, [fields[i]])) {
      LineRoundTrip(names, attrs[i + 1]);
    }
    ReadsEach(names, lines, fields);
  }

  // ---------------------------------------------------------------------------
  // Rules
  // ---------------------------------------------------------------------------

  /** Laying out again does not depend on old offsets. */
  lemma {:induction false} LaidAgain(s: seq<PAttr>, t: seq<PAttr>)
    requires |s| == |t| && forall k | 0 <= k < |s| :: s[k].(offset := 0) == t[k].(offset := 0)
    ensures Laid(s) == Laid(t) && SizeSum(s) == SizeSum(t)
  {
    if s != [] {
      var n := |s| - 1;
      LaidAgain(s[..n], t[..n]);
      assert s[n].(offset := 0) == t[n].(offset := 0);
      assert s[n].Size() == t[n].Size() && s[n].(offset := SizeSum(s[..n])) == t[n].(offset := SizeSum(t[..n]));
    }
  }

  /** A rule as init builds it from the header and constructed fields. */
  ghost predicate BuiltRule(names: Names, rule: Rule, header: PAttr, input: seq<PAttr>, align: bool) {
    && Distinct(names)
    && header.name == TIMESTAMP && header.id == IdOf(names, TIMESTAMP) > 0
    && header == PAttr(header.id, TIMESTAMP, Double, 1, 0, [])
    && Build(header, input, align) == Ok(rule)
    && forall i | 0 <= i < |input| :: WellMade(names, input[i])
  }

  ghost predicate AllPrintable(names: Names, input: seq<PAttr>) {
    forall i | 0 <= i < |input| :: Printable(names, input[i])
  }

  ghost predicate PrintableRule(names: Names, rule: Rule, header: PAttr, input: seq<PAttr>, align: bool) {
    BuiltRule(names, rule, header, input, align) && AllPrintable(names, input)
  }

  /** A field of the layout is one of the fields given to init. */
  lemma LaidMember(header: PAttr, input: seq<PAttr>, align: bool, i: nat) returns (k: nat)
    requires 1 <= i <= |input| == |Ordered(header, input, align)| - 1
    ensures k < |input|
    ensures Laid(Ordered(header, input, align))[i] == input[k].(offset := Laid(Ordered(header, input, align))[i].offset)
  {
    var order := Ordered(header, input, align);
    SortIsStable(input);
    assert order[i] in multiset(if align then SortDesc(input) else input);
    k :| 0 <= k < |input| && input[k] == order[i];
  }

  lemma OrderedSize(header: PAttr, input: seq<PAttr>, align: bool)
    ensures |Ordered(header, input, align)| == |input| + 1
  {
    SortIsStable(input);
    assert |multiset(SortDesc(input))| == |multiset(input)|;
  }

  lemma LaidFields(names: Names, header: PAttr, input: seq<PAttr>, align: bool)
    requires WellMade(names, header) && header.name == TIMESTAMP && !header.HasBits()
    requires forall i | 0 <= i < |input| :: WellMade(names, input[i]) && Printable(names, input[i])
    ensures PrintableAttrs(names, Laid(Ordered(header, input, align)))
  {
    var attrs := Laid(Ordered(header, input, align));
    OrderedSize(header, input, align);
    assert attrs[0] == header.(offset := attrs[0].offset);
    forall i | 1 <= i < |attrs| ensures WellMade(names, attrs[i]) && Printable(names, attrs[i]) {
      var k := LaidMember(header, input, align, i);
      ReprintOffset(names, input[k], attrs[i].offset);
    }
  }

  lemma ReprintOffset(names: Names, a: PAttr, offset: nat)
    requires WellMade(names, a) && Printable(names, a)
    ensures WellMade(names, a.(offset := offset)) && Printable(names, a.(offset := offset))
  {
  }

  lemma LaidBare(header: PAttr, input: seq<PAttr>, align: bool)
    requires header.offset == 0
    ensures var attrs := Laid(Ordered(header, input, align));
      attrs != [] && Laid(Ordered(header, Bare(attrs[1..]), false)) == attrs
  {
    var order := Ordered(header, input, align);
    var attrs := Laid(order);
    var again := Ordered(header, Bare(attrs[1..]), false);
    assert attrs[0] == header.(offset := attrs[0].offset);
    forall k | 0 <= k < |order| ensures order[k].(offset := 0) == again[k].(offset := 0) {
      assert attrs[k] == order[k].(offset := attrs[k].offset);
    }
    LaidAgain(order, again);
  }

  /** init on the fields of a rule, packed: all as it was but the record size. */
  lemma BuildAgain(header: PAttr, input: seq<PAttr>, align: bool)
    requires header.offset == 0 && Build(header, input, align).Ok?
    ensures var rule := Build(header, input, align).value;
      && rule.attrs == Laid(Ordered(header, input, align)) != []
      && Build(header, Bare(rule.attrs[1..]), false) == Ok(rule.(aligned := false, recSize := SizeSum(rule.attrs)))
  {
    LaidBare(header, input, align);
  }

  lemma TextReadsBack(names: Names, header: PAttr, input: seq<PAttr>, align: bool)
    requires Distinct(names) && header.id == IdOf(names, TIMESTAMP) > 0
    requires header == PAttr(header.id, TIMESTAMP, Double, 1, 0, [])
    requires forall i | 0 <= i < |input| :: WellMade(names, input[i]) && Printable(names, input[i])
    ensures var attrs := Laid(Ordered(header, input, align));
      attrs != [] && ReadLines(names, Split(ToText(names, attrs), '\n')) == Ok((names, Bare(attrs[1..])))
  {
    assert names[header.id - 1] == TIMESTAMP;
    LaidFields(names, header, input, align);
    ReadsBack(names, Laid(Ordered(header, input, align)));
  }

  /** fromText(toText(r)): the same fields with the same types, counts, bits and
      offsets, and the same lookup tables, packed or aligned. Only the record
      size can differ: the text does not say that a rule was aligned, so the
      padding at its end is gone. */
  lemma SchemaRoundTrip(names: Names, rule: Rule, header: PAttr, input: seq<PAttr>, align: bool)
    requires PrintableRule(names, rule, header, input, align)
    ensures FromText(names, ToText(names, rule.attrs))
      == Ok((names, rule.(aligned := false, recSize := SizeSum(rule.attrs))))
  {
    BuildAgain(header, input, align);
    TextReadsBack(names, header, input, align);
    HeaderIs(names);
  }

  /** The record size survives exactly when the rule has no padding at its end. */
  lemma SizeSurvives(header: PAttr, input: seq<PAttr>, align: bool)
    requires Build(header, input, align).Ok?
    ensures var rule := Build(header, input, align).value;
      rule.recSize == SizeSum(rule.attrs) <==> !align || SizeSum(rule.attrs) % MaxElem(rule.attrs) == 0
  {
  }

  /** A packed rule comes back whole. */
  lemma PackedRoundTrip(names: Names, rule: Rule, header: PAttr, input: seq<PAttr>)
    requires PrintableRule(names, rule, header, input, false)
    ensures FromText(names, ToText(names, rule.attrs)) == Ok((names, rule))
  {
    SchemaRoundTrip(names, rule, header, input, false);
  }
}
