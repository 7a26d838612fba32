/** RecRule as text: toText prints one line per field, fromText reads it back. */
module SchemaText {
  import opened Types
  import opened Registry
  import opened Decimal
  import opened Attributes
  import opened Rules

  // ---------------------------------------------------------------------------
  // Splitting and joining
  // ---------------------------------------------------------------------------

  /** Index of the first sep, or the length. */
  function Find(s: string, sep: char): (i: nat)
    ensures i <= |s| && sep !in s[..i] && (i < |s| ==> s[i] == sep)
  {
    if s == "" || s[0] == sep then 0 else Find(s[1..], sep) + 1
  }

  /** The segments a getline loop with delimiter sep reads: nothing after a
      final delimiter. */
  function Split(s: string, sep: char): seq<string>
    decreases |s|
  {
    if s == "" then []
    else
      var i := Find(s, sep);
      if i == |s| then [s] else [s[..i]] + Split(s[i + 1..], sep)
  }

  function Join(parts: seq<string>, sep: char): string {
    if parts == [] then ""
    else if |parts| == 1 then parts[0]
    else parts[0] + [sep] + Join(parts[1..], sep)
  }

  lemma FindIs(a: string, sep: char, rest: string)
    requires sep !in a
    ensures Find(a + [sep] + rest, sep) == |a|
  {
    var s := a + [sep] + rest;
    var i := Find(s, sep);
    assert forall k | 0 <= k < |a| :: s[k] == a[k] != sep;
    assert s[|a|] == sep;
    assert forall k | 0 <= k < i :: s[..i][k] == s[k];
  }

  lemma SplitCons(a: string, sep: char, rest: string)
    requires sep !in a
    ensures Split(a + [sep] + rest, sep) == [a] + Split(rest, sep)
  {
    FindIs(a, sep, rest);
    var s := a + [sep] + rest;
    assert s[..|a|] == a && s[|a| + 1..] == rest;
  }

  lemma SplitOne(a: string, sep: char)
    requires a != "" && sep !in a
    ensures Split(a, sep) == [a]
  {
    assert forall k | 0 <= k < |a| :: a[k] != sep;
  }

  /** What a split keeps of joined pieces: an empty last one is lost. */
  function Kept(parts: seq<string>): seq<string>
    requires parts != []
  {
    if parts[|parts| - 1] == "" then parts[..|parts| - 1] else parts
  }

  lemma KeptCons(parts: seq<string>)
    requires |parts| > 1
    ensures Kept(parts) == [parts[0]] + Kept(parts[1..])
  {
  }

  /** Pieces without the separator come back from a joined line. */
  lemma {:induction false} SplitJoin(parts: seq<string>, sep: char)
    requires forall i | 0 <= i < |parts| :: sep !in parts[i]
    requires parts != []
    ensures Split(Join(parts, sep), sep) == Kept(parts)
  {
    if |parts| == 1 {
      if parts[0] != "" { SplitOne(parts[0], sep); }
    } else {
      SplitJoin(parts[1..], sep);
      SplitCons(parts[0], sep, Join(parts[1..], sep));
      KeptCons(parts);
    }
  }

  /** s without a separator at the very end. */
  function Unended(s: string, sep: char): string {
    if s != "" && s[|s| - 1] == sep then s[..|s| - 1] else s
  }

  lemma UnendedTail(a: string, sep: char, rest: string)
    ensures Unended(a + [sep] + rest, sep) == if rest == "" then a else a + [sep] + Unended(rest, sep)
  {
    var s := a + [sep] + rest;
    if rest == "" {
      assert s[..|s| - 1] == a;
    } else if rest[|rest| - 1] == sep {
      assert s[..|s| - 1] == a + [sep] + rest[..|rest| - 1];
    }
  }

  lemma JoinCons(x: string, rest: seq<string>, sep: char)
    requires rest != []
    ensures Join([x] + rest, sep) == x + [sep] + Join(rest, sep)
  {
    assert ([x] + rest)[1..] == rest;
  }

  /** Splitting loses nothing but a separator at the very end. */
  lemma {:induction false} SplitWhole(s: string, sep: char)
    requires s != ""
    ensures Split(s, sep) != [] && Join(Split(s, sep), sep) == Unended(s, sep)
    decreases |s|
  {
    var i := Find(s, sep);
    if i == |s| {
      assert s[..i] == s && s[|s| - 1] in s;
    } else {
      var front, rest := s[..i], s[i + 1..];
      assert s == front + [sep] + rest;
      UnendedTail(front, sep, rest);
      if rest != "" {
        SplitWhole(rest, sep);
        JoinCons(front, Split(rest, sep), sep);
      }
    }
  }

  // ---------------------------------------------------------------------------
  // Printing
  // ---------------------------------------------------------------------------

  /** Whether bit `bit` of a field with `total` bits is reserved. */
  predicate Reserved(bits: seq<int>, bit: nat) { bit >= |bits| || bits[bit] == 0 }

  /** End of the run of reserved bits from `bit` on. */
  function RunEnd(bits: seq<int>, total: nat, bit: nat): (e: nat)
    requires bit <= total
    ensures bit <= e <= total
    ensures forall k | bit <= k < e :: Reserved(bits, k)
    ensures e < total ==> !Reserved(bits, e)
    decreases total - bit
  {
    if bit < total && Reserved(bits, bit) then RunEnd(bits, total, bit + 1) else bit
  }

  /** One token per named bit and one number per run of reserved bits. */
  function Tokens(names: Names, bits: seq<int>, total: nat, bit: nat): seq<string>
    requires bit <= total
    decreases total - bit
  {
    if bit == total then []
    else if bit < |bits| && bits[bit] != 0 then [NameOf(names, bits[bit])] + Tokens(names, bits, total, bit + 1)
    else
      assert Reserved(bits, bit);
      var e := RunEnd(bits, total, bit);
      [Print(e - bit)] + Tokens(names, bits, total, e)
  }

  function Fields(names: Names, a: PAttr): seq<string> {
    [a.name, TypeName(a.dtype), Print(a.count), Print(a.offset)]
    + if a.HasBits() then [Join(Tokens(names, a.bitIds, a.Size() * 8, 0), ',')] else []
  }

  function Line(names: Names, a: PAttr): string {
    Join(Fields(names, a), ';')
  }

  function ToText(names: Names, attrs: seq<PAttr>): string {
    if attrs == [] then "" else Line(names, attrs[0]) + "\n" + ToText(names, attrs[1..])
  }

  /** The inner loop of toText: past a run of reserved bits. */
  method SkipRun(bits: seq<int>, totalBits: nat, start: nat) returns (bit: nat, skip: nat)
    requires start <= totalBits
    ensures bit == RunEnd(bits, totalBits, start) && skip == bit - start
  {
    bit, skip := start, 0;
    while bit < totalBits && (bit >= |bits| || bits[bit] == 0)
      invariant start <= bit <= totalBits && skip == bit - start
      invariant RunEnd(bits, totalBits, bit) == RunEnd(bits, totalBits, start)
    {
      skip := skip + 1;
      bit := bit + 1;
    }
  }

  method NextToken(names: Names, bits: seq<int>, totalBits: nat, bit: nat) returns (token: string, next: nat)
    requires forall k | 0 <= k < |bits| :: bits[k] >= 0
    requires bit < totalBits
    ensures bit < next <= totalBits
    ensures Tokens(names, bits, totalBits, bit) == [token] + Tokens(names, bits, totalBits, next)
  {
    var bid := if bit < |bits| then bits[bit] else 0;
    if bid > 0 {
      return NameOf(names, bid), bit + 1;
    }
    var skip;
    next, skip := SkipRun(bits, totalBits, bit);
    token := Print(skip);
  }

  method PrintBits(names: Names, bits: seq<int>, totalBits: nat) returns (text: string)
    requires forall k | 0 <= k < |bits| :: bits[k] >= 0
    ensures text == Join(Tokens(names, bits, totalBits, 0), ',')
  {
    text := "";
    var firstToken := true;
    var bit := 0;
    ghost var done: seq<string> := [];
    while bit < totalBits
      invariant bit <= totalBits && firstToken == (done == [])
      invariant text == Join(done, ',')
      invariant done + Tokens(names, bits, totalBits, bit) == Tokens(names, bits, totalBits, 0)
    {
      var token, next := NextToken(names, bits, totalBits, bit);
      text := if firstToken then token else text + "," + token;
      firstToken := false;
      JoinSnoc(done, token, ',');
      MoveOne(done, token, Tokens(names, bits, totalBits, next));
      done := done + [token];
      bit := next;
    }
    assert done + [] == done;
  }

  lemma MoveOne<T>(done: seq<T>, x: T, rest: seq<T>)
    ensures done + ([x] + rest) == (done + [x]) + rest
  {
  }

  lemma {:induction false} JoinSnoc(parts: seq<string>, x: string, sep: char)
    ensures Join(parts + [x], sep) == if parts == [] then x else Join(parts, sep) + [sep] + x
  {
    if |parts| > 0 {
      JoinSnoc(parts[1..], x, sep);
      assert (parts + [x])[1..] == parts[1..] + [x];
    }
  }

  lemma {:induction false} ToTextSnoc(names: Names, attrs: seq<PAttr>, a: PAttr)
    ensures ToText(names, attrs + [a]) == ToText(names, attrs) + Line(names, a) + "\n"
  {
    if attrs == [] {
      assert attrs + [a] == [a] && [a][1..] == [];
    } else {
      ToTextSnoc(names, attrs[1..], a);
      assert (attrs + [a])[1..] == attrs[1..] + [a];
      var line, rest, last := Line(names, attrs[0]), ToText(names, attrs[1..]), Line(names, a);
      Regroup(line, rest, last);
    }
  }

  lemma Regroup(line: string, rest: string, last: string)
    ensures line + "\n" + (rest + last + "\n") == (line + "\n" + rest) + last + "\n"
  {
  }

  method PrintLine(names: Names, a: PAttr) returns (line: string)
    requires forall k | 0 <= k < |a.bitIds| :: a.bitIds[k] >= 0
    ensures line == Line(names, a)
  {
    line := a.name + ";" + TypeName(a.dtype) + ";" + Print(a.count) + ";" + Print(a.offset);
    LineIs(names, a);
    if a.HasBits() {
      var bits := PrintBits(names, a.bitIds, a.Size() * 8);
      line := line + (";" + bits);
    }
  }

  /** RecRule::toText. */
  method PrintRule(names: Names, attrs: seq<PAttr>) returns (text: string)
    requires forall i, k | 0 <= i < |attrs| && 0 <= k < |attrs[i].bitIds| :: attrs[i].bitIds[k] >= 0
    ensures text == ToText(names, attrs)
  {
    text := "";
    for i := 0 to |attrs|
      invariant text == ToText(names, attrs[..i])
    {
      var line := PrintLine(names, attrs[i]);
      ToTextSnoc(names, attrs[..i], attrs[i]);
      assert attrs[..i + 1] == attrs[..i] + [attrs[i]];
      text := text + line + "\n";
    }
    assert attrs[..|attrs|] == attrs;
  }

  lemma LineIs(names: Names, a: PAttr)
    ensures Line(names, a) == a.name + ";" + TypeName(a.dtype) + ";" + Print(a.count) + ";" + Print(a.offset)
      + if a.HasBits() then ";" + Join(Tokens(names, a.bitIds, a.Size() * 8, 0), ',') else ""
  {
    var f := [a.name, TypeName(a.dtype), Print(a.count), Print(a.offset)];
    JoinFour(f[0], f[1], f[2], f[3]);
    if a.HasBits() {
      JoinSnoc(f, Join(Tokens(names, a.bitIds, a.Size() * 8, 0), ','), ';');
    } else {
      assert f + [] == f;
    }
  }

  lemma JoinFour(a: string, b: string, c: string, d: string)
    ensures Join([a, b, c, d], ';') == a + ";" + b + ";" + c + ";" + d
  {
    assert [a, b, c, d][1..] == [b, c, d] && [b, c, d][1..] == [c, d] && [c, d][1..] == [d];
    assert Join([c, d], ';') == c + ";" + d;
    assert Join([b, c, d], ';') == b + ";" + (c + ";" + d);
  }

  // ---------------------------------------------------------------------------
  // Reading
  // ---------------------------------------------------------------------------

  function Chomp(line: string): string {
    if line != "" && line[|line| - 1] == '\r' then line[..|line| - 1] else line
  }

  /** What one line adds: nothing, a field, or an exception. */
  function ReadLine(names: Names, line: string): Result<(Names, seq<PAttr>)> {
    var parts := Split(Chomp(line), ';');
    if line == "" || |parts| < 3 || Upto(parts[0], NAME_CHARS) == TIMESTAMP then Ok((names, []))
    else
      match Stoul(parts[2])
      case None => Err(BadNumber)
      case Some(count) =>
        var dtype := TypeFromName(parts[1]);
        var defs := if |parts| >= 5 then Split(parts[4], ',') else [];
        if defs != [] then
          match WithBits(names, parts[0], dtype, defs)
          case Err(e) => Err(e)
          case Ok(r) => Ok((r.0, [r.1]))
        else
          var (names', a) := Plain(names, parts[0], dtype, count);
          Ok((names', [a]))
  }

  function ReadLines(names: Names, lines: seq<string>): Result<(Names, seq<PAttr>)> {
    if lines == [] then Ok((names, []))
    else
      match ReadLines(names, lines[..|lines| - 1])
      case Err(e) => Err(e)
      case Ok(r) =>
        match ReadLine(r.0, lines[|lines| - 1])
        case Err(e) => Err(e)
        case Ok(s) => Ok((s.0, r.1 + s.1))
  }

  /** RecRule::fromText: the header is registered first, then the lines are
      read, and the fields are laid out packed. */
  function FromText(names: Names, text: string): Result<(Names, Rule)> {
    var (names1, header) := Header(names);
    match ReadLines(names1, Split(text, '\n'))
    case Err(e) => Err(e)
    case Ok(r) =>
      match Build(header, r.1, false)
      case Err(e) => Err(e)
      case Ok(rule) => Ok((r.0, rule))
  }

  /** What is registered after a line, also when it throws. */
  function LineNames(names: Names, line: string): (names': Names)
    ensures ReadLine(names, line).Ok? ==> names' == ReadLine(names, line).value.0
  {
    match ReadLine(names, line)
    case Ok(r) => r.0
    case Err(_) =>
      var parts := Split(Chomp(line), ';');
      if |parts| < 5 || Stoul(parts[2]).None? then names
      else WithBitsNames(names, parts[0], TypeFromName(parts[1]), Split(parts[4], ','))
  }

  function LinesNames(names: Names, lines: seq<string>): (names': Names)
    ensures ReadLines(names, lines).Ok? ==> names' == ReadLines(names, lines).value.0
  {
    if lines == [] then names
    else
      var n := |lines| - 1;
      match ReadLines(names, lines[..n])
      case Err(_) => LinesNames(names, lines[..n])
      case Ok(r) => LineNames(r.0, lines[n])
  }

  /** What is registered after fromText, also when it throws. */
  function TextNames(names: Names, text: string): (names': Names)
    ensures FromText(names, text).Ok? ==> names' == FromText(names, text).value.0
  {
    LinesNames(Header(names).0, Split(text, '\n'))
  }

  method ReadOne(reg: PReg, line: string) returns (r: Result<seq<PAttr>>)
    requires reg.Valid()
    modifies reg
    ensures reg.Valid()
    ensures match ReadLine(old(reg.idToName), line)
      case Ok(s) => r == Ok(s.1)
      case Err(e) => r == Err(e)
    ensures reg.idToName == LineNames(old(reg.idToName), line)
  {
    if line == "" {
      return Ok([]);
    }
    var parts := Split(Chomp(line), ';');
    if |parts| < 3 || Upto(parts[0], NAME_CHARS) == TIMESTAMP {
      return Ok([]);
    }
    var dtype := TypeFromName(parts[1]);
    var count := Stoul(parts[2]);
    if count.None? {
      return Err(BadNumber);
    }
    if |parts| >= 5 {
      var bitDefs := Split(parts[4], ',');
      if bitDefs != [] {
        var a := NewWithBits(reg, parts[0], dtype, bitDefs);
        if a.Err? {
          return Err(a.error);
        }
        return Ok([a.value]);
      }
    }
    var id := reg.GetID(Stored(parts[0]));
    return Ok([PAttr(id, Stored(parts[0]), dtype, count.value, 0, [])]);
  }

  lemma ReadLinesOne(names: Names, lines: seq<string>, i: nat, now: Names, fields: seq<PAttr>)
    requires i < |lines| && ReadLines(names, lines[..i]) == Ok((now, fields))
    ensures match ReadLine(now, lines[i])
      case Err(e) => ReadLines(names, lines[..i + 1]) == Err(e)
      case Ok(s) => ReadLines(names, lines[..i + 1]) == Ok((s.0, fields + s.1))
    ensures LinesNames(names, lines[..i + 1]) == LineNames(now, lines[i])
  {
    assert lines[..i + 1][..i] == lines[..i];
  }

  method ReadAll(reg: PReg, lines: seq<string>) returns (r: Result<seq<PAttr>>)
    requires reg.Valid()
    modifies reg
    ensures reg.Valid()
    ensures match ReadLines(old(reg.idToName), lines)
      case Ok(s) => r == Ok(s.1)
      case Err(e) => r == Err(e)
    ensures reg.idToName == LinesNames(old(reg.idToName), lines)
  {
    var userAttrs: seq<PAttr> := [];
    for i := 0 to |lines|
      invariant reg.Valid() && ReadLines(old(reg.idToName), lines[..i]) == Ok((reg.idToName, userAttrs))
    {
      ReadLinesOne(old(reg.idToName), lines, i, reg.idToName, userAttrs);
      var one := ReadOne(reg, lines[i]);
      if one.Err? {
        ReadErr(old(reg.idToName), lines, i + 1);
        return one;
      }
      userAttrs := userAttrs + one.value;
    }
    assert lines[..|lines|] == lines;
    return Ok(userAttrs);
  }

  method ParseRule(reg: PReg, text: string) returns (r: Result<Rule>)
    requires reg.Valid()
    modifies reg
    ensures reg.Valid()
    ensures match FromText(old(reg.idToName), text)
      case Ok(s) => r == Ok(s.1)
      case Err(e) => r == Err(e)
    ensures reg.idToName == TextNames(old(reg.idToName), text)
  {
    HeaderIs(reg.idToName);
    var id := reg.GetID(TIMESTAMP);
    var header := PAttr(id, TIMESTAMP, Double, 1, 0, []);
    AfterHeader(old(reg.idToName), reg.idToName, header, text);
    var userAttrs := ReadAll(reg, Split(text, '\n'));
    if userAttrs.Err? {
      return Err(userAttrs.error);
    }
    r := Build(header, userAttrs.value, false);
  }

  lemma AfterHeader(names: Names, known: Names, header: PAttr, text: string)
    requires Header(names) == (known, header)
    ensures TextNames(names, text) == LinesNames(known, Split(text, '\n'))
    ensures match ReadLines(known, Split(text, '\n'))
      case Ok(s) =>
        FromText(names, text) ==
          (match Build(header, s.1, false) case Ok(rule) => Ok((s.0, rule)) case Err(e) => Err(e))
      case Err(e) => FromText(names, text) == Err(e)
  {
  }

  lemma {:induction false} ReadErr(names: Names, lines: seq<string>, n: nat)
    requires n <= |lines| && ReadLines(names, lines[..n]).Err?
    ensures ReadLines(names, lines) == ReadLines(names, lines[..n])
    ensures LinesNames(names, lines) == LinesNames(names, lines[..n])
    decreases |lines| - n
  {
    if n < |lines| {
      assert lines[..n + 1][..n] == lines[..n];
      ReadErr(names, lines, n + 1);
    } else {
      assert lines[..n] == lines;
    }
  }

  // ---------------------------------------------------------------------------
  // Lines as they are written
  // ---------------------------------------------------------------------------

  lemma StepNamed(names: Names, bits: seq<int>, total: nat, bit: nat, token: string, rest: seq<string>)
    requires bit < |bits| && bit < total && bits[bit] != 0
    requires token == NameOf(names, bits[bit]) && rest == Tokens(names, bits, total, bit + 1)
    ensures Tokens(names, bits, total, bit) == [token] + rest
  {
  }

  lemma StepRun(names: Names, bits: seq<int>, total: nat, bit: nat, e: nat, rest: seq<string>)
    requires bit < e <= total && (forall k | bit <= k < e :: Reserved(bits, k)) && (e < total ==> !Reserved(bits, e))
    requires rest == Tokens(names, bits, total, e)
    ensures Tokens(names, bits, total, bit) == [Print(e - bit)] + rest
  {
    assert RunEnd(bits, total, bit) == e by { RunIs(bits, total, bit, e); }
    assert Reserved(bits, bit);
  }

  lemma {:induction false} RunIs(bits: seq<int>, total: nat, bit: nat, e: nat)
    requires bit <= e <= total && (forall k | bit <= k < e :: Reserved(bits, k)) && (e < total ==> !Reserved(bits, e))
    ensures RunEnd(bits, total, bit) == e
    decreases e - bit
  {
    if bit < e { RunIs(bits, total, bit + 1, e); }
  }

  lemma KnownTokens(names: Names, bits: seq<int>)
    requires names == ["TimeStamp", "StatusReg", "txReady", "rxReady", "errFlag"] && bits == [3, 4, 0, 0, 0, 0, 5]
    ensures Tokens(names, bits, 8, 0) == ["txReady", "rxReady", "4", "errFlag", "1"]
  {
    OneDigit(1);
    OneDigit(4);
    StepRun(names, bits, 8, 7, 8, []);
    StepNamed(names, bits, 8, 6, "errFlag", ["1"]);
    StepRun(names, bits, 8, 2, 6, ["errFlag", "1"]);
    StepNamed(names, bits, 8, 1, "rxReady", ["4", "errFlag", "1"]);
    StepNamed(names, bits, 8, 0, "txReady", ["rxReady", "4", "errFlag", "1"]);
  }

  /** The line of a field with named bits, as the documentation writes one. */
  lemma KnownLine(names: Names, a: PAttr)
    requires names == ["TimeStamp", "StatusReg", "txReady", "rxReady", "errFlag"]
    requires a == PAttr(2, "StatusReg", UInt8, 1, 8, [3, 4, 0, 0, 0, 0, 5])
    ensures Line(names, a) == "StatusReg;UInt8;1;8;txReady,rxReady,4,errFlag,1"
  {
    KnownTokens(names, a.bitIds);
    OneDigit(1);
    OneDigit(8);
    LineIs(names, a);
    KnownText(a.name, TypeName(a.dtype), Print(a.count), Print(a.offset), Tokens(names, a.bitIds, 8, 0));
  }

  lemma KnownText(name: string, dtype: string, count: string, offset: string, tokens: seq<string>)
    requires name == "StatusReg" && dtype == "UInt8" && count == "1" && offset == "8"
    requires tokens == ["txReady", "rxReady", "4", "errFlag", "1"]
    ensures name + ";" + dtype + ";" + count + ";" + offset + (";" + Join(tokens, ','))
      == "StatusReg;UInt8;1;8;txReady,rxReady,4,errFlag,1"
  {
    JoinFive("txReady", "rxReady", "4", "errFlag", "1");
    assert "txReady" + "," + "rxReady" + "," + "4" + "," + "errFlag" + "," + "1" == "txReady,rxReady,4,errFlag,1";
    assert name + ";" + dtype + ";" + count + ";" + offset == "StatusReg;UInt8;1;8";
  }

  lemma JoinFive(a: string, b: string, c: string, d: string, e: string)
    ensures Join([a, b, c, d, e], ',') == a + "," + b + "," + c + "," + d + "," + e
  {
    JoinSnoc([a], b, ',');
    JoinSnoc([a, b], c, ',');
    JoinSnoc([a, b, c], d, ',');
    JoinSnoc([a, b, c, d], e, ',');
    assert [a] + [b] == [a, b] && [a, b] + [c] == [a, b, c];
    assert [a, b, c] + [d] == [a, b, c, d] && [a, b, c, d] + [e] == [a, b, c, d, e];
  }

  /** A carriage return before the line break makes no difference. */
  lemma LineEndsEitherWay(names: Names, line: string)
    requires line != "" && line[|line| - 1] != '\r'
    ensures ReadLine(names, line + "\r") == ReadLine(names, line)
  {
    assert (line + "\r")[..|line|] == line;
  }

  /** A line is refused exactly when it is that of a field and its count is no
      number, or its bits cannot be placed. */
  lemma LineRefusedIff(names: Names, line: string)
    ensures var parts := Split(Chomp(line), ';');
      ReadLine(names, line).Err? <==>
        && line != "" && |parts| >= 3 && Stored(parts[0]) != TIMESTAMP
        && (|| !HasNumber(parts[2])
            || (|parts| >= 5 && parts[4] != "" &&
                WithBits(names, parts[0], TypeFromName(parts[1]), Split(parts[4], ',')).Err?))
  {
    var parts := Split(Chomp(line), ';');
    if |parts| >= 3 { StoulIff(parts[2]); }
    if |parts| >= 5 && parts[4] != "" { SplitWhole(parts[4], ','); }
  }

  lemma RefusedFails(names: Names, lines: seq<string>, i: nat)
    requires i < |lines| && RefusedAt(names, lines, i)
    ensures ReadLines(names, lines).Err?
  {
    var before := ReadLines(names, lines[..i]).value;
    ReadLinesOne(names, lines, i, before.0, before.1);
    ReadErr(names, lines, i + 1);
  }

  lemma {:induction false} FailsSomewhere(names: Names, lines: seq<string>) returns (i: nat)
    requires ReadLines(names, lines).Err?
    ensures i < |lines| && RefusedAt(names, lines, i)
  {
    var n := |lines| - 1;
    if ReadLines(names, lines[..n]).Err? {
      i := FailsSomewhere(names, lines[..n]);
      SameRefused(names, lines, n, i);
    } else {
      i := n;
    }
  }

  lemma SameRefused(names: Names, lines: seq<string>, n: nat, i: nat)
    requires i < n <= |lines| && RefusedAt(names, lines[..n], i)
    ensures RefusedAt(names, lines, i)
  {
    assert lines[..n][..i] == lines[..i] && lines[..n][i] == lines[i];
  }

  /** Reading fails exactly when some line is refused after all those before it. */
  lemma LinesRefusedIff(names: Names, lines: seq<string>)
    ensures ReadLines(names, lines).Err? <==> exists i | 0 <= i < |lines| :: RefusedAt(names, lines, i)
  {
    if ReadLines(names, lines).Err? { var i := FailsSomewhere(names, lines); }
    if i: nat :| i < |lines| && RefusedAt(names, lines, i) { RefusedFails(names, lines, i); }
  }

  ghost predicate RefusedAt(names: Names, lines: seq<string>, i: nat)
    requires i < |lines|
  {
    ReadLines(names, lines[..i]).Ok? && ReadLine(ReadLines(names, lines[..i]).value.0, lines[i]).Err?
  }
}
