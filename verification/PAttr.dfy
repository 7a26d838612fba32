/** PAttr: one field of a record, plain or with named bits. */
module Attributes {
  import opened Types
  import opened Registry
  import opened Decimal

  const NAME_CHARS: nat := 25

  datatype PAttr = PAttr(id: int, name: string, dtype: DataType, count: nat, offset: nat, bitIds: seq<int>)
  {
    function Size(): nat { TypeSize(dtype) * count }

    predicate HasBits() { bitIds != [] }
  }

  datatype Result<T> = Ok(value: T) | Err(error: Error)
  datatype Error = NotInteger | BitsOverflow | BadNumber | DuplicateBit

  /** strncpy into char[26]: up to the first NUL, at most 25 characters. */
  function Stored(name: string): (s: string)
    ensures |s| <= NAME_CHARS && '\0' !in s
  {
    Upto(name, NAME_CHARS)
  }

  function Upto(s: string, n: nat): (r: string)
    ensures |r| <= n && '\0' !in r
  {
    if n == 0 || s == "" || s[0] == '\0' then "" else [s[0]] + Upto(s[1..], n - 1)
  }

  lemma {:induction false} UptoAll(s: string, n: nat)
    requires |s| <= n && '\0' !in s
    ensures Upto(s, n) == s
  {
    if s != "" { UptoAll(s[1..], n - 1); }
  }

  /** Plain field: the registry grows by its name. */
  function Plain(names: Names, name: string, dtype: DataType, count: nat): (r: (Names, PAttr))
    ensures names <= r.0 && IdOf(r.0, Stored(name)) == r.1.id > 0
  {
    var names' := Registered(names, Stored(name));
    (names', PAttr(IdOf(names', Stored(name)), Stored(name), dtype, count, 0, []))
  }

  // ---------------------------------------------------------------------------
  // Bit definitions
  // ---------------------------------------------------------------------------

  /** Registry, bit table and next free position while definitions are read. */
  datatype Cells = Cells(names: Names, bits: seq<int>, pos: nat)

  /** One definition: a number skips, a name takes the next bit, an empty string
      skips one. The addition wraps like size_t. */
  function Place(c: Cells, def: string): (r: Result<Cells>)
    ensures r.Ok? ==> |r.value.bits| == |c.bits| && c.names <= r.value.names
  {
    if c.pos >= |c.bits| then Err(BitsOverflow)
    else if IsUnsignedInteger(def) then
      match Stoul(def)
      case None => Err(BadNumber)
      case Some(skip) =>
        if skip == 0 then Ok(c)
        else if (c.pos + skip) % ULONG_LIMIT > |c.bits| then Err(BitsOverflow)
        else Ok(c.(pos := (c.pos + skip) % ULONG_LIMIT))
    else if def != "" then
      var names' := Registered(c.names, def);
      Ok(Cells(names', c.bits[c.pos := IdOf(names', def)], c.pos + 1))
    else Ok(c.(pos := c.pos + 1))
  }

  function PlaceAll(c: Cells, defs: seq<string>): (r: Result<Cells>)
    ensures r.Ok? ==> |r.value.bits| == |c.bits| && c.names <= r.value.names
  {
    if defs == [] then Ok(c)
    else
      var r := PlaceAll(c, defs[..|defs| - 1]);
      if r.Err? then r else Place(r.value, defs[|defs| - 1])
  }

  /** Drops reserved bits at the end. */
  function Trim(bits: seq<int>): (r: seq<int>)
    ensures r <= bits && (r != [] ==> r[|r| - 1] != 0)
    ensures forall k | |r| <= k < |bits| :: bits[k] == 0
  {
    if bits == [] || bits[|bits| - 1] != 0 then bits else Trim(bits[..|bits| - 1])
  }

  function WithBits(names: Names, name: string, dtype: DataType, defs: seq<string>): (r: Result<(Names, PAttr)>) {
    if !IsInteger(dtype) then Err(NotInteger)
    else
      var names' := Registered(names, Stored(name));
      match PlaceAll(Cells(names', Zeros(8 * TypeSize(dtype)), 0), defs)
      case Err(e) => Err(e)
      case Ok(c) => Ok((c.names, PAttr(IdOf(names', Stored(name)), Stored(name), dtype, 1, 0, Trim(c.bits))))
  }

  function Zeros(n: nat): (z: seq<int>)
    ensures |z| == n && forall k | 0 <= k < n :: z[k] == 0
  {
    seq(n, _ => 0)
  }

  lemma {:induction false} PlaceErr(c: Cells, defs: seq<string>, n: nat)
    requires n <= |defs| && PlaceAll(c, defs[..n]).Err?
    ensures PlaceAll(c, defs) == PlaceAll(c, defs[..n]) && PlaceNames(c, defs) == PlaceNames(c, defs[..n])
    decreases |defs| - n
  {
    if n < |defs| {
      assert defs[..n + 1][..n] == defs[..n];
      PlaceErr(c, defs, n + 1);
    } else {
      assert defs[..n] == defs;
    }
  }

  /** What is registered when the definitions are placed or one is refused. */
  function PlaceNames(c: Cells, defs: seq<string>): (names: Names)
    ensures c.names <= names
    ensures PlaceAll(c, defs).Ok? ==> names == PlaceAll(c, defs).value.names
  {
    if defs == [] then c.names
    else
      var n := |defs| - 1;
      match PlaceAll(c, defs[..n])
      case Err(_) => PlaceNames(c, defs[..n])
      case Ok(c1) => match Place(c1, defs[n]) case Ok(c2) => c2.names case Err(_) => c1.names
  }

  /** What is registered after the constructor, also when it throws. */
  function WithBitsNames(names: Names, name: string, dtype: DataType, defs: seq<string>): (names': Names)
    ensures names <= names'
    ensures WithBits(names, name, dtype, defs).Ok? ==> names' == WithBits(names, name, dtype, defs).value.0
  {
    if !IsInteger(dtype) then names
    else PlaceNames(Cells(Registered(names, Stored(name)), Zeros(8 * TypeSize(dtype)), 0), defs)
  }

  /** One turn of the constructor's loop. */
  method PlaceOne(reg: PReg, bits: seq<int>, pos: nat, def: string) returns (r: Result<()>, bits': seq<int>, pos': nat)
    requires reg.Valid()
    modifies reg
    ensures reg.Valid() && old(reg.idToName) <= reg.idToName
    ensures match Place(Cells(old(reg.idToName), bits, pos), def)
      case Ok(c) => r == Ok(()) && c == Cells(reg.idToName, bits', pos')
      case Err(e) => r == Err(e) && reg.idToName == old(reg.idToName)
  {
    bits', pos' := bits, pos;
    if pos >= |bits| {
      return Err(BitsOverflow), bits', pos';
    }
    if IsUnsignedInteger(def) {
      var parsed := Stoul(def);
      if parsed.None? {
        return Err(BadNumber), bits', pos';
      }
      var skip := parsed.value;
      if skip == 0 {
        return Ok(()), bits', pos';
      }
      if (pos + skip) % ULONG_LIMIT > |bits| {
        return Err(BitsOverflow), bits', pos';
      }
      pos' := (pos + skip) % ULONG_LIMIT;
    } else if def != "" {
      var bid := reg.GetID(def);
      bits' := bits[pos := bid];
      pos' := pos + 1;
    } else {
      pos' := pos + 1;
    }
    r := Ok(());
  }

  lemma PlaceNext(c: Cells, defs: seq<string>, i: nat, now: Cells)
    requires i < |defs| && PlaceAll(c, defs[..i]) == Ok(now)
    ensures PlaceAll(c, defs[..i + 1]) == Place(now, defs[i])
    ensures Place(now, defs[i]).Err? ==>
      PlaceAll(c, defs) == Place(now, defs[i]) && PlaceNames(c, defs) == now.names
  {
    assert defs[..i + 1][..i] == defs[..i];
    if Place(now, defs[i]).Err? { PlaceErr(c, defs, i + 1); }
  }

  /** The loop of the constructor over the definitions. */
  method PlaceDefs(reg: PReg, bits: seq<int>, bitDefs: seq<string>) returns (r: Result<()>, bitIds: seq<int>)
    requires reg.Valid()
    modifies reg
    ensures reg.Valid()
    ensures var c := Cells(old(reg.idToName), bits, 0);
      && reg.idToName == PlaceNames(c, bitDefs)
      && match PlaceAll(c, bitDefs)
         case Ok(c1) => r == Ok(()) && bitIds == c1.bits
         case Err(e) => r == Err(e)
  {
    bitIds := bits;
    var bitPos: nat := 0;
    ghost var start := Cells(reg.idToName, bitIds, 0);
    for i := 0 to |bitDefs|
      invariant reg.Valid()
      invariant PlaceAll(start, bitDefs[..i]) == Ok(Cells(reg.idToName, bitIds, bitPos))
    {
      PlaceNext(start, bitDefs, i, Cells(reg.idToName, bitIds, bitPos));
      r, bitIds, bitPos := PlaceOne(reg, bitIds, bitPos, bitDefs[i]);
      if r.Err? {
        return;
      }
    }
    assert bitDefs[..|bitDefs|] == bitDefs;
    r := Ok(());
  }

  /** The loop of the constructor that drops reserved bits at the end. */
  method TrimEnd(bits: seq<int>) returns (bitIds: seq<int>)
    ensures bitIds == Trim(bits)
  {
    bitIds := bits;
    while bitIds != [] && bitIds[|bitIds| - 1] == 0
      invariant Trim(bitIds) == Trim(bits)
    {
      bitIds := bitIds[..|bitIds| - 1];
    }
  }

  /** The bit-field constructor. */
  method NewWithBits(reg: PReg, name: string, dtype: DataType, bitDefs: seq<string>) returns (r: Result<PAttr>)
    requires reg.Valid()
    modifies reg
    ensures reg.Valid() && reg.idToName == WithBitsNames(old(reg.idToName), name, dtype, bitDefs)
    ensures match WithBits(old(reg.idToName), name, dtype, bitDefs)
      case Ok(spec) => r == Ok(spec.1) && reg.idToName == spec.0
      case Err(e) => r == Err(e)
  {
    if !IsInteger(dtype) {
      return Err(NotInteger);
    }
    var stored := Stored(name);
    var id := reg.GetID(stored);
    var placed, bitIds := PlaceDefs(reg, Zeros(8 * TypeSize(dtype)), bitDefs);
    if placed.Err? {
      return Err(placed.error);
    }
    bitIds := TrimEnd(bitIds);
    return Ok(PAttr(id, stored, dtype, 1, 0, bitIds));
  }

  // ---------------------------------------------------------------------------
  // What the constructors guarantee
  // ---------------------------------------------------------------------------

  /** A bit name: not empty and not a number. */
  predicate BitName(s: string) { s != "" && !IsUnsignedInteger(s) }

  /** The table holds only reserved bits and registered bit names. */
  ghost predicate GoodBits(names: Names, bits: seq<int>) {
    forall k | 0 <= k < |bits| :: bits[k] == 0 || (0 < bits[k] <= |names| && BitName(names[bits[k] - 1]))
  }

  /** A field as its constructors build it. */
  ghost predicate WellMade(names: Names, a: PAttr) {
    && |a.name| <= NAME_CHARS && '\0' !in a.name
    && 0 < a.id <= |names| && names[a.id - 1] == a.name
    && GoodBits(names, a.bitIds)
    && (a.HasBits() ==>
         && IsInteger(a.dtype) && a.count == 1
         && |a.bitIds| <= 8 * a.Size()
         && a.bitIds[|a.bitIds| - 1] != 0)
  }

  lemma GoodBitsLater(names: Names, later: Names, bits: seq<int>)
    requires names <= later && GoodBits(names, bits)
    ensures GoodBits(later, bits)
  {
    assert forall k | 0 <= k < |names| :: names[k] == later[k];
  }

  lemma PlaceGood(c: Cells, def: string)
    requires GoodBits(c.names, c.bits) && Place(c, def).Ok?
    ensures GoodBits(Place(c, def).value.names, Place(c, def).value.bits)
  {
    GoodBitsLater(c.names, Place(c, def).value.names, c.bits);
  }

  lemma {:induction false} PlaceAllGood(c: Cells, defs: seq<string>)
    requires GoodBits(c.names, c.bits) && PlaceAll(c, defs).Ok?
    ensures GoodBits(PlaceAll(c, defs).value.names, PlaceAll(c, defs).value.bits)
  {
    if defs != [] {
      PlaceAllGood(c, defs[..|defs| - 1]);
      PlaceGood(PlaceAll(c, defs[..|defs| - 1]).value, defs[|defs| - 1]);
    }
  }

  /** Named bits always lie inside the integer they belong to. */
  lemma WithBitsWellMade(names: Names, name: string, dtype: DataType, defs: seq<string>)
    requires WithBits(names, name, dtype, defs).Ok?
    ensures var (names', a) := WithBits(names, name, dtype, defs).value;
      names <= names' && WellMade(names', a)
  {
    var c := Cells(Registered(names, Stored(name)), Zeros(8 * TypeSize(dtype)), 0);
    BuiltGood(c, defs, Stored(name), dtype);
  }

  lemma BuiltGood(c: Cells, defs: seq<string>, name: string, dtype: DataType)
    requires GoodBits(c.names, c.bits) && PlaceAll(c, defs).Ok?
    requires IsInteger(dtype) && |c.bits| == 8 * TypeSize(dtype)
    requires |name| <= NAME_CHARS && '\0' !in name && IdOf(c.names, name) > 0
    ensures var c' := PlaceAll(c, defs).value;
      WellMade(c'.names, PAttr(IdOf(c.names, name), name, dtype, 1, 0, Trim(c'.bits)))
  {
    PlaceAllGood(c, defs);
    TrimGood(PlaceAll(c, defs).value.names, PlaceAll(c, defs).value.bits);
  }

  lemma TrimGood(names: Names, bits: seq<int>)
    requires GoodBits(names, bits)
    ensures GoodBits(names, Trim(bits)) && |Trim(bits)| <= |bits|
    ensures Trim(bits) != [] ==> Trim(bits)[|Trim(bits)| - 1] != 0
  {
  }

  /** A name is kept up to its first NUL, and no further than the array holds. */
  lemma {:induction false} UptoIs(s: string, n: nat)
    ensures var k := |Upto(s, n)|;
      && k <= |s| && Upto(s, n) == s[..k] && '\0' !in s[..k]
      && (k == |s| || k == n || s[k] == '\0')
  {
    if !(n == 0 || s == "" || s[0] == '\0') {
      UptoIs(s[1..], n - 1);
      var k := |Upto(s, n)|;
      assert s[..k] == [s[0]] + s[1..][..k - 1];
    }
  }

  // ---------------------------------------------------------------------------
  // Where the definitions put the bits
  // ---------------------------------------------------------------------------

  /** How many bits a definition takes: a number skips that many. */
  function Width(def: string): nat {
    if IsUnsignedInteger(def) then Value(def) else 1
  }

  /** Where the definition after these goes. */
  function Extent(defs: seq<string>): nat {
    if defs == [] then 0 else Extent(defs[..|defs| - 1]) + Width(defs[|defs| - 1])
  }

  /** Every definition begins inside the field and ends inside it. */
  ghost predicate Fits(defs: seq<string>, total: nat) {
    forall i | 0 <= i < |defs| :: Extent(defs[..i]) < total && Extent(defs[..i]) + Width(defs[i]) <= total
  }

  /** No number is so large that adding it to a position goes round. */
  ghost predicate NoWrap(defs: seq<string>, total: nat) {
    forall i | 0 <= i < |defs| && IsUnsignedInteger(defs[i]) :: Value(defs[i]) + total < ULONG_LIMIT
  }

  /** Bit p is registered under def. */
  ghost predicate NamedAt(c: Cells, p: nat, def: string) {
    p < |c.bits| && 0 < c.bits[p] <= |c.names| && c.names[c.bits[p] - 1] == def
  }

  /** Each name is on the bit where its definition begins, and nothing else is. */
  ghost predicate InPlace(c: Cells, defs: seq<string>) {
    && c.pos == Extent(defs)
    && (forall i | 0 <= i < |defs| && BitName(defs[i]) :: NamedAt(c, Extent(defs[..i]), defs[i]))
    && (forall p | 0 <= p < |c.bits| && c.bits[p] != 0 ::
          exists i | 0 <= i < |defs| :: BitName(defs[i]) && Extent(defs[..i]) == p)
  }

  lemma PlaceFits(c: Cells, def: string)
    requires c.pos <= |c.bits| && (IsUnsignedInteger(def) ==> Value(def) + |c.bits| < ULONG_LIMIT)
    ensures Place(c, def).Ok? <==> c.pos < |c.bits| && c.pos + Width(def) <= |c.bits|
    ensures Place(c, def).Ok? ==> Place(c, def).value.pos == c.pos + Width(def) <= |c.bits|
  {
    if IsUnsignedInteger(def) {
      StoulDigits(def);
      NoRound(c.pos + Value(def));
      SkipFits(c, def, Value(def));
    }
  }

  lemma NoRound(n: nat)
    requires n < ULONG_LIMIT
    ensures n % ULONG_LIMIT == n
  {
  }

  lemma SkipFits(c: Cells, def: string, n: nat)
    requires c.pos <= |c.bits| && IsUnsignedInteger(def) && Stoul(def) == Some(n)
    requires (c.pos + n) % ULONG_LIMIT == c.pos + n
    ensures Place(c, def).Ok? <==> c.pos < |c.bits| && c.pos + n <= |c.bits|
    ensures Place(c, def).Ok? ==> Place(c, def).value.pos == c.pos + n
  {
  }

  lemma ExtentFront(defs: seq<string>, i: nat)
    requires i < |defs|
    ensures defs[..|defs| - 1][..i] == defs[..i]
    ensures i < |defs| - 1 ==> defs[..|defs| - 1][i] == defs[i]
  {
  }

  lemma PlaceKeeps(c: Cells, def: string, p: nat)
    requires Place(c, def).Ok? && p < |c.bits|
    ensures var c' := Place(c, def).value;
      && (p != c.pos || !BitName(def) ==> c'.bits[p] == c.bits[p])
      && (p == c.pos && BitName(def) ==> NamedAt(c', p, def))
  {
  }

  lemma InPlaceNext(c: Cells, defs: seq<string>, def: string)
    requires InPlace(c, defs) && Place(c, def).Ok? && Place(c, def).value.pos == c.pos + Width(def)
    requires forall p | 0 <= p < |c.bits| :: c.bits[p] != 0 ==> p < c.pos
    ensures InPlace(Place(c, def).value, defs + [def])
  {
    var c', all := Place(c, def).value, defs + [def];
    assert all[..|defs|] == defs;
    forall i | 0 <= i < |all| ensures all[..i] == defs[..i] { }
    forall i | 0 <= i < |all| && BitName(all[i]) ensures NamedAt(c', Extent(all[..i]), all[i]) {
      if i < |defs| {
        assert NamedAt(c, Extent(defs[..i]), defs[i]);
        PlaceKeeps(c, def, Extent(defs[..i]));
      } else {
        PlaceKeeps(c, def, c.pos);
      }
    }
    forall p | 0 <= p < |c'.bits| && c'.bits[p] != 0
      ensures exists i | 0 <= i < |all| :: BitName(all[i]) && Extent(all[..i]) == p
    {
      PlaceKeeps(c, def, p);
      if p == c.pos && BitName(def) {
        assert BitName(all[|defs|]) && Extent(all[..|defs|]) == p;
      } else {
        var i :| 0 <= i < |defs| && BitName(defs[i]) && Extent(defs[..i]) == p;
        assert BitName(all[i]) && Extent(all[..i]) == p;
      }
    }
  }

  lemma FitsNext(defs: seq<string>, total: nat)
    requires defs != []
    ensures var n := |defs| - 1;
      Fits(defs, total) <==>
        Fits(defs[..n], total) && Extent(defs[..n]) < total && Extent(defs[..n]) + Width(defs[n]) <= total
  {
    var n := |defs| - 1;
    forall i | 0 <= i < n ensures defs[..n][..i] == defs[..i] && defs[..n][i] == defs[i] {
      ExtentFront(defs, i);
    }
  }

  /** The definitions are accepted exactly when they fit the field, and then each
      name is on the bit that the definitions before it leave for it. */
  lemma {:induction false} PlaceAllIff(names: Names, total: nat, defs: seq<string>)
    requires NoWrap(defs, total)
    ensures var r := PlaceAll(Cells(names, Zeros(total), 0), defs);
      && (r.Ok? <==> Fits(defs, total))
      && (r.Ok? ==>
            && InPlace(r.value, defs) && r.value.pos <= total
            && forall p | 0 <= p < total :: r.value.bits[p] != 0 ==> p < r.value.pos)
  {
    if defs != [] {
      var n := |defs| - 1;
      var init, last := defs[..n], defs[n];
      PlaceAllIff(names, total, init);
      FitsNext(defs, total);
      assert defs == init + [last];
      var before := PlaceAll(Cells(names, Zeros(total), 0), init);
      if before.Ok? {
        PlaceFits(before.value, last);
        if Place(before.value, last).Ok? {
          InPlaceNext(before.value, init, last);
          PlacedBelow(before.value, last);
        }
      }
    }
  }

  lemma PlacedBelow(c: Cells, def: string)
    requires Place(c, def).Ok? && Place(c, def).value.pos == c.pos + Width(def)
    requires forall p | 0 <= p < |c.bits| :: c.bits[p] != 0 ==> p < c.pos
    ensures var c' := Place(c, def).value; forall p | 0 <= p < |c.bits| :: c'.bits[p] != 0 ==> p < c'.pos
  {
    forall p | 0 <= p < |c.bits| && Place(c, def).value.bits[p] != 0 ensures p < c.pos + Width(def) {
      PlaceKeeps(c, def, p);
    }
  }

  lemma PlaceSnoc(c: Cells, defs: seq<string>, def: string, now: Cells)
    requires PlaceAll(c, defs) == Ok(now)
    ensures PlaceAll(c, defs + [def]) == Place(now, def)
  {
    assert (defs + [def])[..|defs|] == defs;
  }

  lemma PlaceNew(c: Cells, def: string)
    requires c.pos < |c.bits| && BitName(def) && def !in c.names
    ensures Place(c, def) == Ok(Cells(c.names + [def], c.bits[c.pos := |c.names| + 1], c.pos + 1))
  {
    assert IdOf(c.names, def) == 0;
  }

  lemma PlaceBack(c: Cells, back: string)
    requires c.pos == 1 < |c.bits| && IsUnsignedInteger(back) && Stoul(back) == Some(ULONG_LIMIT - 1)
    ensures Place(c, back) == Ok(c.(pos := 0))
  {
    assert (1 + (ULONG_LIMIT - 1)) % ULONG_LIMIT == 0;
  }

  lemma PlaceThree(c0: Cells, a: string, c1: Cells, b: string, c2: Cells, c: string, c3: Cells)
    requires Place(c0, a) == Ok(c1) && Place(c1, b) == Ok(c2) && Place(c2, c) == Ok(c3)
    ensures PlaceAll(c0, [a] + [b] + [c]) == Ok(c3)
  {
    PlaceSnoc(c0, [], a, c0);
    assert [] + [a] == [a];
    PlaceSnoc(c0, [a], b, c1);
    PlaceSnoc(c0, [a] + [b], c, c2);
  }

  /** A larger number goes round: the name after it lands on the bit of the one
      before, which is lost. */
  lemma SkipGoesRound(c: Cells, x: string, back: string, y: string)
    requires c.pos == 0 && 1 < |c.bits| && BitName(x) && BitName(y) && x != y && x !in c.names && y !in c.names
    requires IsUnsignedInteger(back) && Value(back) == ULONG_LIMIT - 1
    ensures var r := PlaceAll(c, [x] + [back] + [y]);
      r.Ok? && r.value.pos == 1 && NamedAt(r.value, 0, y)
  {
    var c1 := Cells(c.names + [x], c.bits[0 := |c.names| + 1], 1);
    var c2 := c1.(pos := 0);
    var c3 := Cells(c1.names + [y], c1.bits[0 := |c.names| + 2], 1);
    StoulDigits(back);
    PlaceNew(c, x);
    PlaceBack(c1, back);
    PlaceNew(c2, y);
    PlaceThree(c, x, c1, back, c2, y, c3);
  }
}
