/** Record: named bits in the bytes of a record. */
module Records {
  import opened Types
  import opened Attributes
  import opened Rules
  import opened Chunks
  import opened Wire
  import opened ByteValues

  function Mask(k: nat): Byte
    requires k < 8
  {
    (1 as bv8) << k
  }

  predicate BitOf(byte: Byte, k: nat)
    requires k < 8
  {
    (byte >> k) & 1 == 1
  }

  function WithBit(byte: Byte, k: nat, v: bool): Byte
    requires k < 8
  {
    if v then byte | Mask(k) else byte & !Mask(k)
  }

  lemma WithBitSets(byte: Byte, k: nat, v: bool)
    requires k < 8
    ensures BitOf(WithBit(byte, k, v), k) == v
  {
  }

  lemma WithBitKeeps(byte: Byte, k: nat, v: bool, j: nat)
    requires k < 8 && j < 8 && j != k
    ensures BitOf(WithBit(byte, k, v), j) == BitOf(byte, j)
  {
    if v { OrKeeps(byte, k, j); } else { AndKeeps(byte, k, j); }
  }

  lemma OrKeeps(byte: Byte, k: nat, j: nat)
    requires k < 8 && j < 8 && j != k
    ensures BitOf(byte | Mask(k), j) == BitOf(byte, j)
  {
  }

  lemma AndKeeps(byte: Byte, k: nat, j: nat)
    requires k < 8 && j < 8 && j != k
    ensures BitOf(byte & !Mask(k), j) == BitOf(byte, j)
  {
  }

  /** The byte and bit a bit reference points to. */
  function ByteOf(rule: Rule, ref: BitRef): int { rule.OffsetById(ref.fieldId) + ref.bitPos / 8 }

  /** A named bit can be reached inside a record of n bytes. */
  predicate Reachable(rule: Rule, id: int, n: nat) {
    var ref := rule.BitById(id);
    ref.fieldId != 0 ==> 0 <= ByteOf(rule, ref) < n
  }

  function ReadBit(data: seq<Byte>, rule: Rule, id: int): bool
    requires Reachable(rule, id, |data|)
  {
    var ref := rule.BitById(id);
    ref.fieldId != 0 && BitOf(data[ByteOf(rule, ref)], ref.bitPos % 8)
  }

  function WriteBit(data: seq<Byte>, rule: Rule, id: int, v: bool): (r: seq<Byte>)
    requires Reachable(rule, id, |data|)
    ensures |r| == |data|
  {
    var ref := rule.BitById(id);
    if ref.fieldId == 0 then data
    else
      var at := ByteOf(rule, ref);
      data[at := WithBit(data[at], ref.bitPos % 8, v)]
  }

  class Record {
    const rule: Rule
    const data: array?<Byte>

    constructor (rule: Rule, data: array?<Byte>)
      ensures this.rule == rule && this.data == data
    {
      this.rule, this.data := rule, data;
    }

    method GetBit(id: int) returns (v: bool)
      requires data != null ==> Reachable(rule, id, data.Length)
      ensures v == (data != null && ReadBit(data[..], rule, id))
    {
      if data == null {
        return false;
      }
      var ref := rule.BitById(id);
      if ref.fieldId == 0 {
        return false;
      }
      var fieldOffset := rule.OffsetById(ref.fieldId);
      var byte := data[fieldOffset + ref.bitPos / 8];
      return (byte >> (ref.bitPos % 8)) & 1 == 1;
    }

    method SetBit(id: int, v: bool)
      requires data != null ==> Reachable(rule, id, data.Length)
      modifies data
      ensures data != null ==> data[..] == WriteBit(old(data[..]), rule, id, v)
    {
      if data == null {
        return;
      }
      var ref := rule.BitById(id);
      if ref.fieldId == 0 {
        return;
      }
      var fieldOffset := rule.OffsetById(ref.fieldId);
      var at := fieldOffset + ref.bitPos / 8;
      var mask := Mask(ref.bitPos % 8);
      var byte := if v then data[at] | mask else data[at] & !mask;
      assert byte == WithBit(data[at], ref.bitPos % 8, v);
      data[at] := byte;
    }
  }

  // ---------------------------------------------------------------------------
  // Where a named bit lands
  // ---------------------------------------------------------------------------

  /** A rule that init accepted, of fields with ids from the registry. */
  ghost predicate Accepted(rule: Rule, header: PAttr, input: seq<PAttr>, align: bool) {
    && Build(header, input, align) == Ok(rule)
    && forall k | 0 <= k < |rule.attrs| :: rule.attrs[k].id > 0
  }

  /** Every bit table fits its integer, as the field constructors guarantee. */
  ghost predicate Fitting(attrs: seq<PAttr>) {
    forall k | 0 <= k < |attrs| :: |attrs[k].bitIds| <= 8 * attrs[k].Size()
  }

  /** The place of bit b of field k, counted in bits from the start of the
      record: the lookup by id finds the last field with the id of field k. */
  ghost function Spot(attrs: seq<PAttr>, k: nat, b: nat): nat
    requires k < |attrs|
  {
    8 * attrs[Home(attrs, k)].offset + b
  }

  /** Earlier fields end before later ones begin. */
  ghost predicate Apart(attrs: seq<PAttr>) {
    forall i, j | 0 <= i < j < |attrs| :: attrs[i].offset + attrs[i].Size() <= attrs[j].offset
  }

  /** What the tables of an accepted rule say. */
  ghost predicate Tables(rule: Rule) {
    && (forall k: nat, b: nat, bid: int | Carries(rule.attrs, k, b, bid) ::
          && rule.attrs[k].id > 0
          && rule.BitById(bid) == BitRef(rule.attrs[k].id, b)
          && rule.OffsetById(rule.attrs[k].id) == rule.attrs[Home(rule.attrs, k)].offset)
    && Apart(rule.attrs)
    && (forall i | 0 <= i < |rule.attrs| :: rule.attrs[i].offset + rule.attrs[i].Size() <= rule.recSize)
  }

  lemma AcceptedTables(rule: Rule, header: PAttr, input: seq<PAttr>, align: bool)
    requires Accepted(rule, header, input, align)
    ensures Tables(rule)
  {
    BitTableComplete(rule.attrs);
    LayoutTiles(header, input, align);
    forall k: nat, b: nat, bid: int | Carries(rule.attrs, k, b, bid)
      ensures rule.OffsetById(rule.attrs[k].id) == rule.attrs[Home(rule.attrs, k)].offset
    {
      LookupsAgree(rule, header, input, align, rule.attrs[k].id);
    }
    var n := |rule.attrs| - 1;
    assert forall i | 0 <= i < n :: rule.attrs[i].offset + rule.attrs[i].Size() <= rule.attrs[n].offset;
  }

  lemma BitAt(rule: Rule, k: nat, b: nat, bid: int)
    requires Tables(rule) && Carries(rule.attrs, k, b, bid)
    ensures rule.BitById(bid) == BitRef(rule.attrs[k].id, b) && rule.attrs[k].id != 0
    ensures ByteOf(rule, rule.BitById(bid)) == rule.attrs[Home(rule.attrs, k)].offset + b / 8
    ensures Spot(rule.attrs, k, b) == 8 * ByteOf(rule, rule.BitById(bid)) + b % 8
    ensures forall n: nat :: Reachable(rule, bid, n) <==> Spot(rule.attrs, k, b) < 8 * n
  {
  }

  lemma NoSuchBit(rule: Rule, header: PAttr, input: seq<PAttr>, align: bool, bid: int)
    requires Accepted(rule, header, input, align)
    requires forall k: nat, b: nat :: !Carries(rule.attrs, k, b, bid)
    ensures rule.BitById(bid).fieldId == 0
  {
    BitTableComplete(rule.attrs);
  }

  /** Every id can be asked for inside a record of n bytes exactly when every
      named bit, counted from the last field with its field's id, is there. */
  lemma ReachableIff(rule: Rule, header: PAttr, input: seq<PAttr>, align: bool, n: nat)
    requires Accepted(rule, header, input, align)
    ensures (forall id :: Reachable(rule, id, n)) <==>
      (forall k: nat, b: nat, bid: int | Carries(rule.attrs, k, b, bid) :: Spot(rule.attrs, k, b) < 8 * n)
  {
    AcceptedTables(rule, header, input, align);
    forall k: nat, b: nat, bid: int | Carries(rule.attrs, k, b, bid)
      ensures Reachable(rule, bid, n) <==> Spot(rule.attrs, k, b) < 8 * n
    {
      BitAt(rule, k, b, bid);
    }
    forall id | forall k: nat, b: nat :: !Carries(rule.attrs, k, b, id)
      ensures Reachable(rule, id, n)
    {
      NoSuchBit(rule, header, input, align, id);
    }
  }

  /** Some write of the first bit to some record of n bytes changes what the
      second reads. */
  ghost predicate Interfere(rule: Rule, n: nat, bid: int, other: int)
    requires Reachable(rule, bid, n) && Reachable(rule, other, n)
  {
    exists data: seq<Byte>, v: bool ::
      |data| == n && ReadBit(WriteBit(data, rule, bid, v), rule, other) != ReadBit(data, rule, other)
  }

  /** Two named bits interfere exactly when they have one place. */
  lemma InterfereIff(
      rule: Rule, header: PAttr, input: seq<PAttr>, align: bool, n: nat,
      k: nat, b: nat, bid: int, k': nat, b': nat, other: int)
    requires Accepted(rule, header, input, align)
    requires Carries(rule.attrs, k, b, bid) && Carries(rule.attrs, k', b', other)
    requires Reachable(rule, bid, n) && Reachable(rule, other, n)
    ensures Interfere(rule, n, bid, other) <==> Spot(rule.attrs, k, b) == Spot(rule.attrs, k', b')
  {
    AcceptedTables(rule, header, input, align);
    BitAt(rule, k, b, bid);
    BitAt(rule, k', b', other);
    SameBit(rule, n, bid, other);
  }

  lemma SameBit(rule: Rule, n: nat, bid: int, other: int)
    requires Reachable(rule, bid, n) && Reachable(rule, other, n)
    requires rule.BitById(bid).fieldId != 0 && rule.BitById(other).fieldId != 0
    ensures Interfere(rule, n, bid, other) <==>
      var x, y := rule.BitById(bid), rule.BitById(other);
      ByteOf(rule, x) == ByteOf(rule, y) && x.bitPos % 8 == y.bitPos % 8
  {
    var x, y := rule.BitById(bid), rule.BitById(other);
    var at, b, b' := ByteOf(rule, x), x.bitPos % 8, y.bitPos % 8;
    if at == ByteOf(rule, y) && b == b' {
      var data := seq(n, _ => 0 as Byte);
      var v := !ReadBit(data, rule, other);
      WithBitSets(data[at], b, v);
      assert ReadBit(WriteBit(data, rule, bid, v), rule, other) == v;
    } else if at == ByteOf(rule, y) {
      forall data: seq<Byte>, v: bool | |data| == n
        ensures ReadBit(WriteBit(data, rule, bid, v), rule, other) == ReadBit(data, rule, other)
      {
        WithBitKeeps(data[at], b, v, b');
      }
    }
  }

  /** Bit b lies inside the last field with the id of field k. */
  ghost predicate InHome(attrs: seq<PAttr>, k: nat, b: nat) {
    k < |attrs| && b < 8 * attrs[Home(attrs, k)].Size()
  }

  /** When neither runs past the last field with its field's id, that is when
      they have the same field id and the same position in the field. */
  lemma SpotsMeetIff(
      rule: Rule, header: PAttr, input: seq<PAttr>, align: bool, k: nat, b: nat, k': nat, b': nat)
    requires Accepted(rule, header, input, align) && InHome(rule.attrs, k, b) && InHome(rule.attrs, k', b')
    ensures Spot(rule.attrs, k, b) == Spot(rule.attrs, k', b') <==> rule.attrs[k].id == rule.attrs[k'].id && b == b'
  {
    AcceptedTables(rule, header, input, align);
    SpotsApart(rule.attrs, k, b, k', b');
  }

  lemma SpotsApart(attrs: seq<PAttr>, k: nat, b: nat, k': nat, b': nat)
    requires Apart(attrs)
    requires InHome(attrs, k, b) && InHome(attrs, k', b')
    ensures Spot(attrs, k, b) == Spot(attrs, k', b') <==> attrs[k].id == attrs[k'].id && b == b'
  {
    var h, h' := Home(attrs, k), Home(attrs, k');
    if h < h' {
      assert attrs[h].offset + attrs[h].Size() <= attrs[h'].offset;
    } else if h' < h {
      assert attrs[h'].offset + attrs[h'].Size() <= attrs[h].offset;
    }
  }

  /** Byte i belongs to field a. */
  predicate Within(a: PAttr, i: int) { a.offset <= i < a.offset + a.Size() }

  /** No write of the bit to a record of n bytes changes a byte outside a. */
  ghost predicate KeepsTo(rule: Rule, n: nat, bid: int, a: PAttr)
    requires Reachable(rule, bid, n)
  {
    forall data: seq<Byte>, v: bool, i | |data| == n && 0 <= i < n && !Within(a, i) ::
      WriteBit(data, rule, bid, v)[i] == data[i]
  }

  /** A set bit stays in its own field exactly when that is the last field with
      its id. */
  lemma KeepsToIff(
      rule: Rule, header: PAttr, input: seq<PAttr>, align: bool, n: nat, k: nat, b: nat, bid: int)
    requires Accepted(rule, header, input, align) && Fitting(rule.attrs)
    requires Carries(rule.attrs, k, b, bid) && Reachable(rule, bid, n)
    ensures KeepsTo(rule, n, bid, rule.attrs[k]) <==> LastOfId(rule.attrs, k)
  {
    AcceptedTables(rule, header, input, align);
    BitAt(rule, k, b, bid);
    ByteKeeps(rule, n, bid, rule.attrs[k]);
    HomeByte(rule.attrs, k, b / 8);
  }

  lemma HomeByte(attrs: seq<PAttr>, k: nat, o: nat)
    requires Apart(attrs)
    requires k < |attrs| && o < attrs[k].Size()
    ensures Within(attrs[k], attrs[Home(attrs, k)].offset + o) <==> LastOfId(attrs, k)
  {
  }

  lemma ByteKeeps(rule: Rule, n: nat, bid: int, a: PAttr)
    requires Reachable(rule, bid, n) && rule.BitById(bid).fieldId != 0
    ensures KeepsTo(rule, n, bid, a) <==> Within(a, ByteOf(rule, rule.BitById(bid)))
  {
    var ref := rule.BitById(bid);
    var at := ByteOf(rule, ref);
    if !Within(a, at) {
      var data := seq(n, _ => 0 as Byte);
      WithBitSets(data[at], ref.bitPos % 8, true);
      ZeroHasNoBit(ref.bitPos % 8);
      assert WriteBit(data, rule, bid, true)[at] != data[at];
    }
  }

  lemma ZeroHasNoBit(k: nat)
    requires k < 8
    ensures !BitOf(0, k)
  {
  }

  // ---------------------------------------------------------------------------
  // Rules whose bits keep to their fields
  // ---------------------------------------------------------------------------

  /** Every field that names a bit is the last one with its id. */
  ghost predicate Homed(attrs: seq<PAttr>) {
    forall k: nat, b: nat, bid: int | Carries(attrs, k, b, bid) :: LastOfId(attrs, k)
  }

  ghost predicate Sound(rule: Rule, header: PAttr, input: seq<PAttr>, align: bool) {
    Accepted(rule, header, input, align) && Fitting(rule.attrs) && Homed(rule.attrs)
  }

  /** Distinct ids make it so. */
  lemma DistinctIsSound(rule: Rule, header: PAttr, input: seq<PAttr>, align: bool)
    requires Accepted(rule, header, input, align) && Fitting(rule.attrs) && DistinctIds(rule.attrs)
    ensures Sound(rule, header, input, align)
  {
    LookupsAgree(rule, header, input, align, 0);
  }

  /** Where the table sends a named bit: into its own field, below its end. */
  lemma NamedBitAt(rule: Rule, header: PAttr, input: seq<PAttr>, align: bool, k: nat, b: nat, bid: int)
    requires Sound(rule, header, input, align) && Carries(rule.attrs, k, b, bid)
    ensures rule.BitById(bid) == BitRef(rule.attrs[k].id, b)
    ensures ByteOf(rule, rule.BitById(bid)) == rule.attrs[k].offset + b / 8
    ensures b / 8 < rule.attrs[k].Size()
    ensures rule.attrs[k].offset + b / 8 < rule.recSize
  {
    AcceptedTables(rule, header, input, align);
    BitAt(rule, k, b, bid);
  }

  /** Every id can be asked for safely in a record of the rule's size. */
  lemma AlwaysReachable(rule: Rule, header: PAttr, input: seq<PAttr>, align: bool, id: int)
    requires Sound(rule, header, input, align)
    ensures Reachable(rule, id, rule.recSize)
  {
    if k: nat, b: nat :| Carries(rule.attrs, k, b, id) {
      NamedBitAt(rule, header, input, align, k, b, id);
    } else {
      NoSuchBit(rule, header, input, align, id);
    }
  }

  /** Setting a named bit makes it read back as set, changes no other named bit
      and no byte outside its field; setting an unknown id changes nothing. */
  lemma SetBitInterferesWithNothing(
      rule: Rule, header: PAttr, input: seq<PAttr>, align: bool, data: seq<Byte>, bid: int, v: bool)
    requires Sound(rule, header, input, align) && |data| == rule.recSize
    ensures forall id :: Reachable(rule, id, |data|)
    ensures var r := WriteBit(data, rule, bid, v);
      && (forall k: nat, b: nat | Carries(rule.attrs, k, b, bid) ::
            && ReadBit(r, rule, bid) == v
            && forall i | 0 <= i < |data| && !Within(rule.attrs[k], i) :: r[i] == data[i])
      && (forall other | other != bid :: ReadBit(r, rule, other) == ReadBit(data, rule, other))
      && ((forall k: nat, b: nat :: !Carries(rule.attrs, k, b, bid)) ==> r == data && !ReadBit(data, rule, bid))
  {
    forall id ensures Reachable(rule, id, |data|) { AlwaysReachable(rule, header, input, align, id); }
    forall k: nat, b: nat | Carries(rule.attrs, k, b, bid)
      ensures rule.BitById(bid) == BitRef(rule.attrs[k].id, b)
      ensures Within(rule.attrs[k], ByteOf(rule, rule.BitById(bid)))
    {
      NamedBitAt(rule, header, input, align, k, b, bid);
    }
    var ref := rule.BitById(bid);
    assert Reachable(rule, bid, |data|);
    if ref.fieldId != 0 { WithBitSets(data[ByteOf(rule, ref)], ref.bitPos % 8, v); }
    forall other | other != bid
      ensures ReadBit(WriteBit(data, rule, bid, v), rule, other) == ReadBit(data, rule, other)
    {
      OtherBitsKeep(rule, header, input, align, data, bid, v, other);
    }
    if forall k: nat, b: nat :: !Carries(rule.attrs, k, b, bid) {
      NoSuchBit(rule, header, input, align, bid);
    }
  }

  lemma OtherBitsKeep(
      rule: Rule, header: PAttr, input: seq<PAttr>, align: bool, data: seq<Byte>, bid: int, v: bool, other: int)
    requires Sound(rule, header, input, align) && |data| == rule.recSize && other != bid
    requires Reachable(rule, bid, |data|) && Reachable(rule, other, |data|)
    ensures ReadBit(WriteBit(data, rule, bid, v), rule, other) == ReadBit(data, rule, other)
  {
    if k: nat, b: nat :| Carries(rule.attrs, k, b, bid) {
      if k': nat, b': nat :| Carries(rule.attrs, k', b', other) {
        NamedBitAt(rule, header, input, align, k, b, bid);
        NamedBitAt(rule, header, input, align, k', b', other);
        SpotsMeetIff(rule, header, input, align, k, b, k', b');
        if k' != k { assert rule.attrs[k].id != rule.attrs[k'].id; }
        InterfereIff(rule, header, input, align, |data|, k, b, bid, k', b', other);
      } else {
        NoSuchBit(rule, header, input, align, other);
      }
    } else {
      NoSuchBit(rule, header, input, align, bid);
    }
  }

  /** Every named bit is inside the record and keeps to the field that names it. */
  ghost predicate AllKeep(rule: Rule) {
    && (forall id :: Reachable(rule, id, rule.recSize))
    && forall k: nat, b: nat, bid: int | Carries(rule.attrs, k, b, bid) ::
         KeepsTo(rule, rule.recSize, bid, rule.attrs[k])
  }

  /** That is exactly when every field that names a bit is the last with its id. */
  lemma AllKeepIff(rule: Rule, header: PAttr, input: seq<PAttr>, align: bool)
    requires Accepted(rule, header, input, align) && Fitting(rule.attrs)
    ensures AllKeep(rule) <==> Homed(rule.attrs)
  {
    if Homed(rule.attrs) {
      forall id ensures Reachable(rule, id, rule.recSize) { AlwaysReachable(rule, header, input, align, id); }
    }
    forall k: nat, b: nat, bid: int | Carries(rule.attrs, k, b, bid) && Reachable(rule, bid, rule.recSize)
      ensures KeepsTo(rule, rule.recSize, bid, rule.attrs[k]) <==> LastOfId(rule.attrs, k)
    {
      KeepsToIff(rule, header, input, align, rule.recSize, k, b, bid);
    }
  }

  // ---------------------------------------------------------------------------
  // A named bit is a bit of its field's number
  // ---------------------------------------------------------------------------

  /** Bit b of a number, bit 0 the lowest. */
  ghost predicate NumberBit(n: nat, b: nat) {
    if b == 0 then n % 2 == 1 else NumberBit(n / 2, b - 1)
  }

  lemma LowestBit(x: Byte)
    ensures x & 1 == 1 <==> ValueOf(x) % 2 == 1
  {
  }

  lemma HalfByte(x: Byte)
    ensures ValueOf(x >> 1) == ValueOf(x) / 2
  {
  }

  lemma ShiftOnce(x: Byte, k: nat)
    requires 0 < k < 8
    ensures x >> k == (x >> 1) >> (k - 1)
  {
  }

  lemma {:induction false} ByteBit(x: Byte, k: nat)
    requires k < 8
    ensures BitOf(x, k) <==> NumberBit(ValueOf(x), k)
  {
    LowestBit(x >> k);
    if k == 0 {
      assert x >> 0 == x;
    } else {
      ShiftOnce(x, k);
      HalfByte(x);
      ByteBit(x >> 1, k - 1);
      LowestBit((x >> 1) >> (k - 1));
    }
  }

  /** k bits of v below the bits of r: the low ones are v's, the others r's. */
  lemma {:induction false} BitsAbove(v: nat, k: nat, r: nat, b: nat)
    requires k <= 8 && v < Power(k)
    ensures NumberBit(v + Bytes(Power(k), r), b) <==> if b < k then NumberBit(v, b) else NumberBit(r, b - k)
  {
    BytesIsMul(Power(k), r);
    if k > 0 {
      BytesIsMul(Power(k - 1), r);
      Halves(v, Power(k - 1), r);
      if b > 0 { BitsAbove(v / 2, k - 1, r, b - 1); }
    }
  }

  function Power(k: nat): nat { if k == 0 then 1 else 2 * Power(k - 1) }

  lemma Halves(v: nat, p: nat, r: nat)
    ensures (v + 2 * p * r) / 2 == v / 2 + p * r && (v + 2 * p * r) % 2 == v % 2
  {
    assert 2 * p * r == 2 * (p * r);
  }

  lemma FirstByteBits(data: seq<Byte>, b: nat)
    requires data != []
    ensures NumberBit(Decode(data), b) <==>
      if b < 8 then NumberBit(ValueOf(data[0]), b) else NumberBit(Decode(data[1..]), b - 8)
  {
    DecodeFirst(data);
    assert Power(8) == 256;
    BytesIsMul(256, Decode(data[1..]));
    BitsAbove(ValueOf(data[0]), 8, Decode(data[1..]), b);
  }

  /** Bit b of the number in some bytes is bit b % 8 of byte b / 8. */
  lemma {:induction false} BytesBit(data: seq<Byte>, b: nat)
    requires b < 8 * |data|
    ensures NumberBit(Decode(data), b) <==> BitOf(data[b / 8], b % 8)
  {
    FirstByteBits(data, b);
    if b < 8 {
      ByteBit(data[0], b);
    } else {
      BytesBit(data[1..], b - 8);
      assert data[1..][(b - 8) / 8] == data[b / 8] && (b - 8) % 8 == b % 8;
    }
  }

  /** The bytes of field k. */
  function FieldBytes(data: seq<Byte>, a: PAttr): seq<Byte>
    requires a.offset + a.Size() <= |data|
  {
    data[a.offset..a.offset + a.Size()]
  }

  lemma FieldInside(rule: Rule, header: PAttr, input: seq<PAttr>, align: bool, k: nat)
    requires Accepted(rule, header, input, align) && k < |rule.attrs|
    ensures rule.attrs[k].offset + rule.attrs[k].Size() <= rule.recSize
  {
    AcceptedTables(rule, header, input, align);
  }

  /** Reading a named bit reads that bit of the number its field holds, the least
      significant byte first. */
  lemma NamedBitIs(rule: Rule, header: PAttr, input: seq<PAttr>, align: bool, data: seq<Byte>, k: nat, b: nat, bid: int)
    requires Sound(rule, header, input, align) && |data| == rule.recSize && Carries(rule.attrs, k, b, bid)
    ensures rule.attrs[k].offset + rule.attrs[k].Size() <= |data| && Reachable(rule, bid, |data|)
    ensures ReadBit(data, rule, bid) <==> NumberBit(Decode(FieldBytes(data, rule.attrs[k])), b)
  {
    FieldInside(rule, header, input, align, k);
    NamedBitAt(rule, header, input, align, k, b, bid);
    BytesBit(FieldBytes(data, rule.attrs[k]), b);
  }

  /** Setting one changes that bit of the number and no other, named or not. */
  lemma NumberAfter(
      rule: Rule, header: PAttr, input: seq<PAttr>, align: bool, data: seq<Byte>, k: nat, b: nat, bid: int,
      v: bool, other: nat)
    requires Sound(rule, header, input, align) && |data| == rule.recSize && Carries(rule.attrs, k, b, bid)
    requires other < 8 * rule.attrs[k].Size()
    ensures rule.attrs[k].offset + rule.attrs[k].Size() <= |data| && Reachable(rule, bid, |data|)
    ensures NumberBit(Decode(FieldBytes(WriteBit(data, rule, bid, v), rule.attrs[k])), other) <==>
      if other == b then v else NumberBit(Decode(FieldBytes(data, rule.attrs[k])), other)
  {
    FieldInside(rule, header, input, align, k);
    NamedBitAt(rule, header, input, align, k, b, bid);
    ByteAfter(data, rule.attrs[k], b, v, WriteBit(data, rule, bid, v), other);
  }

  lemma ByteAfter(data: seq<Byte>, a: PAttr, b: nat, v: bool, after: seq<Byte>, other: nat)
    requires a.offset + a.Size() <= |data| && b < 8 * a.Size() && other < 8 * a.Size()
    requires var at := a.offset + b / 8; after == data[at := WithBit(data[at], b % 8, v)]
    ensures NumberBit(Decode(FieldBytes(after, a)), other) <==>
      if other == b then v else NumberBit(Decode(FieldBytes(data, a)), other)
  {
    BytesBit(FieldBytes(data, a), other);
    BytesBit(FieldBytes(after, a), other);
    var byte := data[a.offset + b / 8];
    WithBitSets(byte, b % 8, v);
    if other / 8 == b / 8 && other != b { WithBitKeeps(byte, b % 8, v, other % 8); }
  }

  // ---------------------------------------------------------------------------
  // Rules whose bits do not
  // ---------------------------------------------------------------------------

  const STAMP := PAttr(1, TIMESTAMP, Double, 1, 0, [])

  /** The rule of a time stamp and three fields. */
  lemma ThreeFields(a: PAttr, b: PAttr, c: PAttr)
    requires a.id > 0 && b.id > 0 && c.id > 0
    requires NoDuplicates(Laid([STAMP, a, b, c]))
    ensures var r := Build(STAMP, [a, b, c], false);
      && r.Ok? && Accepted(r.value, STAMP, [a, b, c], false)
      && r.value.attrs == [STAMP, a.(offset := 8), b.(offset := 8 + a.Size()), c.(offset := 8 + a.Size() + b.Size())]
      && r.value.recSize == 8 + a.Size() + b.Size() + c.Size()
  {
    var order := [STAMP, a, b, c];
    assert Ordered(STAMP, [a, b, c], false) == order;
    BitTableComplete(Laid(order));
    FourLaid(a, b, c);
  }

  lemma FourLaid(a: PAttr, b: PAttr, c: PAttr)
    ensures var attrs := Laid([STAMP, a, b, c]);
      && attrs == [STAMP, a.(offset := 8), b.(offset := 8 + a.Size()), c.(offset := 8 + a.Size() + b.Size())]
      && SizeSum(attrs) == 8 + a.Size() + b.Size() + c.Size()
  {
    var order := [STAMP, a, b, c];
    Tiles(order);
    SameSize(a, Laid(order)[1]);
    SameSize(b, Laid(order)[2]);
    SameSize(c, Laid(order)[3]);
  }

  /** init accepts two fields with one id, and then a bit of one is a bit of
      the other. */
  lemma SharedFieldIdAliases()
    ensures var input := [
        PAttr(2, "A", UInt8, 1, 0, [3]), PAttr(2, "A", UInt8, 1, 0, [4]), PAttr(5, "B", UInt8, 1, 0, [])];
      var r := Build(STAMP, input, false);
      && r.Ok? && r.value.recSize == 11
      && Reachable(r.value, 3, 11) && Reachable(r.value, 4, 11) && Interfere(r.value, 11, 3, 4)
  {
    var a, b := PAttr(2, "A", UInt8, 1, 0, [3]), PAttr(2, "A", UInt8, 1, 0, [4]);
    var c := PAttr(5, "B", UInt8, 1, 0, []);
    ThreeFields(a, b, c);
    var rule := Build(STAMP, [a, b, c], false).value;
    AcceptedTables(rule, STAMP, [a, b, c], false);
    BitAt(rule, 1, 0, 3);
    BitAt(rule, 2, 0, 4);
    InterfereIff(rule, STAMP, [a, b, c], false, 11, 1, 0, 3, 2, 0, 4);
  }

  /** A bit past the end of a narrower last field with its field's id lands in
      the field after that one, whatever its id. */
  lemma WiderFieldReachesNeighbour()
    ensures var input := [
        PAttr(2, "A", UInt16, 1, 0, Zeros(8) + [3]), PAttr(2, "A", UInt8, 1, 0, []), PAttr(5, "B", UInt8, 1, 0, [4])];
      var r := Build(STAMP, input, false);
      && r.Ok? && r.value.recSize == 12
      && Reachable(r.value, 3, 12) && Reachable(r.value, 4, 12) && Interfere(r.value, 12, 3, 4)
  {
    var a, b := PAttr(2, "A", UInt16, 1, 0, Zeros(8) + [3]), PAttr(2, "A", UInt8, 1, 0, []);
    var c := PAttr(5, "B", UInt8, 1, 0, [4]);
    ThreeFields(a, b, c);
    var rule := Build(STAMP, [a, b, c], false).value;
    AcceptedTables(rule, STAMP, [a, b, c], false);
    BitAt(rule, 1, 8, 3);
    BitAt(rule, 3, 0, 4);
    InterfereIff(rule, STAMP, [a, b, c], false, 12, 1, 8, 3, 3, 0, 4);
  }

  /** With no field after it, it lands outside the record. */
  lemma WiderFieldLeavesRecord()
    ensures var input := [
        PAttr(5, "B", UInt8, 1, 0, []), PAttr(2, "A", UInt16, 1, 0, Zeros(8) + [3]), PAttr(2, "A", UInt8, 1, 0, [])];
      var r := Build(STAMP, input, false);
      && r.Ok? && r.value.recSize == 12 && !Reachable(r.value, 3, 12)
  {
    var a, b := PAttr(5, "B", UInt8, 1, 0, []), PAttr(2, "A", UInt16, 1, 0, Zeros(8) + [3]);
    var c := PAttr(2, "A", UInt8, 1, 0, []);
    ThreeFields(a, b, c);
    var rule := Build(STAMP, [a, b, c], false).value;
    AcceptedTables(rule, STAMP, [a, b, c], false);
    BitAt(rule, 2, 8, 3);
  }
}
