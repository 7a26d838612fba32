/** RecRule: the byte layout of a record and the lookup tables built from it. */
module Rules {
  import opened Types
  import opened Registry
  import opened Attributes
  import Rings

  datatype BitRef = BitRef(fieldId: int, bitPos: nat)

  datatype Rule = Rule(
    attrs: seq<PAttr>, recSize: nat, aligned: bool,
    offsetCache: seq<int>, typeCache: seq<DataType>, bitCache: map<int, BitRef>)
  {
    function OffsetById(id: int): int {
      if 0 <= id < |offsetCache| && offsetCache[id] != -1 then offsetCache[id] else 0
    }

    function TypeById(id: int): DataType {
      if 0 <= id < |typeCache| && typeCache[id] != Undefine then typeCache[id] else Void
    }

    function BitById(id: int): BitRef {
      if id in bitCache then bitCache[id] else BitRef(0, 0)
    }
  }

  const TIMESTAMP := "TimeStamp"

  function Header(names: Names): (Names, PAttr) {
    Plain(names, TIMESTAMP, Double, 1)
  }

  lemma HeaderIs(names: Names)
    ensures var names' := Registered(names, TIMESTAMP);
      Header(names) == (names', PAttr(IdOf(names', TIMESTAMP), TIMESTAMP, Double, 1, 0, []))
  {
    UptoAll(TIMESTAMP, NAME_CHARS);
  }

  // ---------------------------------------------------------------------------
  // Layout
  // ---------------------------------------------------------------------------

  function SizeSum(attrs: seq<PAttr>): nat {
    if attrs == [] then 0 else SizeSum(attrs[..|attrs| - 1]) + attrs[|attrs| - 1].Size()
  }

  /** The fields one after the other. */
  function Laid(attrs: seq<PAttr>): (r: seq<PAttr>)
    ensures |r| == |attrs|
    ensures forall k | 0 <= k < |r| :: r[k] == attrs[k].(offset := r[k].offset)
  {
    if attrs == [] then []
    else
      var init, last := attrs[..|attrs| - 1], attrs[|attrs| - 1];
      Laid(init) + [last.(offset := SizeSum(init))]
  }

  /** Inserts a after every field whose elements are at least as large. */
  function InsertDesc(s: seq<PAttr>, a: PAttr): (r: seq<PAttr>) {
    if s == [] || TypeSize(s[|s| - 1].dtype) >= TypeSize(a.dtype) then s + [a]
    else InsertDesc(s[..|s| - 1], a) + [s[|s| - 1]]
  }

  /** std::stable_sort by decreasing element size. */
  function SortDesc(attrs: seq<PAttr>): seq<PAttr> {
    if attrs == [] then [] else InsertDesc(SortDesc(attrs[..|attrs| - 1]), attrs[|attrs| - 1])
  }

  function MaxElem(attrs: seq<PAttr>): (m: nat)
    ensures m == 1 || m == 2 || m == 4 || m == 8
    ensures forall k | 0 <= k < |attrs| :: TypeSize(attrs[k].dtype) <= m
    ensures m == 1 || exists k | 0 <= k < |attrs| :: TypeSize(attrs[k].dtype) == m
  {
    if attrs == [] then 1
    else
      var m, n := MaxElem(attrs[..|attrs| - 1]), TypeSize(attrs[|attrs| - 1].dtype);
      if n > m then n else m
  }

  function Padded(size: nat, elem: nat): (r: nat)
    requires elem > 0
    ensures size <= r < size + elem
  {
    if elem > 1 && size % elem != 0 then size + (elem - size % elem) else size
  }

  function Ordered(header: PAttr, input: seq<PAttr>, align: bool): seq<PAttr> {
    [header] + if align then SortDesc(input) else input
  }

  // ---------------------------------------------------------------------------
  // Tables
  // ---------------------------------------------------------------------------

  function MaxId(attrs: seq<PAttr>): (m: nat)
    ensures forall k | 0 <= k < |attrs| :: attrs[k].id <= m
  {
    if attrs == [] then 0
    else
      var m, last := MaxId(attrs[..|attrs| - 1]), attrs[|attrs| - 1].id;
      if last > m then last else m
  }

  function OffsetTable(attrs: seq<PAttr>, n: nat): (t: seq<int>)
    ensures |t| == n
  {
    if attrs == [] then seq(n, _ => -1)
    else
      var t, a := OffsetTable(attrs[..|attrs| - 1], n), attrs[|attrs| - 1];
      if 0 < a.id < n then t[a.id := a.offset] else t
  }

  function TypeTable(attrs: seq<PAttr>, n: nat): (t: seq<DataType>)
    ensures |t| == n
  {
    if attrs == [] then seq(n, _ => Undefine)
    else
      var t, a := TypeTable(attrs[..|attrs| - 1], n), attrs[|attrs| - 1];
      if 0 < a.id < n then t[a.id := a.dtype] else t
  }

  lemma TablesNext(attrs: seq<PAttr>, n: nat)
    requires attrs != []
    ensures var init, a := attrs[..|attrs| - 1], attrs[|attrs| - 1];
      && OffsetTable(attrs, n) == (var t := OffsetTable(init, n); if 0 < a.id < n then t[a.id := a.offset] else t)
      && TypeTable(attrs, n) == (var t := TypeTable(init, n); if 0 < a.id < n then t[a.id := a.dtype] else t)
  {
  }

  /** Enters the first n bits of a field; a bit name may be entered once only. */
  function EnterBits(m: map<int, BitRef>, a: PAttr, n: nat): Result<map<int, BitRef>>
    requires n <= |a.bitIds|
  {
    if n == 0 then Ok(m)
    else
      match EnterBits(m, a, n - 1)
      case Err(e) => Err(e)
      case Ok(m1) =>
        var bid := a.bitIds[n - 1];
        if bid == 0 then Ok(m1)
        else if bid in m1 then Err(DuplicateBit)
        else Ok(m1[bid := BitRef(a.id, n - 1)])
  }

  function BitTable(attrs: seq<PAttr>): Result<map<int, BitRef>> {
    if attrs == [] then Ok(map[])
    else
      match BitTable(attrs[..|attrs| - 1])
      case Err(e) => Err(e)
      case Ok(m) => EnterBits(m, attrs[|attrs| - 1], |attrs[|attrs| - 1].bitIds|)
  }

  /** The rule over laid-out fields, with its lookup tables. */
  function Tabulate(attrs: seq<PAttr>, recSize: nat, align: bool): Result<Rule> {
    var n := MaxId(attrs) + 1;
    match BitTable(attrs)
    case Err(e) => Err(e)
    case Ok(bits) => Ok(Rule(attrs, recSize, align, OffsetTable(attrs, n), TypeTable(attrs, n), bits))
  }

  /** RecRule::init. */
  function Build(header: PAttr, input: seq<PAttr>, align: bool): Result<Rule> {
    var attrs := Laid(Ordered(header, input, align));
    var size := SizeSum(attrs);
    Tabulate(attrs, if align then Padded(size, MaxElem(attrs)) else size, align)
  }

  // ---------------------------------------------------------------------------
  // The layout tiles the record
  // ---------------------------------------------------------------------------

  lemma {:induction false} LaidOffsets(attrs: seq<PAttr>, k: nat)
    requires k < |attrs|
    ensures Laid(attrs)[k].offset == SizeSum(attrs[..k])
  {
    if k < |attrs| - 1 {
      LaidOffsets(attrs[..|attrs| - 1], k);
      assert attrs[..|attrs| - 1][..k] == attrs[..k];
    }
  }

  lemma {:induction false} SizeSumSplit(attrs: seq<PAttr>, i: nat, j: nat)
    requires i <= j <= |attrs|
    ensures SizeSum(attrs[..i]) <= SizeSum(attrs[..j])
    ensures i < j ==> SizeSum(attrs[..i]) + attrs[i].Size() <= SizeSum(attrs[..j])
  {
    if i < j {
      assert attrs[..j][..j - 1] == attrs[..j - 1];
      SizeSumSplit(attrs, i, j - 1);
    }
  }

  lemma {:induction false} SizeSumOfLaid(attrs: seq<PAttr>)
    ensures SizeSum(Laid(attrs)) == SizeSum(attrs)
  {
    if attrs != [] {
      var init := attrs[..|attrs| - 1];
      SizeSumOfLaid(init);
      assert Laid(attrs)[..|attrs| - 1] == Laid(init);
    }
  }

  /** Fields start at 0, touch, do not overlap, and end where the padding (none
      in a packed record) begins. */
  lemma LayoutTiles(header: PAttr, input: seq<PAttr>, align: bool)
    requires Build(header, input, align).Ok?
    ensures var rule := Build(header, input, align).value;
      && rule.attrs[0].offset == 0
      && (forall k | 0 <= k < |rule.attrs| - 1 ::
            rule.attrs[k].offset + rule.attrs[k].Size() == rule.attrs[k + 1].offset)
      && (forall i, j | 0 <= i < j < |rule.attrs| ::
            rule.attrs[i].offset + rule.attrs[i].Size() <= rule.attrs[j].offset)
      && (var last := rule.attrs[|rule.attrs| - 1];
          && last.offset + last.Size() == SizeSum(rule.attrs) <= rule.recSize
          && (!align ==> rule.recSize == SizeSum(rule.attrs)))
  {
    Tiles(Ordered(header, input, align));
  }

  lemma Tiles(order: seq<PAttr>)
    requires order != []
    ensures var attrs := Laid(order);
      && attrs[0].offset == 0
      && (forall k | 0 <= k < |attrs| - 1 :: attrs[k].offset + attrs[k].Size() == attrs[k + 1].offset)
      && (forall i, j | 0 <= i < j < |attrs| :: attrs[i].offset + attrs[i].Size() <= attrs[j].offset)
      && (var last := attrs[|attrs| - 1]; last.offset + last.Size() == SizeSum(attrs))
  {
    var attrs := Laid(order);
    LaidOffsets(order, 0);
    forall k | 0 <= k < |attrs| - 1 ensures attrs[k].offset + attrs[k].Size() == attrs[k + 1].offset {
      Touches(order, k);
    }
    forall i, j | 0 <= i < j < |attrs| ensures attrs[i].offset + attrs[i].Size() <= attrs[j].offset {
      LaidOffsets(order, i);
      LaidOffsets(order, j);
      SizeSumSplit(order, i, j);
    }
    EndsAt(order);
  }

  lemma Touches(order: seq<PAttr>, k: nat)
    requires k + 1 < |order|
    ensures Laid(order)[k].offset + Laid(order)[k].Size() == Laid(order)[k + 1].offset
  {
    LaidOffsets(order, k);
    LaidOffsets(order, k + 1);
    NextSum(order, k);
    SameSize(order[k], Laid(order)[k]);
  }

  lemma NextSum(order: seq<PAttr>, k: nat)
    requires k < |order|
    ensures SizeSum(order[..k + 1]) == SizeSum(order[..k]) + order[k].Size()
  {
    SizeSumOne(order[..k + 1]);
    assert order[..k + 1][..k] == order[..k];
  }

  lemma SameSize(a: PAttr, b: PAttr)
    requires b == a.(offset := b.offset)
    ensures a.Size() == b.Size()
  {
  }

  lemma SizeSumOne(attrs: seq<PAttr>)
    requires attrs != []
    ensures SizeSum(attrs) == SizeSum(attrs[..|attrs| - 1]) + attrs[|attrs| - 1].Size()
  {
  }

  lemma EndsAt(order: seq<PAttr>)
    requires order != []
    ensures var last := Laid(order)[|order| - 1]; last.offset + last.Size() == SizeSum(Laid(order))
  {
    SizeSumOfLaid(order);
    LaidOffsets(order, |order| - 1);
  }

  // ---------------------------------------------------------------------------
  // The aligned layout
  // ---------------------------------------------------------------------------

  ghost predicate SortedDesc(s: seq<PAttr>) {
    forall i, j | 0 <= i < j < |s| :: TypeSize(s[i].dtype) >= TypeSize(s[j].dtype)
  }

  /** The fields with elements of size n, in order. */
  ghost function OfSize(s: seq<PAttr>, n: nat): seq<PAttr> {
    if s == [] then []
    else OfSize(s[..|s| - 1], n) + if TypeSize(s[|s| - 1].dtype) == n then [s[|s| - 1]] else []
  }

  lemma {:induction false} InsertMembers(s: seq<PAttr>, a: PAttr)
    ensures multiset(InsertDesc(s, a)) == multiset(s + [a])
    ensures forall x :: x in InsertDesc(s, a) <==> x in s || x == a
  {
    if !(s == [] || TypeSize(s[|s| - 1].dtype) >= TypeSize(a.dtype)) {
      InsertMembers(s[..|s| - 1], a);
      assert s == s[..|s| - 1] + [s[|s| - 1]];
    }
  }

  lemma {:induction false} InsertSorted(s: seq<PAttr>, a: PAttr)
    requires SortedDesc(s)
    ensures SortedDesc(InsertDesc(s, a))
  {
    if !(s == [] || TypeSize(s[|s| - 1].dtype) >= TypeSize(a.dtype)) {
      var init, last := s[..|s| - 1], s[|s| - 1];
      InsertSorted(init, a);
      InsertMembers(init, a);
      var r := InsertDesc(init, a);
      forall i | 0 <= i < |r| ensures TypeSize(r[i].dtype) >= TypeSize(last.dtype) {
        assert r[i] in r;
      }
    }
  }

  lemma {:induction false} InsertStable(s: seq<PAttr>, a: PAttr, n: nat)
    requires SortedDesc(s)
    ensures OfSize(InsertDesc(s, a), n) == OfSize(s, n) + if TypeSize(a.dtype) == n then [a] else []
  {
    var r := InsertDesc(s, a);
    if s == [] || TypeSize(s[|s| - 1].dtype) >= TypeSize(a.dtype) {
      assert r[..|s|] == s;
    } else {
      var init := s[..|s| - 1];
      InsertStable(init, a, n);
      assert r[..|r| - 1] == InsertDesc(init, a);
      if n == TypeSize(s[|s| - 1].dtype) {
        assert OfSize(init, n) + [] + [s[|s| - 1]] == OfSize(s, n) + [];
      }
    }
  }

  /** The sort orders by decreasing element size, loses nothing, and keeps the
      fields of each size in the order they were given. */
  lemma {:induction false} SortIsStable(attrs: seq<PAttr>)
    ensures SortedDesc(SortDesc(attrs))
    ensures multiset(SortDesc(attrs)) == multiset(attrs)
    ensures forall n: nat :: OfSize(SortDesc(attrs), n) == OfSize(attrs, n)
  {
    if attrs != [] {
      var init, last := attrs[..|attrs| - 1], attrs[|attrs| - 1];
      SortIsStable(init);
      InsertSorted(SortDesc(init), last);
      InsertMembers(SortDesc(init), last);
      forall n: nat ensures OfSize(SortDesc(attrs), n) == OfSize(attrs, n) {
        InsertStable(SortDesc(init), last, n);
      }
      assert attrs == init + [last];
    }
  }

  /** Order and stability leave no choice: any such arrangement is the same. */
  lemma {:induction false} StableSortUnique(s: seq<PAttr>, t: seq<PAttr>)
    requires SortedDesc(s) && SortedDesc(t) && |s| == |t|
    requires forall n: nat :: OfSize(s, n) == OfSize(t, n)
    ensures s == t
  {
    if s != [] {
      SameLast(s, t);
      var init, rest := s[..|s| - 1], t[..|t| - 1];
      forall k: nat ensures OfSize(init, k) == OfSize(rest, k) {
        SameInit(s, t, k);
      }
      StableSortUnique(init, rest);
      assert s == init + [s[|s| - 1]] && t == rest + [s[|s| - 1]];
    }
  }

  lemma SameInit(s: seq<PAttr>, t: seq<PAttr>, k: nat)
    requires s != [] && t != [] && s[|s| - 1] == t[|t| - 1] && OfSize(s, k) == OfSize(t, k)
    ensures OfSize(s[..|s| - 1], k) == OfSize(t[..|t| - 1], k)
  {
    var x, p, q := s[|s| - 1], OfSize(s[..|s| - 1], k), OfSize(t[..|t| - 1], k);
    var tail := if TypeSize(x.dtype) == k then [x] else [];
    assert p + tail == q + tail;
    Cancel(p, q, tail);
  }

  lemma Cancel<T>(s: seq<T>, t: seq<T>, tail: seq<T>)
    requires s + tail == t + tail
    ensures s == t
  {
    assert |s + tail| == |t + tail|;
    assert s == (s + tail)[..|s|] && t == (t + tail)[..|t|];
  }

  lemma SameLast(s: seq<PAttr>, t: seq<PAttr>)
    requires s != [] && t != [] && SortedDesc(s) && SortedDesc(t)
    requires forall n: nat :: OfSize(s, n) == OfSize(t, n)
    ensures s[|s| - 1] == t[|t| - 1]
  {
    var a, b := s[|s| - 1], t[|t| - 1];
    var n, m := TypeSize(a.dtype), TypeSize(b.dtype);
    assert OfSize(s, n) == OfSize(t, n) && OfSize(s, m) == OfSize(t, m);
    LastOfSize(s);
    LastOfSize(t);
    if m < n { NoneSmaller(s, m); }
    if n < m { NoneSmaller(t, n); }
  }

  lemma LastOfSize(s: seq<PAttr>)
    requires s != []
    ensures var last := s[|s| - 1]; var same := OfSize(s, TypeSize(last.dtype));
      same != [] && same[|same| - 1] == last
  {
  }

  lemma {:induction false} NoneSmaller(s: seq<PAttr>, n: nat)
    requires SortedDesc(s) && s != [] && n < TypeSize(s[|s| - 1].dtype)
    ensures OfSize(s, n) == []
  {
    var init := s[..|s| - 1];
    if init != [] { NoneSmaller(init, n); }
  }

  lemma MulMultiple(s: nat, c: nat, m: nat)
    requires m > 0 && s % m == 0
    ensures (s * c) % m == 0
  {
    var q := s / m;
    assert s == q * m;
    assert s * c == (q * c) * m;
    Rings.MulMod(q * c, m, 0);
  }

  lemma SumMultiple(a: nat, b: nat, m: nat)
    requires (m == 1 || m == 2 || m == 4 || m == 8) && a % m == 0 && b % m == 0
    ensures (a + b) % m == 0
  {
  }

  lemma {:induction false} SumOfLarger(attrs: seq<PAttr>, m: nat)
    requires m == 1 || m == 2 || m == 4 || m == 8
    requires forall k | 0 <= k < |attrs| :: TypeSize(attrs[k].dtype) >= m
    ensures SizeSum(attrs) % m == 0
  {
    if attrs != [] {
      var init, last := attrs[..|attrs| - 1], attrs[|attrs| - 1];
      SumOfLarger(init, m);
      MulMultiple(TypeSize(last.dtype), last.count, m);
      SumMultiple(SizeSum(init), last.Size(), m);
    }
  }

  /** In an aligned record every field lies on a multiple of its element size,
      and the record size is the least multiple of the largest element size
      that holds the fields. */
  lemma AlignedLayout(header: PAttr, input: seq<PAttr>)
    requires header.dtype == Double && Build(header, input, true).Ok?
    ensures var rule := Build(header, input, true).value;
      && (forall k | 0 <= k < |rule.attrs| && rule.attrs[k].dtype != Undefine ::
            rule.attrs[k].offset % TypeSize(rule.attrs[k].dtype) == 0)
      && rule.recSize % MaxElem(rule.attrs) == 0
      && SizeSum(rule.attrs) <= rule.recSize < SizeSum(rule.attrs) + MaxElem(rule.attrs)
  {
    var order := Ordered(header, input, true);
    OrderedDesc(header, input);
    forall k | 0 <= k < |order| && order[k].dtype != Undefine
      ensures Laid(order)[k].offset % TypeSize(order[k].dtype) == 0
    {
      LaidAligned(order, k);
    }
    PaddedMultiple(SizeSum(Laid(order)), MaxElem(Laid(order)));
  }

  lemma OrderedDesc(header: PAttr, input: seq<PAttr>)
    requires header.dtype == Double
    ensures SortedDesc(Ordered(header, input, true))
  {
    SortIsStable(input);
  }

  lemma LaidAligned(order: seq<PAttr>, k: nat)
    requires SortedDesc(order) && k < |order| && order[k].dtype != Undefine
    ensures Laid(order)[k].offset % TypeSize(order[k].dtype) == 0
  {
    LaidOffsets(order, k);
    SumOfLarger(order[..k], TypeSize(order[k].dtype));
  }

  lemma PaddedMultiple(size: nat, elem: nat)
    requires elem == 1 || elem == 2 || elem == 4 || elem == 8
    ensures Padded(size, elem) % elem == 0
  {
  }

  /** The fields are those given, in the order given when packed, and in the one
      stable order by decreasing element size when aligned; only their offsets are
      new, and the time stamp comes first. */
  lemma FieldsInOrder(header: PAttr, input: seq<PAttr>, align: bool) returns (order: seq<PAttr>)
    requires Build(header, input, align).Ok?
    ensures var attrs := Build(header, input, align).value.attrs;
      && |attrs| == |order| + 1 && attrs[0] == header.(offset := 0)
      && forall i | 0 <= i < |order| :: attrs[i + 1] == order[i].(offset := attrs[i + 1].offset)
    ensures !align ==> order == input
    ensures align ==> SortedDesc(order) && multiset(order) == multiset(input)
    ensures align ==> forall n: nat :: OfSize(order, n) == OfSize(input, n)
  {
    order := if align then SortDesc(input) else input;
    if align { SortIsStable(input); }
    LaidAfterHeader(header, order, Build(header, input, align).value.attrs);
  }

  lemma LaidAfterHeader(header: PAttr, order: seq<PAttr>, attrs: seq<PAttr>)
    requires attrs == Laid([header] + order)
    ensures |attrs| == |order| + 1 && attrs[0] == header.(offset := 0)
    ensures forall i | 0 <= i < |order| :: attrs[i + 1] == order[i].(offset := attrs[i + 1].offset)
  {
    var all := [header] + order;
    assert all[..0] == [];
    LaidOffsets(all, 0);
    HeaderFirst(header, order, all, attrs);
  }

  lemma HeaderFirst(header: PAttr, order: seq<PAttr>, all: seq<PAttr>, attrs: seq<PAttr>)
    requires all == [header] + order && |attrs| == |all| && attrs[0].offset == 0
    requires forall k | 0 <= k < |attrs| :: attrs[k] == all[k].(offset := attrs[k].offset)
    ensures attrs[0] == header.(offset := 0)
    ensures forall i | 0 <= i < |order| :: attrs[i + 1] == order[i].(offset := attrs[i + 1].offset)
  {
    forall i | 0 <= i < |order| ensures attrs[i + 1] == order[i].(offset := attrs[i + 1].offset) {
      assert all[i + 1] == order[i];
    }
  }

  // ---------------------------------------------------------------------------
  // The lookup tables
  // ---------------------------------------------------------------------------

  ghost predicate DistinctIds(attrs: seq<PAttr>) {
    forall i, j | 0 <= i < j < |attrs| :: attrs[i].id != attrs[j].id
  }

  /** No later field has the id of field k. */
  ghost predicate LastOfId(attrs: seq<PAttr>, k: nat) {
    k < |attrs| && forall j | k < j < |attrs| :: attrs[j].id != attrs[k].id
  }

  ghost predicate AllLast(attrs: seq<PAttr>) {
    forall k: nat | k < |attrs| :: LastOfId(attrs, k)
  }

  lemma DistinctIsLast(attrs: seq<PAttr>)
    ensures DistinctIds(attrs) <==> AllLast(attrs)
  {
    if AllLast(attrs) {
      forall i, j | 0 <= i < j < |attrs| ensures attrs[i].id != attrs[j].id { assert LastOfId(attrs, i); }
    }
  }

  /** The last field with the id of field k. */
  ghost function Home(attrs: seq<PAttr>, k: nat): (h: nat)
    requires k < |attrs|
    ensures k <= h < |attrs| && attrs[h].id == attrs[k].id && LastOfId(attrs, h)
    ensures h == k <==> LastOfId(attrs, k)
  {
    var n := |attrs| - 1;
    if attrs[n].id == attrs[k].id then n else Home(attrs[..n], k)
  }

  lemma {:induction false} TableAt(attrs: seq<PAttr>, n: nat, k: nat)
    requires LastOfId(attrs, k) && 0 < attrs[k].id < n
    ensures OffsetTable(attrs, n)[attrs[k].id] == attrs[k].offset
    ensures TypeTable(attrs, n)[attrs[k].id] == attrs[k].dtype
  {
    if k < |attrs| - 1 { TableAt(attrs[..|attrs| - 1], n, k); }
  }

  lemma {:induction false} TableMiss(attrs: seq<PAttr>, n: nat, id: nat)
    requires id < n && forall k | 0 <= k < |attrs| :: attrs[k].id != id
    ensures OffsetTable(attrs, n)[id] == -1 && TypeTable(attrs, n)[id] == Undefine
  {
    if attrs != [] { TableMiss(attrs[..|attrs| - 1], n, id); }
  }

  /** The O(1) lookups give the position and type of the last field with the
      id, 0 and Void for an unknown id. With distinct ids every field is last. */
  lemma LookupsAgree(rule: Rule, header: PAttr, input: seq<PAttr>, align: bool, id: int)
    requires Build(header, input, align) == Ok(rule) && forall k | 0 <= k < |rule.attrs| :: rule.attrs[k].id > 0
    ensures forall k: nat | LastOfId(rule.attrs, k) && rule.attrs[k].id == id ::
      && rule.OffsetById(id) == rule.attrs[k].offset
      && rule.TypeById(id) == if rule.attrs[k].dtype == Undefine then Void else rule.attrs[k].dtype
    ensures (forall k | 0 <= k < |rule.attrs| :: rule.attrs[k].id != id) ==>
      rule.OffsetById(id) == 0 && rule.TypeById(id) == Void
    ensures DistinctIds(rule.attrs) <==> AllLast(rule.attrs)
  {
    TablesSay(rule, id);
    DistinctIsLast(rule.attrs);
  }

  lemma TablesSay(rule: Rule, id: int)
    requires forall k | 0 <= k < |rule.attrs| :: rule.attrs[k].id > 0
    requires rule.offsetCache == OffsetTable(rule.attrs, MaxId(rule.attrs) + 1)
    requires rule.typeCache == TypeTable(rule.attrs, MaxId(rule.attrs) + 1)
    ensures forall k: nat | LastOfId(rule.attrs, k) && rule.attrs[k].id == id ::
      && rule.OffsetById(id) == rule.attrs[k].offset
      && rule.TypeById(id) == if rule.attrs[k].dtype == Undefine then Void else rule.attrs[k].dtype
    ensures (forall k | 0 <= k < |rule.attrs| :: rule.attrs[k].id != id) ==>
      rule.OffsetById(id) == 0 && rule.TypeById(id) == Void
  {
    var attrs, n := rule.attrs, MaxId(rule.attrs) + 1;
    TablesHit(attrs, n, id);
    if 0 <= id < n && forall k | 0 <= k < |attrs| :: attrs[k].id != id {
      TableMiss(attrs, n, id);
    }
  }

  lemma TablesHit(attrs: seq<PAttr>, n: nat, id: int)
    requires n == MaxId(attrs) + 1 && forall k | 0 <= k < |attrs| :: attrs[k].id > 0
    ensures forall k: nat | LastOfId(attrs, k) && attrs[k].id == id ::
      OffsetTable(attrs, n)[id] == attrs[k].offset && TypeTable(attrs, n)[id] == attrs[k].dtype
  {
    forall k: nat | LastOfId(attrs, k) && attrs[k].id == id
      ensures OffsetTable(attrs, n)[id] == attrs[k].offset && TypeTable(attrs, n)[id] == attrs[k].dtype
    {
      TableAt(attrs, n, k);
    }
  }

  // ---------------------------------------------------------------------------
  // The bit table
  // ---------------------------------------------------------------------------

  /** Bit b of field k of the rule carries the name bid. */
  ghost predicate Carries(attrs: seq<PAttr>, k: nat, b: nat, bid: int) {
    k < |attrs| && b < |attrs[k].bitIds| && attrs[k].bitIds[b] == bid != 0
  }

  /** The table holds exactly the named bits of the first fields, and no name
      occurs twice among them. */
  ghost predicate Tabled(m: map<int, BitRef>, attrs: seq<PAttr>) {
    && (forall k: nat, b: nat, bid: int | Carries(attrs, k, b, bid) :: bid in m && m[bid] == BitRef(attrs[k].id, b))
    && (forall bid | bid in m :: exists k: nat, b: nat :: Carries(attrs, k, b, bid))
    && NoDuplicates(attrs)
  }

  ghost predicate NoDuplicates(attrs: seq<PAttr>) {
    forall k: nat, b: nat, k': nat, b': nat, bid: int | Carries(attrs, k, b, bid) && Carries(attrs, k', b', bid) ::
      k == k' && b == b'
  }

  ghost function Cut(attrs: seq<PAttr>, n: nat): (r: seq<PAttr>)
    requires attrs != [] && n <= |attrs[|attrs| - 1].bitIds|
    ensures |r| == |attrs|
  {
    var last := attrs[|attrs| - 1];
    attrs[..|attrs| - 1] + [last.(bitIds := last.bitIds[..n])]
  }

  lemma {:induction false} EnterBitsTabled(m: map<int, BitRef>, attrs: seq<PAttr>, n: nat)
    requires attrs != [] && n <= |attrs[|attrs| - 1].bitIds|
    requires Tabled(m, attrs[..|attrs| - 1])
    ensures var r := EnterBits(m, attrs[|attrs| - 1], n);
      if r.Ok? then Tabled(r.value, Cut(attrs, n)) else !NoDuplicates(Cut(attrs, n))
  {
    var a := attrs[|attrs| - 1];
    var rest, now := attrs[..|attrs| - 1], Cut(attrs, n);
    if n == 0 {
      assert forall k: nat, b: nat, bid: int :: Carries(now, k, b, bid) <==> Carries(rest, k, b, bid);
    } else {
      EnterBitsTabled(m, attrs, n - 1);
      var before := Cut(attrs, n - 1);
      var bid := a.bitIds[n - 1];
      assert OneMore(before, now, |rest|, n - 1, bid);
      if EnterBits(m, a, n - 1).Err? {
        var k: nat, b: nat, k': nat, b': nat, x: int :|
          Carries(before, k, b, x) && Carries(before, k', b', x) && !(k == k' && b == b');
        assert Carries(now, k, b, x) && Carries(now, k', b', x);
      } else {
        EnterOne(EnterBits(m, a, n - 1).value, before, now, |rest|, n - 1, bid);
      }
    }
  }

  /** `now` has the bits of `before` and bit b0 of field k0, under the name bid. */
  ghost predicate OneMore(before: seq<PAttr>, now: seq<PAttr>, k0: nat, b0: nat, bid: int) {
    && |before| == |now| && (forall k | 0 <= k < |now| :: now[k].id == before[k].id)
    && !(exists x :: Carries(before, k0, b0, x)) && (bid != 0 ==> Carries(now, k0, b0, bid))
    && forall k: nat, b: nat, x: int ::
      Carries(now, k, b, x) <==> Carries(before, k, b, x) || (k == k0 && b == b0 && x == bid != 0)
  }

  lemma EnterOne(m: map<int, BitRef>, before: seq<PAttr>, now: seq<PAttr>, k0: nat, b0: nat, bid: int)
    requires Tabled(m, before) && OneMore(before, now, k0, b0, bid)
    ensures bid == 0 ==> Tabled(m, now)
    ensures bid != 0 && bid !in m ==> Tabled(m[bid := BitRef(now[k0].id, b0)], now)
    ensures bid != 0 && bid in m ==> !NoDuplicates(now)
  {
    if bid != 0 && bid in m {
      var k: nat, b: nat :| Carries(before, k, b, bid);
      assert Carries(now, k, b, bid) && Carries(now, k0, b0, bid);
    }
  }

  /** init accepts a rule exactly when no bit name is used twice, and then the
      table finds every named bit. */
  lemma {:induction false} BitTableComplete(attrs: seq<PAttr>)
    ensures BitTable(attrs).Ok? <==> NoDuplicates(attrs)
    ensures BitTable(attrs).Ok? ==> Tabled(BitTable(attrs).value, attrs)
  {
    if attrs != [] {
      var init, last := attrs[..|attrs| - 1], attrs[|attrs| - 1];
      BitTableComplete(init);
      assert forall k: nat, b: nat, bid: int :: Carries(init, k, b, bid) ==> Carries(attrs, k, b, bid);
      if BitTable(init).Ok? {
        EnterBitsTabled(BitTable(init).value, attrs, |last.bitIds|);
        assert last.bitIds[..|last.bitIds|] == last.bitIds;
        assert Cut(attrs, |last.bitIds|) == attrs;
      } else {
        var k: nat, b: nat, k': nat, b': nat, x: int :|
          Carries(init, k, b, x) && Carries(init, k', b', x) && !(k == k' && b == b');
        assert Carries(attrs, k, b, x) && Carries(attrs, k', b', x);
      }
    }
  }

  // ---------------------------------------------------------------------------
  // The class
  // ---------------------------------------------------------------------------

  class RecRule {
    var attrs: seq<PAttr>
    var recSize: nat
    var aligned: bool
    var offsetCache: seq<int>
    var typeCache: seq<DataType>
    var bitCache: map<int, BitRef>

    constructor ()
    {
      attrs, recSize, aligned, offsetCache, typeCache, bitCache := [], 0, false, [], [], map[];
    }

    function View(): Rule
      reads this
    {
      Rule(attrs, recSize, aligned, offsetCache, typeCache, bitCache)
    }

    method Init(reg: PReg, input: seq<PAttr>, align: bool) returns (r: Result<()>)
      requires reg.Valid()
      modifies this, reg
      ensures reg.Valid()
      ensures var (names, header) := Header(old(reg.idToName));
        && reg.idToName == names
        && (match Build(header, input, align)
            case Ok(rule) => r == Ok(()) && View() == rule
            case Err(e) => r == Err(e))
    {
      HeaderIs(reg.idToName);
      var id := reg.GetID(TIMESTAMP);
      r := InitLayout(PAttr(id, TIMESTAMP, Double, 1, 0, []), input, align);
    }

    /** init once the header is built. */
    method InitLayout(header: PAttr, input: seq<PAttr>, align: bool) returns (r: Result<()>)
      modifies this
      ensures match Build(header, input, align)
        case Ok(rule) => r == Ok(()) && View() == rule
        case Err(e) => r == Err(e)
    {
      aligned := align;
      var tempSize := PlaceFields(Ordered(header, input, align));
      if align {
        var maxElem := LargestElement();
        tempSize := PadSize(tempSize, maxElem);
      }
      recSize := tempSize;
      r := BuildCaches();
    }

    method PadSize(size: nat, maxElem: nat) returns (padded: nat)
      requires maxElem > 0
      ensures padded == Padded(size, maxElem)
    {
      padded := size;
      if maxElem > 1 {
        var rem := size % maxElem;
        if rem != 0 {
          padded := padded + (maxElem - rem);
        }
      }
    }

    method LargestElement() returns (maxElem: nat)
      ensures maxElem == MaxElem(attrs)
    {
      maxElem := 1;
      for i := 0 to |attrs|
        invariant maxElem == MaxElem(attrs[..i])
      {
        assert attrs[..i + 1][..i] == attrs[..i];
        if TypeSize(attrs[i].dtype) > maxElem {
          maxElem := TypeSize(attrs[i].dtype);
        }
      }
      assert attrs[..|attrs|] == attrs;
    }

    method LargestId() returns (maxFieldId: nat)
      ensures maxFieldId == MaxId(attrs)
    {
      maxFieldId := 0;
      for i := 0 to |attrs|
        invariant maxFieldId == MaxId(attrs[..i])
      {
        assert attrs[..i + 1][..i] == attrs[..i];
        if attrs[i].id > maxFieldId {
          maxFieldId := attrs[i].id;
        }
      }
      assert attrs[..|attrs|] == attrs;
    }

    method EnterField(a: PAttr) returns (r: Result<()>)
      modifies this`bitCache
      ensures match EnterBits(old(bitCache), a, |a.bitIds|)
        case Ok(m) => r == Ok(()) && bitCache == m
        case Err(e) => r == Err(e)
    {
      for bitPos := 0 to |a.bitIds|
        invariant EnterBits(old(bitCache), a, bitPos) == Ok(bitCache)
      {
        var bid := a.bitIds[bitPos];
        if bid != 0 {
          if bid in bitCache {
            EnterErr(old(bitCache), a, bitPos + 1);
            return Err(DuplicateBit);
          }
          bitCache := bitCache[bid := BitRef(a.id, bitPos)];
        }
      }
      return Ok(());
    }

    method PlaceFields(order: seq<PAttr>) returns (tempSize: nat)
      modifies this`attrs
      ensures attrs == Laid(order) && tempSize == SizeSum(attrs)
    {
      attrs := [];
      tempSize := 0;
      for i := 0 to |order|
        invariant attrs == Laid(order[..i]) && tempSize == SizeSum(order[..i])
      {
        assert order[..i + 1][..i] == order[..i];
        attrs := attrs + [order[i].(offset := tempSize)];
        tempSize := tempSize + order[i].Size();
      }
      assert order[..|order|] == order;
      SizeSumOfLaid(order);
    }

    method BuildCaches() returns (r: Result<()>)
      modifies this`offsetCache, this`typeCache, this`bitCache
      ensures match Tabulate(attrs, recSize, aligned)
        case Ok(rule) => r == Ok(()) && View() == rule
        case Err(e) => r == Err(e)
    {
      var maxFieldId := LargestId();
      var n := maxFieldId + 1;
      offsetCache, typeCache, bitCache := seq(n, _ => -1), seq(n, _ => Undefine), map[];
      for i := 0 to |attrs|
        invariant offsetCache == OffsetTable(attrs[..i], n) && typeCache == TypeTable(attrs[..i], n)
        invariant BitTable(attrs[..i]) == Ok(bitCache)
      {
        assert attrs[..i + 1][..i] == attrs[..i];
        var a := attrs[i];
        TablesNext(attrs[..i + 1], n);
        if a.id > 0 && a.id <= maxFieldId {
          offsetCache := offsetCache[a.id := a.offset];
          typeCache := typeCache[a.id := a.dtype];
        }
        var entered := EnterField(a);
        if entered.Err? {
          TableErr(attrs, i + 1);
          return entered;
        }
      }
      assert attrs[..|attrs|] == attrs;
      return Ok(());
    }
  }

  lemma {:induction false} EnterErr(m: map<int, BitRef>, a: PAttr, n: nat)
    requires n <= |a.bitIds| && EnterBits(m, a, n).Err?
    ensures EnterBits(m, a, |a.bitIds|) == EnterBits(m, a, n)
    decreases |a.bitIds| - n
  {
    if n < |a.bitIds| { EnterErr(m, a, n + 1); }
  }

  lemma {:induction false} TableErr(attrs: seq<PAttr>, n: nat)
    requires n <= |attrs| && BitTable(attrs[..n]).Err?
    ensures BitTable(attrs) == BitTable(attrs[..n])
    decreases |attrs| - n
  {
    if n < |attrs| {
      assert attrs[..n + 1][..n] == attrs[..n];
      TableErr(attrs, n + 1);
    } else {
      assert attrs[..n] == attrs;
    }
  }
}
