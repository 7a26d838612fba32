/** Fixed-size records laid over a byte ring: flattening a ring of records
    gives the byte ring, and every ring operation commutes with it. */
module Chunks {
  import opened Rings

  type Byte = bv8
  type Record = seq<Byte>

  ghost predicate Uniform(rs: seq<Record>, c: nat) {
    forall i | 0 <= i < |rs| :: |rs[i]| == c
  }

  // Byte offsets, kept away from the solver's non-linear arithmetic.

  /** The length of n records of c bytes, n * c. */
  function Bytes(n: nat, c: nat): nat {
    if n == 0 then 0 else Bytes(n - 1, c) + c
  }

  /** The record that byte b falls into, b / c. */
  function Quot(b: nat, c: nat): nat
    requires c > 0
  {
    if b < c then 0 else Quot(b - c, c) + 1
  }

  lemma {:induction false} BytesIsMul(n: nat, c: nat)
    ensures Bytes(n, c) == n * c
  {
    if n > 0 {
      BytesIsMul(n - 1, c);
      assert n * c == (n - 1) * c + c;
    }
  }

  lemma {:induction false} BytesAdd(a: nat, b: nat, c: nat)
    ensures Bytes(a + b, c) == Bytes(a, c) + Bytes(b, c)
  {
    if b > 0 { BytesAdd(a, b - 1, c); }
  }

  lemma BytesOrder(a: nat, b: nat, c: nat)
    ensures a <= b ==> Bytes(b, c) == Bytes(a, c) + Bytes(b - a, c)
    ensures a < b ==> Bytes(a, c) + c <= Bytes(b, c)
  {
    if a <= b { BytesAdd(a, b - a, c); }
    if a < b { BytesAdd(1, b - a - 1, c); }
  }

  lemma {:induction false} QuotAt(q: nat, o: nat, c: nat)
    requires o < c
    ensures Quot(Bytes(q, c) + o, c) == q
  {
    if q > 0 { QuotAt(q - 1, o, c); }
  }

  lemma {:induction false} QuotBound(b: nat, c: nat)
    requires c > 0
    ensures Bytes(Quot(b, c), c) <= b < Bytes(Quot(b, c), c) + c
  {
    if b >= c { QuotBound(b - c, c); }
  }

  /** Quot is division. */
  lemma QuotIsDiv(b: nat, c: nat)
    requires c > 0
    ensures Quot(b, c) == b / c
  {
    QuotBound(b, c);
    BytesIsMul(Quot(b, c), c);
    MulMod(Quot(b, c), c, b - Quot(b, c) * c);
  }

  lemma QuotInside(b: nat, n: nat, c: nat)
    requires c > 0 && b < Bytes(n, c)
    ensures Quot(b, c) < n && Bytes(Quot(b, c), c) <= b < Bytes(Quot(b, c), c) + c
  {
    QuotBound(b, c);
    BytesOrder(n, Quot(b, c), c);
  }

  lemma WrapScale(i: nat, n: nat, c: nat, o: nat)
    requires i < 2 * n && o < c
    ensures Bytes(i, c) + o < 2 * Bytes(n, c)
    ensures Wrap(Bytes(i, c) + o, Bytes(n, c)) == Bytes(Wrap(i, n), c) + o
  {
    BytesOrder(i, 2 * n, c);
    BytesAdd(n, n, c);
    BytesOrder(i, n, c);
    BytesOrder(n, i, c);
  }

  // ---------------------------------------------------------------------------
  // Records and bytes
  // ---------------------------------------------------------------------------

  /** The bytes are the records rs, each c bytes long, one after the other. */
  ghost predicate Holds(bytes: seq<Byte>, rs: seq<Record>, c: nat) {
    && Uniform(rs, c)
    && |bytes| == Bytes(|rs|, c)
    && forall q, o | 0 <= q < |rs| && 0 <= o < c ::
         Bytes(q, c) + o < |bytes| && bytes[Bytes(q, c) + o] == rs[q][o]
  }

  /** The records determine the bytes ... */
  lemma HoldsSameBytes(x: seq<Byte>, y: seq<Byte>, rs: seq<Record>, c: nat)
    requires c > 0 && Holds(x, rs, c) && Holds(y, rs, c)
    ensures x == y
  {
    forall b | 0 <= b < |x| ensures x[b] == y[b] {
      QuotInside(b, |rs|, c);
      var q := Quot(b, c);
      assert rs[q][b - Bytes(q, c)] == x[b];
    }
  }

  /** ... and the bytes determine the records. */
  lemma HoldsSameRecords(bytes: seq<Byte>, a: seq<Record>, b: seq<Record>, c: nat)
    requires c > 0 && Holds(bytes, a, c) && Holds(bytes, b, c)
    ensures a == b
  {
    BytesOrder(|a|, |b|, c);
    BytesOrder(|b|, |a|, c);
    forall q | 0 <= q < |a| ensures a[q] == b[q] {
      assert forall o | 0 <= o < c :: a[q][o] == b[q][o];
    }
  }

  lemma HoldsSlice(bytes: seq<Byte>, rs: seq<Record>, c: nat, i: nat, j: nat)
    requires Holds(bytes, rs, c) && i <= j <= |rs|
    ensures Bytes(j, c) == Bytes(i, c) + Bytes(j - i, c) <= |bytes|
    ensures Holds(bytes[Bytes(i, c)..Bytes(j, c)], rs[i..j], c)
  {
    BytesOrder(i, j, c);
    BytesOrder(j, |rs|, c);
    var part, slice := rs[i..j], bytes[Bytes(i, c)..Bytes(j, c)];
    forall q, o | 0 <= q < |part| && 0 <= o < c
      ensures Bytes(q, c) + o < |slice| && slice[Bytes(q, c) + o] == part[q][o]
    {
      BytesAdd(i, q, c);
      BytesOrder(q, j - i, c);
      assert part[q][o] == rs[i + q][o];
    }
  }

  /** The same, by length. */
  lemma HoldsRun(bytes: seq<Byte>, rs: seq<Record>, c: nat, i: nat, n: nat, j: nat, part: seq<Byte>, run: seq<Record>)
    requires Holds(bytes, rs, c) && i + n == j <= |rs|
    requires Bytes(i, c) + Bytes(n, c) <= |bytes|
    requires part == bytes[Bytes(i, c)..Bytes(i, c) + Bytes(n, c)] && run == rs[i..j]
    ensures Holds(part, run, c)
  {
    HoldsSlice(bytes, rs, c, i, j);
    assert j - i == n;
  }

  lemma RunFits(total: nat, i: nat, n: nat, c: nat)
    requires i + n <= total
    ensures Bytes(i, c) + Bytes(n, c) <= Bytes(total, c)
  {
    var j := i + n;
    BytesOrder(i, j, c);
    BytesOrder(j, total, c);
    assert j - i == n;
  }

  lemma HoldsConcat(x: seq<Byte>, a: seq<Record>, y: seq<Byte>, b: seq<Record>, c: nat)
    requires Holds(x, a, c) && Holds(y, b, c)
    ensures Holds(x + y, a + b, c)
  {
    BytesAdd(|a|, |b|, c);
    forall q, o | 0 <= q < |a + b| && 0 <= o < c
      ensures Bytes(q, c) + o < |x + y| && (x + y)[Bytes(q, c) + o] == (a + b)[q][o]
    {
      if q < |a| {
        assert (a + b)[q][o] == a[q][o];
      } else {
        BytesAdd(|a|, q - |a|, c);
        assert (a + b)[q][o] == b[q - |a|][o];
      }
    }
  }

  lemma HoldsOne(r: Record, c: nat)
    requires |r| == c
    ensures Holds(r, [r], c)
  {
    assert Bytes(1, c) == c;
  }

  /** The whole records that a block of n * c bytes is. */
  function Cut(bytes: seq<Byte>, n: nat, c: nat): (rs: seq<Record>)
    requires |bytes| == Bytes(n, c)
    ensures |rs| == n && Holds(bytes, rs, c)
    decreases n
  {
    if n == 0 then [] else
      var rest := Bytes(n - 1, c);
      var rs := Cut(bytes[..rest], n - 1, c) + [bytes[rest..]];
      assert Holds(bytes, rs, c) by {
        HoldsOne(bytes[rest..], c);
        HoldsConcat(bytes[..rest], Cut(bytes[..rest], n - 1, c), bytes[rest..], [bytes[rest..]], c);
        assert bytes == bytes[..rest] + bytes[rest..];
      }
      rs
  }

  // ---------------------------------------------------------------------------
  // Rings of records and rings of bytes
  // ---------------------------------------------------------------------------

  /** The byte ring is the record ring r, record by record. */
  ghost predicate Lays(b: Ring<Byte>, r: Ring<Record>, c: nat) {
    && c > 0 && r.Valid() && b.Valid()
    && Holds(b.mem, r.mem, c)
    && b.head == Bytes(r.head, c)
    && b.size == Bytes(r.size, c)
  }

  lemma SlotScale(b: Ring<Byte>, r: Ring<Record>, c: nat, i: nat, o: nat)
    requires Lays(b, r, c) && i <= |r.mem| && (if i < |r.mem| then o < c else o == 0)
    ensures Bytes(i, c) + o <= |b.mem| && b.Slot(Bytes(i, c) + o) == Bytes(r.Slot(i), c) + o
  {
    WrapScale(r.head + i, |r.mem|, c, o);
    BytesAdd(r.head, i, c);
    BytesOrder(i, |r.mem|, c);
  }

  lemma OverlayScale(mem: seq<Byte>, recs: seq<Record>, at: nat, data: seq<Byte>, src: seq<Record>, c: nat)
    requires c > 0 && Holds(mem, recs, c) && Holds(data, src, c)
    requires at < |recs| && |src| <= |recs|
    ensures Bytes(at, c) < |mem| && |data| <= |mem|
    ensures Holds(Overlay(mem, Bytes(at, c), data), Overlay(recs, at, src), c)
  {
    BytesOrder(at, |recs|, c);
    BytesOrder(|src|, |recs|, c);
    OverlayUniform(recs, at, src, c);
    OverlayBytes(mem, recs, at, data, src, c);
  }

  lemma OverlayUniform(recs: seq<Record>, at: nat, src: seq<Record>, c: nat)
    requires Uniform(recs, c) && Uniform(src, c) && at < |recs| && |src| <= |recs|
    ensures Uniform(Overlay(recs, at, src), c)
  {
    var n := |recs|;
    forall q | 0 <= q < n ensures |Overlay(recs, at, src)[q]| == c {
      WrapBack(at, q, n);
      OverlayAt(recs, at, src, Wrap(q + n - at, n));
    }
  }

  lemma OverlayBytes(mem: seq<Byte>, recs: seq<Record>, at: nat, data: seq<Byte>, src: seq<Record>, c: nat)
    requires c > 0 && Holds(mem, recs, c) && Holds(data, src, c)
    requires at < |recs| && |src| <= |recs| && Bytes(at, c) < |mem| && |data| <= |mem|
    requires Uniform(Overlay(recs, at, src), c)
    ensures Holds(Overlay(mem, Bytes(at, c), data), Overlay(recs, at, src), c)
  {
    var n := |recs|;
    var recs', mem' := Overlay(recs, at, src), Overlay(mem, Bytes(at, c), data);
    forall q, o | 0 <= q < n && 0 <= o < c
      ensures Bytes(q, c) + o < |mem'| && mem'[Bytes(q, c) + o] == recs'[q][o]
    {
      WrapBack(at, q, n);
      OverlayByte(mem, recs, at, data, src, c, Wrap(q + n - at, n), o);
    }
  }

  lemma WrapBack(at: nat, q: nat, n: nat)
    requires at < n && q < n
    ensures Wrap(at + Wrap(q + n - at, n), n) == q
  {
  }

  lemma OverlayByte(
      mem: seq<Byte>, recs: seq<Record>, at: nat, data: seq<Byte>, src: seq<Record>, c: nat, k: nat, o: nat)
    requires Holds(mem, recs, c) && Holds(data, src, c)
    requires at < |recs| && |src| <= |recs| && k < |recs| && o < c
    requires Bytes(at, c) < |mem| && |data| <= |mem|
    ensures var q := Wrap(at + k, |recs|);
      && Bytes(q, c) + o < |mem|
      && |Overlay(recs, at, src)[q]| == c
      && Overlay(mem, Bytes(at, c), data)[Bytes(q, c) + o] == Overlay(recs, at, src)[q][o]
  {
    var q := Wrap(at + k, |recs|);
    BytesOrder(q, |recs|, c);
    BytesOrder(k, |recs|, c);
    BytesAdd(at, k, c);
    WrapScale(at + k, |recs|, c, o);
    OverlayAt(recs, at, src, k);
    OverlayAt(mem, Bytes(at, c), data, Bytes(k, c) + o);
    assert recs[q][o] == mem[Bytes(q, c) + o];
    if k < |src| {
      assert src[k][o] == data[Bytes(k, c) + o];
    } else {
      BytesOrder(|src|, k, c);
    }
  }

  lemma LastNScale(data: seq<Byte>, src: seq<Record>, n: nat, c: nat)
    requires c > 0 && Holds(data, src, c)
    ensures Holds(LastN(data, Bytes(n, c)), LastN(src, n), c)
  {
    if |src| > n {
      BytesOrder(n, |src|, c);
      LastRun(data, src, |src| - n, n, c, LastN(data, Bytes(n, c)), LastN(src, n));
    } else {
      BytesOrder(|src|, n, c);
    }
  }

  lemma LastRun(data: seq<Byte>, src: seq<Record>, i: nat, n: nat, c: nat, bytes: seq<Byte>, run: seq<Record>)
    requires Holds(data, src, c) && i + n == |src|
    requires Bytes(n, c) <= |data| && bytes == data[|data| - Bytes(n, c)..] && run == src[i..]
    ensures Holds(bytes, run, c)
  {
    BytesAdd(i, n, c);
    HoldsRun(data, src, c, i, n, |src|, bytes, run);
  }

  /** Pushing whole records on the byte ring is pushing them on the record
      ring: head and size stay multiples of the record size, so no record is
      ever split. */
  lemma PushScale(b: Ring<Byte>, r: Ring<Record>, data: seq<Byte>, src: seq<Record>, c: nat)
    requires Lays(b, r, c) && Holds(data, src, c)
    ensures Lays(PushMany(b, data), PushMany(r, src), c)
  {
    PushMemScale(b, r, data, src, c);
    GrowScale(r, |LastN(src, |r.mem|)|, c);
  }

  lemma PushMemScale(b: Ring<Byte>, r: Ring<Record>, data: seq<Byte>, src: seq<Record>, c: nat)
    requires Lays(b, r, c) && Holds(data, src, c)
    ensures Holds(PushMany(b, data).mem, PushMany(r, src).mem, c)
    ensures |LastN(data, |b.mem|)| == Bytes(|LastN(src, |r.mem|)|, c)
  {
    LastNScale(data, src, |r.mem|, c);
    SlotScale(b, r, c, r.size, 0);
    OverlayScale(b.mem, r.mem, r.Slot(r.size), LastN(data, |b.mem|), LastN(src, |r.mem|), c);
  }

  lemma GrowScale(r: Ring<Record>, k: nat, c: nat)
    requires c > 0 && r.Valid() && k <= |r.mem|
    ensures Bytes(r.size, c) + Bytes(k, c) == Bytes(r.size + k, c)
    ensures Bytes(r.size + k, c) > Bytes(|r.mem|, c) <==> r.size + k > |r.mem|
    ensures r.size + k > |r.mem| ==>
      var h := r.head + r.size + k - |r.mem|;
      && Bytes(h, c) == Bytes(r.head, c) + Bytes(r.size, c) + Bytes(k, c) - Bytes(|r.mem|, c)
      && Bytes(h, c) < 2 * Bytes(|r.mem|, c)
      && Wrap(Bytes(h, c), Bytes(|r.mem|, c)) == Bytes(Wrap(h, |r.mem|), c)
  {
    var n, grown := |r.mem|, r.size + k;
    BytesAdd(r.size, k, c);
    BytesOrder(grown, n, c);
    BytesOrder(n, grown, c);
    if grown > n {
      WrapScale(r.head + grown - n, n, c, 0);
      BytesAdd(r.head, grown - n, c);
    }
  }

  lemma ContentsScale(b: Ring<Byte>, r: Ring<Record>, c: nat)
    requires Lays(b, r, c)
    ensures Holds(b.Contents(), r.Contents(), c)
  {
    var recs, bytes := r.Contents(), b.Contents();
    forall q, o | 0 <= q < r.size && 0 <= o < c
      ensures Bytes(q, c) + o < |bytes| && bytes[Bytes(q, c) + o] == recs[q][o]
    {
      BytesOrder(q, r.size, c);
      SlotScale(b, r, c, q, o);
      assert r.mem[r.Slot(q)][o] == b.mem[b.Slot(Bytes(q, c) + o)];
    }
  }

  /** A run of records that does not go round the end of the array is one
      contiguous byte range. */
  lemma RunIsContiguous(b: Ring<Byte>, r: Ring<Record>, c: nat, i: nat, n: nat, bytes: seq<Byte>, run: seq<Record>)
    requires Lays(b, r, c)
    requires i < r.size && i + n <= r.size && r.Slot(i) + n <= |r.mem|
    requires Bytes(r.Slot(i), c) + Bytes(n, c) <= |b.mem|
    requires bytes == b.mem[Bytes(r.Slot(i), c)..Bytes(r.Slot(i), c) + Bytes(n, c)]
    requires run == r.Contents()[i..i + n]
    ensures Holds(bytes, run, c)
  {
    RunRead(r, i, n);
    HoldsRun(b.mem, r.mem, c, r.Slot(i), n, r.Slot(i) + n, bytes, run);
  }

  /** Slots that hold the same records are the same bytes. */
  lemma SameSlotsSameBytes(
      b: Ring<Byte>, r: Ring<Record>, b': Ring<Byte>, r': Ring<Record>, c: nat,
      s: nat, n: nat, x: seq<Byte>, y: seq<Byte>)
    requires Lays(b, r, c) && Lays(b', r', c) && s + n <= |r.mem| == |r'.mem|
    requires r.mem[s..s + n] == r'.mem[s..s + n]
    requires Bytes(s, c) + Bytes(n, c) <= |b.mem| == |b'.mem|
    requires x == b.mem[Bytes(s, c)..Bytes(s, c) + Bytes(n, c)]
    requires y == b'.mem[Bytes(s, c)..Bytes(s, c) + Bytes(n, c)]
    ensures x == y
  {
    var run := r.mem[s..s + n];
    HoldsRun(b.mem, r.mem, c, s, n, s + n, x, run);
    HoldsRun(b'.mem, r'.mem, c, s, n, s + n, y, run);
    HoldsSameBytes(x, y, run, c);
  }
}
