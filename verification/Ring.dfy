/** The ring-index arithmetic of CircularBuffer, as pure functions on a value:
    a backing array, a head index and an element count. The class in
    CircularBuffer.dfy is proved to compute exactly these functions; the
    meaning of the functions (an overwrite-oldest window over everything ever
    pushed) is proved here. */
module Rings {

  /** Index i reduced into 0..cap-1, for an i that went round at most once. */
  function Wrap(i: nat, cap: nat): (r: nat)
    requires i < 2 * cap
    ensures r < cap
  {
    if i < cap then i else i - cap
  }

  lemma WrapIsMod(i: nat, cap: nat)
    requires i < 2 * cap
    ensures i % cap == Wrap(i, cap)
  {
    if i >= cap {
      assert i == cap * 1 + (i - cap);
    }
  }

  /** The last n elements of s, or all of s when it is shorter. */
  function LastN<T>(s: seq<T>, n: nat): (r: seq<T>)
    ensures |r| == if |s| < n then |s| else n
  {
    if |s| <= n then s else s[|s| - n..]
  }

  datatype Ring<T> = Ring(mem: seq<T>, head: nat, size: nat)
  {
    predicate Valid() {
      head < |mem| && size <= |mem|
    }

    /** Physical index of the i-th element counted from the oldest one. */
    function Slot(i: nat): nat
      requires head < |mem| && i <= |mem|
    {
      Wrap(head + i, |mem|)
    }

    /** The stored elements, oldest first. */
    function Contents(): (s: seq<T>)
      requires Valid()
      ensures |s| == size
    {
      seq(size, i requires 0 <= i < size => mem[Slot(i)])
    }
  }

  // ---------------------------------------------------------------------------
  // Pushing
  // ---------------------------------------------------------------------------

  /** mem after src has been written from index `at` on, going round the end. */
  function Overlay<T>(mem: seq<T>, at: nat, src: seq<T>): (r: seq<T>)
    requires at < |mem| && |src| <= |mem|
    ensures |r| == |mem|
  {
    seq(|mem|, j requires 0 <= j < |mem| =>
      var k := Wrap(j + |mem| - at, |mem|);
      if k < |src| then src[k] else mem[j])
  }

  lemma OverlayAt<T>(mem: seq<T>, at: nat, src: seq<T>, k: nat)
    requires at < |mem| && |src| <= |mem| && k < |mem|
    ensures var j := Wrap(at + k, |mem|);
      Overlay(mem, at, src)[j] == if k < |src| then src[k] else mem[j]
  {
    assert Wrap(Wrap(at + k, |mem|) + |mem| - at, |mem|) == k;
  }

  lemma OverlaySnoc<T>(mem: seq<T>, at: nat, src: seq<T>, x: T)
    requires at < |mem| && |src| < |mem|
    ensures Overlay(mem, at, src + [x]) == Overlay(mem, at, src)[Wrap(at + |src|, |mem|) := x]
  {
    forall j | 0 <= j < |mem|
      ensures Overlay(mem, at, src + [x])[j] == Overlay(mem, at, src)[Wrap(at + |src|, |mem|) := x][j]
    {
      var k := Wrap(j + |mem| - at, |mem|);
      assert j == Wrap(at + k, |mem|);
    }
  }

  lemma OverlayNothing<T>(mem: seq<T>, at: nat, src: seq<T>)
    requires at < |mem| && src == []
    ensures Overlay(mem, at, src) == mem
  {
    forall j | 0 <= j < |mem| ensures Overlay(mem, at, src)[j] == mem[j] {
      OverlayAt(mem, at, src, Wrap(j + |mem| - at, |mem|));
    }
  }

  /** push_many: an oversized block is cut to its last `capacity` elements
      before the tail is computed, then written at the tail. */
  function PushMany<T>(r: Ring<T>, src: seq<T>): (r': Ring<T>)
    requires r.Valid()
    ensures r'.Valid() && |r'.mem| == |r.mem|
  {
    var cap := |r.mem|;
    var kept := LastN(src, cap);
    var mem' := Overlay(r.mem, r.Slot(r.size), kept);
    var grown := r.size + |kept|;
    if grown > cap then Ring(mem', Wrap(r.head + grown - cap, cap), cap)
    else Ring(mem', r.head, grown)
  }

  /** emplace_back / push_back. */
  function PushBack<T>(r: Ring<T>, x: T): (r': Ring<T>)
    requires r.Valid()
    ensures r'.Valid() && |r'.mem| == |r.mem|
  {
    var mem' := r.mem[r.Slot(r.size) := x];
    if r.size == |r.mem| then Ring(mem', Wrap(r.head + 1, |r.mem|), r.size)
    else Ring(mem', r.head, r.size + 1)
  }

  function PushEach<T>(r: Ring<T>, src: seq<T>): (r': Ring<T>)
    requires r.Valid()
    ensures r'.Valid() && |r'.mem| == |r.mem|
  {
    if src == [] then r else PushBack(PushEach(r, src[..|src| - 1]), src[|src| - 1])
  }

  lemma PushManyAt<T>(r: Ring<T>, src: seq<T>, i: nat)
    requires r.Valid() && i < PushMany(r, src).size
    ensures var kept, r' := LastN(src, |r.mem|), PushMany(r, src);
      var was := i + (r.size + |kept| - r'.size);
      && (was < r.size ==> r'.Slot(i) == r.Slot(was))
      && r'.mem[r'.Slot(i)] == if was < r.size then r.mem[r.Slot(was)] else kept[was - r.size]
  {
    var cap := |r.mem|;
    var kept, r' := LastN(src, cap), PushMany(r, src);
    var was := i + (r.size + |kept| - r'.size);
    var at := r.Slot(r.size);
    var k := if was < r.size then was - r.size + cap else was - r.size;
    assert r'.Slot(i) == Wrap(at + k, cap);
    OverlayAt(r.mem, at, kept, k);
  }

  /** What a block push means: the ring holds the last `capacity` elements of
      the old contents followed by the block. */
  lemma PushManyContents<T>(r: Ring<T>, src: seq<T>)
    requires r.Valid()
    ensures PushMany(r, src).Contents() == LastN(r.Contents() + src, |r.mem|)
  {
    var cap := |r.mem|;
    var kept := LastN(src, cap);
    var r' := PushMany(r, src);
    var all := LastN(r.Contents() + src, cap);
    assert |all| == r'.size;
    var dropped := r.size + |kept| - r'.size;
    forall i | 0 <= i < r'.size ensures r'.Contents()[i] == all[i] {
      PushManyAt(r, src, i);
      if i + dropped < r.size {
        assert all[i] == r.Contents()[i + dropped];
      } else {
        assert all[i] == kept[i + dropped - r.size];
      }
    }
  }

  lemma PushBackContents<T>(r: Ring<T>, x: T)
    requires r.Valid()
    ensures PushBack(r, x).Contents() == LastN(r.Contents() + [x], |r.mem|)
  {
    var r' := PushBack(r, x);
    var all := LastN(r.Contents() + [x], |r.mem|);
    var dropped := r.size + 1 - r'.size;
    forall i | 0 <= i < r'.size ensures r'.Contents()[i] == all[i] {
      if i + dropped < r.size {
        assert r'.Slot(i) == r.Slot(i + dropped);
      } else {
        assert r'.Slot(i) == r.Slot(r.size);
      }
    }
  }

  /** A block that fits leaves the head where it is. */
  lemma PushFits<T>(r: Ring<T>, src: seq<T>)
    requires r.Valid() && r.size + |src| <= |r.mem|
    ensures PushMany(r, src).head == r.head
    ensures PushMany(r, src).Contents() == r.Contents() + src
  {
    PushManyContents(r, src);
  }

  lemma LastNAppend<T>(s: seq<T>, t: seq<T>, n: nat)
    ensures LastN(LastN(s, n) + t, n) == LastN(s + t, n)
  {
    if |s| > n {
      var d := |s| - n;
      assert LastN(s, n) + t == (s + t)[d..];
    }
  }

  /** One block push and the fold of push_back over the block read the same,
      for every block length, also beyond the capacity. */
  lemma {:induction false} PushManyIsFold<T>(r: Ring<T>, src: seq<T>)
    requires r.Valid()
    ensures PushEach(r, src).Contents() == PushMany(r, src).Contents()
  {
    PushManyContents(r, src);
    PushEachContents(r, src);
  }

  lemma {:induction false} PushEachContents<T>(r: Ring<T>, src: seq<T>)
    requires r.Valid()
    ensures PushEach(r, src).Contents() == LastN(r.Contents() + src, |r.mem|)
  {
    if src == [] {
      assert r.Contents() + src == r.Contents();
    } else {
      var n := |src| - 1;
      var init, x := src[..n], src[n];
      PushEachContents(r, init);
      PushBackContents(PushEach(r, init), x);
      LastNSnoc(r.Contents(), src, |r.mem|);
    }
  }

  lemma LastNSnoc<T>(s: seq<T>, t: seq<T>, n: nat)
    requires t != []
    ensures LastN(LastN(s + t[..|t| - 1], n) + [t[|t| - 1]], n) == LastN(s + t, n)
  {
    LastNAppend(s + t[..|t| - 1], [t[|t| - 1]], n);
    assert s + t[..|t| - 1] + [t[|t| - 1]] == s + t;
  }

  /** A block that fits leaves the very same array, head and size as pushing
      its elements one by one. */
  lemma {:induction false} PushManyIsFoldPhysically<T>(r: Ring<T>, src: seq<T>)
    requires r.Valid() && |src| <= |r.mem|
    ensures PushMany(r, src) == PushEach(r, src)
  {
    if src == [] {
      OverlayNothing(r.mem, r.Slot(r.size), src);
    } else {
      var n := |src| - 1;
      var init, x := src[..n], src[n];
      PushManyIsFoldPhysically(r, init);
      var p, q := PushMany(r, init), PushMany(r, src);
      var at := r.Slot(r.size);
      assert p.Slot(p.size) == Wrap(at + n, |r.mem|);
      OverlaySnoc(r.mem, at, init, x);
      assert init + [x] == src;
    }
  }

  lemma {:induction false} PushEachHead<T>(r: Ring<T>, src: seq<T>)
    requires r.Valid()
    ensures PushEach(r, src).size == if r.size + |src| < |r.mem| then r.size + |src| else |r.mem|
    ensures PushEach(r, src).head
         == if r.size + |src| <= |r.mem| then r.head else (r.head + r.size + |src| - |r.mem|) % |r.mem|
  {
    var cap := |r.mem|;
    if src != [] {
      var n := |src| - 1;
      PushEachHead(r, src[..n]);
      if r.size + n >= cap {
        var h := r.head + r.size + n - cap;
        if r.size + n == cap { WrapIsMod(r.head, cap); }
        ModStep(h, cap);
      }
    }
  }

  lemma ModStep(h: nat, cap: nat)
    requires cap > 0
    ensures (h + 1) % cap == Wrap(h % cap + 1, cap)
  {
    var q := h / cap;
    assert h == q * cap + h % cap;
    if h % cap + 1 == cap {
      assert h + 1 == (q + 1) * cap;
      assert (q + 1) * cap % cap == 0 by { MulMod(q + 1, cap, 0); }
    } else {
      MulMod(q, cap, h % cap + 1);
    }
  }

  lemma {:induction false} MulMod(q: nat, c: nat, r: nat)
    requires r < c
    ensures (q * c + r) / c == q && (q * c + r) % c == r
  {
    if q > 0 {
      MulMod(q - 1, c, r);
      assert q * c + r == (q - 1) * c + r + c;
      DivModShift((q - 1) * c + r, c);
    }
  }

  lemma DivModShift(x: nat, c: nat)
    requires c > 0
    ensures (x + c) / c == x / c + 1 && (x + c) % c == x % c
  {
    var q, q' := x / c, (x + c) / c;
    assert x == c * q + x % c && x + c == c * q' + (x + c) % c;
    var d := q' - q - 1;
    assert c * d == c * q' - c * q - c;
    SmallMultiple(d, c);
  }

  lemma SmallMultiple(d: int, c: int)
    requires -c < c * d < c
    ensures d == 0
  {
    assert d >= 1 ==> c * d >= c;
    assert d <= -1 ==> c * d <= -c;
  }

  /** Beyond the capacity the two disagree on where the window starts, because
      push_many cuts the block before it computes the tail. The heads coincide
      exactly when the cut is a whole number of capacities. */
  lemma OversizedPushPhase<T>(r: Ring<T>, src: seq<T>)
    requires r.Valid() && |src| > |r.mem|
    ensures PushMany(r, src).head == PushEach(r, src).head <==> (|src| - |r.mem|) % |r.mem| == 0
  {
    var cap := |r.mem|;
    var d, x := |src| - cap, r.head + r.size;
    assert PushMany(r, src).head == x % cap by { WrapIsMod(x, cap); }
    assert PushEach(r, src).head == (x + d) % cap by { PushEachHead(r, src); }
    SameResidue(x, d, cap);
  }

  lemma SameResidue(x: nat, d: nat, c: nat)
    requires c > 0
    ensures (x + d) % c == x % c <==> d % c == 0
  {
    var qx, rx, qd, rd := x / c, x % c, d / c, d % c;
    DivModParts(x, c);
    DivModParts(d, c);
    ModSum(qx, rx, qd, rd, c);
    assert x + d == qx * c + rx + (qd * c + rd);
  }

  lemma DivModParts(x: nat, c: nat)
    requires c > 0
    ensures x == x / c * c + x % c
  {
  }

  lemma ModSum(qx: nat, rx: nat, qd: nat, rd: nat, c: nat)
    requires rx < c && rd < c
    ensures (qx * c + rx + (qd * c + rd)) % c == if rx + rd < c then rx + rd else rx + rd - c
  {
    AddDistributes(qx, qd, c);
    if rx + rd < c {
      MulMod(qx + qd, c, rx + rd);
    } else {
      AddDistributes(qx + qd, 1, c);
      MulMod(qx + qd + 1, c, rx + rd - c);
    }
  }

  lemma AddDistributes(a: nat, b: nat, c: nat)
    ensures (a + b) * c == a * c + b * c
  {
  }

  // ---------------------------------------------------------------------------
  // Popping, reading and growing
  // ---------------------------------------------------------------------------

  function PopMany<T>(r: Ring<T>, n: nat): (r': Ring<T>)
    requires r.Valid() && n <= r.size
    ensures r'.Valid() && |r'.mem| == |r.mem|
  {
    Ring(r.mem, r.Slot(n), r.size - n)
  }

  lemma PopManyContents<T>(r: Ring<T>, n: nat)
    requires r.Valid() && n <= r.size
    ensures PopMany(r, n).Contents() == r.Contents()[n..]
  {
    forall i | 0 <= i < r.size - n ensures PopMany(r, n).Contents()[i] == r.Contents()[n..][i] {
      assert PopMany(r, n).Slot(i) == r.Slot(n + i);
    }
  }

  // ---------------------------------------------------------------------------
  // The two-chunk forms
  // ---------------------------------------------------------------------------

  function Splice<T>(mem: seq<T>, dst: nat, src: seq<T>): (r: seq<T>)
    requires dst + |src| <= |mem|
    ensures |r| == |mem|
  {
    mem[..dst] + src + mem[dst + |src|..]
  }

  /** Two copies, up to the end of the array and from its start, write exactly
      what Overlay says. */
  lemma TwoChunks<T>(mem: seq<T>, tail: nat, src: seq<T>, mem': seq<T>)
    requires tail < |mem| && |src| <= |mem|
    requires var c1 := if |src| < |mem| - tail then |src| else |mem| - tail;
      mem' == Splice(Splice(mem, tail, src[..c1]), 0, src[c1..])
    ensures mem' == Overlay(mem, tail, src)
  {
    forall j | 0 <= j < |mem| ensures mem'[j] == Overlay(mem, tail, src)[j] {
      OverlayAt(mem, tail, src, Wrap(j + |mem| - tail, |mem|));
    }
  }

  /** Two reads, up to the end of the array and from its start, give a slice of
      the contents. */
  lemma TwoReads<T>(r: Ring<T>, index: nat, count: nat)
    requires r.Valid() && index + count <= r.size
    ensures var cap := |r.mem|;
      var start := Wrap(r.head + index, cap);
      var c1 := if count < cap - start then count else cap - start;
      r.mem[start..start + c1] + r.mem[..count - c1] == r.Contents()[index..index + count]
  {
    var part := r.Contents()[index..index + count];
    forall i | 0 <= i < count ensures part[i] == r.mem[r.Slot(index + i)] {}
  }

  /** A stretch that does not go round the end is one slice of the array. */
  lemma RunRead<T>(r: Ring<T>, index: nat, count: nat)
    requires r.Valid() && index + count <= r.size && r.Slot(index) + count <= |r.mem|
    ensures r.Contents()[index..index + count] == r.mem[r.Slot(index)..r.Slot(index) + count]
  {
    var part := r.Contents()[index..index + count];
    forall i | 0 <= i < count ensures part[i] == r.mem[r.Slot(index) + i] {
      assert r.Slot(index + i) == r.Slot(index) + i;
    }
  }

  // ---------------------------------------------------------------------------
  // The ring as a window over a history
  // ---------------------------------------------------------------------------

  /** The ring holds the newest part of everything ever pushed. */
  ghost predicate Represents<T>(r: Ring<T>, history: seq<T>) {
    r.Valid() && r.Contents() == LastN(history, |r.mem|)
  }

  lemma PushKeepsHistory<T>(r: Ring<T>, history: seq<T>, src: seq<T>)
    requires Represents(r, history)
    ensures Represents(PushMany(r, src), history + src)
  {
    PushManyContents(r, src);
    LastNAppend(history, src, |r.mem|);
  }

  /** Physical index of the record with absolute position p. */
  function SlotOf<T>(r: Ring<T>, total: nat, p: nat): nat
    requires r.Valid() && r.size <= total && total - r.size <= p <= total
  {
    r.Slot(p - (total - r.size))
  }

  /** Pinned memory: a push of at most `capacity - unread` elements neither
      moves nor overwrites anything from position p on. */
  lemma PushKeepsUnread<T>(r: Ring<T>, total: nat, src: seq<T>, p: nat)
    requires r.Valid() && r.size <= total && total - r.size <= p < total
    requires total - p + |src| <= |r.mem|
    ensures var r' := PushMany(r, src);
      && r'.size <= total + |src| && total + |src| - r'.size <= p
      && SlotOf(r', total + |src|, p) == SlotOf(r, total, p)
      && r'.mem[SlotOf(r, total, p)] == r.mem[SlotOf(r, total, p)]
  {
    PushManyAt(r, src, p - (total + |src| - PushMany(r, src).size));
  }

  /** Converse: one element more and the slot of position p is lost. */
  lemma PushOverwritesBeyondUnread<T>(r: Ring<T>, total: nat, src: seq<T>, p: nat)
    requires r.Valid() && r.size <= total && total - r.size <= p < total
    requires total - p + |src| > |r.mem| >= |src|
    ensures var r' := PushMany(r, src);
      && p < total + |src| - r'.size
      && r'.mem[SlotOf(r, total, p)] == src[|r.mem| - (total - p)]
  {
    OverlayAt(r.mem, r.Slot(r.size), src, |r.mem| - (total - p));
  }
}
