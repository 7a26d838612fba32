/** CircularBuffer: the mutable ring over a fixed array. A block handed over as
    pointer and count is a seq here. */
module Buffers {
  import opened Rings

  /** The `% capacity` of every index computation. */
  method Reduce(i: nat, cap: nat) returns (r: nat)
    requires i < 2 * cap
    ensures r == Wrap(i, cap)
  {
    WrapIsMod(i, cap);
    r := i % cap;
  }

  class CircularBuffer<T(0)> {
    var arr: array<T>
    var head: nat
    var size: nat

    ghost predicate Valid()
      reads this
    {
      head < arr.Length && size <= arr.Length
    }

    /** The state as a value. */
    ghost function View(): (r: Ring<T>)
      reads this, arr
      requires Valid()
      ensures r.Valid()
    {
      Ring(arr[..], head, size)
    }

    constructor (capacity: nat)
      requires capacity > 0
      ensures Valid() && fresh(arr)
      ensures arr.Length == capacity && head == 0 && size == 0
    {
      arr := new T[capacity];
      head, size := 0, 0;
    }

    method CopyChunk(src: seq<T>, dst: nat)
      requires dst + |src| <= arr.Length
      modifies arr
      ensures arr[..] == Splice(old(arr[..]), dst, src)
    {
      for i := 0 to |src|
        invariant arr[..] == old(arr[..dst]) + src[..i] + old(arr[dst + i..])
      {
        arr[dst + i] := src[i];
      }
    }

    /** The two chunk copies of push_many. */
    method CopyAround(src: seq<T>, tail: nat)
      requires tail < arr.Length && |src| <= arr.Length
      modifies arr
      ensures arr[..] == Overlay(old(arr[..]), tail, src)
    {
      var chunk1 := if |src| < arr.Length - tail then |src| else arr.Length - tail;
      CopyChunk(src[..chunk1], tail);
      CopyChunk(src[chunk1..], 0);
      TwoChunks(old(arr[..]), tail, src, arr[..]);
    }

    method PushMany(source: seq<T>)
      requires Valid()
      modifies this`head, this`size, arr
      ensures Valid() && arr == old(arr)
      ensures View() == Rings.PushMany(old(View()), source)
    {
      if |source| == 0 {
        PushNothing(View(), source);
        return;
      }
      var cap := arr.Length;
      var src := if |source| > cap then source[|source| - cap..] else source;
      var count := |src|;
      var tail := Reduce(head + size, cap);
      CopyAround(src, tail);
      var grown := size + count;
      if grown > cap {
        size := cap;
        head := Reduce(head + grown - cap, cap);
      } else {
        size := grown;
      }
    }

    method PeekManyAt(index: nat, count: nat) returns (dest: seq<T>)
      requires Valid()
      requires index + count <= size
      ensures dest == View().Contents()[index..index + count]
    {
      if count == 0 {
        return [];
      }
      var cap := arr.Length;
      var start := Reduce(head + index, cap);
      var chunk1 := if count < cap - start then count else cap - start;
      dest := arr[start..start + chunk1];
      if chunk1 < count {
        dest := dest + arr[..count - chunk1];
      }
      TwoReads(View(), index, count);
    }

    method EmplaceBack(item: T)
      requires Valid()
      modifies this`head, this`size, arr
      ensures Valid() && arr == old(arr)
      ensures View() == Rings.PushBack(old(View()), item)
    {
      var at := Reduce(head + size, arr.Length);
      arr[at] := item;
      if size == arr.Length {
        head := Reduce(head + 1, arr.Length);
      } else {
        size := size + 1;
      }
    }

    method PopMany(count: nat)
      requires Valid() && count <= size
      modifies this`head, this`size
      ensures Valid()
      ensures View() == Rings.PopMany(old(View()), count)
      ensures View().Contents() == old(View()).Contents()[count..]
    {
      PopManyContents(View(), count);
      head := Reduce(head + count, arr.Length);
      size := size - count;
    }

    method PopFront()
      requires Valid() && size > 0
      modifies this`head, this`size
      ensures Valid()
      ensures View().Contents() == old(View()).Contents()[1..]
    {
      PopMany(1);
    }

    method PopBack()
      requires Valid() && size > 0
      modifies this`size
      ensures Valid()
      ensures View().Contents() == old(View()).Contents()[..old(size) - 1]
    {
      size := size - 1;
    }

    method Clear()
      requires Valid()
      modifies this`head, this`size
      ensures Valid() && View().Contents() == []
    {
      if size == 0 {
        return;
      }
      head, size := 0, 0;
    }

    method Reserve(newCapacity: nat)
      requires Valid()
      modifies this
      ensures Valid() && View().Contents() == old(View()).Contents()
      ensures arr.Length == if newCapacity <= old(arr.Length) then old(arr.Length) else newCapacity
      ensures if newCapacity <= old(arr.Length) then View() == old(View()) else fresh(arr) && head == 0
    {
      if newCapacity <= arr.Length {
        return;
      }
      var tmp := new CircularBuffer<T>(newCapacity);
      var chunk1 := if size < arr.Length - head then size else arr.Length - head;
      var chunk2 := size - chunk1;
      var part1, part2 := arr[head..head + chunk1], arr[..chunk2];
      ghost var empty := tmp.View();
      tmp.PushMany(part1);
      if chunk2 > 0 {
        tmp.PushMany(part2);
      }
      Regrown(View(), empty, part1, part2);
      arr, head, size := tmp.arr, tmp.head, tmp.size;
    }
  }

  lemma PushNothing<T>(r: Ring<T>, source: seq<T>)
    requires r.Valid() && source == []
    ensures Rings.PushMany(r, source) == r
  {
    PushManyIsFoldPhysically(r, source);
  }

  lemma PushTwo<T>(empty: Ring<T>, part1: seq<T>, part2: seq<T>)
    requires empty.Valid() && empty.size == 0 && |part1| + |part2| <= |empty.mem|
    ensures var grown := Rings.PushMany(Rings.PushMany(empty, part1), part2);
      grown.Contents() == part1 + part2 && grown.head == empty.head
  {
    var first := Rings.PushMany(empty, part1);
    PushFits(empty, part1);
    assert empty.Contents() + part1 == part1;
    assert |first.Contents()| == first.size;
    PushFits(first, part2);
  }

  /** Moving the two stretches of a ring into an empty, larger one keeps the
      contents and starts it at index 0. */
  lemma Regrown<T>(r: Ring<T>, empty: Ring<T>, part1: seq<T>, part2: seq<T>)
    requires r.Valid() && empty.Valid() && empty.head == 0 && empty.size == 0 && |empty.mem| > |r.mem|
    requires var c1 := if r.size < |r.mem| - r.head then r.size else |r.mem| - r.head;
      part1 == r.mem[r.head..r.head + c1] && part2 == r.mem[..r.size - c1]
    ensures var grown := Rings.PushMany(Rings.PushMany(empty, part1), part2);
      grown.Contents() == r.Contents() && grown.head == 0
    ensures part2 == [] ==> Rings.PushMany(Rings.PushMany(empty, part1), part2) == Rings.PushMany(empty, part1)
  {
    var first := Rings.PushMany(empty, part1);
    assert part1 + part2 == r.Contents() by {
      TwoReads(r, 0, r.size);
      assert r.Contents()[0..r.size] == r.Contents();
    }
    PushTwo(empty, part1, part2);
    if part2 == [] { PushNothing(first, part2); }
  }
}
