/** The number a byte stands for. */
module ByteValues {
  function ByteOf(n: nat): bv8
    requires n < 256
  {
    if n == 0 then 0 else ByteOf(n - 1) + 1
  }

  function ValueOf(x: bv8): (n: nat)
    ensures n < 256
  {
    x as nat
  }

  lemma Successor(x: bv8)
    requires x != 255
    ensures (x + 1) as nat == x as nat + 1
  {
  }

  lemma SameNumber(x: bv8, y: bv8)
    requires x as nat == y as nat
    ensures x == y
  {
  }

  lemma {:induction false} ByteRoundTrip(n: nat)
    requires n < 256
    ensures ValueOf(ByteOf(n)) == n
  {
    if n > 0 {
      ByteRoundTrip(n - 1);
      Successor(ByteOf(n - 1));
    }
  }

  lemma ValueRoundTrip(x: bv8)
    ensures ByteOf(ValueOf(x)) == x
  {
    ByteRoundTrip(ValueOf(x));
    SameNumber(ByteOf(ValueOf(x)), x);
  }
}

/** Numbers as the bytes of packed headers: unsigned, least significant byte
    first. */
module Wire {
  import opened Chunks
  import Rings
  import opened ByteValues

  /** 256 to the power k. */
  function Limit(k: nat): (l: nat)
    ensures l > 0
  {
    if k == 0 then 1 else 256 * Limit(k - 1)
  }

  function Encode(n: nat, k: nat): (b: seq<Byte>)
    ensures |b| == k
    decreases n, k
  {
    if k == 0 then [] else [ByteOf(n % 256)] + Encode(n / 256, k - 1)
  }

  function Decode(b: seq<Byte>): (n: nat)
    ensures n < Limit(|b|)
  {
    if b == [] then 0 else ValueOf(b[0]) + 256 * Decode(b[1..])
  }

  /** A number that fits in k bytes survives them. */
  lemma {:induction false} DecodeEncode(n: nat, k: nat)
    requires n < Limit(k)
    ensures Decode(Encode(n, k)) == n
  {
    if k > 0 {
      DecodeEncode(n / 256, k - 1);
      ByteRoundTrip(n % 256);
      Front(ByteOf(n % 256), Encode(n / 256, k - 1));
    }
  }

  lemma Front(x: Byte, rest: seq<Byte>)
    ensures Decode([x] + rest) == ValueOf(x) + 256 * Decode(rest)
  {
    assert ([x] + rest)[1..] == rest;
  }

  /** Every string of bytes is the encoding of its number. */
  lemma {:induction false} EncodeDecode(b: seq<Byte>)
    ensures Encode(Decode(b), |b|) == b
  {
    if b != [] {
      EncodeDecode(b[1..]);
      var n, rest := ValueOf(b[0]), Decode(b[1..]);
      Rings.MulMod(rest, 256, n);
      assert (n + 256 * rest) / 256 == rest;
      ValueRoundTrip(b[0]);
    }
  }

  /** Low bytes first: what follows x counts 256 times as much for each byte of
      x. (Bytes is multiplication.) */
  lemma {:induction false} DecodeAppend(x: seq<Byte>, y: seq<Byte>)
    ensures Decode(x + y) == Decode(x) + Bytes(Limit(|x|), Decode(y))
  {
    if x == [] {
      assert x + y == y;
      BytesIsMul(1, Decode(y));
    } else {
      DecodeAppend(x[1..], y);
      DecodeFirst(x);
      DecodeFirst(x + y);
      assert (x + y)[1..] == x[1..] + y;
      Carry(Limit(|x| - 1), Decode(y));
    }
  }

  lemma DecodeFirst(b: seq<Byte>)
    requires b != []
    ensures Decode(b) == ValueOf(b[0]) + 256 * Decode(b[1..])
  {
  }

  lemma Carry(l: nat, y: nat)
    ensures Bytes(256 * l, y) == 256 * Bytes(l, y)
  {
    BytesIsMul(l, y);
    BytesIsMul(256 * l, y);
    assert (256 * l) * y == 256 * (l * y);
  }

  lemma {:induction false} AllZero(b: seq<Byte>)
    ensures Decode(b) == 0 <==> forall i | 0 <= i < |b| :: b[i] == 0
  {
    if b != [] {
      AllZero(b[1..]);
      assert forall i | 1 <= i < |b| :: b[i] == b[1..][i - 1];
      ZeroByte(b[0]);
    }
  }

  lemma ZeroByte(x: Byte)
    ensures ValueOf(x) == 0 <==> x == 0
  {
    if ValueOf(x) == 0 { SameNumber(x, 0); }
  }

  lemma OneByte(b: seq<Byte>)
    requires |b| == 1
    ensures Encode(ValueOf(b[0]), 1) == b
  {
    DecodeFirst(b);
    EncodeDecode(b);
  }

  lemma FourValue(b: seq<Byte>)
    requires |b| == 4
    ensures Decode(b) == ValueOf(b[0]) + 0x100 * ValueOf(b[1]) + 0x1_0000 * ValueOf(b[2]) + 0x100_0000 * ValueOf(b[3])
  {
    var b1, b2, b3 := b[1..], b[2..], b[3..];
    assert b1[1..] == b2 && b2[1..] == b3 && b3[1..] == [];
    DecodeFirst(b);
    DecodeFirst(b1);
    DecodeFirst(b2);
    DecodeFirst(b3);
  }

  /** The four bytes of a number, the least significant first. */
  lemma FourBytes(b: seq<Byte>)
    requires |b| == 4
    ensures var n := ValueOf(b[0]) + 0x100 * ValueOf(b[1]) + 0x1_0000 * ValueOf(b[2]) + 0x100_0000 * ValueOf(b[3]);
      Encode(n, 4) == b
  {
    FourValue(b);
    EncodeDecode(b);
  }
}
