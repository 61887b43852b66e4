/** A byte as eight bits. The reinterpretation of a uint8_t as bits is written
    out bit by bit, so that the rest of the project can move between arithmetic
    on bytes and bitwise operations on them without a cast. */
module ByteBits {
  import opened Bytes

  function Pick(p: bool, w: bv8): bv8 { if p then w else 0 }

  function Pack(p7: bool, p6: bool, p5: bool, p4: bool, p3: bool, p2: bool, p1: bool, p0: bool): bv8 {
    Pick(p7, 128) | Pick(p6, 64) | Pick(p5, 32) | Pick(p4, 16)
    | Pick(p3, 8) | Pick(p2, 4) | Pick(p1, 2) | Pick(p0, 1)
  }

  predicate Odd(n: int) { n % 2 == 1 }

  function Half(n: int): int { n / 2 }

  function Twice(n: int, p: bool): int { 2 * n + if p then 1 else 0 }

  function Bits(b: Byte): bv8 {
    var b1 := Half(b);
    var b2 := Half(b1);
    var b3 := Half(b2);
    var b4 := Half(b3);
    var b5 := Half(b4);
    var b6 := Half(b5);
    var b7 := Half(b6);
    Pack(Odd(b7), Odd(b6), Odd(b5), Odd(b4), Odd(b3), Odd(b2), Odd(b1), Odd(b))
  }

  function Value(w: bv8): (r: Byte) {
    var h7 := Twice(0, w & 128 != 0);
    var h6 := Twice(h7, w & 64 != 0);
    var h5 := Twice(h6, w & 32 != 0);
    var h4 := Twice(h5, w & 16 != 0);
    var h3 := Twice(h4, w & 8 != 0);
    var h2 := Twice(h3, w & 4 != 0);
    var h1 := Twice(h2, w & 2 != 0);
    Twice(h1, w & 1 != 0)
  }

  lemma PackBit(p7: bool, p6: bool, p5: bool, p4: bool, p3: bool, p2: bool, p1: bool, p0: bool)
    ensures var w := Pack(p7, p6, p5, p4, p3, p2, p1, p0);
            (w & 128 != 0) == p7 && (w & 64 != 0) == p6 && (w & 32 != 0) == p5 && (w & 16 != 0) == p4
            && (w & 8 != 0) == p3 && (w & 4 != 0) == p2 && (w & 2 != 0) == p1 && (w & 1 != 0) == p0
  {
  }

  lemma TwiceHalf(n: int)
    ensures Twice(Half(n), Odd(n)) == n
  {
  }

  lemma HalfTwice(n: int, p: bool)
    ensures Half(Twice(n, p)) == n && Odd(Twice(n, p)) == p
  {
  }

  lemma HalfSmall(b: Byte)
    ensures Half(Half(Half(Half(Half(Half(Half(Half(b)))))))) == 0
  {
  }

  lemma ValueBits(b: Byte)
    ensures Value(Bits(b)) == b
  {
    var b1 := Half(b);
    var b2 := Half(b1);
    var b3 := Half(b2);
    var b4 := Half(b3);
    var b5 := Half(b4);
    var b6 := Half(b5);
    var b7 := Half(b6);
    PackBit(Odd(b7), Odd(b6), Odd(b5), Odd(b4), Odd(b3), Odd(b2), Odd(b1), Odd(b));
    HalfSmall(b);
    hide Pack, Odd, Half, Twice;
    TwiceHalf(b7);
    TwiceHalf(b6);
    TwiceHalf(b5);
    TwiceHalf(b4);
    TwiceHalf(b3);
    TwiceHalf(b2);
    TwiceHalf(b1);
    TwiceHalf(b);
  }

  lemma Unary(w: bv8)
    ensures w == Pack(w & 128 != 0, w & 64 != 0, w & 32 != 0, w & 16 != 0,
                      w & 8 != 0, w & 4 != 0, w & 2 != 0, w & 1 != 0)
  {
  }

  lemma BitsValue(w: bv8)
    ensures Bits(Value(w)) == w
  {
    Unary(w);
    hide Pack, Odd, Half, Twice;
    var h7 := Twice(0, w & 128 != 0);
    var h6 := Twice(h7, w & 64 != 0);
    var h5 := Twice(h6, w & 32 != 0);
    var h4 := Twice(h5, w & 16 != 0);
    var h3 := Twice(h4, w & 8 != 0);
    var h2 := Twice(h3, w & 4 != 0);
    var h1 := Twice(h2, w & 2 != 0);
    HalfTwice(0, w & 128 != 0);
    HalfTwice(h7, w & 64 != 0);
    HalfTwice(h6, w & 32 != 0);
    HalfTwice(h5, w & 16 != 0);
    HalfTwice(h4, w & 8 != 0);
    HalfTwice(h3, w & 4 != 0);
    HalfTwice(h2, w & 2 != 0);
    HalfTwice(h1, w & 1 != 0);
  }
}
