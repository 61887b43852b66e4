/** The bitwise reflected CRC-32 of `fr_crc32.c`: its loops, its GF(2) algebra,
    the errors it must detect, and its equality with the table-driven form of
    section 8 of RFC 1952. */
module Crc32 {
  import opened Bytes
  import opened ByteBits

  const POLY: bv32 := 0xedb88320

  function Xor(a: bv32, b: bv32): bv32 { a ^ b }

  /** One turn of the inner loop. */
  function Step(c: bv32): bv32 {
    if c & 1 != 0 then (c >> 1) ^ POLY else c >> 1
  }

  function Steps(n: nat, c: bv32): bv32 {
    if n == 0 then c else Step(Steps(n - 1, c))
  }

  function Word(b: bv8): bv32 { b as bv32 }

  function BitsOf(data: Bytes): (r: seq<bv8>)
    ensures |r| == |data|
    ensures forall i :: 0 <= i < |data| ==> r[i] == Bits(data[i])
  {
    seq(|data|, i requires 0 <= i < |data| => Bits(data[i]))
  }

  /** The register after `data`, started from `c`. */
  function Reg(c: bv32, data: seq<bv8>): bv32 {
    if data == [] then c
    else Steps(8, Xor(Reg(c, data[..|data| - 1]), Word(data[|data| - 1])))
  }

  const INIT: bv32 := 0xffffffff

  /** CRC-32 of `data` as a number; this is what the method below computes. */
  function Crc(data: Bytes): (r: U32) {
    AsU32(Xor(Reg(INIT, BitsOf(data)), INIT))
  }

  function AsU32(x: bv32): (r: U32) { x as int }

  lemma RegEmpty(c: bv32)
    ensures Reg(c, []) == c
  {
  }

  lemma RegNext(c: bv32, data: Bytes, i: nat)
    requires i < |data|
    ensures Reg(c, BitsOf(data)[..i + 1]) == Steps(8, Xor(Reg(c, BitsOf(data)[..i]), Word(Bits(data[i]))))
  {
    hide Steps, Word, Xor, Bits;
    assert BitsOf(data)[..i + 1][..i] == BitsOf(data)[..i];
  }

  lemma ZeroRegister()
    ensures AsU32(Xor(INIT, INIT)) == 0
  {
  }

  method ComputeCrc(data: Bytes) returns (r: U32)
    ensures r == Crc(data)
  {
    hide Bits, Word, Xor, Step, AsU32, Reg;
    RegEmpty(INIT);
    if |data| == 0 {
      assert BitsOf(data) == [];
      ZeroRegister();
      return 0;
    }
    var crc: bv32 := INIT;
    var i := 0;
    while i < |data|
      invariant 0 <= i <= |data|
      invariant crc == Reg(INIT, BitsOf(data)[..i])
    {
      RegNext(INIT, data, i);
      crc := Xor(crc, Word(Bits(data[i])));
      ghost var start := crc;
      var bit := 0;
      while bit < 8
        invariant 0 <= bit <= 8
        invariant crc == Steps(bit, start)
      {
        crc := Step(crc);
        bit := bit + 1;
      }
      i := i + 1;
    }
    assert BitsOf(data)[..i] == BitsOf(data);
    r := AsU32(Xor(crc, INIT));
  }

  // ---- Which CRC it is ----------------------------------------------------------

  /** The generator of section 8 of RFC 1952, by its exponents below 32. */
  predicate Term(e: nat) { e in {26, 23, 22, 16, 12, 11, 10, 8, 7, 5, 4, 2, 1, 0} }

  /** Bit i alone. */
  function Mask(i: nat): bv32 {
    if i == 0 then 1 else Doubled(Mask(i - 1))
  }

  function Doubled(m: bv32): bv32 { m << 1 }

  predicate Has(c: bv32, m: bv32) { c & m != 0 }

  predicate BitAt(c: bv32, i: nat) { Has(c, Mask(i)) }

  /** The register as a polynomial: the coefficient of x^e is bit 31 - e. */
  predicate Coefficient(c: bv32, e: nat)
    requires e < 32
  {
    BitAt(c, 31 - e)
  }

  lemma Masks()
    ensures Mask(0) == 0x1 && Mask(1) == 0x2 && Mask(2) == 0x4 && Mask(3) == 0x8
    ensures Mask(4) == 0x10 && Mask(5) == 0x20 && Mask(6) == 0x40 && Mask(7) == 0x80
    ensures Mask(8) == 0x100 && Mask(9) == 0x200 && Mask(10) == 0x400 && Mask(11) == 0x800
    ensures Mask(12) == 0x1000 && Mask(13) == 0x2000 && Mask(14) == 0x4000 && Mask(15) == 0x8000
    ensures Mask(16) == 0x10000 && Mask(17) == 0x20000 && Mask(18) == 0x40000 && Mask(19) == 0x80000
    ensures Mask(20) == 0x100000 && Mask(21) == 0x200000 && Mask(22) == 0x400000 && Mask(23) == 0x800000
    ensures Mask(24) == 0x1000000 && Mask(25) == 0x2000000 && Mask(26) == 0x4000000 && Mask(27) == 0x8000000
    ensures Mask(28) == 0x10000000 && Mask(29) == 0x20000000 && Mask(30) == 0x40000000 && Mask(31) == 0x80000000
  {
    assert Mask(0) == 0x1;
    assert Mask(1) == 0x2;
    assert Mask(2) == 0x4;
    assert Mask(3) == 0x8;
    assert Mask(4) == 0x10;
    assert Mask(5) == 0x20;
    assert Mask(6) == 0x40;
    assert Mask(7) == 0x80;
    assert Mask(8) == 0x100;
    assert Mask(9) == 0x200;
    assert Mask(10) == 0x400;
    assert Mask(11) == 0x800;
    assert Mask(12) == 0x1000;
    assert Mask(13) == 0x2000;
    assert Mask(14) == 0x4000;
    assert Mask(15) == 0x8000;
    assert Mask(16) == 0x10000;
    assert Mask(17) == 0x20000;
    assert Mask(18) == 0x40000;
    assert Mask(19) == 0x80000;
    assert Mask(20) == 0x100000;
    assert Mask(21) == 0x200000;
    assert Mask(22) == 0x400000;
    assert Mask(23) == 0x800000;
    assert Mask(24) == 0x1000000;
    assert Mask(25) == 0x2000000;
    assert Mask(26) == 0x4000000;
    assert Mask(27) == 0x8000000;
    assert Mask(28) == 0x10000000;
    assert Mask(29) == 0x20000000;
    assert Mask(30) == 0x40000000;
    assert Mask(31) == 0x80000000;
  }

  lemma PolyTerms(e: nat)
    requires e < 32
    ensures Coefficient(POLY, e) <==> Term(e)
  {
    hide Mask;
    Masks();
  }

  lemma MaskNext(i: nat)
    requires i < 32
    ensures Mask(0) == 1 && Doubled(Mask(i)) == if i < 31 then Mask(i + 1) else 0
  {
    if i == 31 {
      Masks();
    }
  }

  predicate OneBit(m: bv32) { m != 0 && m & (m - 1) == 0 }

  lemma {:induction false} MaskIsOneBit(i: nat)
    requires i < 32
    ensures OneBit(Mask(i))
  {
    hide Mask;
    Masks();
  }

  lemma ShiftedMask(c: bv32, m: bv32)
    ensures (c >> 1) & m != 0 <==> c & (m << 1) != 0
    ensures c & 1 == 0 || c & 1 == 1
  {
  }

  lemma XoredMask(a: bv32, b: bv32, m: bv32)
    requires OneBit(m)
    ensures (a ^ b) & m != 0 <==> (a & m != 0 <==> b & m == 0)
  {
  }

  /** Main result: each turn of the inner loop is one step of the long division by the
      generator: multiply by x, and subtract the generator where x^32 appears. */
  lemma DivisionStep(c: bv32, e: nat)
    requires e < 32
    ensures Coefficient(Step(c), e) <==>
            ((e > 0 && Coefficient(c, e - 1)) <==> !(Coefficient(c, 31) && Term(e)))
  {
    hide *;
    PolyTerms(e);
    MaskIsOneBit(31 - e);
    MaskNext(31 - e);
    StepAtMask(c, Mask(31 - e));
    Bits32(c, e);
    Bits32(Step(c), e);
    Bits32(POLY, e);
  }

  lemma Bits32(c: bv32, e: nat)
    requires e < 32
    ensures Coefficient(c, e) <==> Has(c, Mask(31 - e))
    ensures Coefficient(c, 31) <==> Has(c, Mask(0))
    ensures e > 0 ==> (Coefficient(c, e - 1) <==> Has(c, Mask(31 - e + 1)))
  {
    hide Mask, Has;
  }

  lemma StepAtMask(c: bv32, m: bv32)
    requires OneBit(m)
    ensures Has(Step(c), m) <==> (Has(c, Doubled(m)) <==> !(Has(c, 1) && Has(POLY, m)))
    ensures !Has(c, 0)
  {
    ShiftedMask(c, m);
    XoredMask(c >> 1, POLY, m);
  }

  lemma EightSteps(c: bv32)
    ensures Steps(8, c) == Step(Step(Step(Step(Step(Step(Step(Step(c))))))))
  {
    assert Steps(0, c) == c;
    assert Steps(1, c) == Step(Steps(0, c));
    assert Steps(2, c) == Step(Steps(1, c));
    assert Steps(3, c) == Step(Steps(2, c));
    assert Steps(4, c) == Step(Steps(3, c));
    assert Steps(5, c) == Step(Steps(4, c));
    assert Steps(6, c) == Step(Steps(5, c));
    assert Steps(7, c) == Step(Steps(6, c));
    hide Step;
  }

  /** The byte step as eight turns. */
  function Turns(c: bv32, w: bv8): bv32 {
    Step(Step(Step(Step(Step(Step(Step(Step(Xor(c, Word(w))))))))))
  }

  /** One byte of a known input, from one known register to the next. */
  lemma Fed(data: Bytes, i: nat, w: bv8, c: bv32, d: bv32)
    requires i < |data| && data[i] == Value(w) && Reg(INIT, BitsOf(data)[..i]) == c && Turns(c, w) == d
    ensures Reg(INIT, BitsOf(data)[..i + 1]) == d
  {
    hide *;
    BitsValue(w);
    RegNext(INIT, data, i);
    EightSteps(Xor(c, Word(w)));
    TurnsIs(c, w);
  }

  lemma TurnsIs(c: bv32, w: bv8)
    ensures Turns(c, w) == Step(Step(Step(Step(Step(Step(Step(Step(Xor(c, Word(w))))))))))
  {
    hide Step, Xor, Word;
  }

  lemma Ended(data: Bytes, c: bv32, d: bv32)
    requires Reg(INIT, BitsOf(data)[..|data|]) == c && Xor(c, INIT) == d
    ensures Crc(data) == AsU32(d)
  {
    assert BitsOf(data)[..|data|] == BitsOf(data);
    hide Xor, Reg, AsU32;
  }

  lemma Started(data: Bytes)
    ensures Reg(INIT, BitsOf(data)[..0]) == 0xffffffff
  {
    assert BitsOf(data)[..0] == [];
  }

  lemma FirstFed(data: Bytes, w: bv8, d: bv32)
    requires |data| > 0 && data[0] == Value(w) && Turns(0xffffffff, w) == d
    ensures Reg(INIT, BitsOf(data)[..1]) == d
  {
    hide *;
    Started(data);
    Fed(data, 0, w, 0xffffffff, d);
  }

  /** "123456789". */
  const CHECK: Bytes := [0x31, 0x32, 0x33, 0x34, 0x35, 0x36, 0x37, 0x38, 0x39]

  lemma CheckBytes(i: nat)
    requires i < 9
    ensures CHECK[i] == 0x31 + i
    ensures Value(0x31) == 0x31 && Value(0x32) == 0x32 && Value(0x33) == 0x33
    ensures Value(0x34) == 0x34 && Value(0x35) == 0x35 && Value(0x36) == 0x36
    ensures Value(0x37) == 0x37 && Value(0x38) == 0x38 && Value(0x39) == 0x39
  {
  }

  lemma TurnsFirst()
    ensures Turns(0xffffffff, 0x31) == 0x7c231048
    ensures Turns(0x7c231048, 0x32) == 0xb0acbb32
    ensures Turns(0xb0acbb32, 0x33) == 0x77b79c2d
  {
  }

  lemma TurnsSecond()
    ensures Turns(0x77b79c2d, 0x34) == 0x641c1f5c
    ensures Turns(0x641c1f5c, 0x35) == 0x340ac5e3
    ensures Turns(0x340ac5e3, 0x36) == 0xf68d2c9e
  {
  }

  lemma TurnsThird()
    ensures Turns(0xf68d2c9e, 0x37) == 0xaffc9660
    ensures Turns(0xaffc9660, 0x38) == 0x651f2550
    ensures Turns(0x651f2550, 0x39) == 0x340bc6d9
  {
  }

  lemma TurnsEnd()
    ensures Xor(0x340bc6d9, INIT) == 0xCBF43926
  {
  }

  lemma CheckFirst()
    ensures Reg(INIT, BitsOf(CHECK)[..3]) == 0x77b79c2d
  {
    CheckBytes(0);
    CheckBytes(1);
    CheckBytes(2);
    TurnsFirst();
    CheckLength();
    hide Reg, BitsOf, Value, Turns, CHECK;
    FirstFed(CHECK, 0x31, 0x7c231048);
    Fed(CHECK, 1, 0x32, 0x7c231048, 0xb0acbb32);
    Fed(CHECK, 2, 0x33, 0xb0acbb32, 0x77b79c2d);
  }

  lemma CheckSecond()
    requires Reg(INIT, BitsOf(CHECK)[..3]) == 0x77b79c2d
    ensures Reg(INIT, BitsOf(CHECK)[..6]) == 0xf68d2c9e
  {
    CheckBytes(3);
    CheckBytes(4);
    CheckBytes(5);
    TurnsSecond();
    CheckLength();
    hide Reg, BitsOf, Value, Turns, CHECK;
    Fed(CHECK, 3, 0x34, 0x77b79c2d, 0x641c1f5c);
    Fed(CHECK, 4, 0x35, 0x641c1f5c, 0x340ac5e3);
    Fed(CHECK, 5, 0x36, 0x340ac5e3, 0xf68d2c9e);
  }

  lemma CheckThird()
    requires Reg(INIT, BitsOf(CHECK)[..6]) == 0xf68d2c9e
    ensures Reg(INIT, BitsOf(CHECK)[..9]) == 0x340bc6d9
  {
    CheckBytes(6);
    CheckBytes(7);
    CheckBytes(8);
    TurnsThird();
    CheckLength();
    hide Reg, BitsOf, Value, Turns, CHECK;
    Fed(CHECK, 6, 0x37, 0xf68d2c9e, 0xaffc9660);
    Fed(CHECK, 7, 0x38, 0xaffc9660, 0x651f2550);
    Fed(CHECK, 8, 0x39, 0x651f2550, 0x340bc6d9);
  }

  /** The check value of CRC-32. */
  lemma CheckValue()
    ensures Crc(CHECK) == 0xCBF43926
  {
    Converted();
    CheckLength();
    TurnsEnd();
    hide *;
    CheckFirst();
    CheckSecond();
    CheckThird();
    Ended(CHECK, 0x340bc6d9, 0xCBF43926);
  }

  lemma CheckLength()
    ensures |CHECK| == 9
  {
  }

  lemma Converted()
    ensures AsU32(0xCBF43926) == 0xCBF43926
  {
  }

  // ---- The step is linear and bijective -----------------------------------

  lemma LowBitXor(a: bv32, b: bv32)
    ensures (a ^ b) & 1 == (a & 1) ^ (b & 1)
    ensures a & 1 == 0 || a & 1 == 1
  {
  }

  lemma ShiftXor(a: bv32, b: bv32)
    ensures (a ^ b) >> 1 == (a >> 1) ^ (b >> 1)
  {
  }

  lemma StepLinear(a: bv32, b: bv32)
    ensures Step(Xor(a, b)) == Xor(Step(a), Step(b))
  {
    StepLinearRaw(a, b);
    hide Step;
  }

  lemma StepLinearRaw(a: bv32, b: bv32)
    ensures Step(a ^ b) == Step(a) ^ Step(b)
  {
    LowBitXor(a, b);
    LowBitXor(b, a);
    ShiftXor(a, b);
  }

  /** The inverse step: the register bit shifted out is the polynomial's top bit. */
  function Unstep(c: bv32): bv32 {
    if c & 0x80000000 != 0 then ((c ^ POLY) << 1) | 1 else c << 1
  }

  lemma TopBit(c: bv32)
    ensures (c >> 1) & 0x80000000 == 0
    ensures ((c >> 1) ^ POLY) & 0x80000000 != 0
    ensures ((c >> 1) ^ POLY) ^ POLY == c >> 1
  {
  }

  lemma LowBit(c: bv32)
    ensures c & 1 == 0 ==> (c >> 1) << 1 == c
    ensures c & 1 != 0 ==> ((c >> 1) << 1) | 1 == c
  {
  }

  lemma UnstepStep(c: bv32)
    ensures Unstep(Step(c)) == c
  {
    TopBit(c);
    LowBit(c);
  }

  lemma ShiftedBack(c: bv32)
    ensures (c << 1) & 1 == 0
    ensures ((c << 1) | 1) & 1 != 0
    ensures ((c << 1) | 1) >> 1 == (c << 1) >> 1
    ensures c & 0x80000000 == 0 ==> (c << 1) >> 1 == c
  {
  }

  lemma PolyTop(c: bv32)
    ensures c & 0x80000000 != 0 ==> (c ^ POLY) & 0x80000000 == 0
    ensures (c ^ POLY) ^ POLY == c
  {
  }

  lemma StepUnstep(c: bv32)
    ensures Step(Unstep(c)) == c
  {
    PolyTop(c);
    ShiftedBack(c);
    ShiftedBack(c ^ POLY);
  }

  lemma {:induction false} StepsLinear(n: nat, a: bv32, b: bv32)
    ensures Steps(n, Xor(a, b)) == Xor(Steps(n, a), Steps(n, b))
  {
    hide Xor, Step;
    if n != 0 {
      StepsLinear(n - 1, a, b);
      StepLinear(Steps(n - 1, a), Steps(n - 1, b));
    }
  }

  lemma {:induction false} StepsInjective(n: nat, a: bv32, b: bv32)
    requires Steps(n, a) == Steps(n, b)
    ensures a == b
  {
    hide Step, Unstep;
    if n != 0 {
      UnstepStep(Steps(n - 1, a));
      UnstepStep(Steps(n - 1, b));
      StepsInjective(n - 1, a, b);
    }
  }

  lemma {:induction false} StepsSplit(m: nat, n: nat, c: bv32)
    ensures Steps(m, Steps(n, c)) == Steps(m + n, c)
  {
    if m != 0 {
      StepsSplit(m - 1, n, c);
    }
  }

  lemma {:induction false} StepsZero(n: nat)
    ensures Steps(n, 0) == 0
  {
    if n != 0 {
      StepsZero(n - 1);
    }
  }

  // ---- The register as a linear map of the message --------------------------

  function Xor8(x: bv8, y: bv8): bv8 { x ^ y }

  function XorBits(x: seq<bv8>, y: seq<bv8>): (r: seq<bv8>)
    requires |x| == |y|
    ensures |r| == |x|
    ensures forall i :: 0 <= i < |x| ==> r[i] == Xor8(x[i], y[i])
  {
    seq(|x|, i requires 0 <= i < |x| => Xor8(x[i], y[i]))
  }

  lemma XorRegroup(a: bv32, b: bv32, x: bv8, y: bv8)
    ensures Xor(Xor(a, b), Word(Xor8(x, y))) == Xor(Xor(a, Word(x)), Xor(b, Word(y)))
  {
  }

  lemma {:induction false} RegLinear(a: bv32, b: bv32, x: seq<bv8>, y: seq<bv8>)
    requires |x| == |y|
    ensures Reg(Xor(a, b), XorBits(x, y)) == Xor(Reg(a, x), Reg(b, y))
  {
    hide Xor, Xor8, Word, Steps;
    if x != [] {
      var n := |x| - 1;
      var d := XorBits(x, y);
      assert d[..n] == XorBits(x[..n], y[..n]);
      RegLinear(a, b, x[..n], y[..n]);
      XorRegroup(Reg(a, x[..n]), Reg(b, y[..n]), x[n], y[n]);
      StepsLinear(8, Xor(Reg(a, x[..n]), Word(x[n])), Xor(Reg(b, y[..n]), Word(y[n])));
    }
  }

  lemma {:induction false} RegAppend(c: bv32, x: seq<bv8>, y: seq<bv8>)
    ensures Reg(c, x + y) == Reg(Reg(c, x), y)
  {
    if y == [] {
      assert x + y == x;
    } else {
      var n := |y| - 1;
      assert (x + y)[..|x + y| - 1] == x + y[..n];
      RegAppend(c, x, y[..n]);
    }
  }

  /** Any two registers fed the same bytes stay apart. */
  lemma {:induction false} RegInjective(a: bv32, b: bv32, data: seq<bv8>)
    requires Reg(a, data) == Reg(b, data)
    ensures a == b
  {
    hide Xor, Word, Steps;
    if data != [] {
      var n := |data| - 1;
      var p, q := Reg(a, data[..n]), Reg(b, data[..n]);
      StepsInjective(8, Xor(p, Word(data[n])), Xor(q, Word(data[n])));
      XorCancel(p, q, Word(data[n]));
      RegInjective(a, b, data[..n]);
    }
  }

  lemma XorCancel(p: bv32, q: bv32, w: bv32)
    requires Xor(p, w) == Xor(q, w)
    ensures p == q
  {
    assert (p ^ w) ^ w == p;
    assert (q ^ w) ^ w == q;
  }

  // ---- Bursts of up to four bytes --------------------------------------------

  /** A byte k places up the register. */
  function Placed(b: bv8, k: nat): bv32
    requires k <= 3
  {
    if k == 0 then Word(b) else if k == 1 then Word(b) << 8 else if k == 2 then Word(b) << 16 else Word(b) << 24
  }

  /** A window of at most four bytes, first byte lowest. */
  function Le(w: seq<bv8>): bv32
    requires |w| <= 4
  {
    if w == [] then 0
    else Xor(Le(w[..|w| - 1]), Placed(w[|w| - 1], |w| - 1))
  }

  lemma LowBitsOfShift(c: bv32)
    requires c & 0xff == 0
    ensures c & 1 == 0 && (c >> 1) & 1 == 0 && (c >> 2) & 1 == 0 && (c >> 3) & 1 == 0
    ensures (c >> 4) & 1 == 0 && (c >> 5) & 1 == 0 && (c >> 6) & 1 == 0 && (c >> 7) & 1 == 0
  {
  }

  lemma ShiftShift(c: bv32)
    ensures (c >> 1) >> 1 == c >> 2 && (c >> 2) >> 1 == c >> 3 && (c >> 3) >> 1 == c >> 4
    ensures (c >> 4) >> 1 == c >> 5 && (c >> 5) >> 1 == c >> 6 && (c >> 6) >> 1 == c >> 7
    ensures (c >> 7) >> 1 == c >> 8
  {
  }

  /** With a clear low byte, eight steps are a plain shift. */
  lemma EightStepsShift(c: bv32)
    requires c & 0xff == 0
    ensures Steps(8, c) == c >> 8
  {
    LowBitsOfShift(c);
    ShiftShift(c);
    assert Steps(0, c) == c;
    assert Steps(1, c) == c >> 1;
    assert Steps(2, c) == c >> 2;
    assert Steps(3, c) == c >> 3;
    assert Steps(4, c) == c >> 4;
    assert Steps(5, c) == c >> 5;
    assert Steps(6, c) == c >> 6;
    assert Steps(7, c) == c >> 7;
  }

  lemma PlacedShift(b: bv8, k: nat)
    requires 1 <= k <= 3
    ensures Placed(b, k) & 0xff == 0 && Placed(b, k) >> 8 == Placed(b, k - 1)
  {
  }

  lemma PlacedStep(b: bv8, k: nat)
    requires 1 <= k <= 3
    ensures Steps(8, Placed(b, k)) == Placed(b, k - 1)
  {
    hide Placed, Steps;
    PlacedShift(b, k);
    EightStepsShift(Placed(b, k));
  }

  /** A byte placed k bytes up reaches the low end after 8k steps. */
  lemma {:induction false} ByteArrives(b: bv8, k: nat)
    requires k <= 3
    ensures Steps(8 * k, Placed(b, k)) == Placed(b, 0)
  {
    if k == 0 {
      assert Steps(0, Placed(b, 0)) == Placed(b, 0);
    } else {
      hide Placed, Steps;
      PlacedStep(b, k);
      ByteArrives(b, k - 1);
      StepsSplit(8 * (k - 1), 8, Placed(b, k));
    }
  }

  lemma {:induction false} RegWindow(w: seq<bv8>)
    requires |w| <= 4
    ensures Reg(0, w) == Steps(8 * |w|, Le(w))
  {
    if w == [] {
      assert Steps(0, Le(w)) == 0;
    } else {
      var k := |w| - 1;
      RegWindow(w[..k]);
      RegWindowStep(w[..k], w[k], k);
    }
  }

  lemma RegWindowStep(v: seq<bv8>, b: bv8, k: nat)
    requires |v| == k <= 3
    requires Reg(0, v) == Steps(8 * k, Le(v))
    ensures Steps(8, Xor(Reg(0, v), Word(b))) == Steps(8 * (k + 1), Xor(Le(v), Placed(b, k)))
  {
    ByteArrives(b, k);
    assert Placed(b, 0) == Word(b);
    hide Xor, Word, Placed, Steps, Le, Reg;
    StepsLinear(8 * k, Le(v), Placed(b, k));
    StepsSplit(8, 8 * k, Xor(Le(v), Placed(b, k)));
  }

  /** The bits of a window are the bits of its bytes. */
  lemma {:induction false} LeNonzero(w: seq<bv8>)
    requires |w| <= 4 && Le(w) == 0
    ensures forall i :: 0 <= i < |w| ==> w[i] == 0
  {
    if w != [] {
      var k := |w| - 1;
      LeBelow(w[..k]);
      TopByte(Le(w[..k]), w[k], k);
      LeNonzero(w[..k]);
    }
  }

  /** A mask covering the low k bytes. */
  function LowMask(k: nat): bv32
    requires k <= 3
  {
    if k == 0 then 0 else if k == 1 then 0xff else if k == 2 then 0xffff else 0xffffff
  }

  lemma {:induction false} LeBelow(w: seq<bv8>)
    requires |w| <= 3
    ensures Le(w) & LowMask(|w|) == Le(w)
  {
    if w != [] {
      var k := |w| - 1;
      LeBelow(w[..k]);
      MaskGrows(Le(w[..k]), w[k], k);
    }
  }

  lemma MaskGrows(x: bv32, b: bv8, k: nat)
    requires k <= 2 && x & LowMask(k) == x
    ensures Xor(x, Placed(b, k)) & LowMask(k + 1) == Xor(x, Placed(b, k))
  {
  }

  lemma TopByte(x: bv32, b: bv8, k: nat)
    requires k <= 3 && x & LowMask(k) == x && Xor(x, Placed(b, k)) == 0
    ensures x == 0 && b == 0
  {
  }

  lemma ByteXorZero(a: Byte, b: Byte)
    requires Xor8(Bits(a), Bits(b)) == 0
    ensures a == b
  {
    hide Xor8, Bits, Value;
    XorZero8(Bits(a), Bits(b));
    ValueBits(a);
    ValueBits(b);
  }

  lemma XorZero8(x: bv8, y: bv8)
    requires Xor8(x, y) == 0
    ensures x == y
  {
  }

  lemma XorSelf(x: bv32)
    ensures Xor(x, x) == 0
  {
  }

  /** Registers that entered a window equal leave it apart, whenever the two
      windows differ. */
  lemma WindowSeparates(c: bv32, u: Bytes, v: Bytes)
    requires |u| == |v| <= 4 && u != v
    ensures Reg(c, BitsOf(u)) != Reg(c, BitsOf(v))
  {
    hide Xor, Xor8, Word, Steps, Le, Reg, Bits;
    if Reg(c, BitsOf(u)) == Reg(c, BitsOf(v)) {
      var d := XorBits(BitsOf(u), BitsOf(v));
      RegLinear(c, c, BitsOf(u), BitsOf(v));
      XorSelf(c);
      XorSelf(Reg(c, BitsOf(u)));
      RegWindow(d);
      StepsZero(8 * |d|);
      StepsInjective(8 * |d|, Le(d), 0);
      LeNonzero(d);
      forall i | 0 <= i < |u| ensures u[i] == v[i] {
        ByteXorZero(u[i], v[i]);
      }
      assert false;
    }
  }

  lemma AsU32Injective(x: bv32, y: bv32)
    requires AsU32(x) == AsU32(y)
    ensures x == y
  {
    assert (x as int) as bv32 == x;
    assert (y as int) as bv32 == y;
  }

  /** Main result: two messages of one length that differ only inside a window
      of at most four consecutive bytes never have the same CRC. */
  lemma BurstDetected(before: Bytes, u: Bytes, v: Bytes, after: Bytes)
    requires |u| == |v| <= 4 && u != v
    ensures Crc(before + u + after) != Crc(before + v + after)
  {
    hide Xor, Reg, AsU32, Bits;
    var x, y := before + u + after, before + v + after;
    var c := Reg(INIT, BitsOf(before));
    assert BitsOf(x) == BitsOf(before) + BitsOf(u) + BitsOf(after);
    assert BitsOf(y) == BitsOf(before) + BitsOf(v) + BitsOf(after);
    RegAppend(INIT, BitsOf(before) + BitsOf(u), BitsOf(after));
    RegAppend(INIT, BitsOf(before) + BitsOf(v), BitsOf(after));
    RegAppend(INIT, BitsOf(before), BitsOf(u));
    RegAppend(INIT, BitsOf(before), BitsOf(v));
    WindowSeparates(c, u, v);
    if Crc(x) == Crc(y) {
      AsU32Injective(Xor(Reg(INIT, BitsOf(x)), INIT), Xor(Reg(INIT, BitsOf(y)), INIT));
      XorCancel(Reg(INIT, BitsOf(x)), Reg(INIT, BitsOf(y)), INIT);
      RegInjective(Reg(c, BitsOf(u)), Reg(c, BitsOf(v)), BitsOf(after));
    }
  }

  // ---- The table-driven form of section 8 of RFC 1952 -------------------------

  /** make_crc_table: entry n is eight steps of n. */
  method MakeCrcTable() returns (table: seq<bv32>)
    ensures IsCrcTable(table)
  {
    hide Step, Word, Bits;
    table := [];
    var n := 0;
    while n < 256
      invariant 0 <= n <= 256 && |table| == n
      invariant forall i: Byte :: i < n ==> table[i] == Steps(8, Word(Bits(i)))
    {
      var c := Word(Bits(n));
      ghost var start := c;
      var k := 0;
      while k < 8
        invariant 0 <= k <= 8
        invariant c == Steps(k, start)
      {
        c := Step(c);
        k := k + 1;
      }
      table := table + [c];
      n := n + 1;
    }
  }

  ghost predicate IsCrcTable(table: seq<bv32>) {
    |table| == 256 && forall i: Byte :: table[i] == Steps(8, Word(Bits(i)))
  }

  function Low(x: bv32): bv32 { x & 0xff }

  function High(x: bv32): bv32 { x & 0xffffff00 }

  /** The index (c ^ b) & 0xff of update_crc. */
  function TableIndex(c: bv32, b: Byte): (i: Byte) {
    Value(LowBits(Xor(c, Word(Bits(b)))))
  }

  function LowBits(x: bv32): bv8 { Low(x) as bv8 }

  lemma SplitLowByte(c: bv32, w: bv8)
    ensures var x := Xor(c, Word(w));
            x == Xor(Low(x), High(x))
            && High(x) & 0xff == 0
            && High(x) >> 8 == c >> 8
            && Word(LowBits(x)) == Low(x)
  {
  }

  /** update_crc's inner line is the byte step. */
  lemma TableStep(table: seq<bv32>, c: bv32, b: Byte)
    requires IsCrcTable(table)
    ensures Xor(table[TableIndex(c, b)], c >> 8) == Steps(8, Xor(c, Word(Bits(b))))
  {
    hide Xor, Steps, Bits, Value, Word, Low, High, LowBits;
    var x := Xor(c, Word(Bits(b)));
    BitsValue(LowBits(x));
    SplitLowByte(c, Bits(b));
    StepsLinear(8, Low(x), High(x));
    EightStepsShift(High(x));
  }

  /** The table-driven crc of RFC 1952 computes the same number on every input. */
  method TableCrc(data: Bytes) returns (r: U32)
    ensures r == Crc(data)
  {
    hide Xor, Steps, Bits, Word, TableIndex, AsU32, Reg;
    RegEmpty(INIT);
    var table := MakeCrcTable();
    var c: bv32 := INIT;
    var n := 0;
    while n < |data|
      invariant 0 <= n <= |data|
      invariant c == Reg(INIT, BitsOf(data)[..n])
    {
      RegNext(INIT, data, n);
      TableStep(table, c, data[n]);
      c := Xor(table[TableIndex(c, data[n])], c >> 8);
      n := n + 1;
    }
    assert BitsOf(data)[..n] == BitsOf(data);
    r := AsU32(Xor(c, INIT));
  }
}
