/** Big-endian loads and stores (`fr_byteorder.c`). Stores write into the
    caller's array; the value they write is `Be(v, width)`. */
module ByteOrder {
  import opened Bytes

  /** v in n bytes, most significant first. */
  function Be(v: nat, n: nat): (p: Bytes)
    ensures |p| == n
  {
    if n == 0 then [] else Be(v / 256, n - 1) + [v % 256]
  }

  /** The number a big-endian byte string denotes. */
  function Load(p: Bytes): (v: nat) {
    if p == [] then 0 else Load(p[..|p| - 1]) * 256 + p[|p| - 1]
  }

  function Pow256(n: nat): (r: nat)
    ensures r > 0
  {
    if n == 0 then 1 else 256 * Pow256(n - 1)
  }

  /** Storing then loading gives the value back, at every width it fits in. */
  lemma {:induction false} LoadBe(v: nat, n: nat)
    requires v < Pow256(n)
    ensures Load(Be(v, n)) == v
  {
    if n != 0 {
      LoadBe(v / 256, n - 1);
      assert Be(v, n)[..n - 1] == Be(v / 256, n - 1);
    }
  }

  /** Loading then storing at the same width gives the bytes back. */
  lemma {:induction false} BeLoad(p: Bytes)
    ensures Load(p) < Pow256(|p|)
    ensures Be(Load(p), |p|) == p
  {
    if p != [] {
      var n := |p| - 1;
      BeLoad(p[..n]);
      assert Load(p) / 256 == Load(p[..n]) && Load(p) % 256 == p[n];
      assert p == p[..n] + [p[n]];
    }
  }

  lemma Widths()
    ensures Pow256(2) == 0x1_0000
    ensures Pow256(4) == 0x1_0000_0000
    ensures Pow256(8) == 0x1_0000_0000_0000_0000
  {
    assert Pow256(1) == 256;
    assert Pow256(3) == 0x100_0000;
    assert Pow256(5) == 0x100_0000_0000;
    assert Pow256(6) == 0x1_0000_0000_0000;
    assert Pow256(7) == 0x100_0000_0000_0000;
  }

  function Be16(v: U16): (p: Bytes) ensures |p| == 2 { Be(v, 2) }

  function Be32(v: U32): (p: Bytes) ensures |p| == 4 { Be(v, 4) }

  function Be64(v: U64): (p: Bytes) ensures |p| == 8 { Be(v, 8) }

  function Load16(p: Bytes): (v: U16)
    requires |p| == 2
  {
    Widths();
    BeLoad(p);
    Load(p)
  }

  function Load32(p: Bytes): (v: U32)
    requires |p| == 4
  {
    Widths();
    BeLoad(p);
    Load(p)
  }

  function Load64(p: Bytes): (v: U64)
    requires |p| == 8
  {
    Widths();
    BeLoad(p);
    Load(p)
  }

  lemma RoundTrip16(v: U16)
    ensures Load16(Be16(v)) == v
  {
    Widths();
    LoadBe(v, 2);
  }

  lemma RoundTrip32(v: U32)
    ensures Load32(Be32(v)) == v
  {
    Widths();
    LoadBe(v, 4);
  }

  lemma RoundTrip64(v: U64)
    ensures Load64(Be64(v)) == v
  {
    Widths();
    LoadBe(v, 8);
  }

  lemma Restore16(p: Bytes)
    requires |p| == 2
    ensures Be16(Load16(p)) == p
  {
    BeLoad(p);
  }

  lemma Restore32(p: Bytes)
    requires |p| == 4
    ensures Be32(Load32(p)) == p
  {
    BeLoad(p);
  }

  lemma Restore64(p: Bytes)
    requires |p| == 8
    ensures Be64(Load64(p)) == p
  {
    BeLoad(p);
  }

  /** The shift-and-or of the source, as a sum of place values. */
  lemma Load32Digits(p: Bytes)
    requires |p| == 4
    ensures var a: int, b: int, c: int, d: int := p[0], p[1], p[2], p[3];
            Load32(p) == a * 0x100_0000 + b * 0x1_0000 + c * 0x100 + d
  {
    assert p[..3][..2] == p[..2] && p[..2][..1] == p[..1] && p[..1][..0] == [];
    assert Load(p[..1]) == p[0];
    assert Load(p[..2]) == Load(p[..1]) * 256 + p[1];
    assert Load(p[..3]) == Load(p[..2]) * 256 + p[2];
  }

  /** `old` with the bytes from `at` on replaced by `p`. */
  function Patch(before: Bytes, at: nat, p: Bytes): (after: Bytes)
    requires at + |p| <= |before|
    ensures |after| == |before|
  {
    before[..at] + p + before[at + |p|..]
  }

  lemma Digits16(v: U16)
    ensures Be16(v) == [v / 0x100, v % 256]
  {
    assert Be(v / 256, 1) == Be(v / 256 / 256, 0) + [v / 256 % 256];
  }

  lemma Digits32(v: U32)
    ensures Be32(v) == [v / 0x100_0000, v / 0x1_0000 % 256, v / 0x100 % 256, v % 256]
  {
    var a := v / 256;
    var b := a / 256;
    var c := b / 256;
    assert b == v / 0x1_0000 && c == v / 0x100_0000;
    assert Be(c, 1) == Be(c / 256, 0) + [c % 256] == [c];
    assert Be(b, 2) == Be(c, 1) + [b % 256];
    assert Be(a, 3) == Be(b, 2) + [a % 256];
  }

  method StoreBe16(p: array<Byte>, at: nat, v: U16)
    requires at + 2 <= p.Length
    modifies p
    ensures p[..] == Patch(old(p[..]), at, Be16(v))
  {
    Digits16(v);
    p[at] := v / 0x100;
    p[at + 1] := v % 256;
  }

  method StoreBe32(p: array<Byte>, at: nat, v: U32)
    requires at + 4 <= p.Length
    modifies p
    ensures p[..] == Patch(old(p[..]), at, Be32(v))
  {
    Digits32(v);
    p[at] := v / 0x100_0000;
    p[at + 1] := v / 0x1_0000 % 256;
    p[at + 2] := v / 0x100 % 256;
    p[at + 3] := v % 256;
  }

  lemma Digits64(v: U64)
    ensures Be64(v) == [v / 0x100_0000_0000_0000, v / 0x1_0000_0000_0000 % 256,
                        v / 0x100_0000_0000 % 256, v / 0x1_0000_0000 % 256,
                        v / 0x100_0000 % 256, v / 0x1_0000 % 256, v / 0x100 % 256, v % 256]
  {
    var a := v / 256;
    var b := a / 256;
    var c := b / 256;
    var d := c / 256;
    assert b == v / 0x1_0000 && c == v / 0x100_0000 && d == v / 0x1_0000_0000;
    Digits32(d);
    assert d / 0x100 == v / 0x100_0000_0000;
    assert d / 0x1_0000 == v / 0x1_0000_0000_0000;
    assert d / 0x100_0000 == v / 0x100_0000_0000_0000;
    assert Be(c, 5) == Be(d, 4) + [c % 256];
    assert Be(b, 6) == Be(c, 5) + [b % 256];
    assert Be(a, 7) == Be(b, 6) + [a % 256];
    assert Be(v, 8) == Be(a, 7) + [v % 256];
  }

  method StoreBe64(p: array<Byte>, at: nat, v: U64)
    requires at + 8 <= p.Length
    modifies p
    ensures p[..] == Patch(old(p[..]), at, Be64(v))
  {
    Digits64(v);
    p[at] := v / 0x100_0000_0000_0000;
    p[at + 1] := v / 0x1_0000_0000_0000 % 256;
    p[at + 2] := v / 0x100_0000_0000 % 256;
    p[at + 3] := v / 0x1_0000_0000 % 256;
    p[at + 4] := v / 0x100_0000 % 256;
    p[at + 5] := v / 0x1_0000 % 256;
    p[at + 6] := v / 0x100 % 256;
    p[at + 7] := v % 256;
  }
}
