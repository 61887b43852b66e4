/** The bitmap of QUERY_UPLOAD (`fr_dispatch.cpp`): one bit per expected ordinal. */
module QueryUpload {
  import opened Bytes

  const BITMAP_LIMIT: nat := 1024 * 1024

  /** 1u << i. */
  function Mask(i: nat): bv8
    requires i < 8
  {
    if i == 0 then 0x01 else if i == 1 then 0x02 else if i == 2 then 0x04 else if i == 3 then 0x08
    else if i == 4 then 0x10 else if i == 5 then 0x20 else if i == 6 then 0x40 else 0x80
  }

  predicate Bit(b: bv8, i: nat)
    requires i < 8
  {
    And(b, Mask(i)) != 0
  }

  function And(b: bv8, c: bv8): bv8 { b & c }

  function Or(b: bv8, c: bv8): bv8 { b | c }

  /** Or-ing in a mask sets its bit and no other. */
  lemma OrSets(b: bv8, i: nat, j: nat)
    requires i < 8 && j < 8
    ensures Bit(Or(b, Mask(i)), j) <==> i == j || Bit(b, j)
  {
    MasksApart(i, j);
    OrTest(b, Mask(i), Mask(j));
    hide Mask, And, Or;
  }

  lemma MasksApart(i: nat, j: nat)
    requires i < 8 && j < 8
    ensures And(Mask(i), Mask(j)) != 0 <==> i == j
  {
  }

  lemma OrTest(b: bv8, m: bv8, n: bv8)
    ensures And(Or(b, m), n) != 0 <==> And(m, n) != 0 || And(b, n) != 0
  {
  }

  lemma NoBits(i: nat)
    requires i < 8
    ensures !Bit(0, i)
  {
  }

  predicate Set(bitmap: seq<bv8>, o: nat) {
    o / 8 < |bitmap| && Bit(bitmap[o / 8], o % 8)
  }

  /** Answering a query: refused exactly when the bitmap would exceed 1 MiB,
      otherwise bit o is set exactly when ordinal o is present. */
  method BuildBitmap(chunkCount: nat, present: seq<nat>) returns (r: Result<seq<bv8>>)
    requires forall o :: o in present ==> o < chunkCount
    ensures r.Err? <==> chunkCount > 8 * 1024 * 1024
    ensures r.Err? ==> r.code == E_RANGE
    ensures r.Ok? ==> |r.value| == (chunkCount + 7) / 8 && forall o: nat :: Set(r.value, o) <==> o in present
  {
    if (chunkCount + 7) / 8 > BITMAP_LIMIT {
      return Err(E_RANGE);
    }
    var bitmap := new bv8[(chunkCount + 7) / 8](_ => 0);
    forall i: nat | i < 8 ensures !Bit(0, i) { NoBits(i); }
    hide Bit, Or;
    for k := 0 to |present|
      invariant bitmap.Length == (chunkCount + 7) / 8
      invariant forall o: nat :: Set(bitmap[..], o) <==> o in present[..k]
    {
      var ordinal := present[k];
      assert ordinal in present;
      ghost var before := bitmap[..];
      bitmap[ordinal / 8] := Or(bitmap[ordinal / 8], Mask(ordinal % 8));
      assert bitmap[..] == before[ordinal / 8 := Or(before[ordinal / 8], Mask(ordinal % 8))];
      forall o: nat ensures Set(bitmap[..], o) <==> o == ordinal || Set(before, o) {
        OneMore(before, ordinal, o);
      }
      assert present[..k + 1] == present[..k] + [ordinal];
    }
    assert present[..|present|] == present;
    return Ok(bitmap[..]);
  }

  /** The bit of ordinal o is bit o mod 8, counted from the lowest, of byte o / 8. */
  lemma BitPlace(bitmap: seq<bv8>, o: nat)
    ensures Set(bitmap, o) <==> o / 8 < |bitmap| && (bitmap[o / 8] >> (o % 8)) & 1 == 1
  {
    if o / 8 < |bitmap| { Shifted(bitmap[o / 8], o % 8); }
    hide Bit;
  }

  lemma Shifted(b: bv8, i: nat)
    requires i < 8
    ensures Bit(b, i) <==> (b >> i) & 1 == 1
  {
    assert i == 0 || i == 1 || i == 2 || i == 3 || i == 4 || i == 5 || i == 6 || i == 7;
  }

  lemma OneMore(bitmap: seq<bv8>, n: nat, o: nat)
    requires n / 8 < |bitmap|
    ensures Set(bitmap[n / 8 := Or(bitmap[n / 8], Mask(n % 8))], o) <==> o == n || Set(bitmap, o)
  {
    OrSets(bitmap[n / 8], n % 8, o % 8);
    assert n == 8 * (n / 8) + n % 8 && o == 8 * (o / 8) + o % 8;
    hide Bit, Or, Mask;
  }
}
