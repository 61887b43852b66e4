/** The growable byte buffer and the bounds-checked reader of `fr_buffer.c`. */
module Buffer {
  import opened Bytes
  import opened Checked

  const MIN_CAP: nat := 64

  function Pow2(k: nat): (p: nat)
    ensures p > 0
  {
    if k == 0 then 1 else 2 * Pow2(k - 1)
  }

  /** The capacities a buffer can have: none yet, or 64 doubled k times. */
  ghost predicate IsCapacity(c: nat) {
    c == 0 || exists k: nat :: c == MIN_CAP * Pow2(k)
  }

  /** The doubling loop: the first capacity in cap, 2*cap, 4*cap, ... that holds
      `needed` bytes, or None when that size is not a size_t. */
  function Grow(cap: nat, needed: nat): (r: Option<nat>)
    requires 0 < cap <= U64_MAX
    decreases if cap < needed then needed - cap else 0
  {
    if needed <= cap then Some(cap)
    else if 2 * cap > U64_MAX then None
    else Grow(2 * cap, needed)
  }

  lemma {:induction false} Pow2Monotone(j: nat, k: nat)
    requires j <= k
    ensures Pow2(j) <= Pow2(k)
  {
    if j < k {
      Pow2Monotone(j, k - 1);
    }
  }

  lemma Pow2At57()
    ensures MIN_CAP * Pow2(57) == 0x8000_0000_0000_0000
  {
    assert Pow2(10) == 1024;
    Pow2Add(10, 10);
    Pow2Add(20, 20);
    Pow2Add(40, 10);
    assert Pow2(7) == 128;
    Pow2Add(50, 7);
  }

  lemma {:induction false} Pow2Add(j: nat, k: nat)
    ensures Pow2(j + k) == Pow2(j) * Pow2(k)
  {
    if j != 0 {
      Pow2Add(j - 1, k);
    }
  }

  /** A capacity is a size_t exactly when it is at most 2^63. */
  lemma CapacityBound(c: nat)
    requires IsCapacity(c)
    ensures c <= U64_MAX <==> c <= 0x8000_0000_0000_0000
    ensures 2 * c <= U64_MAX <==> c < 0x8000_0000_0000_0000
  {
    Pow2At57();
    if c != 0 {
      var k: nat :| c == MIN_CAP * Pow2(k);
      if k < 57 {
        Pow2Monotone(k + 1, 57);
      } else if k > 57 {
        Pow2Monotone(58, k);
      }
    }
  }

  lemma DoubledCapacity(c: nat)
    requires IsCapacity(c) && c > 0
    ensures IsCapacity(2 * c)
  {
    var k: nat :| c == MIN_CAP * Pow2(k);
    assert 2 * c == MIN_CAP * Pow2(k + 1);
  }

  /** What the doubling loop achieves from a capacity the buffer can have: it
      overflows exactly when more than 2^63 bytes are needed, and otherwise stops
      at a capacity that is less than twice the need, or where it started. */
  lemma {:induction false} GrowCharacterised(cap: nat, needed: nat)
    requires 0 < cap <= U64_MAX && IsCapacity(cap)
    ensures Grow(cap, needed).None? <==> needed > 0x8000_0000_0000_0000
    ensures Grow(cap, needed).Some? ==>
              var c := Grow(cap, needed).value;
              IsCapacity(c) && needed <= c <= U64_MAX && (c == cap || c < 2 * needed)
    decreases if cap < needed then needed - cap else 0
  {
    CapacityBound(cap);
    if cap < needed && 2 * cap <= U64_MAX {
      DoubledCapacity(cap);
      GrowCharacterised(2 * cap, needed);
    }
  }

  class FrBuf {
    var data: array<Byte>  // the allocation; its Length is the C field `cap`
    var len: nat

    ghost predicate Valid()
      reads this
    {
      len <= data.Length <= U64_MAX && IsCapacity(data.Length)
    }

    ghost function Contents(): (s: Bytes)
      requires Valid()
      reads this, data
    {
      data[..len]
    }

    constructor ()
      ensures Valid() && Contents() == [] && data.Length == 0 && fresh(data)
    {
      data := new Byte[0];
      len := 0;
    }

    /** fr_buf_reserve. `memory` says whether realloc succeeds. */
    method Reserve(additional: U64, memory: bool) returns (st: Status)
      requires Valid()
      modifies this
      ensures Valid() && len == old(len) && Contents() == old(Contents())
      ensures data == old(data) || fresh(data)
      ensures st != OK ==> data == old(data)
      ensures st == OK ==> len + additional <= data.Length
      ensures st == OK && len + additional <= old(data.Length) ==> data == old(data)
      ensures st == OK && len + additional > old(data.Length) ==>
                data.Length == MIN_CAP || data.Length < 2 * (len + additional)
      ensures st == E_OVERFLOW <==>
                len + additional > old(data.Length) && len + additional > 0x8000_0000_0000_0000
      ensures st in {OK, E_OVERFLOW, E_NOMEM}
      ensures memory ==> st != E_NOMEM
      ensures len + additional <= old(data.Length) ==> st == OK
    {
      AddU64Exact(len, additional);
      CapacityBound(data.Length);
      var sum := AddSize(len, additional);
      if sum.None? {
        return E_OVERFLOW;
      }
      var needed := sum.value;
      if needed <= data.Length {
        return OK;
      }
      var newCap: U64 := if data.Length != 0 then data.Length else MIN_CAP;
      ghost var base := newCap;
      assert MIN_CAP == MIN_CAP * Pow2(0);
      GrowCharacterised(base, needed);
      while newCap < needed
        modifies {}
        invariant 0 < newCap <= U64_MAX
        invariant Grow(newCap, needed) == Grow(base, needed)
        decreases needed - newCap
      {
        MulU64Exact(newCap, 2);
        var doubled := MulSize(newCap, 2);
        if doubled.None? {
          return E_OVERFLOW;
        }
        newCap := doubled.value;
      }
      if !memory {
        return E_NOMEM;
      }
      var grown := new Byte[newCap];
      forall i | 0 <= i < len {
        grown[i] := data[i];
      }
      data := grown;
      return OK;
    }

    /** fr_buf_append. */
    method Append(src: Bytes, memory: bool) returns (st: Status)
      requires Valid() && |src| <= U64_MAX
      modifies this, data
      ensures Valid()
      ensures data == old(data) || fresh(data)
      ensures st == OK ==> Contents() == old(Contents()) + src
      ensures st != OK ==> data == old(data) && Contents() == old(Contents())
      ensures st == E_OVERFLOW ==> old(len) + |src| > 0x8000_0000_0000_0000
      ensures st in {OK, E_OVERFLOW, E_NOMEM}
      ensures memory && old(len) + |src| <= 0x8000_0000_0000_0000 ==> st == OK
    {
      st := Reserve(|src|, memory);
      if st != OK {
        return st;
      }
      forall i | 0 <= i < |src| {
        data[len + i] := src[i];
      }
      len := len + |src|;
      assert data[..len] == old(Contents()) + src;
    }

    method Clear()
      requires Valid()
      modifies this`len
      ensures Valid() && Contents() == []
    {
      len := 0;
    }

    /** fr_buf_consume: memmove the tail to the front. */
    method Consume(n: nat) returns (st: Status)
      requires Valid()
      modifies this`len, data
      ensures Valid()
      ensures st == if n > old(len) then E_RANGE else OK
      ensures Contents() == if st == OK then old(Contents())[n..] else old(Contents())
    {
      if n > len {
        return E_RANGE;
      }
      if n != 0 {
        forall i | 0 <= i < len - n {
          data[i] := data[i + n];
        }
        len := len - n;
      }
      assert data[..len] == old(Contents())[n..];
      return OK;
    }

    /** fr_buf_move: take over src's allocation and leave src empty. */
    method MoveFrom(src: FrBuf)
      requires Valid() && src.Valid()
      modifies this, src
      ensures Valid() && src.Valid()
      ensures this != src ==> Contents() == old(src.Contents()) && data == old(src.data)
      ensures this != src ==> src.Contents() == [] && fresh(src.data)
      ensures this == src ==> data == old(data) && Contents() == old(Contents())
    {
      if this == src {
        return;
      }
      data, len := src.data, src.len;
      src.data := new Byte[0];
      src.len := 0;
    }
  }

  /** fr_buf_reader: a cursor over borrowed bytes. A read past the end fails with
      E_RANGE and leaves the cursor where it was. */
  class Reader {
    const data: Bytes
    var pos: nat

    ghost predicate Valid()
      reads this
    {
      pos <= |data|
    }

    constructor (bytes: Bytes)
      ensures Valid() && data == bytes && pos == 0
    {
      data := bytes;
      pos := 0;
    }

    function Remaining(): nat
      requires Valid()
      reads this
    {
      |data| - pos
    }

    method Read(n: nat) returns (r: Result<Bytes>)
      requires Valid()
      modifies this
      ensures Valid()
      ensures r == if n > old(Remaining()) then Err(E_RANGE) else Ok(data[old(pos)..old(pos) + n])
      ensures pos == if r.Ok? then old(pos) + n else old(pos)
    {
      if n > Remaining() {
        return Err(E_RANGE);
      }
      r := Ok(data[pos..pos + n]);
      pos := pos + n;
    }

    method Skip(n: nat) returns (st: Status)
      requires Valid()
      modifies this
      ensures Valid()
      ensures st == if n > old(Remaining()) then E_RANGE else OK
      ensures pos == if st == OK then old(pos) + n else old(pos)
    {
      if n > Remaining() {
        return E_RANGE;
      }
      pos := pos + n;
      return OK;
    }
  }
}
