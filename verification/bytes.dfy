/** Machine bytes and words, byte strings, and the handful of sequence facts
    the other modules share. */
module Bytes {
  type Byte = x: int | 0 <= x < 256
  type U16 = x: int | 0 <= x < 0x1_0000
  type U32 = x: int | 0 <= x < 0x1_0000_0000
  type U64 = x: int | 0 <= x < 0x1_0000_0000_0000_0000
  type I64 = x: int | -0x8000_0000_0000_0000 <= x < 0x8000_0000_0000_0000

  const TWO_64: int := 0x1_0000_0000_0000_0000
  const U64_MAX: U64 := 0xFFFF_FFFF_FFFF_FFFF

  type Bytes = seq<Byte>

  datatype Option<+T> = None | Some(value: T)

  /** The stable `fr_status` codes the modelled code can return or throw. */
  datatype Status =
    | OK
    | E_ARG
    | E_RANGE
    | E_OVERFLOW
    | E_NOMEM
    | E_IO
    | E_EOF
    | E_PROTOCOL
    | E_STATE
    | E_NOTFOUND
    | E_EXISTS
    | E_LIMIT
    | E_BUSY
    | E_CONFLICT
    | E_EXPIRED
    | E_INTERNAL
  {
    predicate IsFailure() { !OK? }

    function PropagateFailure(): Status { this }
  }

  datatype Result<+T> = Ok(value: T) | Err(code: Status) {
    predicate IsFailure() { Err? }

    function PropagateFailure<U>(): Result<U>
      requires IsFailure()
    {
      Err(code)
    }

    function Extract(): T
      requires !IsFailure()
    {
      value
    }
  }

  function Min(a: int, b: int): int { if a < b then a else b }

  /** Concatenation of a list of pieces, in order. */
  function Flatten<T>(pieces: seq<seq<T>>): seq<T> {
    if pieces == [] then [] else pieces[0] + Flatten(pieces[1..])
  }

  lemma {:induction false} FlattenAppend<T>(a: seq<seq<T>>, b: seq<seq<T>>)
    ensures Flatten(a + b) == Flatten(a) + Flatten(b)
  {
    if a == [] {
      assert a + b == b;
    } else {
      assert (a + b)[1..] == a[1..] + b;
      FlattenAppend(a[1..], b);
    }
  }

  lemma FlattenSnoc<T>(a: seq<seq<T>>, p: seq<T>)
    ensures Flatten(a + [p]) == Flatten(a) + p
  {
    FlattenAppend(a, [p]);
    assert Flatten([p]) == p + Flatten<T>([]) == p;
  }

  lemma Cut<T>(s: seq<T>, n: nat)
    requires n <= |s|
    ensures s[..n] + s[n..] == s
  {
  }

  lemma Assoc<T>(a: seq<T>, b: seq<T>, c: seq<T>)
    ensures a + (b + c) == (a + b) + c
  {
  }

  /** s[offset .. offset+n), clipped to the end of s. */
  function Slice<T>(s: seq<T>, offset: nat, n: nat): seq<T>
    requires offset <= |s|
  {
    if n < |s| - offset then s[offset..offset + n] else s[offset..]
  }

  /** Adjacent slices concatenate to the slice of the union. */
  lemma SliceAdjacent<T>(s: seq<T>, offset: nat, m: nat, n: nat)
    requires offset + m <= |s|
    ensures Slice(s, offset, m) + Slice(s, offset + m, n) == Slice(s, offset, m + n)
  {
  }
}
