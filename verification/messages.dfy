/** The put_* and get_* primitives of `fr_messages.cpp` over the growable buffer and
    the reader, and the encoders and decoders with the most structure, against the
    payload format of module Wire. */
module Messages {
  import opened Bytes
  import opened ByteOrder
  import opened Buffer
  import opened Wire

  // ---- Writing -------------------------------------------------------------------------

  /** The buffer can take n more bytes; allocation is taken to succeed. */
  ghost predicate Room(out: FrBuf, n: nat)
    reads out
  {
    out.Valid() && out.len + n <= 0x8000_0000_0000_0000
  }

  method PutRaw(out: FrBuf, bytes: Bytes)
    requires Room(out, |bytes|)
    modifies out, out.data
    ensures out.Valid() && (out.data == old(out.data) || fresh(out.data))
    ensures out.Contents() == old(out.Contents()) + bytes && out.len == old(out.len) + |bytes|
  {
    hide IsCapacity;
    var st := out.Append(bytes, true);
  }

  method PutStr(out: FrBuf, value: Bytes) returns (st: Status)
    requires Room(out, 2 + MAX_STRING_LEN)
    modifies out, out.data
    ensures out.Valid() && (out.data == old(out.data) || fresh(out.data))
    ensures st == if Acceptable(Text, Raw(value)) then OK else E_ARG
    ensures out.Contents() == old(out.Contents()) + if st == OK then Enc(Text, Raw(value)) else []
    ensures out.len <= old(out.len) + 2 + MAX_STRING_LEN
  {
    hide IsCapacity;
    if |value| > MAX_STRING_LEN {
      return E_ARG;
    }
    PutRaw(out, Be16(|value|));
    PutRaw(out, value);
    Assoc(old(out.Contents()), Be16(|value|), value);
    return OK;
  }

  method PutDigest(out: FrBuf, hex: Bytes) returns (st: Status)
    requires Room(out, DIGEST_HEX_LEN)
    modifies out, out.data
    ensures out.Valid() && (out.data == old(out.data) || fresh(out.data))
    ensures st == if Acceptable(Digest, Raw(hex)) then OK else E_ARG
    ensures out.Contents() == old(out.Contents()) + if st == OK then Enc(Digest, Raw(hex)) else []
    ensures out.len <= old(out.len) + DIGEST_HEX_LEN
  {
    if |hex| != DIGEST_HEX_LEN {
      return E_ARG;
    }
    PutRaw(out, hex);
    return OK;
  }

  method PutU8(out: FrBuf, v: Byte)
    requires Room(out, 1)
    modifies out, out.data
    ensures out.Valid() && (out.data == old(out.data) || fresh(out.data))
    ensures out.Contents() == old(out.Contents()) + Be(v, 1) && out.len == old(out.len) + 1
  {
    OneByte(v);
    PutRaw(out, [v]);
  }

  lemma OneByte(v: Byte)
    ensures Be(v, 1) == [v] && Load([v]) == v
  {
    assert Be(v / 256, 0) == [];
    assert Load([v][..0]) == 0;
  }

  method PutU32(out: FrBuf, v: U32)
    requires Room(out, 4)
    modifies out, out.data
    ensures out.Valid() && (out.data == old(out.data) || fresh(out.data))
    ensures out.Contents() == old(out.Contents()) + Be(v, 4) && out.len == old(out.len) + 4
  {
    PutRaw(out, Be32(v));
  }

  method PutU64(out: FrBuf, v: U64)
    requires Room(out, 8)
    modifies out, out.data
    ensures out.Valid() && (out.data == old(out.data) || fresh(out.data))
    ensures out.Contents() == old(out.Contents()) + Be(v, 8) && out.len == old(out.len) + 8
  {
    PutRaw(out, Be64(v));
  }

  /** put_i64: the cast to uint64_t, then put_u64. */
  method PutI64(out: FrBuf, v: I64)
    requires Room(out, 8)
    modifies out, out.data
    ensures out.Valid() && (out.data == old(out.data) || fresh(out.data))
    ensures Acceptable(I64_FIELD, Num(v))
    ensures out.Contents() == old(out.Contents()) + Enc(I64_FIELD, Num(v)) && out.len == old(out.len) + 8
  {
    Widths();
    PutU64(out, if v < 0 then v + TWO_64 else v);
  }

  // ---- Reading -------------------------------------------------------------------------

  ghost function Unread(src: Reader): Bytes
    requires src.Valid()
    reads src
  {
    src.data[src.pos..]
  }

  method GetRaw(src: Reader, n: nat) returns (r: Result<Bytes>)
    requires src.Valid()
    modifies src
    ensures src.Valid()
    ensures match DecRaw(n, old(Unread(src)))
            case Bad => r == Err(E_PROTOCOL)
            case Got(v, rest) => r == Ok(v.bytes) && Unread(src) == rest
  {
    var got := src.Read(n);
    match got {
      case Err(_) => return Err(E_PROTOCOL);
      case Ok(bytes) =>
        assert src.data[old(src.pos)..][..n] == bytes && src.data[old(src.pos)..][n..] == Unread(src);
        return Ok(bytes);
    }
  }

  method GetNumber(src: Reader, w: nat) returns (r: Result<nat>)
    requires src.Valid()
    modifies src
    ensures src.Valid()
    ensures match DecNumber(w, old(Unread(src)))
            case Bad => r == Err(E_PROTOCOL)
            case Got(v, rest) => r == Ok(v.n) && Unread(src) == rest
  {
    var raw := GetRaw(src, w);
    match raw {
      case Err(code) => return Err(code);
      case Ok(bytes) => return Ok(Load(bytes));
    }
  }

  method GetStr(src: Reader) returns (r: Result<Bytes>)
    requires src.Valid()
    modifies src
    ensures src.Valid()
    ensures match Dec(Text, old(Unread(src)))
            case Bad => r == Err(E_PROTOCOL)
            case Got(v, rest) => r == Ok(v.bytes) && Unread(src) == rest
  {
    var len := GetNumber(src, 2);
    match len {
      case Err(code) => return Err(code);
      case Ok(n) =>
        if n > MAX_STRING_LEN {
          return Err(E_PROTOCOL);
        }
        r := GetRaw(src, n);
    }
  }

  method GetDigest(src: Reader) returns (r: Result<Bytes>)
    requires src.Valid()
    modifies src
    ensures src.Valid()
    ensures match Dec(Digest, old(Unread(src)))
            case Bad => r == Err(E_PROTOCOL)
            case Got(v, rest) => r == Ok(v.bytes) && Unread(src) == rest
  {
    r := GetRaw(src, DIGEST_HEX_LEN);
  }

  method GetI64(src: Reader) returns (r: Result<I64>)
    requires src.Valid()
    modifies src
    ensures src.Valid()
    ensures match Dec(I64_FIELD, old(Unread(src)))
            case Bad => r == Err(E_PROTOCOL)
            case Got(v, rest) => r == Ok(v.n) && Unread(src) == rest
  {
    Widths();
    var raw := GetNumber(src, 8);
    match raw {
      case Err(code) => return Err(code);
      case Ok(u) => return Ok(if u < 0x8000_0000_0000_0000 then u else u - TWO_64);
    }
  }

  /** A presence byte and, when it is not zero, a string. */
  method GetOptionalStr(src: Reader) returns (r: Result<Option<Bytes>>)
    requires src.Valid()
    modifies src
    ensures src.Valid()
    ensures match Dec(Optional(Text), old(Unread(src)))
            case Bad => r == Err(E_PROTOCOL)
            case Got(v, rest) => r.Ok? && v == OptionalValue(r.value) && Unread(src) == rest
  {
    hide DecNumber;
    var present := GetNumber(src, 1);
    match present {
      case Err(code) => return Err(code);
      case Ok(n) =>
        if n == 0 {
          return Ok(None);
        }
        TextIsRaw(Unread(src));
        hide Dec;
        var text := GetStr(src);
        match text {
          case Err(code) => return Err(code);
          case Ok(value) => return Ok(Some(value));
        }
    }
  }

  lemma TextIsRaw(s: Bytes)
    ensures Dec(Text, s).Got? ==> Dec(Text, s).value.Raw?
  {
  }

  function OptionalValue(o: Option<Bytes>): Value {
    match o
    case None => Absent
    case Some(b) => Present(Raw(b))
  }

  method PutOptionalStr(out: FrBuf, o: Option<Bytes>) returns (st: Status)
    requires Room(out, 3 + MAX_STRING_LEN)
    modifies out, out.data
    ensures out.Valid() && (out.data == old(out.data) || fresh(out.data))
    ensures st == if Acceptable(Optional(Text), OptionalValue(o)) then OK else E_ARG
    ensures st == OK ==> out.Contents() == old(out.Contents()) + Enc(Optional(Text), OptionalValue(o))
    ensures out.len <= old(out.len) + 3 + MAX_STRING_LEN
  {
    OneByte(0);
    OneByte(1);
    hide IsCapacity, Be;
    PutU8(out, if o.Some? then 1 else 0);
    st := OK;
    if o.Some? {
      st := PutStr(out, o.value);
      if st == OK {
        Assoc(old(out.Contents()), [1], Enc(Text, Raw(o.value)));
      }
    }
  }

  // ---- LIST_ARTIFACTS request: two optional fields -------------------------------------

  datatype ListReq = ListReq(ns: Option<Bytes>, name: Option<Bytes>, limit: U32, offset: U32)

  function ListReqValue(q: ListReq): Value {
    Both(OptionalValue(q.ns), Both(OptionalValue(q.name), Both(Num(q.limit), Num(q.offset))))
  }

  const LIST_REQ := ShapeOf(ListArtifactsReq)

  /** Four pieces appended one by one, and nested as a record nests them. */
  lemma Nest4(s: Bytes, a: Bytes, b: Bytes, c: Bytes, d: Bytes)
    ensures s + a + b + c + d == s + (a + (b + (c + d)))
  {
  }

  lemma ListReqParts(q: ListReq)
    ensures Acceptable(LIST_REQ, ListReqValue(q)) <==>
            Acceptable(Optional(Text), OptionalValue(q.ns)) && Acceptable(Optional(Text), OptionalValue(q.name))
    ensures Acceptable(LIST_REQ, ListReqValue(q)) ==>
              Enc(LIST_REQ, ListReqValue(q)) ==
              Enc(Optional(Text), OptionalValue(q.ns))
              + (Enc(Optional(Text), OptionalValue(q.name)) + (Be(q.limit, 4) + Be(q.offset, 4)))
  {
    hide Enc, Acceptable, OptionalValue, Be;
    var ns, name, numbers := OptionalValue(q.ns), OptionalValue(q.name), Both(Num(q.limit), Num(q.offset));
    NumberParts(q.limit, q.offset);
    ThenParts(Optional(Text), Then(U32_FIELD, U32_FIELD), name, numbers);
    ThenParts(Optional(Text), Then(Optional(Text), Then(U32_FIELD, U32_FIELD)), ns, Both(name, numbers));
  }

  lemma NumberParts(a: U32, b: U32)
    ensures Acceptable(U32_FIELD, Num(a)) && Enc(U32_FIELD, Num(a)) == Be(a, 4)
    ensures Acceptable(Then(U32_FIELD, U32_FIELD), Both(Num(a), Num(b)))
    ensures Enc(Then(U32_FIELD, U32_FIELD), Both(Num(a), Num(b))) == Be(a, 4) + Be(b, 4)
  {
    SmallWidths();
    hide Be;
  }

  method EncodeListReq(out: FrBuf, q: ListReq) returns (st: Status)
    requires Room(out, 2 * (3 + MAX_STRING_LEN) + 8)
    modifies out, out.data
    ensures out.Valid() && (out.data == old(out.data) || fresh(out.data))
    ensures st == if Acceptable(LIST_REQ, ListReqValue(q)) then OK else E_ARG
    ensures st == OK ==> out.Contents() == old(out.Contents()) + Enc(LIST_REQ, ListReqValue(q))
  {
    ListReqParts(q);
    hide IsCapacity, Be, Enc, Acceptable;
    st := PutOptionalStr(out, q.ns);
    if st != OK {
      return;
    }
    st := PutOptionalStr(out, q.name);
    if st != OK {
      return;
    }
    PutU32(out, q.limit);
    PutU32(out, q.offset);
    Nest4(old(out.Contents()), Enc(Optional(Text), OptionalValue(q.ns)), Enc(Optional(Text), OptionalValue(q.name)),
          Be(q.limit, 4), Be(q.offset, 4));
  }

  method DecodeListReq(src: Reader) returns (r: Result<ListReq>)
    requires src.Valid()
    modifies src
    ensures src.Valid()
    ensures match Dec(LIST_REQ, old(Unread(src)))
            case Bad => r == Err(E_PROTOCOL)
            case Got(v, rest) => r.Ok? && v == ListReqValue(r.value) && Unread(src) == rest
  {
    SmallWidths();
    hide DecNumber, DecPrefixed, DecRaw;
    var ns := GetOptionalStr(src);
    if ns.Err? {
      return Err(E_PROTOCOL);
    }
    var name := GetOptionalStr(src);
    if name.Err? {
      return Err(E_PROTOCOL);
    }
    var limit := GetNumber(src, 4);
    if limit.Err? {
      return Err(E_PROTOCOL);
    }
    var offset := GetNumber(src, 4);
    if offset.Err? {
      return Err(E_PROTOCOL);
    }
    return Ok(ListReq(ns.value, name.value, limit.value, offset.value));
  }

  // ---- LIST_ARTIFACTS reply: a counted list of records ------------------------------------

  datatype Ref = Ref(ns: Bytes, name: Bytes, version: Bytes)

  datatype Summary = Summary(ref: Ref, size: U64, digest: Bytes, creator: Bytes, createdAt: I64)

  function RefValue(ref: Ref): Value { Both(Raw(ref.ns), Both(Raw(ref.name), Raw(ref.version))) }

  function SummaryValue(m: Summary): Value {
    Both(RefValue(m.ref), Both(Num(m.size), Both(Raw(m.digest), Both(Raw(m.creator), Num(m.createdAt)))))
  }

  function SummaryValues(items: seq<Summary>): (vs: seq<Value>)
    ensures |vs| == |items|
    ensures forall i :: 0 <= i < |items| ==> vs[i] == SummaryValue(items[i])
  {
    seq(|items|, i requires 0 <= i < |items| => SummaryValue(items[i]))
  }

  lemma Nest3(s: Bytes, a: Bytes, b: Bytes, c: Bytes)
    ensures s + a + b + c == s + (a + (b + c))
  {
  }

  method PutRef(out: FrBuf, ref: Ref) returns (st: Status)
    requires Room(out, 3 * (2 + MAX_STRING_LEN))
    modifies out, out.data
    ensures out.Valid() && (out.data == old(out.data) || fresh(out.data))
    ensures st == if Acceptable(REF, RefValue(ref)) then OK else E_ARG
    ensures st == OK ==> out.Contents() == old(out.Contents()) + Enc(REF, RefValue(ref))
    ensures out.len <= old(out.len) + 3 * (2 + MAX_STRING_LEN)
  {
    hide IsCapacity, Be;
    st := PutStr(out, ref.ns);
    if st != OK {
      return;
    }
    st := PutStr(out, ref.name);
    if st != OK {
      return;
    }
    st := PutStr(out, ref.version);
    if st != OK {
      return;
    }
    Nest3(old(out.Contents()), Enc(Text, Raw(ref.ns)), Enc(Text, Raw(ref.name)), Enc(Text, Raw(ref.version)));
  }

  const SUMMARY_MAX := 4 * (2 + MAX_STRING_LEN) + 8 + DIGEST_HEX_LEN + 8

  lemma Nest5(s: Bytes, a: Bytes, b: Bytes, c: Bytes, d: Bytes, e: Bytes)
    ensures s + a + b + c + d + e == s + (a + (b + (c + (d + e))))
  {
    Nest4(s + a, b, c, d, e);
    Assoc(s, a, b + (c + (d + e)));
  }

  lemma SummaryParts(m: Summary)
    ensures Acceptable(SUMMARY, SummaryValue(m)) <==>
            Acceptable(REF, RefValue(m.ref)) && Acceptable(Digest, Raw(m.digest)) && Acceptable(Text, Raw(m.creator))
    ensures Acceptable(I64_FIELD, Num(m.createdAt))
    ensures Acceptable(SUMMARY, SummaryValue(m)) ==>
              Enc(SUMMARY, SummaryValue(m)) ==
              Enc(REF, RefValue(m.ref)) + (Be(m.size, 8) + (Enc(Digest, Raw(m.digest))
              + (Enc(Text, Raw(m.creator)) + Enc(I64_FIELD, Num(m.createdAt)))))
  {
    Widths();
    hide RefValue;
  }

  method EncodeSummary(out: FrBuf, m: Summary) returns (st: Status)
    requires Room(out, SUMMARY_MAX)
    modifies out, out.data
    ensures out.Valid() && (out.data == old(out.data) || fresh(out.data))
    ensures st == if Acceptable(SUMMARY, SummaryValue(m)) then OK else E_ARG
    ensures st == OK ==> out.Contents() == old(out.Contents()) + Enc(SUMMARY, SummaryValue(m))
    ensures out.len <= old(out.len) + SUMMARY_MAX
  {
    SummaryParts(m);
    hide IsCapacity, Be, Enc, Acceptable, SummaryValue;
    st := PutRef(out, m.ref);
    if st != OK {
      return;
    }
    PutU64(out, m.size);
    st := PutDigest(out, m.digest);
    if st != OK {
      return;
    }
    st := PutStr(out, m.creator);
    if st != OK {
      return;
    }
    PutI64(out, m.createdAt);
    Nest5(old(out.Contents()), Enc(REF, RefValue(m.ref)), Be(m.size, 8), Enc(Digest, Raw(m.digest)),
          Enc(Text, Raw(m.creator)), Enc(I64_FIELD, Num(m.createdAt)));
  }

  lemma {:induction false} AllSnoc(item: Shape, vs: seq<Value>, v: Value)
    requires AllAcceptable(item, vs)
    ensures AllAcceptable(item, vs + [v]) <==> Acceptable(item, v)
    ensures Acceptable(item, v) ==> EncAll(item, vs + [v]) == EncAll(item, vs) + Enc(item, v)
  {
    hide Acceptable, Enc;
    if vs == [] {
      assert [] + [v] == [v] && [v][1..] == [];
    } else {
      assert (vs + [v])[1..] == vs[1..] + [v];
      AllSnoc(item, vs[1..], v);
    }
  }

  lemma {:induction false} AllPrefix(item: Shape, vs: seq<Value>, n: nat)
    requires AllAcceptable(item, vs) && n <= |vs|
    ensures AllAcceptable(item, vs[..n])
  {
    hide Acceptable;
    if n != 0 {
      assert vs[..n][1..] == vs[1..][..n - 1];
      AllPrefix(item, vs[1..], n - 1);
    }
  }

  /** The list loop of encode_list_artifacts_ok; the count is not limited here. */
  method EncodeListOk(out: FrBuf, items: seq<Summary>) returns (st: Status)
    requires |items| < 0x1_0000_0000 && Room(out, 4 + |items| * SUMMARY_MAX)
    modifies out, out.data
    ensures out.Valid()
    ensures st == if AllAcceptable(SUMMARY, SummaryValues(items)) then OK else E_ARG
    ensures st == OK ==>
              out.Contents() == old(out.Contents()) + (Be(|items|, 4) + EncAll(SUMMARY, SummaryValues(items)))
  {
    hide IsCapacity, Be, Enc, Acceptable, SummaryValue;
    ghost var vs := SummaryValues(items);
    ghost var head := old(out.Contents()) + Be(|items|, 4);
    PutU32(out, |items|);
    assert vs[..0] == [];
    for i := 0 to |items|
      invariant out.Valid() && (out.data == old(out.data) || fresh(out.data))
      invariant out.len + (|items| - i) * SUMMARY_MAX <= 0x8000_0000_0000_0000
      invariant AllAcceptable(SUMMARY, vs[..i]) && out.Contents() == head + EncAll(SUMMARY, vs[..i])
    {
      assert vs[..i + 1] == vs[..i] + [vs[i]];
      AllSnoc(SUMMARY, vs[..i], vs[i]);
      st := EncodeSummary(out, items[i]);
      if st != OK {
        if AllAcceptable(SUMMARY, vs) {
          AllPrefix(SUMMARY, vs, i + 1);
        }
        return;
      }
      Assoc(head, EncAll(SUMMARY, vs[..i]), Enc(SUMMARY, vs[i]));
    }
    assert vs[..|items|] == vs;
    Assoc(old(out.Contents()), Be(|items|, 4), EncAll(SUMMARY, vs));
    return OK;
  }

  method GetRef(src: Reader) returns (r: Result<Ref>)
    requires src.Valid()
    modifies src
    ensures src.Valid()
    ensures match Dec(REF, old(Unread(src)))
            case Bad => r == Err(E_PROTOCOL)
            case Got(v, rest) => r.Ok? && v == RefValue(r.value) && Unread(src) == rest
  {
    hide DecNumber, DecPrefixed, DecRaw;
    TextIsRaw(Unread(src));
    var ns := GetStr(src);
    if ns.Err? {
      return Err(E_PROTOCOL);
    }
    TextIsRaw(Unread(src));
    var name := GetStr(src);
    if name.Err? {
      return Err(E_PROTOCOL);
    }
    TextIsRaw(Unread(src));
    var version := GetStr(src);
    if version.Err? {
      return Err(E_PROTOCOL);
    }
    return Ok(Ref(ns.value, name.value, version.value));
  }

  /** decode_artifact_summary. */
  method DecodeSummary(src: Reader) returns (r: Result<Summary>)
    requires src.Valid()
    modifies src
    ensures src.Valid()
    ensures match Dec(SUMMARY, old(Unread(src)))
            case Bad => r == Err(E_PROTOCOL)
            case Got(v, rest) => r.Ok? && v == SummaryValue(r.value) && Unread(src) == rest
  {
    Widths();
    hide DecPrefixed, DecRaw, RefValue;
    var ref := GetRef(src);
    if ref.Err? {
      return Err(E_PROTOCOL);
    }
    var size := GetNumber(src, 8);
    if size.Err? {
      return Err(E_PROTOCOL);
    }
    DigestIsRaw(Unread(src));
    var digest := GetDigest(src);
    if digest.Err? {
      return Err(E_PROTOCOL);
    }
    TextIsRaw(Unread(src));
    var creator := GetStr(src);
    if creator.Err? {
      return Err(E_PROTOCOL);
    }
    var createdAt := GetI64(src);
    if createdAt.Err? {
      return Err(E_PROTOCOL);
    }
    return Ok(Summary(ref.value, size.value, digest.value, creator.value, createdAt.value));
  }

  lemma DigestIsRaw(s: Bytes)
    ensures Dec(Digest, s).Got? ==> Dec(Digest, s).value.Raw?
  {
  }

  /** Items already decoded, in front of what is still to come. */
  function Prepend(vs: seq<Value>, d: Decoded): Decoded {
    if d.Got? && d.value.Items? then Got(Items(vs + d.value.items), d.rest) else Bad
  }

  lemma DecAllStep(item: Shape, count: nat, s: Bytes, vs: seq<Value>)
    requires count > 0
    ensures Prepend(vs, DecAll(item, count, s)) ==
            match Dec(item, s)
            case Bad => Bad
            case Got(v, rest) => Prepend(vs + [v], DecAll(item, count - 1, rest))
  {
    hide Dec;
    if Dec(item, s).Got? && DecAll(item, count - 1, Dec(item, s).rest).Got? {
      Assoc(vs, [Dec(item, s).value], DecAll(item, count - 1, Dec(item, s).rest).value.items);
    }
  }

  /** The list loop of decode_list_artifacts_ok. */
  method DecodeListOk(src: Reader) returns (r: Result<seq<Summary>>)
    requires src.Valid()
    modifies src
    ensures src.Valid()
    ensures match Dec(ShapeOf(ListArtifactsOk), old(Unread(src)))
            case Bad => r == Err(E_PROTOCOL)
            case Got(v, rest) => r.Ok? && v == Items(SummaryValues(r.value)) && Unread(src) == rest
  {
    var count := GetNumber(src, 4);
    if count.Err? {
      return Err(E_PROTOCOL);
    }
    if count.value > MAX_LIST {
      return Err(E_PROTOCOL);
    }
    r := DecodeItems(src, count.value);
  }

  method DecodeItems(src: Reader, count: nat) returns (r: Result<seq<Summary>>)
    requires src.Valid()
    modifies src
    ensures src.Valid()
    ensures match DecAll(SUMMARY, count, old(Unread(src)))
            case Bad => r == Err(E_PROTOCOL)
            case Got(v, rest) => r.Ok? && v == Items(SummaryValues(r.value)) && Unread(src) == rest
  {
    hide Dec, DecAll, SummaryValue, DecNumber, SummaryValues;
    ghost var all := DecAll(SUMMARY, count, Unread(src));
    var items: seq<Summary> := [];
    assert SummaryValues([]) == [];
    PrependNothing(SUMMARY, count, Unread(src));
    for i := 0 to count
      invariant src.Valid() && |items| == i
      invariant Prepend(SummaryValues(items), DecAll(SUMMARY, count - i, Unread(src))) == all
    {
      DecAllStep(SUMMARY, count - i, Unread(src), SummaryValues(items));
      var item := DecodeSummary(src);
      if item.Err? {
        return Err(E_PROTOCOL);
      }
      ValuesSnoc(items, item.value);
      items := items + [item.value];
    }
    NoneLeft(SUMMARY, Unread(src), SummaryValues(items));
    return Ok(items);
  }

  lemma ValuesSnoc(items: seq<Summary>, m: Summary)
    ensures SummaryValues(items + [m]) == SummaryValues(items) + [SummaryValue(m)]
  {
  }

  lemma PrependNothing(item: Shape, count: nat, s: Bytes)
    ensures Prepend([], DecAll(item, count, s)) == DecAll(item, count, s)
  {
    hide DecAll;
    var d := DecAll(item, count, s);
    if d.Got? {
      assert [] + d.value.items == d.value.items;
    }
  }

  lemma NoneLeft(item: Shape, s: Bytes, vs: seq<Value>)
    ensures Prepend(vs, DecAll(item, 0, s)) == Got(Items(vs), s)
  {
    assert vs + [] == vs;
  }

  // ---- PUT_CHUNK request: the rest of the payload -------------------------------------------

  datatype ChunkReq = ChunkReq(session: Bytes, ordinal: U64, data: Bytes)

  function ChunkReqValue(q: ChunkReq): Value { Both(Raw(q.session), Both(Num(q.ordinal), Raw(q.data))) }

  method EncodeChunkReq(out: FrBuf, q: ChunkReq) returns (st: Status)
    requires Room(out, 2 + MAX_STRING_LEN + 8 + |q.data|)
    modifies out, out.data
    ensures out.Valid()
    ensures st == if Acceptable(ShapeOf(PutChunkReq), ChunkReqValue(q)) then OK else E_ARG
    ensures st == OK ==> out.Contents() == old(out.Contents()) + Enc(ShapeOf(PutChunkReq), ChunkReqValue(q))
  {
    Widths();
    hide IsCapacity, Be;
    st := PutStr(out, q.session);
    if st != OK {
      return;
    }
    PutU64(out, q.ordinal);
    PutRaw(out, q.data);
    Nest3(old(out.Contents()), Enc(Text, Raw(q.session)), Be(q.ordinal, 8), q.data);
  }

  method DecodeChunkReq(src: Reader) returns (r: Result<ChunkReq>)
    requires src.Valid()
    modifies src
    ensures src.Valid()
    ensures match Dec(ShapeOf(PutChunkReq), old(Unread(src)))
            case Bad => r == Err(E_PROTOCOL)
            case Got(v, rest) => r.Ok? && v == ChunkReqValue(r.value) && rest == [] == Unread(src)
  {
    Widths();
    hide DecPrefixed, DecRaw;
    TextIsRaw(Unread(src));
    var session := GetStr(src);
    if session.Err? {
      return Err(E_PROTOCOL);
    }
    var ordinal := GetNumber(src, 8);
    if ordinal.Err? {
      return Err(E_PROTOCOL);
    }
    var data := src.data[src.pos..];
    var _ := src.Skip(src.Remaining());
    return Ok(ChunkReq(session.value, ordinal.value, data));
  }
}
