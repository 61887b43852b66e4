/** The SHOW_ARTIFACT reply: a record that ends in the manifest, one entry per chunk.
    Its encoder and decoder against the payload format, how long it is, and which
    artifacts are too large to be shown. */
module ManifestCodec {
  import opened Bytes
  import opened ByteOrder
  import opened Buffer
  import opened Wire
  import opened Messages
  import Frame

  datatype Entry = Entry(ordinal: U32, offset: U64, length: U64, digest: Bytes)

  datatype Info = Info(ref: Ref, size: U64, digest: Bytes, chunkSize: U64, creator: Bytes, createdAt: I64,
                       note: Bytes, chunks: seq<Entry>)

  function EntryValue(e: Entry): Value {
    Both(Num(e.ordinal), Both(Num(e.offset), Both(Num(e.length), Raw(e.digest))))
  }

  function EntryValues(es: seq<Entry>): (vs: seq<Value>)
    ensures |vs| == |es|
    ensures forall i :: 0 <= i < |es| ==> vs[i] == EntryValue(es[i])
  {
    seq(|es|, i requires 0 <= i < |es| => EntryValue(es[i]))
  }

  function TailValue(x: Info): Value {
    Both(Num(x.chunkSize), Both(Raw(x.creator), Both(Num(x.createdAt),
         Both(Raw(x.note), Items(EntryValues(x.chunks))))))
  }

  function InfoValue(x: Info): Value {
    Both(RefValue(x.ref), Both(Num(x.size), Both(Raw(x.digest), TailValue(x))))
  }

  const ENTRY_SIZE := 4 + 8 + 8 + DIGEST_HEX_LEN
  const MANIFEST := Counted(ENTRY, MAX_MANIFEST)
  const INFO_HEAD_MAX := 3 * (2 + MAX_STRING_LEN) + 8 + DIGEST_HEX_LEN
  const INFO_TAIL_MAX := 8 + 2 * (2 + MAX_STRING_LEN) + 8 + 4

  // ---- Writing ----------------------------------------------------------------------

  lemma EntryParts(e: Entry)
    ensures Acceptable(ENTRY, EntryValue(e)) <==> Acceptable(Digest, Raw(e.digest))
    ensures Acceptable(ENTRY, EntryValue(e)) ==>
              && Enc(ENTRY, EntryValue(e)) ==
                 Be(e.ordinal, 4) + (Be(e.offset, 8) + (Be(e.length, 8) + Enc(Digest, Raw(e.digest))))
              && |Enc(ENTRY, EntryValue(e))| == ENTRY_SIZE
  {
    Widths();
  }

  method EncodeEntry(out: FrBuf, e: Entry) returns (st: Status)
    requires Room(out, ENTRY_SIZE)
    modifies out, out.data
    ensures out.Valid() && (out.data == old(out.data) || fresh(out.data))
    ensures st == if Acceptable(ENTRY, EntryValue(e)) then OK else E_ARG
    ensures st == OK ==> out.Contents() == old(out.Contents()) + Enc(ENTRY, EntryValue(e))
    ensures out.len <= old(out.len) + ENTRY_SIZE
  {
    EntryParts(e);
    hide IsCapacity, Be, Enc, Acceptable;
    PutU32(out, e.ordinal);
    PutU64(out, e.offset);
    PutU64(out, e.length);
    st := PutDigest(out, e.digest);
    if st == OK {
      Nest4(old(out.Contents()), Be(e.ordinal, 4), Be(e.offset, 8), Be(e.length, 8), Enc(Digest, Raw(e.digest)));
    }
  }

  /** The loop of encode_show_artifact_ok. */
  method PutEntries(out: FrBuf, es: seq<Entry>) returns (st: Status)
    requires Room(out, |es| * ENTRY_SIZE)
    modifies out, out.data
    ensures out.Valid() && (out.data == old(out.data) || fresh(out.data))
    ensures st == if AllAcceptable(ENTRY, EntryValues(es)) then OK else E_ARG
    ensures st == OK ==> out.Contents() == old(out.Contents()) + EncAll(ENTRY, EntryValues(es))
  {
    hide IsCapacity, Be, EntryValue, EntryValues, Enc, EncAll, Acceptable, AllAcceptable;
    ghost var vs := EntryValues(es);
    ghost var head := old(out.Contents());
    NoEntries(vs);
    assert head + [] == head;
    for i := 0 to |es|
      invariant out.Valid() && (out.data == old(out.data) || fresh(out.data))
      invariant out.len + (|es| - i) * ENTRY_SIZE <= 0x8000_0000_0000_0000
      invariant AllAcceptable(ENTRY, vs[..i]) && out.Contents() == head + EncAll(ENTRY, vs[..i])
    {
      NextEntry(es, i);
      st := EncodeEntry(out, es[i]);
      if st != OK {
        return;
      }
      Assoc(head, EncAll(ENTRY, vs[..i]), Enc(ENTRY, EntryValue(es[i])));
    }
    return OK;
  }

  lemma NoEntries(vs: seq<Value>)
    ensures AllAcceptable(ENTRY, vs[..0]) && EncAll(ENTRY, vs[..0]) == [] && vs[..|vs|] == vs
  {
  }

  lemma NextEntry(es: seq<Entry>, i: nat)
    requires i < |es| && AllAcceptable(ENTRY, EntryValues(es)[..i])
    ensures var vs, v := EntryValues(es), EntryValue(es[i]);
            if Acceptable(ENTRY, v) then
              AllAcceptable(ENTRY, vs[..i + 1]) && EncAll(ENTRY, vs[..i + 1]) == EncAll(ENTRY, vs[..i]) + Enc(ENTRY, v)
            else !AllAcceptable(ENTRY, vs)
  {
    hide Enc, EncAll, Acceptable, AllAcceptable, EntryValue;
    var vs := EntryValues(es);
    assert vs[..i + 1] == vs[..i] + [vs[i]];
    AllSnoc(ENTRY, vs[..i], vs[i]);
    if AllAcceptable(ENTRY, vs) {
      AllPrefix(ENTRY, vs, i + 1);
    }
  }

  /** The count as the cast to 32 bits leaves it, and the entries. */
  function ManifestBytes(es: seq<Entry>): Bytes
    requires AllAcceptable(ENTRY, EntryValues(es))
  {
    Be(|es| % 0x1_0000_0000, 4) + EncAll(ENTRY, EntryValues(es))
  }

  method PutManifest(out: FrBuf, es: seq<Entry>) returns (st: Status)
    requires Room(out, 4 + |es| * ENTRY_SIZE)
    modifies out, out.data
    ensures out.Valid() && (out.data == old(out.data) || fresh(out.data))
    ensures st == if AllAcceptable(ENTRY, EntryValues(es)) then OK else E_ARG
    ensures st == OK ==> out.Contents() == old(out.Contents()) + ManifestBytes(es)
  {
    hide IsCapacity, Be, EncAll, AllAcceptable, EntryValues;
    PutU32(out, |es| % 0x1_0000_0000);
    st := PutEntries(out, es);
    if st == OK {
      Assoc(old(out.Contents()), Be(|es| % 0x1_0000_0000, 4), EncAll(ENTRY, EntryValues(es)));
    }
  }

  /** What the encoder accepts: texts of at most 512 bytes, digests of 64. */
  predicate FieldsOk(x: Info) {
    && Acceptable(REF, RefValue(x.ref)) && Acceptable(Digest, Raw(x.digest))
    && Acceptable(Text, Raw(x.creator)) && Acceptable(Text, Raw(x.note))
    && AllAcceptable(ENTRY, EntryValues(x.chunks))
  }

  function CreatedAt(x: Info): Bytes {
    Be(if x.createdAt < 0 then x.createdAt + TWO_64 else x.createdAt, 8)
  }

  function TailBytes(x: Info): Bytes
    requires FieldsOk(x)
  {
    Be(x.chunkSize, 8)
    + (Enc(Text, Raw(x.creator)) + (CreatedAt(x) + (Enc(Text, Raw(x.note)) + ManifestBytes(x.chunks))))
  }

  /** The payload. */
  function InfoBytes(x: Info): Bytes
    requires FieldsOk(x)
  {
    Enc(REF, RefValue(x.ref)) + (Be(x.size, 8) + (Enc(Digest, Raw(x.digest)) + TailBytes(x)))
  }

  lemma CreatedAtIs(x: Info)
    ensures Acceptable(I64_FIELD, Num(x.createdAt)) && Enc(I64_FIELD, Num(x.createdAt)) == CreatedAt(x)
  {
    Widths();
  }

  method EncodeTail(out: FrBuf, x: Info) returns (st: Status)
    requires Room(out, INFO_TAIL_MAX + |x.chunks| * ENTRY_SIZE)
    requires Acceptable(REF, RefValue(x.ref)) && Acceptable(Digest, Raw(x.digest))
    modifies out, out.data
    ensures out.Valid() && (out.data == old(out.data) || fresh(out.data))
    ensures st == if FieldsOk(x) then OK else E_ARG
    ensures st == OK ==> out.Contents() == old(out.Contents()) + TailBytes(x)
  {
    CreatedAtIs(x);
    hide IsCapacity, Be, Enc, Acceptable, EntryValues, ManifestBytes, CreatedAt;
    PutU64(out, x.chunkSize);
    st := PutStr(out, x.creator);
    if st != OK {
      return;
    }
    PutI64(out, x.createdAt);
    st := PutStr(out, x.note);
    if st != OK {
      return;
    }
    st := PutManifest(out, x.chunks);
    if st == OK {
      Nest5(old(out.Contents()), Be(x.chunkSize, 8), Enc(Text, Raw(x.creator)), CreatedAt(x), Enc(Text, Raw(x.note)),
            ManifestBytes(x.chunks));
    }
  }

  lemma ManifestParts(es: seq<Entry>)
    requires |es| < 0x1_0000_0000
    ensures Acceptable(MANIFEST, Items(EntryValues(es))) <==> AllAcceptable(ENTRY, EntryValues(es))
    ensures AllAcceptable(ENTRY, EntryValues(es)) ==> Enc(MANIFEST, Items(EntryValues(es))) == ManifestBytes(es)
  {
    hide EntryValue, AllAcceptable, EncAll;
  }

  lemma TailParts(x: Info)
    requires Acceptable(REF, RefValue(x.ref)) && Acceptable(Digest, Raw(x.digest)) && |x.chunks| < 0x1_0000_0000
    ensures Acceptable(SHOW_TAIL, TailValue(x)) <==> FieldsOk(x)
    ensures FieldsOk(x) ==> Enc(SHOW_TAIL, TailValue(x)) == TailBytes(x)
  {
    CreatedAtIs(x);
    NumberParts(x.chunkSize);
    ManifestParts(x.chunks);
    var m := Items(EntryValues(x.chunks));
    hide Acceptable, Enc, AllAcceptable, EntryValues, ManifestBytes, CreatedAt, Be;
    ThenParts(Text, MANIFEST, Raw(x.note), m);
    ThenParts(I64_FIELD, Then(Text, MANIFEST), Num(x.createdAt), Both(Raw(x.note), m));
    ThenParts(Text, Then(I64_FIELD, Then(Text, MANIFEST)), Raw(x.creator),
              Both(Num(x.createdAt), Both(Raw(x.note), m)));
    ThenParts(U64_FIELD, Then(Text, Then(I64_FIELD, Then(Text, MANIFEST))), Num(x.chunkSize),
              Both(Raw(x.creator), Both(Num(x.createdAt), Both(Raw(x.note), m))));
  }

  lemma InfoShape(x: Info)
    ensures Acceptable(ShapeOf(ShowArtifactOk), InfoValue(x)) <==>
            Acceptable(REF, RefValue(x.ref)) && Acceptable(Digest, Raw(x.digest)) && Acceptable(SHOW_TAIL, TailValue(x))
    ensures Acceptable(ShapeOf(ShowArtifactOk), InfoValue(x)) ==>
              Enc(ShapeOf(ShowArtifactOk), InfoValue(x)) ==
              Enc(REF, RefValue(x.ref)) + (Be(x.size, 8) + (Enc(Digest, Raw(x.digest)) + Enc(SHOW_TAIL, TailValue(x))))
  {
    NumberParts(x.size);
    hide Acceptable, Enc, RefValue, TailValue;
    ThenParts(Digest, SHOW_TAIL, Raw(x.digest), TailValue(x));
    ThenParts(U64_FIELD, Then(Digest, SHOW_TAIL), Num(x.size), Both(Raw(x.digest), TailValue(x)));
    ThenParts(REF, Then(U64_FIELD, Then(Digest, SHOW_TAIL)), RefValue(x.ref),
              Both(Num(x.size), Both(Raw(x.digest), TailValue(x))));
  }

  lemma FieldsHead(x: Info)
    ensures FieldsOk(x) ==> Acceptable(REF, RefValue(x.ref)) && Acceptable(Digest, Raw(x.digest))
    ensures FieldsOk(x) ==>
              InfoBytes(x) ==
              Enc(REF, RefValue(x.ref)) + (Be(x.size, 8) + (Enc(Digest, Raw(x.digest)) + TailBytes(x)))
  {
    hide Acceptable, Enc, AllAcceptable, TailBytes, RefValue;
  }

  /** Below 2^32 entries the payload is the encoding of the record. */
  lemma InfoParts(x: Info)
    requires |x.chunks| < 0x1_0000_0000
    ensures Acceptable(ShapeOf(ShowArtifactOk), InfoValue(x)) <==> FieldsOk(x)
    ensures FieldsOk(x) ==> Enc(ShapeOf(ShowArtifactOk), InfoValue(x)) == InfoBytes(x)
  {
    hide *;
    InfoShape(x);
    FieldsHead(x);
    if Acceptable(REF, RefValue(x.ref)) && Acceptable(Digest, Raw(x.digest)) {
      TailParts(x);
    }
  }

  lemma NumberParts(n: U64)
    ensures Acceptable(U64_FIELD, Num(n)) && Enc(U64_FIELD, Num(n)) == Be(n, 8)
  {
    Widths();
  }

  /** encode_show_artifact_ok. */
  method EncodeInfo(out: FrBuf, x: Info) returns (st: Status)
    requires Room(out, INFO_HEAD_MAX + INFO_TAIL_MAX + |x.chunks| * ENTRY_SIZE)
    modifies out, out.data
    ensures out.Valid()
    ensures st == if FieldsOk(x) then OK else E_ARG
    ensures st == OK ==> out.Contents() == old(out.Contents()) + InfoBytes(x)
  {
    hide IsCapacity, Be, Enc, Acceptable, AllAcceptable, TailBytes, RefValue;
    st := PutRef(out, x.ref);
    if st != OK {
      return;
    }
    PutU64(out, x.size);
    st := PutDigest(out, x.digest);
    if st != OK {
      return;
    }
    st := EncodeTail(out, x);
    if st == OK {
      Nest4(old(out.Contents()), Enc(REF, RefValue(x.ref)), Be(x.size, 8), Enc(Digest, Raw(x.digest)), TailBytes(x));
    }
  }

  // ---- Reading ------------------------------------------------------------------------

  method DecodeEntry(src: Reader) returns (r: Result<Entry>)
    requires src.Valid()
    modifies src
    ensures src.Valid()
    ensures match Dec(ENTRY, old(Unread(src)))
            case Bad => r == Err(E_PROTOCOL)
            case Got(v, rest) => r.Ok? && v == EntryValue(r.value) && Unread(src) == rest
  {
    Widths();
    hide DecPrefixed, DecRaw;
    var ordinal := GetNumber(src, 4);
    if ordinal.Err? {
      return Err(E_PROTOCOL);
    }
    var offset := GetNumber(src, 8);
    if offset.Err? {
      return Err(E_PROTOCOL);
    }
    var length := GetNumber(src, 8);
    if length.Err? {
      return Err(E_PROTOCOL);
    }
    DigestIsRaw(Unread(src));
    var digest := GetDigest(src);
    if digest.Err? {
      return Err(E_PROTOCOL);
    }
    return Ok(Entry(ordinal.value, offset.value, length.value, digest.value));
  }

  /** The count, its limit of 2^20, and the loop of decode_show_artifact_ok. */
  method GetManifest(src: Reader) returns (r: Result<seq<Entry>>)
    requires src.Valid()
    modifies src
    ensures src.Valid()
    ensures match Dec(MANIFEST, old(Unread(src)))
            case Bad => r == Err(E_PROTOCOL)
            case Got(v, rest) => r.Ok? && v == Items(EntryValues(r.value)) && Unread(src) == rest
  {
    var count := GetNumber(src, 4);
    if count.Err? {
      return Err(E_PROTOCOL);
    }
    if count.value > MAX_MANIFEST {
      return Err(E_PROTOCOL);
    }
    r := GetEntries(src, count.value);
  }

  method GetEntries(src: Reader, count: nat) returns (r: Result<seq<Entry>>)
    requires src.Valid()
    modifies src
    ensures src.Valid()
    ensures match DecAll(ENTRY, count, old(Unread(src)))
            case Bad => r == Err(E_PROTOCOL)
            case Got(v, rest) => r.Ok? && v == Items(EntryValues(r.value)) && Unread(src) == rest
  {
    hide Dec, DecAll, EntryValue, DecNumber, EntryValues;
    ghost var all := DecAll(ENTRY, count, Unread(src));
    var es: seq<Entry> := [];
    assert EntryValues([]) == [];
    PrependNothing(ENTRY, count, Unread(src));
    for i := 0 to count
      invariant src.Valid() && |es| == i
      invariant Prepend(EntryValues(es), DecAll(ENTRY, count - i, Unread(src))) == all
    {
      DecAllStep(ENTRY, count - i, Unread(src), EntryValues(es));
      var e := DecodeEntry(src);
      if e.Err? {
        return Err(E_PROTOCOL);
      }
      EntriesSnoc(es, e.value);
      es := es + [e.value];
    }
    NoneLeft(ENTRY, Unread(src), EntryValues(es));
    return Ok(es);
  }

  method DecodeTail(src: Reader) returns (r: Result<Info>)
    requires src.Valid()
    modifies src
    ensures src.Valid()
    ensures match Dec(SHOW_TAIL, old(Unread(src)))
            case Bad => r == Err(E_PROTOCOL)
            case Got(v, rest) => r.Ok? && v == TailValue(r.value) && Unread(src) == rest
  {
    Widths();
    hide DecPrefixed, DecRaw, DecAll, EntryValues;
    var chunkSize := GetNumber(src, 8);
    if chunkSize.Err? {
      return Err(E_PROTOCOL);
    }
    TextIsRaw(Unread(src));
    var creator := GetStr(src);
    if creator.Err? {
      return Err(E_PROTOCOL);
    }
    var createdAt := GetI64(src);
    if createdAt.Err? {
      return Err(E_PROTOCOL);
    }
    TextIsRaw(Unread(src));
    var note := GetStr(src);
    if note.Err? {
      return Err(E_PROTOCOL);
    }
    var chunks := GetManifest(src);
    if chunks.Err? {
      return Err(E_PROTOCOL);
    }
    return Ok(Info(Ref([], [], []), 0, [], chunkSize.value, creator.value, createdAt.value, note.value, chunks.value));
  }

  /** decode_show_artifact_ok. */
  method DecodeInfo(src: Reader) returns (r: Result<Info>)
    requires src.Valid()
    modifies src
    ensures src.Valid()
    ensures match Dec(ShapeOf(ShowArtifactOk), old(Unread(src)))
            case Bad => r == Err(E_PROTOCOL)
            case Got(v, rest) => r.Ok? && v == InfoValue(r.value) && Unread(src) == rest
  {
    ghost var s := Unread(src);
    InfoReads(s);
    hide Dec, DecNumber, TailValue, RefValue, ShapeOf;
    var ref := GetRef(src);
    if ref.Err? {
      return Err(E_PROTOCOL);
    }
    var size := GetNumber(src, 8);
    if size.Err? {
      return Err(E_PROTOCOL);
    }
    DigestIsRaw(Unread(src));
    var digest := GetDigest(src);
    if digest.Err? {
      return Err(E_PROTOCOL);
    }
    var tail := DecodeTail(src);
    if tail.Err? {
      return Err(E_PROTOCOL);
    }
    var x := tail.value.(ref := ref.value, size := size.value, digest := digest.value);
    SameTail(tail.value, x);
    return Ok(x);
  }

  lemma SameTail(x: Info, y: Info)
    requires x.(ref := y.ref, size := y.size, digest := y.digest) == y
    ensures TailValue(x) == TailValue(y)
  {
  }

  /** The reply's four pieces, one after another. */
  lemma InfoReads(s: Bytes)
    ensures Dec(ShapeOf(ShowArtifactOk), s) ==
            match Dec(REF, s)
            case Bad => Bad
            case Got(ref, s1) =>
              match DecNumber(8, s1)
              case Bad => Bad
              case Got(size, s2) =>
                match Dec(Digest, s2)
                case Bad => Bad
                case Got(digest, s3) => Two(ref, Two(size, Two(digest, Dec(SHOW_TAIL, s3))))
    ensures forall t :: DecNumber(8, t).Got? ==> DecNumber(8, t).value.Num?
  {
    var rest := Then(Digest, SHOW_TAIL);
    assert forall t :: Dec(U64_FIELD, t) == DecNumber(8, t);
    ThenReads(REF, Then(U64_FIELD, rest), s);
    hide Dec;
    match Dec(REF, s) {
      case Bad =>
      case Got(ref, s1) =>
        ThenReads(U64_FIELD, rest, s1);
        match Dec(U64_FIELD, s1) {
          case Bad =>
          case Got(size, s2) => ThenReads(Digest, SHOW_TAIL, s2);
        }
    }
  }

  lemma EntriesSnoc(es: seq<Entry>, e: Entry)
    ensures EntryValues(es + [e]) == EntryValues(es) + [EntryValue(e)]
  {
  }

  // ---- How long the reply is -------------------------------------------------------------

  lemma {:induction false} ManifestLength(es: seq<Entry>)
    requires AllAcceptable(ENTRY, EntryValues(es))
    ensures |EncAll(ENTRY, EntryValues(es))| == |es| * ENTRY_SIZE
  {
    if es != [] {
      assert EntryValues(es)[1..] == EntryValues(es[1..]);
      EntryParts(es[0]);
      hide EntryValue, Acceptable, Enc;
      ManifestLength(es[1..]);
    }
  }

  /** The fixed part of the reply. */
  function HeadLength(x: Info): nat {
    |x.ref.ns| + |x.ref.name| + |x.ref.version| + |x.creator| + |x.note| + 5 * 2 + 3 * 8 + DIGEST_HEX_LEN + 4
  }

  lemma InfoLength(x: Info)
    requires FieldsOk(x)
    ensures |InfoBytes(x)| == HeadLength(x) + |x.chunks| * ENTRY_SIZE
  {
    TextLength(x.creator);
    TextLength(x.note);
    RefLength(x.ref);
    ManifestLength(x.chunks);
    assert Enc(Digest, Raw(x.digest)) == x.digest;
    hide Enc, EncAll, RefValue, AllAcceptable;
  }

  lemma TextLength(b: Bytes)
    ensures Acceptable(Text, Raw(b)) ==> |Enc(Text, Raw(b))| == 2 + |b|
  {
  }

  lemma RefLength(ref: Ref)
    ensures Acceptable(REF, RefValue(ref)) ==>
              |Enc(REF, RefValue(ref))| == 3 * 2 + |ref.ns| + |ref.name| + |ref.version|
  {
  }

  /** Main result: an artifact's manifest can be shown exactly when the reply stays
      within one frame; beyond that the frame encoder refuses it. */
  lemma ShownIff(x: Info, reqId: U32)
    requires FieldsOk(x) && reqId != 0
    ensures Frame.EncodeStatus(Frame.Frame(Frame.MSG_OK, 0, reqId, InfoBytes(x))) ==
            if HeadLength(x) + |x.chunks| * ENTRY_SIZE <= Frame.MAX_PAYLOAD then OK else E_RANGE
  {
    InfoLength(x);
    hide InfoBytes, FieldsOk;
  }

  lemma LongManifest(x: Info)
    requires |x.chunks| >= 99864
    ensures HeadLength(x) + |x.chunks| * ENTRY_SIZE > Frame.MAX_PAYLOAD
  {
  }

  /** So with 99864 chunks or more it never can, long before the decoder's own limit
      of 2^20 entries. */
  lemma TooManyChunks(x: Info, reqId: U32)
    requires FieldsOk(x) && reqId != 0 && |x.chunks| >= 99864
    ensures Frame.EncodeStatus(Frame.Frame(Frame.MSG_OK, 0, reqId, InfoBytes(x))) == E_RANGE
  {
    hide *;
    ShownIff(x, reqId);
    LongManifest(x);
  }
}
