/** The resumable GET of `fr_dispatch.cpp`: a download is one `handle` and any
    number of `handle_get_continue` calls, with the progress kept in a map between
    them. Other requests, and any storage operation but the deletion of the artifact,
    may come in between. */
module Dispatch {
  import opened Bytes
  import opened ByteOrder
  import opened Frame
  import opened Store
  import opened Safety
  import opened Operations
  import opened History
  import opened StorageLayer
  import opened RangeRead
  import ChunkFiles

  const DATA_SLICE_BYTES: nat := 1024 * 1024

  // ---- State keys ------------------------------------------------------------------

  function Digit(n: nat): char
    requires n < 10
  {
    "0123456789"[n]
  }

  /** std::to_string. */
  function Decimal(n: nat): (s: string)
    ensures |s| > 0
  {
    if n < 10 then [Digit(n)] else Decimal(n / 10) + [Digit(n % 10)]
  }

  lemma {:induction false} NoDash(n: nat)
    ensures forall i :: 0 <= i < |Decimal(n)| ==> Decimal(n)[i] != '-'
  {
    if n >= 10 {
      NoDash(n / 10);
    }
  }

  lemma DigitInjective(a: nat, b: nat)
    requires a < 10 && b < 10 && Digit(a) == Digit(b)
    ensures a == b
  {
  }

  lemma {:induction false} DecimalLength(n: nat)
    ensures n >= 10 <==> |Decimal(n)| >= 2
  {
  }

  lemma {:induction false} DecimalInjective(a: nat, b: nat)
    requires Decimal(a) == Decimal(b)
    ensures a == b
  {
    DecimalLength(a);
    DecimalLength(b);
    if a < 10 {
      DigitInjective(a, b);
    } else {
      var x, y := Decimal(a / 10), Decimal(b / 10);
      assert Decimal(a) == x + [Digit(a % 10)] && Decimal(b) == y + [Digit(b % 10)];
      assert Decimal(a)[|x|] == Decimal(b)[|y|];
      DigitInjective(a % 10, b % 10);
      assert x == Decimal(a)[..|x|] && y == Decimal(b)[..|y|];
      DecimalInjective(a / 10, b / 10);
    }
  }

  function Prefix(conn: nat): string { "get-" + Decimal(conn) + "-" }

  function Key(conn: nat, n: nat): string { Prefix(conn) + Decimal(n) }

  /** Two dash-free heads that start the same string before a dash are equal. */
  lemma SameHead(a: string, b: string, s: string, t: string)
    requires (forall i :: 0 <= i < |a| ==> a[i] != '-') && (forall i :: 0 <= i < |b| ==> b[i] != '-')
    requires a + "-" + s == b + "-" + t
    ensures a == b && s == t
  {
    var w := a + "-" + s;
    assert w == b + "-" + t && w[|a|] == '-' && w[|b|] == '-';
    assert (forall i :: 0 <= i < |a| ==> w[i] != '-') && forall i :: 0 <= i < |b| ==> w[i] != '-';
    assert |a| == |b|;
    assert a == w[..|a|] && b == w[..|b|];
    assert s == w[|a| + 1..] && t == w[|b| + 1..];
  }

  lemma KeyShape(conn: nat, n: nat)
    ensures Key(conn, n)[4..] == Decimal(conn) + "-" + Decimal(n)
    ensures Prefix(conn)[4..] == Decimal(conn) + "-"
  {
  }

  /** Keys are unique, and a connection's prefix matches exactly its own keys. */
  lemma KeysApart(c: nat, n: nat, d: nat, m: nat)
    ensures Key(c, n) == Key(d, m) <==> c == d && n == m
    ensures Prefix(d) <= Key(c, n) <==> c == d
  {
    NoDash(c);
    NoDash(d);
    KeyShape(c, n);
    KeyShape(d, m);
    hide Decimal;
    if Key(c, n) == Key(d, m) {
      SameHead(Decimal(c), Decimal(d), Decimal(n), Decimal(m));
      DecimalInjective(c, d);
      DecimalInjective(n, m);
    }
    if Prefix(d) <= Key(c, n) {
      var t := Key(c, n)[|Prefix(d)|..];
      assert Key(c, n) == Prefix(d) + t;
      assert Key(c, n)[4..] == Prefix(d)[4..] + t;
      SameHead(Decimal(c), Decimal(d), Decimal(n), t);
      DecimalInjective(c, d);
    }
  }

  // ---- Frames -------------------------------------------------------------------------

  function DataFrame(reqId: U32, piece: Bytes): Frame { Frame(MSG_DATA, 0, reqId, piece) }

  /** The final OK; its payload is the number of bytes sent, as a u64. */
  function OkFrame(reqId: U32, bytesSent: nat): Frame { Frame(MSG_OK, 0, reqId, Be(bytesSent, 8)) }

  /** The fr_status numbers, as the unsigned word an i32 is sent as. */
  function StatusWord(code: Status): U32 {
    match code
    case OK => 0
    case E_ARG => 0xFFFF_FFFF
    case E_RANGE => 0xFFFF_FFFE
    case E_OVERFLOW => 0xFFFF_FFFD
    case E_NOMEM => 0xFFFF_FFFC
    case E_IO => 0xFFFF_FFFB
    case E_EOF => 0xFFFF_FFFA
    case E_PROTOCOL => 0xFFFF_FFF9
    case E_STATE => 0xFFFF_FFF7
    case E_NOTFOUND => 0xFFFF_FFF6
    case E_EXISTS => 0xFFFF_FFF5
    case E_LIMIT => 0xFFFF_FFF4
    case E_BUSY => 0xFFFF_FFF3
    case E_INTERNAL => 0xFFFF_FFF2
    case E_CONFLICT => 0xFFFF_FFF1
    case E_EXPIRED => 0xFFFF_FFF0
  }

  /** The message text is left empty. */
  function ErrorFrame(reqId: U32, code: Status): Frame {
    Frame(MSG_ERROR, 0, reqId, Be32(StatusWord(code)) + Be16(0))
  }

  function DataFrames(reqId: U32, pieces: seq<Bytes>): (fs: seq<Frame>)
    ensures |fs| == |pieces|
    ensures forall i :: 0 <= i < |pieces| ==> fs[i] == DataFrame(reqId, pieces[i])
  {
    seq(|pieces|, i requires 0 <= i < |pieces| => DataFrame(reqId, pieces[i]))
  }

  lemma DataFramesAppend(reqId: U32, a: seq<Bytes>, b: seq<Bytes>)
    ensures DataFrames(reqId, a + b) == DataFrames(reqId, a) + DataFrames(reqId, b)
  {
  }

  /** Non-empty pieces of at most one slice that spell out exactly `bytes`. */
  ghost predicate Spells(pieces: seq<Bytes>, bytes: Bytes) {
    Flatten(pieces) == bytes && forall p :: p in pieces ==> 0 < |p| <= DATA_SLICE_BYTES
  }

  lemma FlattenHead<T>(pieces: seq<seq<T>>)
    requires pieces != []
    ensures Flatten(pieces) == pieces[0] + Flatten(pieces[1..])
  {
  }

  lemma FlattenOne<T>(p: seq<T>)
    ensures Flatten([p]) == p
  {
    assert [p][1..] == [] && p + [] == p;
  }

  lemma FlattenEmpty<T>()
    ensures Flatten<T>([]) == []
  {
  }

  lemma {:induction false} PieceWithin(pieces: seq<Bytes>, p: Bytes)
    requires p in pieces
    ensures |p| <= |Flatten(pieces)|
  {
    if pieces[0] != p {
      PieceWithin(pieces[1..], p);
    }
  }

  lemma SpellsSmall(pieces: seq<Bytes>, bytes: Bytes, bound: nat)
    requires Flatten(pieces) == bytes && |bytes| <= DATA_SLICE_BYTES
    requires forall p :: p in pieces ==> 0 < |p| <= bound
    ensures Spells(pieces, bytes)
  {
    forall p | p in pieces ensures 0 < |p| <= DATA_SLICE_BYTES {
      PieceWithin(pieces, p);
    }
  }

  lemma SpellsAppend(a: seq<Bytes>, b: seq<Bytes>, x: Bytes, y: Bytes)
    requires Spells(a, x) && Spells(b, y)
    ensures Spells(a + b, x + y)
  {
    FlattenAppend(a, b);
  }

  // ---- The dispatcher ------------------------------------------------------------------

  datatype Request = Request(conn: nat, reqId: U32, ident: Ident, offset: U64, length: U64)

  datatype GetState = GetState(ident: Ident, offset: U64, remaining: U64, sent: U64, reqId: U32)

  /** `failed` is the code of the exception a continuation ends with. */
  datatype HandleResult = HandleResult(out: seq<Frame>, hasMore: bool, key: string, failed: Option<Status>)

  const NOTHING := HandleResult([], false, "", None)

  /** How far a download has come: what its state says, against its request. */
  ghost predicate Follows(st: GetState, q: Request) {
    && st.ident == q.ident && st.reqId == q.reqId
    && st.offset == q.offset + st.sent && st.remaining == q.length - st.sent
  }

  /** The size of the next slice of a download. */
  function SliceSize(content: Bytes, st: GetState): int {
    Min(Min(st.remaining, DATA_SLICE_BYTES), |content| - st.offset)
  }

  /** n bytes further. */
  ghost predicate Moved(st: GetState, u: GetState, n: int) {
    && u.ident == st.ident && u.reqId == st.reqId
    && u.offset == st.offset + n && u.remaining == st.remaining - n && u.sent == st.sent + n
  }

  /** What a continuation with something left to send does on a readable artifact. */
  ghost predicate Continued(content: Bytes, st: GetState, r: HandleResult, pieces: seq<Bytes>,
                            key: string, after: map<string, GetState>) {
    var n := SliceSize(content, st);
    && st.offset <= |content| && n >= 0
    && Spells(pieces, Slice(content, st.offset, n))
    && r.failed == None && r.hasMore == (n != st.remaining && n != 0) == (key in after)
    && r.out == DataFrames(st.reqId, pieces) + (if r.hasMore then [] else [OkFrame(st.reqId, st.sent + n)])
    && (r.hasMore ==> Moved(st, after[key], n))
  }

  /** A download under way: what was sent so far, and that something remains. */
  ghost predicate Midway(content: Bytes, q: Request, st: GetState, pieces: seq<Bytes>, out: seq<Frame>) {
    && Follows(st, q) && q.offset <= st.offset <= |content| && st.remaining > 0
    && Spells(pieces, content[q.offset..st.offset])
    && out == DataFrames(q.reqId, pieces)
  }

  /** A download done: the clipped slice in DATA frames, and one OK with its length. */
  ghost predicate Answered(content: Bytes, q: Request, pieces: seq<Bytes>, out: seq<Frame>) {
    && q.offset <= |content|
    && Spells(pieces, Slice(content, q.offset, q.length))
    && out == DataFrames(q.reqId, pieces) + [OkFrame(q.reqId, Min(q.length, |content| - q.offset))]
  }

  /** Two contents of the same length, the same from one point on. */
  ghost predicate Agrees(a: Bytes, b: Bytes, at: nat) {
    |a| == |b| && at <= |a| && a[at..] == b[at..]
  }

  /** One content up to a point, and another from there on. */
  function Patched(content: Bytes, other: Bytes, at: nat): Bytes
    requires at <= |content| && at <= |other|
  {
    content[..at] + other[at..]
  }

  /** All entries but `key` are as before. */
  ghost predicate Kept(before: map<string, GetState>, after: map<string, GetState>, key: string) {
    forall k :: k in before && k != key ==> k in after && after[k] == before[k]
  }

  lemma KeptFirst(before: map<string, GetState>, after: map<string, GetState>, key: string)
    requires after - {key} == before
    ensures Kept(before, after, key)
  {
    forall k | k in before && k != key ensures k in after && after[k] == before[k] {
      assert k in after - {key};
    }
  }

  lemma KeptSame(gets: map<string, GetState>, key: string)
    ensures Kept(gets, gets, key)
  {
  }

  lemma KeptTrans(a: map<string, GetState>, b: map<string, GetState>, c: map<string, GetState>, key: string)
    requires Kept(a, b, key) && Kept(b, c, key)
    ensures Kept(a, c, key)
  {
  }

  lemma KeptMore(a: map<string, GetState>, b: map<string, GetState>, c: map<string, GetState>, key: string)
    requires Kept(a, b, key) && c - {key} == b - {key}
    ensures Kept(a, c, key)
  {
    forall k | k in a && k != key ensures k in c && c[k] == a[k] {
      assert k in b - {key};
      assert k in c - {key};
    }
  }

  /** Every entry is under a key issued before. */
  ghost predicate KeysOk(gets: map<string, GetState>, issued: nat) {
    forall k :: k in gets ==> exists c: nat, n: nat :: n < issued && k == Key(c, n)
  }

  ghost predicate StatesOk(gets: map<string, GetState>) {
    forall k :: k in gets ==> gets[k].sent <= gets[k].offset
  }

  lemma Added(gets: map<string, GetState>, issued: nat, conn: nat, st: GetState)
    requires KeysOk(gets, issued) && StatesOk(gets)
    ensures var key := Key(conn, issued);
            key !in gets && gets - {key} == gets
            && KeysOk(gets, issued + 1) && KeysOk(gets[key := st], issued + 1)
            && (st.sent <= st.offset ==> StatesOk(gets[key := st]))
  {
    var key := Key(conn, issued);
    if key in gets {
      var c: nat, n: nat :| n < issued && key == Key(c, n);
      KeysApart(conn, issued, c, n);
    }
    hide Key;
  }

  lemma Changed(gets: map<string, GetState>, issued: nat, key: string, st: GetState)
    requires KeysOk(gets, issued) && StatesOk(gets) && key in gets
    ensures KeysOk(gets - {key}, issued) && StatesOk(gets - {key})
    ensures KeysOk(gets[key := st], issued)
    ensures st.sent <= st.offset ==> StatesOk(gets[key := st])
    ensures gets[key := st] - {key} == gets - {key}
  {
  }

  /** What else may happen between two slices of a download: other requests on the
      dispatcher, closed connections, storage calls. */
  datatype Event =
    | Starts(q: Request)
    | Continues(key: string)
    | Closes(conn: nat)
    | Stores(op: Op, tmp: string, script: ChunkFiles.Script, now: int)

  /** Not this download's own continuation, not the end of its connection, and not
      the deletion of its artifact. */
  ghost predicate Foreign(cfg: Config, e: Event, q: Request, key: string) {
    match e
    case Starts(other) => other.reqId != 0
    case Continues(other) => other != key
    case Closes(conn) => conn != q.conn
    case Stores(op, tmp, script, _) =>
      op != DeleteOp(q.ident) && ChunkFiles.IsTemp(tmp) && !ChunkFiles.Crashing(script)
      && (op.PutOp? ==> cfg.corpus(op.data)) && (op.FailOp? ==> cfg.corpus(op.data) && |op.data| < TWO_64)
  }

  /** The event changes no entry there already is. */
  predicate Bystander(e: Event) { e.Starts? || e.Stores? }

  function ReadStatus(artifacts: map<Ident, Artifact>, ident: Ident, offset: nat): Status {
    if ident !in artifacts then E_NOTFOUND else if offset > artifacts[ident].size then E_RANGE else OK
  }

  class Dispatcher {
    const storage: Storage
    var gets: map<string, GetState>
    var getSeq: U64

    ghost predicate Valid()
      reads this, storage, storage.store
    {
      && storage.Valid()
      && KeysOk(gets, getSeq)
      && StatesOk(gets)
    }

    /** The published bytes of an artifact. */
    ghost function ContentOf(ident: Ident): Bytes
      requires ident in storage.artifacts
      reads storage, storage.store
    {
      Content(storage.View().files, storage.artifacts[ident].manifest)
    }

    constructor (s: Storage)
      requires s.Valid()
      ensures Valid() && storage == s && gets == map[] && getSeq == 0
    {
      storage := s;
      gets, getSeq := map[], 0;
    }

    /** One storage slice, each piece of it in a DATA frame. */
    method SendSlice(st: GetState, slice: U64)
      returns (out: seq<Frame>, got: U64, code: Status, ghost pieces: seq<Bytes>)
      requires storage.Valid() && 0 < slice <= DATA_SLICE_BYTES
      ensures code == ReadStatus(storage.artifacts, st.ident, st.offset)
      ensures code != OK ==> out == [] && got == 0
      ensures code == OK ==>
                && st.offset <= |ContentOf(st.ident)| == storage.artifacts[st.ident].size
                && got == Min(slice, |ContentOf(st.ident)| - st.offset)
                && Spells(pieces, Slice(ContentOf(st.ident), st.offset, slice))
                && out == DataFrames(st.reqId, pieces)
    {
      hide Storage.Valid, Storage.View, Content, Flatten, Spells;
      var chunks, sent, status := storage.ReadArtifactSlice(st.ident, st.offset, slice);
      pieces, got, code := chunks, sent, status;
      out := [];
      for i := 0 to |chunks|
        invariant out == DataFrames(st.reqId, chunks[..i])
      {
        out := out + [DataFrame(st.reqId, chunks[i])];
      }
      assert chunks[..|chunks|] == chunks;
      if code == OK {
        SpellsSmall(pieces, Slice(ContentOf(st.ident), st.offset, slice), storage.artifacts[st.ident].chunkSize);
      }
    }

    /** The GET_ARTIFACT case of handle. A request for no bytes is answered at once,
        without looking at the artifact; an error leaves the entry behind. */
    method HandleGet(q: Request) returns (r: HandleResult, ghost pieces: seq<Bytes>)
      requires Valid() && q.reqId != 0 && getSeq < U64_MAX
      modifies this
      ensures Valid() && getSeq == old(getSeq) + 1
      ensures Key(q.conn, old(getSeq)) !in old(gets) && gets - {Key(q.conn, old(getSeq))} == old(gets)
      ensures r.failed == None && (r.hasMore ==> r.key == Key(q.conn, old(getSeq)) && r.key in gets)
      ensures q.length == 0 ==>
                r.out == [OkFrame(q.reqId, 0)] && !r.hasMore && Key(q.conn, old(getSeq)) !in gets && pieces == []
      ensures var code := ReadStatus(storage.artifacts, q.ident, q.offset);
              q.length != 0 && code != OK ==>
                r.out == [ErrorFrame(q.reqId, code)] && !r.hasMore && Key(q.conn, old(getSeq)) in gets
      ensures q.length != 0 && ReadStatus(storage.artifacts, q.ident, q.offset) == OK ==>
                var content := ContentOf(q.ident);
                var n := Min(Min(q.length, DATA_SLICE_BYTES), |content| - q.offset);
                && r.hasMore == (n != q.length)
                && (r.hasMore ==> Midway(content, q, gets[r.key], pieces, r.out) && gets[r.key].sent == n)
                && (!r.hasMore ==> Answered(content, q, pieces, r.out) && Key(q.conn, old(getSeq)) !in gets)
    {
      hide Storage.Valid, Storage.View, Content, Spells, Key, KeysOk, StatesOk, DataFrames, Midway, Answered;
      var key := Key(q.conn, getSeq);
      var state := GetState(q.ident, q.offset, q.length, 0, q.reqId);
      Added(gets, getSeq, q.conn, state);
      getSeq := getSeq + 1;
      gets := gets[key := state];
      var slice: U64 := if state.remaining > DATA_SLICE_BYTES then DATA_SLICE_BYTES else state.remaining;
      pieces := [];
      var out: seq<Frame> := [];
      if slice != 0 {
        var sliceOut, got, code, chunks := SendSlice(state, slice);
        if code != OK {
          return HandleResult([ErrorFrame(q.reqId, code)], false, "", None), [];
        }
        out, pieces := sliceOut, chunks;
        state := state.(offset := state.offset + got, remaining := state.remaining - got, sent := state.sent + got);
        Changed(gets, getSeq, key, state);
        gets := gets[key := state];
        Started(ContentOf(q.ident), q, state, pieces, out);
      }
      Changed(gets, getSeq, key, state);
      if state.remaining == 0 {
        out := out + [OkFrame(q.reqId, state.sent)];
        gets := gets - {key};
        return HandleResult(out, false, "", None), pieces;
      }
      return HandleResult(out, true, key, None), pieces;
    }

    /** handle_get_continue: one more slice, and the final OK once nothing remains
        or the artifact has ended. Only the entry under `key` changes. */
    method HandleGetContinue(key: string) returns (r: HandleResult, ghost pieces: seq<Bytes>)
      requires Valid()
      modifies this`gets
      ensures Valid() && gets - {key} == old(gets) - {key}
      ensures r.hasMore ==> r.key == key && key in gets
      ensures key !in old(gets) ==> r == NOTHING && gets == old(gets)
      ensures key in old(gets) && old(gets)[key].remaining == 0 ==>
                var st := old(gets)[key];
                r == HandleResult([OkFrame(st.reqId, st.sent)], false, "", None) && key !in gets
      ensures key in old(gets) && old(gets)[key].remaining != 0 ==>
                var st := old(gets)[key];
                var code := ReadStatus(storage.artifacts, st.ident, st.offset);
                code != OK ==> r == HandleResult([], false, "", Some(code)) && gets == old(gets)
      ensures key in old(gets) && old(gets)[key].remaining != 0
              && ReadStatus(storage.artifacts, old(gets)[key].ident, old(gets)[key].offset) == OK ==>
                Continued(ContentOf(old(gets)[key].ident), old(gets)[key], r, pieces, key, gets)
    {
      hide Storage.Valid, Storage.View, Content, Spells, Key, KeysOk, StatesOk, DataFrames;
      pieces := [];
      if key !in gets {
        return NOTHING, [];
      }
      var state := gets[key];
      SentBelow(key);
      var slice: U64 := if state.remaining > DATA_SLICE_BYTES then DATA_SLICE_BYTES else state.remaining;
      var sent: U64 := 0;
      var out: seq<Frame> := [];
      if slice != 0 {
        var sliceOut, got, code, chunks := SendSlice(state, slice);
        if code != OK {
          return HandleResult([], false, "", Some(code)), [];
        }
        SliceClip(ContentOf(state.ident), state.offset, slice);
        out, sent, pieces := sliceOut, got, chunks;
      }
      state := state.(offset := state.offset + sent, remaining := state.remaining - sent, sent := state.sent + sent);
      Changed(gets, getSeq, key, state);
      if state.remaining == 0 || sent == 0 {
        out := out + [OkFrame(state.reqId, state.sent)];
        gets := gets - {key};
        return HandleResult(out, false, "", None), pieces;
      }
      gets := gets[key := state];
      return HandleResult(out, true, key, None), pieces;
    }

    lemma SentBelow(key: string)
      requires StatesOk(gets) && key in gets
      ensures gets[key].sent <= gets[key].offset
    {
    }

    /** Main result: a whole download as the worker runs it, with any number of other
        events between its slices. Its frames are DATA frames that spell out
        content[offset .. min(offset + length, size)] and exactly one OK with their
        number; afterwards its entry is gone, and the artifact's bytes are still the
        same. Where no other download is continued or closed meanwhile, no other entry
        has changed. It ends for every length. `slices` are the replies call by call. */
    method ServeGet(q: Request, between: seq<seq<Event>>)
      returns (out: seq<Frame>, ghost pieces: seq<Bytes>, ghost slices: seq<seq<Frame>>)
      requires Valid() && q.reqId != 0 && getSeq + 1 + |Flatten(between)| <= U64_MAX
      requires forall e :: e in Flatten(between) ==> Foreign(storage.cfg, e, q, Key(q.conn, getSeq))
      requires q.ident in storage.artifacts && q.offset <= storage.artifacts[q.ident].size
      modifies this, storage, storage.store
      ensures Valid() && Key(q.conn, old(getSeq)) !in gets
      ensures (forall e :: e in Flatten(between) ==> Bystander(e)) ==>
                Kept(old(gets), gets, Key(q.conn, old(getSeq)))
      ensures storage.StillThere(q.ident) && ContentOf(q.ident) == old(ContentOf(q.ident))
      ensures Answered(ContentOf(q.ident), q, pieces, out) && slices != [] && Flatten(slices) == out
    {
      hide Storage.Valid, Storage.View, Content, Key, Valid, Midway, Answered, Kept, ContentOf, Foreign, Bystander,
           Flatten;
      ghost var content := ContentOf(q.ident);
      ghost var key := Key(q.conn, getSeq);
      ghost var issued := getSeq;
      var r, first := Start(q);
      out, pieces, slices := r.out, first, [r.out];
      FlattenOne(r.out);
      if r.hasMore {
        ghost var began := gets;
        var rest, next, later := ServeRest(q, r.key, between, issued, content, 0, first, r.out);
        FlattenHead([r.out] + later);
        assert ([r.out] + later)[1..] == later;
        out, pieces, slices := out + rest, pieces + next, [r.out] + later;
        if forall e :: e in Flatten(between) ==> Bystander(e) {
          KeptTrans(old(gets), began, gets, key);
        }
      }
    }

    /** The continuations of a download under way. From `at` on, what it is to send
        and what the artifact holds now are the same. */
    method ServeRest(q: Request, key: string, between: seq<seq<Event>>, ghost n: nat, ghost content: Bytes,
                     ghost at: nat, ghost sofar: seq<Bytes>, ghost sent: seq<Frame>)
      returns (out: seq<Frame>, ghost pieces: seq<Bytes>, ghost slices: seq<seq<Frame>>)
      requires Valid() && n < getSeq && key == Key(q.conn, n) && key in gets && getSeq + |Flatten(between)| <= U64_MAX
      requires forall e :: e in Flatten(between) ==> Foreign(storage.cfg, e, q, key)
      requires q.ident in storage.artifacts && Agrees(content, ContentOf(q.ident), at) && at <= gets[key].offset
      requires Midway(content, q, gets[key], sofar, sent)
      modifies this, storage, storage.store
      ensures Valid() && key !in gets
      ensures (forall e :: e in Flatten(between) ==> Bystander(e)) ==> Kept(old(gets), gets, key)
      ensures storage.StillThere(q.ident) && ContentOf(q.ident) == old(ContentOf(q.ident))
      ensures Answered(content, q, sofar + pieces, sent + out) && Flatten(slices) == out
    {
      MidwayReads(content, q, gets[key], sofar, sent);
      KeptSame(gets, key);
      hide Storage.Valid, Storage.View, Content, Key, Valid, Midway, Answered, Kept, ContentOf, Foreign, Bystander,
           Flatten, Agrees;
      ghost var quiet := forall e :: e in Flatten(between) ==> Bystander(e);
      out, pieces, slices := [], [], [];
      FlattenEmpty<Frame>();
      assert sofar + pieces == sofar && sent + out == sent;
      var pending := between;
      var hasMore := true;
      while hasMore
        invariant Valid() && |Flatten(pending)| + getSeq <= U64_MAX && n < getSeq
        invariant forall e :: e in Flatten(pending) ==> Foreign(storage.cfg, e, q, key)
        invariant quiet ==> (forall e :: e in Flatten(pending) ==> Bystander(e)) && Kept(old(gets), gets, key)
        invariant storage.StillThere(q.ident) && ContentOf(q.ident) == old(ContentOf(q.ident))
        invariant hasMore ==> key in gets && Midway(content, q, gets[key], sofar + pieces, sent + out)
        invariant hasMore ==> at <= gets[key].offset <= |content|
        invariant !hasMore ==> key !in gets && Answered(content, q, sofar + pieces, sent + out)
        invariant Flatten(slices) == out
        decreases if hasMore then |content| - gets[key].offset + 1 else 0
      {
        var events: seq<Event> := [];
        if pending != [] {
          FlattenHead(pending);
          events, pending := pending[0], pending[1..];
        }
        ghost var before := gets;
        var more, next := NextSlice(q, key, events, n, content, at, sofar + pieces, sent + out);
        if quiet { KeptTrans(old(gets), before, gets, key); }
        FlattenSnoc(slices, more.out);
        Assoc(sofar, pieces, next);
        Assoc(sent, out, more.out);
        out, pieces, slices, hasMore := out + more.out, pieces + next, slices + [more.out], more.hasMore;
      }
    }

    /** Some events, and then the next slice. */
    method NextSlice(q: Request, key: string, events: seq<Event>, ghost n: nat, ghost content: Bytes, ghost at: nat,
                     ghost sofar: seq<Bytes>, ghost sent: seq<Frame>)
      returns (more: HandleResult, ghost next: seq<Bytes>)
      requires Valid() && n < getSeq && key == Key(q.conn, n) && key in gets && getSeq + |events| <= U64_MAX
      requires forall e :: e in events ==> Foreign(storage.cfg, e, q, key)
      requires q.ident in storage.artifacts && Agrees(content, ContentOf(q.ident), at) && at <= gets[key].offset
      requires Midway(content, q, gets[key], sofar, sent)
      modifies this, storage, storage.store
      ensures Valid() && old(getSeq) <= getSeq <= old(getSeq) + |events|
      ensures (forall e :: e in events ==> Bystander(e)) ==> Kept(old(gets), gets, key)
      ensures storage.StillThere(q.ident) && ContentOf(q.ident) == old(ContentOf(q.ident))
      ensures more.hasMore <==> key in gets
      ensures more.hasMore ==>
                gets[key].offset > old(gets)[key].offset && gets[key].offset <= |content|
                && Midway(content, q, gets[key], sofar + next, sent + more.out)
      ensures !more.hasMore ==> Answered(content, q, sofar + next, sent + more.out)
    {
      KeptSame(gets, key);
      hide Storage.Valid, Storage.View, Content, Key, Valid, Midway, Answered, Kept, ContentOf, Foreign, Bystander,
           Agrees;
      HappenAll(events, q, key, n);
      ghost var before := gets;
      more, next := Resume(q, key, content, at, sofar, sent);
      if forall e :: e in events ==> Bystander(e) {
        KeptMore(old(gets), before, gets, key);
      }
    }

    /** A download whose artifact was deleted, and perhaps published anew, between two
        of its slices. If there is none of the name, or it is too short to go on, the
        next continuation ends with an exception, no final OK is ever sent, and the
        entry stays. Otherwise the whole download answers the request on the two
        contents joined at the point it had reached. */
    method ServeReplaced(q: Request, key: string, between: seq<seq<Event>>, ghost n: nat, ghost content: Bytes,
                         ghost sofar: seq<Bytes>, ghost sent: seq<Frame>)
      returns (out: seq<Frame>, failed: Option<Status>, ghost pieces: seq<Bytes>)
      requires Valid() && n < getSeq && key == Key(q.conn, n) && key in gets && getSeq + |Flatten(between)| <= U64_MAX
      requires forall e :: e in Flatten(between) ==> Foreign(storage.cfg, e, q, key)
      requires Midway(content, q, gets[key], sofar, sent)
      modifies this, storage, storage.store
      ensures Valid()
      ensures var at := old(gets)[key].offset;
              var code := ReadStatus(old(storage.artifacts), q.ident, at);
              if code != OK then out == [] && failed == Some(code) && gets == old(gets)
              else
                var other := old(ContentOf(q.ident));
                && failed == None && key !in gets && at <= |content| && at <= |other|
                && Answered(Patched(content, other, at), q, sofar + pieces, sent + out)
    {
      ghost var st := gets[key];
      ghost var at := st.offset;
      MidwayReads(content, q, st, sofar, sent);
      hide Storage.Valid, Storage.View, Content, Key, Valid, Midway, Answered, ContentOf, Foreign, Bystander,
           Flatten, Continued, Agrees, Patched;
      var more, next := HandleGetContinue(key);
      if more.failed.Some? {
        return [], more.failed, [];
      }
      ghost var other := ContentOf(q.ident);
      ContentLength(q.ident);
      ghost var mixed := Patched(content, other, at);
      PatchedAgrees(content, other, at);
      PatchedMidway(content, other, q, st, sofar, sent);
      AgreesContinued(mixed, other, at, st, more, next, key, gets);
      Advance(mixed, q, st, sofar, sent, key, more, next, gets);
      out, pieces, failed := more.out, next, None;
      if more.hasMore {
        var rest, later, _ := ServeRest(q, key, between, n, mixed, at, sofar + next, sent + more.out);
        Assoc(sofar, next, later);
        Assoc(sent, more.out, rest);
        out, pieces := out + rest, pieces + later;
      }
    }

    /** The events between two slices. */
    method HappenAll(events: seq<Event>, ghost q: Request, ghost key: string, ghost n: nat)
      requires Valid() && getSeq + |events| <= U64_MAX && n < getSeq && key == Key(q.conn, n) && key in gets
      requires q.ident in storage.artifacts
      requires forall e :: e in events ==> Foreign(storage.cfg, e, q, key)
      modifies this, storage, storage.store
      ensures Valid() && old(getSeq) <= getSeq <= old(getSeq) + |events|
      ensures key in gets && gets[key] == old(gets)[key]
      ensures (forall e :: e in events ==> Bystander(e)) ==>
                forall before :: Kept(before, old(gets), key) ==> Kept(before, gets, key)
      ensures storage.StillThere(q.ident) && ContentOf(q.ident) == old(ContentOf(q.ident))
    {
      hide Storage.Valid, Storage.View, Content, Key, Valid, Kept, ContentOf, Foreign, Bystander;
      ghost var quiet := forall e :: e in events ==> Bystander(e);
      for i := 0 to |events|
        invariant Valid() && old(getSeq) <= getSeq <= old(getSeq) + i
        invariant key in gets && gets[key] == old(gets)[key]
        invariant quiet ==> forall before :: Kept(before, old(gets), key) ==> Kept(before, gets, key)
        invariant storage.StillThere(q.ident) && ContentOf(q.ident) == old(ContentOf(q.ident))
      {
        Happen(events[i], q, key, n);
      }
    }

    /** One event, seen from a download under way. A storage call whose fresh name or
        token is not fresh does not occur. */
    method Happen(e: Event, ghost q: Request, ghost key: string, ghost n: nat)
      requires Valid() && getSeq < U64_MAX && n < getSeq && key == Key(q.conn, n) && key in gets
      requires q.ident in storage.artifacts && Foreign(storage.cfg, e, q, key)
      modifies this, storage, storage.store
      ensures Valid() && old(getSeq) <= getSeq <= old(getSeq) + 1
      ensures key in gets && gets[key] == old(gets)[key]
      ensures Bystander(e) ==> forall before :: Kept(before, old(gets), key) ==> Kept(before, gets, key)
      ensures storage.StillThere(q.ident) && ContentOf(q.ident) == old(ContentOf(q.ident))
    {
      hide Storage.Valid, Content, Key, Valid, Kept, ContentOf;
      match e {
        case Starts(other) => Interrupt(key, other, q.conn, n);
        case Continues(other) => ContinueOther(key, other);
        case Closes(conn) => CloseOther(key, conn, q.conn, n);
        case Stores(op, tmp, script, now) =>
          if tmp !in storage.store.temps && !(op.CreateOp? && op.id in storage.sessions) {
            StoreMeanwhile(op, tmp, script, now, q.ident);
          }
      }
    }

    /** A slice of another download. */
    method ContinueOther(ghost key: string, other: string)
      requires Valid() && key in gets && other != key
      modifies this`gets
      ensures Valid() && key in gets && gets[key] == old(gets)[key]
    {
      hide Storage.Valid, Storage.View, Content, KeysOk, StatesOk, ContentOf, Valid, Continued;
      var _, _ := HandleGetContinue(other);
      assert key in gets - {other};
    }

    /** Another connection is closed. */
    method CloseOther(ghost key: string, other: nat, ghost conn: nat, ghost n: nat)
      requires Valid() && key in gets && other != conn && key == Key(conn, n)
      modifies this`gets
      ensures Valid() && key in gets && gets[key] == old(gets)[key]
    {
      hide Storage.Valid, Key, KeysOk, StatesOk, Valid;
      OnConnectionClosed(other);
    }

    /** A storage operation that does not delete the artifact. */
    method StoreMeanwhile(op: Op, tmp: string, script: ChunkFiles.Script, now: int, ghost ident: Ident)
      requires Valid() && Admissible(storage.cfg, storage.View(), op) && op != DeleteOp(ident)
      requires ident in storage.artifacts && ChunkFiles.IsTemp(tmp) && tmp !in storage.store.temps
      requires !ChunkFiles.Crashing(script)
      modifies storage, storage.store
      ensures Valid()
      ensures storage.StillThere(ident) && ContentOf(ident) == old(ContentOf(ident))
    {
      hide KeysOk, StatesOk, Content, Safe, ValidConfig, OpState, ChunkFiles.IsTemp, ChunkFiles.ChunkStore.Valid,
           ChunkFiles.Crashing;
      ghost var s := storage.View();
      ghost var did := storage.Perform(op, tmp, script, now);
      OpArtifacts(storage.cfg, s, did, now, ident);
      SameContent(storage.cfg, s, storage.View(), ident);
    }

    /** The first call of a download of a readable artifact. */
    method Start(q: Request) returns (r: HandleResult, ghost pieces: seq<Bytes>)
      requires Valid() && q.reqId != 0 && getSeq < U64_MAX
      requires ReadStatus(storage.artifacts, q.ident, q.offset) == OK
      modifies this
      ensures Valid() && getSeq == old(getSeq) + 1 && |ContentOf(q.ident)| == storage.artifacts[q.ident].size
      ensures Kept(old(gets), gets, Key(q.conn, old(getSeq)))
      ensures r.hasMore ==>
                r.key == Key(q.conn, old(getSeq)) && r.key in gets && gets[r.key].offset <= |ContentOf(q.ident)|
                && Midway(ContentOf(q.ident), q, gets[r.key], pieces, r.out)
      ensures !r.hasMore ==> Key(q.conn, old(getSeq)) !in gets && Answered(ContentOf(q.ident), q, pieces, r.out)
    {
      ContentLength(q.ident);
      hide Storage.Valid, Storage.View, Content, Key, Valid, Midway, Answered, Kept, ContentOf;
      NoBytes(ContentOf(q.ident), q);
      r, pieces := HandleGet(q);
      KeptFirst(old(gets), gets, Key(q.conn, old(getSeq)));
      if r.hasMore {
        MidwayReads(ContentOf(q.ident), q, gets[r.key], pieces, r.out);
      }
    }

    /** Another download starts meanwhile. */
    method Interrupt(ghost key: string, other: Request, ghost conn: nat, ghost n: nat)
      requires Valid() && other.reqId != 0 && getSeq < U64_MAX && n < getSeq && key == Key(conn, n) && key in gets
      modifies this
      ensures Valid() && getSeq == old(getSeq) + 1 && key in gets && gets[key] == old(gets)[key]
      ensures forall before :: Kept(before, old(gets), key) ==> Kept(before, gets, key)
    {
      hide Storage.Valid, Storage.View, Key, Midway, Answered, ContentOf, Valid;
      KeyLater(conn, n, other.conn, getSeq);
      ghost var added := Key(other.conn, getSeq);
      var _, _ := HandleGet(other);
      assert key in gets - {added};
    }

    /** One continuation, seen from the download it belongs to. */
    method Resume(q: Request, key: string, ghost content: Bytes, ghost at: nat, ghost sofar: seq<Bytes>,
                  ghost out: seq<Frame>)
      returns (more: HandleResult, ghost next: seq<Bytes>)
      requires Valid() && key in gets && q.ident in storage.artifacts
      requires Midway(content, q, gets[key], sofar, out)
      requires Agrees(content, ContentOf(q.ident), at) && at <= gets[key].offset
      modifies this`gets
      ensures Valid() && gets - {key} == old(gets) - {key}
      ensures more.hasMore <==> key in gets
      ensures more.hasMore ==>
                gets[key].offset > old(gets)[key].offset && gets[key].offset <= |content|
                && Midway(content, q, gets[key], sofar + next, out + more.out)
      ensures !more.hasMore ==> Answered(content, q, sofar + next, out + more.out)
    {
      ContentLength(q.ident);
      assert |content| == |ContentOf(q.ident)|;
      hide Storage.Valid, Storage.View, Content, Key, Valid, Midway, Answered, ContentOf, Continued, Agrees;
      ghost var st := gets[key];
      MidwayReads(content, q, st, sofar, out);
      more, next := HandleGetContinue(key);
      AgreesContinued(content, ContentOf(q.ident), at, st, more, next, key, gets);
      Advance(content, q, st, sofar, out, key, more, next, gets);
      if more.hasMore {
        MidwayReads(content, q, gets[key], sofar + next, out + more.out);
      }
    }

    lemma ContentLength(ident: Ident)
      requires storage.Valid() && ident in storage.artifacts
      ensures |ContentOf(ident)| == storage.artifacts[ident].size
    {
      SafeReadable(storage.cfg, storage.View(), ident);
      ContentSize(storage.View().files, storage.artifacts[ident]);
    }

    /** on_connection_closed: forget the downloads of one connection. */
    method OnConnectionClosed(conn: nat)
      requires Valid()
      modifies this`gets
      ensures Valid()
      ensures gets == map k | k in old(gets) && !(Prefix(conn) <= k) :: old(gets)[k]
      ensures forall c: nat, n: nat :: Key(c, n) in gets <==> Key(c, n) in old(gets) && c != conn
    {
      hide Storage.Valid, Prefix, Key;
      var prefix := Prefix(conn);
      var left := gets.Keys;
      while left != {}
        modifies this`gets
        invariant left <= old(gets).Keys
        invariant gets == map k | k in old(gets) && (k in left || !(prefix <= k)) :: old(gets)[k]
        decreases |left|
      {
        var k :| k in left;
        left := left - {k};
        if prefix <= k {
          gets := gets - {k};
        }
      }
      forall c: nat, n: nat ensures Key(c, n) in gets <==> Key(c, n) in old(gets) && c != conn {
        KeysApart(c, n, conn, 0);
      }
    }
  }

  // ---- Facts about slices -----------------------------------------------------------------

  lemma SliceClip(content: Bytes, offset: nat, slice: nat)
    requires offset <= |content|
    ensures Slice(content, offset, slice) == Slice(content, offset, Min(slice, |content| - offset))
    ensures |Slice(content, offset, slice)| == Min(slice, |content| - offset)
  {
  }

  /** After the first slice: midway, or complete once the OK is added. */
  lemma Started(content: Bytes, q: Request, st: GetState, pieces: seq<Bytes>, out: seq<Frame>)
    requires q.offset <= |content| && Follows(st, q) && q.length > 0
    requires st.sent == Min(Min(q.length, DATA_SLICE_BYTES), |content| - q.offset)
    requires Spells(pieces, Slice(content, q.offset, Min(q.length, DATA_SLICE_BYTES)))
    requires out == DataFrames(q.reqId, pieces)
    ensures if st.remaining > 0 then Midway(content, q, st, pieces, out)
            else Answered(content, q, pieces, out + [OkFrame(q.reqId, st.sent)])
  {
    hide Spells, DataFrames;
    SliceEnds(content, q.offset, Min(q.length, DATA_SLICE_BYTES));
  }

  lemma SliceEnds(content: Bytes, offset: nat, slice: nat)
    requires offset <= |content|
    ensures Slice(content, offset, slice) == content[offset..offset + Min(slice, |content| - offset)]
  {
  }

  lemma NoBytes(content: Bytes, q: Request)
    requires q.offset <= |content|
    ensures q.length == 0 ==> Answered(content, q, [], [OkFrame(q.reqId, 0)])
  {
    assert DataFrames(q.reqId, []) == [];
  }

  lemma MidwayReads(content: Bytes, q: Request, st: GetState, pieces: seq<Bytes>, out: seq<Frame>)
    requires Midway(content, q, st, pieces, out)
    ensures st.ident == q.ident && st.reqId == q.reqId && 0 < st.remaining && st.offset <= |content|
  {
  }

  /** One more slice: still midway and further on, or complete. */
  lemma Advance(content: Bytes, q: Request, st: GetState, pieces: seq<Bytes>, out: seq<Frame>,
                key: string, more: HandleResult, next: seq<Bytes>, after: map<string, GetState>)
    requires Midway(content, q, st, pieces, out) && Continued(content, st, more, next, key, after)
    ensures more.hasMore <==> key in after
    ensures more.hasMore ==>
              after[key].offset > st.offset && Midway(content, q, after[key], pieces + next, out + more.out)
    ensures !more.hasMore ==> Answered(content, q, pieces + next, out + more.out)
  {
    hide Midway, Continued, Answered;
    if more.hasMore {
      AdvanceMore(content, q, st, pieces, out, key, more, next, after);
    } else {
      AdvanceDone(content, q, st, pieces, out, key, more, next, after);
    }
    ContinuedKey(content, st, more, next, key, after);
  }

  lemma ContinuedKey(content: Bytes, st: GetState, r: HandleResult, pieces: seq<Bytes>,
                     key: string, after: map<string, GetState>)
    requires Continued(content, st, r, pieces, key, after)
    ensures r.hasMore <==> key in after
  {
  }

  lemma AdvanceMore(content: Bytes, q: Request, st: GetState, pieces: seq<Bytes>, out: seq<Frame>,
                    key: string, more: HandleResult, next: seq<Bytes>, after: map<string, GetState>)
    requires Midway(content, q, st, pieces, out) && Continued(content, st, more, next, key, after) && more.hasMore
    ensures key in after && after[key].offset > st.offset
            && Midway(content, q, after[key], pieces + next, out + more.out)
  {
    var n := SliceSize(content, st);
    assert 0 < n <= |content| - st.offset && n < st.remaining;
    assert more.out == DataFrames(st.reqId, next) + [];
    hide SliceSize, Slice, Spells, DataFrames;
    AdvanceBytes(content, q, st, n, pieces, next);
    DataFramesAppend(q.reqId, pieces, next);
    assert more.out == DataFrames(q.reqId, next);
  }

  lemma AdvanceDone(content: Bytes, q: Request, st: GetState, pieces: seq<Bytes>, out: seq<Frame>,
                    key: string, more: HandleResult, next: seq<Bytes>, after: map<string, GetState>)
    requires Midway(content, q, st, pieces, out) && Continued(content, st, more, next, key, after) && !more.hasMore
    ensures Answered(content, q, pieces + next, out + more.out)
  {
    MidwayReads(content, q, st, pieces, out);
    LastSlice(content, st, more, next, key, after);
    hide *;
    DoneFrames(content, q, st, pieces, out, key, more, next, after);
    var n := SliceSize(content, st);
    var sent, rest := content[q.offset..st.offset], Slice(content, st.offset, n);
    SliceClip(content, st.offset, n);
    MinOfSmaller(n, |content| - st.offset);
    SpellsAppend(pieces, next, sent, rest);
    JoinedIff(content, q, st, rest, pieces + next, out + more.out);
  }

  /** The last slice is all that is left of the range. */
  lemma LastSlice(content: Bytes, st: GetState, r: HandleResult, pieces: seq<Bytes>, key: string,
                  after: map<string, GetState>)
    requires Continued(content, st, r, pieces, key, after) && !r.hasMore && st.remaining > 0
    ensures st.offset <= |content| && SliceSize(content, st) >= 0
    ensures Slice(content, st.offset, SliceSize(content, st)) == Slice(content, st.offset, st.remaining)
  {
    hide Spells, DataFrames;
  }

  lemma AdvanceBytes(content: Bytes, q: Request, st: GetState, n: nat, pieces: seq<Bytes>, next: seq<Bytes>)
    requires q.offset <= st.offset && st.offset + n <= |content|
    requires Spells(pieces, content[q.offset..st.offset]) && Spells(next, Slice(content, st.offset, n))
    ensures Spells(pieces + next, content[q.offset..st.offset + n])
  {
    var from := content[q.offset..st.offset];
    SpellsAppend(pieces, next, from, Slice(content, st.offset, n));
    hide Spells;
    assert from + Slice(content, st.offset, n) == content[q.offset..st.offset + n];
  }

  lemma MinOfSmaller(a: int, b: int)
    requires a <= b
    ensures Min(a, b) == a
  {
  }

  lemma DoneFrames(content: Bytes, q: Request, st: GetState, pieces: seq<Bytes>, out: seq<Frame>,
                   key: string, more: HandleResult, next: seq<Bytes>, after: map<string, GetState>)
    requires Midway(content, q, st, pieces, out) && Continued(content, st, more, next, key, after) && !more.hasMore
    ensures var n := SliceSize(content, st);
            && Follows(st, q) && q.offset <= st.offset <= |content| && st.remaining > 0
            && 0 <= n <= |content| - st.offset
            && Spells(pieces, content[q.offset..st.offset]) && Spells(next, Slice(content, st.offset, n))
            && out + more.out == DataFrames(q.reqId, pieces + next) + [OkFrame(q.reqId, st.sent + n)]
  {
    hide Slice, Spells, DataFrames;
    DataFramesAppend(q.reqId, pieces, next);
    Assoc(DataFrames(q.reqId, pieces), DataFrames(q.reqId, next),
          [OkFrame(st.reqId, st.sent + SliceSize(content, st))]);
  }

  lemma JoinedIff(content: Bytes, q: Request, st: GetState, rest: Bytes, all: seq<Bytes>, frames: seq<Frame>)
    requires Follows(st, q) && q.offset <= st.offset <= |content| && st.remaining > 0
    requires Spells(all, content[q.offset..st.offset] + rest)
    requires frames == DataFrames(q.reqId, all) + [OkFrame(q.reqId, st.sent + |rest|)]
    ensures Flatten(all) == content[q.offset..st.offset] + rest
    ensures Answered(content, q, all, frames) <==> rest == Slice(content, st.offset, st.remaining)
  {
    RestOfRange(content, q, st, rest);
    hide DataFrames, Flatten, Slice;
  }

  lemma RestOfRange(content: Bytes, q: Request, st: GetState, rest: Bytes)
    requires Follows(st, q) && q.offset <= st.offset <= |content| && st.remaining > 0
    ensures content[q.offset..st.offset] + rest == Slice(content, q.offset, q.length) <==>
            rest == Slice(content, st.offset, st.remaining)
    ensures st.sent + |Slice(content, st.offset, st.remaining)| == Min(q.length, |content| - q.offset)
  {
    assert st.offset == q.offset + st.sent && st.sent + st.remaining == q.length;
    SliceAdjacent(content, q.offset, st.sent, st.remaining);
    SliceExact(content, q.offset, st.sent);
    SliceClip(content, st.offset, st.remaining);
    hide Slice;
    Cancel(content[q.offset..st.offset], rest, Slice(content, st.offset, st.remaining));
  }

  lemma SliceExact(content: Bytes, offset: nat, n: nat)
    requires offset + n <= |content|
    ensures Slice(content, offset, n) == content[offset..offset + n]
  {
  }

  lemma Cancel(a: Bytes, x: Bytes, y: Bytes)
    ensures a + x == a + y <==> x == y
  {
    assert (a + x)[|a|..] == x && (a + y)[|a|..] == y;
  }

  // ---- An artifact replaced under a download ---------------------------------------------------

  lemma PatchedAgrees(content: Bytes, other: Bytes, at: nat)
    requires at <= |content| && at <= |other|
    ensures Agrees(Patched(content, other, at), other, at)
    ensures Patched(content, other, at)[..at] == content[..at]
  {
  }

  /** What was sent of one content was sent of the other joined to it. */
  lemma PatchedMidway(content: Bytes, other: Bytes, q: Request, st: GetState, pieces: seq<Bytes>, out: seq<Frame>)
    requires Midway(content, q, st, pieces, out) && st.offset <= |other|
    ensures Midway(Patched(content, other, st.offset), q, st, pieces, out)
  {
    var mixed := Patched(content, other, st.offset);
    assert mixed[q.offset..st.offset] == content[q.offset..st.offset];
    hide Spells, DataFrames, Patched;
  }

  /** A slice beyond the point where two contents begin to agree is a slice of both. */
  lemma AgreesContinued(content: Bytes, other: Bytes, at: nat, st: GetState, r: HandleResult, pieces: seq<Bytes>,
                        key: string, after: map<string, GetState>)
    requires Agrees(content, other, at) && at <= st.offset && Continued(other, st, r, pieces, key, after)
    ensures Continued(content, st, r, pieces, key, after)
  {
    var n := SliceSize(other, st);
    AgreesSlice(content, other, at, st.offset, n);
    hide Spells, DataFrames, Slice;
  }

  lemma AgreesSlice(content: Bytes, other: Bytes, at: nat, from: nat, n: nat)
    requires Agrees(content, other, at) && at <= from <= |other|
    ensures Slice(content, from, n) == Slice(other, from, n)
  {
    assert forall i :: at <= i < |other| ==> content[i] == content[at..][i - at] == other[at..][i - at] == other[i];
  }

  /** What such a download delivers, and exactly when it is still the range asked for:
      the rest of the range reads the same in both contents. */
  lemma PatchedIff(content: Bytes, other: Bytes, q: Request, at: nat, pieces: seq<Bytes>, out: seq<Frame>)
    requires q.offset <= at <= |content| && at <= |other| && at - q.offset <= q.length
    requires Answered(Patched(content, other, at), q, pieces, out)
    ensures var rest := q.length - (at - q.offset);
            && Flatten(pieces) == content[q.offset..at] + Slice(other, at, rest)
            && (Answered(content, q, pieces, out) <==> Slice(other, at, rest) == Slice(content, at, rest))
  {
    hide *;
    var rest := q.length - (at - q.offset);
    PatchedRange(content, other, q.offset, at, rest);
    PatchedRange(content, content, q.offset, at, rest);
    PatchedSelf(content, at);
    Cancel(content[q.offset..at], Slice(other, at, rest), Slice(content, at, rest));
    AnsweredIff(Patched(content, other, at), content, q, pieces, out);
  }

  lemma PatchedSelf(content: Bytes, at: nat)
    requires at <= |content|
    ensures Patched(content, content, at) == content
  {
  }

  /** The same frames answer the same request on another content exactly when its
      range is the same. */
  lemma AnsweredIff(a: Bytes, b: Bytes, q: Request, pieces: seq<Bytes>, out: seq<Frame>)
    requires Answered(a, q, pieces, out) && q.offset <= |b|
    ensures Flatten(pieces) == Slice(a, q.offset, q.length)
    ensures Answered(b, q, pieces, out) <==> Slice(a, q.offset, q.length) == Slice(b, q.offset, q.length)
  {
    SliceClip(a, q.offset, q.length);
    SliceClip(b, q.offset, q.length);
    hide Slice, DataFrames, Flatten;
  }

  lemma PatchedRange(content: Bytes, other: Bytes, offset: nat, at: nat, rest: nat)
    requires offset <= at <= |content| && at <= |other|
    ensures Slice(Patched(content, other, at), offset, at - offset + rest) ==
            content[offset..at] + Slice(other, at, rest)
  {
    var mixed := Patched(content, other, at);
    SliceAdjacent(mixed, offset, at - offset, rest);
    SliceExact(mixed, offset, at - offset);
    assert mixed[offset..at] == content[offset..at];
    PatchedAgrees(content, other, at);
    AgreesSlice(mixed, other, at, at, rest);
  }

  lemma KeyLater(c: nat, n: nat, d: nat, m: nat)
    requires n < m
    ensures Key(c, n) != Key(d, m)
  {
    KeysApart(c, n, d, m);
  }
}
