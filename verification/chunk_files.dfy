/** The content-addressed chunk files of `fr_chunk_store.cpp`: the 32-byte header,
    the write through a temporary file, and reads. Every file system call goes
    through a script that says whether it succeeds, fails or is the moment of a
    crash, so the contracts hold at every interruption. */
module ChunkFiles {
  import opened Bytes
  import opened ByteOrder
  import Crc32

  type Digest = string

  const CHUNK_HEADER_SIZE: nat := 32
  const CHUNK_MAGIC: Bytes := [0x46, 0x52, 0x43, 0x48]
  const CHUNK_FORMAT_VERSION: Byte := 1

  // ---- The header --------------------------------------------------------------------

  function HeaderFields(rawLen: U64, crc: U32): (h: Bytes)
    ensures |h| == 30
  {
    CHUNK_MAGIC + [CHUNK_FORMAT_VERSION, 0] + Be64(rawLen) + Be64(rawLen) + Be32(crc) + Be32(0)
  }

  function ChunkHeader(rawLen: U64, crc: U32): (h: Bytes)
    ensures |h| == CHUNK_HEADER_SIZE
  {
    HeaderFields(rawLen, crc) + [0, 0]
  }

  lemma PatchGrows(before: Bytes, at: nat, p: Bytes)
    requires at + |p| <= |before|
    ensures Patch(before, at, p)[..at + |p|] == before[..at] + p
    ensures Patch(before, at, p)[at + |p|..] == before[at + |p|..]
  {
  }

  method BlankHeader() returns (header: array<Byte>)
    ensures fresh(header) && header.Length == CHUNK_HEADER_SIZE
    ensures header[..6] == CHUNK_MAGIC + [CHUNK_FORMAT_VERSION, 0] && header[30..] == [0, 0]
  {
    header := new Byte[CHUNK_HEADER_SIZE](_ => 0);
    header[0], header[1], header[2], header[3] := 0x46, 0x52, 0x43, 0x48;
    header[4] := CHUNK_FORMAT_VERSION;
    header[5] := 0;
  }

  /** store_header. */
  method StoreHeader(rawLen: U64, crc: U32) returns (bytes: Bytes)
    ensures bytes == ChunkHeader(rawLen, crc)
  {
    hide Patch, Be64, Be32;
    var header := BlankHeader();
    ghost var h0 := header[..];
    assert h0[..6] == header[..6] && h0[30..] == header[30..];
    StoreBe64(header, 6, rawLen);
    ghost var h1 := header[..];
    PatchGrows(h0, 6, Be64(rawLen));
    StoreBe64(header, 14, rawLen);
    ghost var h2 := header[..];
    PatchGrows(h1, 14, Be64(rawLen));
    StoreBe32(header, 22, crc);
    ghost var h3 := header[..];
    PatchGrows(h2, 22, Be32(crc));
    StoreBe32(header, 26, 0);
    PatchGrows(h3, 26, Be32(0));
    bytes := header[..];
    TailKept(h0, h1, h2, h3, bytes);
    Cut(bytes, 30);
  }

  lemma TailKept(h0: Bytes, h1: Bytes, h2: Bytes, h3: Bytes, h4: Bytes)
    requires |h0| == |h1| == |h2| == |h3| == |h4| == CHUNK_HEADER_SIZE
    requires h1[14..] == h0[14..] && h2[22..] == h1[22..] && h3[26..] == h2[26..] && h4[30..] == h3[30..]
    ensures h4[30..] == h0[30..]
  {
    assert h1[14..][16..] == h1[30..] && h0[14..][16..] == h0[30..];
    assert h2[22..][8..] == h2[30..] && h1[22..][8..] == h1[30..];
    assert h3[26..][4..] == h3[30..] && h2[26..][4..] == h2[30..];
  }

  datatype ChunkMeta = ChunkMeta(rawLen: U64, storedLen: U64, crc: U32)

  function ParseHeader(h: Bytes): Result<ChunkMeta>
    requires |h| == CHUNK_HEADER_SIZE
  {
    if h[..4] != CHUNK_MAGIC then Err(E_IO)
    else if h[4] != CHUNK_FORMAT_VERSION then Err(E_IO)
    else if h[5] != 0 then Err(E_IO)
    else
      var meta := ChunkMeta(Load64(h[6..14]), Load64(h[14..22]), Load32(h[22..26]));
      if Load32(h[26..30]) != 0 then Err(E_IO)
      else if meta.rawLen != meta.storedLen then Err(E_IO)
      else Ok(meta)
  }

  lemma HeaderParts(rawLen: U64, crc: U32)
    ensures var h := ChunkHeader(rawLen, crc);
            h[..30] == HeaderFields(rawLen, crc)
            && h[..4] == CHUNK_MAGIC && h[4] == CHUNK_FORMAT_VERSION && h[5] == 0
            && h[6..14] == Be64(rawLen) && h[14..22] == Be64(rawLen) && h[22..26] == Be32(crc)
            && h[26..30] == Be32(0) && h[30..] == [0, 0]
  {
  }

  lemma HeaderRoundTrip(rawLen: U64, crc: U32)
    ensures ParseHeader(ChunkHeader(rawLen, crc)) == Ok(ChunkMeta(rawLen, rawLen, crc))
  {
    HeaderParts(rawLen, crc);
    RoundTrip64(rawLen);
    RoundTrip32(crc);
    RoundTrip32(0);
    hide ChunkHeader, Be64, Be32, Load64, Load32;
  }

  /** Exactly the headers accepted: the first 30 bytes are those of some stored
      header. The last two reserved bytes are written as zero but never looked at. */
  lemma AcceptedHeaders(h: Bytes)
    requires |h| == CHUNK_HEADER_SIZE
    ensures ParseHeader(h).Ok? <==>
            exists rawLen: U64, crc: U32 :: h[..30] == ChunkHeader(rawLen, crc)[..30]
    ensures ParseHeader(h).Ok? ==>
            var m := ParseHeader(h).value; h[..30] == ChunkHeader(m.rawLen, m.crc)[..30]
    ensures ParseHeader(h).Err? ==> ParseHeader(h).code == E_IO
  {
    if ParseHeader(h).Ok? {
      var m := ParseHeader(h).value;
      ParsedBytes(h, m);
    }
    if rawLen: U64, crc: U32 :| h[..30] == ChunkHeader(rawLen, crc)[..30] {
      var k := ChunkHeader(rawLen, crc);
      HeaderRoundTrip(rawLen, crc);
      SameFields(h, k);
      hide ChunkHeader, ParseHeader;
    }
  }

  lemma SameFields(h: Bytes, k: Bytes)
    requires |h| == |k| == CHUNK_HEADER_SIZE && h[..30] == k[..30]
    ensures ParseHeader(h) == ParseHeader(k)
  {
    assert forall i :: 0 <= i < 30 ==> h[i] == h[..30][i] == k[i];
    assert h[..4] == k[..4] && h[6..14] == k[6..14] && h[14..22] == k[14..22];
    assert h[22..26] == k[22..26] && h[26..30] == k[26..30];
    hide Load64, Load32;
  }

  lemma ThirtyBytes(h: Bytes)
    requires |h| == CHUNK_HEADER_SIZE
    ensures h[..30] == h[..4] + [h[4], h[5]] + h[6..14] + h[14..22] + h[22..26] + h[26..30]
  {
  }

  lemma ParsedBytes(h: Bytes, m: ChunkMeta)
    requires |h| == CHUNK_HEADER_SIZE && ParseHeader(h) == Ok(m)
    ensures h[..30] == ChunkHeader(m.rawLen, m.crc)[..30]
  {
    Restore64(h[6..14]);
    Restore64(h[14..22]);
    Restore32(h[22..26]);
    Restore32(h[26..30]);
    HeaderParts(m.rawLen, m.crc);
    ThirtyBytes(h);
    hide Be64, Be32, Load64, Load32, ChunkHeader;
  }

  // ---- Whole files ---------------------------------------------------------------------

  function ChunkFile(data: Bytes): (f: Bytes)
    requires |data| < TWO_64
    ensures |f| == CHUNK_HEADER_SIZE + |data|
  {
    ChunkHeader(|data|, Crc32.Crc(data)) + data
  }

  /** The file says what it holds, and what it holds hashes to its name. */
  ghost predicate FileValid(sha: Bytes -> Digest, d: Digest, f: Bytes) {
    exists data: Bytes :: |data| < TWO_64 && f == ChunkFile(data) && sha(data) == d
  }

  function Payload(f: Bytes): Bytes {
    if |f| < CHUNK_HEADER_SIZE then [] else f[CHUNK_HEADER_SIZE..]
  }

  /** lseek takes no position beyond 2^63 - 1. */
  const SEEK_LIMIT: nat := 0x8000_0000_0000_0000

  /** What get_range makes of the bytes of a file. */
  function ReadRange(f: Bytes, offset: U64, len: U64): Result<Bytes> {
    if |f| < CHUNK_HEADER_SIZE then Err(E_IO)
    else
      match ParseHeader(f[..CHUNK_HEADER_SIZE])
      case Err(code) => Err(code)
      case Ok(meta) => ReadData(f, meta, offset, len)
  }

  function ReadData(f: Bytes, meta: ChunkMeta, offset: U64, len: U64): Result<Bytes> {
    if offset > meta.rawLen then Err(E_RANGE)
    else
      var take := Min(len, meta.rawLen - offset);
      var at := (offset + CHUNK_HEADER_SIZE) % TWO_64;
      if at >= SEEK_LIMIT then Err(E_IO)
      else if take != 0 && at + take > |f| then Err(E_EOF)
      else
        var data := if take == 0 then [] else f[at..at + take];
        if offset == 0 && take == meta.rawLen && Crc32.Crc(data) != meta.crc then Err(E_IO) else Ok(data)
  }

  lemma WithoutHeader(h: Bytes, data: Bytes, i: nat, n: nat)
    requires |h| == CHUNK_HEADER_SIZE && i + n <= |data|
    ensures (h + data)[..CHUNK_HEADER_SIZE] == h && (h + data)[CHUNK_HEADER_SIZE..] == data
    ensures (h + data)[CHUNK_HEADER_SIZE + i..CHUNK_HEADER_SIZE + i + n] == data[i..i + n]
  {
  }

  lemma AllBytes(h: Bytes, data: Bytes)
    requires |data| < TWO_64 && h == ChunkHeader(|data|, Crc32.Crc(data))
    ensures h + data == ChunkFile(data)
    ensures data == [] ==> h == h + data
  {
  }

  lemma EmptySlice(data: Bytes, i: nat)
    requires i <= |data|
    ensures data[i..i] == [] && Slice(data, i, 0) == []
  {
  }

  lemma ReadBack(h: Bytes, data: Bytes, meta: ChunkMeta, offset: U64, len: U64)
    requires |h| == CHUNK_HEADER_SIZE && |data| + CHUNK_HEADER_SIZE < SEEK_LIMIT && offset <= |data|
    requires meta == ChunkMeta(|data|, |data|, Crc32.Crc(data))
    ensures ReadData(h + data, meta, offset, len) == Ok(Slice(data, offset, len))
  {
    hide Crc32.Crc;
    var take := Min(len, |data| - offset);
    WithoutHeader(h, data, offset, take);
    EmptySlice(data, offset);
    assert offset == 0 && take == |data| ==> data[offset..offset + take] == data;
    assert take == |data| - offset ==> data[offset..offset + take] == data[offset..];
  }

  /** Reading back a stored chunk: the bytes [o, min(o + n, raw_len)). */
  lemma ReadStored(data: Bytes, offset: U64, len: U64)
    requires |data| + CHUNK_HEADER_SIZE < SEEK_LIMIT
    ensures ReadRange(ChunkFile(data), offset, len) ==
            if offset > |data| then Err(E_RANGE) else Ok(Slice(data, offset, len))
  {
    var h := ChunkHeader(|data|, Crc32.Crc(data));
    HeaderRoundTrip(|data|, Crc32.Crc(data));
    WithoutHeader(h, data, 0, 0);
    AllBytes(h, data);
    hide ChunkHeader, ParseHeader, Crc32.Crc, ChunkFile;
    if offset <= |data| {
      hide ReadData;
      ReadBack(h, data, ChunkMeta(|data|, |data|, Crc32.Crc(data)), offset, len);
    }
  }

  lemma WholeMismatch(h: Bytes, data: Bytes, meta: ChunkMeta)
    requires |h| == CHUNK_HEADER_SIZE && |data| + CHUNK_HEADER_SIZE < SEEK_LIMIT
    requires meta.rawLen == |data| && Crc32.Crc(data) != meta.crc
    ensures ReadData(h + data, meta, 0, U64_MAX) == Err(E_IO)
  {
    hide Crc32.Crc;
    WithoutHeader(h, data, 0, |data|);
    assert data[0..|data|] == data;
  }

  /** A whole read detects every alteration of the stored bytes that is confined
      to four consecutive bytes. */
  lemma CorruptionDetected(before: Bytes, u: Bytes, v: Bytes, after: Bytes)
    requires |u| == |v| <= 4 && u != v
    requires |before| + |u| + |after| + CHUNK_HEADER_SIZE < SEEK_LIMIT
    ensures var f := ChunkFile(before + u + after);
            var altered := f[..CHUNK_HEADER_SIZE] + (before + v + after);
            ReadRange(altered, 0, U64_MAX) == Err(E_IO)
  {
    var data, other := before + u + after, before + v + after;
    var h := ChunkHeader(|data|, Crc32.Crc(data));
    WithoutHeader(h, data, 0, 0);
    AllBytes(h, data);
    hide ChunkHeader, ParseHeader, Crc32.Crc, ChunkFile, ReadData;
    Crc32.BurstDetected(before, u, v, after);
    HeaderRoundTrip(|data|, Crc32.Crc(data));
    WithoutHeader(h, other, 0, 0);
    WholeMismatch(h, other, ChunkMeta(|data|, |data|, Crc32.Crc(data)));
  }

  lemma CutFile(h: Bytes, data: Bytes, n: nat, i: nat, j: nat)
    requires |h| == CHUNK_HEADER_SIZE && n <= |data| && i <= j <= n
    ensures (h + data)[..CHUNK_HEADER_SIZE + n] == h + data[..n]
    ensures (h + data[..n])[CHUNK_HEADER_SIZE + i..CHUNK_HEADER_SIZE + j] == data[i..j]
    ensures (h + data[..n])[..CHUNK_HEADER_SIZE] == h
    ensures i == j ==> data[i..j] == []
  {
  }

  lemma ReadCut(h: Bytes, data: Bytes, n: nat, meta: ChunkMeta, offset: U64, len: U64)
    requires |h| == CHUNK_HEADER_SIZE && n < |data| && |data| + CHUNK_HEADER_SIZE < SEEK_LIMIT
    requires meta.rawLen == |data| && offset <= |data|
    ensures var to := offset + Min(len, |data| - offset);
            ReadData(h + data[..n], meta, offset, len) ==
            if offset < to && n < to then Err(E_EOF) else Ok(data[offset..to])
  {
    var to := offset + Min(len, |data| - offset);
    hide Crc32.Crc;
    if to <= n {
      CutFile(h, data, n, offset, to);
    } else {
      assert offset == to ==> data[offset..to] == [];
    }
  }

  /** Reading a file that ends too early: without its header an I/O error; otherwise a read
      that would go past the end is E_EOF, and any other is what it is of the whole file. */
  lemma TruncatedRead(data: Bytes, size: nat, offset: U64, len: U64)
    requires |data| + CHUNK_HEADER_SIZE < SEEK_LIMIT && size < |data| + 32
    ensures var to := offset + Min(len, |data| - offset);
            ReadRange(ChunkFile(data)[..size], offset, len) ==
            if size < 32 then Err(E_IO)
            else if offset > |data| then Err(E_RANGE)
            else if offset < to && size < 32 + to then Err(E_EOF)
            else Ok(Slice(data, offset, len))
  {
    if size >= CHUNK_HEADER_SIZE {
      var h, n := ChunkHeader(|data|, Crc32.Crc(data)), size - CHUNK_HEADER_SIZE;
      HeaderRoundTrip(|data|, Crc32.Crc(data));
      AllBytes(h, data);
      CutFile(h, data, n, 0, 0);
      hide ChunkHeader, ParseHeader, Crc32.Crc, ChunkFile;
      if offset <= |data| {
        hide ReadData;
        var to := offset + Min(len, |data| - offset);
        assert to == |data| ==> data[offset..to] == data[offset..];
        ReadCut(h, data, n, ChunkMeta(|data|, |data|, Crc32.Crc(data)), offset, len);
      }
    }
  }

  lemma StoredPayload(data: Bytes)
    requires |data| < TWO_64
    ensures Payload(ChunkFile(data)) == data
  {
    WithoutHeader(ChunkHeader(|data|, Crc32.Crc(data)), data, 0, 0);
  }

  // ---- The store ---------------------------------------------------------------------------

  /** How one file system call goes. `partial` is how much of a write got through,
      or for a rename whether it happened before the crash. */
  datatype Outcome = Fine | Fails(code: Status, partial: nat) | Crashes(partial: nat)

  datatype Script = Script(
    create: Outcome,
    writeHeader: Outcome,
    writeData: Outcome,
    sync: Outcome,
    close: Outcome,
    directories: Outcome,
    rival: bool,  // another writer puts the same chunk in place before the rename
    rename: Outcome)

  const SMOOTH := Script(Fine, Fine, Fine, Fine, Fine, Fine, false, Fine)

  /** The process dies in one of the calls. */
  predicate Crashing(script: Script) {
    script.create.Crashes? || script.writeHeader.Crashes? || script.writeData.Crashes? || script.sync.Crashes?
    || script.close.Crashes? || script.directories.Crashes? || script.rename.Crashes?
  }

  datatype Ending = Stored | Failed(code: Status) | Crashed

  function Prefix(data: Bytes, n: nat): Bytes { data[..Min(n, |data|)] }

  predicate IsTemp(name: string) { "frtmp-" <= name }

  function TempNames(names: set<string>): set<string> {
    set t | t in names && IsTemp(t)
  }

  class ChunkStore {
    const sha: Bytes -> Digest
    var chunks: map<Digest, Bytes>  // the files under chunks/, by digest
    var temps: map<string, Bytes>   // the files under tmp/, by name

    ghost predicate Valid()
      reads this
    {
      forall d :: d in chunks ==> FileValid(sha, d, chunks[d])
    }

    /** What the store holds: content by digest. */
    function View(): map<Digest, Bytes>
      reads this
    {
      map d | d in chunks :: Payload(chunks[d])
    }

    constructor (hash: Bytes -> Digest)
      ensures Valid() && View() == map[] && sha == hash && temps == map[]
    {
      sha := hash;
      chunks, temps := map[], map[];
    }

    /** Main result on names: a valid store holds under every name only content
        that hashes to it, and its file is that content behind its own header. */
    lemma ViewOk(d: Digest)
      requires Valid() && d in chunks
      ensures sha(View()[d]) == d && |View()[d]| < TWO_64 && chunks[d] == ChunkFile(View()[d])
    {
      assert FileValid(sha, d, chunks[d]);
      var data: Bytes :| |data| < TWO_64 && chunks[d] == ChunkFile(data) && sha(data) == d;
      StoredPayload(data);
    }

    lemma ViewAfter(before: map<Digest, Bytes>, d: Digest, data: Bytes)
      requires |data| < TWO_64 && chunks == before[d := ChunkFile(data)]
      ensures View() == (map e | e in before :: Payload(before[e]))[d := data]
    {
      StoredPayload(data);
      hide ChunkFile, Payload;
    }

    /** A call on the open temporary file; when it fails the file is unlinked. */
    method Attempt(tmp: string, outcome: Outcome) returns (end: Ending)
      modifies this`temps
      ensures temps == if outcome.Fails? then old(temps) - {tmp} else old(temps)
      ensures end == match outcome
                     case Fine => Stored
                     case Fails(code, _) => Failed(code)
                     case Crashes(_) => Crashed
    {
      match outcome {
        case Fine => return Stored;
        case Fails(code, _) =>
          Unlink(tmp);
          return Failed(code);
        case Crashes(_) => return Crashed;
      }
    }

    /** fr_fd_write_all; a crash leaves any prefix written. */
    method AppendTemp(tmp: string, bytes: Bytes, outcome: Outcome) returns (end: Ending)
      requires tmp in temps
      modifies this`temps
      ensures temps - {tmp} == old(temps) - {tmp}
      ensures !end.Failed? ==> tmp in temps && old(temps)[tmp] <= temps[tmp] <= old(temps)[tmp] + bytes
      ensures end.Stored? ==> temps[tmp] == old(temps)[tmp] + bytes
      ensures end.Failed? ==> tmp !in temps
      ensures outcome.Fine? <==> end.Stored?
      ensures end.Crashed? ==> outcome.Crashes?
    {
      match outcome {
        case Fine =>
          temps := temps[tmp := temps[tmp] + bytes];
          return Stored;
        case Fails(code, n) =>
          temps := temps[tmp := temps[tmp] + Prefix(bytes, n)];
          Unlink(tmp);
          return Failed(code);
        case Crashes(n) =>
          temps := temps[tmp := temps[tmp] + Prefix(bytes, n)];
          return Crashed;
      }
    }

    /** The first half of write_chunk_file: a temporary file with header and data. */
    method WriteTemp(data: Bytes, tmp: string, script: Script) returns (end: Ending)
      requires |data| < TWO_64 && tmp !in temps
      modifies this`temps
      ensures end.Stored? ==> tmp in temps && temps[tmp] == ChunkFile(data)
      ensures end.Failed? ==> tmp !in temps
      ensures temps - {tmp} == old(temps)
      ensures script == SMOOTH ==> end.Stored?
      ensures end.Crashed? ==> Crashing(script)
    {
      hide ChunkFile, ChunkHeader, Prefix;
      match script.create {
        case Fails(code, _) => return Failed(code);
        case Crashes(_) => return Crashed;
        case Fine =>
      }
      temps := temps[tmp := []];
      var crc := Crc32.ComputeCrc(data);
      var header := StoreHeader(|data|, crc);
      AllBytes(header, data);
      assert [] + header == header;
      end := AppendTemp(tmp, header, script.writeHeader);
      if end.Stored? && |data| != 0 {
        end := AppendTemp(tmp, data, script.writeData);
      }
      if end.Stored? {
        end := Attempt(tmp, script.sync);
      }
      if end.Stored? {
        end := Attempt(tmp, script.close);
      }
    }

    /** write_chunk_file. Whatever the script does, chunks/ gains the complete file
        or nothing; a failure leaves no temporary file, a crash at most one. */
    method WriteChunkFile(target: Digest, data: Bytes, tmp: string, script: Script) returns (end: Ending)
      requires Valid() && |data| < TWO_64 && sha(data) == target
      requires IsTemp(tmp) && tmp !in temps
      modifies this
      ensures Valid()
      ensures View() == old(View()) ||
              (target !in old(chunks) && View() == old(View())[target := data])
      ensures end.Stored? ==> target in chunks && temps == old(temps)
      ensures end.Failed? ==> chunks == old(chunks) && temps == old(temps)
      ensures temps - {tmp} == old(temps)
      ensures script == SMOOTH ==> end.Stored?
      ensures end.Crashed? ==> Crashing(script)
    {
      hide ChunkFile, FileValid, Payload;
      end := WriteTemp(data, tmp, script);
      assert tmp !in temps ==> temps - {tmp} == temps;
      if !end.Stored? {
        return;
      }
      match script.directories {
        case Fails(code, _) => Unlink(tmp); return Failed(code);
        case Crashes(_) => return Crashed;
        case Fine =>
      }
      if target in chunks {
        Unlink(tmp);
        return Stored;
      }
      if script.rival {
        Overtaken(target, data);
      }
      match script.rename {
        case Fails(code, _) =>
          Unlink(tmp);
          if target in chunks {
            return Stored;
          }
          return Failed(code);
        case Crashes(n) =>
          if n != 0 {
            Rename(tmp, target, data);
          }
          return Crashed;
        case Fine =>
      }
      Rename(tmp, target, data);
      return Stored;
    }

    method Unlink(tmp: string)
      modifies this`temps
      ensures temps == old(temps) - {tmp}
    {
      temps := temps - {tmp};
    }

    /** The other writer's rename of the same content. */
    method Overtaken(target: Digest, data: Bytes)
      requires Valid() && |data| < TWO_64 && sha(data) == target
      modifies this`chunks
      ensures Valid() && View() == old(View())[target := data] && target in chunks
    {
      hide ChunkFile;
      chunks := chunks[target := ChunkFile(data)];
      assert FileValid(sha, target, chunks[target]);
      ViewAfter(old(chunks), target, data);
    }

    /** The atomic rename of a complete file into place. */
    method Rename(tmp: string, target: Digest, data: Bytes)
      requires Valid() && |data| < TWO_64 && sha(data) == target
      requires tmp in temps && temps[tmp] == ChunkFile(data)
      modifies this
      ensures Valid() && View() == old(View())[target := data] && target in chunks
      ensures temps == old(temps) - {tmp}
    {
      hide ChunkFile;
      chunks := chunks[target := temps[tmp]];
      temps := temps - {tmp};
      assert FileValid(sha, target, chunks[target]);
      ViewAfter(old(chunks), target, data);
    }

    /** put: refuses content that does not hash to the name; stores once. */
    method Put(data: Bytes, d: Digest, tmp: string, script: Script) returns (end: Ending)
      requires Valid() && |data| < TWO_64 && IsTemp(tmp) && tmp !in temps
      modifies this
      ensures Valid()
      ensures View() == old(View()) || (d !in old(chunks) && sha(data) == d && View() == old(View())[d := data])
      ensures sha(data) != d ==> end == Failed(E_CONFLICT) && View() == old(View()) && temps == old(temps)
      ensures end.Stored? ==> d in chunks && temps == old(temps)
      ensures end.Failed? ==> chunks == old(chunks) && temps == old(temps)
      ensures temps - {tmp} == old(temps)
      ensures script == SMOOTH && sha(data) == d ==> end.Stored?
      ensures end.Crashed? ==> Crashing(script)
    {
      assert temps - {tmp} == temps;
      if sha(data) != d {
        return Failed(E_CONFLICT);
      }
      if d in chunks {
        return Stored;
      }
      end := WriteChunkFile(d, data, tmp, script);
    }

    /** get_range, on whatever bytes the file has. */
    method GetRange(d: Digest, offset: U64, len: U64) returns (r: Result<Bytes>)
      ensures r == if d !in chunks then Err(E_NOTFOUND) else ReadRange(chunks[d], offset, len)
    {
      if d !in chunks {
        return Err(E_NOTFOUND);
      }
      var file := chunks[d];
      if |file| < CHUNK_HEADER_SIZE {
        return Err(E_IO);
      }
      var parsed := ParseHeader(file[..CHUNK_HEADER_SIZE]);
      if parsed.Err? {
        return Err(parsed.code);
      }
      var meta := parsed.value;
      if offset > meta.rawLen {
        return Err(E_RANGE);
      }
      var remaining := len;
      var available := meta.rawLen - offset;
      if remaining > available {
        remaining := available;
      }
      var at := (offset + CHUNK_HEADER_SIZE) % TWO_64;
      if at >= SEEK_LIMIT {
        return Err(E_IO);
      }
      var out: Bytes := [];
      if remaining != 0 {
        if at + remaining > |file| {
          return Err(E_EOF);
        }
        out := file[at..at + remaining];
      }
      if offset == 0 && |out| == meta.rawLen {
        var crc := Crc32.ComputeCrc(out);
        if crc != meta.crc {
          return Err(E_IO);
        }
      }
      return Ok(out);
    }

    /** What a reader of a valid store sees of the content. */
    lemma RangeOfView(d: Digest, offset: U64, len: U64)
      requires Valid() && d in chunks && |View()[d]| + CHUNK_HEADER_SIZE < SEEK_LIMIT
      ensures ReadRange(chunks[d], offset, len) ==
              if offset > |View()[d]| then Err(E_RANGE) else Ok(Slice(View()[d], offset, len))
    {
      ViewOk(d);
      ReadStored(View()[d], offset, len);
    }

    /** remove: idempotent. */
    method Remove(d: Digest)
      requires Valid()
      modifies this`chunks
      ensures Valid() && View() == old(View()) - {d}
    {
      hide FileValid, Payload;
      chunks := chunks - {d};
      assert forall e :: e in chunks ==> e in old(chunks);
    }

    /** cleanup_temp_files: unlink every name the writer could have left. */
    method CleanupTempFiles() returns (removed: nat)
      modifies this`temps
      ensures temps == old(temps) - TempNames(old(temps).Keys)
      ensures removed == |TempNames(old(temps).Keys)|
    {
      hide TempNames;
      removed := 0;
      var names := TempNames(temps.Keys);
      ghost var gone := {};
      while names != {}
        invariant gone !! names && gone + names == TempNames(old(temps).Keys)
        invariant temps == old(temps) - gone && removed == |gone|
        decreases |names|
      {
        var name :| name in names;
        names := names - {name};
        temps := temps - {name};
        gone := gone + {name};
        removed := removed + 1;
      }
    }
  }
}
