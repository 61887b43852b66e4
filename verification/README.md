# ForgeRelay: a verified model

ForgeRelay is an artifact server: clients upload files in chunks, the server
publishes them under a name and version, stores every distinct chunk once, and
serves byte ranges over a framed binary protocol. This project models its core in
Dafny and proves what the code is relied on for: nothing published or being uploaded
loses a chunk, a commit is all or nothing, a downloaded range is exactly the bytes
asked for, a byte stream means the same frames however the network cuts it, and no
request is lost between the I/O thread and the workers.

## Layout

| file | what it models |
|---|---|
| `bytes.dfy`, `byte_bits.dfy` | machine words, byte strings, slices |
| `crc32.dfy` | the bitwise CRC-32, its algebra over GF(2), the table-driven form |
| `byteorder.dfy`, `checked.dfy`, `buffer.dfy` | big-endian words, overflow checks, the growable buffer and the reader |
| `frame.dfy`, `streams.dfy` | the FRLY frame layer, the incremental parser, the server's and the client's driving loops |
| `wire.dfy`, `messages.dfy`, `manifest_codec.dfy`, `message_codecs.dfy` | the payload format of all messages; the put/get primitives; an encoder and a decoder for every record, with its bytes field by field |
| `known_answers.dfy` | whole encodings, limits and code numbers as literals |
| `store.dfy`, `answers.dfy` | the five tables and the chunk files as values, and what each storage operation does to them; what it answers, and leaves behind, as conditions on the rows before the call |
| `safety.dfy`, `operations.dfy` | the atomic statements, what they all preserve, and each operation as a sequence of them, with a crash possible between any two |
| `exactness.dfy`, `orphans.dfy` | runs without crashes: the cached chunk state is exact; which interrupted calls lose that for good |
| `beside.dfy` | maintenance and SESSION_ABORT running beside the locked calls, statement by statement |
| `history.dfy`, `session_limit.dfy` | whole histories: protection period, session machine, published content, quota; runs with exceptions, crashes and crashing recoveries: what becomes of the limit on sessions |
| `upload.dfy`, `range_read.dfy` | commit, the client's cutting of a file, uploads in any order; where the bytes of an artifact lie |
| `chunk_files.dfy`, `storage_layer.dfy` | the chunk files and the storage class with its loops, updated in place |
| `dispatch.dfy`, `download.dfy`, `query_upload.dfy` | the resumable GET, the client's download loop, the upload bitmap |
| `splice.dfy` | a concrete download whose artifact is replaced between two slices |
| `chunk_transfer.dfy`, `show_artifact.dfy`, `end_to_end.dfy` | a put from the client's encoder to the storage class; an artifact's record from the tables to the client; the command line client's upload and download over all of it |
| `server_queue.dfy`, `reply_order.dfy`, `queue_download.dfy` | queue, workers and completions as interleaved steps; in which order replies arrive; a download through all of them |
| `log.dfy` | JSON escaping and log rotation |

`Store` holds each storage operation once, as a function on values. The class in
`storage_layer.dfy` carries the source's loops and field updates and is proved to
compute these functions; the theorems of `Answers`, `Safety`, `Operations`, `Exactness`,
`History`, `SessionLimit`, `Orphans` and `Upload` are about them, so they hold of the
class.

## Assumptions

SHA-256 is a function without collisions on the contents that occur, printed as 64
characters. The clock is a parameter; where several steps are related it does not go
back. Session ids are fresh. Storage methods run one at a time, as
`include/forgerelay/storage/storage.hpp:11` demands of callers, except in
`beside.dfy`, where the two that the server calls without its lock do not. A
transaction is atomic; an SQL or I/O error inside an operation is an exception after
some of its statements, and the process goes on. Memory
allocation succeeds outside the buffer module and the manifest of a commit, where its
failure is a parameter.

## What the code does not guarantee

Each of these is a theorem, with the exact condition where there is one.

- A commit that fails between its two state changes leaves its session COMMITTING:
  the manifest of a huge declared size cannot be allocated, or an exception falls right
  after the first change. Nothing but the next maintenance undoes it. That is exactly
  when a session is stranded (`StrandedIff`, `CommitAllOrNothing`, `HugeManifest`).
- The quota is a 64-bit product of capacity and percentage; a capacity from 2^64 over the
  percentage on wraps, and the quota with it (`CreateAnswers`).
- The limit on open sessions per owner counts OPEN ones only, so stranded sessions
  come on top of it once maintenance reopens them: a run of four calls ends with two
  where one is allowed (`LimitBroken`). The excess is at most the number of times a
  session of that owner was stranded (`RunBetween`), so without any the limit holds
  (`LimitKept`); over a history of statements it holds exactly when every creation found
  fewer live sessions than the limit (`HistoryLimitIff`).
- A crash between deleting a dead session's part rows and marking its chunks leaves a
  chunk row ACTIVE that nothing refers to; neither maintenance nor garbage collection
  ever reclaims it (`CrashLeavesOrphan`, `OrphanStays`). Of all the ways a client's call
  can be cut off, recovery makes good every one except a cut before a statement of that
  marking loop; of the ways maintenance can, every one except a cut in that loop with a
  row still to be marked that no session yet to be retired names (`CutOrphanIff`). From
  any state recovery leaves no such row exactly when every ACTIVE row is still
  referenced or still named by a part of a dead session (`RecoveryExactIff`).
- Maintenance and SESSION_ABORT do not take the dispatcher's lock
  (`src/transport/fr_server.cpp:645`, `src/service/fr_dispatch.cpp:713`), so what they
  checked may be stale when they write. Of all statements of both threads exactly one
  does harm: the UPDATE that marks a chunk which has been referenced since the check
  (`LossIff`); a run that ends with such a mark is given (`LateMark`). No content is lost
  by it: whatever the interleaving, every chunk that is referenced keeps its row and its
  file, and every artifact can be read (`RunHeld`, `RunReadable`, `RunStable`). The mark
  goes with the first collection after the protection period, exactly then
  (`RepairIff`).
- With two or more workers, and four are the default, the continuation of a download
  can be answered before the slice it follows: replies arrive in the order they were
  made in every run exactly when there is one worker (`InOrderIff`).
- The largest chunk size the configuration admits, 8 MiB, leaves no room for the rest
  of a PUT_CHUNK payload, which is limited to 8 MiB itself: a full chunk cannot be
  uploaded (`PutOverWire`, `Publish`, `LargestChunkUnsendable`).
- The reply to SHOW_ARTIFACT fits a frame exactly up to a manifest of just under
  100 000 chunks (`ShownIff`, `TooManyChunks`); beyond that the encoder refuses it,
  its verdict is ignored (`src/service/fr_dispatch.cpp:252-254`), and no reply is sent.
  `frctl download` asks for that record before it fetches anything, so an artifact of
  more chunks can be published but not downloaded with it: it ends in an I/O error and
  writes no file (`DownloadFile`, `PublishAndFetch`, `LargestUnshown`).
- A download whose artifact is deleted and published anew between two slices goes on
  in the new content (`ServeReplaced`). The client gets the old content up to where the
  download had come and the new one from there, and the final OK: the range it asked
  for exactly when the rest reads the same in both (`PatchedIff`). A run in which it
  gets neither file is given (`SplicedRun`). If the artifact is not published again, or
  is shorter than where the download had come, the continuation ends with E_NOTFOUND or
  E_RANGE, no final OK is sent, and the progress entry stays.
- A resumed download is not compared with the artifact's digest, although a comment
  announces full verification: the file written is the artifact exactly when the
  partial file it continued is a prefix of it (`DownloadFile`, `StalePartKept`).
- A list reply with more than 4096 items (a manifest with more than 2^20 entries)
  encodes without complaint, and its decoder always rejects it (`OverlongRefused`,
  `UserListRefused`).
- A GET_ARTIFACT for zero bytes is answered OK without looking at the artifact, which
  may not exist; one that fails leaves its progress entry until the connection closes
  (`HandleGet`).
- After a protocol error the frame parser accepts further input without ever
  consuming it (`Parser.Feed`).
- The chunk file header documents bytes 26 to 31 as reserved and zero; the last two are
  written as zero and never checked (`AcceptedHeaders`). The model
  follows the code.

## Model

| member | source | states |
|---|---|---|
| Crc32.ComputeCrc | src/core_c/fr_crc32.c:9-26 | the nested byte and bit loops compute the register-machine definition of CRC-32 |
| Crc32.StepLinear | src/core_c/fr_crc32.c:18-23 | one bit step is linear over GF(2) |
| Crc32.UnstepStep | src/core_c/fr_crc32.c:18-23 | the bit step is injective: an explicit inverse undoes it |
| Crc32.StepUnstep | src/core_c/fr_crc32.c:18-23 | and onto: every register value is reached |
| Crc32.RegLinear | src/core_c/fr_crc32.c:9-26 | the register after any input is linear in start value and data |
| Crc32.RegInjective | src/core_c/fr_crc32.c:9-26 | for fixed data, different registers stay different |
| Crc32.BurstDetected | src/core_c/fr_crc32.c:9-26 | inputs of equal length differing only inside at most 4 consecutive bytes have different CRCs |
| Crc32.TableCrc | src/core_c/fr_crc32.c:9-26 | the table-driven form of section 8 of RFC 1952 returns the same CRC on every input |
| Crc32.PolyTerms | src/core_c/fr_crc32.c:9-26 | the polynomial word holds exactly the terms x^32 + x^26 + x^23 + x^22 + x^16 + x^12 + x^11 + x^10 + x^8 + x^7 + x^5 + x^4 + x^2 + x + 1, reflected |
| Crc32.DivisionStep | src/core_c/fr_crc32.c:18-23 | coefficient by coefficient, each turn of the inner loop is one step of the long division by that polynomial |
| Crc32.CheckValue | tests/unit/test_crc32.cc:16-19 | the CRC of "123456789" is 0xCBF43926 |
| ByteOrder.LoadBe | src/core_c/fr_byteorder.c:6-41 | store then load is the identity at every width |
| ByteOrder.BeLoad | src/core_c/fr_byteorder.c:6-41 | load then store restores the bytes, and the loaded value fits the width |
| ByteOrder.Load32Digits | src/core_c/fr_byteorder.c:10-12 | the loaded word is the sum of the place values the shifts assemble |
| ByteOrder.StoreBe16 | src/core_c/fr_byteorder.c:20-23 | writes the two bytes and leaves the rest of the array |
| ByteOrder.StoreBe32 | src/core_c/fr_byteorder.c:25-30 | writes the four bytes and leaves the rest of the array |
| ByteOrder.StoreBe64 | src/core_c/fr_byteorder.c:32-41 | writes the eight bytes and leaves the rest of the array |
| Checked.AddU64Exact | src/core_c/fr_checked.c:32-48 | the wrap-around test reports overflow exactly when the sum does not fit |
| Checked.MulU64Exact | src/core_c/fr_checked.c:60-80 | the quotient test reports overflow exactly when the product does not fit |
| Buffer.GrowCharacterised | src/core_c/fr_buffer.c:56-62 | the doubling ends at 64 times a power of two that holds the need and is below twice it (or where it began); it overflows exactly above 2^63 |
| Buffer.FrBuf.Reserve | src/core_c/fr_buffer.c:44-71 | contents unchanged on every path, fields unchanged on failure, capacity enough on success |
| Buffer.FrBuf.Append | src/core_c/fr_buffer.c:73-89 | appends to the contents, or fails and changes nothing |
| Buffer.FrBuf.Consume | src/core_c/fr_buffer.c:120-132 | drops the first n bytes, or E_RANGE and no change |
| Buffer.FrBuf.MoveFrom | src/core_c/fr_buffer.c:31-42 | takes over the source's contents and empties it; moving onto itself changes nothing |
| Buffer.Reader.Read | src/core_c/fr_buffer.c:159-171 | the next n bytes, or E_RANGE with the cursor unmoved |
| Frame.Encode | src/core_c/fr_frame.c:56-99 | appends exactly the encoding of an encodable frame, otherwise the argument's error and nothing |
| Frame.Parser.ValidateHeader | src/core_c/fr_frame.c:124-153 | accepts exactly the well-formed headers and stores their fields |
| Frame.Parser.Feed | src/core_c/fr_frame.c:155-220 | decides by everything absorbed so far: a whole frame, a protocol error, or wait; consumes no byte beyond the frame |
| Frame.ParseEncodeAll | src/core_c/fr_frame.c:56-99 | parsing the concatenated encodings of any frames returns them with nothing left over |
| Frame.EncodeParseStream | src/core_c/fr_frame.c:155-220 | every stream is the encoding of the frames found in it, plus its leftover |
| Frame.PrefixFree | src/core_c/fr_frame.c:56-99 | no frame's encoding is a proper prefix of another's |
| Frame.ParseStreamAppend | src/core_c/fr_frame.c:155-220 | parsing on from any cut gives the frames of the whole stream |
| Frame.CorruptedHeaderRejected | src/core_c/fr_frame.c:124-153 | a valid header altered inside 4 consecutive bytes of its first 16 is rejected |
| Frame.CorruptedCrcRejected | src/core_c/fr_frame.c:124-153 | a valid header altered only in its CRC field is rejected |
| KnownAnswers.KnownFrame | docs/PROTOCOL.md:16-37 | a PING with request id 1 is these twenty bytes |
| KnownAnswers.FrameLimits | include/forgerelay/fr_frame.h:30-69 | which types, flags, request ids and lengths a frame may have, in numbers, and with which code the encoder refuses the others |
| Streams.ServerRun | src/transport/fr_server.cpp:809-852 | the server's loop delivers the frames of the concatenated reads, one error at most, and the right residue, for every fragmentation |
| Streams.FrameReader.ReadFrame | src/client/fr_client.cpp:253-281 | one call of the client's loop returns the next frame, a protocol error, or the end of input |
| Streams.ClientRun | src/client/fr_client.cpp:253-281 | the client's loop delivers the same frames as the server's for every fragmentation |
| Wire.RoundTrip | src/service/fr_messages.cpp:157-757 | decoding an encoded message returns it and consumes exactly its bytes when the decoder's limits hold, and is a protocol error when they do not |
| Wire.PrefixRejected | src/service/fr_messages.cpp:157-757 | without a rest-of-payload field every strict prefix is a protocol error |
| Wire.Accepted | src/service/fr_messages.cpp:29-155 | whatever decodes is within all limits, and the reader advanced by exactly its encoded length |
| Wire.OverlongRefused | src/service/fr_messages.cpp:412-433 | a list over the limit encodes and never decodes |
| Wire.UserListRefused | src/service/fr_messages.cpp:587-611 | a USER_LIST reply with 4097 users, all with different names that user_add accepts, encodes and is refused |
| Wire.EveryMessage | src/service/fr_messages.cpp:157-757 | the shapes of all messages meet the conditions of the general results; MessageCodecs ties each of them to its bytes, and those of more than one field to their codecs |
| Messages.PutStr | src/service/fr_messages.cpp:29-36 | length prefix and bytes, or E_ARG over 512 bytes |
| Messages.GetStr | src/service/fr_messages.cpp:38-49 | reads what the format says a string is, E_PROTOCOL otherwise |
| Messages.PutI64 | src/service/fr_messages.cpp:103-106 | the two's complement word |
| Messages.GetI64 | src/service/fr_messages.cpp:108-111 | its inverse |
| Messages.EncodeListReq | src/service/fr_messages.cpp:359-371 | optional fields behind presence bytes, or E_ARG |
| Messages.DecodeListReq | src/service/fr_messages.cpp:373-386 | reads exactly that record, or E_PROTOCOL |
| Messages.EncodeSummary | src/service/fr_messages.cpp:388-397 | the record's fields in order, or E_ARG |
| Messages.DecodeSummary | src/service/fr_messages.cpp:399-410 | reads exactly that record, or E_PROTOCOL |
| Messages.EncodeListOk | src/service/fr_messages.cpp:412-418 | the loop writes the count and every item, whatever the count |
| Messages.DecodeListOk | src/service/fr_messages.cpp:420-433 | the loop reads exactly the counted items, E_PROTOCOL over 4096 or on any bad item |
| Messages.EncodeChunkReq | src/service/fr_messages.cpp:237-242 | the data follows unprefixed |
| Messages.DecodeChunkReq | src/service/fr_messages.cpp:244-252 | everything left over is the data |
| MessageCodecs.ListReqShape | src/service/fr_messages.cpp:359-371 | the bytes of a LIST_ARTIFACTS request, and that its shape is these |
| MessageCodecs.SummaryShape | src/service/fr_messages.cpp:388-397 | the bytes of an artifact summary |
| MessageCodecs.SummariesShape | src/service/fr_messages.cpp:412-433 | the bytes of a LIST_ARTIFACTS reply, 4096 summaries at most |
| MessageCodecs.ChunkReqShape | src/service/fr_messages.cpp:237-242 | the bytes of a PUT_CHUNK request |
| MessageCodecs.EntryShape | src/service/fr_messages.cpp:435-453 | the bytes of one manifest entry |
| MessageCodecs.EntriesCounted | src/service/fr_messages.cpp:455-482 | the manifest's decoder takes 1048576 entries at most |
| MessageCodecs.InfoShape | src/service/fr_messages.cpp:435-453 | the bytes of a SHOW_ARTIFACT reply |
| MessageCodecs.SingleFields | src/service/fr_messages.cpp:175-757 | the payloads of one field: AUTH and TOKEN_CREATE a string, the GET_ARTIFACT reply a u64, the DELETE_ARTIFACT reply an i64, RUN_GC a flag, DATA the rest, the requests by name three strings |
| KnownAnswers.NonzeroIsTrue | src/service/fr_messages.cpp:359-386 | any flag or presence byte but zero means yes |
| MessageCodecs.HelloShape | src/service/fr_messages.cpp:157-161 | the bytes of a HELLO, and that only version 1 is within the decoder's limits |
| MessageCodecs.EncodeHello | src/service/fr_messages.cpp:157-161 | writes these bytes, or E_ARG over 512 bytes of name |
| MessageCodecs.DecodeHello | src/service/fr_messages.cpp:163-173 | reads exactly that record, or E_PROTOCOL |
| MessageCodecs.AuthReplyShape | src/service/fr_messages.cpp:188-192 | the bytes of the AUTH reply: role, user name, field by field, and that its shape is exactly these |
| MessageCodecs.EncodeAuthReply | src/service/fr_messages.cpp:188-192 | writes these bytes after what was there, or E_ARG exactly when a field is too long |
| MessageCodecs.DecodeAuthReply | src/service/fr_messages.cpp:194-201 | reads exactly that record and its bytes, or E_PROTOCOL |
| MessageCodecs.CreateReqShape | src/service/fr_messages.cpp:203-208 | the bytes of the CREATE_UPLOAD request: name, size, digest, field by field, and that its shape is exactly these |
| MessageCodecs.EncodeCreateReq | src/service/fr_messages.cpp:203-208 | writes these bytes after what was there, or E_ARG exactly when a field is too long |
| MessageCodecs.DecodeCreateReq | src/service/fr_messages.cpp:210-218 | reads exactly that record and its bytes, or E_PROTOCOL |
| MessageCodecs.CreateOkShape | src/service/fr_messages.cpp:220-225 | the bytes of the CREATE_UPLOAD reply: session, chunk size, expiry, field by field, and that its shape is exactly these |
| MessageCodecs.EncodeCreateOk | src/service/fr_messages.cpp:220-225 | writes these bytes after what was there, or E_ARG exactly when a field is too long |
| MessageCodecs.DecodeCreateOk | src/service/fr_messages.cpp:227-235 | reads exactly that record and its bytes, or E_PROTOCOL |
| MessageCodecs.ChunkOkShape | src/service/fr_messages.cpp:254-258 | the bytes of the PUT_CHUNK reply: digest, whether it was there, field by field, and that its shape is exactly these |
| MessageCodecs.EncodeChunkOk | src/service/fr_messages.cpp:254-258 | writes these bytes after what was there, or E_ARG exactly when a field is too long |
| MessageCodecs.DecodeChunkOk | src/service/fr_messages.cpp:260-267 | reads exactly that record and its bytes, or E_PROTOCOL |
| MessageCodecs.ProgressShape | src/service/fr_messages.cpp:269-280 | the bytes of the QUERY_UPLOAD reply: state, chunk count, bitmap of at most 1 MiB, field by field, and that its shape is exactly these |
| MessageCodecs.EncodeProgress | src/service/fr_messages.cpp:269-280 | writes these bytes after what was there, or E_ARG exactly when a field is too long |
| MessageCodecs.DecodeProgress | src/service/fr_messages.cpp:282-297 | reads exactly that record and its bytes, or E_PROTOCOL |
| MessageCodecs.CommitOkShape | src/service/fr_messages.cpp:299-304 | the bytes of the COMMIT_UPLOAD reply: name, digest, size, field by field, and that its shape is exactly these |
| MessageCodecs.EncodeCommitOk | src/service/fr_messages.cpp:299-304 | writes these bytes after what was there, or E_ARG exactly when a field is too long |
| MessageCodecs.DecodeCommitOk | src/service/fr_messages.cpp:306-314 | reads exactly that record and its bytes, or E_PROTOCOL |
| MessageCodecs.GetReqShape | src/service/fr_messages.cpp:316-321 | the bytes of the GET_ARTIFACT request: name, offset, length, field by field, and that its shape is exactly these |
| MessageCodecs.EncodeGetReq | src/service/fr_messages.cpp:316-321 | writes these bytes after what was there, or E_ARG exactly when a field is too long |
| MessageCodecs.DecodeGetReq | src/service/fr_messages.cpp:323-331 | reads exactly that record and its bytes, or E_PROTOCOL |
| MessageCodecs.ServerStatusShape | src/service/fr_messages.cpp:484-494 | the bytes of the STATUS reply: its eight fields, field by field, and that its shape is exactly these |
| MessageCodecs.EncodeServerStatus | src/service/fr_messages.cpp:484-494 | writes these bytes after what was there, or E_ARG exactly when a field is too long |
| MessageCodecs.DecodeServerStatus | src/service/fr_messages.cpp:496-509 | reads exactly that record and its bytes, or E_PROTOCOL |
| MessageCodecs.GcOkShape | src/service/fr_messages.cpp:537-542 | the bytes of the RUN_GC reply: three counts, field by field, and that its shape is exactly these |
| MessageCodecs.EncodeGcOk | src/service/fr_messages.cpp:537-542 | writes these bytes after what was there, or E_ARG exactly when a field is too long |
| MessageCodecs.DecodeGcOk | src/service/fr_messages.cpp:544-552 | reads exactly that record and its bytes, or E_PROTOCOL |
| MessageCodecs.UserReqShape | src/service/fr_messages.cpp:554-558 | the bytes of the USER_ADD request: name, role, field by field, and that its shape is exactly these |
| MessageCodecs.EncodeUserReq | src/service/fr_messages.cpp:554-558 | writes these bytes after what was there, or E_ARG exactly when a field is too long |
| MessageCodecs.DecodeUserReq | src/service/fr_messages.cpp:560-567 | reads exactly that record and its bytes, or E_PROTOCOL |
| MessageCodecs.UserItemShape | src/service/fr_messages.cpp:569-575 | the bytes of the item of a USER_LIST reply, field by field, and that its shape is exactly these |
| MessageCodecs.EncodeUserItem | src/service/fr_messages.cpp:569-575 | writes these bytes after what was there, or E_ARG exactly when a field is too long |
| MessageCodecs.DecodeUserItem | src/service/fr_messages.cpp:577-585 | reads exactly that record and its bytes, or E_PROTOCOL |
| MessageCodecs.UsersShape | src/service/fr_messages.cpp:587-593 | the bytes of the USER_LIST reply: the count and the items, 4096 at most, field by field, and that its shape is exactly these |
| MessageCodecs.EncodeUsers | src/service/fr_messages.cpp:587-593 | writes these bytes after what was there, or E_ARG exactly when a field is too long |
| MessageCodecs.DecodeUsers | src/service/fr_messages.cpp:595-608 | reads exactly that record and its bytes, or E_PROTOCOL |
| MessageCodecs.TokenReqShape | src/service/fr_messages.cpp:610-614 | the bytes of the TOKEN_CREATE request: user, lifetime, field by field, and that its shape is exactly these |
| MessageCodecs.EncodeTokenReq | src/service/fr_messages.cpp:610-614 | writes these bytes after what was there, or E_ARG exactly when a field is too long |
| MessageCodecs.DecodeTokenReq | src/service/fr_messages.cpp:616-623 | reads exactly that record and its bytes, or E_PROTOCOL |
| MessageCodecs.TokenItemShape | src/service/fr_messages.cpp:638-645 | the bytes of the item of a TOKEN_LIST reply, field by field, and that its shape is exactly these |
| MessageCodecs.EncodeTokenItem | src/service/fr_messages.cpp:638-645 | writes these bytes after what was there, or E_ARG exactly when a field is too long |
| MessageCodecs.DecodeTokenItem | src/service/fr_messages.cpp:647-656 | reads exactly that record and its bytes, or E_PROTOCOL |
| MessageCodecs.TokensShape | src/service/fr_messages.cpp:658-664 | the bytes of the TOKEN_LIST reply: the count and the items, 4096 at most, field by field, and that its shape is exactly these |
| MessageCodecs.EncodeTokens | src/service/fr_messages.cpp:658-664 | writes these bytes after what was there, or E_ARG exactly when a field is too long |
| MessageCodecs.DecodeTokens | src/service/fr_messages.cpp:666-679 | reads exactly that record and its bytes, or E_PROTOCOL |
| MessageCodecs.SessionItemShape | src/service/fr_messages.cpp:681-691 | the bytes of the item of a SESSION_LIST reply, field by field, and that its shape is exactly these |
| MessageCodecs.EncodeSessionItem | src/service/fr_messages.cpp:681-691 | writes these bytes after what was there, or E_ARG exactly when a field is too long |
| MessageCodecs.DecodeSessionItem | src/service/fr_messages.cpp:693-705 | reads exactly that record and its bytes, or E_PROTOCOL |
| MessageCodecs.SessionsShape | src/service/fr_messages.cpp:707-713 | the bytes of the SESSION_LIST reply: the count and the items, 4096 at most, field by field, and that its shape is exactly these |
| MessageCodecs.EncodeSessions | src/service/fr_messages.cpp:707-713 | writes these bytes after what was there, or E_ARG exactly when a field is too long |
| MessageCodecs.DecodeSessions | src/service/fr_messages.cpp:715-728 | reads exactly that record and its bytes, or E_PROTOCOL |
| MessageCodecs.FailureShape | src/service/fr_messages.cpp:738-742 | the bytes of the ERROR payload: signed code, text, field by field, and that its shape is exactly these |
| MessageCodecs.EncodeFailure | src/service/fr_messages.cpp:738-742 | writes these bytes after what was there, or E_ARG exactly when a field is too long |
| MessageCodecs.DecodeFailure | src/service/fr_messages.cpp:744-751 | reads exactly that record and its bytes, or E_PROTOCOL |
| ManifestCodec.EncodeInfo | src/service/fr_messages.cpp:435-453 | encodes the SHOW_ARTIFACT reply with its manifest, whatever the number of entries, refusing it exactly when a field is too long |
| ManifestCodec.DecodeInfo | src/service/fr_messages.cpp:455-482 | decodes it, with the limit of 2^20 entries |
| ManifestCodec.ShownIff | src/service/fr_dispatch.cpp:532-546 | the reply is accepted by the frame encoder exactly when its fixed part and 84 bytes for each chunk stay within 8 MiB |
| ManifestCodec.TooManyChunks | src/service/fr_dispatch.cpp:252-254 | it never is from 99864 chunks on |
| Store.CountIsCeiling | src/storage/fr_storage.cpp:336-337 | the expected chunk count is the ceiling of size / chunk size wherever the 64-bit sum does not wrap |
| Answers.CreateAnswers | src/storage/fr_storage.cpp:247-314 | a well-formed request opens a session exactly when its owner has fewer open than the limit and the bytes in use are below the percentage of the capacity as a 64-bit product; E_ARG and E_LIMIT otherwise; the row's owner, name, sizes, digest and expiry |
| Answers.QuotaAnswers | src/storage/fr_storage.cpp:273-283 | where that product does not wrap: OK exactly when one more byte than are in use, in hundredths, is within the percentage of the capacity, E_LIMIT otherwise |
| Answers.PutAnswers | src/storage/fr_storage.cpp:321-398 | E_NOTFOUND, E_EXPIRED, E_STATE, E_RANGE, E_CONFLICT and the two kinds of OK, each exactly when the session, the ordinal, the length and the row there say so |
| Answers.PutEffects | src/storage/fr_storage.cpp:321-398 | what each of them leaves: nothing, an expired session, or the file, the row and the reactivated or new chunk |
| Answers.AcceptedIsThere | src/storage/fr_storage.cpp:321-398 | in a safe store an accepted chunk has its row, with its digest and length, its ACTIVE chunk, and its file with its bytes |
| Answers.CommitAnswers | src/storage/fr_storage.cpp:400-495 | which of the seven answers a commit gives, for every state its session can be in |
| Answers.CommitEffects | src/storage/fr_storage.cpp:400-546 | what it leaves: an expired, a stuck or an untouched session, or the artifact with every field, and its entries the session's rows end to end |
| Answers.ExpireAnswers | src/storage/fr_storage.cpp:141-180 | a due session expires: its rows go, and the chunks they named and nothing refers to any more, and only those, are marked now |
| Answers.AbortAnswers | src/storage/fr_storage.cpp:548-561 | aborting a live session does the same, and a finished one is left alone with OK |
| Answers.DeleteAnswers | src/storage/fr_storage.cpp:726-769 | E_NOTFOUND, or the artifact goes and exactly its chunks without another reference are marked now |
| Answers.CollectAnswers | src/storage/fr_storage.cpp:773-815 | row and file go of exactly the chunks marked at least the grace period ago, in a dry run of none; what the three counts count |
| Answers.MaintainAnswers | src/storage/fr_storage.cpp:817-850 | which sessions expire, reopen or stay, which rows go, and the two counts |
| Answers.MaintainMarks | src/storage/fr_storage.cpp:838-848 | of the chunks the dropped rows named, exactly those without another reference are marked now |
| Safety.SafeInitially | src/storage/fr_schema.cpp:21-72 | the empty store is safe |
| Safety.ActionSafe | src/storage/fr_storage.cpp:118-180 | every single statement keeps: all that an artifact or open upload references is ACTIVE with a file, files hash to their names, manifests are in order |
| Operations.PlanRuns | src/storage/fr_storage.cpp:321-561 | each operation is a sequence of such statements, each issued where its guards hold, ending in the operation's result |
| Operations.CrashSafe | src/storage/fr_storage.cpp:817-850 | stopped after any prefix of its statements, an operation leaves a safe store |
| Operations.NothingToRescue | src/storage/fr_storage.cpp:797-804 | the collector's branch that re-activates a referenced chunk is never taken |
| Exactness.ActiveIffReferenced | src/storage/fr_storage.cpp:118-138 | a chunk row is ACTIVE exactly when its digest is referenced, and then its file is there and hashes to it |
| Exactness.ExactInitially | src/storage/fr_schema.cpp:21-72 | the agreement holds of the empty store |
| Exactness.OpExact | src/storage/fr_storage.cpp:321-850 | every operation keeps that agreement, puts and commits that end in an I/O error included |
| Exactness.RunExact | src/storage/fr_storage.cpp:321-850 | so does every run of operations from the empty store, however many of them end in an I/O error |
| Exactness.UsedIsLiveSize | src/storage/fr_storage.cpp:852-860 | used_bytes is the deduplicated size of the live content |
| Exactness.DeleteCounts | src/storage/fr_storage.cpp:726-769 | delete_artifact returns how many digests lost their last reference |
| Exactness.DryRunPredicts | src/storage/fr_storage.cpp:773-815 | a dry run changes nothing and reports exactly the rows and files the real run removes |
| Exactness.MaintenanceSettles | src/storage/fr_storage.cpp:817-850 | afterwards no session is COMMITTING and no dead session has parts |
| Exactness.MaintenanceIdempotent | src/storage/fr_storage.cpp:817-850 | at a fixed clock, with no COMMITTING session, a second pass changes and reports nothing |
| Exactness.RecoveryExactIff | src/storage/fr_storage.cpp:838-848 | exactly when a maintenance pass leaves no unreferenced ACTIVE row |
| Orphans.OrphanStays | src/storage/fr_storage.cpp:773-850 | an ACTIVE row without references or parts survives maintenance and collection |
| Orphans.RetireAllCut | src/storage/fr_storage.cpp:838-848 | the same for the loop over any list of dead sessions, from any state recovery would make good |
| Orphans.CutOrphanIff | src/storage/fr_storage.cpp:159-180 | from an exact store, any operation cut off after any of its statements, then recovered, leaves an unreferenced ACTIVE row exactly when the cut falls in a marking loop with a row still to be marked that no session yet to be retired names; for a client's call, exactly when its next statement is a mark |
| Orphans.CrashLeavesOrphan | src/storage/fr_storage.cpp:159-180 | a concrete run from the empty store, ended by a crash, that produces one |
| Beside.LossIff | src/storage/fr_storage.cpp:170-179 | of all statements of the locked calls and of maintenance and abort beside them, only the UPDATE that marks a chunk referenced by then takes a safe store out of safety |
| Beside.HeldKept | src/storage/fr_storage.cpp:159-813 | every statement of both threads keeps, marks on rows apart, all that safety says: whatever is referenced has its row and its file |
| Beside.ReadyStays | src/storage/fr_storage.cpp:321-391 | what a locked call has checked outlasts any statement that can come between the check and its own statement |
| Beside.RunHeld | src/transport/fr_server.cpp:634-650 | so this holds at every point of every interleaving from the empty store, crashes included |
| Beside.RunReadable | src/storage/fr_storage.cpp:886-936 | and every artifact is there in full, with the digest it was published with |
| Beside.RunStable | src/storage/fr_storage.cpp:726-769 | a published artifact keeps its record and its bytes until its deletion, in every interleaving |
| Beside.CommitReady | src/storage/fr_storage.cpp:400-533 | a commit that took its session while live, and whose validation succeeds, may publish whatever the other thread has done to the session since |
| Beside.SerialIs | src/storage/fr_storage.cpp:118-850 | each statement or transaction of the serialized model is a run of these statements with nothing between |
| Beside.RepairIff | src/storage/fr_storage.cpp:793-813 | a collection makes the store safe again exactly when every referenced chunk that is marked has been for the protection period |
| Beside.LateMark | src/storage/fr_storage.cpp:170-179 | a concrete run of two uploads and maintenance that ends with the chunk of an open upload marked for deletion |
| History.TraceSafe | src/storage/fr_storage.cpp:118-180 | safety at every point of every history of statements |
| History.TraceExtends | src/storage/fr_storage.cpp:321-850 | histories cover every run of operations, complete or cut off |
| History.GraceRespected | src/storage/fr_storage.cpp:793-813 | a chunk is removed only after being unreferenced in every state for the whole protection period |
| History.ActionSessions | src/storage/fr_storage.cpp:183-191 | every statement moves a session along a documented edge and changes no other field |
| History.TerminalAbsorbing | src/storage/fr_storage.cpp:548-561 | over any history fields are fixed and terminal states are final |
| History.PublishedStable | src/storage/fr_storage.cpp:726-769 | over any history that does not delete it, a published artifact keeps its record and its bytes |
| History.SameContent | src/storage/fr_storage.cpp:586-628 | safe states that hold the same artifact hold the same bytes for it |
| History.OpArtifacts | src/storage/fr_storage.cpp:321-850 | no completed operation but its deletion changes a published artifact |
| SessionLimit.StrandedIff | src/storage/fr_storage.cpp:404-423 | of all the ways an operation can end, exactly these leave a session COMMITTING: the commit of an open, unexpired session whose manifest allocation is refused, or that an exception ends right after the state change |
| SessionLimit.BetweenInitially | src/storage/fr_schema.cpp:21-72 | what holds between the steps of a run holds of the empty store, with no excess |
| SessionLimit.StepBetween | src/storage/fr_storage.cpp:817-850 | each operation, completed, ended by an exception, or crashed with any number of crashing recoveries, leaves the store safe and the excess grown by the sessions it stranded; none COMMITTING after recovery |
| SessionLimit.CreateLimit | src/storage/fr_storage.cpp:266-272 | a creation goes over the limit by at most what is COMMITTING, and keeps it exactly when the live sessions were below it |
| SessionLimit.RunBetween | src/storage/fr_storage.cpp:266-272 | over every run an owner has at most the limit plus the number of times a session was stranded |
| SessionLimit.LimitKept | src/storage/fr_storage.cpp:266-272 | a run from the empty store that strands none keeps the limit |
| SessionLimit.HistoryLimitIff | src/storage/fr_storage.cpp:266-272 | the limit holds of live sessions throughout a history exactly when every creation found fewer than the limit live |
| SessionLimit.OpenAfterMaintenance | src/storage/fr_storage.cpp:829-836 | after maintenance an owner has exactly the live sessions open that were not due |
| SessionLimit.LimitBroken | src/transport/fr_server.cpp:612-645 | a concrete run without crash or reopening in which an owner exceeds a limit of one |
| SessionLimit.HugeManifest | src/storage/fr_storage.cpp:419-423 | a declared size that asks for 2^42 - 2 manifest entries |
| History.ActionPotential | src/storage/fr_storage.cpp:273-283 | used bytes plus what live sessions may still bring never rises, except by one session's full size when it is created below the watermark |
| History.QuotaBound | src/storage/fr_storage.cpp:273-283 | on any history the live content stays below the percentage of the capacity plus what the sessions live at the last creation had reserved |
| Upload.CheckIff | src/storage/fr_storage.cpp:418-495 | in a safe store validation succeeds exactly when the upload is complete, sized and hashed as declared, and the name is free |
| Upload.CommitAllOrNothing | src/storage/fr_storage.cpp:400-546 | commit publishes exactly one artifact covering [0, size) with the declared digest, or changes nothing, or is left COMMITTING; the last exactly when its manifest cannot be allocated, the first exactly when it can and the upload is committable |
| Upload.CutFile | src/apps/frctl/main.cpp:126-139 | the client's loop sends the file's pieces, as many as the server expects, losing nothing |
| Upload.OwnPut | src/storage/fr_storage.cpp:321-398 | putting a right piece, new or repeated, succeeds and keeps the upload right |
| Upload.OthersKeep | src/storage/fr_storage.cpp:141-180 | no other call touches the rows of an open, unexpired session |
| Upload.BenignRun | src/storage/fr_storage.cpp:321-398 | under any schedule of puts and foreign calls every piece put is there |
| Upload.UploadRoundTrip | src/storage/fr_storage.cpp:321-546 | then commit succeeds exactly when its manifest can be allocated, with the one manifest of the file, and the published content is the file |
| RangeRead.EntryBytes | src/storage/fr_storage.cpp:650-668 | a manifest entry is exactly its byte range of the content |
| RangeRead.SafeReadable | src/storage/fr_storage.cpp:586-628 | in a safe store every artifact's chunks are present with the lengths the manifest says |
| Bytes.SliceAdjacent | src/storage/fr_storage.cpp:886-936 | adjacent slices concatenate to the slice of the union |
| ChunkFiles.StoreHeader | src/storage/fr_chunk_store.cpp:20-33 | the header bytes, field by field |
| ChunkFiles.HeaderRoundTrip | src/storage/fr_chunk_store.cpp:41-63 | parsing a stored header returns its fields |
| ChunkFiles.AcceptedHeaders | src/storage/fr_chunk_store.cpp:41-63 | the headers accepted are exactly the stored ones up to the last two bytes |
| ChunkFiles.ReadStored | src/storage/fr_chunk_store.cpp:187-250 | reading (o, n) of a stored chunk gives bytes [o, min(o + n, length)), E_RANGE beyond the end |
| ChunkFiles.CorruptionDetected | src/storage/fr_chunk_store.cpp:244-249 | a whole read detects any change of the data confined to 4 consecutive bytes |
| ChunkFiles.TruncatedRead | src/storage/fr_chunk_store.cpp:187-250 | reading a file that ends too early: an I/O error without a header, E_EOF exactly for a read past the end, the right bytes otherwise |
| KnownAnswers.KnownHeader | src/storage/fr_chunk_store.cpp:20-33 | the header of the chunk "123456789" is these thirty-two bytes |
| ChunkFiles.ChunkStore.WriteTemp | src/storage/fr_chunk_store.cpp:101-138 | up to the close: a complete temporary file, none after a failure, any prefix of one after a crash |
| ChunkFiles.ChunkStore.WriteChunkFile | src/storage/fr_chunk_store.cpp:101-159 | wherever it fails or crashes, or is overtaken by another writer of the same chunk, chunks/ holds only complete valid files and at most one temporary file is left |
| ChunkFiles.ChunkStore.Put | src/storage/fr_chunk_store.cpp:161-180 | refuses content that does not hash to the name, stores once |
| ChunkFiles.ChunkStore.GetRange | src/storage/fr_chunk_store.cpp:187-250 | what it returns for whatever bytes the file has |
| ChunkFiles.ChunkStore.Remove | src/storage/fr_chunk_store.cpp:279-290 | removes the one chunk, idempotently |
| ChunkFiles.ChunkStore.CleanupTempFiles | src/storage/fr_chunk_store.cpp:292-310 | removes and counts exactly the temporary files |
| StorageLayer.Storage.constructor | src/storage/fr_storage.cpp:212-243 | opening recovers: the state after maintenance, no temporary files |
| StorageLayer.Storage.MarkEach | src/storage/fr_storage.cpp:170-179 | the marking loop marks exactly the unreferenced ACTIVE chunks of the list and counts them |
| StorageLayer.Storage.MarkUnreferencedParts | src/storage/fr_storage.cpp:159-180 | drops a session's part rows and marks what they alone held |
| StorageLayer.Storage.CreateSession | src/storage/fr_storage.cpp:247-314 | computes Store.CreateSession, result and state |
| StorageLayer.Storage.PutChunk | src/storage/fr_storage.cpp:321-398 | computes Store.PutChunk; when a file system call fails at most the expiry has happened, when the process dies in one at most the expiry and the file |
| StorageLayer.Storage.BuildManifest | src/storage/fr_storage.cpp:419-458 | the loop accepts exactly contiguous, correctly sized parts and returns their manifest; the running total does not overflow |
| StorageLayer.Storage.OverallContent | src/storage/fr_storage.cpp:461-481 | the hash sees exactly the content, or the missing chunk is reported |
| StorageLayer.Storage.PublishTx | src/storage/fr_storage.cpp:497-533 | the publishing loop produces the artifact with all its rows and completes the session |
| StorageLayer.Storage.CommitSession | src/storage/fr_storage.cpp:400-546 | computes Store.CommitSession, through COMMITTING and back on failure, left there when the allocation fails |
| StorageLayer.Storage.AbortSession | src/storage/fr_storage.cpp:548-561 | computes Store.AbortSession, idempotent on finished sessions |
| StorageLayer.Storage.DeleteArtifact | src/storage/fr_storage.cpp:726-769 | computes Store.DeleteArtifact with its count |
| StorageLayer.Storage.SweepOne | src/storage/fr_storage.cpp:793-813 | one candidate: kept in its protection period, re-activated if referenced, else deleted |
| StorageLayer.Storage.CollectGarbage | src/storage/fr_storage.cpp:773-815 | the sweep computes Store.CollectGarbage with its report |
| StorageLayer.Storage.RunMaintenance | src/storage/fr_storage.cpp:817-850 | computes Store.RunMaintenance with its report |
| StorageLayer.Storage.UsedBytes | src/storage/fr_storage.cpp:852-860 | the sum over ACTIVE rows |
| StorageLayer.Storage.SessionProgress | src/storage/fr_storage.cpp:869-884 | the expected count and exactly the present ordinals, ascending |
| StorageLayer.Storage.Deliver | src/storage/fr_storage.cpp:646-671 | the window loop delivers exactly the window in non-empty pieces of at most a chunk; no 64-bit sum overflows |
| StorageLayer.Storage.ReadArtifact | src/storage/fr_storage.cpp:630-677 | E_NOTFOUND, E_RANGE, or exactly the clipped slice of the content |
| StorageLayer.Storage.ReadArtifactSlice | src/storage/fr_storage.cpp:886-936 | the same, and returns its length |
| StorageLayer.Storage.Perform | src/service/fr_dispatch.cpp:330-460 | whichever operation is called, and whatever becomes of its file system calls short of a crash, tables and files become what that operation, or its failed form, is specified to make of them |
| Dispatch.KeysApart | src/service/fr_dispatch.cpp:459 | progress keys are unique, and a connection's prefix matches exactly its own keys |
| Dispatch.Dispatcher.HandleGet | src/service/fr_dispatch.cpp:452-502 | the first slice as DATA frames, the OK if that was all, and what is remembered |
| Dispatch.Dispatcher.HandleGetContinue | src/service/fr_dispatch.cpp:190-239 | the next slice, the OK with the total once nothing remains or the artifact ended, no other entry touched |
| Dispatch.Dispatcher.ServeGet | src/service/fr_dispatch.cpp:190-239 | a whole download, with any other requests, closed connections and storage operations between its slices except the deletion of its artifact, spells out the clipped range, ends in exactly one OK with its length, erases its entry, leaves the artifact as it was, and terminates for every length |
| Dispatch.Dispatcher.ServeReplaced | src/service/fr_dispatch.cpp:190-239 | a download whose artifact was deleted between two slices: with nothing of that name, or too little, E_NOTFOUND or E_RANGE, no OK and the entry kept; published anew, all its frames together, over any number of further slices, answer the request on the old content up to there and the new one from there |
| Dispatch.PatchedIff | src/service/fr_dispatch.cpp:190-239 | the bytes such a download delivers, and that they are the range asked for exactly when the rest reads the same in both contents |
| Splice.SplicedRun | src/service/fr_dispatch.cpp:190-239 | a concrete run on a fresh server, two uploads of one name, the first deleted and the second committed after the first slice: the client is told it finished and has neither file |
| Dispatch.Dispatcher.OnConnectionClosed | src/service/fr_dispatch.cpp:167-181 | forgets exactly the downloads of that connection |
| KnownAnswers.ReplyFrames | src/service/fr_dispatch.cpp:207-233 | the DATA, OK and ERROR frames of a download, in numbers |
| KnownAnswers.SliceLimit | src/service/fr_dispatch.cpp:16 | a slice is a mebibyte, or all that remains or is there |
| KnownAnswers.StatusNumbers | include/forgerelay/fr_error.h:26-44 | the signed number of every status code |
| Download.RunDownload | src/client/fr_client.cpp:376-407 | the client's loop sinks every DATA payload up to the first other frame and counts it |
| Download.OutcomeIs | src/client/fr_client.cpp:390-407 | for any replies: the payloads before the first frame that is not DATA, and how that frame ends the call |
| Download.RepliesEncodable | src/service/fr_dispatch.cpp:207-233 | every frame of a served download is accepted by the frame encoder |
| Download.DownloadEndToEnd | src/client/fr_client.cpp:376-407 | every reply of a served download can be encoded, and however the bytes are cut, the client gets exactly the range asked for |
| Download.WireLength | src/service/fr_dispatch.cpp:207-233 | at most how many bytes a download takes on the wire |
| Download.FileComesBack | src/client/fr_client.cpp:376-407 | a full download of what an upload published is the uploaded file |
| ChunkTransfer.EncodePut | src/client/fr_client.cpp:425-438 | the request is encoded exactly when it fits one frame, E_RANGE otherwise |
| ChunkTransfer.PutOverWire | src/service/fr_dispatch.cpp:364-388 | however its bytes are cut, the server makes of the request what put_chunk makes of its arguments, unless it does not fit a frame |
| EndToEnd.Publish | src/apps/frctl/main.cpp:120-140 | create, put every piece over the wire, commit, each call at its own time: refused by the quota, by a piece too long for a frame or by the allocation of the manifest, exactly then and with that code; otherwise the published content is the file |
| EndToEnd.LargestChunkUnsendable | src/service/fr_config.cpp:83-86 | with 8 MiB chunks and 24-character tokens exactly the files of at most 8 MiB less 34 bytes can be sent |
| EndToEnd.Fetch | src/client/fr_client.cpp:376-407 | any range of a published artifact arrives exactly, through dispatcher and client loop, with other events between the slices |
| EndToEnd.FetchOverWire | src/client/fr_client.cpp:253-283 | the same with the replies encoded into a buffer, the bytes cut anywhere, and the frames read back by the client |
| EndToEnd.FetchThroughServer | src/transport/fr_server.cpp:546-631 | the same through queue, single worker, completions and outbox: on every run that carries the dispatcher's slices, the bytes a waiting client receives decode to exactly the range |
| ShowArtifact.ReadInfo | src/storage/fr_storage.cpp:586-628 | the loop returns the artifact's record with every manifest entry in order, or E_NOTFOUND |
| ShowArtifact.Show | src/client/fr_client.cpp:359-372 | a SHOW_ARTIFACT exchange, from the tables through both codecs and any cuts of the network: the record itself, the server's error code, or an I/O error when the reply does not fit a frame |
| EndToEnd.ToldIff | src/service/fr_dispatch.cpp:532-546 | in a safe store which of the three depends on the lengths of the names and the number of chunks alone |
| EndToEnd.LargestUnshown | src/service/fr_dispatch.cpp:252-254 | no artifact of more than 99863 full chunks can be shown |
| EndToEnd.DownloadFile | src/apps/frctl/main.cpp:153-198 | a file is written if and only if the artifact exists and its record can be shown, with the error code otherwise; it is the artifact if and only if the download started over or continued a prefix of it |
| EndToEnd.StalePartKept | src/apps/frctl/main.cpp:165-198 | a concrete partial file that leaves a wrong file of the right length |
| EndToEnd.PublishAndFetch | src/apps/frctl/main.cpp:120-198 | what was published comes back, whatever else happens between the slices, unless the upload is refused or the artifact has too many chunks to be shown; those end with exactly their codes |
| QueryUpload.BuildBitmap | src/service/fr_dispatch.cpp:396-407 | refused exactly above 1 MiB of bitmap; otherwise bit o is set exactly when ordinal o is present |
| QueryUpload.BitPlace | src/service/fr_dispatch.cpp:404-406 | the bit of an ordinal is counted from the lowest bit of its byte |
| ServerQueue.StepInv | src/transport/fr_server.cpp:468-631 | every step of I/O thread and workers, in any order, keeps the accounting, the bounds and the byte order |
| ServerQueue.RunInv | src/transport/fr_server.cpp:546-631 | so does every interleaving |
| ServerQueue.Accounted | src/transport/fr_server.cpp:829-851 | for an open connection not being closed, frames parsed = queued + with workers + completed + answered, each request in exactly one place and answered at most once; the queue never exceeds 256 |
| ServerQueue.BusyIff | src/transport/fr_server.cpp:829-851 | a request is answered BUSY exactly when 256 are queued, and queued otherwise; a completion waits exactly when 128 are undelivered |
| ServerQueue.NothingAfterClosing | src/transport/fr_server.cpp:511-524 | on a connection that is to be closed the workers add nothing, over any run |
| ServerQueue.ViolationCloses | src/transport/fr_server.cpp:814-823 | the error that answers a protocol violation is the last reply on its connection |
| ServerQueue.CloseIsLast | src/transport/fr_server.cpp:519-524 | so is a reply that closes it |
| ReplyOrder.OneWorkerInOrder | src/transport/fr_server.cpp:546-631 | with one worker, over any run, the replies to each request reach an open connection in the order they were made, the final one last |
| ReplyOrder.InOrderIff | src/transport/fr_server.cpp:594-627 | of all admissible numbers of workers exactly one keeps that order in every run |
| ReplyOrder.Overtaking | src/transport/fr_server.cpp:594-627 | with any larger number, a concrete run in which the final OK overtakes the slice before it |
| QueueDownload.WholeDownload | src/transport/fr_server.cpp:546-631 | with one worker and a client that waits for each answer, what arrives after a GET is sent is exactly its slices' encoding, whole and in order, and decodes to the range asked for |
| Log.JsonEscape | src/service/fr_log.cpp:23-56 | the loop computes the escaping |
| Log.EscapeRoundTrip | src/service/fr_log.cpp:23-56 | reading by section 7 of RFC 8259 gives the text back |
| KnownAnswers.EscapeText | src/service/fr_log.cpp:23-56 | the seven cases of the escape, as text |
| Log.EntryIsLine | src/service/fr_log.cpp:201-229 | whatever the texts, an entry is printable bytes and one final line break |
| Log.BuildLine | src/service/fr_log.cpp:201-229 | the assembly, with at most eight pairs |
| KnownAnswers.LineText | src/service/fr_log.cpp:201-229 | the line with its keys as text, and eight pairs at most |
| Log.LostIff | src/service/fr_log.cpp:170-199 | over any further lines, what a file holds is at its place exactly until one more rotation than files are kept, and among the dropped lines from then on |
| Log.ClosedFull | src/service/fr_log.cpp:170-175 | no file is closed early: the line that began the next one would have taken it to the limit |
| Log.Logger.ShiftFiles | src/service/fr_log.cpp:177-198 | the renames move every kept file up by one and free the log |
| Log.Logger.Write | src/service/fr_log.cpp:170-199 | below the size limit the line is appended to the log and nothing else changes; at it the line begins a new log, every file moves up by one, and only the oldest of a full set goes |
| Log.Logger.LogEntry | src/service/fr_log.cpp:201-241 | one call adds exactly one line, with the same two cases |
| Log.Logger.constructor | src/service/fr_log.cpp:123-155 | opening appends to the log that is there and takes over its size, or creates it |
| Log.Logger.RetainedSuffix | src/service/fr_log.cpp:170-199 | the retained files, oldest first, are a suffix of everything logged, cut at a file; each file begun since opening is below the limit or holds at most one line, and the one found then too unless nothing was added to it |

## Left out

- SQLite, WAL, busy timeouts, sockets, epoll, TLS, TOML, command lines, real file descriptors: replaced by maps, parameters and scripts of outcomes.
- SHA-256 itself and random tokens: a collision-free function and fresh ids.
- Identifier and digest syntax, the two-level directory of a digest, roles, authentication, rate limiting, audit: single checks beside the modelled state.
- Beside.RunHeld: the two threads share one database connection; a transaction of one that is rolled back takes statements of the other with it, and a transaction begun inside another fails. Transactions here are single steps that succeed. What the interleaving does to quota, session limit and exactness is not stated: those results are for serialized calls.
- stored_size, note and the artifact's row id: carried by the source, never decided on.
- list_artifacts and list_sessions: ordered queries with paging.
- Dispatch.Dispatcher.ServeGet: one worker at a time; what several do to the order of the slices is ReplyOrder.InOrderIff. The download's own connection stays open, and the request's own encoding and decoding come before it.
- Dispatch.Dispatcher.HandleGet: error texts are left empty, and decoding and the role check come before it.
- Dispatch.Dispatcher.HandleGetContinue: an exception is returned as a code; the worker then answers under request id 1, because a continuation does not carry the original id.
- ChunkFiles.ChunkStore.WriteChunkFile: data written before a completed fsync is taken to be durable.
- ChunkFiles.ChunkStore.GetRange: the buffer reservation always succeeds.
- SessionLimit.StepBetween: its steps, like those of Exactness and Upload, are serialized; for maintenance and abort beside them only the results of Beside hold.
- Wire.RoundTrip: lists have fewer than 2^32 items, so the cast of the count to 32 bits is exact.
- ServerQueue.NothingAfterClosing: a run in which nothing more is read from the connection; what is read is still answered, or queued, by the I/O thread.
- MessageCodecs.EncodeUsers: fewer than 2^32 items, and room in the buffer; so for the other lists.
- Upload.UploadRoundTrip: file size plus chunk size is at most 2^64, below the point where the source's ceiling division wraps.
- ServerQueue.Accounted: liveness of the queues is not claimed; replies fit the frame limit; shutdown drops what is queued.
- ChunkTransfer.PutOverWire: one put on its connection, without the session lookup and the role check before it; its reply is PUT_CHUNK_OK, whose format Wire.EveryMessage covers.
- EndToEnd.Publish: create and commit are called on the storage class directly.
- ShowArtifact.Show: the encoding of the request is not modelled, and the artifact's note is empty, as every artifact's is.
- QueueDownload.WholeDownload: the connection stays open and the client waits for the answer to each request before it sends the next, as Client does.
- EndToEnd.FetchOverWire: at most 2^58 bytes, which keeps the client's receive buffer below 2^63; EndToEnd.Fetch has no such bound.
- Log.Logger.constructor: the files found are those a run with the same number of kept files leaves, without gaps.
- Log.Logger.Write: renames of existing files succeed, and one process writes the log.
- Frame.Parser.Feed: allocation of the payload buffer does not fail.
