# A verified model of pproxy's stream codecs, cipher modes and connection owners

pproxy moves bytes through stacks of small stateful codecs and shares connections between coroutines.
This project models that code in Dafny 4.11 and proves what it promises over every chunking, every
run and every interleaving. Line references are to the repository's own files.

The layers, bottom up:

- **Streams.** `Incremental` is a theory of incremental decoders: a decoder is *lawful* when feeding a
  chunk in two parts equals feeding it whole. Lawful decoders do not depend on chunking, compose in
  stacks of any height, and deliver what an inverted encoder wrote. `Framing` shows that every
  "buffer, then loop over complete frames" parser whose decisions are stable is lawful. Everything
  below instantiates the two.
- **Cipher streams.** `StreamAdapter` (vector first, then the cipher stream, plugin callbacks around
  it), `AdapterObjects` (the mutable session and the patched reader), `Aead` (sealed packets under a
  counted nonce), `Ota` (authenticated chunks installed in mid-stream), `Plugins`, `PluginCuts` and
  `TicketRecords` (inner framings, and which input of theirs depends on chunking), `KeyStreams` (what an empty vector does), `MixedLayers` (stacks of different
  ciphers, and a stack that is complete from its vectors up).
- **WebSocket.** `WebSocket` (parser), `WebSocketWire` (writer and round trip), `WebSocketMessages`
  (reassembly and bounds), `WebSocketCuts` (which input depends on chunking), `WebSocketObjects` (the
  mutable stream). Section 5 of RFC 6455.
- **Cipher arithmetic.** `Bits` and `ByteStrings` (unbounded integers and their byte readings),
  `ChaCha20` and `Poly1305` (RFC 8439), `Gcm`, `GcmField` (what its product is) and `GcmCipher`
  (NIST SP 800-38D), `Cfb`, `CfbBits` and
  `BlockStreams` (NIST SP 800-38A). Block functions are arbitrary. `GcmCipher` and `Poly1305` end by
  showing that they are backends of `Aead`; `Cfb`, `CfbBits`, `KeyStreams` and `Aead` that they are
  layers of the stack theorem.
- **Shared connections.** `Http2` (stream writers under flow control), `Quic` (who owns, waits for and
  cancels the one connection), `UdpChain` (packets and replies through jump chains), `UdpTable` (the
  association table), `Scheduler` (round robin). Coroutines are step systems: one step is what runs
  between two `await` points, and theorems range over all event sequences.

Code that works by updating state is a class or a loop here too. Its contract equates the new state
with a function of the old one, and the theorems are about that function.

That two sides undo each other would also hold of another format, so the bytes themselves are stated too,
without the functions that compute them: `StreamAdapter.WireLayout`, `Aead.PacketsLayout`, `Ota.ChunkLayout`,
`Plugins.SimpleFrames`, `Plugins.DeflateFrames`, `TicketRecords.RecordsLayout`, `WebSocketWire.FrameLayout`,
`UdpChain.PreparedLayout`, and for the ciphers `ChaCha20.StreamIsReference`, `GcmCipher.SealIs`,
`GcmCipher.BlockProductIs`, `Poly1305.TagIs`, `Cfb.CfbIs` and `CfbBits.BitModeIs`. In the other direction
`Aead.DeliversOpened`, `Ota.DeliversAuthentic` and `Plugins.WholeFrame` say that nothing else is delivered.
Of the step systems, `Quic.ReturnsExactly`, `Quic.SettlesExactly`, `Http2.Conservation`,
`Http2.EverythingSent`, `UdpTable.EntriesExactly` and `UdpTable.CountsFromEvents` say what a step or a run
does in terms of its events alone.

Some results are limits of the code, with the condition that decides and inputs or runs that show them:

- The AEAD nonce counter is masked to `NONCE_LENGTH` bits although nonces are that many bytes
  (`pproxy/cipher.py:113`), so 12-byte nonces repeat every 4096 operations: `Aead.NonceReuse`.
- A cipher with an empty vector is started again on every call (`pproxy/cipher.py:374`, `:401`):
  `KeyStreams.EmptyVector`.
- WebSocket input behind a close frame depends on chunking (`pproxy/websocket.py:118`), exactly if the
  loop would emit something for it: `WebSocketCuts.AgreeUpToEnd`, `WebSocketCuts.ChunkingMatters`, with
  the events of both cuts in `WebSocketCuts.AfterCloseDependsOnChunks`.
- The TLS-ticket loop tears records cut in their last five bytes (`pproxy/plugin.py:111`). It behaves
  like a loop that waits for whole records exactly on chunks without such cuts:
  `TicketRecords.CleanExactly`; for one record in two chunks `TicketRecords.CutRecord` says when it is
  delivered.
- With a length below four the CRC loop checks bytes that depend on how much is buffered
  (`pproxy/plugin.py:147`). Which input that affects is `PluginCuts.AllCutsAgree`, with
  `PluginCuts.CutsAgree` for accepted input; inputs that show it are the frame 00 01 96 dd 21 c9 with
  three bytes behind it (`PluginCuts.ShortLengthDependsOnChunks`) and with four
  (`PluginCuts.AcceptedInTwo`).
- A frame of length zero that passes that check is deleted without any effect (`pproxy/plugin.py:152`)
  and the call never returns: `Plugins.EndlessExactly`, with 00 00 00 ed 26 be and four more bytes in
  `Plugins.EndlessInput`. The framer never sends such a thing: `Plugins.FramesReturn`.
- A second adapter attached while bytes are stored does not decode them (`pproxy/cipher.py:411`):
  `AdapterObjects.DeliversExactly`.
- `close` discards what is buffered on an HTTP/2 stream exactly if the job is not waiting for credit
  then: `Http2.CloseDecides`, `Http2.CloseDiscards`. A stream ended by the peer while its job waits for
  credit keeps that job for ever: `Http2.PeerEndStrands`, `Http2.AbandonedStays`.
- A QUIC caller that nobody cancelled is cancelled with another one. Without `close` that needs a
  connection task it met after its cancellation was requested, and a caller that meets such a task
  unfinished never gets a connection: `Quic.OnlyLateCallersSuffer`, `Quic.EntersLate`,
  `Quic.LateCallersGetNothing`, `Quic.ForeignCancellation`. A connection task cancelled before its first
  step, and only that one, leaves its handshake pending, for good unless it is terminated:
  `Quic.StrandsExactly`, `Quic.HandshakeHasTask`, `Quic.StrandedForGood`, `Quic.CloseStrands`.
- A UDP association's loss is recorded by client, not by protocol, and a failed creation stays counted
  (`pproxy/server/connections.py:132`, `:141`): `UdpTable.LateLoss`, `UdpTable.ReopenedThenLost`,
  `UdpTable.TablesAgree`.
- Room for a UDP association is made when its creation starts and the entry is made when it ends
  (`pproxy/server/connections.py:107`, `:142`), so overlapping creations pass the limit and double
  entries: `UdpTable.OverLimit`, `UdpTable.BurstGetsIn`, `UdpTable.DoublesExactly`,
  `UdpTable.TwiceAtOnce`, `UdpTable.EvictionUndone`.
- The ChaCha20 generator carries its counter into the first nonce word: `ChaCha20.NthBlock`.
- Round robin without an eligible remote falls through to the configuration error:
  `Scheduler.TurnChooses`.

`dafny verify dfyconfig.toml` checks the project.

## Model

| member | source | states |
|---|---|---|
| `Incremental.AnyChunking` | pproxy/cipher.py:385-397 | for a lawful decoder, one call per chunk gives the state and output of one call on the joined chunks |
| `Incremental.PrefixOutput` | pproxy/cipher.py:385-397 | part of an accepted stream is accepted and yields a prefix of its output |
| `Incremental.Delivery` | pproxy/cipher.py:371-406 | a decoder that inverts an encoder write by write delivers a prefix of what was written from any prefix of the wire in any chunks, and all of it from the whole wire |
| `Incremental.EarlyReturnHarmless` | pproxy/cipher.py:388-391 | returning before the next decoder when the output is empty equals calling it |
| `Incremental.PipeLawful` | pproxy/cipher.py:385-397 | two lawful decoders in a row are lawful |
| `Incremental.PipeInverts` | pproxy/cipher.py:385-406 | inverting pairs compose, whatever number of raw writes the upper encoder makes |
| `Incremental.StackLawful` | pproxy/cipher.py:385-397 | the loop over `reader.decrypts` is chunk-invariant for any number of lawful decoders |
| `Incremental.StackInverts` | pproxy/cipher.py:399-419 | a stack of inverting layers of any height inverts |
| `Incremental.WritesBetween` | pproxy/cipher.py:399-419 | the raw writes of a stack are what each layer, from the last attached down to the wire, makes of the raw writes of the one above it |
| `Incremental.ReadsBetween` | pproxy/cipher.py:385-397 | its output is what each decoder, from the wire up, makes of the output of the one below it, although the loop stops at the first empty output |
| `Framing.FramedLawful` | pproxy/cipher.py:115-149 | every "buffer, then loop over complete frames" decoder is chunk-invariant if its decisions do not change when more bytes arrive and always progress |
| `Framing.DrainTurn` | pproxy/cipher.py:115-149 | a complete frame at the front of the buffer is consumed first, whatever follows it |
| `StreamAdapter.InwardLawful` | pproxy/cipher.py:371-383 | with a non-empty vector the inbound adapter is chunk-invariant, also when chunks cut the vector |
| `StreamAdapter.AdapterInverts` | pproxy/cipher.py:371-406 | inbound inverts outbound write by write when the cipher and plugin callbacks do |
| `StreamAdapter.WireLayout` | pproxy/cipher.py:399-406 | the raw writes of a fresh adapter, one by one: what `pencrypt2` makes of the vector and then of the cipher texts, in one session started with that vector, of what `pencrypt` makes of the writes that are not empty |
| `StreamAdapter.StackedTransparency` | pproxy/cipher.py:371-419 | any number of stacked adapters, any writes, any chunking of any prefix of the wire: delivered bytes are a prefix of the written ones, and all of them once the whole wire is there |
| `StreamAdapter.CoveredTransparency` | pproxy/cipher.py:371-419 | the same delivery when layers run decoders as written that are not chunk-invariant, as long as each agrees with an inverting one wherever that one succeeds |
| `StreamAdapter.PluginLayerInverts` | pproxy/cipher.py:371-406 | an inverting cipher with inverting plugin callbacks is a layer of that theorem |
| `StreamAdapter.PlainLayerInverts` | pproxy/cipher.py:371-406 | an inverting cipher without plugins is a layer of that theorem |
| `AdapterObjects.StreamCipherAdapter.Decrypt` | pproxy/cipher.py:371-383 | the method on the mutable session computes the specified step, including vector buffering |
| `AdapterObjects.StreamCipherAdapter.Write` | pproxy/cipher.py:399-406 | the method on the mutable session computes the specified raw writes and new state |
| `AdapterObjects.Reader.FeedData` | pproxy/cipher.py:385-397 | the loop with its early return stores exactly the stack's output; when a decoder raises it stores nothing, and closes the writer if and only if that is a `ProtocolError` |
| `AdapterObjects.Reader.Attach` | pproxy/cipher.py:408-417 | the first adapter also decodes what was stored, a later one is only appended |
| `AdapterObjects.Reader.Install` | pproxy/protocols/socks.py:120-123 | appends the decoder and replaces what was buffered by its decoded form |
| `AdapterObjects.Reader.TakeBuffer` | pproxy/transport/streams.py:89-100 | hands out all stored bytes and leaves none |
| `AdapterObjects.Reader.Prepend` | pproxy/transport/streams.py:65-86 | puts bytes in front of the stored ones |
| `AdapterObjects.InstallAnywhere` | pproxy/protocols/socks.py:120-123 | installing a lawful decoder in mid-stream gives the same total output wherever the stream was cut into already stored and still to come |
| `AdapterObjects.AttachLater` | pproxy/cipher.py:408-411 | what a reader with decoders hands out after one more was appended: the stored bytes as they are, then the decoded rest |
| `AdapterObjects.DeliversExactly` | pproxy/cipher.py:408-417 | with n bytes of its wire stored when a second adapter attaches, every text of the peer is delivered if and only if n is zero |
| `MixedLayers.LiftedLayerInverts` | pproxy/cipher.py:408-419 | a layer of any session and plugin types inverts inside a common type, so the stack theorem covers stacks of different ciphers and plugins |
| `MixedLayers.StackWritesAll` | pproxy/cipher.py:399-406 | when no layer's write can raise, no write through the stack does |
| `MixedLayers.SealedStackDelivers` | pproxy/cipher.py:371-419 | from fresh connections, through any number of stacked packet ciphers: no write raises, and what is written arrives in order under any chunking |
| `Aead.OpenerStable` | pproxy/cipher.py:115-149 | the packet loop never changes a decision when more bytes arrive, for any backend |
| `Aead.PacketsOpen` | pproxy/cipher.py:115-158 | the packets of one `encrypt` call open to its argument, leaving no rest and the sealer's next nonce |
| `Aead.AeadInverts` | pproxy/cipher.py:115-158 | `decrypt` inverts `encrypt` for any writes and any chunking, with equal nonces on both sides, over any seal/open pair |
| `Aead.DeliversOpened` | pproxy/cipher.py:115-149 | whatever input is accepted is two-byte lengths up to 16383 and bodies of that length, each opened under its operation number, with an incomplete one behind them, and what is delivered is the opened bodies |
| `Aead.OpenedDelivered` | pproxy/cipher.py:115-149 | and any such packets are accepted and delivered |
| `Aead.RetainedBound` | pproxy/cipher.py:115-149 | after a successful call on any input fewer than `PACKET_LIMIT + TAG_LENGTH` bytes are retained |
| `Aead.NonceIsCounter` | pproxy/cipher.py:109-114 | the nonce of operation k is k modulo 2 to the power of `NONCE_LENGTH`: the mask counts bits |
| `Aead.SealedNonce` | pproxy/cipher.py:150-158 | a call that seals n packets advances the nonce by 2n operations |
| `Aead.NonceReuse` | pproxy/cipher.py:109-114 | two operations share a counter value if and only if their numbers agree modulo that power, so every 4096 operations for 12-byte nonces |
| `Aead.NonceBytesOf` | pproxy/cipher.py:109-114 | the bytes handed to the backend for operation k are, read little-endian, k under the bit mask |
| `Aead.NonceBytesReuse` | pproxy/cipher.py:109-114 | two operations hand their backend the same bytes if and only if their numbers agree modulo that power |
| `Aead.PacketsLayout` | pproxy/cipher.py:150-158 | one call slices its argument every 16383 bytes and per slice seals the two-byte length under number k + 2i and the slice under k + 2i + 1, each with its tag behind it |
| `Aead.SessionSeals` | pproxy/cipher.py:103-158 | a session numbers its operations from zero, on through all its writes |
| `Aead.AEADCipher.TakeNonce` | pproxy/cipher.py:109-114 | returns the counter and advances it under the mask |
| `Aead.AEADCipher.OpenNext` | pproxy/cipher.py:120-142 | one pass of the loop: waits, fails, or consumes a length or a body |
| `Aead.AEADCipher.Decrypt` | pproxy/cipher.py:115-149 | the loop over the mutable buffer computes the specified drain; a rejected packet clears buffer and pending length |
| `Aead.AEADCipher.Encrypt` | pproxy/cipher.py:150-158 | the slicing loop emits the specified packets and leaves the specified nonce |
| `Ota.ReaderStable` | pproxy/protocols/socks.py:88-118 | the chunk loop never changes a decision when more bytes arrive |
| `Ota.OtaInverts` | pproxy/protocols/socks.py:88-141 | the reader closure inverts the writer closure under any chunking with chunk numbers in lock step; writes over 65535 bytes and chunk numbers over four bytes raise |
| `Ota.ChunkLayout` | pproxy/protocols/socks.py:129-139 | a chunk is the big-endian length, the first ten bytes of the HMAC keyed by the vector and the chunk number in four big-endian bytes, and the payload; other payloads and numbers raise |
| `Ota.DeliversAuthentic` | pproxy/protocols/socks.py:92-118 | whatever input the reader accepts is chunks of some payloads with right checksums and successive numbers and an incomplete one behind them, and those payloads are what it delivers |
| `Ota.ChunksDelivered` | pproxy/protocols/socks.py:92-118 | and the chunks of any payloads, empty ones too, are accepted and delivered |
| `Ota.OtaOverAdapter` | pproxy/protocols/socks.py:88-141 | the same on top of a cipher adapter, end to end |
| `Ota.SwitchOver` | pproxy/protocols/socks.py:120-123 | payloads come out whole however many authenticated bytes were already buffered when the decoder was installed |
| `Ota.OtaReader.Decrypt` | pproxy/protocols/socks.py:92-118 | the closure over mutable state computes the specified drain |
| `Ota.OtaWriter.Write` | pproxy/protocols/socks.py:129-141 | the closure over mutable state emits the specified chunk and counts it |
| `Plugins.GuardedStable` | pproxy/plugin.py:141-153 | with frames of a length below four refused once they are complete, the CRC loop never changes a decision when more bytes arrive |
| `Plugins.GuardAgreesRun` | pproxy/plugin.py:141-153 | on any chunks, where that guarded loop succeeds the loop as written has the same result |
| `Plugins.SimpleInverts` | pproxy/plugin.py:138-169 | the guarded deframer inverts the framer for any payloads and any paddings of 0 to 15 bytes |
| `Plugins.SimpleDelivery` | pproxy/plugin.py:138-169 | the deframer as written returns what was framed under any chunking of any prefix of the frames |
| `Plugins.SimpleFrames` | pproxy/plugin.py:154-167 | one call frames its argument in slices of 8100 bytes: big-endian length, padding and its length, payload, and little-endian what the CRC of all that lacks of `0xffffffff` |
| `Plugins.WholeFrame` | pproxy/plugin.py:143-152 | a whole frame of four bytes or more is refused if and only if its CRC is wrong, and else delivered without header, padding and CRC, whatever follows it |
| `Plugins.SimpleLayer` | pproxy/plugin.py:138-169 | CRC framing inside any inverting cipher meets the conditions of `CoveredTransparency`, with the loop as written |
| `Plugins.StuckExactly` | pproxy/plugin.py:143-152 | a turn of the CRC loop consumes nothing if and only if three bytes are buffered, the length is zero and the complement of the CRC-32 of all but the last four bytes is zero |
| `Plugins.NeverEnds` | pproxy/plugin.py:141-153 | `Endless` means just that: the call's loop has every number of turns |
| `Plugins.EndlessExactly` | pproxy/plugin.py:141-153 | a call never returns if and only if its turns lead to such a buffer |
| `Plugins.EndlessInput` | pproxy/plugin.py:143-152 | such input exists: 00 00 00 ed 26 be, whose CRC-32 is all ones, and any four bytes |
| `Plugins.CallIsDrain` | pproxy/plugin.py:141-153 | the calls that return are those the incremental decoder accepts, with its output and rest |
| `Plugins.OtherErrorExactly` | pproxy/plugin.py:143-152 | a call raises something else than a `ProtocolError` if and only if its turns lead to a buffer of just two bytes that hold a length of at most two |
| `Plugins.FramesReturn` | pproxy/plugin.py:138-169 | on any chunking of any prefix of what the framer sends every call returns |
| `Plugins.VerifySimple.Decrypt` | pproxy/plugin.py:141-153 | the loop over the mutable buffer comes to the specified outcome: output and rest, a `ProtocolError` or another error, or no end |
| `Plugins.VerifySimple.Encrypt` | pproxy/plugin.py:154-167 | the slicing loop emits the specified frames |
| `PluginCuts.CutsAgree` | pproxy/plugin.py:141-153 | for any input the loop as written accepts whole: all chunkings give that result if and only if the guarded loop accepts it, that is if no frame on the way is shorter than four bytes |
| `PluginCuts.AllCutsAgree` | pproxy/plugin.py:141-153 | for any input: all chunkings give one result if and only if the guarded loop accepts it or no cut is accepted, where `SomeCut` decides the latter cut by cut |
| `PluginCuts.LongFails` | pproxy/plugin.py:141-153 | input that the guarded loop refuses at a frame of proper length is refused in every cut, so only short lengths make a difference |
| `PluginCuts.ShortLengthDependsOnChunks` | pproxy/plugin.py:144-152 | such input exists: the frame 00 01 96 dd 21 c9, whose CRC-32 is all ones, is consumed when three bytes follow it in one chunk and refused when it is cut after its third byte |
| `PluginCuts.AcceptedInTwo` | pproxy/plugin.py:144-152 | that frame and four bytes, the first of which must not make the CRC-32 all ones again, are refused in one chunk and accepted with the last byte in a chunk of its own |
| `Plugins.InflaterStable` | pproxy/plugin.py:177-186 | the deflate loop is chunk-invariant on every input |
| `Plugins.DeflateDecrypts` | pproxy/plugin.py:177-198 | every packed length fits two bytes given the 32700 split and zlib's expansion bound, and the frames inflate to what was written |
| `Plugins.DeflateInverts` | pproxy/plugin.py:174-200 | the deflate deframer inverts the framer under any chunking |
| `Plugins.DeflateFrames` | pproxy/plugin.py:187-198 | one call deflates its argument in slices of 32700 bytes; of each packed slice the length goes in front and the two header bytes are dropped |
| `Plugins.WholeDeflated` | pproxy/plugin.py:179-185 | a whole frame is inflated behind the bytes 78 9c, or refused where that is no zlib stream |
| `Plugins.DeflateLayerInverts` | pproxy/plugin.py:174-200 | deflate framing inside any inverting cipher is a layer of the stack theorem |
| `Plugins.VerifyDeflate.Decrypt` | pproxy/plugin.py:177-186 | the loop over the mutable buffer computes the specified drain |
| `Plugins.VerifyDeflate.Encrypt` | pproxy/plugin.py:187-198 | the slicing loop emits the specified frames and never raises |
| `TicketRecords.DifferWhenCut` | pproxy/plugin.py:108-119 | the loop body differs from one waiting for whole records if and only if the buffer ends in the last five bytes of a record |
| `TicketRecords.CleanRun` | pproxy/plugin.py:106-120 | on chunks without such a cut the loop as written equals the one waiting for whole records, rejections included |
| `TicketRecords.CleanExactly` | pproxy/plugin.py:106-120 | for any bytes in any chunks: the two loops agree after every chunk, in output, rest and rejection, if and only if no chunk ends in such a cut |
| `TicketRecords.CleanDelivery` | pproxy/plugin.py:103-133 | any writes and record sizes are delivered in full on such runs |
| `TicketRecords.CutRecord` | pproxy/plugin.py:106-120 | one record in two chunks is delivered if and only if the cut is not in its last five bytes (or still in the header) |
| `TicketRecords.RecordsLayout` | pproxy/plugin.py:121-131 | one call writes its argument as application-data records in order: 100 to 4195 bytes as drawn, if there are as many, while more than 2048 are left, then the rest in one |
| `TicketRecords.WholeRecord` | pproxy/plugin.py:108-119 | a whole record of application data is delivered, of handshake or cipher change skipped, of any other kind refused |
| `TicketRecords.TicketFraming.Decrypt` | pproxy/plugin.py:106-120 | the loop over the mutable buffer computes the specified drain |
| `TicketRecords.TicketFraming.Encrypt` | pproxy/plugin.py:121-131 | the loop with random record sizes emits the specified records |
| `KeyStreams.AddStreamTwice` | pproxy/cipherpy.py:51-57 | adding the same stretch of key stream twice gives the text back |
| `KeyStreams.AddStreamSplit` | pproxy/cipherpy.py:51-57 | encrypting in two calls continues the key stream |
| `KeyStreams.AddStreamBit` | pproxy/cipherpy.py:51-57 | byte i of a call is, bit by bit, the exclusive or of byte i of the text and byte `pos + i` of the key stream |
| `KeyStreams.KeyCipherInverts` | pproxy/cipherpy.py:39-57 | any key-stream cipher inverts under any chunking |
| `KeyStreams.EmptyVector` | pproxy/cipher.py:371-406 | with an empty vector, re-initialised on every call, the adapter is transparent if and only if the key stream repeats one byte |
| `KeyStreams.CutBefore` | pproxy/cipher.py:371-406 | for any other key stream: a write and a two-chunk delivery that is decoded wrongly |
| `BlockStreams.CounterBlock` | pproxy/cipherpy.py:281-286 | counter block k is the vector plus k modulo the block size; the reset is the wrap-around |
| `BlockStreams.CountersDiffer` | pproxy/cipherpy.py:281-286 | no counter block is used twice within one cycle |
| `BlockStreams.CounterStream` | pproxy/cipherpy.py:281-286 | the first m blocks the generator yields are the encryptions of the successive counter blocks, in order |
| `BlockStreams.FeedbackStream` | pproxy/cipherpy.py:291-296 | the first m blocks the generator yields are O_1 to O_m of section 6.4 of NIST SP 800-38A: O_1 encrypts the vector, O_(j+1) encrypts O_j |
| `BlockStreams.BlockStream.Next` | pproxy/cipherpy.py:281-296 | the generator yields byte n of the block stream at its n-th call |
| `BlockStreams.BlockStream.Encrypt` | pproxy/cipherpy.py:51-57 | adds the block stream from where the last call stopped |
| `ChaCha20.RolRefines` | pproxy/cipherpy.py:87-89 | `ROL` of an unbounded integer is the 32-bit rotation of its low word |
| `ChaCha20.QuarterRefines` | pproxy/cipherpy.py:92-103 | a quarter round on unmasked integers stands for the word quarter round of section 2.1 of RFC 8439 |
| `ChaCha20.RoundsRefine` | pproxy/cipherpy.py:85-103 | after any number of double rounds the unmasked integers are congruent to the reference words |
| `ChaCha20.BlockRefines` | pproxy/cipherpy.py:113-117 | a block of the generator is the reference block of its input words |
| `ChaCha20.StartIsReference` | pproxy/cipherpy.py:113-114 | the packed constants, key, counter and left-padded vector are the reference input of section 2.3 of RFC 8439 |
| `ChaCha20.CounterAt` | pproxy/cipherpy.py:117 | after k blocks word 12 is the counter plus k modulo 2 to the 32nd and word 13 holds the carries, unmasked |
| `ChaCha20.NthBlock` | pproxy/cipherpy.py:113-117 | block k is the reference block of its input words; those are the reference input for counter c + k and the same nonce if and only if the carry vanishes modulo 2 to the 32nd, which it does until the counter overflows |
| `ChaCha20.WideCounter` | pproxy/cipherpy.py:113-117 | for 8-byte vectors the generator counts in 64 bits, as the original ChaCha does |
| `ChaCha20.KeyByteIsReference` | pproxy/cipherpy.py:113-117 | byte n of the stream is byte n of the reference blocks at successive counters; `StreamIsReference` reads them as words |
| `ChaCha20.StreamIsReference` | pproxy/cipherpy.py:85-117 | while the counter does not overflow, bytes 64k to 64k + 63 of the stream, as little-endian words, are the block function of ten double rounds (section 2.3 of RFC 8439) at counter c + k |
| `ChaCha20.ShortVector` | pproxy/cipherpy.py:114 | a vector of less than 12 bytes is a nonce with leading zero bytes, one of eight leaves its first word zero |
| `ChaCha20.Round` | pproxy/cipherpy.py:92-103 | the in-place rounds compute the specified turns and the reference double rounds of their words |
| `ChaCha20.KeyStream.Next` | pproxy/cipherpy.py:113-117 | the generator yields byte n of the key stream at its n-th call |
| `ChaCha20.KeyStream.Encrypt` | pproxy/cipherpy.py:51-57 | adds the key stream from where the last call stopped |
| `Cfb.RegisterIsLastBlock` | pproxy/cipherpy.py:244-251 | at each segment boundary the register is the last `IV_LENGTH` bytes of vector and ciphertext |
| `Cfb.ChainIsFeedback` | pproxy/cipherpy.py:224-251 | both directions satisfy the shift-register definition of section 6.3 of NIST SP 800-38A over the whole message, for any block function and segment size |
| `Cfb.CfbIs` | pproxy/cipherpy.py:224-251 | in byte mode, bit by bit: byte k of segment j meets byte k of the encryption of the last `IV_LENGTH` bytes of the vector and the ciphertext before the segment |
| `Cfb.ChainState` | pproxy/cipherpy.py:224-251 | the state after a message holds the end of vector and ciphertext and the ciphertext units of the unfinished segment |
| `Cfb.ChainInverts` | pproxy/cipherpy.py:224-243 | decrypting a ciphertext gives the plaintext and leaves both sides in the same state |
| `Cfb.ChainSplit` | pproxy/cipherpy.py:224-243 | processing in two calls equals processing at once |
| `Cfb.FeedbackInverts` | pproxy/cipherpy.py:210-251 | CFB is a layer of the stack theorem, however differently the two sides are chunked |
| `Cfb.CFBCipher.Send` | pproxy/cipherpy.py:244-251 | one resumption of the coroutine takes the previous unit's feedback and yields the next output unit |
| `Cfb.CFBCipher.Process` | pproxy/cipherpy.py:224-239 | the late-feedback loop computes what immediate feedback would |
| `CfbBits.BitsOfBytes` | pproxy/cipherpy.py:254 | the integer register of the vector is its bit string, most significant bit first |
| `CfbBits.ShiftOut` | pproxy/cipherpy.py:258 | shift and mask drop the oldest segment and leave room for the next |
| `CfbBits.InsertBit` | pproxy/cipherpy.py:259-260 | or-ing a feedback bit in at its place appends it to the register |
| `CfbBits.ByteChainInverts` | pproxy/cipherpy.py:224-239 | bit mode decrypts what it encrypted, bytes taken apart and put together most significant bit first |
| `CfbBits.ByteChainIsChain` | pproxy/cipherpy.py:224-239 | the mode byte by byte is the mode over the bits of the whole message, in output and state |
| `CfbBits.ByteChainIsFeedback` | pproxy/cipherpy.py:224-260 | both directions of bit mode satisfy the shift-register definition of section 6.3 of NIST SP 800-38A over the bits of the message |
| `CfbBits.BitModeIs` | pproxy/cipherpy.py:224-260 | in bit mode, without the integer register: bit k of segment j meets bit k of the encryption of the last bits of the vector and the ciphertext before the segment |
| `CfbBits.BitRegister` | pproxy/cipherpy.py:252-260 | after j whole segments and k bits the register is the end of vector and ciphertext as bits, with the last k ciphertext bits beside it |
| `CfbBits.BitFeedbackInverts` | pproxy/cipherpy.py:210-260 | bit mode is a layer of the stack theorem too |
| `CfbBits.BitCFBCipher.Send` | pproxy/cipherpy.py:252-260 | one resumption of the bit coroutine on the integer register is one step of the mode over bits |
| `CfbBits.BitCFBCipher.ProcessByte` | pproxy/cipherpy.py:228-234 | the loop over the eight bits computes the mode over bits |
| `CfbBits.BitCFBCipher.Process` | pproxy/cipherpy.py:224-239 | the loop over bytes computes the mode byte by byte, which is the mode over bits |
| `Gcm.Table` | pproxy/cipherpy.py:306-313 | the table built by repeated reduction holds the subkey halved 127 - i times at index i |
| `Gcm.MultH` | pproxy/cipherpy.py:316-321 | the sum over the table is the block product of section 6.3 of NIST SP 800-38D, for every operand |
| `Gcm.ProductIsSum` | pproxy/cipherpy.py:316-321 | Algorithm 1 of that section is the sum of halvings selected by the bits of the first operand |
| `Gcm.ProductLinear` | pproxy/cipherpy.py:316-321 | the product is linear over exclusive or in both operands |
| `Gcm.ProductComm` | pproxy/cipherpy.py:316-321 | the product is commutative |
| `Gcm.ProductAssoc` | pproxy/cipherpy.py:316-321 | the product is associative |
| `Gcm.ProductOne` | pproxy/cipherpy.py:316-321 | the block whose first bit is set is its unit |
| `GcmField.ProductIsModular` | pproxy/cipherpy.py:306-321 | for any width and constant: the block product is the product of the polynomials of the two blocks up to a multiple of the polynomial the constant stands for |
| `GcmField.ProductExactly` | pproxy/cipherpy.py:306-321 | and it is the only block with that property |
| `GcmCipher.BlockProductIs` | pproxy/cipherpy.py:306-321 | for GCM: the product of two blocks is that of their polynomials modulo 1 + x + x^2 + x^7 + x^128, with the first bit of a block as the constant term, and no other block is |
| `Gcm.HashIsPolynomial` | pproxy/cipherpy.py:322-327 | the hash loop evaluates the polynomial of the blocks at the subkey |
| `GcmCipher.GhashIsPolynomial` | pproxy/cipherpy.py:322-327 | GHASH of a ciphertext is that polynomial over its zero-padded blocks and the length block |
| `GcmCipher.CounterBlock` | pproxy/cipherpy.py:328-332 | the counter blocks are the 32-bit increments of the pre-counter block of section 7.1 |
| `GcmCipher.FollowsStandard` | pproxy/cipherpy.py:322-332 | within the standard's length limit the code's hash is GHASH and its key stream is GCTR |
| `GcmCipher.SealIs` | pproxy/cipherpy.py:314-336 | byte i of the text meets byte i % 16 of the encrypted counter block 2 + i / 16; the tag is the polynomial at the subkey over the ciphertext and its length, exclusive or the encryption of the nonce and counter 1 (section 7.1) |
| `GcmCipher.FieldIs` | pproxy/cipherpy.py:306-313 | the subkey is the encryption of the zero block, and the field has the width 128 and the constant R of section 6.3 |
| `GcmCipher.WordIs` | pproxy/cipherpy.py:322-327 | word i of what is hashed is its block i as a big-endian number |
| `GcmCipher.OperationNonce` | pproxy/cipher.py:109-114 | operation k of a session seals and opens under the twelve bytes whose little-endian number is k under the bit mask |
| `GcmCipher.UnsealsSealed` | pproxy/cipherpy.py:314-336 | opening with the emitted tag at the same nonce returns the plaintext |
| `GcmCipher.OpensExactly` | pproxy/cipherpy.py:314-336 | opening gives a text if and only if sealing that text emits just this ciphertext and tag |
| `GcmCipher.GcmSound` | pproxy/cipherpy.py:314-336 | the cipher is a backend for which the packet stream theorem holds |
| `GcmCipher.GCMCipher.Setup` | pproxy/cipherpy.py:306-313 | fills the table of the subkey |
| `GcmCipher.GCMCipher.HashBytes` | pproxy/cipherpy.py:322-327 | the loop over 16-byte slices computes the hash |
| `GcmCipher.GCMCipher.CryptBytes` | pproxy/cipherpy.py:332 | the nested loop over blocks and bytes adds the counter-mode stream |
| `GcmCipher.GCMCipher.Process` | pproxy/cipherpy.py:314-336 | seals without a tag; with one, opens exactly when the tag is right |
| `Poly1305.HornerIsSum` | pproxy/cipherpy.py:146-147 | reducing in every step equals the unreduced sum of blocks times powers of r, reduced once |
| `Poly1305.ClampClears` | pproxy/cipherpy.py:145 | the mask clears exactly the bits section 2.5 of RFC 8439 names |
| `Poly1305.TopBit` | pproxy/cipherpy.py:147 | the appended byte adds the bit above the block |
| `Poly1305.Mac` | pproxy/cipherpy.py:141-148 | the loop computes the tag of sections 2.5 and 2.8 for every ciphertext length; only lengths over eight bytes raise |
| `Poly1305.Process` | pproxy/cipherpy.py:159-167 | seals without a tag; with one, opens exactly when the tag is right |
| `Poly1305.UnsealsSealed` | pproxy/cipherpy.py:159-167 | opening what was sealed returns the plaintext for the emitted tag and refuses every other |
| `Poly1305.OpensExactly` | pproxy/cipherpy.py:156-167 | opening gives a text if and only if sealing that text emits just this ciphertext and tag |
| `Poly1305.SealIs` | pproxy/cipherpy.py:156-167 | byte i of the text meets byte i of the stream from counter 1 on, and the tag is that of the result |
| `Poly1305.TagIs` | pproxy/cipherpy.py:141-148 | the tag as a number: the sum of blocks times powers of r modulo 2^130 - 5, plus s, modulo 2^128, with r and s the halves of the key at counter 0, r clamped byte by byte |
| `Poly1305.MacDataIs` | pproxy/cipherpy.py:144 | what is hashed: the ciphertext, zeros up to a block, the length zero and the ciphertext length, eight little-endian bytes each (section 2.8) |
| `Poly1305.BlockIs` | pproxy/cipherpy.py:146-147 | block i of the sum is its sixteen bytes as a little-endian number plus 2^128 |
| `Poly1305.OneTimeKeyIs` | pproxy/cipherpy.py:143 | the one-time key is the first eight words of the ChaCha20 block at counter 0 (section 2.6) |
| `Poly1305.ChaChaIsReference` | pproxy/cipherpy.py:169-177 | the stream from counter c on is, 64 bytes at a time, the block function at counters c, c + 1 and so on, until the counter overflows |
| `Poly1305.OperationNonce` | pproxy/cipher.py:109-114 | operation k of a session seals and opens under the bytes whose little-endian number is k under the bit mask |
| `Poly1305.ChaChaBlocks` | pproxy/cipherpy.py:169-177 | the one-time key comes from the reference block at counter 0 and the text stream from counter 1 on |
| `Poly1305.PolySound` | pproxy/cipherpy.py:150-167 | the cipher is a backend for which the packet stream theorem holds |
| `WebSocket.XorMaskTwice` | pproxy/websocket.py:13-18 | masking twice with one key gives the data back |
| `WebSocket.XorMaskBits` | pproxy/websocket.py:13-18 | section 5.3: octet i of the result is, bit by bit, the exclusive or of octet i of the data and octet i modulo 4 of the key |
| `WebSocket.SessionStable` | pproxy/websocket.py:118-162 | the two-phase parser never changes a decision when more bytes arrive and always progresses |
| `WebSocket.LoopAgrees` | pproxy/websocket.py:118-162 | one call of the loop equals the session parser up to the first close frame or failure |
| `WebSocket.ChunkInvariance` | pproxy/websocket.py:118-162 | any two chunkings of any bytes give the same events up to and including the first close frame or failure |
| `WebSocketCuts.AgreeUpToEnd` | pproxy/websocket.py:118-162 | for any input and configuration: all chunkings give the same events if and only if the single call emits nothing after its first close frame or failure |
| `WebSocketCuts.ChunkingMatters` | pproxy/websocket.py:118-162 | the same on the input: if and only if there is no close frame with anything behind it, in the same buffer, that the loop would emit |
| `WebSocketCuts.FrameBehindClose` | pproxy/websocket.py:94-162 | for a close frame and one more frame, masked or not: if and only if the handler has nothing to emit for the second |
| `WebSocketCuts.AfterCloseDependsOnChunks` | pproxy/websocket.py:94-162 | in every configuration a message behind a close frame is delivered in one chunk and dropped in two |
| `WebSocketWire.FrameDrains` | pproxy/websocket.py:62-81 | an encoded frame at the front of the buffer reaches the handler unmasked, for all three length forms |
| `WebSocketWire.WriterInverts` | pproxy/websocket.py:62-81 | every written message comes out as one message with the same bytes |
| `WebSocketWire.FrameLayout` | pproxy/websocket.py:62-81 | section 5.2 field by field: final flag and opcode, mask flag and length in its three forms, key, and the payload masked as section 5.3 says |
| `WebSocketWire.ZerosShowKey` | pproxy/websocket.py:13-81 | a masked frame of zero octets carries its key, repeated, as its payload |
| `WebSocketWire.HeaderRefused` | pproxy/websocket.py:124-154 | a header is refused if and only if it has a reserved bit or the wrong mask flag, or, once it is complete, 63 bits of length or more, a fragmented or long control frame, or a length over the limit |
| `WebSocketWire.HeaderReads` | pproxy/websocket.py:124-154 | any other header, in minimal length form or not, is read as its final flag, opcode, length and key, once it is complete |
| `WebSocketWire.WriterRefuses` | pproxy/websocket.py:62-69 | the writer refuses exactly payloads over its limit or eight length octets and long or unknown control frames |
| `WebSocketWire.WriterLayout` | pproxy/websocket.py:62-81 | otherwise it makes one raw write, octet by octet: final flag and opcode, mask flag and length, the key drawn, and the payload, masked bit by bit |
| `WebSocketWire.WritesBinary` | pproxy/websocket.py:173-177 | a message goes out as one final binary frame, an empty one not at all |
| `WebSocketWire.RoundTrip` | pproxy/websocket.py:118-177 | any writes within the peer's limits, any masking keys, any chunking of any prefix of the wire: a prefix of the messages in order, and exactly them from the whole wire |
| `WebSocketMessages.FramesArrive` | pproxy/websocket.py:118-162 | encoded frames in any chunking reach the handler in order |
| `WebSocketMessages.Reassembly` | pproxy/websocket.py:83-116 | messages are the defragmentation of the data frames with control frames anywhere, each ping gets one pong with its payload in order, and the session survives if and only if the fragments are well formed and within the limit |
| `WebSocketMessages.ReassembledToTheEnd` | pproxy/websocket.py:83-116 | for any frames at all: messages and pongs are those of the longest good prefix, and the frame that ends it adds exactly its close reply, refusal or failure |
| `WebSocketMessages.EventsToTheEnd` | pproxy/websocket.py:83-116 | for any frames, the effects in order: one pong per ping and one message per final data frame, each in the place of its frame, up to the frame that ends it |
| `WebSocketMessages.FeedBounded` | pproxy/websocket.py:83-162 | pending length, message buffer and retained input stay within the limits on any input, and no message means an empty message buffer |
| `WebSocketMessages.RepliesFit` | pproxy/websocket.py:62-116 | pongs and close replies are never refused by the frame writer |
| `WebSocketObjects.XorMaskBytes` | pproxy/websocket.py:13-18 | the in-place loop computes the exclusive or with the repeated key, bit by bit |
| `WebSocketObjects.WebSocketStream.EmitMessage` | pproxy/websocket.py:83-92 | the method on the mutable fields computes the specified step and events |
| `WebSocketObjects.WebSocketStream.HandleFrame` | pproxy/websocket.py:94-116 | the method on the mutable fields computes the specified step and events |
| `WebSocketObjects.WebSocketStream.ReadHeader` | pproxy/websocket.py:124-154 | the header checks in the code's order, on the mutable fields |
| `WebSocketObjects.WebSocketStream.FeedData` | pproxy/websocket.py:118-162 | the loop over the mutable buffer computes the specified events and state |
| `WebSocketObjects.WebSocketStream.Write` | pproxy/websocket.py:62-81 | writes the specified frame and draws a key only when masked |
| `Http2.FlushGood` | pproxy/h2.py:209-228 | the send loop stops only without data or without credit, and keeps conservation and credit |
| `Http2.FullFrames` | pproxy/h2.py:209-228 | the frames of one flush are full but for the last, none is empty, and there are some if and only if there is data and credit |
| `Http2.ClosedResumes` | pproxy/h2.py:209-232 | a closed stream's job, woken for credit where there is none, sends one empty frame and parks again; one that was waiting for data ends at once |
| `Http2.ResumeDelivers` | pproxy/h2.py:209-232 | with credit for all of its data an open stream's job sends all of it when it runs |
| `Http2.NoLostWakeUp` | pproxy/h2.py:177-232 | on every run of any number of streams: parked on an unset `write_wait` means an empty buffer and an open stream, and, for streams still listed, parked on an unset `write_full` means no credit |
| `Http2.Conservation` | pproxy/h2.py:177-232 | on every run frames followed by the buffer are the data of the accepted `write` events of the stream, concatenated, and the credit it had is that of its begin and window events; the buffer keeps its limit, frames their size, and none is empty before `close` |
| `Http2.CreditRespected` | pproxy/h2.py:34-84 | on every run no stream has sent more than the credit its events gave it and the connection not more than its own, and a server lists at most 1024 streams |
| `Http2.EverythingSent` | pproxy/h2.py:177-232 | on every run, as long as neither its writer nor its peer has ended a stream, its job has sent every byte of the accepted writes once it runs with credit for what is buffered |
| `Http2.EndsExactly` | pproxy/h2.py:67-74 | on every run a stream is closed if and only if its writer's `close` or its peer's end came, and unlisted if and only if the latter did |
| `Http2.BeginsExactly` | pproxy/h2.py:45-53 | a stream begins, open, listed and with its initial window, if and only if it is a client's or fewer than 1024 are listed |
| `Http2.CloseDecides` | pproxy/h2.py:193-232 | given credit for everything, the job of a stream just closed ends, and it has sent all that was written if and only if it was waiting for credit or the buffer was empty |
| `Http2.CloseDiscards` | pproxy/h2.py:193-232 | on every run after it, whatever credit comes, a stream whose job was not waiting for credit at its `close` sends nothing more, so all that was written has been sent if and only if the buffer was empty then |
| `Http2.PeerEndStrands` | pproxy/h2.py:67-74 | the peer's end leaves a job that can never run if and only if the job is waiting for credit |
| `Http2.AbandonedStays` | pproxy/h2.py:67-83 | no later event wakes such a job |
| `Http2.H2Connection.BeginStream` | pproxy/h2.py:45-53 | lists a new stream, or refuses it at the server's limit |
| `Http2.H2Connection.WriteTo` | pproxy/h2.py:177-182 | accepts data up to `MAX_STREAM_BUFFER` and wakes the job, or raises unchanged |
| `Http2.H2Connection.CloseStream` | pproxy/h2.py:193-196 | marks the writer closed and sets one event only |
| `Http2.H2Connection.WindowUpdated` | pproxy/h2.py:77-83 | adds credit and wakes the stream, or every listed stream for stream 0 |
| `Http2.H2Connection.StreamEnded` | pproxy/h2.py:67-74 | removes the stream and closes its writer |
| `Http2.H2Connection.WriteJob` | pproxy/h2.py:209-232 | the job's nested loops from one suspension to the next compute the specified step |
| `Quic.OneOwner` | pproxy/quic.py:88-172 | in every interleaving at most one connection task is unfinished and `_quic_waiters` is the number of callers suspended on a handshake |
| `Quic.CancelsAlone` | pproxy/quic.py:160-172 | a cancelled caller cancels the connection task if and only if its handshake is the current, pending one and no other caller is suspended on any handshake |
| `Quic.OnlyLateCallersSuffer` | pproxy/quic.py:114-172 | without `close`, another caller's cancellation reaches a caller, by a joined handshake, an old result or a closing connection, only if it met a connection task whose cancellation had been requested |
| `Quic.EntersLate` | pproxy/quic.py:137-160 | and a call or retry that meets such a task, unfinished, is marked so in each of those ways |
| `Quic.LateCallersGetNothing` | pproxy/quic.py:137-172 | a caller so marked never returns with a connection, on any continuation |
| `Quic.StrandsExactly` | pproxy/quic.py:88-135 | a connection task ends with its handshake still pending if and only if it is cancelled before its first step |
| `Quic.ForgetsExactly` | pproxy/quic.py:88-135 | a connection task that ends forgets its handshake unless it is cancelled before its first step or while leaving |
| `Quic.TaskAdvances` | pproxy/quic.py:88-135 | every step of a connection task brings it nearer to its end, which is a cancelled one if and only if a cancellation was delivered |
| `Quic.HandshakeHasTask` | pproxy/quic.py:88-172 | on runs where that does not happen, a pending handshake somebody waits for always has an unfinished connection task to settle it |
| `Quic.StrandedForGood` | pproxy/quic.py:137-172 | once that has happened to the current handshake, no run without its termination gives anybody who calls later or waits for it anything but its own cancellation |
| `Quic.CloseStrands` | pproxy/quic.py:137-180 | it happens when `close` comes after the first call and before its connection task has run |
| `Quic.ForeignCancellation` | pproxy/quic.py:114-172 | two runs without `close` in which callers nobody cancelled get a `CancelledError`, in all three ways |
| `Quic.ReturnsExactly` | pproxy/quic.py:137-161 | a step gives a caller connection k if and only if it is woken on handshake k with a result, or calls or retries while k is current with a result and an open protocol |
| `Quic.RaisesExactly` | pproxy/quic.py:137-161 | it raises the error of a handshake if and only if it is woken on a failed one or finds it current |
| `Quic.CancelledExactly` | pproxy/quic.py:137-172 | it leaves with another's cancellation if and only if it meets a cancelled handshake or the closing task it waits for was cancelled, and with its own if and only if that reaches it while it is suspended |
| `Quic.SettlesExactly` | pproxy/quic.py:77-135 | a pending handshake gets its result, its error or its cancellation exactly from the corresponding events of its task or a termination, and a settled one stays |
| `Quic.ClosesExactly` | pproxy/quic.py:88-135 | a protocol is closed exactly by its own end, by the end its task waited for, or by a cancellation delivered inside it |
| `Quic.ProtocolHeld` | pproxy/quic.py:88-135 | on every run the owner holds a protocol if and only if its task is inside it |
| `Quic.CloseRequests` | pproxy/quic.py:174-180 | after `close` every connection task that is not done has a cancellation to deliver |
| `Quic.NobodyFails` | pproxy/quic.py:88-172 | on every run without cancellation, termination, `close` or a failing await, protocols dying or not, no caller raises or is cancelled |
| `Quic.CallersAreServed` | pproxy/quic.py:88-172 | on such runs a caller suspended on a handshake returns with its connection once at most three steps of the connection task, then its own, have run |
| `Quic.ProxyQUIC.Retry` | pproxy/quic.py:139-160 | the retry loop computes the specified suspension, exit or new connection |
| `Quic.ProxyQUIC.WaitForConnection` | pproxy/quic.py:137-160 | a new call keeps the ownership invariant |
| `Quic.ProxyQUIC.WakeCaller` | pproxy/quic.py:161-172 | a caller whose future is done leaves with its outcome, or retries after a closing task, as `ReturnsExactly`, `RaisesExactly` and `CancelledExactly` say |
| `Quic.ProxyQUIC.CancelCaller` | pproxy/quic.py:163-172 | the cancellation handler computes the specified step |
| `Quic.ProxyQUIC.ConnectionTerminated` | pproxy/quic.py:77-86 | fails the pending handshake and forgets it, if it is the current one |
| `Quic.ProxyQUIC.RunTask` | pproxy/quic.py:88-135 | the connection task from one suspension to the next, with a pending cancellation delivered first |
| `Quic.ProxyQUIC.CloseProxy` | pproxy/quic.py:174-180 | requests the cancellation of the connection task, which is registered, with or without an open protocol |
| `UdpChain.PacketOfSound` | pproxy/cipher.py:335-350 | a packet cipher over any inverting cipher opens what it sealed |
| `UdpChain.AddressOfNamed` | pproxy/protocols/address.py:28-33 | the address reader inverts the packed name and port, whatever follows |
| `UdpChain.AddressReads` | pproxy/protocols/address.py:28-33 | the IPv4, name and IPv6 forms are read as host, big-endian port and what follows |
| `UdpChain.AddressRaises` | pproxy/protocols/address.py:28-33 | reading raises if and only if a fixed form is short, or a name has no length or is no text |
| `UdpChain.UnpackPacked` | pproxy/protocols/socks.py:194-207 | `udp_unpack` undoes `udp_pack` for numeric and named hosts |
| `UdpChain.FirstIsKnown` | pproxy/protocols/socks.py:183-187 | among prefix-free users the first match is the sender's credential |
| `UdpChain.AcceptsForms` | pproxy/protocols/socks.py:179-192 | a datagram with any form of address is accepted for that sender, address and payload, by both protocols |
| `UdpChain.RefusedExactly` | pproxy/protocols/socks.py:179-192 | it is refused without an exception if and only if no user matches, the Socks5 prefix is wrong or the header is unknown |
| `UdpChain.ReceivesPrepared` | pproxy/server/handlers.py:184-187 | a hop accepts what was framed and encrypted for it, with that user, target and payload |
| `UdpChain.OnionPeels` | pproxy/server/connections.py:281-288 | for a chain of any length, peeling hop by hop gives each hop the next one's address, the last hop the target, and delivers the payload |
| `UdpChain.PreparedLayout` | pproxy/server/connections.py:281-288 | the packet for a hop: its vector, and under it the credential or three zero bytes, a 3, the counted name and the port of the next hop and the packet for that one |
| `UdpChain.TargetsAre` | pproxy/server/connections.py:277-288 | hop i is told the address of hop i + 1 and the last hop the target |
| `UdpChain.PackedReads` | pproxy/protocols/socks.py:201-207 | a packed reply reads back as the address it was packed for, in four bytes exactly where the socket library takes the host for an IPv4 address |
| `UdpChain.PreparesWhenEncodable` | pproxy/protocols/socks.py:15-17 | preparing succeeds if and only if every name fits 255 bytes and every port two |
| `UdpChain.ReplyUnpacks` | pproxy/server/connections.py:272-275 | replies wrapped on the way back are undone by the recursive unpacking |
| `UdpChain.Cursor.Read` | pproxy/protocols/address.py:28-33 | reading past the end is short, not an error |
| `UdpChain.Cursor.SocksAddress` | pproxy/protocols/address.py:28-33 | the sequenced reads compute the specified address and rest |
| `UdpChain.AcceptDatagram` | pproxy/protocols/socks.py:179-192 | the cursor-driven parser computes the specified acceptance, refusal or error, for both protocols |
| `UdpChain.UnpackDatagram` | pproxy/protocols/socks.py:194-199 | the cursor-driven parser computes the specified payload |
| `UdpTable.TablesAgree` | pproxy/server/connections.py:72-149 | on every run, with creations overlapping in any way, the two tables are equal as maps, and the count is theirs if and only if creations under way, failed and doubled ones are as many as associations that came back |
| `UdpTable.CountsFromEvents` | pproxy/server/connections.py:72-149 | on every run, from its events alone: the count is entries and creations under way plus failed and doubled creations less associations that came back, entries exceed 30 by at most the additions to a full table, and the touches are those of the events |
| `UdpTable.EntriesExactly` | pproxy/server/connections.py:72-149 | a step gives the client it concerns the protocol of the event and makes it the most recent, takes the entry of the evicted or lost client and leaves every other entry alone |
| `UdpTable.TransportsExactly` | pproxy/server/connections.py:86-135 | a transport opens once, and closes by its loss or its client's eviction while it is open; protocols come only from creations |
| `UdpTable.OpeningExactly` | pproxy/server/connections.py:137-149 | creations start for unlisted clients that send, in that order, and end once |
| `UdpTable.EvictsOldest` | pproxy/server/connections.py:86-93 | eviction removes exactly the least recently touched client |
| `UdpTable.OverLimit` | pproxy/server/connections.py:72-135 | a step takes the table over its limit if and only if it adds an entry to a full table |
| `UdpTable.WithinLimit` | pproxy/server/connections.py:72-149 | on every run the table exceeds `UDP_LIMIT` by at most the number of such steps |
| `UdpTable.BurstGetsIn` | pproxy/server/connections.py:137-149 | any number of clients whose first datagrams come before any endpoint exists all get an entry |
| `UdpTable.DoublesExactly` | pproxy/server/connections.py:103-107 | the end of a creation takes another protocol's entry, leaving its transport as it is, if and only if its client got that entry meanwhile |
| `UdpTable.TwiceAtOnce` | pproxy/server/connections.py:137-149 | two datagrams of one client before its endpoint exists: two protocols and a count of two for one association |
| `UdpTable.EvictionUndone` | pproxy/server/connections.py:86-115 | evicting an association whose transport is not open yet closes nothing and is undone when it opens |
| `UdpTable.PromptRuns` | pproxy/server/connections.py:72-149 | when creations succeed one at a time and no client reopens before its loss is delivered: at most `UDP_LIMIT` entries, the count is theirs and the creation under way, and they are exactly the protocols not closed |
| `UdpTable.LateLoss` | pproxy/server/connections.py:132-135 | a loss removes another protocol's association if and only if the client has reopened |
| `UdpTable.ReopenedThenLost` | pproxy/server/connections.py:86-149 | from any full table with one new client, one that comes back and one late loss: an open protocol without an association |
| `UdpTable.ProxyDirect.UdpTouch` | pproxy/server/connections.py:72-76 | both tables get the entry, and it becomes the most recent |
| `UdpTable.ProxyDirect.UdpDiscard` | pproxy/server/connections.py:78-84 | both tables lose the entry, and the count follows if there was one |
| `UdpTable.ProxyDirect.UdpEvictIfNeeded` | pproxy/server/connections.py:86-93 | at the limit the first entry goes, and its transport is closed if there is one |
| `UdpTable.ProxyDirect.UdpOpenConnection` | pproxy/server/connections.py:137-149 | up to its `await`: touches a known client, or counts, makes room and starts a creation |
| `UdpTable.ProxyDirect.Construct` | pproxy/server/connections.py:103-107 | the protocol of a creation enters both tables, whoever is there |
| `UdpTable.ProxyDirect.CreationFailed` | pproxy/server/connections.py:140-149 | a failed creation stays counted |
| `UdpTable.ProxyDirect.ConnectionMade` | pproxy/server/connections.py:109-115 | the open transport touches its client, listed or not |
| `UdpTable.ProxyDirect.DatagramReceived` | pproxy/server/connections.py:125-130 | a reply touches its client, listed or not |
| `UdpTable.ProxyDirect.ConnectionLost` | pproxy/server/connections.py:132-135 | a loss discards by client |
| `Scheduler.BoundedWait` | pproxy/server/common.py:66-70 | a remote at index k that stays eligible is chosen within k + 1 calls, whatever the others do |
| `Scheduler.WithinOneRound` | pproxy/server/common.py:66-70 | in n calls for n remotes one that is eligible throughout is chosen |
| `Scheduler.TurnsPermute` | pproxy/server/common.py:66-70 | the list stays a permutation of the configured remotes on every run |
| `Scheduler.FullRound` | pproxy/server/common.py:66-70 | with everybody eligible a round serves each remote once in list order and restores the list |
| `Scheduler.TurnChooses` | pproxy/server/common.py:66-80 | only eligible remotes are chosen, and the error comes exactly when there is none |
| `Scheduler.DrawsEvenly` | pproxy/server/common.py:71-73 | the random choice falls on every eligible remote for as many draws as the list has it, and on no other |
| `Scheduler.Group.NextInTurn` | pproxy/server/common.py:66-70 | the search loop with the rotation inside computes the specified turn |
| `Scheduler.Group.AnyEligible` | pproxy/server/common.py:71-73 | the drawn one of the eligible remotes in list order |
| `Scheduler.Group.LeastLoaded` | pproxy/server/common.py:74-79 | the first of the eligible remotes with the fewest connections |
| `Scheduler.Group.Schedule` | pproxy/server/common.py:59-80 | each algorithm's choice; only round robin changes the list |

## Left out

- Sockets, TLS, the event loop, timeouts, logging, the command line, URI and rule parsing, HTTP headers, authentication tables: input and output or library work. Coroutine code is modelled as steps between `await` points.
- AES, Blowfish, Camellia, SEED, IDEA, RC2, RC4 and Salsa20 internals, and the PyCryptodome backends: block functions, key streams and seal/open pairs are parameters with only the laws stated (fixed lengths, inverse pairs).
- HMAC, SHA-1, MD5, CRC-32 and zlib: parameters; zlib is an inverse pair with its default header and its bound on expansion.
- Key, vector and subkey derivation and the key caches: `start` and `subkey` are arbitrary functions of the vector.
- Random draws (vectors, masking keys, paddings, record sizes) are parameters; every value is covered.
- XChaCha20's key derivation: its rounds and blocks are those of `ChaCha20`.
- The handshakes of the plugins and the HTTP preamble of the SSR family: only their framings are modelled.
- The stream handshakes of SOCKS4, SOCKS5, Trojan and Shadowsocks and `socks_address_stream`: single-pass reads without state to keep.
- Shadowsocks host names are byte strings; `Net.text` says which of them decode, and the numeric address conversions of the socket library are parameters.
- A server with several protocols tries them in order; `UdpChain` gives each hop one.
- TicketRecords.CleanExactly: whether a run that tears records still happens to deliver everything depends on payload bytes that read as record headers, so the condition is about what the loop does after every chunk; CleanDelivery has the delivery half.
- AdapterObjects.StreamCipherAdapter.Decrypt: what `stream_buffer` keeps after the vector was taken is never read again and is not part of the state.
- AdapterObjects.Reader.FeedData: after a decoder raised, the states of the decoders are unspecified.
- `transport.rollback` on readers with their own method, and the stream reader's waiting side: only the stored bytes are modelled.
- HTTP/2: window changes through SETTINGS, a reset stream refusing further frames, stream identifiers (streams are numbered in order of creation), headers, and frames of the receiving direction. Windows therefore never become negative.
- Http2.H2Connection.WriteJob: one call runs to the next suspension; when the job runs is the order of events.
- QUIC: streams and the per-client stream map of `udp_open_connection`, and the HTTP/3 subclass. `Dies` stands for whatever closes a protocol.
- UdpTable: packets buffered before the transport opens, a reply that `udp_packet_unpack` refuses, and `close` of the whole strategy.
- Scheduler.Group.Schedule: the random draw is a parameter.
- Salsa20's rounds, the substitution-table cipher and the admin interface would add members of kinds already here.
