# Verified models of the stream codecs, the TCP NAT, the obfuscation layers, the UDP sessions and the buffer pool

The modules model, and prove properties of, five stateful parts of the library:

* **ShadowsocksR stream codecs** (`auth_chain_a/b`, `auth_aes128`, `auth_sha1_v4`) and the
  connection wrapper that feeds them: `StreamDecoder`, `StreamConn`, `Random`, `Protocol`,
  `AuthData`, `AuthChainPadding`, `AuthChainSpec`, `AuthChainProofs`, `AuthChain`,
  `PaddedFrames`, `AuthAes128`, `AuthSha1V4`, `EndToEnd`.
* **The TCP NAT of the system tun** and its header rewriting: `TcpNatSpec`, `TcpNat`,
  `Checksum`, `TcpRewriteSpec`, `TcpRewrite`.
* **TLS-shaped obfuscation** (`tls1.2_ticket_auth`, simple-obfs): `TlsRecords`, `ClientHello`,
  `TlsTicketSpec`, `TlsTicket`, `SimpleObfsSpec`, `SimpleObfs`.
* **The UDP session table of the tun**: `UdpTable`, `UdpSessions`.
* **The size-class allocator**: `Allocator`.

Each part pairs classes whose methods update their fields as the source does with a
specification of the same steps on values. The methods are proved to be those steps; the
results over whole streams, runs and interleavings are proved about the steps. Random choices
are arbitrary values in their stated ranges, hashes and ciphers are arbitrary functions with
fixed output lengths, and byte buffers are byte queues. A slice out of range is an error
`Panic`. `dafny verify dfyconfig.toml` checks everything.

## Design

*Incremental decoding.* A decoder's loop body is a step function on its state and its buffer.
`StreamDecoder` asks one thing of it: frames and errors must be decided by a prefix of the
buffer, and a step that asked for more must give, retried from the state it left, what it would
have given from the state it started in. From this alone segmentation independence follows for
all of them. For `auth_chain` the second half is the point: computing the padding length
overwrites the hash and reseeds the generator before the frame is complete.

*Senders.* `Sends` says which byte strings a codec may transmit for given data, over all
choices of padding. `Encode` is proved to transmit, the receiver to invert every transmission.

*Laws in bits and numbers.* Specifications that two ends share could be wrong together. Beside them
stand laws that do not use them: frames, headers and generator steps bit by bit, what a read
returns, what each failure means, and which step makes progress.

*Interleavings.* The NAT and the UDP table are step machines whose steps are the source's locked
sections and channel operations. The NAT's lookups come from one packet loop, so at most one is
between its two sections.

## What the proofs found

* `auth_chain`: the receive counter wraps. Frame 2^32 + 1 has counter 1 again and loses its first
  two bytes (`LosslessUntilWrap`). A first frame of fewer than two bytes makes its receiver panic;
  an empty one without padding does so only when the next byte arrives (`FrameRoundTrip`). A
  client that receives more than four bytes before it has sent its header panics (`Codec.Decode`).
* `auth_chain` `Encode` leaves the caller's slice encrypted.
* `auth_aes128` and `auth_sha1_v4`: an authentic frame panics exactly if its padding claims to
  reach past its data (`OversizedPaddingPanics`). The least length in range, 7, is too short for
  any frame and always panics (`ShortestFramePanics`). A failed check of the length does not set
  `rawTrans`, a length out of range or a failed check of the frame does. An empty first write to
  `auth_aes128` marks the header as sent without sending it, and no other first write does.
* TCP NAT: ports are reused without looking, and a flow entry orphaned that way is neither
  repaired nor swept (`WrapOrphansFirst`); a run ends with the maps inverse to each other exactly
  if it never took an occupied port (`ExactRunIff`). Outbound hits do not refresh a session, only
  inverse lookups do.
* TCP rewriting: sessions of both families share one port table, so a reply of one family can be
  given addresses of the other: IPv6 addresses are then cut to four bytes, and IPv4 addresses
  leave the other twelve bytes of their fields as they were (`Forwarded`).
* tls1.2_ticket_auth: a write of 65536 bytes or more before the handshake is over gets a wrapped
  length field (`PackCarriesIff`). Any empty write in status 1 ends the handshake.
* simple-obfs: a failure while reading a length field is reported as an empty read without error
  (`UnreportedIff`, `LostInHeader`). A failed read can be repeated without loss if it was
  continuing a record. If it had started one, it can exactly if it came five bytes before the end
  of the header (`FailureIff`): a timeout between records is harmless, but one before the first
  response is not, since the next read then takes that response for an ordinary record.
* UDP table: packets queued when an owner leaves without a writer, or when the writer fails, are
  never released (`ReleasableIff`). A writer returns only when a write fails (`WriterEndsIff`);
  after a close it discards for ever, on a channel that nobody closes (`DrainingForever`).

## Model

| member | source | states |
|---|---|---|
| `StreamDecoder.SegmentationIrrelevant` | clash/transport/ssr/protocol/stream.go:33-51 | For every decoder whose step is decided by a prefix of its buffer: feeding a stream in any pieces gives the output, error, leftover and final state of draining it whole |
| `StreamDecoder.DrainSplit` | clash/transport/ssr/protocol/stream.go:44-48 | Draining what has arrived and then the rest is draining it all, up to and including the first error |
| `StreamDecoder.DrainRests` | clash/transport/ssr/protocol/stream.go:44-48 | A decoder that has drained its buffer changes nothing when tried again without new bytes |
| `StreamDecoder.PrefixSafe` | clash/transport/ssr/protocol/stream.go:44-48 | While a stream that decodes without error is still arriving, no error is reported and the output so far is a prefix of the final one |
| `StreamConn.Conn.Read` | clash/transport/ssr/protocol/stream.go:33-51 | One read in all its cases; everything delivered so far followed by `decoded` is everything the decoder has produced |
| `StreamConn.ReadsDeliver` | clash/transport/ssr/protocol/stream.go:33-51 | Over any reads up to and including the first decode error, what was returned followed by what is held is what decoding the whole stream of chunks yields, data in front of the error included |
| `StreamConn.ReadsConserve` | clash/transport/ssr/protocol/stream.go:33-51 | Over any sequence of reads at all, through any errors, what was returned followed by what is held is all that the decoder has produced, call by call |
| `StreamConn.RawPassesOn` | clash/transport/ssr/protocol/stream.go:44-48 | A decoder that has gone raw passes on everything that follows, in order |
| `StreamConn.OnlyHeldData` | clash/transport/ssr/protocol/stream.go:34-36 | Reads that take nothing from the network only hand out held data, completely and in order |
| `StreamConn.WholeDelivery` | clash/transport/ssr/protocol/stream.go:33-51 | Of a stream that decodes without error the reads return a prefix of the decoded data, and all of it once every byte has come in |
| `StreamConn.ReadAmount` | clash/transport/ssr/protocol/stream.go:33-51 | A read that reports no error returns exactly as much of what it has as the buffer takes; one that reports an error returns nothing and holds all of it; and when it reports which |
| `StreamConn.HeldReturned` | clash/transport/ssr/protocol/stream.go:34-36 | Reads whose buffers take what is held return all of it |
| `StreamConn.WholeReturned` | clash/transport/ssr/protocol/stream.go:33-51 | Once a stream has come in, such reads bring what was returned to exactly the decoded stream |
| `Random.XorShift128Plus.Next` | clash/transport/ssr/tools/random.go:30-38 | The generator step and the number it returns, in 64-bit arithmetic |
| `Random.XorShift128Plus.InitFromBin` | clash/transport/ssr/tools/random.go:40-54 | Seeding from at least 16 bytes |
| `Random.XorShift128Plus.InitFromBinAndLength` | clash/transport/ssr/tools/random.go:56-73 | Overwrites the first two bytes of its argument with the length, seeds from the result, and steps four times |
| `Random.StampForgets` | clash/transport/ssr/tools/random.go:66-67 | The overwrite forgets what it overwrites, so doing it again changes nothing, and it leaves the other 14 bytes alone |
| `Random.AdvanceBits` | clash/transport/ssr/tools/random.go:30-38 | The generator bit by bit: shifts by 23, 17 and 26 and exclusive ors on 64-bit words, and the sum that is returned |
| `Random.WarmSteps` | clash/transport/ssr/tools/random.go:68-72 | Seeding reads two little-endian words and is followed by four steps |
| `Octets.FromLe64Value` | clash/transport/ssr/tools/random.go:68-69 | Eight bytes as a number, the least significant first |
| `Octets.Le32Value` | clash/transport/ssr/protocol/auth_chain_a.go:118 | Four bytes as a number, the least significant first |
| `Octets.XorStreamBits` | clash/transport/ssr/protocol/auth_chain_a.go:147 | Encryption changes every bit of every byte exactly where the key stream has a one |
| `Octets.XorUndo` | clash/transport/ssr/protocol/auth_chain_a.go:120 | Exclusive or undoes itself, for numbers of any width: length masks and encryption can be taken off again |
| `Octets.XorStreamUndo` | clash/transport/ssr/protocol/auth_chain_a.go:147 | Encrypting twice at the same key stream offset is the identity |
| `Octets.XorStreamConcat` | clash/transport/ssr/protocol/auth_chain_a.go:257 | Encrypting in two pieces, at consecutive offsets, is encrypting at once |
| `AuthChainPadding.RuleALawful` | clash/transport/ssr/protocol/auth_chain_a.go:297-312 | Variant a: data of at most 2800 bytes with its padding stays below 4096; the padding depends on neither the two overwritten hash bytes nor the generator it reseeds; computing it again from the hash and generator left behind gives the same |
| `AuthChainPadding.RuleBLawful` | clash/transport/ssr/protocol/auth_chain_b.go:84-113 | The same four facts for variant b, over all size lists |
| `AuthChainPadding.PaddingHitsSize` | clash/transport/ssr/protocol/auth_chain_b.go:89-99 | Padding taken from a size list brings data, overhead and padding to a member of that list |
| `AuthChainPadding.PadAValue` | clash/transport/ssr/protocol/auth_chain_a.go:297-312 | Variant a in numbers: nothing above 1440 bytes, else the remainder of the number drawn by 31, 127, 521 or 1021 |
| `AuthChainPadding.PadBValue` | clash/transport/ssr/protocol/auth_chain_b.go:84-113 | Variant b in numbers: an entry of the first list, else of the second, else nothing or such a remainder, and how far the generator moves |
| `AuthChainPadding.SlotValue` | clash/transport/ssr/protocol/auth_chain_b.go:89-96 | The index looked up is the first that fits, moved on by the remainder of the number drawn |
| `AuthChain.DrawnSizesAt` | clash/transport/ssr/protocol/auth_chain_b.go:73 | Each size is one number drawn, reduced by 2340, 2040 and 1440 |
| `AuthChainPadding.SearchIndex` | clash/transport/ssr/protocol/auth_chain_b.go:89 | The search result: everything before it is too small, the entry at it is not |
| `AuthChain.Search` | clash/transport/ssr/protocol/auth_chain_b.go:89 | Binary search in a sorted list finds that index |
| `AuthChain.SortInts` | clash/transport/ssr/protocol/auth_chain_b.go:75 | The drawn sizes in order: a sorted permutation of them |
| `AuthChain.DrawSizes` | clash/transport/ssr/protocol/auth_chain_b.go:72-74 | The sizes are those the generator draws, each below 1440 |
| `AuthChain.InitDataSize` | clash/transport/ssr/protocol/auth_chain_b.go:66-82 | Both size lists are sorted, non-empty and drawn in sequence from the generator seeded with the key |
| `AuthChain.FallbackLength` | clash/transport/ssr/protocol/auth_chain_a.go:302-311 | The padding drawn by data length when no list decides |
| `AuthChain.RandLengthA` | clash/transport/ssr/protocol/auth_chain_a.go:297-312 | Variant a in place: padding, overwritten hash and generator are those of the rule |
| `AuthChain.RandLengthB` | clash/transport/ssr/protocol/auth_chain_b.go:84-113 | Variant b in place: the same for its rule |
| `AuthChainProofs.RetryHarmless` | clash/transport/ssr/protocol/auth_chain_a.go:120-132 | On any bytes at all, a receive step that stops on an incomplete frame, having overwritten its hash and reseeded its generator, gives later exactly what a fresh one would; frames and errors stand whatever follows |
| `AuthChainProofs.ChunkedEqualsWhole` | clash/transport/ssr/protocol/auth_chain_a.go:109-157 | On any input, honest or not, any segmentation decodes as the whole stream does, up to and including the first error |
| `AuthChainProofs.FrameRoundTrip` | clash/transport/ssr/protocol/auth_chain_a.go:114-157 | A frame from a sender in step is taken whole, whatever follows it, and leaves hash, offset and counter in step; a first frame of fewer than two bytes makes the receiver panic, at once or, if it is empty and without padding, with the next byte |
| `AuthChainProofs.StreamRoundTrip` | clash/transport/ssr/protocol/auth_chain_a.go:109-157 | Whatever padding was drawn, the receiver outputs the payloads (the first two bytes of the first dropped), never an error, consumes the wire exactly and ends in step |
| `AuthChainProofs.SegmentedRoundTrip` | clash/transport/ssr/protocol/auth_chain_a.go:109-157 | The same for any segmentation, with no error on any part of the wire |
| `AuthChainProofs.FrameLayout` | clash/transport/ssr/protocol/auth_chain_a.go:256-288 | What a frame built by `packData` looks like to its receiver: masked length, data inside the padding, chained hash, checksum |
| `AuthChainProofs.SentOnWire` | clash/transport/ssr/protocol/auth_chain_a.go:256-288 | A sent frame bit by bit: length under the mask, each data bit exclusive-or key stream bit at its place, padding around it, and the hash under user key and counter that also starts the next frame |
| `AuthChainProofs.ReceivedOnWire` | clash/transport/ssr/protocol/auth_chain_a.go:114-155 | What any buffer is taken for, bit by bit: its length, the error from 4096 bytes on, patience, the error for a wrong hash, and the decrypted data with the next state |
| `AuthChain.Codec.DirectionsAre` | clash/transport/ssr/protocol/auth_chain_a.go:256-262 | Each direction runs on its own hash, generator, cipher and counter, with shared keys and padding rule |
| `AuthChainProofs.SendsConcat` | clash/transport/ssr/protocol/auth_chain_a.go:159-174 | One transmission after another transmits all the payloads in order |
| `AuthChainProofs.OnesClosedForm` | clash/transport/ssr/protocol/auth_chain_a.go:148 | How often the 32-bit counter is 1 over any number of frames from any start |
| `AuthChainProofs.LosslessUntilWrap` | clash/transport/ssr/protocol/auth_chain_a.go:148-153 | All data but the first two bytes is delivered if and only if at most 2^32 frames are sent: the counter then wraps to 1 and two more bytes are dropped |
| `AuthChain.Cipher.XorInPlace` | clash/transport/ssr/protocol/auth_chain_a.go:147 | Encrypts part of an array in place, every bit by the key stream, leaving the rest, and advances the key stream |
| `AuthChain.Codec.RandDataLength` | clash/transport/ssr/protocol/auth_chain_a.go:96 | Either variant's padding, computed in the codec's own arrays, follows the frame format's rule |
| `AuthChain.Codec.DecodeFrame` | clash/transport/ssr/protocol/auth_chain_a.go:114-155 | One turn of the loop is the specified receive step on hash, generator, key stream and buffers |
| `AuthChain.Codec.Decode` | clash/transport/ssr/protocol/auth_chain_a.go:109-157 | The whole loop drains the buffer as specified; length and checksum errors empty the buffer and set `rawTrans`; raw transfer passes bytes on; before the header is sent, more than four bytes panic and fewer wait |
| `AuthChain.DecodingImplements` | clash/transport/ssr/protocol/auth_chain_a.go:109-157 | Decoding chunk by chunk is an instance of the general decoder, so all its theorems hold of it |
| `AuthChain.Codec.PutMixed` | clash/transport/ssr/protocol/auth_chain_a.go:274-288 | Puts the data at the drawn position inside padding of the drawn length |
| `AuthChain.Codec.PackData` | clash/transport/ssr/protocol/auth_chain_a.go:256-272 | Appends exactly the frame the specification names, encrypting the data in place, and moves to its next state |
| `AuthChain.Codec.EncodePieces` | clash/transport/ssr/protocol/auth_chain_a.go:166-172 | Sends the pieces of the input in order; the array ends up encrypted in place |
| `AuthChain.Codec.PackAuthHead` | clash/transport/ssr/protocol/auth_chain_a.go:221-251 | The 36 header bytes: hash prefixes, masked user id, and the hashes and key streams that both directions start from |
| `AuthChain.Codec.EncodeFirst` | clash/transport/ssr/protocol/auth_chain_a.go:159-165 | The first write: the header, a frame with at least its first four bytes (or all of a shorter write), and the rest as further frames |
| `AuthChain.Codec.Encode` | clash/transport/ssr/protocol/auth_chain_a.go:159-174 | Every write appends a transmission of its pieces that continues the previous state; the first puts at least four bytes, or all there are, into its first frame |
| `AuthChain.PiecesWhole` | clash/transport/ssr/protocol/auth_chain_a.go:166-172 | The pieces of a write are its bytes in order, each of 1 to 2800 |
| `AuthChain.Codec.InitRc4Cipher` | clash/transport/ssr/protocol/auth_chain_a.go:314-318 | Both directions restart on the key stream of the new client hash |
| `EndToEnd.ChainWritesReachReads` | clash/transport/ssr/protocol/stream.go:33-66 | For any sendable pieces, padding, segmentation and buffer sizes, a peer's reads return what was sent, short only where the counter is 1 |
| `EndToEnd.ChainConnection` | clash/transport/ssr/protocol/stream.go:33-66 | Whole auth_chain connections from the first write on: up to 2^32 frames the reads return exactly what was written but for the first two bytes |
| `EndToEnd.ChainConnectionReturned` | clash/transport/ssr/protocol/stream.go:33-66 | Once all frames have come in, reads whose buffers take the rest have returned exactly that |
| `EndToEnd.SendableBeforeWrap` | clash/transport/ssr/protocol/auth_chain_a.go:148-153 | Pieces of 1 to 2800 bytes can be sent from any counter from which it does not come to 1 |
| `PaddedFrames.DecidedByPrefix` | clash/transport/ssr/protocol/auth_aes128_sha1.go:114-150 | On any bytes, an incomplete frame leaves the receiver as it was, and frames and errors stand whatever follows |
| `PaddedFrames.FrameOnWire` | clash/transport/ssr/protocol/auth_aes128_sha1.go:189-213 | A sent frame byte by byte: length and its check, padding with its size in one byte or three, data, and the check over all of it |
| `PaddedFrames.ReceivedOnWire` | clash/transport/ssr/protocol/auth_aes128_sha1.go:114-149 | What any buffer is taken for, byte by byte: each error, patience, or an authentic frame with its data and the next counter |
| `PaddedFrames.FrameRoundTrip` | clash/transport/ssr/protocol/auth_aes128_sha1.go:114-149 | Every frame has a length from 10 to 8191 and is received back as its data, with either form of the padding length |
| `PaddedFrames.StreamRoundTrip` | clash/transport/ssr/protocol/auth_aes128_sha1.go:109-152 | The receiver outputs the data of all frames without error, consumes the wire exactly, and its counter stays the number of frames modulo 2^32 |
| `PaddedFrames.SegmentedRoundTrip` | clash/transport/ssr/protocol/auth_aes128_sha1.go:109-152 | The same for any segmentation, with no error on any part of the wire |
| `PaddedFrames.SendsConcat` | clash/transport/ssr/protocol/auth_aes128_sha1.go:154-170 | One transmission after another transmits all the pieces |
| `PaddedFrames.OversizedPaddingPanics` | clash/transport/ssr/protocol/auth_aes128_sha1.go:124-148 | Any authentic frame of any length in range makes the receiver slice out of range if and only if its padding claims to reach past the data, and is taken whole otherwise; one of 7 bytes always does, one of 8 unless a zero is read out of its check |
| `PaddedFrames.ShortestFramePanics` | clash/transport/ssr/protocol/auth_aes128_sha1.go:125-148 | An authentic frame of 7 bytes always panics, whatever follows it |
| `PaddedFrames.OversizedContentPanics` | clash/transport/ssr/protocol/auth_aes128_sha1.go:142-148 | The same for frames built around any content of at least 3 bytes |
| `PaddedFrames.DecodingImplements` | clash/transport/ssr/protocol/auth_aes128_sha1.go:109-152 | Decoding chunk by chunk is an instance of the general decoder, so all its theorems hold of it |
| `AuthAes128.Aes128Bounded` | clash/transport/ssr/protocol/auth_aes128_sha1.go:225-244 | Every padding `auth_aes128` can draw leaves the frame below the limit, for data of 1 to 8100 bytes and writes of any size |
| `AuthAes128.Aes128Checks` | clash/transport/ssr/protocol/auth_aes128_sha1.go:115-143 | Both checks are the front of the digest under user key and counter, and the bound of the padding by its ranges |
| `AuthAes128.Codec.DecodeFrame` | clash/transport/ssr/protocol/auth_aes128_sha1.go:114-150 | One turn of the loop is the specified receive step, on counter, buffers and `rawTrans` |
| `AuthAes128.Codec.Decode` | clash/transport/ssr/protocol/auth_aes128_sha1.go:109-152 | The whole loop drains the buffer as specified; a length error and a failed frame check set `rawTrans`, a failed length check does not |
| `AuthAes128.Codec.RandDataLength` | clash/transport/ssr/protocol/auth_aes128_sha1.go:225-244 | The padding drawn is below the limit for its branch |
| `AuthAes128.Codec.PackData` | clash/transport/ssr/protocol/auth_aes128_sha1.go:189-214 | Appends exactly the specified frame and increments the counter |
| `AuthAes128.Codec.PackAuthData` | clash/transport/ssr/protocol/auth_aes128_sha1.go:246-278 | The header, byte for byte up to its random parts; empty data gives no header at all |
| `AuthAes128.Codec.HeaderOnWire` | clash/transport/ssr/protocol/auth_aes128_sha1.go:259-277 | Each field of the header, and the key and the range of each of its digests |
| `AuthAes128.Codec.HeaderCarries` | clash/transport/ssr/protocol/auth_aes128_sha1.go:259-277 | The header adds 35 bytes and its noise, and its data comes last but four |
| `AuthAes128.Codec.Encode` | clash/transport/ssr/protocol/auth_aes128_sha1.go:154-170 | A first write has a header if and only if it is not empty, with at least its first four bytes or all there are, and is marked as having one in any case; behind it every write appends a transmission of its pieces from counter to counter |
| `AuthSha1V4.Sha1V4Bounded` | clash/transport/ssr/protocol/auth_sha1_v4.go:190-198 | Every padding `auth_sha1_v4` can draw leaves the frame below the limit |
| `AuthSha1V4.Sha1V4Checks` | clash/transport/ssr/protocol/auth_sha1_v4.go:63-88 | The checks are the lower half of the CRC and the Adler sum, least significant byte first, and the bound of the padding |
| `AuthSha1V4.Codec.DecodeFrame` | clash/transport/ssr/protocol/auth_sha1_v4.go:62-92 | One turn of the loop is the specified receive step of the big-endian format |
| `AuthSha1V4.Codec.Decode` | clash/transport/ssr/protocol/auth_sha1_v4.go:57-94 | The whole loop drains the buffer as specified; a failed CRC alone leaves `rawTrans` unset |
| `AuthSha1V4.Codec.PackData` | clash/transport/ssr/protocol/auth_sha1_v4.go:123-142 | Appends exactly the specified frame |
| `AuthSha1V4.Codec.PackAuthData` | clash/transport/ssr/protocol/auth_sha1_v4.go:144-177 | The header, byte for byte up to its random padding and the time |
| `AuthSha1V4.Codec.HeaderOnWire` | clash/transport/ssr/protocol/auth_sha1_v4.go:154-176 | Each field of the header, and what its checksum and its digest cover |
| `AuthSha1V4.Codec.HeaderCarries` | clash/transport/ssr/protocol/auth_sha1_v4.go:154-176 | Its length field counts the whole header, and its data comes last but ten |
| `AuthSha1V4.Codec.Encode` | clash/transport/ssr/protocol/auth_sha1_v4.go:96-114 | The first write appends a header with at least its first four bytes or all there are; behind it every write appends a transmission of its pieces |
| `EndToEnd.PaddedConnection` | clash/transport/ssr/protocol/stream.go:33-66 | Whole connections of either format: a peer's reads return exactly what was written behind the header, for any segmentation and buffer sizes |
| `EndToEnd.PaddedConnectionReturned` | clash/transport/ssr/protocol/stream.go:33-66 | Once all frames have come in, reads whose buffers take the rest have returned exactly that |
| `Protocol.GetDataLength` | clash/transport/ssr/protocol/protocol.go:69-92 | How much of the first write travels in the header: the address and up to 31 bytes more, at least four bytes or all there are |
| `Protocol.HeadSizeOfAddress` | clash/transport/ssr/protocol/protocol.go:69-83 | The size is that of the address at the front, for IPv4, IPv6 and names, and the default otherwise |
| `AuthData.CountsUp` | clash/transport/ssr/protocol/base.go:51-63 | Between two draws of a client ID, connections share it and count up by one each, so no two are alike |
| `AuthData.RedrawIff` | clash/transport/ssr/protocol/base.go:55-59 | A client ID is drawn exactly at the first connection and after 0xff000001 |
| `AuthData.RedrawsFarApart` | clash/transport/ssr/protocol/base.go:55-59 | After a draw at least 0xfe000000 connections go by before the next, and the 32-bit counter never wraps |
| `AuthData.Issuer.Next` | clash/transport/ssr/protocol/base.go:51-63 | One identity from the issuer |
| `TcpNat.Table.CheckTimeout` | nat/tcpnat.go:72-86 | The sweep loop removes exactly the expired port entries and their flow entries, in any order of examination |
| `TcpNat.Table.LookupInverse` | nat/tcpnat.go:88-100 | Finds the session of a port and refreshes it at most once a second |
| `TcpNat.Table.ReservePort` | nat/tcpnat.go:113-122 | First locked step of a lookup: counter with its wrap to 10000, and flow entry |
| `TcpNat.Table.CommitSession` | nat/tcpnat.go:123-129 | Second locked step: the port entry, whatever was there |
| `TcpNat.Table.Lookup` | nat/tcpnat.go:102-131 | A hit changes nothing; a miss is both steps; the flow resolves to the returned port |
| `TcpNatSpec.AlwaysBacked` | nat/tcpnat.go:102-131 | Over all interleavings: every port entry is backed by the flow entry that names it, and the n-th allocation gets port 10000 + n mod 55536 |
| `TcpNatSpec.StepExactIff` | nat/tcpnat.go:123-129 | If the maps are inverses, a step keeps them so, except that a commit does if and only if the port was free |
| `TcpNatSpec.ReachableInverses` | nat/tcpnat.go:72-131 | If no reservation comes 55536 or more allocations after a live session, the maps are exact inverses in every reachable state, apart from the flow between its two steps |
| `TcpNatSpec.ExactRunIff` | nat/tcpnat.go:113-129 | At the end of any run the maps are exact inverses, apart from the flow between its two steps, if and only if no commit of the run took an occupied port |
| `TcpNatSpec.OrphanForever` | nat/tcpnat.go:78-84 | A flow entry whose port leads elsewhere is never repaired or removed on any continuation |
| `TcpNatSpec.WrapOrphansFirst` | nat/tcpnat.go:114-128 | A run that does this: 55537 new flows within one timeout, after which the first flow resolves for ever to a port it does not own |
| `TcpNatSpec.SweepTiming` | nat/tcpnat.go:80-95 | A session last used at u survives every sweep up to u + timeout - 1 s; the first after u + timeout removes both its entries |
| `TcpNatSpec.SweepIff` | nat/tcpnat.go:78-84 | A sweep keeps exactly the sessions idle for at most the timeout and drops exactly the flows of the others |
| `TcpNatSpec.RefreshIff` | nat/tcpnat.go:92-98 | An inverse lookup notes its time exactly if the last note is more than a second old |
| `TcpNatSpec.LeadsOn` | nat/tcpnat.go:88-100 | A port leads to the same flow as long as it is neither swept nor reused |
| `TcpRewriteSpec.TransparentIff` | nat/tcp.go:138-154 | Out and back again carries the original endpoints exchanged if and only if the port still leads to the flow |
| `TcpRewriteSpec.AcceptedIff` | nat/tcp.go:92-104 | A connection is accepted for a flow if and only if it comes from a rewritten address and its port leads to the flow |
| `TcpRewriteSpec.TransparentRun` | nat/tcp.go:85-115 | So it is on every run in which the port is neither swept nor reused, and the local stack's connection is accepted as one from the original source to the original destination |
| `TcpRewrite.TcpForwarder.Dispatch` | nat/tcp.go:79-120 | An accepted connection is known if and only if it comes from one of the two rewritten addresses and its port has a session, whose flow it gets |
| `TcpRewrite.AnswersReturn` | nat/tcp.go:134-196 | The same for whole packets: the rewritten answer to a rewritten packet carries the first packet's endpoints exchanged |
| `TcpRewrite.ConsultedReached` | nat/tcp.go:138-149 | What a packet does to the tables is steps of the machine: an inverse lookup, a hit, or reserve and commit |
| `TcpRewrite.NewFlowLeads` | nat/tcp.go:149 | A packet of a new flow leaves its session stored under its port |
| `TcpRewrite.NewFlowAnswered` | nat/tcp.go:138-154 | So its answer comes back translated and its connection is accepted, with no condition on the tables before |
| `TcpRewrite.KnownFlowKeeps` | nat/tcp.go:138-149 | A packet of a known flow changes nothing, and a reply only the activity of its session |
| `TcpRewrite.TcpForwarder.ProcessIPv4` | nat/tcp.go:134-165 | A packet written back has its endpoint fields filled with the translated endpoints (and carries them exactly if they are of its family), all else but the checksums kept, and header and segment verify; any other packet is unchanged; the tables step as specified |
| `TcpRewrite.TcpForwarder.ProcessIPv6` | nat/tcp.go:167-196 | The same for IPv6, which has no header checksum |
| `TcpRewrite.TcpForwarder.Readdress` | nat/tcp.go:138-154 | The endpoint fields set in place |
| `TcpRewrite.TcpForwarder.FillTcpChecksum` | nat/tcp.go:158-162 | Zeroing the field and summing payload, pseudo-header and header separately stores the complement of the sum of the whole |
| `TcpRewrite.TcpForwarder.FillHeaderChecksum` | nat/tcp.go:156-157 | The same for the IPv4 header |
| `TcpRewrite.TcpFilledVerifies` | nat/tcp.go:158-162 | The filled segment verifies against both pseudo-headers, with endpoints and layout kept |
| `TcpRewrite.HeaderFilledVerifies` | nat/tcp.go:156-157 | The filled IPv4 header verifies, with endpoints and layout kept |
| `TcpRewrite.ReaddressedFields` | nat/tcp.go:144-153 | Setting the fields gives the new endpoints exactly if the addresses have the size of the fields, and keeps everything else |
| `TcpRewriteSpec.SeparateSums` | nat/tcp.go:159-162 | Sums of parts combined equal the sum of the whole, for payloads of odd length too |
| `TcpRewriteSpec.FillVerifies` | nat/tcp.go:189-193 | Storing the complement of the sum in a zeroed field makes the whole sum to all ones |
| `TcpRewriteSpec.PseudoWords` | nat/tcp.go:160 | The pseudo-headers of RFC 9293 and RFC 8200 have the same sum |
| `TcpRewriteSpec.PseudoHeaderBytes` | nat/tcp.go:160 | The pseudo-headers byte by byte, with protocol number 6 |
| `TcpRewriteSpec.V4Assembled` | nat/tcp.go:135-136 | An IPv4 packet put together from its fields has them where they are looked for |
| `TcpRewriteSpec.V6Assembled` | nat/tcp.go:168-169 | So has an IPv6 packet |
| `Checksum.CombineFolds` | nat/tcp.go:159 | One end-around carry combines partial sums correctly, as section 2 of RFC 1071 has it |
| `Checksum.ComplementVerifies` | nat/tcp.go:157 | A sum and its complement come to all ones |
| `Checksum.WordsConcat` | nat/tcp.go:159-162 | Sums add up over a cut at an even offset |
| `Checksum.OddPads` | nat/tcp.go:161 | A last odd byte counts as if a zero followed it |
| `TlsTicketSpec.HandshakeRun` | clash/transport/ssr/obfs/tls1.2_ticket_auth.go:62-191 | Over every run of reads and writes: before status 8 no application data is sent, only (part of) this client's first flight; in status 8 none is held back, and what the 0x17 records carry is everything written, before and after the handshake, in order |
| `TlsTicketSpec.EventKeeps` | clash/transport/ssr/obfs/tls1.2_ticket_auth.go:62-191 | Every read and write keeps the invariant behind it, with failing transports and over-long data included |
| `TlsTicketSpec.StatusAdvances` | clash/transport/ssr/obfs/tls1.2_ticket_auth.go:131-185 | The status stays, or goes from 0 to 1 or from 1 to 8, and nothing sent is taken back |
| `TlsTicketSpec.HandshakeProgress` | clash/transport/ssr/obfs/tls1.2_ticket_auth.go:100-191 | The first call that acts sends the first flight; in status 1 an empty write or a right answer sends the second flight and everything held back and gives status 8; no other call does |
| `TlsTicketSpec.DoneIff` | clash/transport/ssr/obfs/tls1.2_ticket_auth.go:131-185 | Over every run the handshake is done if and only if after a first acting call there was an empty write or a right answer |
| `TlsTicketSpec.AcceptsIff` | clash/transport/ssr/obfs/tls1.2_ticket_auth.go:92-98 | An answer is right if and only if it is made of 11 bytes, 22 random bytes and their MAC, at least 23 bytes and the MAC of all |
| `TlsTicketSpec.FlightAuthenticates` | clash/transport/ssr/obfs/tls1.2_ticket_auth.go:199-203 | The first flight carries the MAC of its stamp and the client ID |
| `TlsTicketSpec.FinishAuthenticates` | clash/transport/ssr/obfs/tls1.2_ticket_auth.go:180-182 | The second flight ends in the MAC of everything before |
| `TlsTicketSpec.ReceiveCases` | clash/transport/ssr/obfs/tls1.2_ticket_auth.go:76-87 | A record is refused, awaited or taken by its first five bytes |
| `TlsTicketSpec.SplitSizes` | clash/transport/ssr/obfs/tls1.2_ticket_auth.go:109-119 | At most 2048 bytes go out as one record, and only the last record of any write is below 100 bytes |
| `TlsTicketSpec.WritesReturned` | clash/transport/ssr/obfs/tls1.2_ticket_auth.go:62-90 | Once all records have come in, reads whose buffers take the rest have returned exactly what was written |
| `TlsTicketSpec.WritesReachReads` | clash/transport/ssr/obfs/tls1.2_ticket_auth.go:74-90 | In status 8, records made by any random splitting of any writes, in any segmentation and with any buffer sizes, are returned as exactly what was written, without a bad magic |
| `TlsTicketSpec.RecordsRoundTrip` | clash/transport/ssr/obfs/tls1.2_ticket_auth.go:76-87 | The record receiver outputs what non-empty records carry and consumes them exactly |
| `TlsTicketSpec.SplitsWhole` | clash/transport/ssr/obfs/tls1.2_ticket_auth.go:109-119 | However a write is split, the pieces are its bytes in order, each of 1 to 4195 |
| `TlsTicketSpec.FlightRoundTripIff` | clash/transport/ssr/obfs/tls1.2_ticket_auth.go:137-169 | The first flight is well nested and gives back host name and ticket if and only if it fits its record |
| `TlsTicketSpec.FinishRecords` | clash/transport/ssr/obfs/tls1.2_ticket_auth.go:180-183 | The second flight is whole records, none of them application data |
| `TlsTicketSpec.DecidedByPrefix` | clash/transport/ssr/obfs/tls1.2_ticket_auth.go:76-87 | Records and errors stand whatever follows |
| `TlsRecords.PackCarriesIff` | clash/transport/ssr/obfs/tls1.2_ticket_auth.go:193-197 | Data packed into one record is carried by it if and only if it is shorter than 65536 bytes |
| `TlsRecords.RecordOnWire` | clash/transport/ssr/obfs/tls1.2_ticket_auth.go:193-197 | A record byte by byte: kind, version, length, body |
| `TlsRecords.RecordsConcat` | clash/transport/ssr/obfs/tls1.2_ticket_auth.go:180-185 | Records can be read one wire after another |
| `TlsRecords.CarriesAll` | clash/transport/ssr/obfs/tls1.2_ticket_auth.go:109-119 | Packed pieces carry exactly their concatenation |
| `TlsTicket.TicketConn.Write` | clash/transport/ssr/obfs/tls1.2_ticket_auth.go:104-191 | A write in each status, with the bytes it sends and the state it leaves |
| `TlsTicket.TicketConn.Read` | clash/transport/ssr/obfs/tls1.2_ticket_auth.go:62-102 | A read in each status: held data, records, or a checked handshake answer that triggers the second flight |
| `TlsTicket.TicketConn.PackRecords` | clash/transport/ssr/obfs/tls1.2_ticket_auth.go:109-119 | The splitting loop |
| `TlsTicket.TicketConn.DecodeRecords` | clash/transport/ssr/obfs/tls1.2_ticket_auth.go:76-87 | The receive loop drains the buffer as specified; a bad magic empties it |
| `TlsTicket.TicketConn.MakeFlight` | clash/transport/ssr/obfs/tls1.2_ticket_auth.go:134-169 | The bytes of the first flight, written piece by piece, are the encoded ClientHello |
| `TlsTicket.TicketConn.MakeFinish` | clash/transport/ssr/obfs/tls1.2_ticket_auth.go:177-183 | The second flight followed by everything held back |
| `TlsTicket.TicketConn.PackAuthData` | clash/transport/ssr/obfs/tls1.2_ticket_auth.go:199-203 | The random field ends in the MAC of its first 22 bytes |
| `TlsTicket.PackData` | clash/transport/ssr/obfs/tls1.2_ticket_auth.go:193-197 | One record, its length kept to 16 bits |
| `ClientHello.MessageRoundTripIff` | clash/transport/simple-obfs/tls.go:137-212 | A ClientHello parses, consumed exactly and giving back every part, if and only if the whole of it fits the record's length field |
| `ClientHello.MessageOnWire` | clash/transport/simple-obfs/tls.go:145-177 | A message byte by byte: both headers and every field of the body at its place |
| `ClientHello.ExtensionsRoundTrip` | clash/transport/simple-obfs/tls.go:179-209 | Encoded extension lists parse back |
| `ClientHello.HostNameRoundTrip` | clash/transport/simple-obfs/tls.go:185-190 | The server name extension gives back its one name |
| `SimpleObfsSpec.HelloRoundTripIff` | clash/transport/simple-obfs/tls.go:137-212 | The hand-computed lengths 212, 208 and 79 are right, and the parser recovers data and server name, if and only if 212 and both lengths stay below 65536 |
| `SimpleObfsSpec.HelloOnWire` | clash/transport/simple-obfs/tls.go:179-190 | Where the data and the server name lie in the message, counted from its start |
| `SimpleObfs.MakeClientHelloMsg` | clash/transport/simple-obfs/tls.go:137-212 | The bytes written one after another are that ClientHello |
| `SimpleObfs.TLSObfs.Read` | clash/transport/simple-obfs/tls.go:70-92 | A read is the specified step for some number of bytes consumed; everything returned so far followed by what is still ahead is all data of the stream, until a read fails that is not of the harmless kinds |
| `SimpleObfs.TLSObfs.ReadRecord` | clash/transport/simple-obfs/tls.go:43-68 | Starting on a record, by the number of bytes consumed: what is returned, what is reported, where the next read starts |
| `SimpleObfsSpec.HarmlessConserves` | clash/transport/simple-obfs/tls.go:43-92 | What a read returns and what is ahead after it is what was ahead, for every read that does not fail, or fails in a continued record, at the end of the stream, or five bytes before the end of a header |
| `SimpleObfsSpec.RunConserves` | clash/transport/simple-obfs/tls.go:43-92 | The same over every run of such reads, with any buffers and any portions |
| `SimpleObfsSpec.ReadsComplete` | clash/transport/simple-obfs/tls.go:43-92 | Such reads that have consumed the whole stream have returned all its data |
| `SimpleObfsSpec.ReadProgress` | clash/transport/simple-obfs/tls.go:57-80 | A read that does not fail returns something, and how much, unless the buffer or the record is empty |
| `SimpleObfsSpec.FailureIff` | clash/transport/simple-obfs/tls.go:43-68 | A failure in a record that the read has started loses nothing on any stream if and only if it comes five bytes before the end of the header: before any byte between records, after 102 bytes of the first response |
| `SimpleObfsSpec.UnreportedIff` | clash/transport/simple-obfs/tls.go:51-55 | A failure goes unreported if and only if it comes in a length field, and then nothing is returned |
| `SimpleObfsSpec.BodyFailureLoses` | clash/transport/simple-obfs/tls.go:57-67 | A failure anywhere inside a body loses data on some stream |
| `SimpleObfs.Peer.ReadFull` | clash/transport/simple-obfs/tls.go:45-52 | Reading in full from a connection that gives any portions: short only on failure |
| `SimpleObfs.TLSObfs.Write` | clash/transport/simple-obfs/tls.go:94-108 | The chunks go out in order, all of them or up to the failing one, whose length is then returned |
| `SimpleObfs.TLSObfs.WriteChunk` | clash/transport/simple-obfs/tls.go:110-125 | The first chunk inside the ClientHello, every other as a record |
| `SimpleObfsSpec.UndeliveredBodies` | clash/transport/simple-obfs/tls.go:43-92 | What is ahead in a stream of whole records is exactly the concatenation of their bodies |
| `SimpleObfsSpec.TakePart` | clash/transport/simple-obfs/tls.go:71-80 | Taking part of a record leaves exactly the rest ahead |
| `SimpleObfsSpec.WritesRoundTrip` | clash/transport/simple-obfs/tls.go:94-125 | All writes round trip: the ticket of the ClientHello followed by the de-framed rest is everything written |
| `SimpleObfsSpec.LostInHeader` | clash/transport/simple-obfs/tls.go:51-55 | A read step whose failure is not reported and after which the data that was ahead is not |
| `SimpleObfsSpec.LossCanHide` | clash/transport/simple-obfs/tls.go:43-68 | A stream on which a read out of place delivers the same bytes by coincidence, so even a harmful failure need not lose data on every stream |
| `UdpTable.TableSafe` | tun.go:368-408 | Over all interleavings: a queue in the table was never closed and has exactly one live owner, no queue is closed twice, and a live owner's entry is its own queue |
| `UdpTable.StepOwned` | tun.go:425-432 | Every step keeps the ownership invariant |
| `UdpTable.StepConserves` | tun.go:545-564 | No step makes, loses or doubles a buffer; only its arrival brings it in |
| `UdpTable.ReleasedOnce` | tun.go:400-407 | A buffer that arrives once is released at most once, and then is nowhere else |
| `UdpTable.WrittenInOrder` | tun.go:545-564 | Each queue writes a prefix of what it accepted, in order, then discards |
| `UdpTable.RoutedBySource` | tun.go:371-406 | Over every interleaving a queue has to do only with buffers that arrived under its own source: no packet is written on the connection of another |
| `UdpTable.ArrivalRouted` | tun.go:371-381 | An arrival goes to the queue its source has in the table then, new or known |
| `UdpTable.RunFits` | tun.go:375 | No queue ever holds more than 16 packets |
| `UdpTable.DesertedForever` | tun.go:501-509 | Once the writer failed, or the owner left without one, the waiting buffers are never released |
| `UdpTable.ReleasableIff` | tun.go:545-564 | A waiting buffer can still be released if and only if that has not happened |
| `UdpTable.WriterEndsIff` | tun.go:545-564 | Over every run a writer returns if and only if one of its writes fails |
| `UdpTable.DrainingForever` | tun.go:548-552 | A writer that has seen the close discards on every continuation and never returns |
| `UdpSessions.Tunnel.FindQueue` | tun.go:371-381 | Finds the queue of a source or makes it together with its owner |
| `UdpSessions.Tunnel.Hand` | tun.go:383-407 | Blocked packets are released; others enter the queue or, if it is closed, are released; on an open full queue the call waits |
| `UdpSessions.Tunnel.EndSession` | tun.go:586-589 | Deletes the own entry and no other, then closes the queue |
| `UdpSessions.Tunnel.WriterTurn` | tun.go:546-562 | One turn of the writer: sees the close, or writes and releases one packet |
| `UdpSessions.Tunnel.DrainPackets` | tun.go:548-552 | After the close everything in the channel is released unwritten |
| `Allocator.BufferAllocator.Get` | clash/common/pool/alloc.go:50-66 | The smallest power-of-two capacity that holds the size, less than twice it, never sliced out of range; never memory still outstanding while callers return only what they hold |
| `Allocator.BufferAllocator.Put` | clash/common/pool/alloc.go:70-84 | A buffer goes to the class of its capacity; class i holds only capacity 2^i whatever callers put |
| `Allocator.ClassFits` | clash/common/pool/alloc.go:59-64 | The class of a size is the least power of two that holds it, and wastes less than half |
| `Allocator.ClassOfPower` | clash/common/pool/alloc.go:75-76 | A capacity goes back into the class it came from |
| `Allocator.PooledMsb` | clash/common/pool/alloc.go:87-89 | The most significant bit brackets the size, in the integer widths of the source |
| `Allocator.TakingKeeps` | clash/common/pool/alloc.go:61 | Handing out a pooled buffer keeps all memory in one place |
| `Allocator.ReturningKeeps` | clash/common/pool/alloc.go:82 | So does taking back one that was outstanding |

## Left out

- The real MD5, SHA1, HMAC, AES-CBC, RC4, CRC32 and Adler32: arbitrary functions of their inputs with fixed output lengths; the encrypted block of the headers is 16 arbitrary bytes.
- Packet (UDP) forms of the protocols: the two directions use different formats and are not inverses.
- The server that reads the authentication headers is not part of this model; the headers are modelled as the state they leave and the data they carry.
- Random.XorShift128Plus.InitFromBin: inputs of fewer than 16 bytes, which the source pads in a shadowed variable and then slices out of range.
- AuthAes128.Codec.RandDataLength: `trapezoidRandom` is any number below its maximum; its square root branch is never taken by its callers, and floating point rounding is not modelled.
- TcpRewrite.TcpForwarder.ProcessIPv4: assumes a packet whose header lengths lie inside it; the header library's behaviour on malformed packets is not part of this model.
- TcpRewrite.TcpForwarder.ProcessIPv6: the same; a TCP header directly behind the fixed IPv6 header.
- TcpNat.Table.LookupInverse: the source refreshes a session after releasing the map's lock, through a pointer; here lookup and refresh are one step and sessions are values.
- TcpNatSpec.SweepTiming: monotonic clock readings are integers in nanoseconds that do not decrease from step to step.
- TlsTicket.TicketConn.MakeFlight: the list of host names is given; splitting the parameter at commas and dropping numeric hosts is not modelled.
- SimpleObfs.Peer.Read: a successful read into a non-empty buffer returns at least one byte.
- TcpRewrite.TcpForwarder.Dispatch: the remote address is given in its family's own form; taking IPv4 addresses out of mapped IPv6 ones is the network library's.
- The wrapper's `Conn.Write` only encodes into a scratch buffer and sends it in one call; what it sends is what the `Encode` methods state, and a transport failure ends the stream.
- UdpTable: what happens outside the table, the queues and the releases is arbitrary: dialling, user ID lookups, statistics, reading replies.
- UdpSessions.Tunnel.EndSession: in the method the delete and the close follow each other directly; that other steps may come in between is covered by the step machine.
- Allocator: a pool may lose what it holds at any garbage collection; here it may instead prefer new memory to what it holds, which callers cannot tell apart.
- Pooled scratch buffers of the codecs are fresh values in the model; the allocator is modelled on its own.
- `dispatcherConn` in v2ray.go and the `lockTable` of tun.go: no safety claim is supported by their interleavings.
- UDP reply building in nat/udp.go and the gvisor stack: library header setters and foreign network code.
- HTTP obfuscation, random_head, plain, configuration, DNS, dialers, certificate probing and the rest: I/O or thin wrappers.
