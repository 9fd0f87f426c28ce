# A model of Bray-Core's protocol and data-structure cores

This project models, in Dafny 4.11, the parts of Bray-Core in which a fast, chunked,
incremental or concurrent form has to agree with a simple one, and proves that it does, or
exactly when it does.

* **Buffers** (`Buffers`, `BufferedReaders`): the start/end arithmetic of a pooled buffer, the
  in-place split, merge and compact operations on lists of buffers, and the buffered reader.
  Everything else speaks of the bytes these lists hold.
* **Vision** (`VisionUnpadding`, `VisionStream`, `VisionRecords`, `VisionPadding`,
  `VisionTraffic`, `VisionHello`, `VisionWriter`, `VisionConnection`, `VisionEnding`,
  `VisionRuns`, `VisionSwitch`, `VisionReader`, `VisionLink`): the padding protocol from `WriteMultiBuffer` through compaction, traffic
  recognition, reshaping and padding to the wire, and from any re-splitting of the wire back
  through `XtlsUnpadding` and the reader's phases.
* **Authenticated and plain chunk streams** (`Nonces`, `AuthStream`, `ChunkStreams`): nonce,
  size and padding generators in lockstep, hard and soft reads, the cached size. An AEAD is any
  pair of functions that are inverse under equal nonces.
* **Mux** (`MuxFrames`, `MuxEvents`, `MuxServer`, `MuxSessions`, `MuxLink`): frame printer and parser, session
  numbering and writers, any number of sessions interleaved on one link, and the demultiplexing
  server.
* **XUDP** (`MuxXudp`, `MuxXudpLinks`): the life cycle of an entry as a state machine whose steps are the lock
  regions of `xudpEstablish`, `Session.Close` and the expiry ticker.
* **DNS** (`DnsCache`, `DnsController`, `DnsLookup`, `DnsQuery`): the two-map cache and its
  background migration, cleanup against serve-stale, parallel and serial queries.
* **IP matchers** (`IpSets`, `IpMatcher`, `IpMultiMatcher`, `IpMultiFilter`, `IpMulti`): /24 and
  /64 bucketing against address-by-address membership.
* **Replay filter** (`Replay`).

Code that changes things in place is a class or a method with loops, proved against a function
of the old state; the laws are lemmas about those functions. Inputs the program cannot control
(random draws, clock readings, replies and their order, how a stream is cut, which outputs
fail) are parameters over which the statements quantify.

## What the code does that its documentation does not say

Each of these is a theorem, for a concrete input or for all; where it limits a law, the law is
stated with the exact condition under which it holds.

* Unpadded output goes into one pooled buffer: a buffer that holds more than 8192 bytes of data
  loses the rest (`VisionStream.OneBufferIsCut`, `VisionStream.OversizeBufferLoses`, exact
  condition in `VisionStream.VisionRoundTrip`).
* A read that ends inside the terminal block's header can switch the Vision reader early
  (`VisionReader.EarlySwitch`); `VisionReader.ReaderRoundTrip` says for which headers and with
  which packet budget that does harm.
* A TLS record header cut between buffers is completed with bytes of the header before it or
  panics (`VisionRecords.StraddledHeaderIsMisread`, `VisionRecords.StraddledHeaderPanics`).
  `VisionRecords.ScanExact` gives the scan's answer for every list of buffers; that no header is
  cut is enough for the right answer (`VisionRecords.CompleteRecordScan`) but not necessary
  (`VisionRecords.StaleByteFits`).
* `ClearCache` does not stop a running migration: its batches bring cleared answers back
  (`DnsCache.ClearDoesNotStopMigration`), and its end drops the old map of a migration started
  since, with all that is in it (`DnsCache.StaleFinishLosesAll`, `DnsCache.StaleFinishLoses`).
  `DnsCache.StepExact` says of every step in every state whether it departs from one map.
* A domain that was only asked for in one family is never removed from the DNS cache; an empty
  record stays (`DnsCache.SingleFamilyNeverLeaves`).
* For a dual-stack look-up an expired negative answer is still a cache hit, because the merged
  time to live starts at the default of 300 seconds and only halves with addresses lower it
  (`DnsLookup.ExpiredNegativeIsHit`, exact condition in `DnsLookup.RemovalObserved` and
  `DnsLookup.CleanupAgrees`).
* A serial query accepts addresses that come with an error, a parallel query does not
  (`DnsQuery.ParallelEqualsSerial`); a skipped FakeDNS client counts as an empty answer in the
  parallel query only (`DnsQuery.FailuresCompared`).
* A chunk stream write that starts with empty buffers followed by one of more than 8192 bytes
  sends the end marker first (`ChunkStreams.SliceExact`, `ChunkStreams.BadStartIsLost`, exact
  condition in `ChunkStreams.RoundTrip`).
* An empty write in the middle of an authenticated stream ends it for the reader: what follows is
  never delivered (`AuthStream.RoundTrip`, exact condition in `AuthStream.BeforeEndExact`).
* The first datagram of a Mux session arrives addressed to the session's destination, whatever
  its own address (`MuxLink.PacketsWritten`).
* In a dual-stack look-up the errors of the queries are never reported, since a missing record is
  an error of its own (`DnsLookup.DualAnswer`).
* A supported_versions extension cut between two buffers is not seen, and direct copy stays off
  (`VisionHello.HelloDecides`); so it does when the hello or its first buffer is shorter than 79
  bytes, unless a suite was taken down before.
* An idle replay filter remembers: a value is accepted again only after two turn-overs, and each
  needs a call (`Replay.AcceptedAgain`).
* Compacting a list with an empty buffer after the first panics (`Buffers.Compact`).
* Frame metadata with three long domains exceeds the receiver's limit of 512 bytes
  (`MuxFrames.DomainEndpointsDoNotFit`, exact condition in `MuxFrames.BodyLengthExact`).
* `FilterIPs` of the multi-matcher can report an address twice, and `Matches` asks for one
  sub-matcher that accepts everything (`IpMulti.ReportedTwice`, `IpMulti.MatchesNeedsOneMatcher`).
* An oversize XUDP datagram is dropped with its payload left on the link
  (`MuxServer.ServerWorker.HandleXudp`).

## Model

| member | source | states |
|---|---|---|
| `Buffers.Buffer.constructor` | common/buf/buffer.go:54-59 | a new buffer is empty and has its whole capacity free |
| `Buffers.Buffer.Write` | common/buf/buffer.go:282-289 | appends the longest prefix that fits the free space and reports its length; the earlier contents stay |
| `Buffers.Buffer.Extend` | common/buf/buffer.go:164-173 | the contents grow by exactly `n` zero bytes, whatever the storage held before |
| `Buffers.Buffer.Read` | common/buf/buffer.go:329-340 | returns the first min(n, length) bytes and leaves the rest as contents, also when the buffer starts over at 0 |
| `Buffers.Buffer.Advance` | common/buf/buffer.go:239-245 | moves the front to a position, counted from the end if negative, clamped to the storage's start and the contents' end; what is left is the old contents from there on |
| `Buffers.Buffer.Resize` | common/buf/buffer.go:219-236 | start and end move to the two positions, counted from the end if negative and clamped to the start of the storage; the contents are that window of the old storage up to its old end, continued by zeros, and for a first position inside the contents the window of the old contents |
| `Buffers.CompactConserves` | common/buf/multi_buffer.go:137-158 | greedy compaction keeps the concatenated bytes and every buffer within its capacity, and never adds a buffer |
| `Buffers.CompactGreedy` | common/buf/multi_buffer.go:137-158 | compaction leaves no two neighbours that would fit into one buffer |
| `Buffers.CompactWhole` | common/buf/multi_buffer.go:137-158 | compaction cuts no buffer: every boundary of the result is a boundary of the given list |
| `Buffers.Compact` | common/buf/multi_buffer.go:137-158 | the in-place merge of neighbours yields exactly the greedy compaction, out of the same buffers; there is no result, but a panic, if and only if some buffer after the first is empty |
| `Buffers.Merge` | common/buf/multi_buffer.go:145-154 | one merge step keeps the loop on course to the compaction |
| `Buffers.SplitBytesTakes` | common/buf/multi_buffer.go:100-123 | SplitBytes takes exactly min(wanted, available) bytes; taken and rest together are the list; an empty rest has no buffers |
| `Buffers.SplitBytes` | common/buf/multi_buffer.go:100-123 | the in-place loop computes that split: the bytes copied out and the buffers left |
| `Buffers.SplitSizeTakes` | common/buf/multi_buffer.go:173-210 | conserves the bytes, never exceeds its size, stops only before a buffer that does not fit, takes at least the first buffer or a full size |
| `Buffers.WholeBuffersTakes` | common/buf/multi_buffer.go:191-209 | takes a prefix of whole buffers that fits, up to the first that does not |
| `Buffers.SplitSize` | common/buf/multi_buffer.go:173-210 | the in-place split computes exactly that, cutting only a first buffer that is itself too large |
| `Buffers.CutFirst` | common/buf/multi_buffer.go:178-189 | the slice-out branch: a new buffer with the first `size` bytes, the first buffer advanced by them, the others untouched |
| `Buffers.MergeBytes` | common/buf/multi_buffer.go:39-54 | the list afterwards holds the old bytes followed by the new ones; the earlier buffers are untouched, new pooled buffers are added only behind a full last one, and each is full before the next |
| `BufferedReaders.BufferedReader.Read` | common/buf/reader.go:61-86 | delivers the next at most `n` bytes of the source in order; end of file only when nothing remains |
| `BufferedReaders.BufferedReader.ReadMultiBuffer` | common/buf/reader.go:89-98 | hands over the next bytes in order and nothing else |
| `BufferedReaders.BufferedReader.ReadAtMost` | common/buf/reader.go:100-115 | the next bytes in order, at most `size` of them, with progress |
| `BufferedReaders.ReadMix` | common/buf/reader.go:61-115 | any mix of the three kinds of reads delivers the source bytes in order, without gap or repetition |
| `BufferedReaders.CutUpConserves` | common/buf/reader.go:61-115 | a stream cut into reads of buffers of any sizes still carries its bytes |
| `BufferedReaders.EveryCut` | common/buf/reader.go:61-115 | every way an underlying reader may divide a stream into reads and buffers is such a cut |
| `VisionUnpadding.UnpadLoop` | proxy/proxy.go:586-639 | the byte loop (header bytes one by one, content and padding in runs) computes the byte-at-a-time reference machine, cut at the capacity of the output buffer |
| `VisionUnpadding.RunTurn` | proxy/proxy.go:588-638 | one turn of the loop in closed form: what it outputs and which state it resumes from |
| `VisionUnpadding.Unpadder.XtlsUnpadding` | proxy/proxy.go:562-643 | one call changes the counters and returns bytes exactly as the reference machine says: a buffer met in the idle state passes whole, unpadded output is cut at 8192 bytes |
| `VisionStream.RunBlock` | proxy/proxy.go:515-559 | a whole block leaves exactly its content behind and the machine between blocks, or idle after a terminal one |
| `VisionStream.BlockLayout` | proxy/proxy.go:550-556 | a block byte by byte: command, two lengths of two bytes each, the content, zeros |
| `VisionStream.RunTranscript` | proxy/proxy.go:562-643 | from the state after the UUID, any legal transcript of blocks and raw bytes reads back as its contents |
| `VisionStream.IdleFromEnd` | proxy/proxy.go:626-638 | at any prefix of a transcript the machine is idle exactly from the end of the terminal block on |
| `VisionStream.SplitIrrelevant` | proxy/proxy.go:562-643 | cutting a stream into buffers changes nothing if and only if no buffer met in the idle state starts with the UUID and no other has more than 8192 bytes of output |
| `VisionStream.UncleanLoses` | proxy/proxy.go:562-643 | any other cut loses bytes |
| `VisionStream.ContentSoFar` | proxy/proxy.go:586-639 | how much data the first n bytes of a transcript hold, by its blocks alone |
| `VisionStream.CleanByOffset` | proxy/proxy.go:562-643 | whether a cut is clean, in terms of offsets, block lengths and the UUID alone |
| `VisionStream.VisionRoundTrip` | proxy/proxy.go:515-643 | for every transcript and every re-splitting into buffers of any sizes, the first of at least 21 bytes, unpadding returns exactly the written bytes if and only if no buffer beginning after the terminal block starts with the UUID and none before holds more than 8192 bytes of data |
| `VisionStream.StandardBuffers` | proxy/proxy.go:562-643 | with buffers of at most 8192 bytes the UUID is the only danger |
| `VisionStream.OneBufferIsCut` | proxy/proxy.go:586-639 | a whole stream in one buffer comes out cut at 8192 bytes |
| `VisionStream.OversizeBufferLoses` | proxy/proxy.go:586-639 | two blocks of 5000 bytes in one buffer lose 1808 bytes |
| `VisionStream.ShortFirstBufferFails` | proxy/proxy.go:578-585 | the 21-byte condition is needed: for every transcript and every cut, the stream comes out padded, UUID and all, if and only if its first buffer is shorter and no later buffer starts with the UUID |
| `VisionRecords.ScanOne` | proxy/proxy.go:431-469 | the inner loop over one buffer computes the turn-by-turn scan, including the panic |
| `VisionRecords.ReadHeader` | proxy/proxy.go:449-466 | the header part of one turn: taken, rejected, kept for the next buffer, or the panic |
| `VisionRecords.IsCompleteRecord` | proxy/proxy.go:431-469 | the nested loops always terminate and compute the scan; `None` is the slice panic |
| `VisionRecords.ScanExact` | proxy/proxy.go:431-469 | for every list of buffers: the answer is that of a scan of the bytes as a whole, in which a header cut after one or two bytes takes its last bytes from the header before and one cut after three or four panics |
| `VisionRecords.CompleteRecordScan` | proxy/proxy.go:431-469 | when no record header straddles two buffers, the scan never panics and answers whether the bytes are a whole number of application-data records (section 5.2 of RFC 8446) |
| `VisionRecords.StraddledHeaderPanics` | proxy/proxy.go:449-464 | behind any whole records, a header cut after its third or fourth byte panics as soon as a byte follows |
| `VisionRecords.StraddledHeaderIsMisread` | proxy/proxy.go:449-464 | behind any whole records, a header cut after its first or second byte gets its last one or two bytes from the record header before, and the scan goes on that many bytes too early |
| `VisionRecords.SingleRecordMisread` | proxy/proxy.go:449-464 | every single record of a length other than 0x1703 whose header is cut after its second byte is answered false |
| `VisionRecords.StaleByteFits` | proxy/proxy.go:449-464 | two records with a cut header that are answered rightly, because the stale length byte fits |
| `VisionPadding.LastIndex` | proxy/proxy.go:488-494 | the last occurrence of the pattern, and none after it |
| `VisionPadding.ReshapeMultiBuffer` | proxy/proxy.go:472-512 | the two loops produce the pieces of every buffer in order |
| `VisionPadding.ReshapeConserves` | proxy/proxy.go:472-512 | reshaping keeps every byte exactly when each over-long buffer fits behind its cut; otherwise bytes are lost |
| `VisionPadding.ReshapeFits` | proxy/proxy.go:472-512 | buffers of at most 8192 bytes come out whole, in pieces of at most 8171 bytes |
| `VisionPadding.CutAtLastRecord` | proxy/proxy.go:483-503 | a long buffer is cut before the last 17 03 03 in it if that lies between 21 and 8171, and at 4096 otherwise or if the buffer starts with one |
| `VisionPadding.PaddingNeverNegative` | proxy/proxy.go:524-544 | the seeds under which the padding is never negative, for all lengths, draws and modes, through 32-bit conversions and wrap-around, are exactly the safe ones |
| `VisionPadding.PaddingShape` | proxy/proxy.go:524-543 | long padding of short content fills the block to a size drawn between the base and base plus range, whatever the content; all other padding is drawn below the short range; every value of a range can come |
| `VisionPadding.ChoosePadding` | proxy/proxy.go:524-544 | the branches compute the padding length |
| `VisionPadding.XtlsPadding` | proxy/proxy.go:515-559 | the block never exceeds a pooled buffer, and content of at most 8171 bytes is carried whole, behind the UUID |
| `VisionPadding.BlocksFit` | proxy/proxy.go:472-559 | every piece of every list of standard buffers becomes a block that fits with its UUID, decodes and carries all bytes, for every draw |
| `VisionTraffic.TrafficState.FilterBuffer` | proxy/proxy.go:648-695 | one buffer of the loop: what it recognises, the ServerHello still to come and the two early returns |
| `VisionTraffic.TrafficState.XtlsFilterTls` | proxy/proxy.go:646-697 | the loop computes the recognition over all buffers and keeps the invariant of the flags |
| `VisionTraffic.FilterKeepsSound` | proxy/proxy.go:646-697 | EnableXtls implies IsTLS12orAbove and IsTLS after any traffic, and nothing recognised is forgotten |
| `VisionTraffic.XtlsNeedsTls13` | proxy/proxy.go:670-690 | direct copy gets enabled only by a buffer with the TLS 1.3 supported_versions extension (section 4.1.3 of RFC 8446) and an allowed suite |
| `VisionHello.HelloLayout` | proxy/proxy.go:653-661 | where record and handshake headers, session id and suite of a ServerHello built from its fields come to lie |
| `VisionHello.HelloDecides` | proxy/proxy.go:646-699 | for every ServerHello in buffers cut anywhere, direct copy is enabled if and only if some buffer shows the supported_versions extension for TLS 1.3, as it does unless a cut goes through it, and the suite is 0x1301 to 0x1304; TLS 1.2 or later is recognised and the budget used up |
| `VisionHello.WholeHelloDecides` | proxy/proxy.go:646-699 | the same for a ServerHello in one buffer with anything behind it: the extension in the hello and the hello's own suite decide |
| `VisionHello.ClientHelloSeen` | proxy/proxy.go:666-668 | a ClientHello of any version shows TLS and nothing else |
| `VisionHello.NothingSeen` | proxy/proxy.go:651-669 | a buffer that starts neither hello shows nothing and costs one packet of the budget |
| `VisionWriter.Choose` | proxy/proxy.go:385-411 | the branches of one turn of the padding loop |
| `VisionWriter.PadPieces` | proxy/proxy.go:383-413 | the loop writes the UUID, the blocks and the plain rest, and sets the two flags, as the recursive form says |
| `VisionWriter.PadFromIsGood` | proxy/proxy.go:383-413 | the loop emits Continue blocks and at most one terminal block; padding ends exactly with it, direct copy is armed exactly with a Direct one, and contents plus plain bytes are the data |
| `VisionEnding.PadFromTold` | proxy/proxy.go:381-412 | block by block what the loop emits, without its branches: commands, contents, padding lengths, the plain rest and both flags |
| `VisionEnding.PaddingEnds` | proxy/proxy.go:373-412 | a write while padding ends it if and only if inside TLS the bytes are whole application-data records and some piece starts one, or no TLS 1.2 was recognised, at most one packet is left and there is a piece; the last block then says Direct with EnableXtls and End otherwise, and without a budget the End block is the first piece that starts no record, or the last |
| `VisionEnding.HeaderKeepsPadding` | proxy/proxy.go:377-379 | a header without data becomes one empty Continue block with long padding, and padding goes on |
| `VisionConnection.Writer.WriteMultiBuffer` | proxy/proxy.go:335-425 | one call changes the writer, the traffic state and the two connections as the functional form says |
| `VisionRuns.EventKeeps` | proxy/proxy.go:335-425 | every write and every look at the peer keeps the run invariant and carries exactly its bytes |
| `VisionRuns.RunKeeps` | proxy/proxy.go:335-425 | over every run a direction emits Continue blocks, then at most one End or Direct block, then only raw data; direct copy is armed or in use exactly after a Direct block |
| `VisionRuns.RunCarries` | proxy/proxy.go:335-425 | over every run what was sent carries exactly what was written |
| `VisionRuns.DirectArms` | proxy/proxy.go:355-413 | a call emits a Direct block exactly when it arms the switch, and the next call uses the raw connection |
| `VisionSwitch.RecordsEndPadding` | proxy/proxy.go:384-399 | over a run: inside recognised TLS the first write of whole records ends padding, with Direct and the switch armed exactly with EnableXtls |
| `VisionSwitch.WriteAfter` | proxy/proxy.go:357-369 | a write after padding goes whole to the raw connection once direct copy is armed, and unpadded to the outer one otherwise |
| `VisionSwitch.HelloThenRecords` | proxy/proxy.go:335-424 | from the other side's ServerHello over a write of whole records to the next write: Direct block and raw connection if and only if the hello is for TLS 1.3 with a suite that allows it, End block and plain bytes otherwise |
| `VisionRuns.CallImage` | proxy/proxy.go:335-425 | what each call writes to the outer connection continues the wire image of everything sent: the UUID once, the blocks, the plain bytes |
| `VisionRuns.VisionEndToEnd` | proxy/proxy.go:335-643 | any run of writes, compacted, filtered, reshaped and padded, then cut into buffers in any way, unpads to exactly the written bytes if and only if no buffer after the terminal block starts with the UUID and none before holds more than 8192 bytes of data |
| `VisionReader.Reader.ReadMultiBuffer` | proxy/proxy.go:205-262 | one read, of buffers of any sizes, unpads or passes through and switches its phase as the functional form says |
| `VisionReader.ReaderExact` | proxy/proxy.go:205-262 | for any reads in buffers of any sizes, every read delivers its share of one continuous unpadding if and only if every read is good |
| `VisionReader.TotalExact` | proxy/proxy.go:205-262 | in standard buffers and with a budget that does not come back, the delivered bytes are right as a whole if and only if every read is good |
| `VisionReader.EarlySwitch` | proxy/proxy.go:252-259 | the phase test ignores RemainingCommand: a read ending after the command byte of a Direct block delivers the rest of the block as data |
| `VisionReader.SwitchPoint` | proxy/proxy.go:252-259 | the phase test after a read that ends anywhere in a transcript: it gives up exactly behind the terminal block, or in its header after one byte, after two with less than 256 bytes of content, after three with none, or after four with none and less than 256 bytes of padding |
| `VisionReader.ReaderRoundTrip` | proxy/proxy.go:205-262 | a transcript in any reads of any buffers, the first of at least 21 bytes: every read delivers its share of the written bytes if and only if no read that is not unpadded begins before the terminal block's end and every other has good buffers; whether a read is unpadded is decided by its offset in the last header, the last block's command and lengths, and the packet budget |
| `VisionReader.ReaderTotal` | proxy/proxy.go:205-262 | the same condition decides, for standard buffers, whether the delivered bytes are the written ones |
| `VisionLink.RunWriter` | proxy/proxy.go:335-425 | after any run of WriteMultiBuffer calls the outer connection holds exactly the wire image of what was sent and the raw connection the direct bytes |
| `VisionLink.RunReader` | proxy/proxy.go:205-262 | the reader's calls deliver read by read as the functional form says |
| `VisionLink.Exchange` | proxy/proxy.go:205-643 | from any run of WriteMultiBuffer calls over any cut of the outer connection into reads to the reader's calls: every read delivers its share, which with the raw bytes make up what was written, if and only if the condition of the reader's round trip holds |
| `Nonces.NonceGenerator.Next` | common/crypto/auth.go:24-35 | the in-place loop is one little-endian increment with carry |
| `Nonces.NonceGenerator.Aead` | common/crypto/auth.go:37-43 | the initial value is all ones |
| `Nonces.IncrementValue` | common/crypto/auth.go:24-35 | the increment adds one modulo 256^n |
| `Nonces.NthValue` | common/crypto/auth.go:24-35 | the k-th nonce encodes (initial + k) mod 256^n |
| `Nonces.NoncesDistinct` | common/crypto/auth.go:24-35 | any 256^n consecutive nonces are pairwise distinct (section 3.1 of RFC 5116), and the next one repeats the first |
| `Nonces.AeadNoncesStartAtZero` | common/crypto/auth.go:37-43 | the first nonce of an AEAD generator is zero and the k-th is k |
| `AuthStream.PlainParserSound` | common/crypto/chunk.go:30-41 | decoding undoes encoding for every 16-bit size |
| `AuthStream.AeadParserSound` | common/crypto/chunk.go:47-64 | decoding undoes encoding for every 16-bit size, through the wrap-around of the overhead |
| `AuthStream.AuthenticationWriter.Seal` | common/crypto/auth.go:243-270 | a chunk that fits is appended with one use of each generator; one that does not fit fails after using the padding generator only |
| `AuthStream.AuthenticationWriter.WriteStream` | common/crypto/auth.go:272-304 | the data in order, across buffers, in chunks of exactly 8192 bytes less overhead, size field and maximal padding, only the last one smaller |
| `AuthStream.AuthenticationWriter.WriteMultiBuffer` | common/crypto/auth.go:332-344 | a write of data appends full chunks, an empty write the one empty chunk; generators stay in lockstep |
| `AuthStream.AuthenticationReader.ReadSize` | common/crypto/auth.go:113-127 | the cached or decoded size and padding are those of the next chunk |
| `AuthStream.AuthenticationReader.ReadBody` | common/crypto/auth.go:131-145 | reads and opens exactly one chunk body without its padding |
| `AuthStream.AuthenticationReader.ReadInternal` | common/crypto/auth.go:147-198 | one chunk or end of file; a soft read that stops keeps the reader at the same chunk with the size cached |
| `AuthStream.AuthenticationReader.AtSize` | common/crypto/auth.go:168-198 | behind a size: end of file at the empty chunk, the size kept when a soft read finds too few bytes, or the chunk opened |
| `AuthStream.AuthenticationReader.ReadMultiBuffer` | common/crypto/auth.go:200-220 | one hard and up to fifteen soft reads return the plaintext of at least one chunk, or end of file when there is none |
| `AuthStream.ReadStream` | common/crypto/auth.go:113-220 | reading to end of file returns the plaintext before the first empty chunk |
| `AuthStream.WriteStreamOf` | common/crypto/auth.go:243-344 | any writes ended by an empty one give a wire of valid chunks in which the plaintext before the first empty chunk is the data before the first empty write |
| `AuthStream.BeforeEndExact` | common/crypto/auth.go:331-344 | the data before the first empty write is a prefix of all data, and is all of it if and only if no data follows an empty write |
| `AuthStream.RoundTrip` | common/crypto/auth.go:113-344 | for every codec whose parts are inverse, any writes, empty ones among them, and every re-chunking of the ciphertext, the reader returns exactly the data before the first empty write and then end of file however often it is asked; all data, if and only if there is none behind an empty write |
| `ChunkStreams.ChunkStreamReader.NextChunk` | common/crypto/chunk.go:103-117 | the next size, or end of file at a zero size or at the chunk limit, right before bytes that are not its own |
| `ChunkStreams.ChunkStreamReader.ReadMultiBuffer` | common/crypto/chunk.go:102-126 | delivers the next bytes of the current or next chunk and stops exactly before foreign bytes |
| `ChunkStreams.CopyOrDiscard` | common/crypto/chunk.go:102-126 | copying consumes exactly the chunks, also when the output fails midway; what got through is a prefix |
| `ChunkStreams.SliceExact` | common/crypto/chunk.go:145-157 | a slice is empty, although there is data, exactly when the list starts with empty buffers followed by one larger than a slice |
| `ChunkStreams.WriteChunks` | common/crypto/chunk.go:140-160 | the chunks carry the data in order; the first is the end marker exactly for no data or after such a start, no later one is |
| `ChunkStreams.WriteAll` | common/crypto/chunk.go:140-160 | the wire after any writes: chunks with the data up to the first end marker, and bytes behind it |
| `ChunkStreams.KeptExact` | common/crypto/chunk.go:102-160 | what can be read back is a prefix of the data, and all of it exactly for writes with good starts and nothing behind an empty one |
| `ChunkStreams.BadStartIsLost` | common/crypto/chunk.go:145-157 | an empty buffer before one of 8193 bytes: that write and all that follow are lost |
| `ChunkStreams.RoundTrip` | common/crypto/chunk.go:102-160 | any sequence of writes, ended by an empty one and cut into reads in any way, is read back as the data before the first write that is empty or has a bad start; as all data if and only if there is no bad start and nothing behind an empty write |
| `MuxFrames.AddressRoundTrip` | common/protocol/address.go:155-259 | an address and port come back unchanged, with the bytes after them, if and only if the domain has 1 to 255 legal characters and is not an IP, or the IPv6 address is not v4-mapped |
| `MuxFrames.ParseInverts` | common/protocol/address.go:168-221 | whatever is parsed, writing it gives back the bytes parsed, but for names that read as an IP and v4-mapped addresses |
| `MuxFrames.WriteTo` | common/mux/frame.go:67-111 | the append-then-patch writer yields the length and the body; it fails exactly when an address is refused |
| `MuxFrames.WriteTail` | common/mux/frame.go:77-106 | the variable part field by field |
| `MuxFrames.EndpointRoundTrip` | common/mux/frame.go:144-165 | network, port and address come back, with the bytes after them |
| `MuxFrames.InboundRoundTrip` | common/mux/frame.go:167-213 | source and local address come back, either of which may be missing |
| `MuxFrames.FrameRoundTrip` | common/mux/frame.go:67-222 | parsing inverts writing for every well-formed frame, with GlobalID, inbound endpoints and the UDP address of Keep frames |
| `MuxFrames.FrameLayout` | common/mux/frame.go:67-111 | the metadata in numbers: id, status and option, network 1 or 2, port, address type 1, 2 or 3, and what follows a target |
| `MuxFrames.InboundLayout` | common/mux/frame.go:87-101 | inbound endpoints in numbers, as far as they are known |
| `MuxFrames.BodyLengthExact` | common/mux/frame.go:114-131 | the length prefix is the sum of the lengths of the addresses and fixed parts, for every well-formed frame, and fits 16 bits |
| `MuxFrames.InboundFits` | common/mux/frame.go:114-131 | without inbound endpoints the metadata always fits, with both exactly if the three addresses take at most 505 bytes, as with IP endpoints they do |
| `MuxFrames.DomainEndpointsDoNotFit` | common/mux/frame.go:114-131 | with three 255-character domains the body has 784 bytes and is refused |
| `MuxEvents.Demultiplexes` | common/mux/server.go:165-232 | in every interleaving of frames, closes and failing outputs, a session with frames New, Keep..., End and a working output receives exactly its bytes in order, and a session of packets its datagrams one by one with their addresses |
| `MuxEvents.NeverForeign` | common/mux/server.go:364-398 | whatever fails or closes, an output only ever holds a beginning of what its own writer sent, bytes and datagrams |
| `MuxEvents.OpenExactly` | common/mux/server.go:390-398 | in every run, from its own events alone: a session is open if and only if a New frame opened it and since then there was no End frame, no Close from its own side and no payload its output did not take; its transfer type is that of the last such New frame |
| `MuxEvents.ClosedForGood` | common/mux/server.go:364-377 | once a session is shut, whatever comes for it, its output stays as it is until a New frame opens it again |
| `MuxServer.ReadPacket` | common/mux/reader.go:36-61 | one datagram of at most 8192 bytes; an oversize one is refused with its payload unread |
| `MuxServer.CopyPayload` | common/mux/server.go:364-388 | a payload is consumed exactly, packet or stream, delivered, broken or discarded |
| `MuxServer.ReadMeta` | common/mux/frame.go:114-131 | parses the frame that was sent and leaves exactly its payload; metadata of more than 512 bytes is refused |
| `MuxServer.ServerWorker.HandleXudp` | common/mux/server.go:237-362 | one datagram goes to its flow and the session is entered in the table, or neither, as the flow is established or not; with a closed table the link is given up; an oversize datagram is dropped without consuming its payload |
| `MuxServer.ServerWorker.HandleNew` | common/mux/server.go:195-232 | opens the session and consumes exactly the first payload; when the dispatch fails there is no session, the payload is discarded and the link given up; when the session table is closed the link is given up with the payload unread |
| `MuxServer.ServerWorker.HandleOld` | common/mux/server.go:158-163 | Keep-alive frames change nothing, Keep frames deliver to an open session, End frames close it; each consumes exactly its payload |
| `MuxServer.ServerWorker.HandleKeep` | common/mux/server.go:364-388 | a payload goes to its open session; for any other the peer is told to close it and the payload is discarded |
| `MuxServer.ServerWorker.HandleOpening` | common/mux/server.go:165-232 | a New frame opens a session, hands a datagram to its XUDP flow, or is refused for its network, for want of a way to its target or for a closed table, which ends the link |
| `MuxServer.ServerWorker.HandleFrame` | common/mux/server.go:400-425 | each handler consumes exactly its frame and changes the sessions as the frame says, or refuses a New frame and changes nothing; Keep frames of unknown sessions, and only those, are answered with an End frame |
| `MuxServer.Serve` | common/mux/server.go:427-448 | the run loop over a link, up to its end or to exactly the first refused New frame, with closes and failures between frames, has the effect of its frames in order; every session that is spared sees exactly its own frames; the peer is told to close a session for exactly the payloads that came while, by its own events, it was not open |
| `MuxSessions.Writer.WriteFrame` | common/mux/writer.go:44-91 | the first frame announces the session, the later ones keep it; data and UDP address go into the frame |
| `MuxSessions.Writer.WriteStream` | common/mux/writer.go:101-127 | a stream write becomes frames of at most 32 KiB carrying exactly its bytes, any two neighbours at least 32 KiB together |
| `MuxSessions.Writer.WritePackets` | common/mux/writer.go:101-127 | a packet write becomes one frame per buffer with that buffer's destination, up to the last non-empty one |
| `MuxSessions.Writer.Close` | common/mux/writer.go:130-144 | the End frame of the session, with its error flag and without data |
| `MuxSessions.WriterLayout` | common/mux/writer.go:44-62 | the id in two bytes, status 1 in the first frame and 2 in every later one, the data bit exactly with data |
| `MuxSessions.EndLayout` | common/mux/writer.go:130-144 | the End frame is four bytes: id, status 3, option 2 with an error and 0 without |
| `MuxSessions.FrameWireLayout` | common/mux/writer.go:71-91 | two bytes of length, the metadata, and the payload behind two bytes of length |
| `MuxSessions.WriterFrameValid` | common/mux/writer.go:44-91 | what a writer with proper addresses emits is a frame the server can read, if its first frame is not too long |
| `MuxSessions.SessionDelivers` | common/mux/writer.go:44-144 | among any other sessions, closes and failures, a session whose frames are one writer's ends with exactly what that writer sent |
| `MuxSessions.SessionNeverForeign` | common/mux/server.go:195-232 | whatever fails or closes, the output of a session whose frames are one writer's holds a beginning of what that writer sent, or does not exist |
| `MuxSessions.SessionManager.Allocate` | common/mux/session.go:54-73 | under a reuse limit of 1..65535 every id is new; refused exactly when closed or at a limit |
| `MuxSessions.SessionManager.Remove` | common/mux/session.go:88-106 | drops the session unless closed and keeps the numbering invariant |
| `MuxSessions.UnlimitedIdsRepeat` | common/mux/session.go:54-73 | without a limit the 16-bit counter returns to the same id after 65536 allocations |
| `MuxLink.RunJob` | common/mux/writer.go:23-144 | one session's writes and close become one New frame, Keep frames and at most one End frame, all readable, that carry exactly what it was given: its bytes, and its non-empty datagrams one by one, the first frame's addressed to the session's destination |
| `MuxLink.PacketsWritten` | common/mux/writer.go:101-127 | the frames of a packet write arrive as its non-empty datagrams one by one, each with its own address, but the first of the session with the session's destination |
| `MuxLink.Number` | common/mux/session.go:54-73 | as many sessions as the reuse limit allows get pairwise distinct ids |
| `MuxLink.MergedKeepsOrder` | common/mux/writer.go:71-91 | however the sessions take turns on the link, the frames of each id are that session's frames in their order |
| `MuxLink.EveryMerge` | common/mux/writer.go:71-91 | every order of the frames that keeps each session's own order is one that some turns lead to |
| `MuxLink.OwnedIsValid` | common/mux/server.go:400-425 | a link on which every frame belongs to one of the sessions is one the server can read |
| `MuxLink.SendFrame` | common/mux/writer.go:71-91 | metadata, then the payload behind its length; fails exactly when an address is refused |
| `MuxLink.Deliveries` | common/mux/server.go:400-448 | any number of sessions, numbered by one manager, writing streams or datagrams and closing or not, XUDP or not, interleaved, serialised and cut into reads in any way, with closes, output failures, unestablished flows and refused New frames at will: every output belongs to a session and holds a beginning of what its own writer was given, and all of it (bytes, and datagrams with their addresses) if the session was spared and its frames were handled before the link ended; such a session is open at the end exactly if its writer did not close it |
| `MuxXudp.BeginNewKeeps` | common/mux/server.go:259-265 | creating an entry keeps the invariant |
| `MuxXudp.BeginAgainKeeps` | common/mux/server.go:266-288 | finding an entry, with a conflict or taking it over, keeps the invariant |
| `MuxXudp.DetachKeeps` | common/mux/server.go:289-291 | once the previous Mux is closed no session can reach the entry any more |
| `MuxXudp.ForwardKeeps` | common/mux/server.go:293-313 | forwarding on the previous link, or not, keeps the invariant |
| `MuxXudp.DispatchFailsKeeps` | common/mux/server.go:317-331 | a failed dispatch keeps the invariant |
| `MuxXudp.DispatchWorksKeeps` | common/mux/server.go:332-343 | installing the interim Mux keeps the invariant |
| `MuxXudp.FinishKeeps` | common/mux/server.go:345-358 | the final region keeps the invariant and makes the entry Active with a Mux of its own |
| `MuxXudp.CloseEndsKeeps` | common/mux/session.go:190-202 | the XUDP region of Session.Close keeps the invariant |
| `MuxXudp.TickKeeps` | common/mux/session.go:235-253 | an expiry tick keeps the invariant |
| `MuxXudp.RunKeeps` | common/mux/server.go:259-362 | every interleaving keeps the invariant |
| `MuxXudp.Exclusion` | common/mux/server.go:259-362 | in every interleaving nothing nil is dereferenced, an entry is Initializing exactly while one establisher owns it, that one is alone, and an Active or Expiring entry has its own Mux |
| `MuxXudp.CallStarts` | common/mux/server.go:259-288 | in every interleaving a call finds another one at work on its global id and does nothing, or is at work itself, on the listed entry with that entry's Mux, or on a new entry without one |
| `MuxXudp.OnlyCurrentMuxExpires` | common/mux/session.go:169-202 | an Active entry becomes Expiring exactly at the end of the close of its current Mux |
| `MuxXudp.TickerSpares` | common/mux/session.go:235-253 | the ticker removes exactly the expired entries, each with all its sessions closed, and never one being established |
| `MuxXudp.FailureRemovesOwnEntry` | common/mux/server.go:319-323 | deletion by global id after a failed dispatch always removes the caller's own entry |
| `MuxXudp.NoDeadlock` | common/mux/server.go:284-291 | in every reachable state, for every call of xudpEstablish that has not returned, a region of that very call, or of the Close of the Mux it replaces, or of a Close under that Mux's parent, can run and brings it nearer to its return |
| `MuxXudp.RunOneCloser` | common/mux/session.go:169-202 | two sessions of one parent are never in the middle of Close together |
| `MuxXudp.EveryCallCanReturn` | common/mux/server.go:259-362 | from every reachable state every call returns after at most six such regions, without anybody else's help |
| `MuxXudp.ReturnWithinGrace` | common/mux/session.go:193-197 | a client back within a minute of its session's close takes over that very session, whatever happened in between |
| `MuxXudpLinks.LinkOfCall` | common/mux/server.go:293-358 | in every run, with anything between its regions: a call whose datagram was written to the previous link does not dispatch and installs a Mux with that link; any other call dispatches and installs the link of its own dispatch |
| `MuxXudpLinks.WrittenNeverDispatches` | common/mux/server.go:294-315 | a call whose datagram was written never comes to dispatch, whatever follows |
| `MuxXudpLinks.ReturnKeepsLink` | common/mux/server.go:259-362 | a client back within a minute of its session's close, whose datagram can be written, gets a session with the very link of the old one, whatever else happens meanwhile |
| `DnsCache.CleanedExact` | app/dns/cache_controller.go:134-158 | cleanup removes exactly the expired halves of its keys |
| `DnsCache.MovedExact` | app/dns/cache_controller.go:249-266 | a batch fills in exactly the halves the new map lacks |
| `DnsCache.StepKeeps` | app/dns/cache_controller.go:179-267 | every step keeps: one migration while there is an old map, and what was copied is in the new map |
| `DnsCache.StepExact` | app/dns/cache_controller.go:62-322 | in every state, with any number of migrations going on, a step changes the view as one map would if and only if it is neither a batch bringing in a half the cache lacks nor the end of a migration dropping one not copied; in those cases, what the view becomes |
| `DnsCache.StepRefines` | app/dns/cache_controller.go:179-322 | where the cache has not been cleared in the middle of a migration no step departs: updates change their own half, cleanup the expired halves, batches and the final drop nothing |
| `DnsCache.RunRefines` | app/dns/cache_controller.go:62-352 | over every run, clears included, the view is that of one map as long as no step departs |
| `DnsCache.CalmIsFaithful` | app/dns/cache_controller.go:179-352 | no step departs in any run without ClearCache during a migration |
| `DnsCache.FindAgrees` | app/dns/cache_controller.go:343-352 | in any state of any such run a look-up gives for each half the one map's value or nothing, and nothing wrongly exactly for a half left in the old map behind a new record |
| `DnsCache.CleanupExact` | app/dns/cache_controller.go:85-160 | collecting and cleaning removes all expired halves and no other |
| `DnsCache.DomainRemoved` | app/dns/cache_controller.go:139-148 | a domain leaves the table exactly when both halves exist and are expired |
| `DnsCache.ShrinksExactly` | app/dns/cache_controller.go:162-194 | a migration starts exactly at a cleanup that leaves something, but more than 10240 and more than 65 percent less than the largest size so far |
| `DnsCache.SingleFamilyNeverLeaves` | app/dns/cache_controller.go:144-158 | a domain cached for one family only stays as an empty record that no cleanup removes |
| `DnsCache.StaleFinishLosesAll` | app/dns/cache_controller.go:236-239 | any migration that starts while the goroutine of a cleared one has yet to finish loses everything in its old map to it |
| `DnsCache.StaleFinishLoses` | app/dns/cache_controller.go:236-239 | a concrete answer lost that way |
| `DnsCache.ClearDoesNotStopMigration` | app/dns/cache_controller.go:201-243 | a concrete run in which a cleared answer returns |
| `DnsController.CacheController.constructor` | app/dns/cache_controller.go:43-51 | an empty cache; the grace period is stored negated in 32 bits |
| `DnsController.CacheController.ClearCache` | app/dns/cache_controller.go:62-70 | takes the clearing step |
| `DnsController.CacheController.FindRecords` | app/dns/cache_controller.go:343-352 | the new map's record, else the old map's |
| `DnsController.CacheController.UpdateRecord` | app/dns/cache_controller.go:269-334 | announces the answer, takes the update step, announces the other half of the view if it is fresh, and starts cleanup unless stale answers are served without limit |
| `DnsController.CacheController.CollectExpiredKeys` | app/dns/cache_controller.go:85-113 | the keys with an expired half, none during a migration, an error for an empty cache |
| `DnsController.CacheController.WriteAndShrink` | app/dns/cache_controller.go:115-194 | takes the cleanup step, with its thresholds, and may start a migration |
| `DnsController.CacheController.Flush` | app/dns/cache_controller.go:245-267 | takes the batch step |
| `DnsController.CacheController.Migrate` | app/dns/cache_controller.go:201-243 | the whole goroutine, with any answers arriving between its batches, leaves the view of its start with those answers put in, and the old map gone |
| `DnsLookup.Merge` | app/dns/nameserver_cached.go:183-251 | the accumulators compute the merge that `DnsLookup.DualAnswer`, `DnsLookup.SingleAnswer` and `DnsLookup.NoFamilyAnswer` describe |
| `DnsLookup.DualAnswer` | app/dns/nameserver_cached.go:183-252 | a dual-stack answer: A addresses then AAAA addresses, each only with response code 0; the least of 300 and the seconds left to the halves with addresses; an error exactly if neither has any, the common one or both |
| `DnsLookup.SingleAnswer` | app/dns/nameserver_cached.go:183-222 | asked for one family: its own addresses, time to live and error |
| `DnsLookup.NoFamilyAnswer` | app/dns/nameserver_cached.go:225-252 | asked for neither family: what the queries reported |
| `DnsLookup.DualOutcome` | app/dns/nameserver_cached.go:24-65 | a dual-stack look-up is a hit while both halves with addresses are fresh, stale while serve-stale tolerates both, fetched otherwise; without addresses a hit for 300 seconds unless both halves are missing |
| `DnsLookup.SingleOutcome` | app/dns/nameserver_cached.go:24-65 | the same for one family |
| `DnsLookup.SingleFamilyServed` | app/dns/nameserver_cached.go:22-67 | a record asked for alone is served exactly until cleanup's limit, to the nanosecond, through the rounded time to live |
| `DnsLookup.RemovalObserved` | app/dns/nameserver_cached.go:22-67 | removing a half that cleanup may remove changes a served answer, then or later, if and only if both families are asked for and neither half has an address |
| `DnsLookup.ExpiredNegativeIsHit` | app/dns/nameserver_cached.go:183-251 | a concrete expired empty answer that is still a hit for a dual-stack look-up |
| `DnsLookup.FindAfterCleanup` | app/dns/cache_controller.go:115-194 | what a look-up finds after cleanup, which may have started a migration: the record without its expired halves, or none if both were |
| `DnsLookup.CleanupAgrees` | app/dns/cache_controller.go:115-158 | cleanup in any state with keys collected earlier: a look-up then or later that the cache would have answered gets the same answer from the cache after cleanup, except exactly a dual-stack look-up of a swept record without addresses in either half |
| `DnsQuery.MakeGroups` | app/dns/dns.go:620-674 | adjacent clients with equal policy form a group, numbered by policy changes |
| `DnsQuery.MergeQueryErrors` | app/dns/dns.go:480-502 | the common error of those that say something, else all of them; combined errors are never the same as one another |
| `DnsQuery.TryGroup` | app/dns/dns.go:546-572 | one turn of the inner loop: a success of the group, a missing reply, or the group's failures collected |
| `DnsQuery.Advance` | app/dns/dns.go:546-572 | the inner loop walks over failed groups in order and dereferences no missing result |
| `DnsQuery.ParallelQuery` | app/dns/dns.go:527-579 | for every order of arrival: success if and only if some client succeeds, the answer of a client in the first group with a success, otherwise all errors merged in client order |
| `DnsQuery.SerialQuery` | app/dns/dns.go:504-525 | the first client asked that gives addresses, otherwise the errors of those asked |
| `DnsQuery.ParallelEqualsSerial` | app/dns/dns.go:504-579 | with singleton groups both choose the same client if and only if the serial choice has no error beside its addresses |
| `DnsQuery.FailuresCompared` | app/dns/dns.go:504-618 | when both fail they report the same error if and only if no client was skipped or the serial error is an empty response |
| `IpSets.KeyOfAddress` | common/geodata/ip_matcher.go:194-215 | a legal address has a key, made of its family and its first 3 or 8 bytes; others have none |
| `IpSets.Longest` | common/geodata/ip_matcher.go:856-881 | the longest prefix length bounds all, with 0xff for no prefix and 0xfe for nothing but the whole family |
| `IpSets.CoversExactly` | common/geodata/ip_matcher.go:63-77 | a prefix covers exactly the addresses of its family whose first bits are its own, bit by bit |
| `IpSets.CreateFrom` | common/geodata/ip_matcher.go:814-884 | the set is well formed: its limits bound its prefixes |
| `IpSets.SameBucket` | common/geodata/ip_matcher.go:63-77 | addresses with one key are accepted or refused together where prefixes are short |
| `IpSets.ReverseFlips` | common/geodata/ip_matcher.go:308-315 | reversing flips the answer exactly for legal addresses of a family with prefixes |
| `IpMatcher.HeuristicIPMatcher.AnyMatch` | common/geodata/ip_matcher.go:80-127 | true if and only if some address of the list matches |
| `IpMatcher.HeuristicIPMatcher.Matches` | common/geodata/ip_matcher.go:130-192 | true if and only if the list is not empty and every address matches |
| `IpMatcher.HeuristicIPMatcher.FilterIPs` | common/geodata/ip_matcher.go:218-305 | the two results are the legal addresses divided by Match, each as often as given |
| `IpMatcher.HeuristicIPMatcher.ToggleReverse` | common/geodata/ip_matcher.go:308-310 | flips the flag only |
| `IpMatcher.HeuristicIPMatcher.SetReverse` | common/geodata/ip_matcher.go:313-315 | sets the flag only |
| `IpMatcher.CountIsMultiplicity` | common/geodata/ip_matcher.go:218-305 | the count used for FilterIPs is multiset multiplicity |
| `IpMultiMatcher.TryAll` | common/geodata/ip_matcher.go:346-383 | one address against all sub-matchers with the shared skip set: hit if and only if some sub-matcher accepts it |
| `IpMulti.HeuristicMultiIPMatcher.AnyMatch` | common/geodata/ip_matcher.go:337-384 | true if and only if some address is accepted by some sub-matcher, despite the shared skip set |
| `IpMulti.HeuristicMultiIPMatcher.Matches` | common/geodata/ip_matcher.go:387-443 | true if and only if the list is not empty and one sub-matcher accepts every address |
| `IpMultiFilter.FilterOf` | common/geodata/ip_matcher.go:549-631 | matched addresses are exactly the accepted ones; an address is unmatched exactly if the sub-matchers with one kind of view exist and all refuse it |
| `IpMulti.HeuristicMultiIPMatcher.FilterIPs` | common/geodata/ip_matcher.go:529-631 | the same with the short cuts for lists of no and one address |
| `IpMulti.HeuristicMultiIPMatcher.ToggleReverse` | common/geodata/ip_matcher.go:730-734 | flips every sub-matcher once |
| `IpMulti.HeuristicMultiIPMatcher.SetReverse` | common/geodata/ip_matcher.go:737-741 | sets every sub-matcher |
| `IpMulti.ComplementExactly` | common/geodata/ip_matcher.go:529-631 | unmatched is the complement of accepted if and only if there is a sub-matcher and none takes the address in one view while all with the other view refuse it |
| `IpMulti.OneViewComplements` | common/geodata/ip_matcher.go:529-631 | with one kind of view per family the results are complementary |
| `IpMulti.ReportedTwice` | common/geodata/ip_matcher.go:551-631 | a /24 and a /32 rule report one address as matched and unmatched |
| `IpMulti.MatchesNeedsOneMatcher` | common/geodata/ip_matcher.go:398-441 | two rules that cover two addresses between them do not make Matches true |
| `Replay.ReplayFilter.Check` | common/antireplay/mapfilter.go:29-46 | answers and rotates the pools as the value form says |
| `Replay.ReplayRejected` | common/antireplay/mapfilter.go:29-46 | along any run on a clock that does not go back, a value accepted at t is rejected before t + interval, across any rotations |
| `Replay.FreshAccepted` | common/antireplay/mapfilter.go:29-46 | a new filter accepts every value it has not accepted before |
| `Replay.AcceptedAgain` | common/antireplay/mapfilter.go:29-47 | a value accepted before, and not since, is accepted at a later call if and only if two of the calls from then on lie an interval apart, the first an interval after the pools were last turned over |

## Left out

- Sockets, splice, readv, raw-connection unwrapping and the direct copy itself: the model ends where bytes are handed to the raw connection.
- `VisionReader`'s hand-over of XTLS input buffers after a switch to direct copy: it concerns the raw connection.
- Buffer pooling and release: buffers are owned objects; reuse of storage is modelled only where it is observable, as stale bytes behind a buffer's contents in `XtlsFilterTls`.
- `AuthenticationWriter`'s packet mode: an oversize packet uses the padding generator without sending a chunk, which `AuthStream.AuthenticationWriter.Seal` states; no round trip holds after it.
- Additional data of AEADs, real ciphers and real randomness: the AEAD is an abstract inverse pair and draws are parameters.
- `MuxServer.Serve`: links of readable frames; that the table is closed is a choice of the surroundings at each New frame, since the timer that closes it is not modelled.
- `MuxSessions.Writer.WriteFrame`: records the frame as a value; `MuxLink.SendFrame` serialises it. What a session does after an address was refused is not modelled.
- `MuxLink.Deliveries`: jobs have addresses that can be sent and metadata of at most 512 bytes, as the receiver demands.
- `MuxServer.ServerWorker.HandleXudp`: whether `xudpEstablish` (modelled in `MuxXudp`) establishes the flow is a parameter, and a session it replaces is one that closes from its own side.
- `MuxServer.ServerWorker.HandleNew`: sessions of reverse connections are opened like any other; routing and access logging are not modelled.
- `MuxXudp.Exclusion`: entries, sessions and calls are values indexed by number rather than heap objects, because steps of many goroutines interleave; the datagram itself and the pipes are not part of the state, only the link a session carries.
- `DnsLookup.SingleFamilyServed`: time is an integer number of nanoseconds and the time to live an unbounded integer; rounding of 64-bit floating-point seconds and 32-bit overflow of times to live are not modelled.
- `DnsCache.StepRefines`: the shrink ratio 0.65 is compared exactly rather than in floating point; the view does not depend on it.
- Grace periods of 2^31 seconds or more, whose stored value changes sign: `DnsLookup.RemovalObserved` asks for a stored value of at most zero.
- DNS transports, message parsing, subscription channels, request merging and `sortClients`: replies are given, and the order of clients is a parameter.
- Wrapped errors: errors of name servers wrap nothing; plain ones are compared as values, and combined ones, which Go does not compare, are never the same.
- `IpSets.CreateFrom`: the normal form of a prefix set and rule loading are given; a set is its list of prefixes.
- `IpMultiMatcher.Ensure` and `IpMultiFilter.EnsureShelf`: each missing view is built in a pass of its own rather than all in one pass; addresses in the precise view are buckets of one.
- `Replay.ReplayRejected`: nothing is claimed for a clock that goes back.
- `ReadMultiBuffer` on sources that return data together with an error; `MultiBuffer.Copy`, `MergeMulti`, `BufferedWriter`, the LRU cache, port-last address parsing: they would only add easy members, or no conservation law fits them.
- `SessionManager` Add, Get, Close and CloseIfNoSessionAndIdle: bookkeeping beside Allocate and Remove.
- Feature injection, routing conditions, configuration, logging and metrics.
