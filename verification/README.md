# TFTP protocol engine (layer8co/tftp, `server.go`)

This project models the protocol engine of a small TFTP server written in Go (RFC 1350, lock-step variant) and proves properties of it in Dafny 4.11. The network is taken out. Datagrams, timeouts and I/O failures become abstract input events, and every part of the engine is a pure function over them:

- **Dispatcher** (`Serve`, module `Server`). It applies the configuration defaults (10 retries, a 4-second timeout) and refuses a nil connection or a nil payload before reading anything. It then classifies each datagram on the listener as a read request, a write request or junk, and applies the `ReadAllowed` / `WriteAllowed` policy. Its output is a list of effects: a reply on the listener, "spawn a read session", "spawn a write session", or a "bad request" log line.
- **Read session** (`handleRead`, module `ReadSession`). A stop-and-wait sender. The state is the block number (uint16, wrapping), the payload offset of the current block, the retries left, and the phase. One step is one iteration of the Go retry loop: write the current Data datagram, then observe one of `Timeout`, `AckRecv(b)`, `ErrRecv`, `Garbage`, `ReadFailure` or `WriteFailure`. `handleRead` serves `s.Payload` (server.go:113) whatever file the ReadReq names. The filename is only logged (server.go:100), so the request carried by `Server.SpawnRead` is read by no session.
- **Write session** (`handleWrite`, module `WriteSession`). A receiver. It sends Ack(0) and then, for each datagram, appends the payload to the file (a byte sequence) and acks the block number it carried. It stops after the first datagram shorter than 516 bytes. Unlike the read session, it sets no read deadline (server.go:213-219), so a silent client keeps it waiting forever. The model keeps this asymmetry: the write session has no timeout event, and a silent client shows up as the events running out while the session is still receiving.
- **Whole transfers** (module `Transfer`). The client loop of the repository's read test is driven in lock step against the read session. An upload framed like a read transfer is fed to the write session.

The packet codec is not part of this model. Packets are an abstract tagged datatype (`Packets.Packet`). Two facts about it are assumed, because server.go depends on them:

- `Data.MarshalBinary` increments `Block` as a uint16 and takes the next at most 512 bytes of the payload reader. Once the reader is exhausted it still yields a Data packet with an empty payload rather than an error. This is assumed, not derived: the loop at server.go:117-118 relies on it when the length is a multiple of 512, since only a short datagram ends that loop. The trailing empty piece of `Packets.Split` (and the count in `Packets.SplitLength`) depends on this assumption.
- `Data.UnmarshalBinary`, applied to the whole 516-byte receive buffer, exposes the 512 bytes after the header as the payload reader. `handleWrite` keeps the first `n - 4` of them (server.go:235-242). This is why `WriteSession.Tail` has exactly 512 bytes.

Where the protocol design and the code differ, the model follows the code:

- **Stale Acks.** An Ack for another block is not simply ignored while the session keeps waiting. The code falls out of the `switch`, spends a retry and retransmits the current block (server.go:144-159). `ReadSession.Retransmits` lists these events.
- **Refused requests.** A refused request is not followed by `continue`. After sending the IllegalOp error, the dispatcher still tries the next decoding and finally logs "bad request" (server.go:72-94). `Server.Dispatch` keeps this fall-through.
- **Write path.** The file is created from the request's filename. `WriteDir` is not used (server.go:199). Ack(0) goes out before the file is created (server.go:186-203).

## Model

| member | source | states |
|---|---|---|
| `Packets.NextBlock` | server.go:117-119 | Advancing a uint16 block number always changes it. It wraps from 65535 to 0 and otherwise adds one. |
| `Packets.Chunk` | server.go:113-119 | One marshalled Data block is the run of at most 512 payload bytes at the reader's position. It is shorter than 512 exactly when fewer than 512 bytes remain, and then it reaches the end of the payload. |
| `Packets.SplitLength` | server.go:117-118 | A payload of length L is framed into L / 512 + 1 Data payloads, so a multiple of 512 (including 0) gets a trailing empty block. |
| `Packets.SplitChunk` | server.go:113-119 | Piece j of the reference framing is what the reader hands out at offset 512·j. |
| `Packets.SplitShape` | server.go:117-118 | Every framed piece but the last is a full 512 bytes and the last is shorter, which is the only end-of-transfer signal. |
| `Packets.ConcatSplit` | server_test.go:84-112 | Concatenating the framed pieces in order gives back the payload byte for byte. |
| `Server.StartServe` | server.go:46-61 | A nil connection is refused first, then a nil payload. Otherwise a zero retry count becomes 10 and a zero timeout becomes 4 s, and every other field is left unchanged. |
| `Server.StartServeIdempotent` | server.go:55-61 | The defaults only replace zero fields: applying them twice equals applying them once, and a configuration without zeros is kept as it is. |
| `Server.Dispatch` | server.go:72-95 | A datagram with one opcode that starts a session does nothing else. One that starts no session ends with the "bad request" line. Every reply on the listener is an IllegalOp error. A refused ReadReq is answered first and then handled as if it had not decoded as a ReadReq, because there is no `continue`. |
| `Server.DispatchAgreesWithClassify` | server.go:72-95 | For a datagram with one opcode, the listener's replies and spawned sessions equal a direct opcode switch. An allowed ReadReq/WriteReq starts exactly one session and sends nothing. A refused one sends exactly one `Err{IllegalOp, "… is not allowed"}` and starts nothing. Junk is only logged. |
| `Server.RefusedRequestIsAlsoLogged` | server.go:72-94 | A refused request produces exactly two effects: first the `Err{IllegalOp, "… is not allowed"}` reply for its kind, then the "bad request" log line. |
| `Server.Listen` | server.go:65-96 | The loop returns an error exactly when the listener read fails. Until then its effects are the per-datagram dispatch effects in arrival order. |
| `Server.ListenStopsAtFailure` | server.go:65-70 | Nothing after a failed listener read is dispatched. |
| `Server.Serve` | server.go:46-96 | A refused start produces no effect whatever the listener would deliver. A successful start runs the loop with the defaulted configuration. |
| `Server.NoReadSessionWhenDisallowed` | server.go:72-80 | With reads disabled, no input starts a read session. |
| `Server.NoWriteSessionWhenDisallowed` | server.go:83-91 | With writes disabled, no input starts a write session. |
| `ReadSession.Init` | server.go:110-125 | The first block is numbered 1 and starts at offset 0. A zero retry budget ends the session before anything is sent. |
| `ReadSession.Step` | server.go:125-159 | A failed write ends the session with nothing sent. Every other iteration sends the current block. The block and offset move on only for the Ack of the current block, and only after a full block. The session completes exactly on the Ack of a short block. A peer Err, a write failure and a read failure each end it at once. Timeouts, junk and stale Acks spend one retry and keep the identical datagram; the last retry ends it as exhausted. Validity (offset on a block boundary, block number = ordinal mod 65536) is preserved. |
| `ReadSession.Run` | server.go:117-162 | Running any events keeps the session valid. The offset never moves back, and an ended session sends nothing. |
| `ReadSession.RunQuietAfterEnd` | server.go:140-161 | Once the session has ended, later events change nothing and send nothing. |
| `ReadSession.RunSendsEveryStep` | server.go:117-161 | A session still sending has used every event, and each event wrote exactly one datagram. |
| `ReadSession.ExhaustsRetries` | server.go:125-161 | If `retriesLeft` timeouts, junk replies or stale Acks arrive in a row, the same datagram goes out exactly that many times. The session then ends "exhausted retries" without advancing. |
| `ReadSession.PeerErrorEnds` | server.go:151-154 | An Err reply ends the session with no further transmission and no block advance. |
| `ReadSession.SessionTrace` | server.go:117-163 | Over any events, the datagrams sent, with repeats collapsed, are a prefix of the blocks numbered 1, 2, … mod 65536, each carrying bytes [512(k-1), min(512k, len)). No datagram is sent more than `Retries` times in a row. A completed session has sent all len / 512 + 1 blocks. |
| `WriteSession.Session` | server.go:185-262 | The whole write session: its acks start with Ack(0) exactly when the initial Ack was written, and are empty otherwise. Unless both the Ack and the file creation succeed it consumes no datagram and writes nothing. It never consumes more than it is given, and the guarded loop never panics. |
| `WriteSession.Begin` | server.go:185-203 | Ack(0) is sent first. A failed Ack write ends the session with nothing sent. A failed file creation ends it after Ack(0). Only when both succeed does the session receive. |
| `WriteSession.StepAsWritten` | server.go:213-262 | One iteration as written (a failed file write is taken to write nothing; see "Left out"): it panics exactly on a Data decoding of a datagram shorter than the header. Otherwise it appends the n - 4 bytes the datagram filled. It acks with the datagram's own block number exactly when the payload reached the file and the Ack was written. |
| `WriteSession.Step` | server.go:213-262 | A read failure, an Err packet and an undecodable datagram each end the session. A Data datagram appends its n - 4 bytes and is acked with the block it carried. The loop continues exactly when n = 516 and completes when n < 516. A header-short datagram is refused, so the step never panics. |
| `WriteSession.Run` | server.go:213-262 | A guarded session never reaches a panic, and never consumes more events than it is given. |
| `WriteSession.RunAsWritten` | server.go:213-262 | The loop as written panics only on a header-short Data datagram, and that datagram is the last one it consumes. An ended session consumes nothing more. |
| `WriteSession.RunReadsUntilLast` | server.go:212-262 | The loop reads until the last datagram comes. A session still receiving has consumed every event, and one that ended consumed at least one. Every consumed datagram before the last was a full, stored Data datagram. |
| `WriteSession.FileIsConcatenation` | server.go:213-262 | The file is the in-order concatenation of the payloads of every datagram the session consumed, duplicates and out-of-order blocks included. |
| `WriteSession.CleanUploadCompletes` | server.go:213-262 | Full stored Data datagrams followed by one short one complete the session exactly at the short one, whatever follows. The file receives every payload and each datagram is acked with its own block number. |
| `WriteSession.CompleteOnlyOnCleanUpload` | server.go:213-262 | Conversely, a session completes only if the datagrams it consumed were full stored Data datagrams followed by one short one. |
| `WriteSession.BlockNumbersIgnored` | server.go:228-248 | There is no ordering check: changing the block numbers of the datagrams changes neither the file nor how the session ends. |
| `WriteSession.DuplicateWrittenTwice` | server.go:242-256 | A full (516-byte), stored Data datagram that arrives twice is appended twice and acked twice. A short one would end the session before its copy is read. |
| `WriteSession.EmptyDatagramPanics` | server.go:213-242 | As written, an empty datagram after a full Data block makes `data[:n-4]` panic. |
| `WriteSession.GuardedRunAgrees` | server.go:213-262 | The guarded loop behaves exactly like the code as written on every input without a header-short Data datagram. |
| `Transfer.ClientReceive` | server_test.go:66-108 | One iteration of the test client appends exactly the Data payload to what it has copied and acks the packet's own block number. It stops exactly when the payload is shorter than 512 bytes, that is, when the datagram is shorter than 516. |
| `Transfer.LockstepRead` | server_test.go:66-113 | A lossless exchange between the read session and the test client. Running `ReadSession.Run` on the client's Acks sends exactly the datagrams `sent` and completes. Folding `ClientReceive` over `sent` rebuilds the payload byte for byte and acks every block with its own number. Exactly len / 512 + 1 blocks go out, numbered 1, 2, … mod 65536: all full but the last, which is short. |
| `Transfer.AckedRunCompletes` | server.go:117-163 | With at least one retry, a session whose every datagram is acked with its own block number sends each block of the framing exactly once, in order, and completes with its budget untouched. |
| `Transfer.ClientRun` | server_test.go:66-108 | The test client's loop: once it has stopped it ignores further packets. Its copied bytes and its acks only grow. |
| `Transfer.ClientRebuilds` | server_test.go:66-108 | The test client's loop, fed the read session's framing of any payload, stops on the last block with the payload copied byte for byte and one Ack per block carrying that block's number. |
| `Transfer.FramingShape` | server_test.go:66-108 | The framing the client receives has len / 512 + 1 Data packets numbered 1, 2, … mod 65536, all full but the last, which is short. |
| `Transfer.UploadRoundTrip` | server.go:185-262 | Uploading any content framed like a read transfer completes the write session, whatever follows. The file equals the content, and each block is acked with its own number. The whole session, started with Ack(0) and a created file, sends Ack(0) followed by those acks. |

## Left out

- `ListenAndServe` (server.go:34-44) is socket setup only. The model starts at `Serve`, with "is there a connection" as a boolean.
- Peer addresses: `ReadFrom` returns the sender's address. Replies go back to it with `WriteTo(data, addr)` (server.go:76, 87), and sessions are started for it with `addr.String()` (server.go:78, 89). The model takes every reply and session to concern the datagram's sender and does not represent the address.
- Goroutines: each `go s.handleRead` / `go s.handleWrite` is an effect "spawn a session", and sessions are modelled one at a time. Concurrent writers to the same file are not modelled.
- Sockets and timers: `net.Dial`, `ReadFrom`/`WriteTo`, `Read`/`Write` and `SetReadDeadline` become input events. The timeout is kept only as a configuration value (nanoseconds), never compared with a clock.
- A failing `net.Dial` in either session (server.go:103-107, 170-175) ends the session before anything is sent. It is not a separate state.
- Packet marshalling errors (server.go:119-123, 186-190, 250-254) and the `io.ReadAll` error (server.go:235-240) are taken as impossible. The byte-level codec is not part of this model, so the byte layout of section 5 of RFC 1350 is not verified.
- Files: `os.Create`, `file.Write` and `file.Close` become the byte-sequence sink plus success/failure flags. The close error, which is only logged, is left out.
- All `s.Log` calls are left out except the dispatcher's "bad request" line, which records the fall-through of refused requests.
- The model assumes `s.Log` is non-nil. `Serve` gives `Log` no default (server.go:55-61), and a method call on a nil `Logger` interface panics. `TestReadServer` builds its `TFTPServer` without `Log` (server_test.go:26-31). With that configuration, the log call that opens `handleRead` (server.go:100) panics before the session dials, and the dispatcher's "bad request" line (server.go:94) panics the same way. So the exchange `Transfer.LockstepRead` models is the one the test describes once a logger is set, as cmd/tftp.go:46 does with `log.Default()`.
- cmd/tftp.go (flags, `os.ReadFile`) is a command-line wrapper and is not modelled.
- `WriteSession.StepAsWritten`: a failed `file.Write` is taken to write nothing. `os.File.Write` may have written a prefix of `data[:n-4]` before it reports the error (server.go:242-246). The session then ends either way, so only the bytes left on disk differ.
- `ReadSession.SessionTrace`: a session that ended on a failure says only that what it sent is a prefix of the blocks, not how far it got.

## Findings

| source | as written | input that shows it | evidently intended | confidence | as-written member | corrected member |
|---|---|---|---|---|---|---|
| server.go:242 | `file.Write(data[:n-4])` slices with `n - 4` without checking `n >= 4`. The decode before it looks at the whole 516-byte buffer, whose bytes an empty read leaves unchanged. | One full 516-byte Data datagram, then an empty (0-byte) datagram on the session's connection. The buffer still decodes as the previous Data packet, `n - 4 = -4`, and the slice panics. That panic in a goroutine ends the whole server. | A datagram too short for the 4-byte header is refused like an undecodable one and ends that session only. | medium (depends on the codec decoding the same bytes the same way twice); not executed | `WriteSession.EmptyDatagramPanics` | `WriteSession.Step` |
