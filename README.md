# Length-prefixed framing over a byte stream

A Dafny model of `tcpRW.go`, a Go package that sends and receives discrete
messages over a stream connection. A frame is a 4-byte big-endian unsigned
length followed by that many payload bytes. Payloads are limited to
`MAX_DATA_SIZE` = 4967295 bytes.

- `Write(wr, data)` refuses an oversized payload and does nothing for an empty
  one. Otherwise it makes one `wr.Write` call with prefix and payload, and
  reports a writer error as `(0, err)` and a short count as `(n, error)`.
- `Read(rd, buffer)` reads the prefix with one `rd.Read` call. It then checks,
  in order: a zero length is end of stream, an oversized length is refused,
  and a buffer capacity below the length is refused. A buffer shorter than the
  length is re-sliced to twice the length. The payload is then gathered in a
  loop until it is complete or a call fails; any failure returns 0.

The model has four modules:

- `BigEndian` (big_endian.dfy): the 4-byte encoding and its round trip.
- `Streams` (streams.dfy): the `io.Reader` and `io.Writer` the code is handed.
  - Each is a class. A reader holds the bytes the peer will send, a position,
    and a script saying how many bytes each call hands over and which error it
    reports.
  - A writer holds the bytes it has accepted and a script of the same kind.
  - With an empty script each behaves like `bytes.Buffer`.
  - The functions `NextRead` and `NextWrite` specify one call.
- `TcpRW` (tcp_rw.dfy): `Write` and `Read` as methods over those classes and
  over an `array` that is the caller's buffer.
  - The array's length is the slice's capacity. The slice's length is a
    separate parameter.
  - Each method is proved to equal a specification function: `WriteSpec` or
    `ReadSpec`.
  - The payload loop is proved against `Fill`, a recursive function that
    gathers bytes until enough have arrived or a call fails.
- `TcpRWProperties` (tcp_rw_properties.dfy): the guards, the loop's outcome
  and the write-then-read round trip, as lemmas over the specification
  functions. `TcpRWFindings` (tcp_rw_findings.dfy) holds the two discrepancies
  below and a corrected reading.

A Go panic, from the re-slice `buffer[:lenData*2]` going past the capacity, is
the outcome `Panicked`. Bytes `Read` copies past `len(buffer)` within its
capacity are visible in the array, as they are in Go's backing array.

## Model

| member | source | states |
|---|---|---|
| `BigEndian.DecodeUint32` | tcpRW.go:23 | the decoded length is below 2^32, its top byte is the first byte and its low byte the last |
| `BigEndian.EncodeUint32` | tcpRW.go:69 | `PutUint32` produces four bytes that decode back to the length |
| `BigEndian.EncodeDecode` | tcpRW.go:23 | encoding the decoded value gives back the same four bytes: the prefix has no slack |
| `BigEndian.DecodeInjective` | tcpRW.go:23 | two prefixes decode to the same length exactly when they are the same bytes |
| `BigEndian.DecodeZero` | tcpRW.go:24 | the length is zero exactly when all four prefix bytes are zero |
| `Streams.NextRead` | tcpRW.go:43 | one `Read` call hands over at most the bytes asked for and at most those still to arrive; its bytes are the next ones of the stream; a scripted call reports exactly its step's error, so it may return `(0, nil)` even on a drained stream; past the script, a drained `bytes.Buffer` asked for bytes reports `io.EOF` and otherwise never returns 0 bytes without an error |
| `Streams.Reader.Read` | tcpRW.go:43 | a call into `p[lo:hi]` writes the bytes it hands over at `p[lo..]` and leaves the rest of `p` unchanged; the reader advances by exactly that count |
| `Streams.NextWrite` | tcpRW.go:74 | one `Write` call accepts a prefix of what it is given, appended to what the writer already holds; a `bytes.Buffer` accepts all without error |
| `Streams.Writer.Write` | tcpRW.go:74 | the writer's state after a call is the one `NextWrite` specifies |
| `TcpRW.Propagate` | tcpRW.go:18-19 | a transport error is returned as it is: `EOF` exactly when the transport reported end of stream, and any other failure with its own code |
| `TcpRW.PayloadError` | tcpRW.go:45-50 | an error during the payload is an incomplete frame exactly when it is end of stream; any other failure is a wrapped read error with the same code |
| `TcpRW.Frame` | tcpRW.go:66-72 | a frame is `4 + len(data)` bytes, its first four decode to `len(data)` and the rest are `data` |
| `TcpRW.PutUint32` | tcpRW.go:69 | the four array cells hold the big-endian encoding of the value |
| `TcpRW.WriteSpec` | tcpRW.go:57-83 | an error comes with the count 0, except a short write, which reports the writer's count, below `4 + len(data)`; success on an empty payload writes nothing and returns 0; success otherwise means a payload within `MAX_DATA_SIZE`, the count `4 + len(data)` and the whole frame appended to the writer |
| `TcpRW.Write` | tcpRW.go:57-83 | the count, the error and the writer's new state are those of `WriteSpec` |
| `TcpRW.Zeros` | tcpRW.go:14 | `make([]byte, 4)` holds four zero bytes |
| `TcpRW.Fill` | tcpRW.go:41-52 | the payload loop gathers at most the bytes asked for and at most those still to arrive, consumes exactly the bytes it gathers, and gathers all of them unless a call fails |
| `TcpRW.FillAdvance` | tcpRW.go:42-51 | one turn of the loop: what the whole loop gathers is what came before, this call's bytes, then what the later turns gather; it stops at this call if this call failed |
| `TcpRW.PrefixValue` | tcpRW.go:14-23 | the length the prefix read yields is the decoding of the four bytes when all four arrived |
| `TcpRW.ReadPrefix` | tcpRW.go:14-23 | one call into a zeroed four-byte array; its error is the call's error, and its length is the decoding of the bytes that arrived padded with zeros |
| `TcpRW.ReadMore` | tcpRW.go:43-44 | one turn of the loop advances `reqLen` by the call's count; the buffer then holds the first `reqLen` payload bytes and is otherwise unchanged |
| `TcpRW.ReadPayload` | tcpRW.go:41-52 | the loop ends with the count and error `Fill` specifies, and `buffer[0:reqLen]` holds exactly the bytes that arrived |
| `TcpRW.ReadSpec` | tcpRW.go:12-54 | for every reader and buffer: an error comes with the count 0; a success returns the length the prefix declared, which is in `1..MAX_DATA_SIZE` and within the capacity, with the payload being exactly the bytes after the prefix and nothing further consumed; the buffer is never written past its capacity |
| `TcpRW.Read` | tcpRW.go:13-54 | outcome and reader state are those of `ReadSpec`; the buffer differs from before only in its first bytes, which hold what `ReadSpec` says arrived |
| `TcpRWProperties.WriteRejectsOversized` | tcpRW.go:58-60 | a payload over `MAX_DATA_SIZE` yields `(0, too large)` and the writer receives nothing |
| `TcpRWProperties.WriteEmptyIsNoOp` | tcpRW.go:62-64 | an empty payload yields `(0, nil)` and the writer receives nothing |
| `TcpRWProperties.WriteSendsPrefixOfFrame` | tcpRW.go:66-74 | whatever the writer does, what it receives is a prefix of the frame (length prefix, then payload) and nothing else |
| `TcpRWProperties.WriteSuccess` | tcpRW.go:74-82 | `Write` succeeds exactly when the writer took the whole frame without error, and then it returns `4 + len(data)` and the writer holds the prefix and the payload |
| `TcpRWProperties.WriteShortCount` | tcpRW.go:79-81 | a writer accepting part of the frame without error makes `Write` return that count (not 0) with a short-write error naming both counts |
| `TcpRWProperties.WriteWriterError` | tcpRW.go:74-77 | a writer error makes `Write` return 0 and that error |
| `TcpRWProperties.WriteToBuffer` | tcpRW_test.go:137-156 | into a `bytes.Buffer`, a valid payload is written whole: the count is `4 + len(data)` and the buffer ends with the frame |
| `TcpRWProperties.FillDelivers` | tcpRW.go:41-53 | with no failing call and the bytes present, the loop gathers exactly the length asked for, however the reader splits it |
| `TcpRWProperties.FillTruncated` | tcpRW.go:42-49 | from a `bytes.Buffer` holding fewer bytes than asked for, the loop takes all of them and ends with end of stream |
| `TcpRWProperties.ReadPropagatesFirstError` | tcpRW.go:17-20 | an error on the prefix read is returned with count 0, unchanged, before any payload is read (`EOF` exactly for end of stream) |
| `TcpRWProperties.ReadFromEmptyBuffer` | tcpRW_test.go:66-77 | reading from an empty `bytes.Buffer` returns `(0, io.EOF)` |
| `TcpRWProperties.PrefixWhole` | tcpRW.go:17-23 | when the first call hands over four bytes, the length is the decoding of the next four bytes of the stream |
| `TcpRWProperties.ReadGuards` | tcpRW.go:23-34 | with a whole prefix declaring `L`: 0 is end of stream; over `MAX_DATA_SIZE` is too large, checked before the capacity; a capacity below `L` is too small, naming `L`; in each case only the prefix was consumed and the buffer is untouched |
| `TcpRWProperties.ReadZeroPrefix` | tcpRW.go:24-26 | a prefix of four zero bytes returns `(0, io.EOF)` |
| `TcpRWProperties.ReadWholeFrame` | tcpRW.go:41-53 | a frame on the stream, read by a reader that reports no error and hands over the prefix in one call, into a buffer that is large enough, returns `(len(data), nil)`; the buffer starts with the payload and the reader ends just past the frame, still error-free (a `bytes.Buffer` still a `bytes.Buffer`) |
| `TcpRWProperties.ReadTruncatedFrame` | tcpRW.go:41-50 | a frame cut short on a `bytes.Buffer` returns 0 with an incomplete-frame error, after copying the bytes that did arrive and draining the stream |
| `TcpRWProperties.ReadPayloadErrorFails` | tcpRW.go:41-53 | for every reader: once the guards pass, any error in the payload loop makes `Read` return 0 and the wrapped error, even if the failing call delivered the final bytes; the buffer keeps the bytes that arrived and the reader stops after the failing call |
| `TcpRWProperties.ReadErrorWithFinalBytes` | tcpRW.go:43-50 | an example of that with one chunking: the prefix in one call, then the whole payload with an error in the next; `Read` returns 0 and the error though the buffer holds the whole payload |
| `TcpRWProperties.RoundTrip` | tcpRW.go:13-83 | what `Write` puts into a `bytes.Buffer`, `Read` returns: `(len(data), nil)` with the payload in the buffer, and the reader ends where the frame ends |
| `TcpRWProperties.TwoWrites` | tcpRW.go:57-83 | two writes into a `bytes.Buffer` leave the two frames one after the other |
| `TcpRWProperties.TwoReads` | tcpRW.go:13-54 | two reads from a `bytes.Buffer` holding two frames return the first payload and then the second, and drain it |
| `TcpRWProperties.FramesInOrder` | tcpRW.go:13-83 | frames come out in the order they went in: two writes followed by two reads give back both payloads, in order, each with its own length |
| `TcpRWProperties.EmptyWriteThenRead` | tcpRW_test.go:79-93 | an empty write leaves nothing on the stream, so the next read sees end of stream |
| `TcpRWFindings.OneByteFirstReadIsEof` | tcpRW.go:17-23 | a reader whose first call hands over one byte makes every valid frame read as `(0, io.EOF)` |
| `TcpRWFindings.ShortBufferPanics` | tcpRW.go:36-39 | a whole frame of length `L`, read into a buffer with `len < L <= cap < 2L`, panics |
| `TcpRWFindings.ReadCorrected` | tcpRW.go:13-54 | the intended reading never panics, and a success returns a length in `1..MAX_DATA_SIZE` that fits the capacity, whose value is the decoded four-byte prefix, and the payload is exactly the bytes after it, the reader stopping at the frame's end; an error from any call gathering the prefix ends the read with that error as it is, count 0 and the buffer untouched |
| `TcpRWFindings.CorrectedReadTolerant` | tcpRW.go:13-54 | with the correction, a reader that reports no error delivers every frame whole into any buffer whose capacity holds it, however it splits the bytes |
| `TcpRWFindings.CorrectedAgreesOtherwise` | tcpRW.go:13-54 | the correction changes nothing when the first call hands over the whole prefix or reports an error, and the code as written does not panic; so the two readings differ only on the two inputs of the Findings table |
| `TcpRWFindings.PrefixWithErrorKept` | tcpRW.go:17-20 | four prefix bytes, or two, arriving together with `io.EOF` read as end of stream in both readings: the corrected reading does not drop that error |
| `TcpRWFindings.CorrectedRoundTrip` | tcpRW.go:13-83 | with the correction, the write-then-read round trip holds for every reader that reports no error and every buffer whose capacity holds the payload |

## Left out

- Real I/O and the network: readers and writers are the scripted classes in
  `Streams`, so timing, blocking and connection state are not modelled.
- Error message text: `fmt.Errorf` and `errors.New` messages are not
  modelled. Each error is a constructor of `FrameError` carrying the numbers
  the message would show. A transport error other than end of stream is a
  `Fault` code, and the wrapping at tcpRW.go:47 becomes `ReadError(code)`.
- Go's integer widths: no conversion can overflow here.
  - `uint32(len(data))` is applied only to lengths of at most `MAX_DATA_SIZE`.
  - `lenData*2` is a `uint32` product of a length of at most `MAX_DATA_SIZE`,
    which is below 2^31.
  - So lengths are unbounded `nat`s.
- The caller's slice header: Go passes `buffer` by value, so the caller never
  sees the re-sliced length. The model keeps only the backing array and the
  caller's length.
- Concurrency: two goroutines sharing one reader or writer are not modelled.
  The code takes no locks.
- `Streams.Reader.Read`: a scripted call cannot hand over more bytes than it
  was asked for, and never panics or blocks. Readers that break the
  `io.Reader` contract in those ways are not modelled.
- `Streams.Reader.Read`: the script is finite, and past it the reader always
  hands over bytes or fails. A reader returning `(0, nil)` forever is not
  modelled, so `Fill` and the payload loop always terminate. In the source the
  loop at tcpRW.go:42-52 has no guard against such a reader and would spin
  forever. That is a limitation of the source. Finitely many `(0, nil)` calls
  are modelled as script steps `Step(0, None)`, also on a drained stream.
- `Streams.NextWrite`: a writer's reported count is capped at the bytes it
  was given. A writer reporting more bytes than it was given (which breaks
  the `io.Writer` contract) is not modelled. The check at tcpRW.go:79-81
  would report it as a short write with the larger count. So
  `TcpRW.WriteSpec`'s bound of a short count below `4 + len(data)` holds only
  for writers that keep that contract.
- `Streams.Reader.Read`: a call leaves `p` untouched outside the bytes it hands
  over. The `io.Reader` contract lets `Read` use all of `p` as scratch space.
  Two results rest on this guarantee, which Go does not give: the zeros
  behind a short prefix read (`TcpRW.PrefixValue`, on which finding 1's exact
  outcome depends), and the buffer contents after a failed payload read.

## Findings

| source | as written | input that shows it | evidently intended | confidence | as-written member | corrected member |
|---|---|---|---|---|---|---|
| tcpRW.go:17-20 | the prefix is read with one `rd.Read(nBytes)` whose count is ignored; the bytes that did not arrive stay zero and are decoded as part of the length | a valid frame whose reader hands over 1 byte in its first call (a stream reader may return fewer bytes than asked): the first prefix byte is always 0 because `MAX_DATA_SIZE` < 2^24, so the length reads as 0 and `Read` returns `(0, io.EOF)` | read the prefix until all four bytes arrive or a call fails | high; not executed | `TcpRWFindings.OneByteFirstReadIsEof` | `TcpRWFindings.CorrectedReadTolerant` |
| tcpRW.go:36-39 | a buffer shorter than the length `L` is re-sliced to `buffer[:L*2]` | `Read` of a 16-byte frame into `make([]byte, 0, 16)`: the capacity check accepts it, then the re-slice to 32 exceeds the capacity and panics | read the payload into `buffer[:L]`, which the capacity check has shown to exist | high; not executed | `TcpRWFindings.ShortBufferPanics` | `TcpRWFindings.ReadCorrected` |

`TcpRWFindings.ReadCorrected` is the corrected reading. It fixes both rows.
`CorrectedReadTolerant` and `CorrectedRoundTrip` prove the intended
properties about it: no panic, tolerance of any chunking, and the round trip
for every error-free reader. `CorrectedAgreesOtherwise` proves that it matches
the code as written whenever the first call hands over the whole prefix or
reports an error, and the code does not panic. So it differs only on the
two inputs of the table: a first call that hands over fewer than four bytes
without an error, and the re-slice panic. `TcpRW.Read` and
`TcpRW.ReadSpec` model the code as written.
