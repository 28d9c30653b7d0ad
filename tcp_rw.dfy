/** Length-prefixed framing over a byte stream (`tcpRW.go`). A frame is a
    4-byte big-endian length followed by that many payload bytes. `Write`
    sends one frame per call, `Read` receives one frame per call into a
    buffer the caller owns. Each operation is a method over the stream
    objects, proved equal to a specification function (`WriteSpec`,
    `ReadSpec`); the properties are lemmas about those functions. */
module TcpRW {
  import opened Wrappers
  import opened BigEndian
  import opened Streams

  /** The largest payload either side accepts (`MAX_DATA_SIZE`). It is
      below 2^24, so the first byte of every valid prefix is 0. */
  const MaxDataSize: nat := 4967295

  /** The errors `Read` and `Write` return. `EOF` is Go's `io.EOF`, whether
      it comes from a zero prefix or straight from the reader; `Underlying`
      is any other transport error handed back unchanged; `ReadError` is a
      transport error met while reading the payload, wrapped. */
  datatype FrameError =
    | EOF
    | Underlying(code: nat)
    | TooLarge
    | BufferTooSmall(declared: nat)
    | IncompleteFrame
    | ReadError(code: nat)
    | ShortWrite(intended: nat, actual: nat)

  /** A transport error returned as it is. */
  function Propagate(e: IoError): (f: FrameError)
    ensures f == EOF <==> e == Eof
    ensures e.Fault? ==> f == Underlying(e.code)
  {
    match e
    case Eof => EOF
    case Fault(c) => Underlying(c)
  }

  /** A transport error met while reading the payload: end of stream means
      the frame was cut short, anything else is wrapped. */
  function PayloadError(e: IoError): (f: FrameError)
    ensures f == IncompleteFrame <==> e == Eof
    ensures e.Fault? ==> f == ReadError(e.code)
  {
    match e
    case Eof => IncompleteFrame
    case Fault(c) => ReadError(c)
  }

  /** How a call to `Read` ends: it returns `(n, err)`, or the Go runtime
      panics (a slice expression out of range). */
  datatype Outcome = Returned(n: nat, err: Option<FrameError>) | Panicked

  // ---------------------------------------------------------------------
  // Encoder

  /** The bytes of one frame on the wire. */
  function Frame(data: seq<Byte>): (f: seq<Byte>)
    requires |data| < Two32
    ensures |f| == 4 + |data| && f[4..] == data
    ensures DecodeUint32(f[..4]) == |data|
  {
    EncodeUint32(|data|) + data
  }

  /** What `Write` returns and the writer's state after it. */
  datatype WriteResult = WriteResult(n: nat, err: Option<FrameError>, rest: Sink)

  /** The specification of `Write`. On an error the count is 0, except for
      a short write, which reports the count the writer gave; a success
      has written the whole frame, or nothing for an empty payload. */
  function WriteSpec(w: Sink, data: seq<Byte>): (r: WriteResult)
    ensures r.err.Some? && r.n != 0 ==> r.err == Some(ShortWrite(4 + |data|, r.n)) && r.n < 4 + |data|
    ensures r.err.None? && |data| == 0 ==> r.n == 0 && r.rest == w
    ensures r.err.None? && |data| > 0 ==>
              |data| <= MaxDataSize && r.n == 4 + |data| &&
              r.rest.written == w.written + Frame(data)
  {
    if |data| > MaxDataSize then WriteResult(0, Some(TooLarge), w)
    else if |data| == 0 then WriteResult(0, None, w)
    else
      var msg := Frame(data);
      var a := NextWrite(w, msg);
      if a.err.Some? then WriteResult(0, Some(Propagate(a.err.value)), a.rest)
      else if a.n != |msg| then WriteResult(a.n, Some(ShortWrite(|msg|, a.n)), a.rest)
      else WriteResult(a.n, None, a.rest)
  }

  /** `binary.BigEndian.PutUint32(b, v)`. */
  method PutUint32(b: array<Byte>, v: nat)
    requires b.Length == 4 && v < Two32
    modifies b
    ensures b[..] == EncodeUint32(v)
  {
    var r0 := v % 0x100_0000;
    var r1 := r0 % 0x1_0000;
    b[0], b[1], b[2], b[3] := v / 0x100_0000, r0 / 0x1_0000, r1 / 0x100, r1 % 0x100;
  }

  /** `Write(wr, data)`: rejects oversized payloads, does nothing for an
      empty one, otherwise issues one write of prefix and payload and checks
      the count the writer reports. */
  method Write(wr: Writer, data: seq<Byte>) returns (n: nat, err: Option<FrameError>)
    modifies wr
    ensures var r := WriteSpec(old(wr.State()), data);
            n == r.n && err == r.err && wr.State() == r.rest
  {
    if |data| > MaxDataSize {
      return 0, Some(TooLarge);
    }
    if |data| == 0 {
      return 0, None;
    }
    var lenMsg := new Byte[4];
    PutUint32(lenMsg, |data|);
    var msg := lenMsg[..] + data;
    var written, werr := wr.Write(msg);
    if werr.Some? {
      return 0, Some(Propagate(werr.value));
    }
    if written != |msg| {
      return written, Some(ShortWrite(|msg|, written));
    }
    return written, None;
  }

  // ---------------------------------------------------------------------
  // Decoder

  /** `k` zero bytes: what `make([]byte, k)` holds. */
  function Zeros(k: nat): (z: seq<Byte>)
    ensures |z| == k && forall i | 0 <= i < k :: z[i] == 0
  {
    seq<Byte>(k, _ => 0)
  }

  /** The result of reading until `want` bytes have arrived or a call
      reports an error: how many arrived (including those of the failing
      call), the error, and the reader's state after. */
  datatype Filled = Filled(n: nat, err: Option<IoError>, rest: Stream)

  /** `f` with `k` bytes arrived before it. */
  function Prepend(k: nat, f: Filled): Filled
  {
    Filled(k + f.n, f.err, f.rest)
  }

  /** The payload loop of `Read`: call the reader for the bytes still
      missing until none are missing, stopping at the first error. What
      arrives is the next stretch of the wire, in order, never more than
      was asked for, and all of it unless a call failed. */
  function Fill(st: Stream, want: nat): (f: Filled)
    ensures f.n <= want && f.n <= st.Available()
    ensures f.rest.wire == st.wire && f.rest.pos == st.pos + f.n
    ensures f.err.None? ==> f.n == want
    decreases |st.script|, want
  {
    if want == 0 then Filled(0, None, st)
    else
      var c := NextRead(st, want);
      if c.err.Some? then Filled(c.n, c.err, c.rest)
      else Prepend(c.n, Fill(c.rest, want - c.n))
  }

  /** One turn of the payload loop, seen from the loop: when `k` of `total`
      bytes have arrived, what the whole loop gathers is what came so far,
      then this call's bytes, then what the rest gathers, unless this call
      failed. */
  lemma FillAdvance(whole: Filled, total: nat, k: nat, rs: Stream, k2: nat)
    requires k < total && whole == Prepend(k, Fill(rs, total - k))
    requires k2 == k + NextRead(rs, total - k).n
    ensures var c := NextRead(rs, total - k);
            if c.err.Some? then whole == Filled(k2, c.err, c.rest)
            else whole == Prepend(k2, Fill(c.rest, total - k2))
  {
  }

  /** What `Read` does and the reader's state after it; `got` is what it
      wrote at the start of the caller's buffer. */
  datatype ReadResult = ReadResult(out: Outcome, got: seq<Byte>, rest: Stream)

  /** The length the prefix read yields: the bytes that arrived, with the
      ones that did not left as the zeros `make` put there. */
  function PrefixValue(b: seq<Byte>): (v: nat)
    requires |b| <= 4
    ensures |b| == 4 ==> v == DecodeUint32(b)
  {
    DecodeUint32(b + Zeros(4 - |b|))
  }

  /** A zeroed array after a read of `d` into its start. */
  lemma SpliceZeros(d: seq<Byte>)
    requires |d| <= 4
    ensures Splice(Zeros(4), 0, d) == d + Zeros(4 - |d|)
  {
    assert Splice(Zeros(4), 0, d)[..] == (d + Zeros(4 - |d|))[..];
  }

  /** The specification of `Read` on a buffer of length `len` and capacity
      `cap`. An error always comes with the count 0; a success reports the
      length the prefix declared, which is within the limits, and the
      payload is the bytes right after the prefix, nothing more consumed. */
  function ReadSpec(st: Stream, len: nat, cap: nat): (r: ReadResult)
    ensures r.rest.wire == st.wire && |r.got| <= cap
    ensures r.out.Returned? && r.out.err.Some? ==> r.out.n == 0
    ensures r.out.Returned? && r.out.err.None? ==>
              var p := NextRead(st, 4);
              p.err.None? && r.out.n == PrefixValue(Next(st, p.n)) &&
              0 < r.out.n <= MaxDataSize && r.out.n <= cap &&
              r.out.n <= p.rest.Available() && r.got == Next(p.rest, r.out.n) &&
              r.rest.pos == st.pos + p.n + r.out.n
  {
    var p := NextRead(st, 4);
    if p.err.Some? then ReadResult(Returned(0, Some(Propagate(p.err.value))), [], p.rest)
    else
      var lenData := PrefixValue(Next(st, p.n));
      if lenData == 0 then ReadResult(Returned(0, Some(EOF)), [], p.rest)
      else if lenData > MaxDataSize then ReadResult(Returned(0, Some(TooLarge)), [], p.rest)
      else if cap < lenData then ReadResult(Returned(0, Some(BufferTooSmall(lenData))), [], p.rest)
      else if len < lenData && cap < 2 * lenData then ReadResult(Panicked, [], p.rest)
      else
        var f := Fill(p.rest, lenData);
        var got := Next(p.rest, f.n);
        if f.err.Some? then ReadResult(Returned(0, Some(PayloadError(f.err.value))), got, f.rest)
        else ReadResult(Returned(lenData, None), got, f.rest)
  }

  /** One turn of the payload loop, `rd.Read(buffer[reqLen:lenData])`:
      when the buffer holds the first `reqLen` bytes of the payload, it
      afterwards holds the first `reqLen + tempLen`. */
  method ReadMore(rd: Reader, buffer: array<Byte>, reqLen: nat, lenData: nat, ghost b0: seq<Byte>, ghost st: Stream)
    returns (newLen: nat, e: Option<IoError>)
    requires reqLen < lenData <= buffer.Length && reqLen <= st.Available()
    requires rd.State().wire == st.wire && rd.State().pos == st.pos + reqLen
    requires |b0| == buffer.Length && buffer[..] == Splice(b0, 0, Next(st, reqLen))
    modifies rd, buffer
    ensures var c := NextRead(old(rd.State()), lenData - reqLen);
            newLen == reqLen + c.n && e == c.err && rd.State() == c.rest
    ensures newLen <= st.Available()
    ensures buffer[..] == Splice(b0, 0, Next(st, newLen))
  {
    ghost var rs := rd.State();
    var tempLen;
    tempLen, e := rd.Read(buffer, reqLen, lenData);
    SpliceAdvance(b0, st, reqLen, rs, tempLen);
    newLen := reqLen + tempLen;
  }

  /** The payload loop of `Read`: it reads into `buffer[reqLen:lenData]`
      until `reqLen` reaches `lenData` or a call fails, and reports how far
      it got and the error. */
  method ReadPayload(rd: Reader, buffer: array<Byte>, lenData: nat) returns (reqLen: nat, err: Option<IoError>)
    requires lenData <= buffer.Length
    modifies rd, buffer
    ensures var f := Fill(old(rd.State()), lenData);
            reqLen == f.n && err == f.err && rd.State() == f.rest &&
            buffer[..] == Splice(old(buffer[..]), 0, Next(old(rd.State()), f.n))
  {
    ghost var st := rd.State();
    ghost var b0 := buffer[..];
    ghost var rest := st;
    SpliceNothing(b0, 0);
    reqLen := 0;
    while reqLen < lenData
      invariant reqLen <= lenData && reqLen <= st.Available()
      invariant rest.wire == st.wire && rest.pos == st.pos + reqLen
      invariant rd.State() == rest
      invariant buffer[..] == Splice(b0, 0, Next(st, reqLen))
      invariant Fill(st, lenData) == Prepend(reqLen, Fill(rest, lenData - reqLen))
      decreases |rest.script|, lenData - reqLen
    {
      var newLen, e := ReadMore(rd, buffer, reqLen, lenData, b0, st);
      ghost var c := NextRead(rest, lenData - reqLen);
      FillAdvance(Fill(st, lenData), lenData, reqLen, rest, newLen);
      reqLen := newLen;
      rest := c.rest;
      if e.Some? {
        return reqLen, e;
      }
    }
    return reqLen, None;
  }

  /** The prefix read of `Read`: one call into a zeroed four-byte array,
      decoded big-endian whatever number of bytes arrived. */
  method ReadPrefix(rd: Reader) returns (lenData: nat, err: Option<IoError>)
    modifies rd
    ensures var p := NextRead(old(rd.State()), 4);
            err == p.err && rd.State() == p.rest && lenData == PrefixValue(Next(old(rd.State()), p.n))
  {
    var nBytes := new Byte[4](_ => 0);
    ghost var zero := nBytes[..];
    assert zero == Zeros(4);
    ghost var s0 := rd.State();
    var n, e := rd.Read(nBytes, 0, 4);
    SpliceZeros(Next(s0, n));
    lenData, err := DecodeUint32(nBytes[..]), e;
  }

  /** `Read(rd, buffer)` for a buffer whose backing array is `buffer`
      (so its capacity is `buffer.Length`) and whose length is `len`. */
  method Read(rd: Reader, buffer: array<Byte>, len: nat) returns (out: Outcome)
    requires len <= buffer.Length
    modifies rd, buffer
    ensures var r := ReadSpec(old(rd.State()), len, buffer.Length);
            out == r.out && rd.State() == r.rest && |r.got| <= buffer.Length &&
            buffer[..] == Splice(old(buffer[..]), 0, r.got)
  {
    var lenData, err := ReadPrefix(rd);
    if err.Some? {
      return Returned(0, Some(Propagate(err.value)));
    }
    if lenData == 0 {
      return Returned(0, Some(EOF));
    }
    if lenData > MaxDataSize {
      return Returned(0, Some(TooLarge));
    }
    if buffer.Length < lenData {
      return Returned(0, Some(BufferTooSmall(lenData)));
    }
    // `buffer = buffer[:lenData*2]`: only the bound check is observable,
    // since the payload loop slices up to `lenData` either way.
    if len < lenData && buffer.Length < lenData * 2 {
      return Panicked;
    }

    var reqLen, perr := ReadPayload(rd, buffer, lenData);
    if perr.Some? {
      return Returned(0, Some(PayloadError(perr.value)));
    }
    return Returned(reqLen, None);
  }
}
