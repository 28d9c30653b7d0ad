/** What `Write` and `Read` promise, stated over their specification
    functions `WriteSpec` and `ReadSpec` (which the methods are proved to
    implement): the guards and the error each yields, the bytes a write
    hands over, the payload loop's outcome, and the round trip. */
module TcpRWProperties {
  import opened Wrappers
  import opened BigEndian
  import opened Streams
  import opened TcpRW

  // ---------------------------------------------------------------------
  // Write

  /** An oversized payload is refused before anything reaches the writer. */
  lemma WriteRejectsOversized(w: Sink, data: seq<Byte>)
    requires |data| > MaxDataSize
    ensures WriteSpec(w, data) == WriteResult(0, Some(TooLarge), w)
  {
  }

  /** An empty payload is a no-op: nothing is written and no error. */
  lemma WriteEmptyIsNoOp(w: Sink)
    ensures WriteSpec(w, []) == WriteResult(0, None, w)
  {
  }

  /** Whatever the writer does, what it receives is a prefix of one frame:
      the 4-byte big-endian length of `data` followed by `data`. */
  lemma WriteSendsPrefixOfFrame(w: Sink, data: seq<Byte>)
    requires 0 < |data| <= MaxDataSize
    ensures var r := WriteSpec(w, data);
            exists k | 0 <= k <= 4 + |data| :: r.rest.written == w.written + Frame(data)[..k]
  {
    var a := NextWrite(w, Frame(data));
    assert WriteSpec(w, data).rest.written == w.written + Frame(data)[..a.n];
  }

  /** A write reports success exactly when the whole frame went out, and
      then it reports `4 + len(data)` bytes. */
  lemma WriteSuccess(w: Sink, data: seq<Byte>)
    requires 0 < |data| <= MaxDataSize
    ensures var r := WriteSpec(w, data);
            var a := NextWrite(w, Frame(data));
            r.err.None? <==> a.err.None? && a.n == 4 + |data|
    ensures var r := WriteSpec(w, data);
            r.err.None? ==>
              r.n == 4 + |data| &&
              r.rest.written == w.written + EncodeUint32(|data|) + data
  {
    var a := NextWrite(w, Frame(data));
    assert Frame(data)[..4 + |data|] == EncodeUint32(|data|) + data;
  }

  /** A writer that accepts only part of the frame without an error makes
      `Write` return that count, not 0, with a short-write error. */
  lemma WriteShortCount(w: Sink, data: seq<Byte>)
    requires 0 < |data| <= MaxDataSize
    requires var a := NextWrite(w, Frame(data)); a.err.None? && a.n < 4 + |data|
    ensures var r := WriteSpec(w, data);
            var a := NextWrite(w, Frame(data));
            r.n == a.n && r.err == Some(ShortWrite(4 + |data|, a.n))
  {
  }

  /** A writer error makes `Write` return 0 and that error. */
  lemma WriteWriterError(w: Sink, data: seq<Byte>)
    requires 0 < |data| <= MaxDataSize
    requires NextWrite(w, Frame(data)).err.Some?
    ensures var r := WriteSpec(w, data);
            r.n == 0 && r.err == Some(Propagate(NextWrite(w, Frame(data)).err.value))
  {
  }

  /** Into a `bytes.Buffer`, a valid payload always goes out whole: the
      buffer then ends with the length prefix and the payload. */
  lemma WriteToBuffer(prev: seq<Byte>, data: seq<Byte>)
    requires 0 < |data| <= MaxDataSize
    ensures var r := WriteSpec(Sink(prev, []), data);
            r.n == 4 + |data| && r.err.None? && r.rest == Sink(prev + Frame(data), [])
  {
    assert Frame(data)[..4 + |data|] == Frame(data);
  }

  // ---------------------------------------------------------------------
  // The payload loop

  /** A script without errors stays one after a call. */
  lemma NoFaultsTail(script: seq<Step>)
    requires NoFaults(script)
    ensures NoFaults(Tail(script))
  {
    if script != [] {
      forall i | 0 <= i < |script| - 1
        ensures script[1..][i].err.None?
      {
        assert script[1..][i] == script[i + 1];
      }
    }
  }

  /** When no call fails and the bytes are there, the loop gathers exactly
      the `want` bytes asked for. */
  lemma {:induction false} FillDelivers(st: Stream, want: nat)
    requires NoFaults(st.script) && want <= st.Available()
    ensures Fill(st, want).err.None? && Fill(st, want).n == want
    decreases |st.script|, want
  {
    if want > 0 {
      var c := NextRead(st, want);
      NextReadFaultFree(st, want);
      NoFaultsTail(st.script);
      FillDelivers(c.rest, want - c.n);
    }
  }

  /** The loop leaves a fault-free script fault-free. */
  lemma {:induction false} FillKeepsFaultFree(st: Stream, want: nat)
    requires NoFaults(st.script)
    ensures NoFaults(Fill(st, want).rest.script)
    decreases |st.script|, want
  {
    if want > 0 {
      var c := NextRead(st, want);
      NoFaultsTail(st.script);
      if c.err.None? {
        FillKeepsFaultFree(c.rest, want - c.n);
      }
    }
  }

  /** A `bytes.Buffer` stays one: the loop leaves an empty script empty. */
  lemma {:induction false} FillKeepsUnscripted(st: Stream, want: nat)
    requires st.script == []
    ensures Fill(st, want).rest.script == []
    decreases want
  {
    if want > 0 {
      var c := NextRead(st, want);
      NextReadUnscripted(st, want);
      if c.err.None? {
        FillKeepsUnscripted(c.rest, want - c.n);
      }
    }
  }

  /** From a `bytes.Buffer` holding fewer bytes than asked for, the loop
      gathers all of them and then meets `io.EOF`. */
  lemma {:induction false} FillTruncated(st: Stream, want: nat)
    requires st.script == [] && st.Available() < want
    ensures var f := Fill(st, want);
            f.err == Some(Eof) && f.n == st.Available()
    decreases want
  {
    var c := NextRead(st, want);
    NextReadUnscripted(st, want);
    if c.err.None? {
      FillTruncated(c.rest, want - c.n);
    }
  }

  // ---------------------------------------------------------------------
  // Read

  /** The first read failing ends `Read` with that error, unchanged
      (`io.EOF` stays `EOF`), before any payload is read. */
  lemma ReadPropagatesFirstError(st: Stream, len: nat, cap: nat)
    requires NextRead(st, 4).err.Some?
    ensures var r := ReadSpec(st, len, cap);
            var e := NextRead(st, 4).err.value;
            r.out == Returned(0, Some(Propagate(e))) && r.got == [] &&
            (r.out == Returned(0, Some(EOF)) <==> e == Eof)
  {
  }

  /** Reading from an empty `bytes.Buffer` yields `(0, io.EOF)`. */
  lemma ReadFromEmptyBuffer(wire: seq<Byte>, len: nat, cap: nat)
    ensures ReadSpec(Stream(wire, |wire|, []), len, cap).out == Returned(0, Some(EOF))
  {
    var st := Stream(wire, |wire|, []);
    assert NextRead(st, 4).err == Some(Eof);
  }

  /** The four bytes at `pos` arrive in one call: the prefix read then
      decodes them. */
  lemma PrefixWhole(st: Stream)
    requires st.pos + 4 <= |st.wire|
    requires NextRead(st, 4).n == 4
    ensures PrefixValue(Next(st, 4)) == DecodeUint32(st.wire[st.pos..st.pos + 4])
  {
    SegmentSlice(st.wire, st.pos, 4);
  }

  /** The guards, in order, once a whole prefix declaring `L` bytes has
      arrived: 0 is `EOF`; more than `MAX_DATA_SIZE` is `TooLarge` even
      when the buffer is also too small; a capacity below `L` is
      `BufferTooSmall(L)`. None of them touches the payload: the reader
      has consumed only the prefix and the buffer is unchanged. */
  lemma ReadGuards(st: Stream, len: nat, cap: nat)
    requires st.pos + 4 <= |st.wire|
    requires var p := NextRead(st, 4); p.n == 4 && p.err.None?
    ensures var r := ReadSpec(st, len, cap);
            var L := DecodeUint32(st.wire[st.pos..st.pos + 4]);
            (L == 0 ==> r.out == Returned(0, Some(EOF))) &&
            (L > MaxDataSize ==> r.out == Returned(0, Some(TooLarge))) &&
            (0 < L <= MaxDataSize && cap < L ==> r.out == Returned(0, Some(BufferTooSmall(L)))) &&
            (L == 0 || L > MaxDataSize || cap < L ==>
               r.got == [] && r.rest == NextRead(st, 4).rest && r.rest.pos == st.pos + 4)
  {
    PrefixWhole(st);
  }

  /** A prefix of four zero bytes reads as end of stream. */
  lemma ReadZeroPrefix(st: Stream, len: nat, cap: nat)
    requires st.pos + 4 <= |st.wire| && st.wire[st.pos..st.pos + 4] == [0, 0, 0, 0]
    requires var p := NextRead(st, 4); p.n == 4 && p.err.None?
    ensures ReadSpec(st, len, cap).out == Returned(0, Some(EOF))
  {
    ReadGuards(st, len, cap);
    DecodeZero(st.wire[st.pos..st.pos + 4]);
  }

  /** A stream holding `frame` at the reader's position. */
  predicate FrameAt(st: Stream, data: seq<Byte>)
  {
    |data| < Two32 && st.pos + 4 + |data| <= |st.wire| &&
    st.wire[st.pos..st.pos + 4 + |data|] == Frame(data)
  }

  /** The prefix read of a stream holding a frame, when its first call
      hands over at least four bytes without error. */
  lemma PrefixOfFrame(st: Stream, data: seq<Byte>)
    requires FrameAt(st, data)
    requires var p := NextRead(st, 4); p.n == 4 && p.err.None?
    ensures PrefixValue(Next(st, 4)) == |data|
  {
    PrefixWhole(st);
    var f := st.wire[st.pos..st.pos + 4 + |data|];
    assert st.wire[st.pos..st.pos + 4] == f[..4];
  }

  /** The payload `Read` writes into the buffer is the `L` bytes after the
      prefix. */
  lemma PayloadOfFrame(st: Stream, data: seq<Byte>, rs: Stream)
    requires FrameAt(st, data)
    requires rs.wire == st.wire && rs.pos == st.pos + 4
    ensures |data| <= rs.Available() && Next(rs, |data|) == data
  {
    var f := st.wire[st.pos..st.pos + 4 + |data|];
    SegmentSlice(st.wire, st.pos + 4, |data|);
    assert st.wire[st.pos + 4..st.pos + 4 + |data|] == f[4..];
  }

  /** The accumulation loop's promise: when the first call delivers the
      whole prefix and no call fails, `Read` fills `buffer[0:L]` with the
      `L` payload bytes and returns `(L, nil)`, leaving the reader just
      past the frame, provided the buffer is large enough (and the
      re-slice at tcpRW.go:38 does not panic). */
  lemma ReadWholeFrame(st: Stream, data: seq<Byte>, len: nat, cap: nat)
    requires FrameAt(st, data) && 0 < |data| <= MaxDataSize
    requires NoFaults(st.script) && (st.script == [] || st.script[0].limit >= 4)
    requires |data| <= cap && (|data| <= len || 2 * |data| <= cap)
    ensures var r := ReadSpec(st, len, cap);
            r.out == Returned(|data|, None) && r.got == data &&
            r.rest.wire == st.wire && r.rest.pos == st.pos + 4 + |data| &&
            NoFaults(r.rest.script) &&
            (st.script == [] ==> r.rest == Stream(st.wire, st.pos + 4 + |data|, []))
  {
    var p := NextRead(st, 4);
    NextReadFaultFree(st, 4);
    PrefixOfFrame(st, data);
    NoFaultsTail(st.script);
    PayloadOfFrame(st, data, p.rest);
    FillDelivers(p.rest, |data|);
    FillKeepsFaultFree(p.rest, |data|);
    if st.script == [] {
      FillKeepsUnscripted(p.rest, |data|);
    }
  }

  /** A frame cut short on a `bytes.Buffer` (a prefix declaring `L` bytes
      followed by fewer) makes `Read` return 0 and an incomplete-frame
      error, after it has copied the bytes that did arrive. */
  lemma ReadTruncatedFrame(st: Stream, L: nat, len: nat, cap: nat)
    requires st.script == [] && st.pos + 4 <= |st.wire|
    requires DecodeUint32(st.wire[st.pos..st.pos + 4]) == L && 0 < L <= MaxDataSize
    requires L <= cap && (L <= len || 2 * L <= cap)
    requires |st.wire| < st.pos + 4 + L
    ensures var r := ReadSpec(st, len, cap);
            r.out == Returned(0, Some(IncompleteFrame)) &&
            r.got == st.wire[st.pos + 4..] && r.rest.pos == |st.wire|
  {
    var p := NextRead(st, 4);
    NextReadUnscripted(st, 4);
    PrefixWhole(st);
    FillTruncated(p.rest, L);
    SegmentSlice(st.wire, st.pos + 4, |st.wire| - (st.pos + 4));
  }

  /** An error reported by the very call that delivers the last payload
      bytes still fails the whole `Read`: it returns 0 and an error even
      though the buffer already holds the full payload. */
  lemma ReadErrorWithFinalBytes(data: seq<Byte>, e: IoError, len: nat, cap: nat)
    requires 0 < |data| <= MaxDataSize
    requires |data| <= cap && (|data| <= len || 2 * |data| <= cap)
    ensures var st := Stream(Frame(data), 0, [Step(4, None), Step(|data|, Some(e))]);
            var r := ReadSpec(st, len, cap);
            r.out == Returned(0, Some(PayloadError(e))) && r.got == data
  {
    var st := Stream(Frame(data), 0, [Step(4, None), Step(|data|, Some(e))]);
    assert Frame(data)[0..4 + |data|] == Frame(data);
    PrefixOfFrame(st, data);
    var p := NextRead(st, 4);
    PayloadOfFrame(st, data, p.rest);
    var c := NextRead(p.rest, |data|);
    assert c.n == |data| && c.err == Some(e);
  }

  /** Any error in the payload loop fails the whole `Read`, whatever the
      reader: the count is 0 and the error is the wrapped one, even when the
      failing call delivered the final bytes; the buffer keeps what
      arrived. */
  lemma ReadPayloadErrorFails(st: Stream, len: nat, cap: nat)
    requires NextRead(st, 4).err.None?
    requires var p := NextRead(st, 4);
             var L := PrefixValue(Next(st, p.n));
             0 < L <= MaxDataSize && L <= cap && (L <= len || 2 * L <= cap) &&
             Fill(p.rest, L).err.Some?
    ensures var p := NextRead(st, 4);
            var f := Fill(p.rest, PrefixValue(Next(st, p.n)));
            ReadSpec(st, len, cap) ==
              ReadResult(Returned(0, Some(PayloadError(f.err.value))), Next(p.rest, f.n), f.rest)
  {
  }

  // ---------------------------------------------------------------------
  // Round trip

  /** What `Write` puts into a `bytes.Buffer`, `Read` gets back: the
      payload, in the caller's buffer, with the count `len(data)`, and the
      reader ends where the frame ends. This holds for any reader that
      reports no error and hands over the prefix in its first call. */
  lemma RoundTrip(prev: seq<Byte>, data: seq<Byte>, steps: seq<Step>, len: nat, cap: nat)
    requires 0 < |data| <= MaxDataSize
    requires NoFaults(steps) && (steps == [] || steps[0].limit >= 4)
    requires |data| <= cap && (|data| <= len || 2 * |data| <= cap)
    ensures var w := WriteSpec(Sink(prev, []), data);
            var r := ReadSpec(Stream(w.rest.written, |prev|, steps), len, cap);
            w.n == 4 + |data| && w.err.None? &&
            r.out == Returned(|data|, None) && r.got == data &&
            r.rest.pos == |w.rest.written|
  {
    WriteToBuffer(prev, data);
    var wire := prev + Frame(data);
    assert wire[|prev|..|prev| + 4 + |data|] == Frame(data);
    ReadWholeFrame(Stream(wire, |prev|, steps), data, len, cap);
  }

  /** Two frames one after the other: each sits where the previous ends. */
  lemma TwoFramesAt(prev: seq<Byte>, d1: seq<Byte>, d2: seq<Byte>)
    requires |d1| < Two32 && |d2| < Two32
    ensures var wire := prev + Frame(d1) + Frame(d2);
            FrameAt(Stream(wire, |prev|, []), d1) &&
            FrameAt(Stream(wire, |prev| + 4 + |d1|, []), d2)
  {
    var f1, f2 := Frame(d1), Frame(d2);
    var wire := prev + f1 + f2;
    assert wire[|prev|..|prev| + 4 + |d1|] == f1;
    assert wire[|prev| + 4 + |d1|..|prev| + 4 + |d1| + 4 + |d2|] == f2;
  }

  /** Two writes into a `bytes.Buffer` leave the two frames in order. */
  lemma TwoWrites(prev: seq<Byte>, d1: seq<Byte>, d2: seq<Byte>)
    requires 0 < |d1| <= MaxDataSize && 0 < |d2| <= MaxDataSize
    ensures var w1 := WriteSpec(Sink(prev, []), d1);
            var w2 := WriteSpec(w1.rest, d2);
            w2.rest.written == prev + Frame(d1) + Frame(d2)
  {
    WriteToBuffer(prev, d1);
    WriteToBuffer(prev + Frame(d1), d2);
  }

  /** Two reads from a `bytes.Buffer` holding two frames give the two
      payloads in order. */
  lemma TwoReads(prev: seq<Byte>, d1: seq<Byte>, d2: seq<Byte>, len: nat, cap: nat)
    requires 0 < |d1| <= MaxDataSize && 0 < |d2| <= MaxDataSize
    requires |d1| <= cap && (|d1| <= len || 2 * |d1| <= cap)
    requires |d2| <= cap && (|d2| <= len || 2 * |d2| <= cap)
    ensures var wire := prev + Frame(d1) + Frame(d2);
            var r1 := ReadSpec(Stream(wire, |prev|, []), len, cap);
            var r2 := ReadSpec(r1.rest, len, cap);
            r1.out == Returned(|d1|, None) && r1.got == d1 &&
            r2.out == Returned(|d2|, None) && r2.got == d2 &&
            r2.rest.pos == |wire|
  {
    var wire := prev + Frame(d1) + Frame(d2);
    var st1, st2 := Stream(wire, |prev|, []), Stream(wire, |prev| + 4 + |d1|, []);
    TwoFramesAt(prev, d1, d2);
    ReadWholeFrame(st1, d1, len, cap);
    assert ReadSpec(st1, len, cap).rest == st2;
    ReadWholeFrame(st2, d2, len, cap);
  }

  /** Frames are read in the order they were written: two frames written
      into a `bytes.Buffer` come back from two calls to `Read`, the first
      payload and then the second, each with its own length. */
  lemma FramesInOrder(prev: seq<Byte>, d1: seq<Byte>, d2: seq<Byte>, len: nat, cap: nat)
    requires 0 < |d1| <= MaxDataSize && 0 < |d2| <= MaxDataSize
    requires |d1| <= cap && (|d1| <= len || 2 * |d1| <= cap)
    requires |d2| <= cap && (|d2| <= len || 2 * |d2| <= cap)
    ensures var w1 := WriteSpec(Sink(prev, []), d1);
            var w2 := WriteSpec(w1.rest, d2);
            var r1 := ReadSpec(Stream(w2.rest.written, |prev|, []), len, cap);
            var r2 := ReadSpec(r1.rest, len, cap);
            r1.out == Returned(|d1|, None) && r1.got == d1 &&
            r2.out == Returned(|d2|, None) && r2.got == d2 &&
            r2.rest.pos == |w2.rest.written|
  {
    TwoWrites(prev, d1, d2);
    TwoReads(prev, d1, d2, len, cap);
  }

  /** An empty write leaves nothing to read: the reader sees end of
      stream. */
  lemma EmptyWriteThenRead(prev: seq<Byte>, len: nat, cap: nat)
    ensures var w := WriteSpec(Sink(prev, []), []);
            ReadSpec(Stream(w.rest.written, |prev|, []), len, cap).out == Returned(0, Some(EOF))
  {
    WriteEmptyIsNoOp(Sink(prev, []));
    ReadFromEmptyBuffer(prev, len, cap);
  }
}
