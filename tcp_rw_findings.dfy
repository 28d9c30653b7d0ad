/** Two places where `Read` as written does not do what its design
    evidently intends, each shown by an input, and a corrected reading
    proved to have the intended property.

    1. The length prefix is read with a single `rd.Read` call
       (tcpRW.go:17-20). A stream reader may hand over fewer than four
       bytes in one call; the zero-initialised remainder is then decoded as
       part of the length. Since `MAX_DATA_SIZE` is below 2^24, every valid
       frame starts with a zero byte, so a reader handing over one byte at
       a time makes every valid frame read as end of stream.
    2. When `len(buffer) < L`, the buffer is re-sliced to `buffer[:2L]`
       (tcpRW.go:37-39), which panics whenever `L <= cap(buffer) < 2L`
       even though the capacity check just above accepted the buffer.

    The corrected reading gathers the prefix over as many calls as it takes
    and reads the payload into `buffer[:L]`. */
module TcpRWFindings {
  import opened Wrappers
  import opened BigEndian
  import opened Streams
  import opened TcpRW
  import opened TcpRWProperties

  // ---------------------------------------------------------------------
  // As written

  /** Finding 1: a reader that hands over a single byte in its first call
      makes `Read` report end of stream on any valid frame, having
      consumed that byte. */
  lemma OneByteFirstReadIsEof(data: seq<Byte>, len: nat, cap: nat)
    requires 0 < |data| <= MaxDataSize
    ensures var st := Stream(Frame(data), 0, [Step(1, None)]);
            FrameAt(st, data) &&
            ReadSpec(st, len, cap).out == Returned(0, Some(EOF)) &&
            ReadSpec(st, len, cap).rest.pos == 1
  {
    var st := Stream(Frame(data), 0, [Step(1, None)]);
    var f := Frame(data);
    assert f[0..4 + |data|] == f;
    assert f[0] == f[..4][0];
    assert f[0] == 0;
    assert Next(st, 1) == [0];
    assert [0] + Zeros(3) == [0, 0, 0, 0];
    DecodeZero([0, 0, 0, 0]);
  }

  /** Finding 2: a whole frame arriving without error, into a buffer
      whose capacity admits the payload but is below twice its length and
      whose length is below it, makes `Read` panic. */
  lemma ShortBufferPanics(st: Stream, data: seq<Byte>, len: nat, cap: nat)
    requires FrameAt(st, data) && 0 < |data| <= MaxDataSize
    requires NoFaults(st.script) && (st.script == [] || st.script[0].limit >= 4)
    requires len < |data| <= cap < 2 * |data|
    ensures ReadSpec(st, len, cap).out == Panicked
  {
    NextReadFaultFree(st, 4);
    PrefixOfFrame(st, data);
  }

  // ---------------------------------------------------------------------
  // Corrected

  /** `Read` as its design intends: the prefix is gathered over as many
      calls as it takes, and the payload is read into `buffer[:L]`, which
      the capacity check has already shown to exist. As in the code as
      written, an error from any call that gathers the prefix, the one that
      completes it included, ends the read with that error, as it is. The
      caller's buffer length no longer matters. */
  function ReadCorrected(st: Stream, cap: nat): (r: ReadResult)
    ensures r.out != Panicked
    ensures r.out.Returned? && r.out.err.None? ==>
              0 < r.out.n <= MaxDataSize && r.out.n <= cap &&
              4 <= st.Available() && r.out.n == DecodeUint32(Next(st, 4)) &&
              r.out.n <= Fill(st, 4).rest.Available() &&
              r.got == Next(Fill(st, 4).rest, r.out.n) &&
              r.rest.pos == st.pos + 4 + r.out.n
    ensures Fill(st, 4).err.Some? ==>
              r == ReadResult(Returned(0, Some(Propagate(Fill(st, 4).err.value))), [], Fill(st, 4).rest)
  {
    var p := Fill(st, 4);
    if p.err.Some? then
      ReadResult(Returned(0, Some(Propagate(p.err.value))), [], p.rest)
    else
      var lenData := DecodeUint32(Next(st, 4));
      if lenData == 0 then ReadResult(Returned(0, Some(EOF)), [], p.rest)
      else if lenData > MaxDataSize then ReadResult(Returned(0, Some(TooLarge)), [], p.rest)
      else if cap < lenData then ReadResult(Returned(0, Some(BufferTooSmall(lenData))), [], p.rest)
      else
        var f := Fill(p.rest, lenData);
        var got := Next(p.rest, f.n);
        if f.err.Some? then ReadResult(Returned(0, Some(PayloadError(f.err.value))), got, f.rest)
        else ReadResult(Returned(lenData, None), got, f.rest)
  }

  /** The intended property: whatever the chunking, a reader that reports
      no error delivers every whole frame into any buffer whose capacity
      holds its payload. */
  lemma CorrectedReadTolerant(st: Stream, data: seq<Byte>, cap: nat)
    requires FrameAt(st, data) && 0 < |data| <= MaxDataSize
    requires NoFaults(st.script)
    requires |data| <= cap
    ensures var r := ReadCorrected(st, cap);
            r.out == Returned(|data|, None) && r.got == data &&
            r.rest.pos == st.pos + 4 + |data|
  {
    FillDelivers(st, 4);
    var p := Fill(st, 4);
    SegmentSlice(st.wire, st.pos, 4);
    var f := st.wire[st.pos..st.pos + 4 + |data|];
    assert st.wire[st.pos..st.pos + 4] == f[..4];
    NoFaultsTail(st.script);
    FillKeepsFaultFree(st, 4);
    PayloadOfFrame(st, data, p.rest);
    FillDelivers(p.rest, |data|);
  }

  /** The correction changes nothing else: whenever the first call hands
      over the whole prefix or reports an error, and the written code does
      not panic, both readings give the same result. They differ only on a
      first call that hands over fewer than four bytes without an error
      (finding 1) and on the panic (finding 2). */
  lemma CorrectedAgreesOtherwise(st: Stream, len: nat, cap: nat)
    requires NextRead(st, 4).n == 4 || NextRead(st, 4).err.Some?
    requires ReadSpec(st, len, cap).out != Panicked
    ensures ReadCorrected(st, cap) == ReadSpec(st, len, cap)
  {
    var c := NextRead(st, 4);
    if c.err.Some? {
      assert Fill(st, 4) == Filled(c.n, c.err, c.rest);
    } else {
      assert Fill(c.rest, 0) == Filled(0, None, c.rest);
      assert Fill(st, 4) == Filled(4, None, c.rest);
    }
  }

  /** An error met while gathering the prefix is not dropped: four prefix
      bytes arriving with `io.EOF`, or two, read as end of stream in both
      readings. */
  lemma PrefixWithErrorKept()
    ensures var st := Stream([0, 0, 0, 1, 7], 0, [Step(4, Some(Eof))]);
            ReadSpec(st, 1, 1).out == Returned(0, Some(EOF)) &&
            ReadCorrected(st, 1).out == Returned(0, Some(EOF))
    ensures var st := Stream([0, 0, 0, 1, 7], 0, [Step(2, Some(Eof))]);
            ReadSpec(st, 1, 1).out == Returned(0, Some(EOF)) &&
            ReadCorrected(st, 1).out == Returned(0, Some(EOF))
  {
    var st := Stream([0, 0, 0, 1, 7], 0, [Step(4, Some(Eof))]);
    CorrectedAgreesOtherwise(st, 1, 1);
    var st2 := Stream([0, 0, 0, 1, 7], 0, [Step(2, Some(Eof))]);
    CorrectedAgreesOtherwise(st2, 1, 1);
  }

  /** The round trip with the correction holds for every error-free
      reader, however it splits the frame, and every buffer that can hold
      the payload. */
  lemma CorrectedRoundTrip(prev: seq<Byte>, data: seq<Byte>, steps: seq<Step>, cap: nat)
    requires 0 < |data| <= MaxDataSize
    requires NoFaults(steps) && |data| <= cap
    ensures var w := WriteSpec(Sink(prev, []), data);
            var r := ReadCorrected(Stream(w.rest.written, |prev|, steps), cap);
            w.n == 4 + |data| && w.err.None? &&
            r.out == Returned(|data|, None) && r.got == data
  {
    WriteToBuffer(prev, data);
    var wire := prev + Frame(data);
    assert wire[|prev|..|prev| + 4 + |data|] == Frame(data);
    CorrectedReadTolerant(Stream(wire, |prev|, steps), data, cap);
  }
}
