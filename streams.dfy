/** The two collaborators the framing code is handed: an `io.Reader` and an
    `io.Writer`. Neither is real I/O here. A reader is the bytes on the
    wire, a position in them, and a script saying how each successive `Read`
    call behaves; a writer is the bytes accepted so far plus a script for each `Write` call.
    With an empty script both behave like Go's `bytes.Buffer`. */
module Streams {
  import opened Wrappers
  import opened BigEndian

  /** An error the transport reports. `Eof` is Go's `io.EOF`; every other
      transport failure is a `Fault` told apart by its code. */
  datatype IoError = Eof | Fault(code: nat)

  /** How one `Read` call behaves: it hands over at most `limit` bytes and
      then reports `err` (which may come together with the bytes). */
  datatype Step = Step(limit: nat, err: Option<IoError>)

  /** The reader's whole state: every byte the peer will ever send, how
      many of them earlier calls have already handed over, and the script
      for the calls still to come. */
  datatype Stream = Stream(wire: seq<Byte>, pos: nat, script: seq<Step>)
  {
    /** The number of bytes still to arrive. */
    function Available(): nat
    {
      if pos <= |wire| then |wire| - pos else 0
    }
  }

  /** What one `Read` call returns: how many bytes it handed over (they are
      the next `n` bytes of the wire), its error, and the reader's state
      after it. */
  datatype Chunk = Chunk(n: nat, err: Option<IoError>, rest: Stream)

  function Min(a: nat, b: nat): nat { if a <= b then a else b }

  /** The script after one call; once it is used up it stays empty. */
  function Tail<T>(script: seq<T>): seq<T>
  {
    if script == [] then [] else script[1..]
  }

  /** A script none of whose steps reports an error. */
  predicate NoFaults(script: seq<Step>)
  {
    forall i | 0 <= i < |script| :: script[i].err.None?
  }

  /** The `n` bytes of `wire` from index `from` on. */
  function Segment(wire: seq<Byte>, from: nat, n: nat): (r: seq<Byte>)
    requires n == 0 || from + n <= |wire|
    ensures |r| == n
    decreases n
  {
    if n == 0 then [] else [wire[from]] + Segment(wire, from + 1, n - 1)
  }

  /** A segment is the slice of the wire it names. */
  lemma {:induction false} SegmentSlice(wire: seq<Byte>, from: nat, n: nat)
    requires from + n <= |wire|
    ensures Segment(wire, from, n) == wire[from..from + n]
    decreases n
  {
    if n > 0 {
      SegmentSlice(wire, from + 1, n - 1);
      var s := Segment(wire, from, n);
      forall i | 0 <= i < n
        ensures s[i] == wire[from + i]
      {
        if i > 0 {
          assert s[i] == wire[from + 1..from + n][i - 1];
        }
      }
    }
  }

  /** A segment is the segment of its first `a` bytes followed by the
      segment of the rest. */
  lemma {:induction false} SegmentSplit(wire: seq<Byte>, from: nat, a: nat, b: nat)
    requires a + b == 0 || from + a + b <= |wire|
    ensures Segment(wire, from, a + b) == Segment(wire, from, a) + Segment(wire, from + a, b)
    decreases a
  {
    if a > 0 {
      SegmentSplit(wire, from + 1, a - 1, b);
      assert [wire[from]] + (Segment(wire, from + 1, a - 1) + Segment(wire, from + a, b))
          == ([wire[from]] + Segment(wire, from + 1, a - 1)) + Segment(wire, from + a, b);
    }
  }

  /** The bytes the next `n` handed over will be. */
  function Next(st: Stream, n: nat): (b: seq<Byte>)
    requires n <= st.Available()
    ensures |b| == n
  {
    Segment(st.wire, st.pos, n)
  }

  /** One `Read` into a slice of length `want`. A scripted call reports its
      step's error and nothing else, so it may return `(0, nil)` even on a
      drained stream. Past the script the reader is a `bytes.Buffer`: it
      hands over all it can, and `io.EOF` once it holds nothing more while
      bytes are asked for. */
  function NextRead(st: Stream, want: nat): (c: Chunk)
    ensures c.n <= want && c.n <= st.Available()
    ensures c.rest == Stream(st.wire, st.pos + c.n, Tail(st.script))
    ensures want > 0 && st.script == [] && st.Available() == 0 ==> c.err == Some(Eof)
    ensures want > 0 && st.script == [] && c.err.None? ==> c.n > 0
  {
    var step := if st.script == [] then Step(want, None) else st.script[0];
    var n := Min(Min(step.limit, want), st.Available());
    var err := if step.err.Some? then step.err
               else if st.script == [] && want > 0 && st.Available() == 0 then Some(Eof)
               else None;
    Chunk(n, err, Stream(st.wire, st.pos + n, Tail(st.script)))
  }

  /** A step that reports no error reports none, unless the wire is
      drained; past the script the reader never stalls while it holds
      bytes. */
  lemma NextReadFaultFree(st: Stream, want: nat)
    requires NoFaults(st.script) && st.Available() > 0
    ensures var c := NextRead(st, want);
            c.err.None? && (want > 0 ==> c.n > 0 || st.script != [])
  {
  }

  /** Past the script the reader is a `bytes.Buffer`: all it can give, and
      `io.EOF` only as the one error. */
  lemma NextReadUnscripted(st: Stream, want: nat)
    requires st.script == []
    ensures var c := NextRead(st, want);
            c.n == Min(want, st.Available()) && (c.err.None? || c.err == Some(Eof))
  {
  }

  /** `s` with `d` written over it from index `lo` on: a buffer after a
      `Read` into `p[lo:]`. */
  function Splice(s: seq<Byte>, lo: nat, d: seq<Byte>): (r: seq<Byte>)
    requires lo + |d| <= |s|
    ensures |r| == |s|
  {
    seq(|s|, i requires 0 <= i < |s| => if lo <= i < lo + |d| then d[i - lo] else s[i])
  }

  /** Writing nothing leaves the buffer as it was. */
  lemma SpliceNothing(s: seq<Byte>, lo: nat)
    requires lo <= |s|
    ensures Splice(s, lo, []) == s
  {
    assert Splice(s, lo, [])[..] == s[..];
  }

  /** Two reads into adjacent stretches of a buffer, of adjacent stretches
      of the wire, leave it as one read of both would. */
  lemma SpliceAdvance(s: seq<Byte>, st: Stream, k: nat, rs: Stream, m: nat)
    requires rs.wire == st.wire && rs.pos == st.pos + k
    requires k + m <= st.Available() && k + m <= |s|
    ensures Splice(Splice(s, 0, Next(st, k)), k, Next(rs, m)) == Splice(s, 0, Next(st, k + m))
  {
    SegmentSplit(st.wire, st.pos, k, m);
    var l, r := Splice(Splice(s, 0, Next(st, k)), k, Next(rs, m)), Splice(s, 0, Next(st, k + m));
    forall i | 0 <= i < |s|
      ensures l[i] == r[i]
    {
    }
  }

  /** The `io.Reader` handed to the decoder. */
  class Reader {
    const wire: seq<Byte>
    var pos: nat
    var script: seq<Step>

    function State(): Stream
      reads this
    {
      Stream(wire, pos, script)
    }

    constructor (bytes: seq<Byte>, steps: seq<Step>)
      ensures State() == Stream(bytes, 0, steps)
    {
      wire, pos, script := bytes, 0, steps;
    }

    /** `rd.Read(p[lo:hi])`: the bytes handed over land at `p[lo..]` and
        nothing else in `p` changes. */
    method Read(p: array<Byte>, lo: nat, hi: nat) returns (n: nat, err: Option<IoError>)
      requires lo <= hi <= p.Length
      modifies this, p
      ensures var c := NextRead(old(State()), hi - lo);
              n == c.n && err == c.err && State() == c.rest &&
              p[..] == Splice(old(p[..]), lo, Next(old(State()), n))
    {
      var c := NextRead(State(), hi - lo);
      var data := Next(State(), c.n);
      n, err := c.n, c.err;
      forall i | lo <= i < lo + n {
        p[i] := data[i - lo];
      }
      assert p[..] == Splice(old(p[..]), lo, data);
      pos, script := c.rest.pos, c.rest.script;
    }
  }

  /** How one `Write` call behaves: it accepts at most `limit` bytes and
      reports `err`. A step may accept fewer bytes than offered without an
      error, which Go's `io.Writer` contract forbids but a writer can do. */
  datatype WStep = WStep(limit: nat, err: Option<IoError>)

  /** The writer's whole state. */
  datatype Sink = Sink(written: seq<Byte>, script: seq<WStep>)

  /** What one `Write` call returns, and the writer's state after it. */
  datatype Accepted = Accepted(n: nat, err: Option<IoError>, rest: Sink)

  /** One `Write` of `p`. Past the script the writer is a `bytes.Buffer`:
      it accepts everything. */
  function NextWrite(w: Sink, p: seq<Byte>): (a: Accepted)
    ensures a.n <= |p| && a.rest == Sink(w.written + p[..a.n], Tail(w.script))
    ensures w.script == [] ==> a.n == |p| && a.err.None?
  {
    var step := if w.script == [] then WStep(|p|, None) else w.script[0];
    var n := Min(step.limit, |p|);
    Accepted(n, step.err, Sink(w.written + p[..n], Tail(w.script)))
  }

  /** The `io.Writer` handed to the encoder. */
  class Writer {
    var written: seq<Byte>
    var script: seq<WStep>

    function State(): Sink
      reads this
    {
      Sink(written, script)
    }

    constructor (steps: seq<WStep>)
      ensures State() == Sink([], steps)
    {
      written, script := [], steps;
    }

    /** `wr.Write(p)`. */
    method Write(p: seq<Byte>) returns (n: nat, err: Option<IoError>)
      modifies this
      ensures var a := NextWrite(old(State()), p);
              n == a.n && err == a.err && State() == a.rest
    {
      var a := NextWrite(State(), p);
      n, err := a.n, a.err;
      written, script := a.rest.written, a.rest.script;
    }
  }
}
