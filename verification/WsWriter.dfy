/** The frame writer of src/ws/ws_frame.c, and the decoder a client would run on its output. */
module WsWriter {
  import opened Core
  import opened WsSpec

  /** A whole unfragmented frame as the proxy sends it: FIN set, no mask. */
  datatype OutFrame = OutFrame(opcode: nat, payload: bytes)

  predicate Writable(f: OutFrame) {
    ValidOpcode(f.opcode) && |f.payload| < LENGTH_LIMIT
  }

  function HeaderSize(n: nat): nat {
    if n <= 125 then 2 else if n <= 65535 then 4 else 10
  }

  function EncodeOut(f: OutFrame): (s: bytes)
    requires Writable(f)
    ensures |s| == HeaderSize(|f.payload|) + |f.payload|
  {
    [FirstByte(true, f.opcode)] + LengthField(false, |f.payload|) + f.payload
  }

  predicate AllWritable(fs: seq<OutFrame>) {
    forall f <- fs :: Writable(f)
  }

  function EncodeOuts(fs: seq<OutFrame>): bytes
    requires AllWritable(fs)
  {
    if fs == [] then [] else EncodeOuts(fs[..|fs| - 1]) + EncodeOut(fs[|fs| - 1])
  }

  lemma EncodeOutsSnoc(fs: seq<OutFrame>, f: OutFrame)
    requires AllWritable(fs) && Writable(f)
    ensures AllWritable(fs + [f])
    ensures EncodeOuts(fs + [f]) == EncodeOuts(fs) + EncodeOut(f)
  {
    assert (fs + [f])[..|fs|] == fs;
  }

  // ---------------------------------------------------------------------
  // Section 5.2 of RFC 6455, read from the client's side
  // ---------------------------------------------------------------------

  datatype OutScan = NoFrame | FrameHere(frame: OutFrame, size: nat)

  /** The first frame of s, if a whole, final, unmasked and minimally encoded one is there. */
  function ScanOut(s: bytes): (r: OutScan)
    ensures r.FrameHere? ==> 2 <= r.size <= |s|
  {
    if |s| < 2 || BadFirst(s[0]) || s[0] < 128 || s[1] >= 128 then NoFrame
    else
      var need := ExtSize(s[1]);
      if |s| < 2 + need then NoFrame
      else
        var len := if need == 0 then s[1] as nat else BeValue(s[2..2 + need]);
        if (need != 0 && !MinimalLength(need, len)) || |s| < 2 + need + len then NoFrame
        else FrameHere(OutFrame(s[0] % 16, s[2 + need..2 + need + len]), 2 + need + len)
  }

  datatype OutDecoded = OutDecoded(frames: seq<OutFrame>, rest: bytes)

  function DecodeOut(s: bytes): OutDecoded
    decreases |s|
  {
    match ScanOut(s)
    case NoFrame => OutDecoded([], s)
    case FrameHere(f, size) =>
      var d := DecodeOut(s[size..]);
      d.(frames := [f] + d.frames)
  }

  lemma ScanEncodeOut(f: OutFrame, tail: bytes)
    requires Writable(f)
    ensures ScanOut(EncodeOut(f) + tail) == FrameHere(f, |EncodeOut(f)|)
  {
    hide BeValue, BeBytes;
    var n := |f.payload|;
    var s := EncodeOut(f) + tail;
    var lf := LengthField(false, n);
    if n <= 125 {
      assert s[1] == n;
    } else if n <= 65535 {
      Pow256Two();
      BeValueOfBytes(n, 2);
      assert s[1] == 126;
      assert s[2..4] == BeBytes(n, 2);
    } else {
      Pow256Eight();
      BeValueOfBytes(n, 8);
      assert s[1] == 127;
      assert s[2..10] == BeBytes(n, 8);
    }
    Slices([FirstByte(true, f.opcode)], lf, f.payload, tail);
  }

  /** The output of any list of writes decodes to that list, and to nothing else. */
  lemma {:induction false} DecodeEncodeOuts(fs: seq<OutFrame>, tail: bytes)
    requires AllWritable(fs)
    ensures
      var d := DecodeOut(tail);
      DecodeOut(EncodeOuts(fs) + tail) == d.(frames := fs + d.frames)
    decreases |fs|
  {
    hide ScanOut, EncodeOut;
    var d := DecodeOut(tail);
    if fs == [] {
      assert EncodeOuts(fs) + tail == tail;
      assert fs + d.frames == d.frames;
    } else {
      var front, f := fs[..|fs| - 1], fs[|fs| - 1];
      var s := EncodeOut(f) + tail;
      assert EncodeOuts(fs) + tail == EncodeOuts(front) + s;
      DecodeEncodeOuts(front, s);
      ScanEncodeOut(f, tail);
      assert s[|EncodeOut(f)|..] == tail;
      assert DecodeOut(s) == d.(frames := [f] + d.frames);
      assert fs + d.frames == front + ([f] + d.frames);
    }
  }

  /** Two lists with the same bytes are the same list. */
  lemma EncodeOutsInjective(fs: seq<OutFrame>, gs: seq<OutFrame>)
    requires AllWritable(fs) && AllWritable(gs)
    requires EncodeOuts(fs) == EncodeOuts(gs)
    ensures fs == gs
  {
    hide ScanOut, EncodeOut;
    DecodeEncodeOuts(fs, []);
    DecodeEncodeOuts(gs, []);
    DecodeOutEmpty();
    assert EncodeOuts(fs) + [] == EncodeOuts(fs) && EncodeOuts(gs) + [] == EncodeOuts(gs);
    assert fs + [] == fs && gs + [] == gs;
  }

  lemma DecodeOutEmpty()
    ensures DecodeOut([]) == OutDecoded([], [])
  {
  }

  lemma ScanOutExtend(x: bytes, y: bytes)
    requires ScanOut(x).FrameHere?
    ensures ScanOut(x + y) == ScanOut(x)
  {
    hide BeValue;
    var s := x + y;
    var need := ExtSize(x[1]);
    assert s[0] == x[0] && s[1] == x[1];
    assert s[2..2 + need] == x[2..2 + need];
    var size := ScanOut(x).size;
    assert s[2 + need..size] == x[2 + need..size];
  }

  /** What a client has decoded so far only grows. */
  lemma {:induction false} DecodeOutMonotone(x: bytes, y: bytes)
    ensures DecodeOut(x).frames <= DecodeOut(x + y).frames
    decreases |x|
  {
    hide ScanOut;
    match ScanOut(x)
    case NoFrame =>
    case FrameHere(f, size) =>
      ScanOutExtend(x, y);
      assert (x + y)[size..] == x[size..] + y;
      DecodeOutMonotone(x[size..], y);
  }

  method WriteHeader(opcode: nat, n: nat, output: array<byte>)
    requires ValidOpcode(opcode) && n < LENGTH_LIMIT && HeaderSize(n) <= output.Length
    modifies output
    ensures output[..HeaderSize(n)] == [FirstByte(true, opcode)] + LengthField(false, n)
    ensures output[HeaderSize(n)..] == old(output[HeaderSize(n)..])
  {
    hide BeBytes;
    output[0] := 128 + opcode % 16;
    if n <= 125 {
      output[1] := n;
    } else if n <= 65535 {
      output[1] := 126;
      WriteBe16(output, 2, n);
      assert output[..4] == output[..2] + output[2..4];
    } else {
      output[1] := 127;
      WriteBe64(output, 2, n);
      assert output[..10] == output[..2] + output[2..10];
    }
    assert output[..2] == [FirstByte(true, opcode), output[1]];
  }

  method WriteFrame(opcode: nat, payload: bytes, output: array<byte>, outputSize: nat)
    returns (rc: Status, written: nat)
    requires outputSize <= output.Length && |payload| < LENGTH_LIMIT
    modifies output
    ensures rc ==
      if !ValidOpcode(opcode) || (IsControl(opcode) && |payload| > 125) then Protocol
      else if outputSize < HeaderSize(|payload|) + |payload| then Overflow
      else Ok
    ensures rc == Ok ==> written == |EncodeOut(OutFrame(opcode, payload))| <= outputSize
    ensures rc == Ok ==> output[..written] == EncodeOut(OutFrame(opcode, payload))
    ensures rc == Ok ==> output[written..] == old(output[written..])
    ensures rc != Ok ==> written == 0 && output[..] == old(output[..])
  {
    hide BeBytes;
    written := 0;
    if !ValidOpcode(opcode) {
      return Protocol, 0;
    }
    if IsControl(opcode) && |payload| > 125 {
      return Protocol, 0;
    }
    var headerLen;
    if |payload| <= 125 {
      headerLen := 2;
    } else if |payload| <= 65535 {
      headerLen := 4;
    } else {
      headerLen := 10;
    }
    if outputSize < headerLen + |payload| {
      return Overflow, 0;
    }
    WriteHeader(opcode, |payload|, output);
    assert output[headerLen..][|payload|..] == output[headerLen + |payload|..];
    assert old(output[headerLen..])[|payload|..] == old(output[headerLen + |payload|..]);
    Copy(output, headerLen, payload);
    return Ok, headerLen + |payload|;
  }
}
