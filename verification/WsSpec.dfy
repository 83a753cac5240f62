/**
 The wire format of sections 5.2 to 5.5 of RFC 6455, three times over: as an encoder of
 masked frames, as a decoder that looks at a whole byte stream frame by frame, and as an
 automaton that takes one byte at a time and reports payload bytes as they arrive.
 The theorems here tie the three together; the streaming parser of src/ws/ws_frame.c is
 proved against the automaton in module WsParser.
 */
module WsSpec {
  import opened Core

  const CONTINUATION: nat := 0
  const TEXT: nat := 1
  const BINARY: nat := 2
  const CLOSE: nat := 8
  const PING: nat := 9
  const PONG: nat := 10

  const LENGTH_LIMIT: nat := 0x8000_0000_0000_0000

  predicate ValidOpcode(op: nat) {
    op == CONTINUATION || op == TEXT || op == BINARY || op == CLOSE || op == PING || op == PONG
  }

  predicate IsControl(op: nat) {
    op >= 8
  }

  /** What a header may say, given the opcode of the open fragmented message (0 if none). */
  predicate HeaderLegal(frag: nat, fin: bool, op: nat, len: nat) {
    if IsControl(op) then fin && len <= 125
    else if op == CONTINUATION then frag != 0
    else frag == 0
  }

  /** The open fragmented message after a frame with this header. */
  function NextFrag(frag: nat, fin: bool, op: nat): nat {
    if (op == TEXT || op == BINARY) && !fin then op
    else if op == CONTINUATION && fin then 0
    else frag
  }

  /** Extended lengths must not have fitted a shorter form, and have no 64th bit. */
  predicate MinimalLength(need: nat, len: nat) {
    if need == 2 then len >= 126 else 65536 <= len < LENGTH_LIMIT
  }

  type Key = k: bytes | |k| == 4 witness [0, 0, 0, 0]

  /** Payload bytes p, of which the first is byte number `offset` of its frame, masked or unmasked. */
  function ApplyMask(key: Key, offset: nat, p: bytes): (r: bytes)
    ensures |r| == |p|
    ensures forall i :: 0 <= i < |p| ==> r[i] == Xor(p[i], key[(offset + i) % 4])
  {
    seq(|p|, i requires 0 <= i < |p| => Xor(p[i], key[(offset + i) % 4]))
  }

  lemma MaskTwice(key: Key, offset: nat, p: bytes)
    ensures ApplyMask(key, offset, ApplyMask(key, offset, p)) == p
  {
    forall i | 0 <= i < |p|
      ensures ApplyMask(key, offset, ApplyMask(key, offset, p))[i] == p[i]
    {
      XorInvolution(p[i], key[(offset + i) % 4]);
    }
  }

  // ---------------------------------------------------------------------
  // The byte-at-a-time automaton
  // ---------------------------------------------------------------------

  datatype Phase =
    | AtStart
    | AtLength(fin: bool, opcode: nat)
    | InExtLen(fin: bool, opcode: nat, need: nat, got: bytes)
    | InMask(fin: bool, opcode: nat, len: nat, got: bytes)
    | InPayload(fin: bool, opcode: nat, len: nat, key: Key, offset: nat)

  datatype Automaton = Automaton(phase: Phase, frag: nat)

  /** A payload byte of a frame, or the end of a frame. */
  datatype Event = Data(opcode: nat, value: byte) | End(opcode: nat, fin: bool)

  datatype StepResult = Reject | Next(state: Automaton, events: seq<Event>)

  const START: Automaton := Automaton(AtStart, 0)

  predicate WellFormed(a: Automaton) {
    && (a.frag == 0 || a.frag == TEXT || a.frag == BINARY)
    && match a.phase
       case AtStart => true
       case AtLength(_, op) => ValidOpcode(op)
       case InExtLen(_, op, need, got) => ValidOpcode(op) && (need == 2 || need == 8) && |got| < need
       case InMask(fin, op, len, got) =>
         ValidOpcode(op) && HeaderLegal(a.frag, fin, op, len) && len < LENGTH_LIMIT && |got| < 4
       case InPayload(fin, op, len, _, offset) =>
         ValidOpcode(op) && HeaderLegal(a.frag, fin, op, len) && offset < len < LENGTH_LIMIT
  }

  function HeaderDone(frag: nat, fin: bool, op: nat, len: nat): StepResult {
    if HeaderLegal(frag, fin, op, len) then Next(Automaton(InMask(fin, op, len, []), frag), []) else Reject
  }

  function ExtLenDone(frag: nat, fin: bool, op: nat, need: nat, got: bytes): StepResult {
    if MinimalLength(need, BeValue(got)) then HeaderDone(frag, fin, op, BeValue(got)) else Reject
  }

  function FrameDone(frag: nat, fin: bool, op: nat): Automaton {
    Automaton(AtStart, NextFrag(frag, fin, op))
  }

  function Step(a: Automaton, b: byte): StepResult {
    match a.phase
    case AtStart =>
      if (b / 16) % 8 != 0 || !ValidOpcode(b % 16) then Reject
      else Next(Automaton(AtLength(b >= 128, b % 16), a.frag), [])
    case AtLength(fin, op) =>
      if b < 128 then Reject
      else if b % 128 == 126 then Next(Automaton(InExtLen(fin, op, 2, []), a.frag), [])
      else if b % 128 == 127 then Next(Automaton(InExtLen(fin, op, 8, []), a.frag), [])
      else HeaderDone(a.frag, fin, op, b % 128)
    case InExtLen(fin, op, need, got) =>
      if |got| + 1 < need then Next(Automaton(InExtLen(fin, op, need, got + [b]), a.frag), [])
      else ExtLenDone(a.frag, fin, op, need, got + [b])
    case InMask(fin, op, len, got) =>
      if |got| != 3 then Next(Automaton(InMask(fin, op, len, got + [b]), a.frag), [])
      else if len == 0 then Next(FrameDone(a.frag, fin, op), [End(op, fin)])
      else Next(Automaton(InPayload(fin, op, len, got + [b], 0), a.frag), [])
    case InPayload(fin, op, len, key, offset) =>
      var data := Data(op, Xor(b, key[offset % 4]));
      if offset + 1 == len then Next(FrameDone(a.frag, fin, op), [data, End(op, fin)])
      else Next(Automaton(InPayload(fin, op, len, key, offset + 1), a.frag), [data])
  }

  /** Every state that the automaton reaches is well formed: a fragmented message is open
      exactly while `frag` is non-zero, and the offset stays inside the frame. */
  lemma StepWellFormed(a: Automaton, b: byte)
    requires WellFormed(a)
    ensures Step(a, b).Next? ==> WellFormed(Step(a, b).state)
  {
    hide Xor, BeValue, HeaderLegal;
    if a.phase.InExtLen? {
      Pow256Two();
      BeValueBound(a.phase.got + [b]);
    }
  }

  /** The events of a byte string, and the state after it: none if some byte was rejected. */
  datatype Outcome = Outcome(events: seq<Event>, final: Option<Automaton>)

  function Run(a: Automaton, s: bytes): Outcome
    decreases |s|
  {
    if s == [] then Outcome([], Some(a))
    else match Step(a, s[0])
      case Reject => Outcome([], None)
      case Next(a', events) =>
        var r := Run(a', s[1..]);
        Outcome(events + r.events, r.final)
  }

  function Then(r: Outcome, s: bytes): Outcome {
    if r.final.None? then r
    else
      var q := Run(r.final.value, s);
      Outcome(r.events + q.events, q.final)
  }

  /** A run may be cut anywhere: chunking the input changes nothing. */
  lemma {:induction false} RunConcat(a: Automaton, x: bytes, y: bytes)
    ensures Run(a, x + y) == Then(Run(a, x), y)
    decreases |x|
  {
    if x == [] {
      assert x + y == y;
    } else {
      assert (x + y)[0] == x[0] && (x + y)[1..] == x[1..] + y;
      match Step(a, x[0])
      case Reject =>
      case Next(a', events) =>
        RunConcat(a', x[1..], y);
        var r := Run(a', x[1..]);
        if r.final.Some? {
          var q := Run(r.final.value, y);
          assert events + (r.events + q.events) == (events + r.events) + q.events;
        }
    }
  }

  lemma {:induction false} RunWellFormed(a: Automaton, s: bytes)
    requires WellFormed(a)
    ensures Run(a, s).final.Some? ==> WellFormed(Run(a, s).final.value)
    decreases |s|
  {
    if s != [] {
      StepWellFormed(a, s[0]);
      if Step(a, s[0]).Next? {
        RunWellFormed(Step(a, s[0]).state, s[1..]);
      }
    }
  }

  function AfterStep(r: StepResult): Outcome {
    match r
    case Reject => Outcome([], None)
    case Next(a, events) => Outcome(events, Some(a))
  }

  lemma RunEmpty(a: Automaton)
    ensures Run(a, []) == Outcome([], Some(a))
  {
  }

  lemma RunOne(a: Automaton, b: byte)
    ensures Run(a, [b]) == AfterStep(Step(a, b))
  {
    hide Step;
    var s := [b];
    assert s[1..] == [];
    if Step(a, b).Next? {
      assert Step(a, b).events + [] == Step(a, b).events;
    }
  }

  // Runs through the parts of one frame.

  lemma {:induction false} RunExtLen(frag: nat, fin: bool, op: nat, need: nat, got: bytes, t: bytes)
    requires |got| + |t| <= need
    requires |got| < need
    ensures |got| + |t| < need ==>
              Run(Automaton(InExtLen(fin, op, need, got), frag), t)
              == Outcome([], Some(Automaton(InExtLen(fin, op, need, got + t), frag)))
    ensures |got| + |t| == need ==>
              Run(Automaton(InExtLen(fin, op, need, got), frag), t)
              == AfterStep(ExtLenDone(frag, fin, op, need, got + t))
    decreases t
  {
    if t == [] {
      assert got + t == got;
    } else {
      assert got + t == (got + [t[0]]) + t[1..];
      if |got| + 1 < need {
        RunExtLen(frag, fin, op, need, got + [t[0]], t[1..]);
      } else {
        assert t == [t[0]];
        RunOne(Automaton(InExtLen(fin, op, need, got), frag), t[0]);
      }
    }
  }

  function MaskDone(frag: nat, fin: bool, op: nat, len: nat, key: Key): Outcome {
    if len == 0 then Outcome([End(op, fin)], Some(FrameDone(frag, fin, op)))
    else Outcome([], Some(Automaton(InPayload(fin, op, len, key, 0), frag)))
  }

  lemma {:induction false} RunMask(frag: nat, fin: bool, op: nat, len: nat, got: bytes, t: bytes)
    requires |got| + |t| <= 4
    requires |got| < 4
    ensures |got| + |t| < 4 ==>
              Run(Automaton(InMask(fin, op, len, got), frag), t)
              == Outcome([], Some(Automaton(InMask(fin, op, len, got + t), frag)))
    ensures |got| + |t| == 4 ==>
              Run(Automaton(InMask(fin, op, len, got), frag), t) == MaskDone(frag, fin, op, len, got + t)
    decreases t
  {
    if t == [] {
      assert got + t == got;
    } else {
      assert got + t == (got + [t[0]]) + t[1..];
      if |got| < 3 {
        RunMask(frag, fin, op, len, got + [t[0]], t[1..]);
      } else {
        assert t[1..] == [];
        assert got + t == got + [t[0]];
      }
    }
  }

  function DataEvents(op: nat, p: bytes): (r: seq<Event>)
    ensures |r| == |p|
    ensures forall i :: 0 <= i < |p| ==> r[i] == Data(op, p[i])
  {
    seq(|p|, i requires 0 <= i < |p| => Data(op, p[i]))
  }

  /** The outcome of reading masked payload bytes t when `offset` bytes came before them. */
  function PayloadDone(frag: nat, fin: bool, op: nat, len: nat, key: Key, offset: nat, t: bytes): Outcome {
    var data := DataEvents(op, ApplyMask(key, offset, t));
    if offset + |t| == len then Outcome(data + [End(op, fin)], Some(FrameDone(frag, fin, op)))
    else Outcome(data, Some(Automaton(InPayload(fin, op, len, key, offset + |t|), frag)))
  }

  lemma {:induction false} RunPayload(frag: nat, fin: bool, op: nat, len: nat, key: Key, offset: nat, t: bytes)
    requires offset + |t| <= len
    requires offset < len
    ensures Run(Automaton(InPayload(fin, op, len, key, offset), frag), t)
         == PayloadDone(frag, fin, op, len, key, offset, t)
    decreases t
  {
    hide Xor, DataEvents, ApplyMask;
    if t == [] {
      assert DataEvents(op, ApplyMask(key, offset, t)) == [];
    } else {
      DataCons(op, key, offset, t);
      var rest := DataEvents(op, ApplyMask(key, offset + 1, t[1..]));
      var first := [Data(op, Xor(t[0], key[offset % 4]))];
      if offset + 1 < len {
        RunPayload(frag, fin, op, len, key, offset + 1, t[1..]);
        assert first + (rest + [End(op, fin)]) == (first + rest) + [End(op, fin)];
      } else {
        assert t == [t[0]];
        assert rest == [];
        RunOne(Automaton(InPayload(fin, op, len, key, offset), frag), t[0]);
      }
    }
  }

  lemma DataCons(op: nat, key: Key, offset: nat, t: bytes)
    requires t != []
    ensures DataEvents(op, ApplyMask(key, offset, t))
         == [Data(op, Xor(t[0], key[offset % 4]))] + DataEvents(op, ApplyMask(key, offset + 1, t[1..]))
  {
    hide Xor;
    assert ApplyMask(key, offset, t)[1..] == ApplyMask(key, offset + 1, t[1..]);
  }

  // ---------------------------------------------------------------------
  // The whole-stream decoder
  // ---------------------------------------------------------------------

  datatype Frame = Frame(fin: bool, opcode: nat, key: Key, payload: bytes)

  datatype Header = Header(fin: bool, opcode: nat, len: nat, size: nat)

  datatype Scan = Bad | Partial | Whole(header: Header)

  function ExtSize(n: nat): nat {
    if n == 126 then 2 else if n == 127 then 8 else 0
  }

  /** The header at the front of s: illegal, not all there yet, or read. */
  function ScanHeader(s: bytes, frag: nat): (r: Scan)
    ensures r.Whole? ==> 2 <= r.header.size <= |s|
  {
    if |s| >= 1 && ((s[0] / 16) % 8 != 0 || !ValidOpcode(s[0] % 16)) then Bad
    else if |s| >= 2 && s[1] < 128 then Bad
    else if |s| < 2 || |s| < 2 + ExtSize(s[1] % 128) then Partial
    else
      var need := ExtSize(s[1] % 128);
      var len := if need == 0 then s[1] % 128 else BeValue(s[2..2 + need]);
      if need != 0 && !MinimalLength(need, len) then Bad
      else if !HeaderLegal(frag, s[0] >= 128, s[0] % 16, len) then Bad
      else Whole(Header(s[0] >= 128, s[0] % 16, len, 2 + need))
  }

  /** The complete frames at the front of a stream, and the bytes after them. */
  datatype Decoded = Decoded(frames: seq<Frame>, rest: bytes, frag: nat)

  function FrameAt(s: bytes, h: Header): Frame
    requires h.size + 4 + h.len <= |s|
  {
    var key := s[h.size..h.size + 4];
    Frame(h.fin, h.opcode, key, ApplyMask(key, 0, s[h.size + 4..h.size + 4 + h.len]))
  }

  function Decode(s: bytes, frag: nat): Decoded
    decreases |s|
  {
    var scan := ScanHeader(s, frag);
    if !scan.Whole? || |s| < scan.header.size + 4 + scan.header.len then Decoded([], s, frag)
    else
      var h := scan.header;
      var d := Decode(s[h.size + 4 + h.len..], NextFrag(frag, h.fin, h.opcode));
      d.(frames := [FrameAt(s, h)] + d.frames)
  }

  /** A stream is illegal exactly when the header after its complete frames is. */
  predicate Illegal(s: bytes, frag: nat) {
    var d := Decode(s, frag);
    ScanHeader(d.rest, d.frag).Bad?
  }

  function FrameEvents(f: Frame): seq<Event> {
    DataEvents(f.opcode, f.payload) + [End(f.opcode, f.fin)]
  }

  function AllEvents(fs: seq<Frame>): seq<Event> {
    if fs == [] then [] else FrameEvents(fs[0]) + AllEvents(fs[1..])
  }

  /** The payload bytes of a frame that has not ended yet. */
  function TailEvents(s: bytes, frag: nat): seq<Event> {
    match ScanHeader(s, frag)
    case Whole(h) =>
      if |s| <= h.size + 4 then []
      else DataEvents(h.opcode, ApplyMask(s[h.size..h.size + 4], 0, s[h.size + 4..]))
    case _ => []
  }

  predicate BadFirst(b: byte) {
    (b / 16) % 8 != 0 || !ValidOpcode(b % 16)
  }

  lemma RunFirstTwo(s: bytes, frag: nat)
    requires |s| == 2
    ensures Run(Automaton(AtStart, frag), s) ==
            if BadFirst(s[0]) || s[1] < 128 then Outcome([], None)
            else if ExtSize(s[1] % 128) == 0 then AfterStep(HeaderDone(frag, s[0] >= 128, s[0] % 16, s[1] % 128))
            else Outcome([], Some(Automaton(InExtLen(s[0] >= 128, s[0] % 16, ExtSize(s[1] % 128), []), frag)))
  {
    var a := Automaton(AtStart, frag);
    RunOne(a, s[0]);
    RunConcat(a, [s[0]], [s[1]]);
    assert s == [s[0]] + [s[1]];
    if !BadFirst(s[0]) {
      RunOne(Automaton(AtLength(s[0] >= 128, s[0] % 16), frag), s[1]);
    }
  }

  lemma RunHeader(s: bytes, frag: nat)
    ensures ScanHeader(s, frag).Bad? ==> Run(Automaton(AtStart, frag), s) == Outcome([], None)
    ensures ScanHeader(s, frag).Partial? ==>
              var r := Run(Automaton(AtStart, frag), s);
              r.events == [] && r.final.Some?
    ensures ScanHeader(s, frag).Whole? ==>
              var h := ScanHeader(s, frag).header;
              Run(Automaton(AtStart, frag), s[..h.size])
              == Outcome([], Some(Automaton(InMask(h.fin, h.opcode, h.len, []), frag)))
  {
    hide Step, Run, HeaderLegal, BeValue, MinimalLength, ValidOpcode;
    var a := Automaton(AtStart, frag);
    if |s| == 0 {
      RunEmpty(a);
    } else if |s| == 1 {
      RunFirst(s, frag);
    } else {
      var need := ExtSize(s[1] % 128);
      RunFirstTwo(s[..2], frag);
      RunConcat(a, s[..2], s[2..]);
      assert s == s[..2] + s[2..];
      if !BadFirst(s[0]) && s[1] >= 128 && need != 0 {
        var n := Min(2 + need, |s|);
        RunExtHeader(s[..n], frag);
        RunConcat(a, s[..n], s[n..]);
        assert s == s[..n] + s[n..];
        assert |s| == n ==> s[..n] == s;
        assert s[..n][2..] == s[2..n];
      }
    }
  }

  lemma RunFirst(s: bytes, frag: nat)
    requires |s| == 1
    ensures Run(Automaton(AtStart, frag), s) ==
            if BadFirst(s[0]) then Outcome([], None)
            else Outcome([], Some(Automaton(AtLength(s[0] >= 128, s[0] % 16), frag)))
  {
    RunOne(Automaton(AtStart, frag), s[0]);
    assert s == [s[0]];
  }

  lemma RunExtHeader(s: bytes, frag: nat)
    requires |s| >= 2 && !BadFirst(s[0]) && s[1] >= 128
    requires 0 < ExtSize(s[1] % 128) && |s| <= 2 + ExtSize(s[1] % 128)
    ensures
      var need := ExtSize(s[1] % 128);
      Run(Automaton(AtStart, frag), s) ==
      if |s| < 2 + need then Outcome([], Some(Automaton(InExtLen(s[0] >= 128, s[0] % 16, need, s[2..]), frag)))
      else AfterStep(ExtLenDone(frag, s[0] >= 128, s[0] % 16, need, s[2..]))
  {
    hide Run, Step, ExtLenDone;
    RunFirstTwo(s[..2], frag);
    RunConcat(Automaton(AtStart, frag), s[..2], s[2..]);
    assert s == s[..2] + s[2..];
    RunExtLen(frag, s[0] >= 128, s[0] % 16, ExtSize(s[1] % 128), [], s[2..]);
    assert [] + s[2..] == s[2..];
  }

  /** The mask key and then the payload, as far as they are there. */
  lemma RunKeyed(frag: nat, fin: bool, op: nat, len: nat, t: bytes)
    requires |t| <= 4 + len
    ensures
      var r := Run(Automaton(InMask(fin, op, len, []), frag), t);
      if |t| < 4 then r.events == [] && r.final.Some?
      else
        var data := DataEvents(op, ApplyMask(t[..4], 0, t[4..]));
        if |t| < 4 + len then r.events == data && r.final.Some?
        else r == Outcome(data + [End(op, fin)], Some(FrameDone(frag, fin, op)))
  {
    hide Run, Step, Xor, DataEvents, ApplyMask;
    var n := Min(4, |t|);
    var key, body := t[..n], t[n..];
    RunMask(frag, fin, op, len, [], key);
    assert [] + key == key;
    RunConcat(Automaton(InMask(fin, op, len, []), frag), key, body);
    assert t == key + body;
    if n < 4 {
      RunEmpty(Automaton(InMask(fin, op, len, key), frag));
    } else if len == 0 {
      RunEmpty(FrameDone(frag, fin, op));
    } else {
      RunPayload(frag, fin, op, len, key, 0, body);
    }
  }

  /** Reading a whole header, and then the key and payload bytes that are there. */
  lemma RunPartial(s: bytes, frag: nat)
    requires ScanHeader(s, frag).Whole?
    requires |s| < ScanHeader(s, frag).header.size + 4 + ScanHeader(s, frag).header.len
    ensures Run(Automaton(AtStart, frag), s).final.Some?
    ensures Run(Automaton(AtStart, frag), s).events == TailEvents(s, frag)
  {
    hide Run, Step, Xor, ScanHeader, ApplyMask, DataEvents;
    var h := ScanHeader(s, frag).header;
    var t := s[h.size..];
    RunHeader(s, frag);
    RunConcat(Automaton(AtStart, frag), s[..h.size], t);
    assert s == s[..h.size] + t;
    RunKeyed(frag, h.fin, h.opcode, h.len, t);
    if |t| >= 4 {
      assert t[..4] == s[h.size..h.size + 4];
      assert t[4..] == s[h.size + 4..];
      assert |t| == 4 ==> DataEvents(h.opcode, ApplyMask(t[..4], 0, t[4..])) == [];
    }
  }

  lemma RunFrame(s: bytes, h: Header, frag: nat)
    requires ScanHeader(s, frag) == Whole(h)
    requires |s| >= h.size + 4 + h.len
    ensures Run(Automaton(AtStart, frag), s[..h.size + 4 + h.len])
         == Outcome(FrameEvents(FrameAt(s, h)), Some(FrameDone(frag, h.fin, h.opcode)))
  {
    hide Run, Step, Xor, ScanHeader, ApplyMask, DataEvents;
    var n := h.size + 4 + h.len;
    var t := s[h.size..n];
    RunHeader(s, frag);
    RunConcat(Automaton(AtStart, frag), s[..h.size], t);
    assert s[..n] == s[..h.size] + t;
    RunKeyed(frag, h.fin, h.opcode, h.len, t);
    var key, body := s[h.size..h.size + 4], s[h.size + 4..n];
    assert t[..4] == key && t[4..] == body;
    assert FrameEvents(FrameAt(s, h)) == DataEvents(h.opcode, ApplyMask(key, 0, body)) + [End(h.opcode, h.fin)];
  }

  /** The automaton computes the whole-stream decoder: for every stream it rejects exactly
      the illegal ones, and its events are those of the decoded frames followed by the
      payload bytes of the unfinished frame. */
  lemma {:induction false} AutomatonRefinesDecoder(s: bytes, frag: nat)
    ensures Refined(s, frag)
    decreases |s|
  {
    hide Run, Step, ScanHeader, FrameAt, Refined;
    match ScanHeader(s, frag)
    case Whole(h) =>
      var total := h.size + 4 + h.len;
      if |s| < total {
        RefinedTail(s, frag);
      } else {
        AutomatonRefinesDecoder(s[total..], NextFrag(frag, h.fin, h.opcode));
        RefinedCons(s, h, frag);
      }
    case Bad => RefinedTail(s, frag);
    case Partial => RefinedTail(s, frag);
  }

  predicate Refined(s: bytes, frag: nat) {
    var r := Run(Automaton(AtStart, frag), s);
    var d := Decode(s, frag);
    && (r.final.None? <==> Illegal(s, frag))
    && r.events == AllEvents(d.frames) + TailEvents(d.rest, d.frag)
  }

  lemma RefinedTail(s: bytes, frag: nat)
    requires ScanHeader(s, frag).Whole? ==>
               |s| < ScanHeader(s, frag).header.size + 4 + ScanHeader(s, frag).header.len
    ensures Refined(s, frag)
  {
    hide Run, Step, ApplyMask, DataEvents, ScanHeader;
    if ScanHeader(s, frag).Whole? {
      RunPartial(s, frag);
    } else {
      RunHeader(s, frag);
    }
    assert Decode(s, frag) == Decoded([], s, frag);
    assert AllEvents([]) + TailEvents(s, frag) == TailEvents(s, frag);
  }

  lemma RefinedCons(s: bytes, h: Header, frag: nat)
    requires ScanHeader(s, frag) == Whole(h)
    requires |s| >= h.size + 4 + h.len
    requires Refined(s[h.size + 4 + h.len..], NextFrag(frag, h.fin, h.opcode))
    ensures Refined(s, frag)
  {
    hide Run, Step, ScanHeader, FrameAt, FrameEvents, Decode, AllEvents, TailEvents;
    var total := h.size + 4 + h.len;
    RunFrame(s, h, frag);
    RunConcat(Automaton(AtStart, frag), s[..total], s[total..]);
    assert s == s[..total] + s[total..];
    DecodeUnfold(s, h, frag);
    var d := Decode(s[total..], NextFrag(frag, h.fin, h.opcode));
    var f := FrameAt(s, h);
    AllEventsCons(f, d.frames);
    assert FrameEvents(f) + (AllEvents(d.frames) + TailEvents(d.rest, d.frag))
        == FrameEvents(f) + AllEvents(d.frames) + TailEvents(d.rest, d.frag);
  }

  lemma AllEventsCons(f: Frame, fs: seq<Frame>)
    ensures AllEvents([f] + fs) == FrameEvents(f) + AllEvents(fs)
  {
    assert ([f] + fs)[1..] == fs;
  }

  // ---------------------------------------------------------------------
  // The encoder of masked frames
  // ---------------------------------------------------------------------

  function LengthField(maskBit: bool, n: nat): bytes
    requires n < LENGTH_LIMIT
  {
    var m := if maskBit then 128 else 0;
    if n <= 125 then [m + n]
    else if n <= 65535 then [m + 126] + BeBytes(n, 2)
    else [m + 127] + BeBytes(n, 8)
  }

  function FirstByte(fin: bool, op: nat): byte
    requires op < 16
  {
    if fin then 128 + op else op
  }

  predicate FrameLegal(frag: nat, f: Frame) {
    ValidOpcode(f.opcode) && |f.payload| < LENGTH_LIMIT && HeaderLegal(frag, f.fin, f.opcode, |f.payload|)
  }

  predicate Legal(frag: nat, fs: seq<Frame>)
    decreases |fs|
  {
    fs == [] || (FrameLegal(frag, fs[0]) && Legal(NextFrag(frag, fs[0].fin, fs[0].opcode), fs[1..]))
  }

  function EncodeFrame(f: Frame): bytes
    requires ValidOpcode(f.opcode) && |f.payload| < LENGTH_LIMIT
  {
    [FirstByte(f.fin, f.opcode)] + LengthField(true, |f.payload|) + f.key + ApplyMask(f.key, 0, f.payload)
  }

  function EncodeAll(frag: nat, fs: seq<Frame>): bytes
    requires Legal(frag, fs)
    decreases |fs|
  {
    if fs == [] then []
    else EncodeFrame(fs[0]) + EncodeAll(NextFrag(frag, fs[0].fin, fs[0].opcode), fs[1..])
  }

  function FragAfter(frag: nat, fs: seq<Frame>): nat
    decreases |fs|
  {
    if fs == [] then frag else FragAfter(NextFrag(frag, fs[0].fin, fs[0].opcode), fs[1..])
  }

  lemma ScanOfLength(b0: byte, n: nat, tail: bytes, frag: nat)
    requires (b0 / 16) % 8 == 0 && ValidOpcode(b0 % 16)
    requires n < LENGTH_LIMIT
    requires HeaderLegal(frag, b0 >= 128, b0 % 16, n)
    ensures ScanHeader([b0] + LengthField(true, n) + tail, frag)
         == Whole(Header(b0 >= 128, b0 % 16, n, 1 + |LengthField(true, n)|))
  {
    var s := [b0] + LengthField(true, n) + tail;
    if 125 < n <= 65535 {
      Pow256Two();
      BeValueOfBytes(n, 2);
      assert s[2..4] == BeBytes(n, 2);
    } else if n > 65535 {
      Pow256Eight();
      BeValueOfBytes(n, 8);
      assert s[2..10] == BeBytes(n, 8);
    }
  }

  /** Decoding undoes encoding, one frame at a time, whatever follows. */
  lemma DecodeFrame(f: Frame, tail: bytes, frag: nat)
    requires FrameLegal(frag, f)
    ensures
      var d := Decode(tail, NextFrag(frag, f.fin, f.opcode));
      Decode(EncodeFrame(f) + tail, frag) == d.(frames := [f] + d.frames)
  {
    hide ScanHeader, FrameAt, Decode, EncodeFrame;
    DecodeUnfold(EncodeFrame(f) + tail, FrameHeader(f), frag) by {
      FrameScan(f, tail, frag);
    }
    FrameScan(f, tail, frag);
  }

  function FrameHeader(f: Frame): Header
    requires |f.payload| < LENGTH_LIMIT
  {
    Header(f.fin, f.opcode, |f.payload|, 1 + |LengthField(true, |f.payload|)|)
  }

  lemma FrameScan(f: Frame, tail: bytes, frag: nat)
    requires FrameLegal(frag, f)
    ensures
      var s, h := EncodeFrame(f) + tail, FrameHeader(f);
      && ScanHeader(s, frag) == Whole(h)
      && |s| == h.size + 4 + h.len + |tail|
      && FrameAt(s, h) == f
      && s[h.size + 4 + h.len..] == tail
  {
    hide ScanHeader, ApplyMask, LengthField, HeaderLegal;
    var front := [FirstByte(f.fin, f.opcode)] + LengthField(true, |f.payload|);
    var body := ApplyMask(f.key, 0, f.payload);
    var s := EncodeFrame(f) + tail;
    Slices(front, f.key, body, tail);
    ScanOfLength(FirstByte(f.fin, f.opcode), |f.payload|, f.key + body + tail, frag);
    MaskTwice(f.key, 0, f.payload);
  }

  lemma DecodeUnfold(s: bytes, h: Header, frag: nat)
    requires ScanHeader(s, frag) == Whole(h)
    requires |s| >= h.size + 4 + h.len
    ensures
      var d := Decode(s[h.size + 4 + h.len..], NextFrag(frag, h.fin, h.opcode));
      Decode(s, frag) == d.(frames := [FrameAt(s, h)] + d.frames)
  {
    hide ScanHeader, FrameAt;
  }

  /** Completeness: any legal frame list, under any keys, is decoded to itself. */
  lemma {:induction false} DecodeEncode(frag: nat, fs: seq<Frame>)
    requires Legal(frag, fs)
    ensures Decode(EncodeAll(frag, fs), frag) == Decoded(fs, [], FragAfter(frag, fs))
    decreases |fs|
  {
    hide ScanHeader, EncodeFrame, HeaderLegal;
    if fs != [] {
      var frag' := NextFrag(frag, fs[0].fin, fs[0].opcode);
      DecodeFrame(fs[0], EncodeAll(frag', fs[1..]), frag);
      DecodeEncode(frag', fs[1..]);
      assert fs == [fs[0]] + fs[1..];
    }
  }

  lemma LengthFieldOfScan(s: bytes, frag: nat)
    requires ScanHeader(s, frag).Whole?
    ensures
      var h := ScanHeader(s, frag).header;
      h.len < LENGTH_LIMIT && ValidOpcode(h.opcode) && HeaderLegal(frag, h.fin, h.opcode, h.len)
      && s[..h.size] == [FirstByte(h.fin, h.opcode)] + LengthField(true, h.len)
  {
    hide BeValue, BeBytes;
    var h := ScanHeader(s, frag).header;
    var need := h.size - 2;
    var ext := s[2..h.size];
    assert FirstByte(h.fin, h.opcode) == s[0];
    if need != 0 {
      BeBytesOfValue(ext);
      BeValueBound(ext);
      if need == 2 { Pow256Two(); }
      assert LengthField(true, h.len) == [s[1]] + ext;
    } else {
      assert LengthField(true, h.len) == [s[1]];
    }
    assert s[..h.size] == [s[0], s[1]] + ext;
  }

  /** Soundness: whatever the decoder returns is legal, and encodes to the bytes it read. */
  lemma {:induction false} EncodeDecode(s: bytes, frag: nat)
    ensures
      var d := Decode(s, frag);
      && Legal(frag, d.frames)
      && d.frag == FragAfter(frag, d.frames)
      && s == EncodeAll(frag, d.frames) + d.rest
    decreases |s|
  {
    hide ScanHeader, FrameAt, EncodeFrame, HeaderLegal;
    match ScanHeader(s, frag)
    case Whole(h) =>
      var total := h.size + 4 + h.len;
      if total <= |s| {
        FrameOfScan(s, h, frag);
        var f := FrameAt(s, h);
        var frag' := NextFrag(frag, h.fin, h.opcode);
        EncodeDecode(s[total..], frag');
        DecodeUnfold(s, h, frag);
        var d' := Decode(s[total..], frag');
        assert ([f] + d'.frames)[1..] == d'.frames;
        assert s == s[..total] + (EncodeAll(frag', d'.frames) + d'.rest);
        assert s == (s[..total] + EncodeAll(frag', d'.frames)) + d'.rest;
      }
    case _ =>
  }

  lemma FrameOfScan(s: bytes, h: Header, frag: nat)
    requires ScanHeader(s, frag) == Whole(h)
    requires |s| >= h.size + 4 + h.len
    ensures FrameAt(s, h).fin == h.fin && FrameAt(s, h).opcode == h.opcode
    ensures FrameLegal(frag, FrameAt(s, h))
    ensures EncodeFrame(FrameAt(s, h)) == s[..h.size + 4 + h.len]
  {
    hide ScanHeader, ApplyMask, LengthField, HeaderLegal, ValidOpcode;
    LengthFieldOfScan(s, frag);
    var total := h.size + 4 + h.len;
    var key, body := s[h.size..h.size + 4], s[h.size + 4..total];
    MaskTwice(key, 0, body);
    Rejoin(s, h.size, h.size + 4, total);
    assert EncodeFrame(FrameAt(s, h)) == s[..h.size] + key + body;
  }

  /** A stream is rejected exactly when it is some legal frames followed by an illegal header. */
  lemma RejectedExactly(s: bytes)
    ensures Run(START, s).final.None? <==>
            exists fs, tail :: Legal(0, fs) && s == EncodeAll(0, fs) + tail && ScanHeader(tail, FragAfter(0, fs)).Bad?
  {
    hide Run, ScanHeader, EncodeAll, Legal, FragAfter;
    AutomatonRefinesDecoder(s, 0);
    EncodeDecode(s, 0);
    var d := Decode(s, 0);
    if Illegal(s, 0) {
      assert Legal(0, d.frames) && s == EncodeAll(0, d.frames) + d.rest && ScanHeader(d.rest, FragAfter(0, d.frames)).Bad?;
    }
    forall fs, tail | Legal(0, fs) && s == EncodeAll(0, fs) + tail && ScanHeader(tail, FragAfter(0, fs)).Bad?
      ensures Illegal(s, 0)
    {
      DecodePrefix(0, fs, tail);
    }
  }

  lemma {:induction false} DecodePrefix(frag: nat, fs: seq<Frame>, tail: bytes)
    requires Legal(frag, fs)
    ensures
      var d := Decode(tail, FragAfter(frag, fs));
      Decode(EncodeAll(frag, fs) + tail, frag) == d.(frames := fs + d.frames)
    decreases |fs|
  {
    hide Decode, ScanHeader, EncodeFrame, HeaderLegal;
    var d := Decode(tail, FragAfter(frag, fs));
    if fs == [] {
      assert EncodeAll(frag, fs) + tail == tail;
      assert fs + d.frames == d.frames;
    } else {
      var frag' := NextFrag(frag, fs[0].fin, fs[0].opcode);
      var rest := EncodeAll(frag', fs[1..]);
      assert EncodeAll(frag, fs) + tail == EncodeFrame(fs[0]) + (rest + tail);
      DecodeFrame(fs[0], rest + tail, frag);
      DecodePrefix(frag', fs[1..], tail);
      assert fs + d.frames == [fs[0]] + (fs[1..] + d.frames);
    }
  }

  // ---------------------------------------------------------------------
  // What a proxy forwards
  // ---------------------------------------------------------------------

  /** Payload bytes that go to the target, and payload bytes that a PONG answers. */
  datatype Kind = DataBytes | PingBytes

  predicate Selects(kind: Kind, op: nat) {
    if kind == DataBytes then !IsControl(op) else op == PING
  }

  /** The payload bytes of one kind, up to the first sign of a CLOSE frame. */
  function Relayed(kind: Kind, events: seq<Event>): bytes {
    if events == [] || events[0].opcode == CLOSE then []
    else if events[0].Data? && Selects(kind, events[0].opcode) then [events[0].value] + Relayed(kind, events[1..])
    else Relayed(kind, events[1..])
  }

  predicate HasClose(events: seq<Event>) {
    events != [] && (events[0].opcode == CLOSE || HasClose(events[1..]))
  }

  lemma {:induction false} RelayedConcat(kind: Kind, x: seq<Event>, y: seq<Event>)
    ensures HasClose(x + y) == (HasClose(x) || HasClose(y))
    ensures Relayed(kind, x + y) == Relayed(kind, x) + (if HasClose(x) then [] else Relayed(kind, y))
  {
    if x == [] {
      assert x + y == y;
    } else {
      assert (x + y)[0] == x[0] && (x + y)[1..] == x[1..] + y;
      RelayedConcat(kind, x[1..], y);
    }
  }

  lemma {:induction false} RelayedData(kind: Kind, op: nat, p: bytes)
    ensures HasClose(DataEvents(op, p)) == (op == CLOSE && p != [])
    ensures Relayed(kind, DataEvents(op, p)) == if Selects(kind, op) then p else []
  {
    var ev := DataEvents(op, p);
    if p != [] {
      assert ev[1..] == DataEvents(op, p[1..]);
      RelayedData(kind, op, p[1..]);
    }
  }

  /** The same for a list of frames. */
  function FramesRelayed(kind: Kind, fs: seq<Frame>): bytes {
    if fs == [] || fs[0].opcode == CLOSE then []
    else (if Selects(kind, fs[0].opcode) then fs[0].payload else []) + FramesRelayed(kind, fs[1..])
  }

  predicate ClosesIn(fs: seq<Frame>) {
    exists i :: 0 <= i < |fs| && fs[i].opcode == CLOSE
  }

  lemma {:induction false} RelayedFrames(kind: Kind, fs: seq<Frame>)
    ensures Relayed(kind, AllEvents(fs)) == FramesRelayed(kind, fs)
    ensures HasClose(AllEvents(fs)) == ClosesIn(fs)
    decreases |fs|
  {
    hide Relayed, HasClose, FrameEvents, ClosesIn;
    if fs == [] {
      NothingRelayed(kind);
    } else {
      RelayedFrame(kind, fs[0]);
      RelayedConcat(kind, FrameEvents(fs[0]), AllEvents(fs[1..]));
      RelayedFrames(kind, fs[1..]);
      ClosesInCons(fs);
    }
  }

  lemma NothingRelayed(kind: Kind)
    ensures Relayed(kind, []) == [] && !HasClose([]) && !ClosesIn([])
  {
  }

  /** What one frame contributes. */
  lemma RelayedFrame(kind: Kind, f: Frame)
    ensures Relayed(kind, FrameEvents(f)) == if Selects(kind, f.opcode) && f.opcode != CLOSE then f.payload else []
    ensures HasClose(FrameEvents(f)) == (f.opcode == CLOSE)
  {
    hide Relayed, HasClose, DataEvents;
    RelayedData(kind, f.opcode, f.payload);
    RelayedEnd(kind, f.opcode, f.fin);
    RelayedConcat(kind, DataEvents(f.opcode, f.payload), [End(f.opcode, f.fin)]);
  }

  lemma RelayedEnd(kind: Kind, op: nat, fin: bool)
    ensures Relayed(kind, [End(op, fin)]) == [] && HasClose([End(op, fin)]) == (op == CLOSE)
  {
    var end := [End(op, fin)];
    assert end[1..] == [];
  }

  lemma ClosesInCons(fs: seq<Frame>)
    requires fs != []
    ensures ClosesIn(fs) == (fs[0].opcode == CLOSE || ClosesIn(fs[1..]))
  {
    if ClosesIn(fs[1..]) {
      var i :| 0 <= i < |fs[1..]| && fs[1..][i].opcode == CLOSE;
      assert fs[i + 1].opcode == CLOSE;
    }
    if ClosesIn(fs) && fs[0].opcode != CLOSE {
      var i :| 0 <= i < |fs| && fs[i].opcode == CLOSE;
      assert fs[1..][i - 1].opcode == CLOSE;
    }
  }

  /** What is relayed only grows as more bytes arrive. */
  lemma RelayedMonotone(kind: Kind, a: Automaton, x: bytes, y: bytes)
    ensures Relayed(kind, Run(a, x).events) <= Relayed(kind, Run(a, x + y).events)
    ensures HasClose(Run(a, x).events) ==> Relayed(kind, Run(a, x + y).events) == Relayed(kind, Run(a, x).events)
  {
    RunConcat(a, x, y);
    var r := Run(a, x);
    if r.final.Some? {
      RelayedConcat(kind, r.events, Run(r.final.value, y).events);
    }
  }

  /** The payload of one kind that the whole-stream decoder finds, up to the first CLOSE. */
  function DecodedPayload(kind: Kind, s: bytes): bytes {
    var d := Decode(s, 0);
    FramesRelayed(kind, d.frames) + (if ClosesIn(d.frames) then [] else Relayed(kind, TailEvents(d.rest, d.frag)))
  }

  lemma DecodedIsRelayed(kind: Kind, s: bytes)
    ensures Relayed(kind, Run(START, s).events) == DecodedPayload(kind, s)
  {
    hide Run, Decode, AllEvents, TailEvents, Relayed, FramesRelayed;
    AutomatonRefinesDecoder(s, 0);
    var d := Decode(s, 0);
    RelayedFrames(kind, d.frames);
    RelayedConcat(kind, AllEvents(d.frames), TailEvents(d.rest, d.frag));
  }

  // The payload of a CLOSE.

  /** The payload bytes of the first CLOSE frame. */
  function FirstClose(events: seq<Event>): bytes {
    if events == [] then []
    else match events[0]
      case Data(op, value) => (if op == CLOSE then [value] else []) + FirstClose(events[1..])
      case End(op, _) => if op == CLOSE then [] else FirstClose(events[1..])
  }

  predicate EndsClose(events: seq<Event>) {
    events != [] && ((events[0].opcode == CLOSE && events[0].End?) || EndsClose(events[1..]))
  }

  lemma {:induction false} FirstCloseConcat(x: seq<Event>, y: seq<Event>)
    ensures EndsClose(x + y) == (EndsClose(x) || EndsClose(y))
    ensures FirstClose(x + y) == FirstClose(x) + (if EndsClose(x) then [] else FirstClose(y))
  {
    if x == [] {
      assert x + y == y;
    } else {
      assert (x + y)[0] == x[0] && (x + y)[1..] == x[1..] + y;
      FirstCloseConcat(x[1..], y);
    }
  }

  lemma {:induction false} NoFirstClose(events: seq<Event>)
    requires !HasClose(events)
    ensures FirstClose(events) == [] && !EndsClose(events)
  {
    if events != [] {
      NoFirstClose(events[1..]);
    }
  }

  lemma {:induction false} FirstCloseData(op: nat, p: bytes)
    ensures FirstClose(DataEvents(op, p)) == (if op == CLOSE then p else []) && !EndsClose(DataEvents(op, p))
  {
    var ev := DataEvents(op, p);
    if p != [] {
      assert ev[1..] == DataEvents(op, p[1..]);
      FirstCloseData(op, p[1..]);
    }
  }

  lemma FirstCloseEnd(op: nat, fin: bool)
    ensures FirstClose([End(op, fin)]) == [] && EndsClose([End(op, fin)]) == (op == CLOSE)
    ensures FirstClose([]) == [] && !EndsClose([])
  {
    var end := [End(op, fin)];
    assert end[1..] == [];
  }

  /** The same for a list of frames. */
  function CloseOf(fs: seq<Frame>): bytes {
    if fs == [] then [] else if fs[0].opcode == CLOSE then fs[0].payload else CloseOf(fs[1..])
  }

  lemma {:induction false} FirstCloseFrames(fs: seq<Frame>)
    ensures FirstClose(AllEvents(fs)) == CloseOf(fs)
    ensures EndsClose(AllEvents(fs)) == ClosesIn(fs)
    decreases |fs|
  {
    hide FirstClose, EndsClose, FrameEvents, ClosesIn;
    if fs == [] {
      FirstCloseEnd(0, true);
      NothingRelayed(DataBytes);
    } else {
      FirstCloseFrame(fs[0]);
      FirstCloseConcat(FrameEvents(fs[0]), AllEvents(fs[1..]));
      FirstCloseFrames(fs[1..]);
      ClosesInCons(fs);
    }
  }

  lemma FirstCloseFrame(f: Frame)
    ensures FirstClose(FrameEvents(f)) == if f.opcode == CLOSE then f.payload else []
    ensures EndsClose(FrameEvents(f)) == (f.opcode == CLOSE)
  {
    hide FirstClose, EndsClose, DataEvents;
    FirstCloseData(f.opcode, f.payload);
    FirstCloseEnd(f.opcode, f.fin);
    FirstCloseConcat(DataEvents(f.opcode, f.payload), [End(f.opcode, f.fin)]);
  }

  /** The payload of the first CLOSE frame that the whole-stream decoder finds, or of the one
      that has not ended yet. */
  function DecodedClose(s: bytes): bytes {
    var d := Decode(s, 0);
    if ClosesIn(d.frames) then CloseOf(d.frames) else CloseTail(d.rest, d.frag)
  }

  function CloseTail(s: bytes, frag: nat): bytes {
    match ScanHeader(s, frag)
    case Whole(h) =>
      if h.opcode == CLOSE && |s| > h.size + 4
      then ApplyMask(s[h.size..h.size + 4], 0, s[h.size + 4..]) else []
    case _ => []
  }

  lemma {:induction false} NoCloseFrame(fs: seq<Frame>)
    requires !ClosesIn(fs)
    ensures CloseOf(fs) == []
    decreases |fs|
  {
    hide ClosesIn;
    if fs != [] {
      ClosesInCons(fs);
      NoCloseFrame(fs[1..]);
    }
  }

  lemma CloseTailEvents(s: bytes, frag: nat)
    ensures FirstClose(TailEvents(s, frag)) == CloseTail(s, frag)
  {
    hide FirstClose, EndsClose, DataEvents, ApplyMask, ScanHeader;
    FirstCloseEnd(0, true);
    match ScanHeader(s, frag)
    case Whole(h) =>
      if |s| > h.size + 4 {
        FirstCloseData(h.opcode, ApplyMask(s[h.size..h.size + 4], 0, s[h.size + 4..]));
      }
    case _ =>
  }

  lemma DecodedIsClose(s: bytes)
    ensures FirstClose(Run(START, s).events) == DecodedClose(s)
  {
    hide Run, Decode, AllEvents, TailEvents, CloseTail, FirstClose, EndsClose, CloseOf, ClosesIn;
    AutomatonRefinesDecoder(s, 0);
    var d := Decode(s, 0);
    FirstCloseFrames(d.frames);
    CloseTailEvents(d.rest, d.frag);
    FirstCloseConcat(AllEvents(d.frames), TailEvents(d.rest, d.frag));
    if !ClosesIn(d.frames) {
      NoCloseFrame(d.frames);
    }
  }
}
