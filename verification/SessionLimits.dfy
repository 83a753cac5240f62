/** The exact ring sizes from which a session keeps its promises, with sessions that break them below. */
module SessionLimits {
  import opened Core
  import opened WsSpec
  import opened WsWriter
  import opened WsParser
  import opened Handshake
  import opened Intake
  import opened SessionSpec
  import WsLaws

  /** An open session between two events, after the handshake with a client that was accepted. */
  ghost predicate Genuine(v: View) {
    && Open(v) && CaughtUp(v) && v.done && |v.early| < IO_CHUNK
    && exists key :: Introduced(v.clientIn, key, v.header, v.greeting)
  }

  const SAMPLE_KEY: bytes := [65]

  lemma SampleAccepted()
    ensures
      var request := UpgradeRequest(SAMPLE_KEY);
      Judge(request) == Accepted(SAMPLE_KEY, |request|) && |request| <= 300 && |Response(SAMPLE_KEY)| == 129
  {
    hide Judge, UpgradeRequest, Response;
    UpgradeAccepted(SAMPLE_KEY);
    ResponseShape(SAMPLE_KEY);
  }

  // ---------------------------------------------------------------------
  // Dropped bytes
  // ---------------------------------------------------------------------

  /** A session that has just got its request and early bytes, and has processed them. */
  function Flooded(capacity: nat, request: bytes, greeting: bytes, early: bytes): View {
    var heard := early[..Taken(Gate(START, capacity), early)];
    View(capacity, request + early, [], [], [], greeting, RelayedBy(START, heard), [], [], true, greeting,
         |request|, early, |heard|, 0, false, [], true)
  }

  lemma FloodedIsOpen(capacity: nat, request: bytes, greeting: bytes, early: bytes)
    requires |greeting| == 129 && Taken(Gate(START, capacity), early) < |early|
    ensures Open(Flooded(capacity, request, greeting, early)) && CaughtUp(Flooded(capacity, request, greeting, early))
    ensures Early(Flooded(capacity, request, greeting, early))
  {
    hide Run, Relayed, EncodeOuts, Payloads, Taken, Fills, ToTarget, RelayedBy, Heard, FirstClose, Early, Wire;
    var v := Flooded(capacity, request, greeting, early);
    FloodedFills(capacity, request, greeting, early);
    FloodedParts(capacity, request, greeting, early);
    NothingYet();
  }

  lemma FloodedParts(capacity: nat, request: bytes, greeting: bytes, early: bytes)
    requires |greeting| == 129
    ensures Early(Flooded(capacity, request, greeting, early)) && Wire(Flooded(capacity, request, greeting, early))
  {
    hide RelayedBy, Taken, EncodeOuts;
    NothingYet();
    assert (request + early)[|request|..|request| + |early|] == early;
    assert [] + greeting == greeting + [] == greeting;
  }

  lemma FloodedFills(capacity: nat, request: bytes, greeting: bytes, early: bytes)
    requires Taken(Gate(START, capacity), early) < |early|
    ensures
      var v := Flooded(capacity, request, greeting, early);
      ToTarget(v) && v.fed == |Heard(v)| && |v.c2t| == capacity
  {
    hide Run, Relayed, Taken, Halts, CrampedAt;
    var v, g := Flooded(capacity, request, greeting, early), Gate(START, capacity);
    TakenFills(g, early);
    NothingYet();
    var heard := early[..Taken(g, early)];
    assert Heard(v) == heard && Heard(v)[..v.fed] == heard;
    NoPings(Run(START, heard).events);
    NoCloseIn(Run(START, heard).events);
  }

  /** Rings of 4087 bytes are large enough to drop nothing, and no smaller ones are: for each
      there are early bytes, after a request that is accepted, that it drops. */
  lemma RingSizeExactly(capacity: nat)
    requires 0 < capacity
    ensures (forall v: View | v.capacity == capacity && Genuine(v) :: Heard(v) == Stream(v)) <==> capacity >= 4087
  {
    hide Taken, Overfull, Heard, Open, CaughtUp, Introduced, Early, Judge, Response, UpgradeRequest, Flooded;
    if capacity >= 4087 {
      forall v: View | v.capacity == capacity && Genuine(v)
        ensures Heard(v) == Stream(v)
      {
        GenuineIsEarly(v);
        HeardExactly(v);
      }
    } else {
      OverfullDrops(capacity);
    }
  }

  lemma GenuineIsEarly(v: View)
    requires Genuine(v)
    ensures Early(v)
  {
    hide Run, Relayed, EncodeOuts, Payloads, Taken, Introduced;
  }

  /** A ring of fewer than 4087 bytes drops the end of a frame that fills it. */
  lemma OverfullDrops(capacity: nat)
    requires 0 < capacity < 4087
    ensures
      var v := Flooded(capacity, UpgradeRequest(SAMPLE_KEY), Response(SAMPLE_KEY), Overfull(capacity));
      v.capacity == capacity && Genuine(v) && Heard(v) != Stream(v)
  {
    hide Taken, Overfull, Open, CaughtUp, Introduced, Judge, Response, UpgradeRequest, RelayedBy, Heard;
    var request, greeting, early := UpgradeRequest(SAMPLE_KEY), Response(SAMPLE_KEY), Overfull(capacity);
    SampleAccepted();
    DropThreshold(capacity, IO_CHUNK);
    FloodedIsOpen(capacity, request, greeting, early);
    var v := Flooded(capacity, request, greeting, early);
    IntroducedBy(request, SAMPLE_KEY, |request|);
    IntroducedMore(request, early, SAMPLE_KEY, |request|, greeting);
    HeardExactly(v);
  }

  // ---------------------------------------------------------------------
  // Back-pressure
  // ---------------------------------------------------------------------

  /** Back-pressure cannot deadlock exactly when a ring holds at least two bytes. */
  lemma NoDeadlockExactly(capacity: nat)
    requires capacity > 0
    ensures (forall v: View | v.capacity == capacity && Genuine(v) :: Drains(v)) <==> capacity >= 2
  {
    hide Genuine, Judge, UpgradeRequest, Response;
    if capacity >= 2 {
      assert HighWater(capacity) >= 1;
    } else {
      SampleAccepted();
      OneByteRingsAreStuck(UpgradeRequest(SAMPLE_KEY), SAMPLE_KEY);
    }
  }

  /** A session whose response was sent, and that has parsed the bytes s since and passed none on. */
  function Midway(capacity: nat, request: bytes, greeting: bytes, s: bytes): View {
    View(capacity, request + s, greeting, [], [], [], RelayedBy(START, s), [], [], true, greeting,
         |request|, [], |s|, 0, false, [], false)
  }

  lemma MidwayIsOpen(capacity: nat, request: bytes, greeting: bytes, s: bytes)
    requires |greeting| == 129 && Run(START, s).final.Some? && !Halts(Run(START, s).events)
    requires |RelayedBy(START, s)| <= capacity
    ensures
      var v := Midway(capacity, request, greeting, s);
      && Open(v) && CaughtUp(v) && Heard(v) == s && InStep(v, Run(START, s).final.value)
      && |v.c2t| == |RelayedBy(START, s)|
  {
    hide Run, Relayed, EncodeOuts, Payloads, Taken, Halts, FirstClose;
    var v := Midway(capacity, request, greeting, s);
    NothingYet();
    NoPings(Run(START, s).events);
    NoCloseIn(Run(START, s).events);
    assert Heard(v) == s && Heard(v)[..v.fed] == s;
    assert greeting + [] == greeting;
  }

  lemma MidwayIsGenuine(capacity: nat, request: bytes, key: bytes, s: bytes)
    requires Judge(request) == Accepted(key, |request|)
    requires Run(START, s).final.Some? && !Halts(Run(START, s).events) && |RelayedBy(START, s)| <= capacity
    ensures
      var v := Midway(capacity, request, Response(key), s);
      Genuine(v) && InStep(v, Run(START, s).final.value) && |v.c2t| == |RelayedBy(START, s)|
  {
    hide Open, CaughtUp, Response, Judge, Introduced, Run, Halts, RelayedBy, Heard;
    IntroducedBy(request, key, |request|);
    IntroducedMore(request, s, key, |request|, Response(key));
    MidwayIsOpen(capacity, request, Response(key), s);
  }

  lemma NothingHeard()
    ensures Run(START, []).final.Some? && !Halts(Run(START, []).events) && RelayedBy(START, []) == []
  {
    RunEmpty(START);
    NothingHalts();
  }

  /** With one-byte rings a session waits for nothing at all once its response is sent,
      whatever request was accepted. */
  lemma OneByteRingsAreStuck(request: bytes, key: bytes)
    requires Judge(request) == Accepted(key, |request|)
    ensures
      var v := Midway(1, request, Response(key), []);
      && Genuine(v) && !Drains(v)
      && ClientInterest(v) == Interest(false, false) && TargetInterest(v) == Interest(false, false)
  {
    hide Genuine, Response, Judge, RelayedBy;
    NothingHeard();
    MidwayIsGenuine(1, request, key, []);
  }

  // ---------------------------------------------------------------------
  // Reading
  // ---------------------------------------------------------------------

  /** A read that the session asks for makes the parser give up on a control frame. */
  ghost predicate Stalls(v: View, a: Automaton, chunk: bytes, m: nat) {
    && Genuine(v) && InStep(v, a) && ClientInterest(v).read
    && |v.c2t| <= v.capacity && m < |chunk| <= Min(IO_CHUNK, v.capacity - |v.c2t|)
    && CrampedAt(Gate(a, v.capacity - |v.c2t|), chunk, m) && !HasClose(Run(a, chunk[..m]).events)
  }

  ghost predicate CanStall(capacity: nat) {
    exists v: View, a: Automaton, chunk: bytes, m: nat :: v.capacity == capacity && Stalls(v, a, chunk, m)
  }

  /** Rings of 16849 bytes have room for every control frame, and no smaller ones do, but for those
      of one byte, which the session never asks to fill. */
  lemma ReadSizeExactly(capacity: nat)
    requires capacity > 0
    ensures CanStall(capacity) <==> 2 <= capacity < 16849
  {
    hide Genuine, InStep, CrampedAt, HasClose, Run;
    if 2 <= capacity < 16849 {
      StallWitness(capacity);
    }
    forall v: View, a: Automaton, chunk: bytes, m: nat | v.capacity == capacity && Stalls(v, a, chunk, m)
      ensures 2 <= capacity < 16849
    {
      GenuineIsWellFormed(v, a);
      if capacity >= 16849 {
        CrampedNeeds(a, capacity - |v.c2t|, chunk, m);
      }
    }
  }

  lemma GenuineIsWellFormed(v: View, a: Automaton)
    requires Genuine(v) && InStep(v, a)
    ensures WellFormed(a) && |v.c2t| <= v.capacity && v.done
  {
    hide Run, Relayed, EncodeOuts, Payloads, Taken, Introduced, Heard;
    RunWellFormed(START, Heard(v)[..v.fed]);
  }

  lemma CrampedNeeds(a: Automaton, room: nat, chunk: bytes, m: nat)
    requires WellFormed(a) && CrampedAt(Gate(a, room), chunk, m) && !HasClose(Run(a, chunk[..m]).events)
    requires |chunk| <= Min(IO_CHUNK, room)
    ensures room < IO_CHUNK + 118
  {
    hide Run, Relayed, Oversized, HasClose, WellFormed;
    if room >= IO_CHUNK + 118 {
      NoStall(a, chunk[..m], room, |chunk|);
    }
  }

  /** The header and mask of a PONG with the largest payload. */
  const PONG_HEADER: bytes := [138, 253, 0, 0, 0, 0]

  function AtPong(): Automaton {
    Automaton(InPayload(true, PONG, 125, [0, 0, 0, 0], 0), 0)
  }

  lemma RunPong()
    ensures Run(START, PONG_HEADER) == Outcome([], Some(AtPong()))
  {
    hide Run, Step;
    var x, y := PONG_HEADER[..2], PONG_HEADER[2..];
    assert x == [138, 253] && y == [0, 0, 0, 0] && PONG_HEADER == x + y;
    RunFirstTwo(x, 0);
    RunMask(0, true, PONG, 125, [], y);
    assert [] + y == y;
    RunConcat(START, x, y);
  }

  /** Where the data ring is just below its high-water mark, and how much data is still to come
      before the PONG. */
  function Waits(capacity: nat): nat
    requires capacity >= 2
  {
    HighWater(capacity) - 1
  }

  lemma StallWitness(capacity: nat)
    requires 2 <= capacity < 16849
    ensures CanStall(capacity)
  {
    hide Genuine, InStep, CrampedAt, Run, Judge, Response, UpgradeRequest, HasClose;
    SampleAccepted();
    var waiting := Waits(capacity);
    var room := capacity - waiting;
    if room < 125 {
      SmallStall(capacity);
    } else {
      LargeStall(capacity);
    }
  }

  /** A whole frame that carries n zero bytes, and then something else. */
  lemma RunFull(n: nat, tail: bytes)
    requires n < LENGTH_LIMIT
    ensures
      var r := Run(START, tail);
      Run(START, EncodeFrame(Full(n)) + tail) == Outcome(FrameEvents(Full(n)) + r.events, r.final)
  {
    hide Run, Step, ScanHeader, EncodeFrame, FrameEvents, FrameAt;
    var f := Full(n);
    var s, h := EncodeFrame(f) + tail, FrameHeader(f);
    FrameScan(f, tail, 0);
    RunFrame(s, h, 0);
    var k := |s| - |tail|;
    assert s == s[..k] + s[k..];
    RunConcat(START, s[..k], tail);
  }

  /** A frame that fills what is left below the mark, and then a PONG for which there is no room. */
  lemma SmallStall(capacity: nat)
    requires 2 <= capacity && capacity - Waits(capacity) < 125
    requires Judge(UpgradeRequest(SAMPLE_KEY)) == Accepted(SAMPLE_KEY, |UpgradeRequest(SAMPLE_KEY)|)
    ensures CanStall(capacity)
  {
    hide Genuine, InStep, Run, Judge, Response, UpgradeRequest, Relayed, Halts, FrameEvents, EncodeFrame, HasClose;
    var n := Waits(capacity);
    var s := EncodeFrame(Full(n)) + PONG_HEADER;
    RunFull(n, PONG_HEADER);
    RunPong();
    assert FrameEvents(Full(n)) + [] == FrameEvents(Full(n));
    FullEvents(Full(n));
    MidwayIsGenuine(capacity, UpgradeRequest(SAMPLE_KEY), SAMPLE_KEY, s);
    var v := Midway(capacity, UpgradeRequest(SAMPLE_KEY), Response(SAMPLE_KEY), s);
    var chunk: bytes := [0];
    assert chunk[..0] == [];
    RunEmpty(AtPong());
    NothingYet();
    assert Stalls(v, AtPong(), chunk, 0);
  }

  /** The first bytes of a frame relay what they carry of its payload. */
  lemma PartialFrame(n: nat, k: nat)
    requires k < n < LENGTH_LIMIT
    ensures
      var full := EncodeFrame(Full(n));
      n - k <= |full| && |RelayedBy(START, full[..|full| - (n - k)])| == k
  {
    hide Run, Step, ScanHeader, Relayed, DataEvents, ApplyMask, LengthField;
    var f := Full(n);
    var front, body := [FirstByte(f.fin, f.opcode)] + LengthField(true, n), ApplyMask(f.key, 0, f.payload);
    var full := EncodeFrame(f);
    assert full == front + f.key + body && |body| == n;
    var s := full[..|full| - (n - k)];
    CutFrame(front, f.key, body, k);
    ScanOfLength(FirstByte(f.fin, f.opcode), n, f.key + body[..k], 0);
    AutomatonRefinesDecoder(s, 0);
    PartialTail(s, FrameHeader(f), k);
  }

  lemma CutFrame(front: bytes, key: bytes, body: bytes, k: nat)
    requires k <= |body|
    ensures
      var full := front + key + body;
      full[..|full| - (|body| - k)] == front + (key + body[..k])
  {
  }

  lemma PartialTail(s: bytes, h: Header, k: nat)
    requires ScanHeader(s, 0) == Whole(h) && |s| == h.size + 4 + k && k < h.len && h.opcode == BINARY
    requires Run(START, s).events == AllEvents(Decode(s, 0).frames) + TailEvents(Decode(s, 0).rest, Decode(s, 0).frag)
    ensures |RelayedBy(START, s)| == k
  {
    hide Run, ScanHeader, Relayed, DataEvents, ApplyMask, Decode, AllEvents, TailEvents;
    DecodePart(s, h);
    var p := ApplyMask(s[h.size..h.size + 4], 0, s[h.size + 4..]);
    TailOf(s, h, p);
    RelayedData(DataBytes, BINARY, p);
    assert [] + TailEvents(s, 0) == TailEvents(s, 0);
  }

  lemma TailOf(s: bytes, h: Header, p: bytes)
    requires ScanHeader(s, 0) == Whole(h) && |s| >= h.size + 4 && h.opcode == BINARY
    requires p == ApplyMask(s[h.size..h.size + 4], 0, s[h.size + 4..])
    ensures TailEvents(s, 0) == DataEvents(BINARY, p)
  {
    hide ScanHeader, ApplyMask;
    if |s| == h.size + 4 {
      assert p == [];
    }
  }

  lemma DecodePart(s: bytes, h: Header)
    requires ScanHeader(s, 0) == Whole(h) && |s| < h.size + 4 + h.len
    ensures Decode(s, 0) == Decoded([], s, 0) && AllEvents([]) == []
  {
    hide ScanHeader;
  }

  /** The rest of a data frame and then a PONG, in one read. */
  lemma LargeStall(capacity: nat)
    requires 2 <= capacity < 16849 && capacity - Waits(capacity) >= 125
    requires Judge(UpgradeRequest(SAMPLE_KEY)) == Accepted(SAMPLE_KEY, |UpgradeRequest(SAMPLE_KEY)|)
    ensures CanStall(capacity)
  {
    hide Genuine, InStep, Run, Judge, Response, UpgradeRequest, Relayed, Halts, FrameEvents, EncodeFrame, HasClose,
      RelayedBy, CrampedAt;
    var k := Waits(capacity);
    var d := capacity - k - 124;
    var full := EncodeFrame(Full(k + d));
    PartialFrame(k + d, k);
    var s, y := full[..|full| - d], full[|full| - d..];
    SplitFrame(k, d, s, y);
    var a := Run(START, s).final.value;
    MidwayIsGenuine(capacity, UpgradeRequest(SAMPLE_KEY), SAMPLE_KEY, s);
    var v := Midway(capacity, UpgradeRequest(SAMPLE_KEY), Response(SAMPLE_KEY), s);
    var chunk := y + PONG_HEADER + [0];
    assert chunk[..d + 6] == y + PONG_HEADER;
    CrampedHere(a, d + 124, chunk, d);
    assert Stalls(v, a, chunk, d + 6);
  }

  lemma CrampedHere(a: Automaton, room: nat, chunk: bytes, d: nat)
    requires |chunk| == d + 7 && room == d + 124
    requires Run(a, chunk[..d + 6]).final == Some(AtPong()) && |RelayedBy(a, chunk[..d + 6])| == d
    ensures CrampedAt(Gate(a, room), chunk, d + 6)
  {
    hide Run, RelayedBy;
  }

  /** Where a data frame of k + d bytes is cut after k of them, d more come before the PONG. */
  lemma SplitFrame(k: nat, d: nat, s: bytes, y: bytes)
    requires 0 < d && k + d < LENGTH_LIMIT && s + y == EncodeFrame(Full(k + d)) && |RelayedBy(START, s)| == k
    ensures Run(START, s).final.Some? && !Halts(Run(START, s).events)
    ensures
      var a := Run(START, s).final.value;
      var r := Run(a, y + PONG_HEADER);
      r.final == Some(AtPong()) && |RelayedBy(a, y + PONG_HEADER)| == d && !HasClose(r.events)
  {
    hide Run, Relayed, Halts, FrameEvents, EncodeFrame, HasClose;
    var f := Full(k + d);
    RunFull(k + d, PONG_HEADER);
    RunPong();
    assert FrameEvents(f) + [] == FrameEvents(f);
    assert EncodeFrame(f) + PONG_HEADER == s + (y + PONG_HEADER);
    RunConcat(START, s, y + PONG_HEADER);
    var r := Run(START, s);
    var q := Run(r.final.value, y + PONG_HEADER);
    FullEvents(f);
    HaltsConcat(r.events, q.events);
    NoCloseIn(r.events);
    NoCloseIn(q.events);
    RelayedConcat(DataBytes, r.events, q.events);
  }

  // ---------------------------------------------------------------------
  // Writing
  // ---------------------------------------------------------------------

  /** The bytes of the next data frame: at most 4096 of those that wait in the ring, in order. */
  lemma NextFrameBytes(v: View)
    requires v.done && v.closing == 0 && !v.pending && v.t2c != [] && |v.closePayload| <= 125 && |v.t2c| < LENGTH_LIMIT
    ensures
      var n := if |v.t2c| < 4096 then |v.t2c| else 4096;
      && NextOut(v).out == [0x82] + (if n < 126 then [n] else [126, n / 256, n % 256]) + v.t2c[..n]
      && NextOut(v).t2c == v.t2c[n..]
  {
    hide EncodeOut;
    WsLaws.OutBytes(2, v.t2c[..Min(4096, |v.t2c|)]);
  }
}
