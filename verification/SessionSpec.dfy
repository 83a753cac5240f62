/**
 What one proxy session promises, as predicates on a snapshot of it: every byte that
 crossed either leg so far, the bytes still held in buffers, and the control state.
 */
module SessionSpec {
  import opened Core
  import opened WsSpec
  import opened WsWriter
  import opened Handshake
  import opened WsParser
  import opened Intake
  import opened Transport

  const IO_CHUNK: nat := 4096
  const OUT_CAPACITY: nat := 4110

  datatype View = View(
    capacity: nat,            // of each ring
    clientIn: bytes,          // read from the client so far
    clientSent: bytes,        // written to the client so far
    targetIn: bytes,          // read from the target so far
    targetSent: bytes,        // written to the target so far
    out: bytes,               // the unsent part of client_out
    c2t: bytes,               // the contents of client_to_target
    t2c: bytes,               // the contents of target_to_client
    frames: seq<OutFrame>,    // the frames built for the client so far
    done: bool,               // handshake_done
    greeting: bytes,          // the response that the handshake queued
    header: nat,              // the length of the handshake request
    early: bytes,             // the client bytes that came in the same read as its end
    fed: nat,                 // the bytes after it that the parser has consumed
    closing: nat,
    pending: bool,            // pending_close
    closePayload: bytes,
    connecting: bool)         // target_connecting

  // ---------------------------------------------------------------------
  // Towards the target
  // ---------------------------------------------------------------------

  /** The client bytes after the handshake request. */
  function Stream(v: View): bytes {
    if v.header <= |v.clientIn| then v.clientIn[v.header..] else []
  }

  /** The early bytes are the first ones after the request. */
  predicate Early(v: View) {
    v.header + |v.early| <= |v.clientIn| && v.early == v.clientIn[v.header..v.header + |v.early|]
  }

  /** The early bytes for which the ring has room. */
  function Kept(v: View): (n: nat)
    ensures n <= |v.early|
  {
    Taken(Gate(START, v.capacity), v.early)
  }

  /** The client bytes that reach the parser: all but the early bytes that find the ring full. */
  function Heard(v: View): bytes {
    v.early[..Kept(v)] + if v.header + |v.early| <= |v.clientIn| then v.clientIn[v.header + |v.early|..] else []
  }

  /** Nothing is dropped exactly when the ring has room for all early bytes. */
  lemma HeardExactly(v: View)
    requires Early(v)
    ensures Heard(v) == Stream(v) <==> Kept(v) == |v.early|
    ensures |v.early| < IO_CHUNK && v.capacity > 4086 ==> Heard(v) == Stream(v)
  {
    hide Taken;
    assert Stream(v) == v.early + v.clientIn[v.header + |v.early|..];
    assert Kept(v) == |v.early| ==> v.early[..Kept(v)] == v.early;
    if Kept(v) < |v.early| {
      TakenCost(v.capacity, v.early);
    }
  }

  function Outcomes(v: View): Outcome
    requires v.fed <= |Heard(v)|
  {
    Run(START, Heard(v)[..v.fed])
  }

  /** Bytes sent and bytes waiting are the payload of the data frames consumed, in order,
      and the PONG frames carry the payload of the pings. */
  predicate ToTarget(v: View) {
    && v.fed <= |Heard(v)|
    && var events := Outcomes(v).events;
       && v.targetSent + v.c2t == Relayed(DataBytes, events)
       && Payloads(PONG, v.frames) == Relayed(PingBytes, events)
       && (HasClose(events) <==> v.closing == 1)
  }

  // ---------------------------------------------------------------------
  // Towards the client
  // ---------------------------------------------------------------------

  /** The payloads of the frames with one opcode, joined. */
  function Payloads(op: nat, fs: seq<OutFrame>): bytes {
    if fs == [] then []
    else Payloads(op, fs[..|fs| - 1]) + (if fs[|fs| - 1].opcode == op then fs[|fs| - 1].payload else [])
  }

  lemma PayloadsSnoc(op: nat, fs: seq<OutFrame>, f: OutFrame)
    ensures Payloads(op, fs + [f]) == Payloads(op, fs) + (if f.opcode == op then f.payload else [])
  {
    assert (fs + [f])[..|fs|] == fs;
  }

  /** The bytes sent and the bytes waiting are the response and whole frames. */
  predicate Wire(v: View) {
    && AllWritable(v.frames) && |v.greeting| == 129
    && v.clientSent + v.out == v.greeting + EncodeOuts(v.frames)
  }

  predicate IsFlow(f: OutFrame) {
    f.opcode == BINARY || f.opcode == PONG
  }

  /** (BINARY or PONG)* and then at most one CLOSE. */
  predicate Shape(fs: seq<OutFrame>) {
    forall i :: 0 <= i < |fs| ==> IsFlow(fs[i]) || (i == |fs| - 1 && fs[i].opcode == CLOSE)
  }

  predicate Flows(fs: seq<OutFrame>) {
    forall i :: 0 <= i < |fs| ==> IsFlow(fs[i])
  }

  /** The CLOSE frame is there exactly once it has been built. */
  predicate ShapeNow(v: View) {
    if v.closing == 1 && !v.pending
    then v.frames != [] && Flows(v.frames[..|v.frames| - 1])
         && v.frames[|v.frames| - 1] == OutFrame(CLOSE, v.closePayload)
    else Flows(v.frames)
  }

  predicate FromTarget(v: View) {
    Payloads(BINARY, v.frames) + v.t2c == v.targetIn
  }

  // ---------------------------------------------------------------------
  // The invariant of an open session
  // ---------------------------------------------------------------------

  predicate Untouched(v: View) {
    && v.clientSent == [] && v.out == [] && v.frames == []
    && v.targetIn == [] && v.targetSent == [] && v.c2t == [] && v.t2c == []
    && v.header == 0 && v.early == [] && v.fed == 0 && v.closing == 0 && !v.pending
  }

  /** The client bytes hold no complete request yet. */
  ghost predicate Waiting(clientIn: bytes) {
    HeaderLen(clientIn).None? && |clientIn| <= MAX_REQUEST
  }

  /** The first complete request in the client bytes was accepted, and its answer is the greeting. */
  ghost predicate Introduced(clientIn: bytes, key: bytes, header: nat, greeting: bytes) {
    && HeaderLen(clientIn) == Some(header)
    && JudgeBlock(clientIn[..header]) == Accepted(key, header)
    && greeting == Response(key)
  }

  /** The bytes that came after the end of the request in the read that completed it. */
  function EarlyOf(chunks: seq<bytes>): bytes {
    if chunks == [] then []
    else
      var front := chunks[..|chunks| - 1];
      if HeaderLen(Flat(front)).Some? then EarlyOf(front)
      else match HeaderLen(Flat(chunks))
        case None => []
        case Some(h) => Flat(chunks)[h..]
  }

  /** The client bytes are what the reads returned, and the early bytes are what they were. */
  predicate Traced(chunks: seq<bytes>, clientIn: bytes, done: bool, early: bytes) {
    clientIn == Flat(chunks) && (done ==> early == EarlyOf(chunks))
  }

  lemma TracedMore(chunks: seq<bytes>, clientIn: bytes, early: bytes, chunk: bytes)
    requires Traced(chunks, clientIn, true, early) && HeaderLen(clientIn).Some?
    ensures Traced(chunks + [chunk], clientIn + chunk, true, early)
  {
    hide FirstEnd;
    FlatSnoc(chunks, chunk);
    assert (chunks + [chunk])[..|chunks|] == chunks;
  }

  /** A read that did not complete the request, or was not accepted. */
  lemma TracedPart(chunks: seq<bytes>, clientIn: bytes, early: bytes, chunk: bytes)
    requires Traced(chunks, clientIn, false, early)
    ensures Traced(chunks + [chunk], clientIn + chunk, false, early)
  {
    hide EarlyOf;
    FlatSnoc(chunks, chunk);
  }

  /** The read that completes the request. */
  lemma TracedNow(chunks: seq<bytes>, before: bytes, data: bytes, header: nat)
    requires chunks != [] && Flat(chunks[..|chunks| - 1]) == before && chunks[|chunks| - 1] == data
    requires HeaderLen(before).None? && HeaderLen(before + data) == Some(header) && header <= |before + data|
    ensures Traced(chunks, before + data, true, (before + data)[header..])
  {
    hide FirstEnd;
  }

  predicate ClosingOk(v: View) {
    v.closing <= 1 && |v.closePayload| <= 125 && (v.pending ==> v.closing == 1)
  }

  /** The invariant that every single step keeps. */
  predicate Flowing(v: View) {
    && |v.c2t| <= v.capacity && |v.t2c| <= v.capacity
    && if !v.done then Untouched(v)
       else Early(v) && Wire(v) && ShapeNow(v) && FromTarget(v) && ToTarget(v) && ClosingOk(v) && Echoes(v)
  }

  /** A CLOSE is answered with the payload of the first CLOSE frame in what is heard. */
  predicate Echoes(v: View) {
    v.closing == 1 ==> v.closePayload == FirstClose(Run(START, Heard(v)).events)
  }

  predicate CloseEchoed(v: View) {
    forall f <- v.frames :: f.opcode == CLOSE ==> f.payload == FirstClose(Run(START, Heard(v)).events)
  }

  /** A session that is closing has something left to send: it cannot get stuck. */
  predicate Unsent(v: View) {
    v.closing == 1 ==> v.out != []
  }

  predicate Open(v: View) {
    Flowing(v) && Unsent(v)
  }

  /** Every client byte has reached the parser, unless a CLOSE stopped it. */
  predicate CaughtUp(v: View) {
    v.done && v.closing == 0 ==> v.fed == |Heard(v)|
  }

  /** What holds in every state, closed ones too: nothing wrong was ever sent. */
  predicate Safe(v: View) {
    && Shape(v.frames) && AllWritable(v.frames) && CloseEchoed(v)
    && (v.done ==> |v.greeting| == 129)
    && v.clientSent <= (if v.done then v.greeting + EncodeOuts(v.frames) else [])
    && Payloads(BINARY, v.frames) <= v.targetIn
    && Early(v)
    && v.targetSent <= Relayed(DataBytes, Run(START, Heard(v)).events)
  }

  lemma FlowsShape(v: View)
    requires ShapeNow(v)
    ensures Shape(v.frames)
  {
    if v.closing == 1 && !v.pending {
      var front := v.frames[..|v.frames| - 1];
      forall i | 0 <= i < |v.frames|
        ensures IsFlow(v.frames[i]) || (i == |v.frames| - 1 && v.frames[i].opcode == CLOSE)
      {
        if i < |front| { assert IsFlow(front[i]); }
      }
    }
  }

  lemma EchoedNow(v: View)
    requires ShapeNow(v) && Echoes(v)
    ensures CloseEchoed(v)
  {
    hide Run, FirstClose, Heard;
    FlowsShape(v);
    forall f | f in v.frames && f.opcode == CLOSE
      ensures f.payload == FirstClose(Run(START, Heard(v)).events)
    {
      var i :| 0 <= i < |v.frames| && v.frames[i] == f;
      assert !IsFlow(v.frames[i]);
    }
  }

  lemma OpenIsSafe(v: View)
    requires Flowing(v)
    ensures Safe(v)
  {
    hide Run, Relayed, EncodeOuts, Taken, FirstClose, CloseEchoed, Echoes;
    if v.done {
      EchoedNow(v);
      FlowsShape(v);
      FedIsPrefix(DataBytes, v);
    } else {
      NothingSent();
      assert CloseEchoed(v) by { NoFramesEchoed(v); }
    }
  }

  lemma NoFramesEchoed(v: View)
    requires v.frames == []
    ensures CloseEchoed(v)
  {
  }

  lemma NothingSent()
    ensures Payloads(BINARY, []) == []
  {
  }

  /** What the parser was fed gives a prefix of what the whole stream gives, and all of it
      once a CLOSE was seen. */
  lemma FedIsPrefix(kind: Kind, v: View)
    requires v.fed <= |Heard(v)|
    ensures Relayed(kind, Outcomes(v).events) <= Relayed(kind, Run(START, Heard(v)).events)
    ensures HasClose(Outcomes(v).events) ==>
              Relayed(kind, Run(START, Heard(v)).events) == Relayed(kind, Outcomes(v).events)
  {
    hide Run, Relayed, Heard;
    var x, y := Heard(v)[..v.fed], Heard(v)[v.fed..];
    assert x + y == Heard(v);
    RelayedMonotone(kind, START, x, y);
  }

  // ---------------------------------------------------------------------
  // What the parser and its messages do to a session
  // ---------------------------------------------------------------------

  function Queued(v: View, f: OutFrame): View
    requires Writable(f)
  {
    v.(out := EncodeOut(f), frames := v.frames + [f])
  }

  /** session_handle_ws_message, on snapshots. */
  function OnMessage(v: View, msg: Message): View
    requires |v.c2t| <= v.capacity
  {
    if !IsControl(msg.opcode) then
      var n := Min(|msg.payload|, v.capacity - |v.c2t|);
      var v' := v.(c2t := v.c2t + msg.payload[..n]);
      if n < |msg.payload| then v'.(closing := 2) else v'
    else if msg.opcode == PING then
      if v.out == [] && |msg.payload| <= 125 then Queued(v, OutFrame(PONG, msg.payload)) else v.(closing := 2)
    else if msg.opcode == CLOSE then
      var p := msg.payload[..Min(|msg.payload|, 125)];
      var v' := v.(closing := 1, closePayload := p);
      if v.out == [] then Queued(v'.(pending := false), OutFrame(CLOSE, p)) else v'.(pending := true)
    else v
  }

  lemma FedMore(v: View, n: nat)
    requires v.fed + n <= |Heard(v)|
    requires Outcomes(v).final.Some?
    ensures
      var a := Outcomes(v).final.value;
      var r := Run(a, Heard(v)[v.fed..v.fed + n]);
      Outcomes(v.(fed := v.fed + n)) == Outcome(Outcomes(v).events + r.events, r.final)
  {
    hide Run, Taken;
    var x, y := Heard(v)[..v.fed], Heard(v)[v.fed..v.fed + n];
    assert x + y == Heard(v)[..v.fed + n];
    RunConcat(START, x, y);
  }

  /** The parser is in state a after the bytes fed so far. */
  predicate InStep(v: View, a: Automaton) {
    v.fed <= |Heard(v)| && Outcomes(v).final == Some(a)
  }

  /** The next n client bytes take the parser from a to a' with these events. */
  predicate Feeds(v: View, n: nat, a: Automaton, events: seq<Event>, a': Automaton) {
    && v.fed + n <= |Heard(v)|
    && Run(a, Heard(v)[v.fed..v.fed + n]) == Outcome(events, Some(a'))
  }

  function Advance(v: View, n: nat): View {
    v.(fed := v.fed + n)
  }

  /** Feeding bytes that complete no piece of payload changes nothing but the state. */
  lemma FedNothing(v: View, n: nat, a: Automaton, a': Automaton)
    requires Open(v) && v.done && v.closing == 0
    requires InStep(v, a) && Feeds(v, n, a, [], a')
    ensures Open(Advance(v, n)) && InStep(Advance(v, n), a') && Safe(Advance(v, n))
  {
    hide Run, Relayed, EncodeOuts, Safe, Taken;
    FedMore(v, n);
    assert Outcomes(v).events + [] == Outcomes(v).events;
    OpenIsSafe(Advance(v, n));
  }

  /** What one message contributes. */
  lemma MessageRelayed(kind: Kind, events: seq<Event>, msg: Message)
    requires !HasClose(events) && (msg.payload != [] || msg.frameComplete)
    ensures
      var all := events + MessageEvents(msg);
      && HasClose(all) == (msg.opcode == CLOSE)
      && Relayed(kind, all) == Relayed(kind, events) + (if Selects(kind, msg.opcode) then msg.payload else [])
  {
    hide DataEvents;
    var data := DataEvents(msg.opcode, msg.payload);
    var end := if msg.frameComplete then [End(msg.opcode, msg.fin)] else [];
    RelayedData(kind, msg.opcode, msg.payload);
    RelayedConcat(kind, data, end);
    RelayedConcat(kind, events, data + end);
    if msg.frameComplete {
      assert end[1..] == [];
    }
  }

  /** Handling a message keeps the session invariant, or closes the session. */
  lemma OnMessageOpen(v: View, msg: Message, n: nat, a: Automaton, a': Automaton)
    requires Open(v) && v.done && v.closing == 0 && ValidOpcode(msg.opcode)
    requires msg.payload != [] || msg.frameComplete
    requires InStep(v, a) && Feeds(v, n, a, MessageEvents(msg), a') && WholeClose(v, msg, n)
    ensures
      var v' := Advance(OnMessage(v, msg), n);
      Safe(v') && (v'.closing < 2 ==> Open(v') && InStep(v', a'))
  {
    hide Run, Relayed, EncodeOuts, EncodeOut, MessageEvents, Payloads, Taken, FirstClose, Echoes;
    var v' := Advance(OnMessage(v, msg), n);
    if v'.closing == 2 {
      OpenIsSafe(v);
    } else {
      MessageWire(v, msg);
      MessageFed(v, msg, n, a, a');
      MessageEchoes(v, msg, n, a, a');
      OpenIsSafe(v');
    }
  }

  /** A CLOSE frame is at hand to its end, or as far as it has been heard. */
  predicate WholeClose(v: View, msg: Message, n: nat) {
    msg.opcode == CLOSE ==> |msg.payload| <= 125 && (msg.frameComplete || v.fed + n == |Heard(v)|)
  }

  lemma MessageEchoes(v: View, msg: Message, n: nat, a: Automaton, a': Automaton)
    requires Open(v) && v.done && v.closing == 0 && ValidOpcode(msg.opcode)
    requires msg.payload != [] || msg.frameComplete
    requires InStep(v, a) && Feeds(v, n, a, MessageEvents(msg), a') && WholeClose(v, msg, n)
    requires OnMessage(v, msg).closing < 2
    ensures Echoes(Advance(OnMessage(v, msg), n))
  {
    hide Run, Relayed, EncodeOuts, EncodeOut, MessageEvents, Payloads, Taken, FirstClose, OnMessage;
    OnMessagePasses(v, msg);
    if msg.opcode == CLOSE {
      var v' := Advance(OnMessage(v, msg), n);
      FedMore(v, n);
      var x := Heard(v)[..v.fed + n];
      assert Heard(v) == x + Heard(v)[v.fed + n..];
      RunConcat(START, x, Heard(v)[v.fed + n..]);
      NoFirstClose(Outcomes(v).events);
      FirstCloseMessage(msg);
      FirstCloseConcat(Outcomes(v).events, MessageEvents(msg));
      var events := Outcomes(v).events + MessageEvents(msg);
      if msg.frameComplete {
        FirstCloseConcat(events, Run(a', Heard(v)[v.fed + n..]).events);
      } else {
        assert x == Heard(v);
      }
      OnClose(v, msg, n);
    }
  }

  lemma FirstCloseMessage(msg: Message)
    requires msg.opcode == CLOSE
    ensures FirstClose(MessageEvents(msg)) == msg.payload && EndsClose(MessageEvents(msg)) == msg.frameComplete
  {
    hide FirstClose, EndsClose, DataEvents;
    var data := DataEvents(msg.opcode, msg.payload);
    FirstCloseData(msg.opcode, msg.payload);
    FirstCloseEnd(msg.opcode, msg.fin);
    FirstCloseConcat(data, if msg.frameComplete then [End(msg.opcode, msg.fin)] else []);
  }

  lemma OnClose(v: View, msg: Message, n: nat)
    requires msg.opcode == CLOSE && |msg.payload| <= 125 && |v.c2t| <= v.capacity
    ensures
      var v' := Advance(OnMessage(v, msg), n);
      v'.closePayload == msg.payload && Heard(v') == Heard(v)
  {
    hide EncodeOut, Taken;
    assert msg.payload[..|msg.payload|] == msg.payload;
  }

  /** The client side of handling a message. */
  predicate ClientSide(v: View, v': View, msg: Message) {
    && Wire(v') && ShapeNow(v') && FromTarget(v') && ClosingOk(v') && Unsent(v')
    && Payloads(PONG, v'.frames) == Payloads(PONG, v.frames) + (if msg.opcode == PING then msg.payload else [])
  }

  lemma MessageWire(v: View, msg: Message)
    requires Open(v) && v.done && v.closing == 0 && ValidOpcode(msg.opcode)
    requires OnMessage(v, msg).closing < 2
    ensures ClientSide(v, OnMessage(v, msg), msg)
  {
    hide Run, Relayed, EncodeOuts, EncodeOut, Payloads, ClientSide, ToTarget;
    if msg.opcode == PING {
      PingWire(v, msg);
    } else if msg.opcode == CLOSE && v.out == [] {
      CloseWire(v, msg);
    } else {
      OtherWire(v, OnMessage(v, msg), msg);
    }
  }

  lemma PingWire(v: View, msg: Message)
    requires Wire(v) && ShapeNow(v) && FromTarget(v) && ClosingOk(v) && v.closing == 0 && v.out == []
    requires msg.opcode == PING && |msg.payload| <= 125
    ensures ClientSide(v, Queued(v, OutFrame(PONG, msg.payload)), msg)
  {
    hide EncodeOuts, EncodeOut, Payloads, Wire;
    QueuedWire(v, OutFrame(PONG, msg.payload));
    assert Payloads(BINARY, v.frames) + [] == Payloads(BINARY, v.frames);
  }

  lemma CloseWire(v: View, msg: Message)
    requires Wire(v) && ShapeNow(v) && FromTarget(v) && ClosingOk(v) && v.closing == 0 && v.out == []
    requires |v.c2t| <= v.capacity && msg.opcode == CLOSE
    ensures ClientSide(v, OnMessage(v, msg), msg)
  {
    hide EncodeOuts, EncodeOut, Payloads;
    QueuedWire(v, OutFrame(CLOSE, msg.payload[..Min(|msg.payload|, 125)]));
    assert Payloads(BINARY, v.frames) + [] == Payloads(BINARY, v.frames);
    assert Payloads(PONG, v.frames) + [] == Payloads(PONG, v.frames);
  }

  lemma OtherWire(v: View, v': View, msg: Message)
    requires Wire(v) && ShapeNow(v) && FromTarget(v) && ClosingOk(v) && v.closing == 0 && msg.opcode != PING
    requires v' == v.(c2t := v'.c2t, closing := v'.closing, pending := v'.pending, closePayload := v'.closePayload)
    requires if v'.closing == 0 then v'.pending == v.pending && v'.closePayload == v.closePayload
             else v'.closing == 1 && v'.pending && |v'.closePayload| <= 125 && v.out != []
    ensures ClientSide(v, v', msg)
  {
    hide EncodeOuts, Payloads;
    assert Payloads(PONG, v.frames) + [] == Payloads(PONG, v.frames);
  }

  /** Queueing a frame in an empty client_out. */
  lemma QueuedWire(v: View, f: OutFrame)
    requires Wire(v) && v.out == [] && Writable(f) && Flows(v.frames)
    ensures
      var v' := Queued(v, f);
      && Wire(v') && v'.out != []
      && v'.frames[..|v.frames|] == v.frames
      && (IsFlow(f) ==> Flows(v'.frames))
      && Payloads(BINARY, v'.frames) == Payloads(BINARY, v.frames) + (if f.opcode == BINARY then f.payload else [])
      && Payloads(PONG, v'.frames) == Payloads(PONG, v.frames) + (if f.opcode == PONG then f.payload else [])
  {
    hide EncodeOuts, EncodeOut, Payloads, IsFlow;
    EncodeOutsSnoc(v.frames, f);
    PayloadsSnoc(BINARY, v.frames, f);
    PayloadsSnoc(PONG, v.frames, f);
    assert v.clientSent + [] == v.clientSent;
    EncodedSome(f);
  }

  lemma EncodedSome(f: OutFrame)
    requires Writable(f)
    ensures EncodeOut(f) != []
  {
  }

  /** The target side of handling a message. */
  lemma MessageFed(v: View, msg: Message, n: nat, a: Automaton, a': Automaton)
    requires Open(v) && v.done && v.closing == 0 && ValidOpcode(msg.opcode)
    requires msg.payload != [] || msg.frameComplete
    requires InStep(v, a) && Feeds(v, n, a, MessageEvents(msg), a')
    requires OnMessage(v, msg).closing < 2
    requires ClientSide(v, OnMessage(v, msg), msg)
    ensures
      var v' := Advance(OnMessage(v, msg), n);
      ToTarget(v') && InStep(v', a')
  {
    hide Run, Relayed, EncodeOuts, MessageEvents, Payloads, Taken, OnMessage, Wire, ShapeNow, FromTarget, HasClose;
    var v' := Advance(OnMessage(v, msg), n);
    FedMore(v, n);
    OnMessagePasses(v, msg);
    assert Outcomes(v') == Outcome(Outcomes(v).events + MessageEvents(msg), Some(a'));
    MessageRelayed(DataBytes, Outcomes(v).events, msg);
    MessageRelayed(PingBytes, Outcomes(v).events, msg);
  }

  /** What a message that does not close the session passes on. */
  lemma OnMessagePasses(v: View, msg: Message)
    requires |v.c2t| <= v.capacity && v.closing == 0 && ValidOpcode(msg.opcode) && OnMessage(v, msg).closing < 2
    ensures
      var v' := OnMessage(v, msg);
      && v'.targetSent + v'.c2t == (v.targetSent + v.c2t) + (if IsControl(msg.opcode) then [] else msg.payload)
      && (v'.closing == 1 <==> msg.opcode == CLOSE)
      && v'.fed == v.fed && v'.early == v.early && v'.capacity == v.capacity && v'.header == v.header
      && v'.clientIn == v.clientIn
  {
    hide EncodeOut;
    assert msg.payload[..|msg.payload|] == msg.payload;
    assert v.targetSent + (v.c2t + msg.payload) == (v.targetSent + v.c2t) + msg.payload;
  }

  // ---------------------------------------------------------------------
  // What input and output do to a session
  // ---------------------------------------------------------------------

  function GotFromClient(v: View, chunk: bytes): View {
    v.(clientIn := v.clientIn + chunk)
  }

  lemma HeardMore(v: View, chunk: bytes)
    requires Early(v)
    ensures Early(GotFromClient(v, chunk)) && Heard(GotFromClient(v, chunk)) == Heard(v) + chunk
  {
    hide Taken;
  }

  lemma ReadMore(v: View, chunk: bytes, a: Automaton)
    requires Open(v) && v.done && v.closing == 0 && InStep(v, a)
    ensures Open(GotFromClient(v, chunk)) && InStep(GotFromClient(v, chunk), a) && Safe(GotFromClient(v, chunk))
    ensures Heard(GotFromClient(v, chunk)) == Heard(v) + chunk
  {
    hide Run, Relayed, EncodeOuts, Safe, Heard;
    var v' := GotFromClient(v, chunk);
    HeardMore(v, chunk);
    assert Heard(v')[..v.fed] == Heard(v)[..v.fed];
    OpenIsSafe(v');
  }

  /** Later bytes do not undo the handshake. */
  lemma IntroducedMore(clientIn: bytes, chunk: bytes, key: bytes, header: nat, greeting: bytes)
    requires Introduced(clientIn, key, header, greeting)
    ensures Introduced(clientIn + chunk, key, header, greeting)
  {
    hide Response, JudgeBlock, FirstEnd;
    FirstEndPrefix(clientIn, chunk, 0);
    HeaderInside(clientIn);
    assert (clientIn + chunk)[..header] == clientIn[..header];
  }

  lemma HeaderInside(s: bytes)
    ensures HeaderLen(s).Some? ==> HeaderLen(s).value <= |s|
  {
  }

  lemma IntroducedBy(all: bytes, key: bytes, header: nat)
    requires Judge(all) == Accepted(key, header)
    ensures Introduced(all, key, header, Response(key)) && header <= |all| && |Response(key)| == 129
  {
    hide Judge, JudgeBlock, FirstEnd, Response;
    JudgedHeader(all);
    HeaderInside(all);
    ResponseShape(key);
  }

  /** The state right after an accepted handshake. */
  function Greeted(v: View, greeting: bytes, header: nat): View
    requires header <= |v.clientIn|
  {
    v.(done := true, greeting := greeting, header := header, out := greeting, early := v.clientIn[header..])
  }

  lemma GreetedOpen(v: View, all: bytes, greeting: bytes, header: nat)
    requires Untouched(v) && |v.closePayload| <= 125
    requires |greeting| == 129 && header <= |all|
    ensures
      var v' := Greeted(v.(clientIn := all), greeting, header);
      Open(v') && Safe(v') && InStep(v', START) && Heard(v') == v'.early[..Kept(v')]
  {
    hide Run, Relayed, EncodeOuts, Safe, Taken;
    var v' := Greeted(v.(clientIn := all), greeting, header);
    RunEmpty(START);
    assert Heard(v')[..0] == [];
    assert greeting + [] == greeting;
    NothingYet();
    OpenIsSafe(v');
  }

  lemma NothingYet()
    ensures Relayed(DataBytes, []) == [] && Relayed(PingBytes, []) == []
    ensures Payloads(BINARY, []) == [] && Payloads(PONG, []) == []
    ensures EncodeOuts([]) == [] && !HasClose([])
  {
  }

  /** Nothing was sent before the handshake, whatever came in. */
  lemma UntouchedIsSafe(v: View, all: bytes)
    requires Untouched(v) && !v.done
    ensures Safe(v.(clientIn := all))
  {
    hide Run, Relayed, Taken;
    NothingYet();
  }

  function SentToClient(v: View, n: nat): View
    requires n <= |v.out|
  {
    v.(clientSent := v.clientSent + v.out[..n], out := v.out[n..])
  }

  lemma SentToClientFlows(v: View, n: nat)
    requires Flowing(v) && v.done && n <= |v.out|
    ensures Flowing(SentToClient(v, n))
  {
    hide Run, Relayed, EncodeOuts, Payloads, Taken;
    assert v.out == v.out[..n] + v.out[n..];
    assert (v.clientSent + v.out[..n]) + v.out[n..] == v.clientSent + v.out;
  }

  /** The pending CLOSE frame, once client_out is empty. */
  lemma PendingCloseFlows(v: View)
    requires Flowing(v) && v.done && v.out == [] && v.pending
    ensures Open(Queued(v, OutFrame(CLOSE, v.closePayload)).(pending := false))
  {
    hide Run, Relayed, EncodeOuts, EncodeOut, Payloads, Taken;
    QueuedWire(v, OutFrame(CLOSE, v.closePayload));
    assert Payloads(BINARY, v.frames) + [] == Payloads(BINARY, v.frames);
    assert Payloads(PONG, v.frames) + [] == Payloads(PONG, v.frames);
  }

  /** A data frame from the ring, once client_out is empty. */
  lemma DataFrameFlows(v: View, n: nat)
    requires Flowing(v) && v.done && v.out == [] && v.closing == 0 && n <= |v.t2c| && n <= IO_CHUNK
    ensures Open(Queued(v.(t2c := v.t2c[n..]), OutFrame(BINARY, v.t2c[..n])))
  {
    hide Run, Relayed, EncodeOuts, EncodeOut, Payloads, Taken;
    QueuedWire(v, OutFrame(BINARY, v.t2c[..n]));
    assert v.t2c == v.t2c[..n] + v.t2c[n..];
    assert Payloads(BINARY, v.frames) + v.t2c == (Payloads(BINARY, v.frames) + v.t2c[..n]) + v.t2c[n..];
    assert Payloads(PONG, v.frames) + [] == Payloads(PONG, v.frames);
  }

  /** Bytes from the target that fit the ring. */
  lemma GotFromTarget(v: View, chunk: bytes)
    requires Open(v) && v.done && |v.t2c| + |chunk| <= v.capacity
    ensures Open(v.(targetIn := v.targetIn + chunk, t2c := v.t2c + chunk))
  {
    hide Run, Relayed, EncodeOuts, Payloads, Taken;
    assert Payloads(BINARY, v.frames) + (v.t2c + chunk) == (Payloads(BINARY, v.frames) + v.t2c) + chunk;
  }

  lemma SentToTarget(v: View, n: nat)
    requires Open(v) && v.done && n <= |v.c2t|
    ensures Open(v.(targetSent := v.targetSent + v.c2t[..n], c2t := v.c2t[n..]))
  {
    hide Run, Relayed, EncodeOuts, Payloads, Taken;
    assert v.c2t == v.c2t[..n] + v.c2t[n..];
    assert (v.targetSent + v.c2t[..n]) + v.c2t[n..] == v.targetSent + v.c2t;
  }

  // ---------------------------------------------------------------------
  // Sending and filling, as relations between snapshots
  // ---------------------------------------------------------------------

  lemma SentTwice(v: View, m: nat, n: nat)
    requires m <= |v.out| && n <= |v.out| - m
    ensures |SentToClient(v, m).out| == |v.out| - m
    ensures SentToClient(SentToClient(v, m), n) == SentToClient(v, m + n)
    ensures |SentToClient(v, m + n).out| == |v.out| - m - n
  {
    assert v.out[m..][..n] == v.out[m..m + n] && v.out[m..][n..] == v.out[m + n..];
    assert v.out[..m + n] == v.out[..m] + v.out[m..m + n];
    assert (v.clientSent + v.out[..m]) + v.out[m..m + n] == v.clientSent + (v.out[..m] + v.out[m..m + n]);
  }

  /** What session_write_client does once client_out is empty. */
  function NextOut(v: View): View
    requires |v.closePayload| <= 125 && |v.t2c| < LENGTH_LIMIT
  {
    if v.pending then Queued(v, OutFrame(CLOSE, v.closePayload)).(pending := false)
    else if v.closing != 0 then v.(closing := 2)
    else if v.done && v.t2c != [] then
      var n := Min(IO_CHUNK, |v.t2c|);
      Queued(v.(t2c := v.t2c[n..]), OutFrame(BINARY, v.t2c[..n]))
    else v
  }

  /** From v to v': some of client_out was sent; if that was all, the next frame was built. */
  predicate WroteClient(v: View, v': View, stalled: bool, failed: bool) {
    var n := |v'.clientSent| - |v.clientSent|;
    && |v.closePayload| <= 125 && |v.t2c| < LENGTH_LIMIT && 0 <= n <= |v.out|
    && if n == |v.out| then v' == NextOut(SentToClient(v, n))
       else if v'.closing == 2 then failed && v' == SentToClient(v, n).(closing := 2)
       else stalled && v' == SentToClient(v, n)
  }

  /** From v to v': what was read from the target went into the ring. */
  predicate FilledRing(v: View, v': View) {
    && v.targetIn <= v'.targetIn
    && v' == v.(targetIn := v'.targetIn, t2c := v.t2c + v'.targetIn[|v.targetIn|..])
  }

  /** From v to v': what was written to the target left the ring. */
  predicate DrainedRing(v: View, v': View) {
    var n := |v'.targetSent| - |v.targetSent|;
    && 0 <= n <= |v.c2t|
    && v' == v.(targetSent := v.targetSent + v.c2t[..n], c2t := v.c2t[n..])
  }

  /** Bytes from the target go into the ring as far as they fit. */
  function Crammed(v: View, data: bytes): View {
    var all := v.t2c + data;
    v.(targetIn := v.targetIn + data, t2c := all[..Min(|all|, v.capacity)])
  }

  /** From v to v': what was read from the target went into the ring as far as it fitted. */
  predicate CrammedRing(v: View, v': View) {
    v.targetIn <= v'.targetIn && v' == Crammed(v, v'.targetIn[|v.targetIn|..])
  }

  lemma CrammedTwice(v: View, w: View, data: bytes)
    requires FilledRing(v, w)
    ensures CrammedRing(v, Crammed(w, data))
  {
    var w' := Crammed(w, data);
    assert w'.targetIn[|v.targetIn|..] == w.targetIn[|v.targetIn|..] + data;
    assert v.t2c + (w.targetIn[|v.targetIn|..] + data) == (v.t2c + w.targetIn[|v.targetIn|..]) + data;
  }

  lemma FilledTwice(v: View, w: View, data: bytes)
    requires FilledRing(v, w)
    ensures FilledRing(v, w.(targetIn := w.targetIn + data, t2c := w.t2c + data))
  {
    var w' := w.(targetIn := w.targetIn + data, t2c := w.t2c + data);
    assert w'.targetIn[|v.targetIn|..] == w.targetIn[|v.targetIn|..] + data;
    assert v.t2c + (w.targetIn[|v.targetIn|..] + data) == (v.t2c + w.targetIn[|v.targetIn|..]) + data;
  }

  lemma DrainedTwice(v: View, w: View, n: nat)
    requires DrainedRing(v, w) && n <= |w.c2t|
    ensures DrainedRing(v, w.(targetSent := w.targetSent + w.c2t[..n], c2t := w.c2t[n..]))
  {
    var m := |w.targetSent| - |v.targetSent|;
    assert v.c2t[m..][..n] == v.c2t[m..m + n] && v.c2t[m..][n..] == v.c2t[m + n..];
    assert v.c2t[..m + n] == v.c2t[..m] + v.c2t[m..m + n];
    assert (v.targetSent + v.c2t[..m]) + v.c2t[m..m + n] == v.targetSent + (v.c2t[..m] + v.c2t[m..m + n]);
  }

  // ---------------------------------------------------------------------
  // Interest masks and back-pressure
  // ---------------------------------------------------------------------

  datatype Interest = Interest(read: bool, write: bool)

  function HighWater(capacity: nat): nat {
    capacity * 3 / 4
  }

  predicate High(v: View, ring: bytes) {
    |ring| >= HighWater(v.capacity)
  }

  /** The interest that session_update_events registers on each leg. */
  function ClientInterest(v: View): Interest {
    Interest(v.closing == 0 && (!v.done || !High(v, v.c2t)), v.out != [] || v.t2c != [])
  }

  function TargetInterest(v: View): Interest {
    Interest(!v.connecting && !High(v, v.t2c), v.connecting || v.c2t != [])
  }

  /** A full ring that stops reading on one leg has writing on at the leg that drains it. */
  predicate Drains(v: View) {
    && (High(v, v.c2t) ==> TargetInterest(v).write)
    && (High(v, v.t2c) ==> ClientInterest(v).write)
  }

  /** An open session always waits for something: to read from the client, or else to write
      to the target or to the client. */
  lemma AlwaysWaiting(v: View)
    requires Open(v) && v.capacity >= 2
    ensures ClientInterest(v).read || ClientInterest(v).write || TargetInterest(v).write
    ensures !v.done ==> ClientInterest(v).read
    ensures v.closing == 1 ==> ClientInterest(v).write
    ensures v.pending ==> ClientInterest(v).write
  {
    hide Run, Relayed, EncodeOuts, Taken;
  }

  // ---------------------------------------------------------------------
  // What happens to a session from outside
  // ---------------------------------------------------------------------

  datatype Events = Events(read: bool, write: bool, error: bool)

  datatype Io = ClientReady(events: Events) | TargetReady(events: Events) | Expired

  /** An event that was handed to a session, and the interest its leg had registered. */
  datatype Delivery = Delivery(io: Io, registered: Interest)

  /** The events delivered so far, and whether a leg failed or the target could not be reached. */
  datatype Log = Log(deliveries: seq<Delivery>, failed: bool, refused: bool)

  predicate IsError(io: Io) {
    !io.Expired? && io.events.error
  }

  /** Nothing has happened yet that closes a session. */
  predicate Calm(log: Log) {
    && !log.failed && !log.refused
    && forall d <- log.deliveries :: !IsError(d.io) && !d.io.Expired?
  }

  /** The client was read only when the session had asked for it. */
  predicate Asked(deliveries: seq<Delivery>) {
    forall d <- deliveries :: d.io.ClientReady? && d.io.events.read ==> d.registered.read
  }

  /** A reading loop ended because of its leg, its budget or its ring. */
  predicate ReadEnded(c: Calls, c': Calls, budget: nat, high: bool) {
    high || (c'.readCalls > c.readCalls && c'.readBlocked) || c'.readCalls == c.readCalls + budget
  }

  predicate WriteEnded(c: Calls, c': Calls, budget: nat, drained: bool) {
    drained || (c'.writeCalls > c.writeCalls && c'.writeBlocked) || c'.writeCalls == c.writeCalls + budget
  }

  /** From v to v': reading from the client changed nothing on the other side of the rings. */
  predicate TookInput(v: View, v': View) {
    && v.clientIn <= v'.clientIn && v'.clientSent == v.clientSent && v'.t2c == v.t2c
    && v'.targetIn == v.targetIn && v'.targetSent == v.targetSent && v'.capacity == v.capacity
  }

  /** What a client event does, by way of the state after reading: an error closes; reading
      goes on until the client blocks, the budget ends, the ring is high or the request needs
      more bytes; writing sends what it can and builds the next frame. */
  predicate ClientServed(events: Events, v: View, mid: View, v': View, c: Calls, c': Calls,
                         readBudget: nat, writeBudget: nat) {
    if events.error then v' == v.(closing := 2)
    else
      && (if events.read then TookInput(v, mid) else mid == v)
      && (events.read && mid.closing == 0 && mid.done ==> ReadEnded(c, c', readBudget, High(mid, mid.c2t)))
      && (events.read && mid.closing == 0 && !mid.done && readBudget > 0 ==> c'.readCalls == c.readCalls + 1)
      && (if events.write && mid.closing < 2
          then WroteClient(mid, v', WriteEnded(c, c', writeBudget, false), c'.failed)
          else v' == mid)
  }

  lemma ClientServedBy(events: Events, v: View, mid: View, v': View, c: Calls, m: Calls, c': Calls,
                       readBudget: nat, writeBudget: nat)
    requires !events.error
    requires if events.read
             then && TookInput(v, mid)
                  && (mid.closing == 0 && mid.done ==> ReadEnded(c, m, readBudget, High(mid, mid.c2t)))
                  && (mid.closing == 0 && !mid.done && readBudget > 0 ==> m.readCalls == c.readCalls + 1)
             else mid == v
    requires c'.readCalls == m.readCalls && c'.readBlocked == m.readBlocked && m.writeCalls == c.writeCalls
    requires if events.write && mid.closing < 2
             then WroteClient(mid, v', WriteEnded(m, c', writeBudget, false), c'.failed)
             else v' == mid
    ensures ClientServed(events, v, mid, v', c, c', readBudget, writeBudget)
  {
    hide TookInput, WroteClient, High;
  }

  /** What a target event does: an error closes; else it completes the connection, fills one ring
      and drains the other, each until the target blocks or the budget ends. */
  predicate TargetServed(events: Events, v: View, mid: View, v': View, c: Calls, c': Calls,
                         readBudget: nat, writeBudget: nat) {
    if events.error then v' == v.(closing := 2)
    else if v'.closing == 2 && v.closing < 2 then CutShort(events, v, mid, v'.(closing := v.closing))
    else
      var u := Connected(events, v);
      && (if events.read then FilledRing(u, mid) && ReadEnded(c, c', readBudget, High(mid, mid.t2c)) else mid == u)
      && (if events.write then DrainedRing(mid, v') && WriteEnded(c, c', writeBudget, v'.c2t == []) else v' == mid)
  }

  lemma TargetServedBy(events: Events, v: View, mid: View, v': View, c: Calls, m: Calls, c': Calls,
                       readBudget: nat, writeBudget: nat)
    requires !events.error && v.closing < 2 && (events.write ==> !v.connecting)
    requires if events.read
             then if mid.closing == 2 then CrammedRing(v, mid.(closing := v.closing))
                  else FilledRing(v, mid) && ReadEnded(c, m, readBudget, High(mid, mid.t2c))
             else mid == v
    requires c'.readCalls == m.readCalls && c'.readBlocked == m.readBlocked && m.writeCalls == c.writeCalls
    requires mid.closing == v.closing || mid.closing == 2
    requires if events.write && mid.closing < 2
             then && DrainedRing(mid, v'.(closing := mid.closing)) && (v'.closing == mid.closing || v'.closing == 2)
                  && (v'.closing < 2 ==> WriteEnded(m, c', writeBudget, v'.c2t == []))
             else v' == mid
    ensures TargetServed(events, v, mid, v', c, c', readBudget, writeBudget)
  {
    hide FilledRing, DrainedRing, CrammedRing, High;
    assert Connected(events, v) == v;
    assert v'.closing == mid.closing ==> v'.(closing := mid.closing) == v';
  }

  lemma ErrorServed(events: Events, v: View, mid: View, c: Calls, c': Calls, readBudget: nat, writeBudget: nat)
    requires events.error
    ensures ClientServed(events, v, mid, v.(closing := 2), c, c', readBudget, writeBudget)
    ensures TargetServed(events, v, mid, v.(closing := 2), c, c', readBudget, writeBudget)
  {
  }

  function Connected(events: Events, v: View): View {
    if events.write then v.(connecting := false) else v
  }

  /** What a target event has done when it closes the session: nothing if the connection failed,
      only reading if that failed or the ring overran, or else reading and some writing. */
  predicate CutShort(events: Events, v: View, mid: View, v': View) {
    var u := Connected(events, v);
    || (events.write && v.connecting && v' == v)
    || (events.read && CrammedRing(u, v'))
    || (events.write && (if events.read then FilledRing(u, mid) else mid == u) && DrainedRing(mid, v'))
  }

  // ---------------------------------------------------------------------
  // Why a session was closed
  // ---------------------------------------------------------------------

  datatype Reason =
    | NotClosed | PeerFailed | ErrorEvent | TimedOut | RequestRefused | TargetRefused
    | StreamIllegal | PingWhileBusy | ControlTooBig | RingFull | CloseSent

  /** The reasons that a larger ring would have avoided. */
  predicate Cramped(why: Reason) {
    why == ControlTooBig || why == RingFull
  }

  /** The decoder finds an illegal header in the client's stream. */
  predicate Rejected(v: View) {
    Run(START, Heard(v)).final.None?
  }

  predicate AllSent(v: View) {
    && v.out == [] && v.frames != [] && v.frames[|v.frames| - 1].opcode == CLOSE
    && AllWritable(v.frames) && v.clientSent == v.greeting + EncodeOuts(v.frames)
  }

  /** The last bytes fed to the parser completed a piece of a PING. */
  predicate JustPinged(v: View) {
    && v.fed <= |Heard(v)|
    && var events := Outcomes(v).events;
       events != [] && events[|events| - 1].opcode == PING
  }

  /** The parser waits with a control frame for which the ring has no room. */
  predicate Stalled(v: View) {
    && v.fed < |Heard(v)| && Outcomes(v).final.Some? && |v.c2t| <= v.capacity
    && Oversized(Outcomes(v).final.value, v.capacity - |v.c2t|)
  }

  /** The ring is full, and more bytes have come from the target. */
  predicate Overrun(v: View) {
    |v.t2c| == v.capacity && Payloads(BINARY, v.frames) + v.t2c < v.targetIn
  }

  /** The evidence for each reason. */
  ghost predicate Caused(why: Reason, v: View, log: Log) {
    match why
    case NotClosed => false
    case PeerFailed => log.failed
    case ErrorEvent => log.deliveries != [] && IsError(log.deliveries[|log.deliveries| - 1].io)
    case TimedOut => log.deliveries != [] && log.deliveries[|log.deliveries| - 1].io.Expired?
    case RequestRefused =>
      !v.done && (|v.clientIn| > MAX_REQUEST || Judge(v.clientIn) == Refused || Judge(v.clientIn) == BadKey)
    case TargetRefused => v.done && log.refused
    case StreamIllegal => v.done && Rejected(v)
    case PingWhileBusy => v.done && v.out != [] && JustPinged(v)
    case ControlTooBig => v.done && Stalled(v)
    case RingFull => v.done && Overrun(v)
    case CloseSent => v.done && AllSent(v)
  }

  lemma RejectedStream(v: View, a: Automaton, used: nat)
    requires InStep(v, a) && v.fed + used <= |Heard(v)|
    requires Run(a, Heard(v)[v.fed..v.fed + used]).final.None?
    ensures Rejected(v)
  {
    hide Run, Taken;
    FedMore(v, used);
    var x, y := Heard(v)[..v.fed + used], Heard(v)[v.fed + used..];
    assert Heard(v) == x + y;
    RunConcat(START, x, y);
  }

  /** A session closed for its stream was closed rightly: the whole-stream decoder finds an
      illegal header in what the client sent. */
  lemma RejectedIsIllegal(v: View)
    requires Rejected(v)
    ensures Illegal(Heard(v), 0)
  {
    hide Run, Decode, ScanHeader, Heard;
    AutomatonRefinesDecoder(Heard(v), 0);
  }

  /** A closing session that has sent everything has sent the CLOSE frame last. */
  lemma CloseWasSent(v: View)
    requires Flowing(v) && v.done && v.out == [] && v.closing == 1 && !v.pending
    ensures AllSent(v)
  {
    hide Run, Relayed, EncodeOuts, Payloads, Taken;
    assert v.clientSent + [] == v.clientSent;
  }

  // ---------------------------------------------------------------------
  // The theorems of a session, for any state that satisfies the invariant
  // ---------------------------------------------------------------------

  /** Client to target: what the target got and what is still waiting for it is exactly the
      payload that a whole-stream decoder finds in the client bytes heard after the handshake,
      and the pongs carry the payload of the pings. */
  lemma RelaysToTarget(v: View)
    requires Open(v) && CaughtUp(v) && v.done
    ensures v.targetSent + v.c2t == DecodedPayload(DataBytes, Heard(v))
    ensures Payloads(PONG, v.frames) == DecodedPayload(PingBytes, Heard(v))
  {
    hide Run, Relayed, DecodedPayload, Heard;
    DecodedIsRelayed(DataBytes, Heard(v));
    DecodedIsRelayed(PingBytes, Heard(v));
    FedIsPrefix(DataBytes, v);
    FedIsPrefix(PingBytes, v);
    if v.closing == 0 {
      assert Heard(v)[..v.fed] == Heard(v);
    }
  }

  /** A session that goes on has heard nothing illegal. */
  lemma OpenIsLegal(v: View, a: Automaton)
    requires InStep(v, a) && v.fed == |Heard(v)|
    ensures !Illegal(Heard(v), 0)
  {
    hide Run, Decode, ScanHeader, Heard;
    assert Heard(v)[..v.fed] == Heard(v);
    AutomatonRefinesDecoder(Heard(v), 0);
  }

  /** Even after the session is closed the target has got nothing else. */
  lemma TargetGotPrefix(v: View)
    requires Safe(v)
    ensures v.targetSent <= DecodedPayload(DataBytes, Heard(v))
  {
    hide Run, Relayed, DecodedPayload, Heard;
    DecodedIsRelayed(DataBytes, Heard(v));
  }

  /** Target to client: decoding all bytes sent to the client and those waiting in client_out,
      and appending the ring, gives exactly the bytes read from the target. */
  lemma RelaysToClient(v: View)
    requires Open(v) && v.done
    ensures
      var wire := v.clientSent + v.out;
      && |wire| >= 129 && wire[..129] == v.greeting
      && DecodeOut(wire[129..]) == OutDecoded(v.frames, [])
      && Payloads(BINARY, DecodeOut(wire[129..]).frames) + v.t2c == v.targetIn
  {
    hide EncodeOuts, DecodeOut, Payloads, Run, Relayed, Taken;
    DecodeEncodeOuts(v.frames, []);
    DecodeOutEmpty();
    assert EncodeOuts(v.frames) + [] == EncodeOuts(v.frames);
    assert v.frames + [] == v.frames;
    assert (v.clientSent + v.out)[129..] == EncodeOuts(v.frames);
  }

  /** The client wire, in every state: a prefix of the response and of whole frames of the
      shape (BINARY or PONG)* CLOSE?, and what a client decodes from it is a prefix of them. */
  lemma ClientWireLanguage(v: View)
    requires Safe(v)
    ensures Shape(v.frames)
    ensures v.clientSent <= (if v.done then v.greeting + EncodeOuts(v.frames) else [])
    ensures v.done && |v.clientSent| >= 129 ==> DecodeOut(v.clientSent[129..]).frames <= v.frames
    ensures v.done && |v.clientSent| >= 129 ==> Payloads(BINARY, DecodeOut(v.clientSent[129..]).frames) <= v.targetIn
  {
    hide EncodeOuts, DecodeOut, Payloads, Run, Relayed, Shape, Taken;
    if v.done && |v.clientSent| >= 129 {
      DecodedOfPrefix(v.greeting, v.frames, v.clientSent);
      PayloadsPrefix(BINARY, DecodeOut(v.clientSent[129..]).frames, v.frames);
    }
  }

  lemma DecodedOfPrefix(response: bytes, fs: seq<OutFrame>, sent: bytes)
    requires |response| == 129 <= |sent| && AllWritable(fs)
    requires sent <= response + EncodeOuts(fs)
    ensures DecodeOut(sent[129..]).frames <= fs
  {
    hide EncodeOuts, DecodeOut;
    var n := |sent| - 129;
    assert sent[129..] == EncodeOuts(fs)[..n];
    assert EncodeOuts(fs) == EncodeOuts(fs)[..n] + EncodeOuts(fs)[n..];
    DecodeOutMonotone(EncodeOuts(fs)[..n], EncodeOuts(fs)[n..]);
    DecodeEncodeOuts(fs, []);
    DecodeOutEmpty();
    assert EncodeOuts(fs) + [] == EncodeOuts(fs);
    assert fs + [] == fs;
  }

  lemma {:induction false} PayloadsPrefix(op: nat, fs: seq<OutFrame>, gs: seq<OutFrame>)
    requires fs <= gs
    ensures Payloads(op, fs) <= Payloads(op, gs)
    decreases |gs|
  {
    if fs != gs {
      var front := gs[..|gs| - 1];
      assert fs <= front;
      PayloadsPrefix(op, fs, front);
    }
  }

  /** The first byte on the wire of each frame: FIN with the opcode of data, of a PONG, and at the
      end of a CLOSE. */
  predicate WireBytes(fs: seq<OutFrame>)
    requires AllWritable(fs)
  {
    forall i :: 0 <= i < |fs| ==>
      var b := EncodeOut(fs[i])[0];
      b == 0x82 || b == 0x8a || (i == |fs| - 1 && b == 0x88)
  }

  lemma ShapeOnWire(fs: seq<OutFrame>)
    requires Shape(fs) && AllWritable(fs)
    ensures WireBytes(fs)
  {
    forall i | 0 <= i < |fs|
      ensures
        var b := EncodeOut(fs[i])[0];
        b == 0x82 || b == 0x8a || (i == |fs| - 1 && b == 0x88)
    {
      assert IsFlow(fs[i]) || (i == |fs| - 1 && fs[i].opcode == CLOSE);
    }
  }

  /** Everything promised about the bytes of a session, in terms of independent decoders and in
      the numbers of RFC 6455. */
  ghost predicate Promise(v: View) {
    && Early(v)
    // the target gets the data payload of the client's frames, in order and unaltered
    && v.targetSent <= DecodedPayload(DataBytes, Heard(v))
    && (v.closing < 2 && v.done ==> v.targetSent + v.c2t == DecodedPayload(DataBytes, Heard(v)))
    // the client gets the response and frames of the right shape, never torn or mixed
    && Shape(v.frames) && AllWritable(v.frames) && WireBytes(v.frames)
    && (!v.done ==> v.clientSent == [])
    && (v.done ==> v.clientSent <= v.greeting + EncodeOuts(v.frames))
    // which carry the bytes of the target and the payload of the pings, in order and unaltered
    && (v.done && |v.clientSent| >= 129 ==> Payloads(2, DecodeOut(v.clientSent[129..]).frames) <= v.targetIn)
    && (v.closing < 2 && v.done ==>
          var wire := v.clientSent + v.out;
          && |wire| >= 129
          && Payloads(2, DecodeOut(wire[129..]).frames) + v.t2c == v.targetIn
          && Payloads(10, DecodeOut(wire[129..]).frames) == DecodedPayload(PingBytes, Heard(v)))
    // a CLOSE is answered with its own payload
    && (v.closing == 1 ==> v.closePayload == DecodedClose(Heard(v)))
    && (forall f <- v.frames :: f.opcode == 8 ==> f.payload == DecodedClose(Heard(v)))
    && (v.done && |v.clientSent| >= 129 ==>
          forall f <- DecodeOut(v.clientSent[129..]).frames :: f.opcode == 8 ==> f.payload == DecodedClose(Heard(v)))
  }

  lemma ClosingEchoes(v: View)
    requires v.closing < 2 ==> Open(v)
    ensures Echoes(v)
  {
    hide Run, Relayed, EncodeOuts, Payloads, Taken, FirstClose, Heard;
  }

  lemma InvariantKeepsPromise(v: View)
    requires Safe(v) && (v.closing < 2 ==> Open(v) && CaughtUp(v))
    ensures Promise(v)
  {
    hide Run, Relayed, EncodeOuts, Payloads, DecodedPayload, DecodeOut, Shape, Open, Heard, DecodedClose, FirstClose,
      WireBytes;
    TargetGotPrefix(v);
    ClientWireLanguage(v);
    ShapeOnWire(v.frames);
    DecodedIsClose(Heard(v));
    ClosingEchoes(v);
    if v.closing < 2 && v.done {
      RelaysToClient(v);
      RelaysToTarget(v);
    }
  }

  // ---------------------------------------------------------------------
  // Whole runs
  // ---------------------------------------------------------------------

  /** All there is to know about a session between two events. */
  datatype Snapshot = Snapshot(
    view: View,
    chunks: seq<bytes>,       // what each read from the client returned
    key: bytes,               // the key of the accepted request
    clientRegistered: bool,
    targetRegistered: bool,
    clientMask: Interest,
    targetMask: Interest,
    client: Calls,
    target: Calls,
    log: Log,
    why: Reason)

  /** A session right after session_create. */
  function Initial(capacity: nat): Snapshot {
    var none := Calls(0, 0, false, false, false);
    Snapshot(View(capacity, [], [], [], [], [], [], [], [], false, [], 0, [], 0, 0, false, [], false), [], [],
             true, false, Interest(true, false), Interest(false, false), none, none, Log([], false, false), NotClosed)
  }

  /** What the delivery of one event does to a session.  An event for a leg that is not
      registered does nothing. */
  predicate Turn(io: Io, x: Snapshot, mid: View, y: Snapshot, readBudget: nat, writeBudget: nat) {
    match io
    case ClientReady(events) =>
      if !x.clientRegistered then y == x
      else && y.log.deliveries == x.log.deliveries + [Delivery(io, x.clientMask)]
           && ClientServed(events, x.view, mid, y.view, x.client, y.client, readBudget, writeBudget)
    case TargetReady(events) =>
      if !x.targetRegistered then y == x
      else && y.log.deliveries == x.log.deliveries + [Delivery(io, x.targetMask)]
           && TargetServed(events, x.view, mid, y.view, x.target, y.target, readBudget, writeBudget)
    case Expired =>
      if x.view.closing == 2 then y == x
      else && y.log.deliveries == x.log.deliveries + [Delivery(io, x.clientMask)]
           && y.view == x.view.(closing := 2) && y.why == TimedOut
  }

  ghost predicate Turned(io: Io, x: Snapshot, y: Snapshot, readBudget: nat, writeBudget: nat) {
    exists mid :: Turn(io, x, mid, y, readBudget, writeBudget)
  }

  /** With rings of this size, and a client that is read only when asked for, no buffer is ever
      too small. */
  predicate Roomy(x: Snapshot) {
    x.view.capacity >= 16849 && Asked(x.log.deliveries) && x.view.closing == 2 ==> !Cramped(x.why)
  }

  /** Everything promised about a session between two events. */
  ghost predicate Sound(x: Snapshot) {
    var v := x.view;
    && Promise(v) && Roomy(x)
    // the early bytes are those of the read that completed the request, which was accepted
    && Traced(x.chunks, v.clientIn, v.done, v.early)
    && (v.done ==> Introduced(v.clientIn, x.key, v.header, v.greeting))
    // which client bytes are heard
    && (Heard(v) == Stream(v) <==> Kept(v) == |v.early|)
    && (v.capacity >= 4087 ==> Heard(v) == Stream(v))
    && (v.closing == 0 && v.done ==> !Illegal(Heard(v), 0))
    // what the session waits for
    && (v.closing < 2 ==>
          && x.clientRegistered && x.targetRegistered == v.done
          && (x.clientMask.read <==> v.closing == 0 && (!v.done || |v.c2t| < v.capacity * 3 / 4))
          && (x.clientMask.write <==> v.out != [] || v.t2c != []))
    && (v.closing < 2 && v.done ==>
          && (x.targetMask.read <==> !v.connecting && |v.t2c| < v.capacity * 3 / 4)
          && (x.targetMask.write <==> v.connecting || v.c2t != []))
    && (v.closing < 2 && v.capacity >= 2 ==>
          && Drains(v)
          && (x.clientMask.read || x.clientMask.write || (x.targetRegistered && x.targetMask.write))
          && (v.closing == 1 || v.pending ==> x.clientMask.write))
    && (v.closing == 0 && v.done && v.capacity == 1 && v.out == [] && v.c2t == [] && !v.connecting ==>
          x.clientMask == x.targetMask == Interest(false, false))
    // why it was closed
    && (if v.closing == 2 then Caused(x.why, v, x.log) else Calm(x.log))
    && (v.closing == 2 && x.why == StreamIllegal ==> Illegal(Heard(v), 0))
  }
}
