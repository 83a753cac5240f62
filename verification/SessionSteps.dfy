/** What the single steps of a session do to its snapshot: each keeps the invariant. */
module SessionSteps {
  import opened Core
  import opened WsSpec
  import opened WsWriter
  import opened WsParser
  import opened Handshake
  import opened SessionSpec
  import opened Intake

  lemma OpenFacts(v: View)
    requires Open(v) && v.done && v.closing == 0
    ensures !v.pending
  {
    hide Run, Relayed, EncodeOuts, Payloads, Taken;
  }

  lemma OnMessageRoom(v: View, msg: Message)
    requires |v.c2t| <= v.capacity && |msg.payload| <= v.capacity - |v.c2t| && v.closing == 0
    requires IsControl(msg.opcode) ==> |msg.payload| <= 125
    ensures
      var v' := OnMessage(v, msg);
      && |v'.c2t| <= v.capacity && v.capacity - |v'.c2t| == RoomAfter(v.capacity - |v.c2t|, msg)
      && (v'.closing == 0 <==> !Ends(msg) || (msg.opcode == PING && v.out == []))
      && (v'.closing == 2 ==> msg.opcode == PING && v.out != [] && v'.out == v.out)
      && (v'.closing == 0 && v.out != [] ==> v'.out != [])
      && Heard(v') == Heard(v) && v'.fed == v.fed && v'.done == v.done
  {
    hide EncodeOut, Taken;
  }

  /** A PING piece that finds client_out busy is evidence for closing the session. */
  lemma PingIsCause(v: View, msg: Message, n: nat, a: Automaton, a': Automaton)
    requires Open(v) && v.done && v.closing == 0 && ValidOpcode(msg.opcode)
    requires msg.payload != [] || msg.frameComplete
    requires |v.c2t| <= v.capacity && |msg.payload| <= v.capacity - |v.c2t|
    requires IsControl(msg.opcode) ==> |msg.payload| <= 125
    requires InStep(v, a) && Feeds(v, n, a, MessageEvents(msg), a')
    ensures
      var v' := Advance(OnMessage(v, msg), n);
      v'.closing == 2 ==> forall log :: Caused(PingWhileBusy, v', log)
  {
    hide Run, Relayed, EncodeOuts, EncodeOut, Payloads, Taken, DataEvents, Judge, Open;
    OnMessageRoom(v, msg);
    var v' := Advance(OnMessage(v, msg), n);
    if v'.closing == 2 {
      FedMore(v, n);
      var events := MessageEvents(msg);
      assert Outcomes(v').events == Outcomes(v).events + events;
      assert events != [] && events[|events| - 1].opcode == PING;
    }
  }

  lemma UntouchedFacts(v: View)
    requires Untouched(v)
    ensures v.targetIn == [] && v.targetSent == []
    ensures v.out == [] && v.c2t == [] && v.fed == 0 && v.header == 0 && v.early == [] && v.closing == 0
  {
  }

  /** Whether the target is connected yet makes no difference to what was promised. */
  lemma GreetedConnecting(v: View, k: bytes, h: nat, connecting: bool)
    requires h <= |v.clientIn|
    requires Open(Greeted(v, k, h)) && Safe(Greeted(v, k, h)) && InStep(Greeted(v, k, h), START)
    ensures
      var v' := Greeted(v, k, h).(connecting := connecting);
      Open(v') && Safe(v') && InStep(v', START) && Safe(v'.(closing := 2))
      && v'.done && v'.header == h && v'.fed == v.fed && v'.targetIn == v.targetIn && v'.targetSent == v.targetSent
      && v'.c2t == v.c2t && v'.closing == v.closing && Heard(v') == Heard(Greeted(v, k, h))
  {
    hide Run, Relayed, EncodeOuts, Payloads, Taken, Shape, Flows, HasClose, AllWritable, FirstClose;
  }

  lemma ClosedIsSafe(v: View)
    requires Safe(v)
    ensures Safe(v.(closing := 2))
  {
    hide Run, Relayed, EncodeOuts, Payloads, Taken;
  }

  lemma ClosedIsCaused(why: Reason, v: View, log: Log)
    ensures Caused(why, v.(closing := 2), log) == Caused(why, v, log)
  {
    hide Run, Relayed, Response, Judge, EncodeOuts, Taken, Payloads;
  }

  lemma PeerIsCause(v: View, log: Log)
    requires log.failed
    ensures Caused(PeerFailed, v, log)
  {
    hide Run, Relayed, Response, Judge, EncodeOuts;
  }

  lemma RefusalIsCause(v: View, log: Log)
    requires v.done && log.refused
    ensures Caused(TargetRefused, v, log)
  {
    hide Run, Relayed, Response, Judge, EncodeOuts;
  }

  lemma DeliveryIsCause(v: View, log: Log)
    requires log.deliveries != []
    ensures
      var io := log.deliveries[|log.deliveries| - 1].io;
      && (IsError(io) ==> Caused(ErrorEvent, v, log))
      && (io.Expired? ==> Caused(TimedOut, v, log))
  {
    hide Run, Relayed, Response, Judge, EncodeOuts;
  }

  lemma StreamIsCause(v: View, log: Log)
    requires v.done && Rejected(v)
    ensures Caused(StreamIllegal, v, log)
  {
    hide Run, Relayed, Response, Judge, EncodeOuts;
  }

  lemma StallIsCause(v: View, a: Automaton, log: Log)
    requires v.done && InStep(v, a) && v.fed < |Heard(v)| && |v.c2t| <= v.capacity
    requires Oversized(a, v.capacity - |v.c2t|)
    ensures Caused(ControlTooBig, v, log)
  {
    hide Run, Relayed, Response, Judge, EncodeOuts, Taken;
  }

  /** Bytes read from the target for which the ring has no room. */
  lemma OverrunIsCause(v: View, data: bytes, written: nat, log: Log)
    requires Open(v) && v.done && written < |data| && |v.t2c| + written == v.capacity
    ensures Caused(RingFull, v.(targetIn := v.targetIn + data, t2c := v.t2c + data[..written]), log)
  {
    hide Run, Relayed, Response, Judge, EncodeOuts, Taken, Payloads;
    var v' := v.(targetIn := v.targetIn + data, t2c := v.t2c + data[..written]);
    assert Payloads(BINARY, v.frames) + v'.t2c == v.targetIn + data[..written];
  }

  lemma SentIsCause(v: View, log: Log)
    requires v.done && AllSent(v)
    ensures Caused(CloseSent, v, log)
  {
    hide Run, Relayed, Response, Judge, EncodeOuts;
  }

  /** Everything that handling a message means for the snapshot. */
  lemma Handled(v: View, msg: Message, n: nat, a: Automaton, a': Automaton)
    requires Open(v) && v.done && v.closing == 0 && ValidOpcode(msg.opcode)
    requires msg.payload != [] || msg.frameComplete
    requires |v.c2t| <= v.capacity && |msg.payload| <= v.capacity - |v.c2t|
    requires IsControl(msg.opcode) ==> |msg.payload| <= 125
    requires InStep(v, a) && Feeds(v, n, a, MessageEvents(msg), a') && WholeClose(v, msg, n)
    ensures !v.pending
    ensures
      var v' := Advance(OnMessage(v, msg), n);
      && Safe(v') && (v'.closing < 2 ==> Open(v') && InStep(v', a')) && Heard(v') == Heard(v)
      && |v'.c2t| <= v.capacity && v.capacity - |v'.c2t| == RoomAfter(v.capacity - |v.c2t|, msg)
      && (v'.closing == 0 <==> !Ends(msg) || (msg.opcode == PING && v.out == []))
      && (v'.closing == 0 && v.out != [] ==> v'.out != [])
      && (v'.closing == 2 ==> msg.opcode == PING && forall log :: Caused(PingWhileBusy, v', log))
  {
    hide Run, Safe, Open, InStep, Feeds, MessageEvents, OnMessage, Caused, Heard;
    OpenFacts(v);
    OnMessageRoom(v, msg);
    OnMessageOpen(v, msg, n, a, a');
    PingIsCause(v, msg, n, a, a');
    AdvancedHeard(OnMessage(v, msg), n);
  }

  lemma AdvancedHeard(v: View, n: nat)
    ensures Heard(Advance(v, n)) == Heard(v)
  {
  }

  /** A CLOSE that is cut off is cut off where the input ends. */
  lemma CloseIsWhole(v: View, a: Automaton, room: nat, data: bytes, used: nat, msg: Message, a': Automaton)
    requires v.fed <= |Heard(v)| && Heard(v)[v.fed..] == data[..Taken(Gate(a, room), data)]
    requires TakenStep(a, room, data, Ok, used, msg, a') && used <= |data|
    requires IsControl(msg.opcode) ==> |msg.payload| <= 125 && (msg.frameComplete || used == |data|)
    ensures WholeClose(v, msg, used)
  {
    hide Taken, Heard;
  }

  /** What is heard depends on the input alone. */
  lemma SameHeard(v: View, v': View)
    requires v'.clientIn == v.clientIn && v'.header == v.header && v'.early == v.early && v'.capacity == v.capacity
    ensures Heard(v') == Heard(v)
  {
  }

  /** With this much room at the start of some input of n bytes, no control frame in it stalls. */
  lemma NeverStalls(v: View, v': View, a: Automaton, a': Automaton, n: nat)
    requires Open(v) && Open(v') && v.done && v'.done && v.closing == v'.closing == 0
    requires InStep(v, a) && InStep(v', a') && WellFormed(a) && Heard(v') == Heard(v)
    requires v'.targetSent == v.targetSent && v'.capacity == v.capacity
    requires v.fed <= v'.fed < |Heard(v)| && |Heard(v)| - v.fed <= n
    requires n + 118 <= v.capacity - |v.c2t| && 125 <= v.capacity - |v.c2t|
    ensures !Oversized(a', v'.capacity - |v'.c2t|)
  {
    hide Run, Relayed, EncodeOuts, Payloads, Heard, HasClose, Wire, ShapeNow, FromTarget, Oversized;
    var x, y := Heard(v)[..v.fed], Heard(v)[v.fed..v'.fed];
    assert Heard(v)[..v'.fed] == x + y;
    RunConcat(START, x, y);
    RelayedConcat(DataBytes, Run(START, x).events, Run(a, y).events);
    NoStall(a, y, v.capacity - |v.c2t|, n);
  }

  lemma CrammedNothing(v: View)
    requires |v.t2c| <= v.capacity
    ensures Crammed(v, []) == v
  {
    assert v.t2c + [] == v.t2c && v.targetIn + [] == v.targetIn;
  }

  lemma CrammedPart(v: View, data: bytes, written: nat)
    requires |v.t2c| <= v.capacity && written == Min(|data|, v.capacity - |v.t2c|)
    ensures v.(targetIn := v.targetIn + data, t2c := v.t2c + data[..written]) == Crammed(v, data)
  {
    assert v.t2c + data[..written] == (v.t2c + data)[..Min(|v.t2c + data|, v.capacity)];
  }

  lemma TakenUp(a: Automaton, room: nat, data: bytes, rc: Status, used: nat, msg: Message, a': Automaton)
    requires TakenStep(a, room, data, rc, used, msg, a')
    ensures rc != Ok || Ends(msg) ==> Taken(Gate(a, room), data) == |data|
  {
    hide Taken;
  }

  lemma TakenEmpty(g: Gate)
    ensures Taken(g, []) == 0
  {
  }

  lemma NothingFromTarget(v: View)
    requires Open(v) && v.targetIn == []
    ensures v.t2c == []
  {
    hide Run, Relayed, EncodeOuts, Payloads, Taken;
  }

  /** The last read returned `data`, and those before it `before`. */
  predicate Completes(chunks: seq<bytes>, before: bytes, data: bytes) {
    chunks != [] && Flat(chunks[..|chunks| - 1]) == before && chunks[|chunks| - 1] == data
  }

  lemma CompletesNow(chunks: seq<bytes>, before: bytes, early: bytes, data: bytes)
    requires Traced(chunks, before, false, early)
    ensures Completes(chunks + [data], before, data)
  {
    assert (chunks + [data])[..|chunks|] == chunks;
  }

  /** Where the early bytes come from. */
  lemma EarlyBytes(chunks: seq<bytes>, before: bytes, data: bytes)
    requires Completes(chunks, before, data) && Waiting(before) && Judge(before + data).Accepted?
    ensures
      var h := Judge(before + data).consumed;
      h <= |before + data| && Traced(chunks, before + data, true, (before + data)[h..])
  {
    hide Judge, FirstEnd, EarlyOf, Flat;
    JudgedHeader(before + data);
    HeaderInside(before + data);
    TracedNow(chunks, before, data, Judge(before + data).consumed);
  }

  /** Later reads change neither the request nor the early bytes. */
  lemma IntroducedTwice(chunks: seq<bytes>, clientIn: bytes, chunk: bytes, key: bytes, header: nat, greeting: bytes,
                        early: bytes)
    requires Introduced(clientIn, key, header, greeting) && Traced(chunks, clientIn, true, early)
    ensures Introduced(clientIn + chunk, key, header, greeting) && Traced(chunks + [chunk], clientIn + chunk, true, early)
  {
    hide Traced, FirstEnd, JudgeBlock, Response;
    IntroducedMore(clientIn, chunk, key, header, greeting);
    TracedMore(chunks, clientIn, early, chunk);
  }

  lemma IllegalIsCause(v: View, log: Log)
    requires Caused(StreamIllegal, v, log)
    ensures Rejected(v)
  {
    hide Run, Relayed, Response, Judge, EncodeOuts;
  }

  lemma SafeHeader(v: View)
    requires Safe(v)
    ensures Early(v)
  {
    hide Run, Relayed, EncodeOuts, Payloads, Taken;
  }

  /** The request ends in the read that completes it, so fewer bytes than one read come early. */
  lemma HeaderIsLate(before: bytes, data: bytes)
    requires Waiting(before) && |before + data| <= MAX_REQUEST && Judge(before + data).Accepted?
    ensures |before| < Judge(before + data).consumed <= |before + data|
  {
    hide Judge, FirstEnd;
    JudgeChunks(before, data);
    JudgedHeader(before + data);
    HeaderInside(before + data);
  }

  lemma StillPending(v: View, all: bytes)
    requires Untouched(v) && !v.done && |all| <= MAX_REQUEST && Judge(all) == Pending
    ensures Open(v.(clientIn := all)) && CaughtUp(v.(clientIn := all)) && Waiting(all)
  {
    hide JudgeBlock, FirstEnd;
    JudgeNotPending(all);
  }

  lemma OpenUntouched(v: View)
    requires Open(v) && !v.done
    ensures Untouched(v)
  {
    hide Run, Relayed, EncodeOuts, Payloads, Taken;
  }

  lemma SendDone(v: View, n: nat)
    requires Flowing(v) && CaughtUp(v) && v.out != [] && n <= |v.out|
    ensures
      var v' := SentToClient(v, n);
      Flowing(v') && Safe(v') && CaughtUp(v') && forall a :: InStep(v, a) ==> InStep(v', a)
  {
    hide Run, Relayed, EncodeOuts, Payloads, Safe, Taken;
    if v.done {
      SentToClientFlows(v, n);
      OpenIsSafe(SentToClient(v, n));
    }
  }

  lemma PendingDone(v: View)
    requires Flowing(v) && CaughtUp(v) && v.out == [] && v.pending
    ensures v.done && v.closing == 1 && |v.closePayload| <= 125
    ensures
      var v' := Queued(v, OutFrame(CLOSE, v.closePayload)).(pending := false);
      Open(v') && Safe(v') && CaughtUp(v')
  {
    hide Run, Relayed, EncodeOuts, EncodeOut, Payloads, Safe, Taken;
    PendingCloseFlows(v);
    OpenIsSafe(Queued(v, OutFrame(CLOSE, v.closePayload)).(pending := false));
  }

  lemma DataDone(v: View, n: nat)
    requires Flowing(v) && v.done && CaughtUp(v) && v.out == [] && v.closing == 0 && n <= |v.t2c| && n <= IO_CHUNK
    ensures HeaderSize(n) + n <= OUT_CAPACITY
    ensures
      var v' := Queued(v.(t2c := v.t2c[n..]), OutFrame(BINARY, v.t2c[..n]));
      Open(v') && Safe(v') && CaughtUp(v') && forall a :: InStep(v, a) ==> InStep(v', a)
  {
    hide Run, Relayed, EncodeOuts, EncodeOut, Payloads, Safe, Taken;
    DataFrameFlows(v, n);
    OpenIsSafe(Queued(v.(t2c := v.t2c[n..]), OutFrame(BINARY, v.t2c[..n])));
  }

  lemma OpenNotPending(v: View)
    requires Open(v)
    ensures v.pending ==> v.closing == 1
  {
    hide Run, Relayed, EncodeOuts, Payloads, Taken;
  }

  lemma GotSafe(v: View, data: bytes)
    requires Safe(v)
    ensures Safe(v.(targetIn := v.targetIn + data))
    ensures forall t2c :: Safe(v.(targetIn := v.targetIn + data, t2c := t2c))
  {
    hide Run, Relayed, EncodeOuts, Payloads, Taken;
  }

  lemma GotOpen(v: View, data: bytes)
    requires Open(v) && v.done && CaughtUp(v) && |v.t2c| + |data| <= v.capacity
    ensures
      var v' := v.(targetIn := v.targetIn + data, t2c := v.t2c + data);
      Open(v') && CaughtUp(v') && forall a :: InStep(v, a) ==> InStep(v', a)
  {
    hide Run, Relayed, EncodeOuts, Payloads, Taken;
    GotFromTarget(v, data);
  }

  lemma PushedOpen(v: View, n: nat)
    requires Open(v) && v.done && CaughtUp(v) && n <= |v.c2t|
    ensures
      var v' := v.(targetSent := v.targetSent + v.c2t[..n], c2t := v.c2t[n..]);
      Open(v') && CaughtUp(v') && Safe(v') && forall a :: InStep(v, a) ==> InStep(v', a)
  {
    hide Run, Relayed, EncodeOuts, Payloads, Safe, Taken;
    SentToTarget(v, n);
    OpenIsSafe(v.(targetSent := v.targetSent + v.c2t[..n], c2t := v.c2t[n..]));
  }

  lemma ConnectedOpen(v: View, a: Automaton)
    requires Open(v) && v.done && CaughtUp(v) && Safe(v)
    ensures
      var v' := v.(connecting := false);
      Open(v') && CaughtUp(v') && Safe(v') && (InStep(v, a) ==> InStep(v', a))
  {
    hide Run, Relayed, EncodeOuts, Payloads, Taken, Shape, Flows, HasClose, AllWritable, FirstClose;
  }

  function Stocked(v: View, data: bytes): View {
    v.(targetIn := v.targetIn + data, t2c := v.t2c + data)
  }

  function Drained(v: View, n: nat): View
    requires n <= |v.c2t|
  {
    v.(targetSent := v.targetSent + v.c2t[..n], c2t := v.c2t[n..])
  }

  lemma SentNothing(v: View)
    ensures SentToClient(v, 0) == v
  {
    assert v.clientSent + v.out[..0] == v.clientSent && v.out[0..] == v.out;
  }

  lemma StockedNothing(v: View)
    ensures Stocked(v, []) == v
  {
    assert v.targetIn + [] == v.targetIn && v.t2c + [] == v.t2c;
  }

  lemma FilledNothing(v: View)
    ensures FilledRing(v, v)
  {
    assert v.targetIn[|v.targetIn|..] == [] && v.t2c + [] == v.t2c;
  }

  lemma DrainedNothing(v: View)
    ensures Drained(v, 0) == v && DrainedRing(v, v)
  {
    assert v.targetSent + v.c2t[..0] == v.targetSent && v.c2t[0..] == v.c2t;
  }

  lemma ClosingIsDone(v: View)
    requires Flowing(v) && v.out == [] && v.closing != 0 && !v.pending
    ensures v.done && AllSent(v)
  {
    hide Run, Relayed, EncodeOuts, Payloads, AllSent, Taken;
    CloseWasSent(v);
  }

  lemma NotTooLong(request: bytes)
    requires |request| <= MAX_REQUEST
    ensures Judge(request) != TooLong
  {
    hide GoodRequestLine, Lines, LineEnd, CString;
  }

  lemma WroteSome(v: View, n: nat, stalled: bool, failed: bool)
    requires |v.closePayload| <= 125 && |v.t2c| < LENGTH_LIMIT && n <= |v.out| && v.closing < 2
    ensures |SentToClient(v, n).out| == |v.out| - n
    ensures n < |v.out| && stalled ==> WroteClient(v, SentToClient(v, n), stalled, failed)
    ensures n < |v.out| && failed ==> WroteClient(v, SentToClient(v, n).(closing := 2), stalled, failed)
    ensures n == |v.out| ==> WroteClient(v, NextOut(SentToClient(v, n)), stalled, failed)
  {
    hide EncodeOut;
  }

  lemma IgnoredMessage(v: View, msg: Message)
    requires |v.c2t| <= v.capacity && msg.opcode == PONG
    ensures OnMessage(v, msg) == v
  {
    hide EncodeOut;
  }

  lemma NoHeader()
    ensures HeaderLen([]) == None
  {
  }

  /** Seven different objects make a set of seven. */
  lemma Seven(a: object, b: object, c: object, d: object, e: object, f: object, g: object)
    requires a !in {b, c, d, e, f, g} && b !in {c, d, e, f, g} && c !in {d, e, f, g}
    requires d !in {e, f, g} && e !in {f, g} && f != g
    ensures |{a, b, c, d, e, f, g}| == 7
  {
    assert |{g}| == 1 && |{f, g}| == 2 && |{e, f, g}| == 3 && |{d, e, f, g}| == 4 && |{c, d, e, f, g}| == 5;
  }
}
