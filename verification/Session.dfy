/** One proxy session of src/proxy/proxy.c, with plain transports on both legs. */
module Session {
  import opened Core
  import opened WsSpec
  import opened WsWriter
  import opened WsParser
  import opened Handshake
  import opened SessionSpec
  import opened SessionSteps
  import opened Intake
  import Ring
  import Transport

  class Session {
    const readBudget: nat
    const writeBudget: nat
    const client: Transport.Leg
    const target: Transport.Leg
    var clientRegistered: bool
    var targetRegistered: bool
    var targetStarted: bool
    var targetConnecting: bool
    var handshakeDone: bool
    var closing: nat
    var pendingClose: bool
    const pendingClosePayload: array<byte>
    var pendingClosePayloadLen: nat
    const handshake: array<byte>
    var handshakeLen: nat
    const parser: Parser
    const clientToTarget: Ring.Buffer
    const targetToClient: Ring.Buffer
    const clientOut: array<byte>
    var clientOutLen: nat
    var clientOutPos: nat
    /** The interest that the event loop holds for each leg. */
    var clientMask: Interest
    var targetMask: Interest

    ghost var frames: seq<OutFrame>
    ghost var key: bytes
    ghost var greeting: bytes
    ghost var header: nat
    ghost var early: bytes
    ghost var fed: nat
    /** The events handed to this session so far. */
    ghost var deliveries: seq<Delivery>
    ghost var why: Reason

    ghost function Repr(): set<object> {
      {this, client, target, pendingClosePayload, handshake, parser, parser.extLenBytes, parser.mask,
       clientToTarget, clientToTarget.data, targetToClient, targetToClient.data, clientOut}
    }

    /** No two buffers share storage. */
    ghost predicate Separate() {
      && client != target && clientToTarget != targetToClient
      && |{pendingClosePayload as object, handshake, clientOut, clientToTarget.data, targetToClient.data,
           parser.mask, parser.extLenBytes}| == 7
    }

    /** The buffers are as session_create allocated them. */
    ghost predicate Buffers()
      reads clientToTarget, targetToClient, clientToTarget.data, targetToClient.data
    {
      && Separate()
      && pendingClosePayload.Length == 125 && handshake.Length == MAX_REQUEST && clientOut.Length == OUT_CAPACITY
      && parser.mask.Length == 4 && parser.extLenBytes.Length == 8
      && clientToTarget.Valid() && targetToClient.Valid()
      && clientToTarget.data.Length == targetToClient.data.Length <= 65536
      && clientToTarget.highWater == targetToClient.highWater == HighWater(clientToTarget.data.Length)
    }

    ghost predicate Wellformed()
      reads Repr()
    {
      && Buffers()
      && pendingClosePayloadLen <= 125 && handshakeLen <= MAX_REQUEST && clientOutPos <= clientOutLen <= OUT_CAPACITY
      && closing <= 2 && (closing == 2 ==> !clientRegistered && !targetRegistered)
    }

    ghost function Now(): View
      reads Repr()
      requires Wellformed()
    {
      View(clientToTarget.data.Length,
                client.received, client.sent, target.received, target.sent,
                clientOut[clientOutPos..clientOutLen], clientToTarget.Contents(), targetToClient.Contents(),
                frames, handshakeDone, greeting, header, early, fed,
                closing, pendingClose, pendingClosePayload[..pendingClosePayloadLen], targetConnecting)
    }

    /** What has happened to this session from outside. */
    ghost function Facts(): Log
      reads this, client, target
    {
      Log(deliveries, client.failed || target.failed, target.refused)
    }

    /** What holds in every state, closed or not. */
    ghost predicate Base()
      reads Repr()
    {
      && Wellformed() && Safe(Now())
      && (handshakeDone ==> Introduced(client.received, key, header, greeting))
      && |early| < IO_CHUNK && Traced(client.chunks, client.received, handshakeDone, early)
      && (clientToTarget.highWater == 0 ==> target.received == [])
      && (closing == 2 ==> Grounds(why))
    }

    /** There is evidence for closing the session for this reason. */
    ghost predicate Grounds(reason: Reason)
      reads Repr()
      requires Wellformed()
    {
      Caused(reason, Now(), Facts())
    }

    ghost predicate ParserOk()
      reads Repr()
      requires Wellformed()
    {
      && parser.Valid()
      && (!handshakeDone ==> parser.Abs() == START)
      && (handshakeDone ==> InStep(Now(), parser.Abs()))
    }

    /** The request is still coming in, and nothing else has happened. */
    ghost predicate Undecided()
      reads this, client, handshake
    {
      && handshakeLen <= handshake.Length && handshake[..handshakeLen] == client.received
      && Waiting(client.received) && !targetRegistered && !targetStarted
    }

    /** What holds between any two steps of an event. */
    ghost predicate Inner()
      reads Repr()
    {
      && Base()
      && (closing < 2 ==>
            && Open(Now()) && Calm(Facts())
            && clientRegistered
            && (handshakeDone ==> targetRegistered)
            && (!handshakeDone ==> Undecided())
            && (closing == 0 ==> ParserOk()))
    }

    /** What holds between any two events. */
    ghost predicate Valid()
      reads Repr()
    {
      && Inner()
      && (closing < 2 ==>
            && CaughtUp(Now())
            && clientMask == ClientInterest(Now())
            && (targetRegistered ==> handshakeDone && targetMask == TargetInterest(Now())))
    }

    static ghost function Parts(client: Transport.Leg, target: Transport.Leg, parser: Parser, c2t: Ring.Buffer,
                                t2c: Ring.Buffer, closePayload: array<byte>, handshake: array<byte>, out: array<byte>)
      : set<object>
    {
      {client, target, closePayload, handshake, parser, parser.extLenBytes, parser.mask,
       c2t, c2t.data, t2c, t2c.data, out}
    }

    /** The session record of session_create, around buffers that were just allocated. */
    constructor (client: Transport.Leg, target: Transport.Leg, parser: Parser, c2t: Ring.Buffer, t2c: Ring.Buffer,
                 closePayload: array<byte>, handshake: array<byte>, out: array<byte>, readBudget: nat, writeBudget: nat)
      requires client.received == client.sent == target.received == target.sent == []
      requires client.chunks == [] && !target.refused
      requires client.History() == target.History() == Transport.Calls(0, 0, false, false, false)
      requires parser.Valid() && parser.Abs() == START
      requires c2t.Valid() && t2c.Valid() && c2t.Contents() == t2c.Contents() == []
      requires c2t.data.Length == t2c.data.Length <= 65536 && c2t.highWater == t2c.highWater == HighWater(c2t.data.Length)
      requires closePayload.Length == 125 && handshake.Length == MAX_REQUEST && out.Length == OUT_CAPACITY
      requires client != target && c2t != t2c
      requires |{closePayload as object, handshake, out, c2t.data, t2c.data, parser.mask, parser.extLenBytes}| == 7
      ensures Valid() && Snap() == Initial(c2t.data.Length)
      ensures this.readBudget == readBudget && this.writeBudget == writeBudget
      ensures Repr() == {this} + Parts(client, target, parser, c2t, t2c, closePayload, handshake, out)
      ensures clientToTarget == c2t && this.client == client && this.target == target
    {
      this.readBudget, this.writeBudget := readBudget, writeBudget;
      this.client, this.target := client, target;
      clientRegistered, targetRegistered, targetStarted, targetConnecting := true, false, false, false;
      handshakeDone, closing, pendingClose := false, 0, false;
      pendingClosePayload, pendingClosePayloadLen := closePayload, 0;
      this.handshake, handshakeLen := handshake, 0;
      this.parser := parser;
      clientToTarget, targetToClient := c2t, t2c;
      clientOut, clientOutLen, clientOutPos := out, 0, 0;
      clientMask, targetMask := Interest(true, false), Interest(false, false);
      frames, key, greeting, header, early, fed, deliveries, why := [], [], [], 0, [], 0, [], NotClosed;
      new;
      hide Run, Relayed, Safe, Ring.Window, FirstEnd, WellFormed, EncodeOuts, Introduced, Taken;
      NoHeader();
      UntouchedIsSafe(Now(), []);
    }

    /** The session between two events. */
    ghost function Snap(): Snapshot
      reads Repr()
      requires Valid()
    {
      Snapshot(Now(), client.chunks, key, clientRegistered, targetRegistered, clientMask, targetMask,
               client.History(), target.History(), Facts(), why)
    }

    /** session_close: the session is out of the event loop for good. */
    method Close(reason: Reason)
      requires Wellformed()
      modifies this`closing, this`clientRegistered, this`targetRegistered, this`why
      ensures Wellformed() && Now() == old(Now()).(closing := 2)
      ensures why == if old(closing) == 2 then old(why) else reason
    {
      hide Ring.Window, Buffers, Separate;
      RoomIs();
      if closing == 2 {
        return;
      }
      closing := 2;
      why := reason;
      clientRegistered := false;
      targetRegistered := false;
    }

    method SetClientOut(data: bytes) returns (rc: Status)
      requires Wellformed()
      modifies this`clientOutLen, this`clientOutPos, clientOut
      ensures Wellformed()
      ensures rc == if |data| > OUT_CAPACITY then Overflow else if old(Now()).out != [] then Again else Ok
      ensures Now() == if rc == Ok then old(Now()).(out := data) else old(Now())
    {
      if |data| > OUT_CAPACITY {
        return Overflow;
      }
      if clientOutLen != clientOutPos {
        return Again;
      }
      Copy(clientOut, 0, data);
      clientOutLen, clientOutPos := |data|, 0;
      return Ok;
    }

    method MakeWsFrame(opcode: nat, payload: bytes) returns (rc: Status)
      requires Wellformed() && |payload| < LENGTH_LIMIT && ValidOpcode(opcode)
      modifies this`clientOutLen, this`clientOutPos, this`frames, clientOut
      ensures Wellformed()
      ensures rc == Ok <==>
              old(Now()).out == [] && (IsControl(opcode) ==> |payload| <= 125)
              && HeaderSize(|payload|) + |payload| <= OUT_CAPACITY
      ensures Now() == if rc == Ok then Queued(old(Now()), OutFrame(opcode, payload)) else old(Now())
    {
      hide EncodeOut, Ring.Window, HeaderSize, Separate, Buffers;
      RoomIs();
      if clientOutLen != clientOutPos {
        return Again;
      }
      var written;
      rc, written := PutFrame(opcode, payload);
      if rc != Ok {
        return;
      }
      clientOutLen, clientOutPos := written, 0;
      frames := frames + [OutFrame(opcode, payload)];
      assert clientOut[0..written] == clientOut[..written];
    }

    /** Writes a frame into the empty client_out. */
    method PutFrame(opcode: nat, payload: bytes) returns (rc: Status, written: nat)
      requires Wellformed() && |payload| < LENGTH_LIMIT && ValidOpcode(opcode) && clientOutPos == clientOutLen
      modifies clientOut
      ensures Wellformed() && Now() == old(Now())
      ensures rc == Ok <==>
              (IsControl(opcode) ==> |payload| <= 125) && HeaderSize(|payload|) + |payload| <= OUT_CAPACITY
      ensures rc == Ok ==> written <= OUT_CAPACITY == clientOut.Length
      ensures rc == Ok ==> clientOut[..written] == EncodeOut(OutFrame(opcode, payload))
    {
      hide EncodeOut, Ring.Window;
      rc, written := WriteFrame(opcode, payload, clientOut, OUT_CAPACITY);
    }

    method KeepClosePayload(payload: bytes)
      requires Wellformed() && closing == 0
      modifies this`closing, this`pendingClose, this`pendingClosePayloadLen, pendingClosePayload
      ensures Wellformed()
      ensures Now() == old(Now()).(closing := 1, pending := true, closePayload := payload[..Min(|payload|, 125)])
    {
      hide Ring.Window;
      closing := 1;
      var closeLen := |payload|;
      if closeLen > 125 {
        closeLen := 125;
      }
      Copy(pendingClosePayload, 0, payload[..closeLen]);
      pendingClosePayloadLen := closeLen;
      pendingClose := true;
      assert pendingClosePayload[..closeLen] == payload[..closeLen];
    }

    /** The CLOSE branch of session_handle_ws_message. */
    method HandleClose(msg: Message)
      requires Wellformed() && closing == 0 && msg.opcode == CLOSE && !pendingClose
      modifies this`closing, this`clientOutLen, this`clientOutPos, this`frames, this`pendingClose,
               this`pendingClosePayloadLen, clientOut, pendingClosePayload
      ensures Wellformed() && closing == 1
      ensures Now() == OnMessage(old(Now()), msg)
    {
      hide EncodeOut, Ring.Window;
      KeepClosePayload(msg.payload);
      if clientOutLen == clientOutPos {
        var rc := MakeWsFrame(CLOSE, pendingClosePayload[..pendingClosePayloadLen]);
        if rc == Ok {
          pendingClose := false;
        }
      }
    }

    method HandleWsMessage(msg: Message)
      requires Wellformed() && closing == 0 && ValidOpcode(msg.opcode) && |msg.payload| <= IO_CHUNK
      requires !pendingClose
      modifies this`closing, this`clientRegistered, this`targetRegistered, this`clientOutLen, this`clientOutPos,
               this`frames, this`pendingClose, this`pendingClosePayloadLen, this`why, clientOut, clientToTarget,
               clientToTarget.data, pendingClosePayload
      ensures Wellformed()
      ensures unchanged(parser.mask, parser.extLenBytes)
      ensures Now() == OnMessage(old(Now()), msg)
      ensures closing == 2 ==> why == if msg.opcode == PING then PingWhileBusy else RingFull
      ensures closing < 2 ==> clientRegistered == old(clientRegistered) && targetRegistered == old(targetRegistered)
    {
      hide EncodeOut, Ring.Window, OnMessage;
      if msg.opcode == BINARY || msg.opcode == TEXT || msg.opcode == CONTINUATION {
        HandleData(msg);
      } else if msg.opcode == PING {
        HandlePing(msg);
      } else if msg.opcode == CLOSE {
        HandleClose(msg);
      } else {
        IgnoredMessage(Now(), msg);
      }
    }

    method HandleData(msg: Message)
      requires Wellformed() && closing == 0 && !IsControl(msg.opcode)
      modifies this`closing, this`clientRegistered, this`targetRegistered, this`why, clientToTarget, clientToTarget.data
      ensures Wellformed()
      ensures Now() == OnMessage(old(Now()), msg)
      ensures closing == 2 ==> why == RingFull
      ensures closing < 2 ==> clientRegistered == old(clientRegistered) && targetRegistered == old(targetRegistered)
    {
      hide Ring.Window;
      var rc, written := clientToTarget.Write(msg.payload);
      if rc != Ok || written != |msg.payload| {
        Close(RingFull);
      }
    }

    method HandlePing(msg: Message)
      requires Wellformed() && closing == 0 && msg.opcode == PING && |msg.payload| <= IO_CHUNK
      modifies this`closing, this`clientRegistered, this`targetRegistered, this`why, this`clientOutLen,
               this`clientOutPos, this`frames, clientOut
      ensures Wellformed()
      ensures Now() == OnMessage(old(Now()), msg)
      ensures closing == 2 ==> why == PingWhileBusy
      ensures closing < 2 ==> clientRegistered == old(clientRegistered) && targetRegistered == old(targetRegistered)
    {
      hide EncodeOut, Ring.Window;
      var rc := MakeWsFrame(PONG, msg.payload);
      if rc != Ok {
        Close(PingWhileBusy);
      }
    }

    /** The room left towards the target. */
    ghost function Room(): nat
      reads Repr()
      requires Wellformed()
    {
      clientToTarget.data.Length - clientToTarget.length
    }

    /** How much of this input the ring leaves room for. */
    ghost function Due(data: bytes): (n: nat)
      reads Repr()
      requires Wellformed()
      ensures n <= |data|
    {
      Taken(Gate(parser.Abs(), Room()), data)
    }

    /** `data` is what was read from the client and not yet fed to the parser. */
    ghost predicate NextIs(data: bytes)
      reads Repr()
      requires Wellformed()
    {
      && fed <= |Heard(Now())| && Heard(Now())[fed..] == data[..Due(data)]
      && (|data| <= Room() || clientOutPos < clientOutLen)
    }

    /** One call of the parser. */
    method ParseNext(data: bytes, capacity: nat) returns (rc: Status, used: nat, msg: Message)
      requires Wellformed() && handshakeDone && ParserOk() && NextIs(data) && data != []
      requires 0 < capacity == Min(IO_CHUNK, Room())
      modifies parser, parser.mask, parser.extLenBytes
      ensures Wellformed() && Now() == old(Now()) && used <= |data|
      ensures rc == Ok || rc == Again || rc == Overflow || rc == Protocol
      ensures rc != Protocol ==> parser.Valid()
      ensures rc == Ok || rc == Again ==> 0 < used
      ensures rc == Ok ==> Feeds(Now(), used, old(parser.Abs()), MessageEvents(msg), parser.Abs())
      ensures rc == Ok ==> ValidOpcode(msg.opcode) && (msg.payload != [] || msg.frameComplete)
      ensures rc == Ok ==> |msg.payload| <= capacity && |msg.payload| <= used
      ensures rc == Ok && IsControl(msg.opcode) ==> |msg.payload| <= 125
      ensures rc == Ok ==> WholeClose(Now(), msg, used)
      ensures rc == Again || rc == Overflow ==> Feeds(Now(), used, old(parser.Abs()), [], parser.Abs())
      ensures rc == Again ==> used == |data|
      ensures rc == Protocol ==> Rejected(Now())
      ensures rc == Overflow ==> capacity < 125 && used < |data| && Oversized(parser.Abs(), Room())
      ensures TakenStep(old(parser.Abs()), Room(), data, rc, used, msg, parser.Abs())
    {
      hide Run, MessageEvents, WellFormed, Rejected, Taken, TakenStep, Heard, Silent, Piece;
      ghost var a := parser.Abs();
      var payload := new byte[IO_CHUNK];
      rc, used, msg := parser.Feed(data, payload, capacity);
      FeedTaken(a, Room(), data, capacity, rc, used, msg, parser.Abs());
      Onward(Heard(Now()), fed, a, Room(), data, rc, used, msg, parser.Abs(), clientOutPos < clientOutLen);
      if rc == Again {
        assert data[..used] == data;
      } else if rc == Protocol {
        RejectedStream(Now(), a, used);
      } else if rc == Ok {
        CloseIsWhole(Now(), a, Room(), data, used, msg, parser.Abs());
      }
    }

    /** Handling a message keeps the session going, or closes it. */
    method TakeMessage(msg: Message, used: nat, ghost a: Automaton)
      requires Wellformed() && Open(Now()) && closing == 0 && handshakeDone && clientRegistered && targetRegistered
      requires parser.Valid() && InStep(Now(), a) && Feeds(Now(), used, a, MessageEvents(msg), parser.Abs())
      requires WholeClose(Now(), msg, used)
      requires ValidOpcode(msg.opcode) && (msg.payload != [] || msg.frameComplete)
      requires |msg.payload| <= IO_CHUNK && |msg.payload| <= Room()
      requires IsControl(msg.opcode) ==> |msg.payload| <= 125
      modifies this`closing, this`clientRegistered, this`targetRegistered, this`clientOutLen, this`clientOutPos,
               this`frames, this`pendingClose, this`pendingClosePayloadLen, this`fed, this`why, clientOut,
               clientToTarget, clientToTarget.data, pendingClosePayload
      ensures Wellformed() && Safe(Now())
      ensures closing < 2 ==> Open(Now()) && InStep(Now(), parser.Abs()) && clientRegistered && targetRegistered
      ensures parser.Valid() && parser.Abs() == old(parser.Abs())
      ensures closing == 2 ==> why == PingWhileBusy && forall log :: Caused(why, Now(), log)
      ensures fed == old(fed) + used && Heard(Now()) == old(Heard(Now()))
      ensures Room() == RoomAfter(old(Room()), msg)
      ensures closing == 0 <==> !Ends(msg) || (msg.opcode == PING && old(clientOutPos == clientOutLen))
      ensures closing == 0 && old(clientOutPos < clientOutLen) ==> clientOutPos < clientOutLen
    {
      hide Separate, Buffers, Run, Safe, Open, Feeds, InStep, MessageEvents, Ring.Window, OnMessage, WellFormed, Caused,
        Introduced, Traced, Waiting, Heard, Taken, Ends, RoomAfter, ValidOpcode, Advance;
      ghost var v := Now();
      RoomIs();
      Handled(v, msg, used, a, parser.Abs());
      HandleWsMessage(msg);
      Advanced(used);
      RoomIs();
    }

    lemma RoomIs()
      requires Wellformed()
      ensures |Now().c2t| <= Now().capacity && Room() == Now().capacity - |Now().c2t|
      ensures Now().out == [] <==> clientOutPos == clientOutLen
    {
      hide Ring.Window;
    }

    /** Counts bytes that the parser has consumed. */
    ghost method Advanced(used: nat)
      requires Wellformed()
      modifies this`fed
      ensures Wellformed() && Now() == Advance(old(Now()), used) && fed == old(fed) + used
    {
      hide Ring.Window;
      fed := fed + used;
    }

    ghost method TakeNothing(used: nat, a: Automaton)
      requires Wellformed() && Open(Now()) && closing == 0 && handshakeDone
      requires InStep(Now(), a) && Feeds(Now(), used, a, [], parser.Abs())
      modifies this`fed
      ensures Wellformed() && Open(Now()) && Safe(Now()) && InStep(Now(), parser.Abs())
      ensures fed == old(fed) + used && Now() == Advance(old(Now()), used) && Heard(Now()) == old(Heard(Now()))
    {
      hide Run, Safe, Open, Feeds, InStep, Ring.Window, WellFormed, Introduced, Traced, Waiting, Heard, Taken;
      ghost var v := Now();
      FedNothing(v, used, a, parser.Abs());
      AdvancedHeard(v, used);
      fed := fed + used;
      assert Now() == Advance(v, used);
    }

    /** Handles the message of a call of the parser on `data` in state a. */
    method TakePiece(ghost data: bytes, used: nat, msg: Message, ghost a: Automaton)
      requires Base() && Open(Now()) && Calm(Facts()) && closing == 0 && handshakeDone
      requires clientRegistered && targetRegistered
      requires parser.Valid() && InStep(Now(), a) && Feeds(Now(), used, a, MessageEvents(msg), parser.Abs())
      requires WholeClose(Now(), msg, used)
      requires ValidOpcode(msg.opcode) && (msg.payload != [] || msg.frameComplete)
      requires |msg.payload| <= IO_CHUNK && |msg.payload| <= Room() && |msg.payload| <= used <= |data|
      requires IsControl(msg.opcode) ==> |msg.payload| <= 125
      requires fed <= |Heard(Now())| && Heard(Now())[fed..] == data[..Taken(Gate(a, Room()), data)]
      requires |data| <= Room() || clientOutPos < clientOutLen
      requires TakenStep(a, Room(), data, Ok, used, msg, parser.Abs())
      modifies this`closing, this`clientRegistered, this`targetRegistered, this`clientOutLen, this`clientOutPos,
               this`frames, this`pendingClose, this`pendingClosePayloadLen, this`fed, this`why, clientOut,
               clientToTarget, clientToTarget.data, pendingClosePayload
      ensures Inner() && Room() >= old(Room()) - used && old(fed) <= fed
      ensures closing == 2 ==> why == PingWhileBusy
      ensures if closing == 0
              then NextIs(data[used..]) && Taken(Gate(a, old(Room())), data) == used + Due(data[used..])
              else Taken(Gate(a, old(Room())), data) == |data|
    {
      hide Run, Safe, Open, Feeds, InStep, MessageEvents, Ring.Window, WellFormed, Caused, Introduced, Traced, Waiting,
        Heard, Taken, TakenStep, Calm, Buffers, Separate;
      ghost var room, busy := Room(), clientOutPos < clientOutLen;
      Onward(Heard(Now()), fed, a, room, data, Ok, used, msg, parser.Abs(), busy);
      TakenUp(a, room, data, Ok, used, msg, parser.Abs());
      TakeMessage(msg, used, a);
    }

    /** One call of the parser, and its message: what is still due comes next, unless the
        session stops here. */
    method FeedOnce(data: bytes, capacity: nat) returns (rc: Status, used: nat)
      requires Inner() && closing == 0 && handshakeDone && data != [] && NextIs(data)
      requires 0 < capacity == Min(IO_CHUNK, Room())
      modifies this`closing, this`clientRegistered, this`targetRegistered, this`clientOutLen, this`clientOutPos,
               this`frames, this`pendingClose, this`pendingClosePayloadLen, this`fed, this`why, clientOut,
               clientToTarget, clientToTarget.data, pendingClosePayload, parser, parser.mask, parser.extLenBytes
      ensures Base() && used <= |data|
      ensures rc == Ok || rc == Again || rc == Protocol || rc == Overflow
      ensures rc == Ok || rc == Again ==> Inner() && 0 < used && Room() >= old(Room()) - used
      ensures rc != Ok ==> closing == 0
      ensures closing == 2 ==> why == PingWhileBusy
      ensures Fault(rc)
      ensures old(fed) <= fed
      ensures if (rc == Ok || rc == Again) && closing == 0
              then NextIs(data[used..]) && old(Due(data)) == used + Due(data[used..])
              else old(Due(data)) == |data|
    {
      hide Buffers, Separate, Run, Safe, Open, Feeds, InStep, MessageEvents, Ring.Window, WellFormed, Rejected, Caused,
        Introduced, Traced, Waiting, Heard, Taken, TakenStep;
      ghost var a, v, room, busy := parser.Abs(), Now(), Room(), clientOutPos < clientOutLen;
      var msg;
      rc, used, msg := ParseNext(data, capacity);
      if rc == Ok {
        TakePiece(data, used, msg, a);
        return;
      }
      Onward(Heard(v), fed, a, room, data, rc, used, msg, parser.Abs(), busy);
      TakenUp(a, room, data, rc, used, msg, parser.Abs());
      if rc == Again {
        TakeNothing(used, a);
        TakenEmpty(Gate(parser.Abs(), room));
      } else if rc == Overflow {
        TakeNothing(used, a);
        StallIsCause(Now(), parser.Abs(), Facts());
      } else {
        StreamIsCause(Now(), Facts());
      }
    }

    /** session_process_ws_bytes: it takes exactly what the ring leaves room for. */
    method ProcessWsBytes(data: bytes) returns (rc: Status)
      requires Inner() && closing == 0 && handshakeDone && NextIs(data)
      modifies this`closing, this`clientRegistered, this`targetRegistered, this`clientOutLen, this`clientOutPos,
               this`frames, this`pendingClose, this`pendingClosePayloadLen, this`fed, this`why, clientOut,
               clientToTarget, clientToTarget.data, pendingClosePayload, parser, parser.mask, parser.extLenBytes
      ensures Base()
      ensures rc == Again <==> old(Due(data)) < |data|
      ensures rc == Ok || rc == Again ==> Inner() && closing < 2 && CaughtUp(Now())
      ensures rc == Again ==> closing == 0 && Room() == 0
      ensures |data| + 118 <= old(Room()) && 125 <= old(Room()) ==> rc != Overflow
      ensures rc == Ok || rc == Again || rc == Closed || rc == Protocol || rc == Overflow
      ensures closing == 2 ==> rc == Closed && why == PingWhileBusy
      ensures rc == Closed ==> closing == 2
      ensures rc == Protocol ==> Grounds(StreamIllegal)
      ensures rc == Overflow ==> Grounds(ControlTooBig)
    {
      hide Buffers, Separate, ParserOk, Undecided, Calm, Run, Safe, Open, InStep, Ring.Window, WellFormed, Grounds,
        Introduced, Traced, Waiting, Heard, Due, NextIs, CaughtUp;
      ghost var v := Now();
      ghost var a := Begin(data);
      rc := FeedAll(data);
      if rc == Overflow {
        StallNeeds(v, a, |data|);
      }
    }

    /** The loop of session_process_ws_bytes. */
    method FeedAll(data: bytes) returns (rc: Status)
      requires Inner() && closing == 0 && handshakeDone && NextIs(data)
      modifies this`closing, this`clientRegistered, this`targetRegistered, this`clientOutLen, this`clientOutPos,
               this`frames, this`pendingClose, this`pendingClosePayloadLen, this`fed, this`why, clientOut,
               clientToTarget, clientToTarget.data, pendingClosePayload, parser, parser.mask, parser.extLenBytes
      ensures Base() && old(fed) <= fed
      ensures rc == Again <==> old(Due(data)) < |data|
      ensures rc == Ok || rc == Again ==> Inner() && closing < 2 && CaughtUp(Now())
      ensures rc == Again ==> closing == 0 && Room() == 0
      ensures rc == Ok || rc == Again || rc == Closed || rc == Protocol || rc == Overflow
      ensures closing == 2 ==> rc == Closed && why == PingWhileBusy
      ensures rc == Closed ==> closing == 2
      ensures Fault(rc)
    {
      hide Fault, Buffers, Separate, ParserOk, Undecided, Calm, Run, Safe, Open, InStep, Ring.Window, WellFormed,
        Grounds, Introduced, Traced, Waiting, Heard, Due, NextIs, Cornered;
      var offset := 0;
      ghost var due := Due(data);
      assert data[0..] == data;
      while offset < |data| && closing == 0
        invariant Inner() && offset <= |data| && handshakeDone && old(fed) <= fed
        invariant closing == 0 ==> NextIs(data[offset..]) && due == offset + Due(data[offset..])
        invariant closing == 0 || due == |data|
        invariant closing == 2 ==> why == PingWhileBusy
        decreases |data| - offset
      {
        ghost var room := Room();
        var capacity := Min(IO_CHUNK, clientToTarget.Writable());
        if capacity == 0 {
          NothingDue(data[offset..]);
          NoFault(Again);
          return Again;
        }
        var used;
        rc, used := FeedOnce(data[offset..], capacity);
        assert data[offset..][used..] == data[offset + used..];
        offset := offset + used;
        if rc == Again {
          if used == 0 {
            break;
          }
        } else if rc != Ok {
          return;
        }
      }
      if closing == 0 {
        NothingDue(data[offset..]);
      }
      rc := if closing == 2 then Closed else Ok;
      NoFault(rc);
    }

    lemma NoFault(rc: Status)
      requires Wellformed() && rc != Protocol && rc != Overflow
      ensures Fault(rc)
    {
    }

    /** An error of the parser comes with the evidence for closing the session. */
    ghost predicate Fault(rc: Status)
      reads Repr()
      requires Wellformed()
    {
      && (rc == Protocol ==> Grounds(StreamIllegal))
      && (rc == Overflow ==> Grounds(ControlTooBig) && Cornered())
    }

    /** The parser stands before a control frame that the ring has no room for. */
    ghost predicate Cornered()
      reads Repr()
    {
      && Inner() && closing == 0 && handshakeDone
      && Oversized(parser.Abs(), Room()) && fed < |Heard(Now())|
    }

    /** No more is heard than the input at hand. */
    lemma Begin(data: bytes) returns (a: Automaton)
      requires Inner() && closing == 0 && handshakeDone && NextIs(data)
      ensures fed <= |Heard(Now())| && |Heard(Now())| - fed <= |data|
      ensures InStep(Now(), a) && WellFormed(a)
    {
      hide Ring.Window, Heard, Run, Safe, Open, InStep, WellFormed, Caused, Introduced, Traced, Waiting, Calm;
      a := parser.Abs();
    }

    /** A stall shows that there was little room at the start of the input, in state v. */
    lemma StallNeeds(v: View, a: Automaton, n: nat)
      requires Cornered()
      requires v.clientIn == Now().clientIn && v.header == header && v.early == early && v.capacity == Now().capacity
      requires Open(v) && InStep(v, a) && WellFormed(a) && v.closing == 0 && v.done && v.targetSent == Now().targetSent
      requires v.fed <= fed && |Heard(v)| - v.fed <= n
      ensures v.capacity - |v.c2t| < n + 118 || v.capacity - |v.c2t| < 125
    {
      hide Run, Safe, Open, InStep, Ring.Window, WellFormed, Caused, Introduced, Waiting, Heard, Oversized, Traced,
        Calm;
      SameHeard(v, Now());
      if v.capacity - |v.c2t| >= n + 118 && v.capacity - |v.c2t| >= 125 {
        NeverStalls(v, Now(), a, parser.Abs(), n);
      }
    }

    /** At the end of the input, and with a full ring, nothing more is due. */
    lemma NothingDue(data: bytes)
      requires Wellformed() && NextIs(data) && (data == [] || Room() == 0)
      ensures Due(data) == 0 && CaughtUp(Now())
    {
      hide Ring.Window, Heard;
    }

    /** Why an error of session_process_ws_bytes closes the session. */
    static function Blame(rc: Status): Reason {
      if rc == Protocol then StreamIllegal else ControlTooBig
    }

    /** session_start_target: connecting may fail at once, succeed at once, or take a while. */
    method StartTarget() returns (rc: Status)
      requires Wellformed() && closing < 2 && !targetStarted && !targetRegistered && !target.refused
      modifies this`targetStarted, this`targetConnecting, this`targetRegistered, this`targetMask, target`refused
      ensures Wellformed()
      ensures rc == Ok <==> targetRegistered
      ensures rc == Ok <==> !target.refused
      ensures Now() == old(Now()).(connecting := targetConnecting)
    {
      hide Ring.Window, Buffers, Separate;
      var started, inProgress;
      rc, started, inProgress := target.Connect();
      if !started {
        return;
      }
      targetStarted := true;
      targetConnecting := inProgress;
      if rc == Ok {
        targetRegistered := true;
        targetMask := Interest(false, true);
      }
    }

    /** The handshake buffer holds what had come in state v, and `data` has just been read. */
    ghost predicate Arriving(data: bytes, v: View)
      reads Repr()
    {
      && Wellformed() && Untouched(v) && !v.done && Waiting(v.clientIn) && |data| <= IO_CHUNK
      && Now() == v.(clientIn := v.clientIn + data) && Completes(client.chunks, v.clientIn, data)
      && handshake[..handshakeLen] == v.clientIn
      && Beginning()
    }

    ghost predicate Beginning()
      reads this, client, target, parser, parser.mask, parser.extLenBytes
    {
      && !handshakeDone && closing == 0 && clientRegistered && !targetRegistered && !targetStarted
      && parser.Valid() && parser.Abs() == START && Calm(Facts()) && target.received == []
      && Traced(client.chunks, client.received, false, early)
    }

    /** Appends to the handshake buffer, if there is room. */
    method Accumulate(data: bytes, ghost v: View) returns (fits: bool)
      requires Arriving(data, v)
      modifies handshake, this`handshakeLen
      ensures Wellformed() && Now() == old(Now()) && Beginning()
      ensures if fits then handshake[..handshakeLen] == client.received else |client.received| > MAX_REQUEST
    {
      hide Untouched, Ring.Window, WellFormed;
      var available := MAX_REQUEST - handshakeLen;
      if |data| > available {
        return false;
      }
      Copy(handshake, handshakeLen, data);
      handshakeLen := handshakeLen + |data|;
      return true;
    }

    /** Queues the response and starts the target, or closes the session. */
    method Greet(response: bytes, ghost k: bytes, ghost h: nat, ghost v: View)
      requires Wellformed() && Beginning() && Untouched(v) && !v.done
      requires Now() == v.(clientIn := client.received)
      requires Judge(client.received) == Accepted(k, h) && response == Response(k) && |client.received| - h < IO_CHUNK
      requires h <= |client.received| && Traced(client.chunks, client.received, true, client.received[h..])
      modifies this`clientOutLen, this`clientOutPos, clientOut, this`handshakeDone, this`key, this`greeting,
               this`header, this`early, this`targetStarted, this`targetConnecting, this`targetRegistered,
               this`targetMask, this`closing, this`clientRegistered, this`why, target`refused
      ensures Inner() && h <= |client.received|
      ensures closing == 2 ==> why == TargetRefused
      ensures closing == 0 || closing == 2
      ensures closing == 0 ==> handshakeDone && header == h && early == client.received[h..] && NextIs(early)
      ensures clientToTarget.length == 0
    {
      hide Safe, Open, Untouched, InStep, Response, Judge, Ring.Window, WellFormed, Caused, Introduced, Waiting, Taken,
        Heard, Calm;
      IntroducedBy(client.received, k, h);
      GreetedOpen(v, client.received, response, h);
      UntouchedFacts(v);
      ghost var v0 := Now();
      SayHello(response, k, h);
      Connect(v0, response, h);
      if closing == 0 {
        GreetedNext(v0, response, h);
      }
    }

    /** The early bytes come next. */
    lemma GreetedNext(v: View, response: bytes, h: nat)
      requires Wellformed() && h <= |v.clientIn| && v.c2t == [] && v.fed == 0 && response != []
      requires Now() == Greeted(v, response, h).(connecting := targetConnecting)
      requires parser.Abs() == START && Heard(Now()) == early[..Kept(Now())]
      ensures NextIs(early)
    {
      hide Ring.Window, Taken, Heard;
      assert Now().early == early && Now().c2t == [] && Now().out == response;
      assert Room() == Now().capacity;
      assert Heard(Now())[0..] == Heard(Now());
    }

    /** Starts the target after the response was queued in state v. */
    method Connect(ghost v: View, ghost response: bytes, ghost h: nat)
      requires h <= |v.clientIn|
      requires Wellformed() && Now() == Greeted(v, response, h) && v.closing == 0
      requires Open(Now()) && Safe(Now()) && InStep(Now(), START) && parser.Valid() && parser.Abs() == START
      requires Introduced(client.received, key, header, greeting) && |early| < IO_CHUNK && Calm(Facts())
      requires Traced(client.chunks, client.received, true, early)
      requires clientRegistered && !targetStarted && !targetRegistered && target.received == []
      modifies this`targetStarted, this`targetConnecting, this`targetRegistered, this`targetMask, this`closing,
               this`clientRegistered, this`why, target`refused
      ensures Inner() && (closing == 0 || closing == 2)
      ensures closing == 2 ==> why == TargetRefused
      ensures closing == 0 ==> Now() == Greeted(v, response, h).(connecting := targetConnecting)
      ensures closing == 0 ==> Heard(Now()) == Heard(Greeted(v, response, h))
    {
      hide Run, Safe, Open, InStep, Ring.Window, WellFormed, Caused, Introduced, Traced, Waiting, Heard, Taken;
      var rc := StartTarget();
      GreetedConnecting(v, response, h, targetConnecting);
      if rc != Ok {
        RefusalIsCause(Now(), Facts());
        CloseNow(TargetRefused);
      }
    }

    method SayHello(response: bytes, ghost k: bytes, ghost h: nat)
      requires Wellformed() && Now().out == [] && |response| == 129 && h <= |client.received|
      modifies this`clientOutLen, this`clientOutPos, clientOut, this`handshakeDone, this`key, this`greeting,
               this`header, this`early
      ensures Wellformed() && Now() == Greeted(old(Now()), response, h)
      ensures key == k && greeting == response && header == h
      ensures early == client.received[h..]
    {
      hide Buffers, Separate, Ring.Window;
      var rc := SetClientOut(response);
      assert rc == Ok;
      handshakeDone, key, greeting, header, early := true, k, response, h, client.received[h..];
    }

    /** session_handle_handshake_bytes. */
    method HandleHandshakeBytes(data: bytes, ghost v: View)
      requires Arriving(data, v)
      modifies this`clientOutLen, this`clientOutPos, this`handshakeDone, this`key, this`greeting, this`header,
               this`early, this`handshakeLen, this`targetStarted, this`targetConnecting, this`targetRegistered,
               this`targetMask, this`closing, this`clientRegistered, this`frames, this`pendingClose,
               this`pendingClosePayloadLen, this`fed, this`why, clientOut, handshake, clientToTarget,
               clientToTarget.data, pendingClosePayload, parser, parser.mask, parser.extLenBytes, target`refused
      ensures Inner()
      ensures closing < 2 ==> CaughtUp(Now())
      ensures clientToTarget.data.Length >= IO_CHUNK + 118 && closing == 2 ==> !Cramped(why)
    {
      hide Safe, Open, Untouched, InStep, Judge, Ring.Window, WellFormed, CaughtUp, Caused, Introduced, Waiting, Heard,
        Taken;
      var fits := Accumulate(data, v);
      if !fits {
        Refuse(v);
        return;
      }
      var rest := Upgrade(data, v);
      if closing == 0 && handshakeDone {
        Leftover(rest);
      }
    }

    /** Judges the request so far and answers it. */
    method Upgrade(ghost data: bytes, ghost v: View) returns (rest: bytes)
      requires Wellformed() && Beginning() && Untouched(v) && !v.done && Waiting(v.clientIn) && |data| <= IO_CHUNK
      requires Now() == v.(clientIn := v.clientIn + data) && handshake[..handshakeLen] == client.received
      requires Completes(client.chunks, v.clientIn, data)
      modifies this`clientOutLen, this`clientOutPos, clientOut, this`handshakeDone, this`key, this`greeting,
               this`header, this`early, this`targetStarted, this`targetConnecting, this`targetRegistered,
               this`targetMask, this`closing, this`clientRegistered, this`why, target`refused
      ensures Inner()
      ensures closing == 0 && !handshakeDone ==> CaughtUp(Now())
      ensures closing == 0 || closing == 2
      ensures closing == 2 ==> why == TargetRefused || why == RequestRefused
      ensures closing == 0 && handshakeDone ==> rest == early == client.received[header..] && NextIs(rest)
      ensures clientToTarget.length == 0
    {
      hide Safe, Open, Untouched, InStep, Judge, Response, Ring.Window, WellFormed, CaughtUp, Caused, Introduced,
        Traced, Waiting, Heard, Taken, NextIs, Calm;
      rest := [];
      UntouchedIsSafe(v, client.received);
      UntouchedFacts(v);
      var response := new byte[256];
      var request := handshake[..handshakeLen];
      var rc, written, consumed := BuildResponse(request, response, 256);
      if rc == Again {
        StillPending(v, request);
        return;
      }
      if rc != Ok {
        NotTooLong(request);
        Refuse(v);
        return;
      }
      HeaderIsLate(v.clientIn, data);
      EarlyBytes(client.chunks, v.clientIn, data);
      Greet(response[..written], Judge(request).key, consumed, v);
      rest := request[consumed..];
    }

    /** A request that is too long or not acceptable. */
    method Refuse(ghost v: View)
      requires Wellformed() && Beginning() && Untouched(v) && !v.done
      requires Now() == v.(clientIn := client.received)
      requires |client.received| > MAX_REQUEST || Judge(client.received) == Refused || Judge(client.received) == BadKey
      modifies this`closing, this`clientRegistered, this`targetRegistered, this`why
      ensures Inner() && closing == 2 && why == RequestRefused
    {
      hide Run, Relayed, Safe, Open, Untouched, FirstEnd, Judge, Ring.Window, WellFormed, Rejected, AllSent, Introduced,
        Traced, Waiting, Heard, Taken, JustPinged, Stalled, Overrun;
      UntouchedIsSafe(v, client.received);
      UntouchedFacts(v);
      ClosedIsSafe(Now());
      Close(RequestRefused);
    }

    /** The bytes after the request go to the parser. */
    method Leftover(rest: bytes)
      requires Inner() && closing == 0 && handshakeDone && NextIs(rest) && |rest| < IO_CHUNK
      requires clientToTarget.length == 0
      modifies this`closing, this`clientRegistered, this`targetRegistered, this`clientOutLen, this`clientOutPos,
               this`frames, this`pendingClose, this`pendingClosePayloadLen, this`fed, this`handshakeLen, this`why,
               clientOut, clientToTarget, clientToTarget.data, pendingClosePayload, parser, parser.mask,
               parser.extLenBytes
      ensures Inner()
      ensures closing < 2 ==> CaughtUp(Now())
      ensures clientToTarget.data.Length >= IO_CHUNK + 118 && closing == 2 ==> !Cramped(why)
    {
      hide Buffers, Separate, ParserOk, Undecided, Run, Safe, Open, InStep, Ring.Window, WellFormed, Introduced,
        Waiting, Heard, Due, Caused, Taken;
      if 0 < |rest| {
        var rc := ProcessWsBytes(rest);
        if rc != Ok && rc != Again {
          CloseNow(Blame(rc));
          return;
        }
      } else {
        NothingDue(rest);
      }
      ForgetRequest();
    }

    method ForgetRequest()
      requires Inner() && handshakeDone
      modifies this`handshakeLen
      ensures Inner() && Now() == old(Now())
    {
      hide Run, Safe, Open, InStep, Ring.Window, WellFormed, Introduced, Traced, Waiting, Heard, Taken, Calm;
      handshakeLen := 0;
      assert Now() == old(Now());
    }

    /** Closing keeps what was promised. */
    method CloseNow(reason: Reason)
      requires Base() && (closing != 2 ==> Grounds(reason))
      modifies this`closing, this`clientRegistered, this`targetRegistered, this`why
      ensures Inner() && closing == 2 && Now() == old(Now()).(closing := 2)
      ensures why == if old(closing) == 2 then old(why) else reason
    {
      hide Safe, Buffers, Separate, Ring.Window, WellFormed, Caused, Introduced, Waiting, Wellformed;
      Stop(reason, Now(), Facts());
    }

    method Stop(reason: Reason, ghost v: View, ghost log: Log)
      requires Wellformed() && Safe(v) && v == Now()
      requires Caused(if closing == 2 then why else reason, v, log)
      modifies this`closing, this`clientRegistered, this`targetRegistered, this`why
      ensures Wellformed() && Safe(Now()) && closing == 2 && Caused(why, Now(), log) && Now() == v.(closing := 2)
      ensures why == if old(closing) == 2 then old(why) else reason
    {
      hide Safe, Buffers, Separate, Ring.Window, WellFormed, Caused, Introduced, Waiting, Wellformed;
      ClosedIsSafe(v);
      ClosedIsCaused(if closing == 2 then why else reason, v, log);
      Close(reason);
    }

    method Receive(limit: nat) returns (rc: Status, data: bytes)
      requires Wellformed() && limit <= IO_CHUNK
      modifies client`received, client`chunks, client`readCalls, client`readBlocked, client`failed
      ensures Wellformed()
      ensures client.chunks == if rc == Ok then old(client.chunks) + [data] else old(client.chunks)
      ensures rc == Ok ==> 0 < |data| <= limit && Now() == GotFromClient(old(Now()), data)
      ensures rc != Ok ==> Now() == old(Now())
      ensures client.readCalls == old(client.readCalls) + 1 && client.readBlocked == (rc == Again)
      ensures client.failed == (old(client.failed) || (rc != Ok && rc != Again))
    {
      hide Ring.Window;
      var buffer := new byte[IO_CHUNK];
      var count;
      rc, count := client.Read(buffer, limit);
      data := buffer[..count];
    }

    /** Reads part of the handshake request. */
    method ReadRequest() returns (more: bool)
      requires Inner() && closing == 0 && !handshakeDone
      modifies this`clientOutLen, this`clientOutPos, this`handshakeDone, this`key, this`greeting, this`header,
               this`early, this`handshakeLen, this`targetStarted, this`targetConnecting, this`targetRegistered,
               this`targetMask, this`closing, this`clientRegistered, this`frames, this`pendingClose,
               this`pendingClosePayloadLen, this`fed, this`why, clientOut, handshake, clientToTarget,
               clientToTarget.data, pendingClosePayload, parser, parser.mask, parser.extLenBytes, target`refused,
               client`received, client`chunks, client`readCalls, client`readBlocked, client`failed
      ensures Inner() && old(client.received) <= client.received
      ensures closing < 2 ==> CaughtUp(Now())
      ensures clientToTarget.data.Length >= IO_CHUNK + 118 && closing == 2 ==> !Cramped(why)
      ensures client.readCalls == old(client.readCalls) + 1
      ensures closing == 0 ==> more == handshakeDone
    {
      hide Safe, Open, Untouched, InStep, Ring.Window, WellFormed, Judge, Caused, Introduced, Traced, Waiting, Heard,
        Taken;
      ghost var v := Now();
      OpenUntouched(v);
      UntouchedFacts(v);
      var rc, data := Receive(IO_CHUNK);
      if rc == Again {
        return false;
      }
      if rc != Ok {
        PeerIsCause(Now(), Facts());
        CloseNow(PeerFailed);
        return false;
      }
      TracedPart(old(client.chunks), v.clientIn, early, data);
      CompletesNow(old(client.chunks), v.clientIn, early, data);
      HandleHandshakeBytes(data, v);
      return handshakeDone && closing != 2;
    }

    /** Reads some frame bytes and forwards their payload. */
    method ReadFrames(limit: nat) returns (more: bool)
      requires Inner() && closing == 0 && handshakeDone && CaughtUp(Now())
      requires 0 < limit <= IO_CHUNK && limit <= Room()
      modifies this`clientOutLen, this`clientOutPos, this`handshakeDone, this`key, this`greeting, this`header,
               this`early, this`handshakeLen, this`targetStarted, this`targetConnecting, this`targetRegistered,
               this`targetMask, this`closing, this`clientRegistered, this`frames, this`pendingClose,
               this`pendingClosePayloadLen, this`fed, this`why, clientOut, handshake, clientToTarget,
               clientToTarget.data, pendingClosePayload, parser, parser.mask, parser.extLenBytes, target`refused,
               client`received, client`chunks, client`readCalls, client`readBlocked, client`failed
      ensures Inner() && old(client.received) <= client.received
      ensures closing < 2 ==> CaughtUp(Now())
      ensures IO_CHUNK + 118 <= old(Room()) && closing == 2 ==> !Cramped(why)
      ensures client.readCalls == old(client.readCalls) + 1 && handshakeDone
      ensures !more && closing == 0 ==> client.readBlocked
    {
      hide Run, Safe, Open, InStep, Ring.Window, WellFormed, Judge, Caused, Introduced, Traced, Waiting, Heard, Taken;
      ghost var v := Now();
      var rc, data := Receive(limit);
      if rc == Again {
        return false;
      }
      if rc != Ok {
        PeerIsCause(Now(), Facts());
        CloseNow(PeerFailed);
        return false;
      }
      ReadMore(v, data, parser.Abs());
      IntroducedTwice(old(client.chunks), v.clientIn, data, key, header, greeting, early);
      TakenAll(Gate(parser.Abs(), Room()), data);
      assert Heard(Now())[fed..] == data == data[..|data|];
      more := Forward(data);
    }

    method Forward(data: bytes) returns (more: bool)
      requires Inner() && closing == 0 && handshakeDone && NextIs(data) && |data| <= Room() && |data| <= IO_CHUNK
      modifies this`closing, this`clientRegistered, this`targetRegistered, this`clientOutLen, this`clientOutPos,
               this`frames, this`pendingClose, this`pendingClosePayloadLen, this`fed, this`why, clientOut,
               clientToTarget, clientToTarget.data, pendingClosePayload, parser, parser.mask, parser.extLenBytes
      ensures Inner()
      ensures closing < 2 ==> CaughtUp(Now())
      ensures more == (closing < 2)
      ensures IO_CHUNK + 118 <= old(Room()) && closing == 2 ==> !Cramped(why)
    {
      hide Buffers, Separate, ParserOk, Undecided, Calm, Run, Safe, Open, InStep, Ring.Window, WellFormed, Grounds,
        Introduced, Waiting, Heard, NextIs, Due;
      var rc := ProcessWsBytes(data);
      if rc != Ok && rc != Again {
        CloseNow(Blame(rc));
        return false;
      }
      return true;
    }

    /** session_read_client: it goes on until the client blocks, the budget is used up, the ring
        is high, or the handshake needs more bytes. */
    method ReadClient()
      requires Inner() && closing < 2 && CaughtUp(Now())
      modifies this`clientOutLen, this`clientOutPos, this`handshakeDone, this`key, this`greeting, this`header,
               this`early, this`handshakeLen, this`targetStarted, this`targetConnecting, this`targetRegistered,
               this`targetMask, this`closing, this`clientRegistered, this`frames, this`pendingClose,
               this`pendingClosePayloadLen, this`fed, this`why, clientOut, handshake, clientToTarget,
               clientToTarget.data, pendingClosePayload, parser, parser.mask, parser.extLenBytes, target`refused,
               client`received, client`chunks, client`readCalls, client`readBlocked, client`failed
      ensures Inner() && TookInput(old(Now()), Now())
      ensures closing < 2 ==> CaughtUp(Now())
      ensures old(closing) <= closing
      ensures clientToTarget.data.Length >= 16849 && old(handshakeDone ==> !clientToTarget.IsHigh()) && closing == 2 ==>
                !Cramped(why)
      ensures closing == 0 && handshakeDone ==>
                ReadEnded(old(client.History()), client.History(), readBudget, High(Now(), Now().c2t))
      ensures closing == 0 && !handshakeDone && readBudget > 0 ==> client.readCalls == old(client.readCalls) + 1
    {
      hide ParserOk, Undecided, Cramped, Run, Safe, Open, InStep, Ring.Window, WellFormed, CaughtUp, Caused, Introduced,
        Traced, Waiting, Heard, Taken, Calm;
      var readOps := 0;
      ghost var roomy := clientToTarget.data.Length >= 16849 && (handshakeDone ==> !clientToTarget.IsHigh());
      while closing == 0 && readOps < readBudget
        invariant Inner() && old(client.received) <= client.received
        invariant closing < 2 ==> CaughtUp(Now())
        invariant old(closing) <= closing
        invariant client.readCalls == old(client.readCalls) + readOps && readOps <= readBudget
        invariant readOps > 0 && closing == 0 ==> handshakeDone
        invariant roomy && closing == 2 ==> !Cramped(why)
        invariant roomy && closing == 0 && handshakeDone ==> !clientToTarget.IsHigh()
        decreases readBudget - readOps
      {
        var more;
        if handshakeDone {
          var readLimit := Min(IO_CHUNK, clientToTarget.Writable());
          if readLimit == 0 {
            return;
          }
          more := ReadFrames(readLimit);
        } else {
          more := ReadRequest();
        }
        readOps := readOps + 1;
        if !more {
          return;
        }
        if clientToTarget.IsHigh() {
          return;
        }
      }
    }

    /** What holds while client_out is being sent: only that it may have run empty. */
    ghost predicate Sending()
      reads Repr()
    {
      && Base() && closing < 2 && Flowing(Now()) && CaughtUp(Now())
      && clientRegistered && (handshakeDone ==> targetRegistered)
      && (!handshakeDone ==> Undecided())
      && (closing == 0 ==> ParserOk())
    }

    /** One write to the client. */
    method SendOnce() returns (rc: Status, ghost sent: nat)
      requires Sending() && clientOutPos < clientOutLen && Calm(Facts())
      modifies this`clientOutPos, client`sent, client`writeCalls, client`writeBlocked, client`failed
      ensures Sending()
      ensures if rc == Ok then 0 < sent <= |old(Now()).out| else sent == 0 && clientOutPos == old(clientOutPos)
      ensures Now() == SentToClient(old(Now()), sent)
      ensures client.writeCalls == old(client.writeCalls) + 1 && client.writeBlocked == (rc == Again)
      ensures if rc == Ok || rc == Again then Calm(Facts()) else client.failed
    {
      hide Run, Safe, Flowing, InStep, Ring.Window, WellFormed, CaughtUp, Caused, Introduced, Traced, Waiting, Heard,
        Taken, Calm;
      ghost var v := Now();
      var n;
      rc, n := client.Write(clientOut[clientOutPos..clientOutLen]);
      sent := n;
      SendDone(v, sent);
      if rc == Ok {
        clientOutPos := clientOutPos + n;
      } else {
        SentNothing(v);
      }
      assert Now() == SentToClient(v, sent);
    }

    /** The sending loop of session_write_client. */
    method Flush() returns (rc: Status, ghost sent: nat)
      requires Sending() && Calm(Facts())
      modifies this`clientOutPos, client`sent, client`writeCalls, client`writeBlocked, client`failed
      ensures Sending()
      ensures sent <= |old(Now()).out| && Now() == SentToClient(old(Now()), sent)
      ensures rc == Ok ==> clientOutPos == clientOutLen
      ensures rc != Ok ==> clientOutPos < clientOutLen
      ensures rc == Again ==> WriteEnded(old(client.History()), client.History(), writeBudget, false)
      ensures if rc == Ok || rc == Again then Calm(Facts()) else client.failed
    {
      hide Buffers, Separate, Run, Safe, Flowing, InStep, Ring.Window, WellFormed, CaughtUp, Caused, SentToClient,
        Introduced, Traced, Waiting, Heard, Taken, Calm;
      var writeOps := 0;
      ghost var v := Now();
      sent := 0;
      SentNothing(v);
      while clientOutPos < clientOutLen && writeOps < writeBudget
        invariant Sending() && Calm(Facts())
        invariant sent <= |v.out| && Now() == SentToClient(v, sent) && |Now().out| == |v.out| - sent
        invariant client.writeCalls == old(client.writeCalls) + writeOps && writeOps <= writeBudget
        decreases writeBudget - writeOps
      {
        ghost var n;
        rc, n := SendOnce();
        SentTwice(v, sent, n);
        sent := sent + n;
        if rc != Ok {
          return;
        }
        writeOps := writeOps + 1;
      }
      if clientOutPos < clientOutLen {
        rc := Again;
      } else {
        rc := Ok;
      }
    }

    method Rewind()
      requires Sending() && clientOutPos == clientOutLen && Calm(Facts())
      modifies this`clientOutLen, this`clientOutPos
      ensures Sending() && Calm(Facts()) && Now() == old(Now()) && clientOutPos == clientOutLen
    {
      hide Run, Safe, Flowing, InStep, Ring.Window, WellFormed, CaughtUp, Caused, Introduced, Traced, Waiting, Heard,
        Taken, Calm;
      clientOutLen, clientOutPos := 0, 0;
      assert Now() == old(Now());
    }

    /** The CLOSE frame that had to wait for client_out. */
    method SendPendingClose()
      requires Sending() && clientOutPos == clientOutLen && pendingClose && Calm(Facts())
      modifies this`clientOutLen, this`clientOutPos, this`frames, this`pendingClose, clientOut
      ensures Inner() && CaughtUp(Now())
      ensures Now() == NextOut(old(Now()))
    {
      hide Run, Safe, Flowing, Open, InStep, EncodeOut, Ring.Window, WellFormed, CaughtUp, Caused, Introduced, Traced,
        Waiting, Heard, Taken, Calm;
      ghost var v := Now();
      PendingDone(v);
      var rc := MakeWsFrame(CLOSE, pendingClosePayload[..pendingClosePayloadLen]);
      if rc == Ok {
        pendingClose := false;
      }
      assert Now() == Queued(v, OutFrame(CLOSE, v.closePayload)).(pending := false);
    }

    /** The next data frame for the client. */
    method SendData()
      requires Sending() && clientOutPos == clientOutLen && closing == 0 && handshakeDone && targetToClient.length != 0
      requires !pendingClose && Calm(Facts())
      modifies this`clientOutLen, this`clientOutPos, this`frames, clientOut, targetToClient
      ensures Inner() && CaughtUp(Now())
      ensures Now() == NextOut(old(Now()))
    {
      hide Run, Safe, Flowing, Open, InStep, EncodeOut, Ring.Window, WellFormed, CaughtUp, Caused, Introduced, Traced,
        Waiting, Heard, Taken, Calm;
      ghost var v := Now();
      var payloadLen := Min(IO_CHUNK, targetToClient.Readable());
      DataDone(v, payloadLen);
      var payload := TakeData(payloadLen);
      var rc := MakeWsFrame(BINARY, payload);
      assert rc == Ok;  // the close after a failed build is unreachable
      assert Now() == Queued(v.(t2c := v.t2c[payloadLen..]), OutFrame(BINARY, v.t2c[..payloadLen]));
    }

    method TakeData(n: nat) returns (payload: bytes)
      requires Wellformed() && n <= targetToClient.length && n <= IO_CHUNK
      modifies targetToClient
      ensures Wellformed()
      ensures payload == old(Now()).t2c[..n] && Now() == old(Now()).(t2c := old(Now()).t2c[n..])
    {
      hide Ring.Window;
      var buffer := new byte[IO_CHUNK];
      var count := targetToClient.Read(buffer, n);
      payload := buffer[..count];
    }

    /** session_write_client: sends what it can; once client_out is empty, builds the next frame. */
    method WriteClient()
      requires Inner() && closing < 2 && CaughtUp(Now())
      modifies this`clientOutLen, this`clientOutPos, this`frames, this`pendingClose, this`closing,
               this`clientRegistered, this`targetRegistered, this`why, clientOut, targetToClient, client`sent,
               client`writeCalls, client`writeBlocked, client`failed
      ensures Inner()
      ensures closing < 2 ==> CaughtUp(Now())
      ensures old(closing) <= closing
      ensures WroteClient(old(Now()), Now(),
                          WriteEnded(old(client.History()), client.History(), writeBudget, false), client.failed)
      ensures closing == 2 ==> !Cramped(why)
    {
      hide Inner, Sending, Base, Buffers, Separate, ParserOk, Undecided, Run, Safe, Flowing, InStep, Ring.Window,
        WellFormed, CaughtUp, Caused, NextOut, WroteClient, SentToClient, Introduced, Traced, Waiting, Heard, Taken,
        Calm, WriteEnded;
      ReadyToSend();
      ghost var v := Now();
      var rc;
      ghost var sent;
      rc, sent := SendAll();
      if rc == Ok {
        WroteSome(v, sent, WriteEnded(old(client.History()), client.History(), writeBudget, false), client.failed);
        NextFrame();
      }
    }

    lemma ReadyToSend()
      requires Inner() && closing < 2 && CaughtUp(Now())
      ensures Sending() && Unsent(Now()) && Calm(Facts()) && Wellformed() && (pendingClose ==> closing == 1)
      ensures |Now().closePayload| <= 125 && |Now().t2c| < LENGTH_LIMIT
    {
      hide Run, Safe, Flowing, InStep, Ring.Window, WellFormed, CaughtUp, Caused, Introduced, Traced, Waiting, Heard,
        Taken, Calm, Separate;
      OpenNotPending(Now());
    }

    /** The first half of session_write_client: sends, and closes the session if the client is gone. */
    method SendAll() returns (rc: Status, ghost sent: nat)
      requires Sending() && Unsent(Now()) && Calm(Facts())
      modifies this`clientOutPos, this`closing, this`clientRegistered, this`targetRegistered, this`why, client`sent,
               client`writeCalls, client`writeBlocked, client`failed
      ensures Wellformed()
      ensures rc == Ok ==> Sending() && Calm(Facts()) && clientOutPos == clientOutLen && closing == old(closing)
      ensures rc == Ok ==> sent == |old(Now()).out| && Now() == SentToClient(old(Now()), sent)
      ensures rc != Ok ==> Inner() && old(closing) <= closing && (closing < 2 ==> CaughtUp(Now()))
      ensures rc != Ok ==>
        WroteClient(old(Now()), Now(),
                    WriteEnded(old(client.History()), client.History(), writeBudget, false), client.failed)
      ensures closing == 2 ==> why == PeerFailed
    {
      hide Run, Safe, Flowing, InStep, Ring.Window, WellFormed, CaughtUp, Caused, NextOut, WroteClient, SentToClient,
        Introduced, Traced, Waiting, Heard, Taken, Calm, WriteEnded;
      ghost var v := Now();
      rc, sent := Flush();
      WroteSome(v, sent, WriteEnded(old(client.History()), client.History(), writeBudget, false), client.failed);
      if rc != Ok && rc != Again {
        PeerIsCause(Now(), Facts());
        CloseNow(PeerFailed);
      }
    }

    /** What session_write_client does once client_out is empty. */
    method NextFrame()
      requires Sending() && clientOutPos == clientOutLen && (pendingClose ==> closing == 1) && Calm(Facts())
      modifies this`clientOutLen, this`clientOutPos, this`frames, this`pendingClose, this`closing,
               this`clientRegistered, this`targetRegistered, this`why, clientOut, targetToClient
      ensures Inner() && Wellformed()
      ensures closing < 2 ==> CaughtUp(Now())
      ensures Now() == NextOut(old(Now()))
      ensures old(closing) <= closing && (closing == 2 ==> why == CloseSent)
    {
      hide Run, Safe, Flowing, InStep, Ring.Window, WellFormed, CaughtUp, Caused, Introduced, Traced, Waiting, Heard,
        Taken, Calm;
      Rewind();
      if pendingClose {
        SendPendingClose();
        return;
      }
      if closing != 0 {
        ClosingIsDone(Now());
        SentIsCause(Now(), Facts());
        CloseNow(CloseSent);
        return;
      }
      if handshakeDone && targetToClient.Readable() != 0 {
        SendData();
      }
    }

    /** One read from the target into the ring. */
    method FillOnce() returns (rc: Status, ghost got: bytes)
      requires Inner() && closing < 2 && handshakeDone && CaughtUp(Now()) && !targetToClient.IsHigh()
      modifies this`closing, this`clientRegistered, this`targetRegistered, this`why, target`received, target`chunks,
               target`readCalls, target`readBlocked, target`failed, targetToClient, targetToClient.data
      ensures Inner()
      ensures closing < 2 ==> CaughtUp(Now())
      ensures closing < 2 ==> Now() == Stocked(old(Now()), got)
      ensures closing == 2 ==> Now() == Crammed(old(Now()), got).(closing := 2)
      ensures rc == Ok ==> closing < 2
      ensures rc != Ok && closing < 2 ==> target.readBlocked
      ensures target.readCalls == old(target.readCalls) + 1
      ensures old(targetToClient.length) + IO_CHUNK <= targetToClient.data.Length && closing == 2 ==> !Cramped(why)
    {
      hide Stocked, Crammed, Run, Safe, Open, InStep, Ring.Window, WellFormed, CaughtUp, Caused, Introduced, Traced,
        Waiting, Heard, Taken;
      ghost var v := Now();
      var data;
      got := [];
      rc, data := FetchTarget();
      if rc == Again {
        StockedNothing(v);
        return;
      }
      if rc != Ok {
        PeerIsCause(Now(), Facts());
        CrammedNothing(v);
        CloseNow(PeerFailed);
        return;
      }
      got := data;
      GotSafe(v, data);
      rc := StoreTarget(data, v);
    }

    /** Bytes read in state v go into the ring, or the session is closed. */
    method StoreTarget(data: bytes, ghost v: View) returns (rc: Status)
      requires Wellformed() && closing < 2 && Now() == v.(targetIn := v.targetIn + data) && |data| <= IO_CHUNK
      requires Open(v) && v.done && CaughtUp(v) && clientRegistered && targetRegistered && Calm(Facts())
      requires forall t2c :: Safe(v.(targetIn := v.targetIn + data, t2c := t2c))
      requires closing == 0 ==> parser.Valid() && InStep(v, parser.Abs())
      requires Introduced(client.received, key, header, greeting) && |early| < IO_CHUNK && clientToTarget.highWater > 0
      requires Traced(client.chunks, client.received, true, early)
      modifies this`closing, this`clientRegistered, this`targetRegistered, this`why, targetToClient,
               targetToClient.data
      ensures Inner()
      ensures closing < 2 ==> CaughtUp(Now()) && Now() == Stocked(v, data)
      ensures closing == 2 ==> Now() == Crammed(v, data).(closing := 2)
      ensures (rc == Ok) == (closing < 2)
      ensures old(targetToClient.length) + IO_CHUNK <= targetToClient.data.Length ==> closing < 2
    {
      hide Run, Safe, Open, InStep, Ring.Window, WellFormed, CaughtUp, Caused, Introduced, Traced, Waiting, Heard,
        Taken, Calm;
      var written;
      rc, written := Stock(data);
      if rc != Ok || written != |data| {
        OverrunIsCause(v, data, written, Facts());
        CrammedPart(v, data, written);
        CloseNow(RingFull);
        return Overflow;
      }
      assert data[..written] == data;
      GotOpen(v, data);
      assert Now() == Stocked(v, data);
    }

    method FetchTarget() returns (rc: Status, data: bytes)
      requires Wellformed()
      modifies target`received, target`chunks, target`readCalls, target`readBlocked, target`failed
      ensures Wellformed() && |data| <= IO_CHUNK
      ensures rc == Ok ==> Now() == old(Now()).(targetIn := old(Now()).targetIn + data)
      ensures rc != Ok ==> Now() == old(Now())
      ensures target.readCalls == old(target.readCalls) + 1 && target.readBlocked == (rc == Again)
      ensures target.failed == (old(target.failed) || (rc != Ok && rc != Again))
    {
      hide Ring.Window;
      var buffer := new byte[IO_CHUNK];
      var count;
      rc, count := target.Read(buffer, IO_CHUNK);
      data := buffer[..count];
    }

    method Stock(data: bytes) returns (rc: Status, written: nat)
      requires Wellformed()
      modifies targetToClient, targetToClient.data
      ensures Wellformed()
      ensures written == Min(|data|, targetToClient.data.Length - old(targetToClient.length))
      ensures rc == if written < |data| then Overflow else Ok
      ensures Now() == old(Now()).(t2c := old(Now()).t2c + data[..written])
    {
      hide Ring.Window;
      rc, written := targetToClient.Write(data);
    }

    /** session_read_target: it goes on until the ring is high, the budget is used up or the
        target blocks. */
    method ReadTarget()
      requires Inner() && closing < 2 && handshakeDone && CaughtUp(Now())
      modifies this`closing, this`clientRegistered, this`targetRegistered, this`why, target`received, target`chunks,
               target`readCalls, target`readBlocked, target`failed, targetToClient, targetToClient.data
      ensures Inner()
      ensures closing < 2 ==> CaughtUp(Now()) && FilledRing(old(Now()), Now())
      ensures closing == 2 ==> CrammedRing(old(Now()), Now().(closing := old(closing)))
      ensures closing < 2 ==> ReadEnded(old(target.History()), target.History(), readBudget, High(Now(), Now().t2c))
      ensures closing == old(closing) || closing == 2
      ensures targetToClient.data.Length >= 16849 && closing == 2 ==> !Cramped(why)
    {
      hide Run, Safe, Open, InStep, Ring.Window, WellFormed, CaughtUp, Caused, Introduced, Traced, Waiting, Heard,
        Taken, Calm;
      ghost var v := Now();
      FilledNothing(v);
      var readOps := 0;
      while !targetToClient.IsHigh() && readOps < readBudget
        invariant Inner() && closing == old(closing) && CaughtUp(Now()) && FilledRing(v, Now())
        invariant target.readCalls == old(target.readCalls) + readOps && readOps <= readBudget
        decreases readBudget - readOps
      {
        ghost var w := Now();
        var rc;
        ghost var data;
        rc, data := FillOnce();
        if closing == 2 {
          CrammedTwice(v, w, data);
          return;
        }
        FilledTwice(v, w, data);
        if rc != Ok {
          return;
        }
        readOps := readOps + 1;
      }
    }

    /** One write to the target from the ring. */
    method DrainOnce() returns (rc: Status, ghost sent: nat)
      requires Inner() && closing < 2 && handshakeDone && CaughtUp(Now())
      modifies this`closing, this`clientRegistered, this`targetRegistered, this`why, target`sent, target`writeCalls,
               target`writeBlocked, target`failed, clientToTarget
      ensures Inner()
      ensures closing < 2 ==> CaughtUp(Now()) && sent <= |old(Now()).c2t| && Now() == Drained(old(Now()), sent)
      ensures rc == Ok ==> closing < 2
      ensures rc != Ok && closing < 2 ==> target.writeBlocked
      ensures closing == 2 ==> why == PeerFailed && Now() == old(Now()).(closing := 2)
      ensures target.writeCalls == old(target.writeCalls) + 1
    {
      hide Run, Safe, Open, InStep, Ring.Window, WellFormed, CaughtUp, Caused, Introduced, Traced, Waiting, Heard,
        Taken;
      ghost var v := Now();
      var n;
      rc, n := PushTarget();
      sent := n;
      if rc == Again {
        return;
      }
      if rc != Ok {
        PeerIsCause(Now(), Facts());
        CloseNow(PeerFailed);
        return;
      }
      PushedOpen(v, n);
    }

    /** Peeks, writes to the target and removes what was written. */
    method PushTarget() returns (rc: Status, sent: nat)
      requires Wellformed()
      modifies target`sent, target`writeCalls, target`writeBlocked, target`failed, clientToTarget
      ensures Wellformed() && sent <= |old(Now()).c2t|
      ensures rc != Ok ==> Now() == old(Now()) && sent == 0
      ensures Now() == Drained(old(Now()), sent)
      ensures rc == Ok && old(Now()).c2t != [] ==> sent > 0
      ensures target.writeCalls == old(target.writeCalls) + 1 && target.writeBlocked == (rc == Again)
      ensures target.failed == (old(target.failed) || (rc != Ok && rc != Again))
    {
      hide Ring.Window;
      var buffer := new byte[IO_CHUNK];
      var count := clientToTarget.Peek(buffer, Min(IO_CHUNK, clientToTarget.Readable()));
      ghost var c := clientToTarget.Contents();
      rc, sent := target.Write(buffer[..count]);
      if rc == Ok {
        assert buffer[..count][..sent] == c[..sent];
        var n := clientToTarget.Consume(sent);
      } else {
        DrainedNothing(old(Now()));
      }
    }

    /** session_write_target: it goes on until the ring is empty, the budget is used up or the
        target blocks. */
    method WriteTarget()
      requires Inner() && closing < 2 && handshakeDone && CaughtUp(Now())
      modifies this`closing, this`clientRegistered, this`targetRegistered, this`why, target`sent, target`writeCalls,
               target`writeBlocked, target`failed, clientToTarget
      ensures Inner()
      ensures closing < 2 ==> CaughtUp(Now())
      ensures DrainedRing(old(Now()), Now().(closing := old(closing)))
      ensures closing < 2 ==> WriteEnded(old(target.History()), target.History(), writeBudget, Now().c2t == [])
      ensures closing == old(closing) || (closing == 2 && why == PeerFailed)
    {
      hide Run, Safe, Open, InStep, Ring.Window, WellFormed, CaughtUp, Caused, Introduced, Traced, Waiting, Heard,
        Taken, Calm;
      ghost var v := Now();
      DrainedNothing(v);
      var writeOps := 0;
      while clientToTarget.Readable() != 0 && writeOps < writeBudget
        invariant Inner() && closing == old(closing) && CaughtUp(Now()) && DrainedRing(v, Now())
        invariant target.writeCalls == old(target.writeCalls) + writeOps && writeOps <= writeBudget
        decreases writeBudget - writeOps
      {
        ghost var w := Now();
        var rc;
        ghost var n;
        rc, n := DrainOnce();
        if closing == 2 {
          return;
        }
        DrainedTwice(v, w, n);
        if rc != Ok {
          return;
        }
        writeOps := writeOps + 1;
      }
    }

    /** session_update_events. */
    method UpdateEvents()
      requires Inner() && (closing < 2 ==> CaughtUp(Now()))
      modifies this`clientMask, this`targetMask
      ensures Valid() && Now() == old(Now())
    {
      hide Run, Safe, Open, InStep, Ring.Window, WellFormed, CaughtUp, Introduced, Traced, Waiting, Heard, Taken, Calm,
        Caused;
      if closing == 2 {
        return;
      }
      var forClient, forTarget := Interests();
      SetMasks(forClient, forTarget);
    }

    method SetMasks(forClient: Interest, forTarget: Interest)
      requires Inner() && closing < 2 && CaughtUp(Now())
      requires forClient == ClientInterest(Now()) && forTarget == TargetInterest(Now())
      modifies this`clientMask, this`targetMask
      ensures Valid() && Now() == old(Now())
    {
      hide Run, Safe, Open, InStep, Ring.Window, WellFormed, CaughtUp, ClientInterest, TargetInterest, Introduced,
        Traced, Waiting, Heard, Taken, Calm, Caused;
      if clientRegistered {
        clientMask := forClient;
      }
      if targetRegistered {
        targetMask := forTarget;
      }
      assert Now() == old(Now());
    }

    method Interests() returns (forClient: Interest, forTarget: Interest)
      requires Wellformed()
      ensures forClient == ClientInterest(Now()) && forTarget == TargetInterest(Now())
    {
      hide Ring.Window;
      var clientRead, clientWrite, targetRead, targetWrite := false, false, false, false;
      if closing == 0 && (!handshakeDone || !clientToTarget.IsHigh()) {
        clientRead := true;
      }
      if clientOutPos < clientOutLen || targetToClient.Readable() != 0 {
        clientWrite := true;
      }
      if targetConnecting {
        targetWrite := true;
      } else if !targetToClient.IsHigh() {
        targetRead := true;
      }
      if clientToTarget.Readable() != 0 {
        targetWrite := true;
      }
      return Interest(clientRead, clientWrite), Interest(targetRead, targetWrite);
    }

    /** Notes an event that is being handled. */
    ghost method Record(io: Io, registered: Interest)
      requires Inner() && closing < 2
      modifies this`deliveries
      ensures Base() && Now() == old(Now()) && deliveries == old(deliveries) + [Delivery(io, registered)]
      ensures !IsError(io) && !io.Expired? ==> Inner()
    {
      hide Run, Safe, Open, InStep, Ring.Window, WellFormed, Introduced, Traced, Waiting, Heard, Taken, Caused;
      deliveries := deliveries + [Delivery(io, registered)];
      assert Now() == old(Now());
    }

    /** An event that closes the session at once. */
    method CloseFor(reason: Reason, io: Io, ghost registered: Interest)
      requires Valid() && closing < 2
      requires (IsError(io) && reason == ErrorEvent) || (io.Expired? && reason == TimedOut)
      modifies this`deliveries, this`closing, this`clientRegistered, this`targetRegistered, this`why
      ensures Valid() && closing == 2 && why == reason && Now() == old(Now()).(closing := 2)
      ensures deliveries == old(deliveries) + [Delivery(io, registered)]
    {
      hide Run, Safe, Open, InStep, Ring.Window, WellFormed, CaughtUp, Caused, Introduced, Traced, Waiting, Heard,
        Taken, Calm, Buffers, Separate, ParserOk, Undecided;
      Record(io, registered);
      DeliveryIsCause(Now(), Facts());
      CloseNow(reason);
    }

    /** session_handle_client_event. */
    method HandleClientEvent(events: Events) returns (ghost mid: View)
      requires Valid() && clientRegistered
      modifies Repr()
      ensures Valid() && old(closing) <= closing
      ensures deliveries == old(deliveries) + [Delivery(ClientReady(events), old(clientMask))]
      ensures ClientServed(events, old(Now()), mid, Now(), old(client.History()), client.History(),
                           readBudget, writeBudget)
      ensures events.error ==> why == ErrorEvent
      ensures clientToTarget.data.Length >= 16849 && (events.read ==> old(clientMask.read)) ==>
                (closing == 2 ==> !Cramped(why))
    {
      hide ClientServed, ParserOk, Undecided, Run, Safe, Open, InStep, Ring.Window, WellFormed, CaughtUp, Caused,
        Introduced, Traced, Waiting, Heard, Taken, Calm, WroteClient, TookInput, ReadEnded, WriteEnded;
      mid := Now();
      if events.error {
        ghost var c := client.History();
        CloseFor(ErrorEvent, ClientReady(events), clientMask);
        ErrorServed(events, mid, mid, c, client.History(), readBudget, writeBudget);
        return;
      }
      mid := AnswerClient(events);
    }

    /** An event that is not an error. */
    method AnswerClient(events: Events) returns (ghost mid: View)
      requires Valid() && clientRegistered && !events.error
      modifies Repr()
      ensures Valid() && old(closing) <= closing
      ensures deliveries == old(deliveries) + [Delivery(ClientReady(events), old(clientMask))]
      ensures ClientServed(events, old(Now()), mid, Now(), old(client.History()), client.History(),
                           readBudget, writeBudget)
      ensures clientToTarget.data.Length >= 16849 && (events.read ==> old(clientMask.read)) ==>
                (closing == 2 ==> !Cramped(why))
    {
      hide ClientServed, ParserOk, Undecided, Run, Safe, Open, InStep, Ring.Window, WellFormed, CaughtUp, Caused,
        Introduced, Traced, Waiting, Heard, Taken, Calm, WroteClient, TookInput, ReadEnded, WriteEnded;
      Record(ClientReady(events), clientMask);
      mid := ServeClient(events);
      if closing == 2 {
        return;
      }
      UpdateEvents();
    }

    /** The reading and writing part of session_handle_client_event. */
    method ServeClient(events: Events) returns (ghost mid: View)
      requires Inner() && closing < 2 && CaughtUp(Now()) && !events.error
      modifies this`clientOutLen, this`clientOutPos, this`handshakeDone, this`key, this`greeting, this`header,
               this`early, this`handshakeLen, this`targetStarted, this`targetConnecting, this`targetRegistered,
               this`targetMask, this`closing, this`clientRegistered, this`frames, this`pendingClose,
               this`pendingClosePayloadLen, this`fed, this`why, clientOut, handshake, clientToTarget,
               clientToTarget.data, targetToClient, pendingClosePayload, parser, parser.mask, parser.extLenBytes,
               target`refused, client
      ensures Inner() && old(closing) <= closing
      ensures closing < 2 ==> CaughtUp(Now())
      ensures ClientServed(events, old(Now()), mid, Now(), old(client.History()), client.History(),
                           readBudget, writeBudget)
      ensures clientToTarget.data.Length >= 16849
              && (events.read ==> old(handshakeDone ==> !clientToTarget.IsHigh())) ==>
                (closing == 2 ==> !Cramped(why))
    {
      hide Wellformed, ClientServed, ReadEnded, WriteEnded, Buffers, Separate, ParserOk, Undecided, Unsent, Early, Run,
        Safe, Open, InStep, Ring.Window, WellFormed, CaughtUp, Caused, Introduced, Traced, Waiting, Heard, Taken, Calm,
        WroteClient, TookInput;
      ghost var v, c := Now(), client.History();
      if events.read {
        ReadClient();
      }
      mid := Now();
      ghost var m := client.History();
      if events.write && closing < 2 {
        WriteClient();
      }
      ClientServedBy(events, v, mid, Now(), c, m, client.History(), readBudget, writeBudget);
    }

    /** session_complete_target_connect, and the close if the connection failed. */
    method CompleteConnect() returns (rc: Status)
      requires Inner() && closing < 2 && handshakeDone && CaughtUp(Now()) && targetConnecting
      modifies this`targetConnecting, this`closing, this`clientRegistered, this`targetRegistered, this`why,
               target`refused
      ensures Inner()
      ensures rc == Ok <==> !target.refused
      ensures if rc == Ok then CaughtUp(Now()) && Now() == old(Now()).(connecting := false)
              else closing == 2 && why == TargetRefused && Now() == old(Now()).(closing := 2)
    {
      hide Run, Safe, Open, InStep, Ring.Window, WellFormed, CaughtUp, Introduced, Traced, Waiting, Heard, Taken,
        Caused;
      ghost var v := Now();
      rc := target.FinishConnect();
      if rc != Ok {
        RefusalIsCause(Now(), Facts());
        CloseNow(TargetRefused);
        return;
      }
      targetConnecting := false;
      assert Now() == v.(connecting := false);
      ConnectedOpen(v, parser.Abs());
    }

    /** session_handle_target_event. */
    method HandleTargetEvent(events: Events) returns (ghost mid: View)
      requires Valid() && targetRegistered
      modifies Repr()
      ensures Valid() && (closing == old(closing) || closing == 2)
      ensures deliveries == old(deliveries) + [Delivery(TargetReady(events), old(targetMask))]
      ensures TargetServed(events, old(Now()), mid, Now(), old(target.History()), target.History(),
                           readBudget, writeBudget)
      ensures events.error ==> why == ErrorEvent
      ensures targetToClient.data.Length >= 16849 && closing == 2 ==> !Cramped(why)
    {
      hide TargetServed, CutShort, Buffers, Separate, ParserOk, Undecided, Run, Safe, Open, InStep, Ring.Window,
        WellFormed, CaughtUp, Caused, Introduced, Traced, Waiting, Heard, Taken, Calm, FilledRing, DrainedRing,
        ReadEnded, WriteEnded;
      mid := Now();
      if events.error {
        ghost var c := target.History();
        CloseFor(ErrorEvent, TargetReady(events), targetMask);
        ErrorServed(events, mid, mid, c, target.History(), readBudget, writeBudget);
        return;
      }
      mid := AnswerTarget(events);
    }

    /** An event that is not an error. */
    method AnswerTarget(events: Events) returns (ghost mid: View)
      requires Valid() && targetRegistered && !events.error
      modifies Repr()
      ensures Valid() && (closing == old(closing) || closing == 2)
      ensures deliveries == old(deliveries) + [Delivery(TargetReady(events), old(targetMask))]
      ensures TargetServed(events, old(Now()), mid, Now(), old(target.History()), target.History(),
                           readBudget, writeBudget)
      ensures targetToClient.data.Length >= 16849 && closing == 2 ==> !Cramped(why)
    {
      hide TargetServed, CutShort, Buffers, Separate, ParserOk, Undecided, Run, Safe, Open, InStep, Ring.Window,
        WellFormed, CaughtUp, Caused, Introduced, Traced, Waiting, Heard, Taken, Calm, FilledRing, DrainedRing,
        ReadEnded, WriteEnded;
      Record(TargetReady(events), targetMask);
      mid := ConnectAndServe(events);
      if closing < 2 {
        UpdateEvents();
      }
    }

    /** Completes a connection in progress first. */
    method ConnectAndServe(events: Events) returns (ghost mid: View)
      requires Inner() && closing < 2 && handshakeDone && CaughtUp(Now()) && !events.error
      modifies this`closing, this`clientRegistered, this`targetRegistered, this`targetConnecting, this`why, target,
               targetToClient, targetToClient.data, clientToTarget
      ensures Inner()
      ensures closing < 2 ==> CaughtUp(Now())
      ensures closing == old(closing) || closing == 2
      ensures TargetServed(events, old(Now()), mid, Now(), old(target.History()), target.History(),
                           readBudget, writeBudget)
      ensures targetToClient.data.Length >= 16849 && closing == 2 ==> !Cramped(why)
    {
      hide CrammedRing, Buffers, Separate, ParserOk, Undecided, Run, Safe, Open, InStep, Ring.Window, WellFormed,
        CaughtUp, Caused, Introduced, Traced, Waiting, Heard, Taken, Calm, FilledRing, DrainedRing, ReadEnded,
        WriteEnded;
      mid := Now();
      if targetConnecting && events.write {
        var rc := CompleteConnect();
        if rc != Ok {
          return;
        }
      }
      mid := ServeTarget(events);
    }

    /** The reading and writing part of session_handle_target_event. */
    method ServeTarget(events: Events) returns (ghost mid: View)
      requires Inner() && closing < 2 && handshakeDone && CaughtUp(Now()) && !events.error
      requires events.write ==> !targetConnecting
      modifies this`closing, this`clientRegistered, this`targetRegistered, this`why, target, targetToClient,
               targetToClient.data, clientToTarget
      ensures Inner()
      ensures closing < 2 ==> CaughtUp(Now())
      ensures closing == old(closing) || closing == 2
      ensures TargetServed(events, old(Now()), mid, Now(), old(target.History()), target.History(),
                           readBudget, writeBudget)
      ensures targetToClient.data.Length >= 16849 && closing == 2 ==> !Cramped(why)
    {
      hide TargetServed, ReadEnded, WriteEnded, CrammedRing, Buffers, Separate, ParserOk, Undecided, Run, Safe, Open,
        InStep, Ring.Window, WellFormed, CaughtUp, Caused, Introduced, Traced, Waiting, Heard, Taken, Calm, FilledRing,
        DrainedRing;
      ghost var v, c := Now(), target.History();
      if events.read {
        ReadTarget();
      }
      mid := Now();
      ghost var m := target.History();
      if events.write && closing < 2 {
        WriteTarget();
      }
      TargetServedBy(events, v, mid, Now(), c, m, target.History(), readBudget, writeBudget);
    }

    /** proxy_tick closes an expired session. */
    method Expire()
      requires Valid() && closing < 2
      modifies this`deliveries, this`closing, this`clientRegistered, this`targetRegistered, this`why
      ensures Valid() && closing == 2 && why == TimedOut && Now() == old(Now()).(closing := 2)
      ensures deliveries == old(deliveries) + [Delivery(Expired, old(clientMask))]
    {
      CloseFor(TimedOut, Expired, clientMask);
    }
  }

  // ---------------------------------------------------------------------
  // Whole runs
  // ---------------------------------------------------------------------

  /** The allocations of session_create. */
  method Allocate(size: nat)
    returns (client: Transport.Leg, target: Transport.Leg, parser: Parser, c2t: Ring.Buffer, t2c: Ring.Buffer,
             closePayload: array<byte>, handshake: array<byte>, out: array<byte>)
    requires 0 < size <= 65536
    ensures fresh(Session.Parts(client, target, parser, c2t, t2c, closePayload, handshake, out))
    ensures client.received == client.sent == target.received == target.sent == []
    ensures client.chunks == [] && !target.refused
    ensures client.History() == target.History() == Transport.Calls(0, 0, false, false, false)
    ensures parser.Valid() && parser.Abs() == START
    ensures c2t.Valid() && t2c.Valid() && c2t.Contents() == t2c.Contents() == []
    ensures c2t.data.Length == t2c.data.Length == size && c2t.highWater == t2c.highWater == HighWater(size)
    ensures closePayload.Length == 125 && handshake.Length == MAX_REQUEST && out.Length == OUT_CAPACITY
    ensures client != target && c2t != t2c
    ensures |{closePayload as object, handshake, out, c2t.data, t2c.data, parser.mask, parser.extLenBytes}| == 7
  {
    hide Ring.Window, WellFormed;
    client := new Transport.Leg();
    target := new Transport.Leg();
    parser := new Parser();
    var toTarget, toClient;
    var rc;
    rc, toTarget := Ring.Init(size, size * 3 / 4, size / 4);
    rc, toClient := Ring.Init(size, size * 3 / 4, size / 4);
    c2t, t2c := toTarget, toClient;
    closePayload := new byte[125];
    handshake := new byte[MAX_REQUEST];
    out := new byte[OUT_CAPACITY];
    Seven(closePayload, handshake, out, c2t.data, t2c.data, parser.mask, parser.extLenBytes);
  }

  /** session_create. */
  method Create(bufferSize: nat, readBudget: nat, writeBudget: nat) returns (s: Session)
    ensures fresh(s.Repr()) && s.Valid() && s.readBudget == readBudget && s.writeBudget == writeBudget
    ensures s.Snap() == Initial(if bufferSize == 0 || bufferSize > 65536 then 65536 else bufferSize)
  {
    hide Run, Safe, Open, InStep, Ring.Window, WellFormed, CaughtUp, Session.Repr, Session.Parts, Session.Valid,
      Session.Snap, Introduced, Traced, Waiting;
    var size := if bufferSize == 0 || bufferSize > 65536 then 65536 else bufferSize;
    var client, target, parser, c2t, t2c, closePayload, handshake, out := Allocate(size);
    ghost var parts := Session.Parts(client, target, parser, c2t, t2c, closePayload, handshake, out);
    s := new Session(client, target, parser, c2t, t2c, closePayload, handshake, out, readBudget, writeBudget);
    assert s.Repr() == {s} + parts;
  }

  /** An event reaches the session if its leg is registered; what it does is what the handlers
      promise.  An event need not have been asked for: a hang-up is delivered as READ. */
  method Deliver(s: Session, io: Io) returns (ghost mid: View)
    requires s.Valid()
    modifies s.Repr()
    ensures s.Valid() && old(s.closing) <= s.closing
    ensures Turn(io, old(s.Snap()), mid, s.Snap(), s.readBudget, s.writeBudget)
    ensures old(Roomy(s.Snap())) ==> Roomy(s.Snap())
  {
    hide Run, Safe, Open, InStep, Ring.Window, WellFormed, CaughtUp, Introduced, Waiting, Caused, ClientServed,
      TargetServed, Calm, Heard, Taken, Traced, Asked;
    mid := s.Now();
    match io
    case ClientReady(e) =>
      if s.clientRegistered {
        AskedLast(s.deliveries, Delivery(io, s.clientMask));
        mid := s.HandleClientEvent(e);
      }
    case TargetReady(e) =>
      if s.targetRegistered {
        mid := s.HandleTargetEvent(e);
      }
    case Expired =>
      if s.closing < 2 {
        s.Expire();
      }
  }

  lemma AskedLast(deliveries: seq<Delivery>, d: Delivery)
    ensures Asked(deliveries + [d]) && d.io.ClientReady? && d.io.events.read ==> d.registered.read
  {
    assert d in deliveries + [d];
  }

  /** Every run of a session, for any buffer size, any budgets, any order of events and any
      behaviour of the two peers: it starts as session_create leaves it, each event of the
      schedule does what its handler promises, and all promises hold before and after each. */
  method RunSession(bufferSize: nat, readBudget: nat, writeBudget: nat, schedule: seq<Io>)
    returns (s: Session, ghost run: seq<Snapshot>)
    ensures s.Valid() && |run| == |schedule| + 1 && run[|schedule|] == s.Snap()
    ensures run[0] == Initial(if bufferSize == 0 || bufferSize > 65536 then 65536 else bufferSize)
    ensures forall i :: 0 <= i < |schedule| ==> Turned(schedule[i], run[i], run[i + 1], readBudget, writeBudget)
    ensures forall x <- run :: Sound(x)
  {
    hide Sound, Turn, Roomy, Initial, Session.Valid, Session.Snap, Session.Repr;
    s := Create(bufferSize, readBudget, writeBudget);
    InitialIsRoomy(if bufferSize == 0 || bufferSize > 65536 then 65536 else bufferSize);
    Finish(s);
    run := [s.Snap()];
    for i := 0 to |schedule|
      modifies s.Repr()
      invariant s.Valid() && |run| == i + 1 && run[i] == s.Snap() && Roomy(s.Snap())
      invariant run[0] == Initial(if bufferSize == 0 || bufferSize > 65536 then 65536 else bufferSize)
      invariant forall j :: 0 <= j < i ==> Turned(schedule[j], run[j], run[j + 1], readBudget, writeBudget)
      invariant forall x <- run :: Sound(x)
    {
      ghost var mid := Deliver(s, schedule[i]);
      assert Turn(schedule[i], run[i], mid, s.Snap(), readBudget, writeBudget);
      Finish(s);
      run := run + [s.Snap()];
    }
  }

  lemma InitialIsRoomy(capacity: nat)
    ensures Roomy(Initial(capacity))
  {
  }

  /** What the invariant of a session means for it. */
  lemma Finish(s: Session)
    requires s.Valid() && Roomy(s.Snap())
    ensures Sound(s.Snap())
  {
    hide Run, Safe, Open, InStep, Ring.Window, WellFormed, Promise, Caused, Introduced, Traced, Waiting, Heard, Taken,
      Calm, Illegal, Traced, Rejected, Roomy;
    var v := s.Now();
    InvariantKeepsPromise(v);
    SafeHeader(v);
    HeardExactly(v);
    if s.closing < 2 {
      if v.capacity >= 2 {
        AlwaysWaiting(v);
      } else {
        NothingFromTarget(v);
      }
    }
    if s.closing == 0 && s.handshakeDone {
      OpenIsLegal(v, s.parser.Abs());
    }
    if s.closing == 2 && s.why == StreamIllegal {
      IllegalIsCause(v, s.Facts());
      RejectedIsIllegal(v);
    }
  }
}
