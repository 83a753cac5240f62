/** The streaming frame parser of src/ws/ws_frame.c. */
module WsParser {
  import opened Core
  import opened WsSpec

  datatype State = Header1 | Header2 | ExtLen | Mask | Payload

  /** A piece of a frame: the payload bytes at hand, and whether they end the frame. */
  datatype Message = Message(fin: bool, opcode: nat, payload: bytes, frameComplete: bool)

  const NO_MESSAGE := Message(false, 0, [], false)

  function MessageEvents(msg: Message): seq<Event> {
    DataEvents(msg.opcode, msg.payload) + if msg.frameComplete then [End(msg.opcode, msg.fin)] else []
  }

  /** Header and mask bytes that complete neither a frame nor a piece of payload. */
  predicate Silent(a: Automaton, x: bytes)
    decreases |x|
  {
    x == [] ||
    match Step(a, x[0])
    case Reject => false
    case Next(a', events) => !a.phase.InPayload? && events == [] && Silent(a', x[1..])
  }

  /** After `lead` silent bytes come the bytes of one piece of a frame, up to `used`. */
  ghost predicate Piece(a: Automaton, data: bytes, capacity: nat, lead: nat, used: nat, msg: Message, a': Automaton) {
    && lead < used <= |data| && Silent(a, data[..lead])
    && match Run(a, data[..lead]).final
       case None => false
       case Some(b) =>
         if msg.payload == []
         then used == lead + 1 && b.phase.InMask? && Step(b, data[lead]) == Next(a', [End(msg.opcode, msg.fin)])
         else && b.phase.InPayload? && b.phase.opcode == msg.opcode && b.phase.fin == msg.fin
              && (IsControl(msg.opcode) ==> b.phase.len - b.phase.offset <= capacity)
              && |msg.payload| == used - lead && b.phase.offset + |msg.payload| <= b.phase.len
              && Run(b, data[lead..used]) == Outcome(MessageEvents(msg), Some(a'))
  }

  /** What one call of Feed on `data` did to a parser in state a, leaving it in state a'. */
  ghost predicate FeedStep(a: Automaton, data: bytes, capacity: nat, rc: Status, used: nat, msg: Message, a': Automaton)
  {
    && used <= |data|
    && match rc
       case Ok =>
         && Run(a, data[..used]) == Outcome(MessageEvents(msg), Some(a'))
         && (exists lead :: Piece(a, data, capacity, lead, used, msg, a'))
         && 0 < used && |msg.payload| <= capacity && |msg.payload| <= used && (msg.payload != [] || msg.frameComplete)
         && ValidOpcode(msg.opcode) && (IsControl(msg.opcode) ==> |msg.payload| <= 125)
         // a piece is as long as the data, the room and the frame allow
         && (msg.frameComplete || |msg.payload| == capacity || used == |data|)
         && (IsControl(msg.opcode) ==> msg.frameComplete || used == |data|)
         && (!msg.frameComplete ==> a'.phase.InPayload? && a'.phase.fin == msg.fin && a'.phase.opcode == msg.opcode)
       case Again => used == |data| && Run(a, data) == Outcome([], Some(a')) && Silent(a, data)
       case Protocol => 0 < used && Silent(a, data[..used - 1]) && Run(a, data[..used]) == Outcome([], None)
       case Overflow =>
         && used < |data| && Run(a, data[..used]) == Outcome([], Some(a')) && Silent(a, data[..used])
         && a'.phase.InPayload?
         && (capacity == 0 || (IsControl(a'.phase.opcode) && a'.phase.len - a'.phase.offset > capacity))
       case _ => false
  }

  lemma {:induction false} SilentSnoc(a: Automaton, x: bytes, b: byte)
    requires Silent(a, x) && Run(a, x).final.Some?
    requires
      var c := Run(a, x).final.value;
      !c.phase.InPayload? && Step(c, b).Next? && Step(c, b).events == []
    ensures Silent(a, x + [b])
    decreases |x|
  {
    hide Step;
    if x == [] {
      assert (x + [b])[1..] == [];
    } else {
      assert (x + [b])[0] == x[0] && (x + [b])[1..] == x[1..] + [b];
      SilentSnoc(Step(a, x[0]).state, x[1..], b);
    }
  }

  lemma RunSnoc(a: Automaton, data: bytes, pos: nat)
    requires pos < |data|
    requires Run(a, data[..pos]).final.Some?
    ensures Run(a, data[..pos + 1]) == Then(Run(a, data[..pos]), [data[pos]])
    ensures
      var r := Run(a, data[..pos]);
      match Step(r.final.value, data[pos])
      case Reject => Run(a, data[..pos + 1]) == Outcome(r.events, None)
      case Next(a', events) => Run(a, data[..pos + 1]) == Outcome(r.events + events, Some(a'))
  {
    hide Step, Run;
    RunConcat(a, data[..pos], [data[pos]]);
    RunOne(Run(a, data[..pos]).final.value, data[pos]);
    assert data[..pos + 1] == data[..pos] + [data[pos]];
    assert Run(a, data[..pos]).events + [] == Run(a, data[..pos]).events;
  }

  lemma SilentEmpty(a: Automaton)
    ensures Silent(a, [])
  {
  }

  lemma StillSilent(a: Automaton, data: bytes, pos: nat)
    requires pos < |data| && Silent(a, data[..pos]) && Run(a, data[..pos]).final.Some?
    requires
      var c := Run(a, data[..pos]).final.value;
      !c.phase.InPayload? && Step(c, data[pos]).Next? && Step(c, data[pos]).events == []
    ensures Silent(a, data[..pos + 1])
  {
    hide Step, Run;
    SilentSnoc(a, data[..pos], data[pos]);
    assert data[..pos + 1] == data[..pos] + [data[pos]];
  }

  class Parser {
    var state: State
    var b0: byte
    var b1: byte
    var fin: bool
    var opcode: nat
    var masked: bool
    const extLenBytes: array<byte>
    var extLenNeeded: nat
    var extLenPos: nat
    const mask: array<byte>
    var maskPos: nat
    var payloadLen: nat
    var payloadRemaining: nat
    var payloadOffset: nat
    var fragmentedOpcode: nat

    ghost predicate Valid()
      reads this, extLenBytes, mask
    {
      && extLenBytes.Length == 8 && mask.Length == 4 && extLenBytes != mask
      && WellFormed(Abs())
      && match state
         case Header1 => maskPos == 0 && payloadOffset == 0
         case Header2 => maskPos == 0 && payloadOffset == 0
         case ExtLen => maskPos == 0 && payloadOffset == 0
         case Mask => payloadOffset == 0 && payloadRemaining == payloadLen
         case Payload => payloadOffset + payloadRemaining == payloadLen
    }

    /** The automaton state that the fields stand for. */
    ghost function Abs(): Automaton
      reads this, extLenBytes, mask
      requires extLenBytes.Length == 8 && mask.Length == 4
    {
      var phase := match state
        case Header1 => AtStart
        case Header2 => AtLength(fin, opcode)
        case ExtLen => InExtLen(fin, opcode, extLenNeeded, extLenBytes[..Min(extLenPos, 8)])
        case Mask => InMask(fin, opcode, payloadLen, mask[..Min(maskPos, 4)])
        case Payload => InPayload(fin, opcode, payloadLen, mask[..], payloadOffset);
      Automaton(phase, fragmentedOpcode)
    }

    constructor ()
      ensures Valid() && Abs() == START
      ensures fresh(extLenBytes) && fresh(mask)
    {
      extLenBytes, mask := new byte[8](_ => 0), new byte[4](_ => 0);
      state := Header1;
      b0, b1, fin, opcode, masked := 0, 0, false, 0, false;
      extLenNeeded, extLenPos, maskPos := 0, 0, 0;
      payloadLen, payloadRemaining, payloadOffset := 0, 0, 0;
      fragmentedOpcode := 0;
    }

    /** Ends a frame.  The two protocol errors of the source cannot happen here: they are
        what the header check already refused. */
    method ResetFrame() returns (rc: Status)
      requires extLenBytes.Length == 8 && mask.Length == 4 && extLenBytes != mask
      requires fragmentedOpcode == 0 || fragmentedOpcode == TEXT || fragmentedOpcode == BINARY
      requires ValidOpcode(opcode) && HeaderLegal(fragmentedOpcode, fin, opcode, payloadLen)
      modifies this
      ensures rc == Ok && Valid()
      ensures Abs() == FrameDone(old(fragmentedOpcode), old(fin), old(opcode))
    {
      if opcode == TEXT || opcode == BINARY {
        if !fin {
          if fragmentedOpcode != 0 {
            return Protocol;
          }
          fragmentedOpcode := opcode;
        }
      } else if opcode == CONTINUATION {
        if fragmentedOpcode == 0 {
          return Protocol;
        }
        if fin {
          fragmentedOpcode := 0;
        }
      }
      state := Header1;
      b0, b1, fin, opcode, masked := 0, 0, false, 0, false;
      extLenNeeded, extLenPos, maskPos := 0, 0, 0;
      payloadLen, payloadRemaining, payloadOffset := 0, 0, 0;
      return Ok;
    }

    method ValidateFrameHeader() returns (rc: Status)
      ensures rc == if HeaderLegal(fragmentedOpcode, fin, opcode, payloadLen) then Ok else Protocol
    {
      if IsControl(opcode) {
        if !fin || payloadLen > 125 {
          return Protocol;
        }
      } else if opcode == CONTINUATION {
        if fragmentedOpcode == 0 {
          return Protocol;
        }
      } else if fragmentedOpcode != 0 {
        return Protocol;
      }
      return Ok;
    }

    method FinishLength() returns (rc: Status)
      requires extLenBytes.Length == 8 && (extLenNeeded == 2 || extLenNeeded == 8)
      modifies this`payloadLen, this`payloadRemaining
      ensures
        var len := BeValue(extLenBytes[..extLenNeeded]);
        rc == if MinimalLength(extLenNeeded, len) && HeaderLegal(fragmentedOpcode, fin, opcode, len) then Ok else Protocol
      ensures rc == Ok ==> payloadLen == payloadRemaining == BeValue(extLenBytes[..extLenNeeded])
      ensures rc == Ok ==> payloadLen < LENGTH_LIMIT
    {
      hide BeValue, HeaderLegal;
      var ext := extLenBytes[..];
      assert ext[..2] == extLenBytes[..2] && ext[..8] == extLenBytes[..8] == ext;
      if extLenNeeded == 2 {
        payloadLen := ReadBe16(ext);
        ReadBe16Value(ext);
        if payloadLen < 126 {
          return Protocol;
        }
      } else if extLenNeeded == 8 {
        payloadLen := ReadBe64(ext);
        ReadBe64Value(ext);
        TopBit(ext);
        if payloadLen < 65536 || ext[0] >= 128 {
          return Protocol;
        }
      }
      payloadRemaining := payloadLen;
      rc := ValidateFrameHeader();
    }

    /** One byte of the first two header bytes or of the extended length. */
    method TakeHeaderByte(b: byte) returns (rc: Status)
      requires Valid() && (state == Header1 || state == Header2 || state == ExtLen)
      modifies this, extLenBytes
      ensures rc == Ok ==> Valid() && Step(old(Abs()), b) == Next(Abs(), [])
      ensures rc != Ok ==> rc == Protocol && Step(old(Abs()), b) == Reject
    {
      if state == Header1 {
        b0 := b;
        fin := b0 >= 128;
        opcode := b0 % 16;
        if (b0 / 16) % 8 != 0 || !ValidOpcode(opcode) {
          return Protocol;
        }
        state := Header2;
      } else if state == Header2 {
        b1 := b;
        masked := b1 >= 128;
        payloadLen := b1 % 128;
        if !masked {
          return Protocol;
        }
        if payloadLen == 126 {
          extLenNeeded, extLenPos := 2, 0;
          state := ExtLen;
        } else if payloadLen == 127 {
          extLenNeeded, extLenPos := 8, 0;
          state := ExtLen;
        } else {
          payloadRemaining := payloadLen;
          rc := ValidateFrameHeader();
          if rc != Ok {
            return;
          }
          state := Mask;
        }
      } else {
        rc := TakeLengthByte(b);
        return;
      }
      return Ok;
    }

    method TakeLengthByte(b: byte) returns (rc: Status)
      requires Valid() && state == ExtLen
      modifies this, extLenBytes
      ensures rc == Ok ==> Valid() && Step(old(Abs()), b) == Next(Abs(), [])
      ensures rc != Ok ==> rc == Protocol && Step(old(Abs()), b) == Reject
    {
      hide BeValue, HeaderLegal;
      ghost var got := extLenBytes[..extLenPos];
      extLenBytes[extLenPos] := b;
      extLenPos := extLenPos + 1;
      assert extLenBytes[..extLenPos] == got + [b];
      if extLenPos == extLenNeeded {
        rc := FinishLength();
        if rc != Ok {
          return;
        }
        state := Mask;
        assert mask[..0] == [];
      }
      return Ok;
    }

    /** One byte of the mask key; `empty` says that it completed a frame without payload. */
    method TakeMaskByte(b: byte) returns (empty: bool)
      requires Valid() && state == Mask
      modifies this, mask
      ensures mask.Length == 4 && extLenBytes.Length == 8 && extLenBytes != mask
      ensures fragmentedOpcode == old(fragmentedOpcode) && opcode == old(opcode) && fin == old(fin)
      ensures payloadLen == old(payloadLen)
      ensures !empty ==> Valid() && Step(old(Abs()), b) == Next(Abs(), [])
      ensures empty ==> Step(old(Abs()), b) == Next(FrameDone(fragmentedOpcode, fin, opcode), [End(opcode, fin)])
    {
      ghost var got := mask[..maskPos];
      mask[maskPos] := b;
      maskPos := maskPos + 1;
      assert mask[..maskPos] == got + [b];
      empty := false;
      if maskPos == 4 {
        assert mask[..] == got + [b];
        state := Payload;
        empty := payloadRemaining == 0;
      }
    }

    /** Unmasks one block of payload into `payload`. */
    method TakePayload(data: bytes, pos: nat, payload: array<byte>, capacity: nat) returns (chunk: nat, msg: Message)
      requires Valid() && state == Payload
      requires pos < |data| && 0 < capacity <= payload.Length
      requires payload != mask && payload != extLenBytes
      modifies this, payload
      ensures Valid()
      ensures 0 < chunk <= capacity && pos + chunk <= |data|
      ensures msg.payload == payload[..chunk] && msg.opcode == old(opcode) && ValidOpcode(msg.opcode)
      ensures IsControl(msg.opcode) ==> chunk <= 125
      ensures msg.frameComplete || chunk == capacity || pos + chunk == |data|
      ensures old(payloadRemaining) <= capacity ==> msg.frameComplete || pos + chunk == |data|
      ensures !msg.frameComplete ==> state == Payload && fin == msg.fin && opcode == msg.opcode
      ensures msg.fin == old(fin) && old(payloadOffset) + chunk <= old(payloadLen)
      ensures Run(old(Abs()), data[pos..pos + chunk]) == Outcome(MessageEvents(msg), Some(Abs()))
    {
      hide Step, Run, Xor;
      var available := |data| - pos;
      chunk := Min(available, capacity);
      if chunk > payloadRemaining {
        chunk := payloadRemaining;
      }
      for i := 0 to chunk
        modifies payload
        invariant forall j :: 0 <= j < i ==> payload[j] == Xor(data[pos + j], mask[(payloadOffset + j) % 4])
      {
        payload[i] := Xor(data[pos + i], mask[(payloadOffset + i) % 4]);
      }
      ghost var t := data[pos..pos + chunk];
      assert payload[..chunk] == ApplyMask(mask[..], payloadOffset, t);
      RunPayload(fragmentedOpcode, fin, opcode, payloadLen, mask[..], payloadOffset, t);
      payloadOffset := payloadOffset + chunk;
      payloadRemaining := payloadRemaining - chunk;
      msg := Message(fin, opcode, payload[..chunk], payloadRemaining == 0);
      assert DataEvents(opcode, payload[..chunk]) + [] == DataEvents(opcode, payload[..chunk]);
      if payloadRemaining == 0 {
        var rc := ResetFrame();
      }
    }

    /** Consumes bytes up to the end of the data or the next piece of payload. */
    method Feed(data: bytes, payload: array<byte>, capacity: nat) returns (rc: Status, used: nat, msg: Message)
      requires Valid() && capacity <= payload.Length
      requires payload != mask && payload != extLenBytes
      modifies this, extLenBytes, mask, payload
      ensures rc != Protocol ==> Valid()
      ensures mask.Length == 4 && extLenBytes.Length == 8
      ensures FeedStep(old(Abs()), data, capacity, rc, used, msg, Abs())
      ensures rc == Overflow ==> capacity < 125
    {
      hide Step, Run, HeaderLegal, Silent;
      ghost var a := Abs();
      SilentEmpty(a);
      var pos := 0;
      msg := NO_MESSAGE;
      RunEmpty(a);
      assert data[..0] == [];
      while pos < |data| || state == Payload
        invariant Valid() && pos <= |data|
        invariant Run(a, data[..pos]) == Outcome([], Some(Abs())) && Silent(a, data[..pos])
        decreases |data| - pos
      {
        if state == Payload {
          var available := |data| - pos;
          if available == 0 {
            break;
          }
          if capacity == 0 {
            return Overflow, pos, msg;
          }
          if IsControl(opcode) && payloadRemaining > capacity {
            ControlLimit();
            return Overflow, pos, msg;
          }
          ghost var b := Abs();
          var chunk;
          chunk, msg := TakePayload(data, pos, payload, capacity);
          RunConcat(a, data[..pos], data[pos..pos + chunk]);
          assert data[..pos] + data[pos..pos + chunk] == data[..pos + chunk];
          assert [] + MessageEvents(msg) == MessageEvents(msg);
          assert Piece(a, data, capacity, pos, pos + chunk, msg, Abs());
          return Ok, pos + chunk, msg;
        } else if state == Mask {
          RunSnoc(a, data, pos);
          var empty := TakeMaskByte(data[pos]);
          pos := pos + 1;
          if empty {
            msg := Message(fin, opcode, [], true);
            assert MessageEvents(msg) == [End(opcode, fin)];
            rc := ResetFrame();
            assert Piece(a, data, capacity, pos - 1, pos, msg, Abs());
            return rc, pos, msg;
          }
          StillSilent(a, data, pos - 1);
        } else {
          RunSnoc(a, data, pos);
          rc := TakeHeaderByte(data[pos]);
          pos := pos + 1;
          if rc != Ok {
            return rc, pos, msg;
          }
          StillSilent(a, data, pos - 1);
        }
      }
      assert data[..pos] == data;
      return Again, pos, msg;
    }

    lemma ControlLimit()
      requires Valid() && state == Payload && IsControl(opcode)
      ensures payloadRemaining <= 125
    {
    }
  }

  // ---------------------------------------------------------------------
  // Whole streams
  // ---------------------------------------------------------------------

  function AllMessageEvents(messages: seq<Message>): seq<Event> {
    if messages == [] then []
    else AllMessageEvents(messages[..|messages| - 1]) + MessageEvents(messages[|messages| - 1])
  }

  lemma MessagesSnoc(messages: seq<Message>, msg: Message)
    ensures AllMessageEvents(messages + [msg]) == AllMessageEvents(messages) + MessageEvents(msg)
  {
    assert (messages + [msg])[..|messages|] == messages;
  }

  /** How far a stream got: the messages delivered from its first n bytes, and the state left. */
  ghost predicate Reached(stream: bytes, n: nat, messages: seq<Message>, state: Option<Automaton>) {
    n <= |stream| && Run(START, stream[..n]) == Outcome(AllMessageEvents(messages), state)
  }

  /** One call more. */
  lemma ReachedFurther(stream: bytes, n: nat, messages: seq<Message>, a: Automaton, data: bytes,
                       capacity: nat, rc: Status, used: nat, msg: Message, a': Automaton)
    requires Reached(stream, n, messages, Some(a)) && n + |data| <= |stream| && data == stream[n..n + |data|]
    requires FeedStep(a, data, capacity, rc, used, msg, a')
    ensures Reached(stream, n + used, if rc == Ok then messages + [msg] else messages,
                    if rc == Protocol then None else Some(a'))
  {
    hide Run, MessageEvents, AllMessageEvents, Silent, Piece;
    RunConcat(START, stream[..n], data[..used]);
    assert stream[..n] + data[..used] == stream[..n + used];
    assert rc == Again ==> data[..used] == data;
    MessagesSnoc(messages, msg);
    assert AllMessageEvents(messages) + [] == AllMessageEvents(messages);
  }

  /** Feeds one chunk until it is used up, rejected, or too large for the room of some call. */
  method FeedChunk(parser: Parser, payload: array<byte>, rooms: nat -> nat, calls: nat, chunk: bytes,
                   messages: seq<Message>, ghost stream: bytes, ghost n: nat)
    returns (rc: Status, messages': seq<Message>, calls': nat, ghost used: nat)
    requires parser.Valid() && payload != parser.mask && payload != parser.extLenBytes
    requires Reached(stream, n, messages, Some(parser.Abs()))
    requires n + |chunk| <= |stream| && chunk == stream[n..n + |chunk|]
    modifies parser, parser.mask, parser.extLenBytes, payload
    ensures parser.mask.Length == 4 && parser.extLenBytes.Length == 8 && used <= |chunk|
    ensures Reached(stream, n + used, messages', if rc == Protocol then None else Some(parser.Abs()))
    ensures rc != Protocol ==> parser.Valid()
    ensures rc == Ok || rc == Protocol || rc == Overflow
    ensures rc == Ok ==> used == |chunk|
    ensures rc == Overflow && payload.Length >= 125 ==> exists k :: rooms(k) < 125
  {
    hide Run, Silent, Piece, AllMessageEvents, FeedStep, Reached, WellFormed;
    messages', calls', used := messages, calls, 0;
    var offset := 0;
    while offset < |chunk|
      invariant used == offset <= |chunk| && parser.Valid()
      invariant Reached(stream, n + offset, messages', Some(parser.Abs()))
      decreases |chunk| - offset
    {
      ghost var a := parser.Abs();
      var capacity := Min(rooms(calls'), payload.Length);
      var data := chunk[offset..];
      var step, msg;
      rc, step, msg := parser.Feed(data, payload, capacity);
      FeedUses(a, data, capacity, rc, step, msg, parser.Abs());
      ReachedFurther(stream, n + offset, messages', a, data, capacity, rc, step, msg, parser.Abs());
      calls', offset, used := calls' + 1, offset + step, used + step;
      if rc == Ok {
        messages' := messages' + [msg];
      } else if rc != Again {
        return;
      }
    }
    rc := Ok;
  }

  lemma FeedUses(a: Automaton, data: bytes, capacity: nat, rc: Status, used: nat, msg: Message, a': Automaton)
    requires FeedStep(a, data, capacity, rc, used, msg, a') && data != []
    ensures used <= |data| && (rc == Ok || rc == Again ==> 0 < used)
    ensures rc == Ok || rc == Again || rc == Protocol || rc == Overflow
  {
    hide Run, Silent, Piece;
  }

  /** Any stream, in any chunks, with any room in each call: the messages carry exactly the
      events of the byte-at-a-time automaton.  The parser stops early only at the byte that
      the automaton rejects, or when a call had room for less than 125 bytes. */
  method FeedStream(chunks: seq<bytes>, rooms: nat -> nat, size: nat)
    returns (rc: Status, messages: seq<Message>, ghost n: nat)
    requires size >= 125
    ensures rc == Ok || rc == Protocol || rc == Overflow
    ensures rc != Overflow ==> Run(START, Flat(chunks)).events == AllMessageEvents(messages)
    ensures rc != Overflow ==> (rc == Protocol <==> Illegal(Flat(chunks), 0))
    ensures rc == Overflow ==> n <= |Flat(chunks)| && Run(START, Flat(chunks)[..n]).events == AllMessageEvents(messages)
    ensures (forall k :: rooms(k) >= 125) ==> rc != Overflow
    ensures forall fs | Legal(0, fs) && Flat(chunks) == EncodeAll(0, fs) ::
              rc != Overflow ==> rc == Ok && AllMessageEvents(messages) == AllEvents(fs)
  {
    hide Run, Silent, Piece, AllMessageEvents, FeedStep, Reached, Illegal, Legal, EncodeAll, WellFormed;
    var parser := new Parser();
    var payload := new byte[size];
    ghost var stream := Flat(chunks);
    var calls := 0;
    messages, n := [], 0;
    NothingReached(stream);
    assert chunks[..0] == [];
    for i := 0 to |chunks|
      invariant parser.Valid() && fresh(parser) && fresh(parser.mask) && fresh(parser.extLenBytes)
      invariant n == |Flat(chunks[..i])| && Flat(chunks[..i]) <= stream
      invariant Reached(stream, n, messages, Some(parser.Abs()))
    {
      FlatPrefix(chunks, i);
      ghost var used;
      rc, messages, calls, used := FeedChunk(parser, payload, rooms, calls, chunks[i], messages, stream, n);
      n := n + used;
      if rc != Ok {
        ReachedAll(stream, n, messages, if rc == Protocol then None else Some(parser.Abs()));
        return;
      }
    }
    assert chunks[..|chunks|] == chunks;
    rc := Ok;
    ReachedAll(stream, n, messages, Some(parser.Abs()));
  }

  lemma NothingReached(stream: bytes)
    ensures Reached(stream, 0, [], Some(START))
  {
    assert stream[..0] == [];
  }

  lemma {:induction false} FlatPrefix(chunks: seq<bytes>, i: nat)
    requires i < |chunks|
    ensures Flat(chunks[..i + 1]) == Flat(chunks[..i]) + chunks[i]
    ensures Flat(chunks[..i + 1]) <= Flat(chunks)
    decreases |chunks|
  {
    assert chunks[..i + 1][..i] == chunks[..i];
    if i + 1 == |chunks| {
      assert chunks[..i + 1] == chunks;
    } else {
      var front := chunks[..|chunks| - 1];
      FlatPrefix(front, i);
      assert front[..i + 1] == chunks[..i + 1];
    }
  }

  /** What the delivered messages mean once the stream is used up or rejected. */
  lemma ReachedAll(stream: bytes, n: nat, messages: seq<Message>, state: Option<Automaton>)
    requires Reached(stream, n, messages, state)
    ensures n <= |stream| && Run(START, stream[..n]).events == AllMessageEvents(messages)
    ensures n == |stream| || state.None? ==>
              && Run(START, stream).events == AllMessageEvents(messages)
              && (state.None? <==> Illegal(stream, 0))
              && forall fs | Legal(0, fs) && stream == EncodeAll(0, fs) ::
                   state.Some? && AllMessageEvents(messages) == AllEvents(fs)
  {
    hide Run, AllMessageEvents, Legal, EncodeAll, Decode, ScanHeader;
    assert stream == stream[..n] + stream[n..];
    assert n == |stream| ==> stream[..n] == stream;
    RunConcat(START, stream[..n], stream[n..]);
    AutomatonRefinesDecoder(stream, 0);
    forall fs | (n == |stream| || state.None?) && Legal(0, fs) && stream == EncodeAll(0, fs)
      ensures state.Some? && AllMessageEvents(messages) == AllEvents(fs)
    {
      DecodeEncode(0, fs);
      EmptyTail(FragAfter(0, fs));
      assert AllEvents(fs) + [] == AllEvents(fs);
    }
  }

  lemma EmptyTail(frag: nat)
    ensures ScanHeader([], frag) == Partial && TailEvents([], frag) == []
  {
  }
}
