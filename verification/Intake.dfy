/**
 How much of its input session_process_ws_bytes of src/proxy/proxy.c takes while client_out
 is busy, as it is after the handshake: it gives up the rest as soon as the ring towards the
 target is full.
 */
module Intake {
  import opened Core
  import opened WsSpec
  import opened WsParser

  /** The parser and the room left in the ring. */
  datatype Gate = Gate(parser: Automaton, room: nat)

  /** A control frame whose payload the parser cannot hand over in one piece. */
  predicate Oversized(a: Automaton, room: nat) {
    a.phase.InPayload? && IsControl(a.phase.opcode) && a.phase.len - a.phase.offset > room
  }

  /** PING finds client_out busy, and CLOSE ends the input. */
  predicate Halts(events: seq<Event>) {
    exists i :: 0 <= i < |events| && (events[i].opcode == PING || events[i].opcode == CLOSE)
  }

  /** One byte through the gate, unless the session stops here. */
  function Pass(g: Gate, b: byte): (r: Option<Gate>)
    ensures r.Some? ==> g.room > 0
  {
    if g.room == 0 || Oversized(g.parser, g.room) then None
    else match Step(g.parser, b)
      case Reject => None
      case Next(a, events) =>
        if Halts(events) then None
        else Some(Gate(a, if Relayed(DataBytes, events) == [] then g.room else g.room - 1))
  }

  function PassAll(g: Gate, s: bytes): Option<Gate>
    decreases |s|
  {
    if s == [] then Some(g)
    else match Pass(g, s[0])
      case None => None
      case Some(g') => PassAll(g', s[1..])
  }

  /** The bytes taken before the ring is full: all of them unless it fills up. */
  function Taken(g: Gate, s: bytes): (n: nat)
    ensures n <= |s|
    decreases |s|
  {
    if s == [] || g.room == 0 then 0
    else match Pass(g, s[0])
      case None => |s|
      case Some(g') => 1 + Taken(g', s[1..])
  }

  lemma {:induction false} TakenConcat(g: Gate, x: bytes, y: bytes)
    requires PassAll(g, x).Some?
    ensures Taken(g, x + y) == |x| + Taken(PassAll(g, x).value, y)
    decreases |x|
  {
    hide Pass;
    if x == [] {
      assert x + y == y;
    } else {
      assert (x + y)[0] == x[0] && (x + y)[1..] == x[1..] + y;
      TakenConcat(Pass(g, x[0]).value, x[1..], y);
    }
  }

  lemma {:induction false} PassConcat(g: Gate, x: bytes, y: bytes)
    requires PassAll(g, x).Some?
    ensures PassAll(g, x + y) == PassAll(PassAll(g, x).value, y)
    decreases |x|
  {
    hide Pass;
    if x == [] {
      assert x + y == y;
    } else {
      assert (x + y)[0] == x[0] && (x + y)[1..] == x[1..] + y;
      PassConcat(Pass(g, x[0]).value, x[1..], y);
    }
  }

  /** Where the session stops nothing is left over for want of room. */
  lemma TakenStops(g: Gate, x: bytes, y: bytes)
    requires PassAll(g, x).Some? && y != []
    requires
      var g' := PassAll(g, x).value;
      g'.room > 0 && Pass(g', y[0]).None?
    ensures Taken(g, x + y) == |x + y|
  {
    hide Pass;
    TakenConcat(g, x, y);
  }

  // ---------------------------------------------------------------------
  // One call of the parser
  // ---------------------------------------------------------------------

  lemma NothingHalts()
    ensures !Halts([]) && Relayed(DataBytes, []) == []
  {
  }

  lemma {:induction false} SilentPasses(g: Gate, x: bytes)
    requires Silent(g.parser, x) && g.room > 0
    ensures Run(g.parser, x).final.Some? && Run(g.parser, x).events == []
    ensures PassAll(g, x) == Some(Gate(Run(g.parser, x).final.value, g.room))
    decreases |x|
  {
    hide Step, Relayed, Halts;
    if x != [] {
      NothingHalts();
      SilentPasses(Gate(Step(g.parser, x[0]).state, g.room), x[1..]);
    }
  }

  lemma OneEvent(op: nat, value: byte, fin: bool)
    ensures Relayed(DataBytes, [Data(op, value)]) == if IsControl(op) then [] else [value]
    ensures Relayed(DataBytes, [Data(op, value), End(op, fin)]) == if IsControl(op) then [] else [value]
    ensures Relayed(DataBytes, [End(op, fin)]) == []
    ensures Halts([Data(op, value)]) == (op == PING || op == CLOSE)
    ensures Halts([Data(op, value), End(op, fin)]) == (op == PING || op == CLOSE)
    ensures Halts([End(op, fin)]) == (op == PING || op == CLOSE)
  {
    var d, e := Data(op, value), End(op, fin);
    assert [d, e][0] == d && [d][0] == d && [e][0] == e;
    assert [d, e][1..] == [e] && [e][1..] == [] && [d][1..] == [];
    assert Relayed(DataBytes, [e]) == [];
    assert Relayed(DataBytes, [d]) == if IsControl(op) then [] else [value];
  }

  lemma PayloadByte(g: Gate, b: byte)
    requires g.parser.phase.InPayload? && g.room > 0 && !Oversized(g.parser, g.room)
    ensures
      var p := g.parser.phase;
      Pass(g, b) ==
        if p.opcode == PING || p.opcode == CLOSE then None
        else Some(Gate(Step(g.parser, b).state, if IsControl(p.opcode) then g.room else g.room - 1))
    ensures Step(g.parser, b).Next?
  {
    hide Relayed, Halts, Xor;
    var p := g.parser.phase;
    OneEvent(p.opcode, Xor(b, p.key[p.offset % 4]), p.fin);
  }

  lemma {:induction false} PayloadPasses(g: Gate, t: bytes)
    requires g.parser.phase.InPayload? && t != [] && g.parser.phase.offset + |t| <= g.parser.phase.len
    requires
      var p := g.parser.phase;
      && p.opcode != PING && p.opcode != CLOSE && g.room > 0
      && if IsControl(p.opcode) then p.len - p.offset <= g.room else |t| <= g.room
    ensures Run(g.parser, t).final.Some?
    ensures PassAll(g, t) ==
      Some(Gate(Run(g.parser, t).final.value, if IsControl(g.parser.phase.opcode) then g.room else g.room - |t|))
    decreases |t|
  {
    hide Pass, Xor;
    PayloadByte(g, t[0]);
    var g' := Pass(g, t[0]).value;
    if |t| == 1 {
      assert t[1..] == [];
    } else {
      PayloadPasses(g', t[1..]);
    }
  }

  /** The room in the ring after a message was handled. */
  function RoomAfter(room: nat, msg: Message): int {
    if IsControl(msg.opcode) then room else room - |msg.payload|
  }

  predicate Ends(msg: Message) {
    msg.opcode == PING || msg.opcode == CLOSE
  }

  /** How the bytes taken before and after one call of the parser hang together. */
  predicate TakenStep(a: Automaton, room: nat, data: bytes, rc: Status, used: nat, msg: Message, a': Automaton) {
    var n := Taken(Gate(a, room), data);
    && used <= n
    && if rc == Ok && !Ends(msg)
       then RoomAfter(room, msg) >= 0 && n == used + Taken(Gate(a', RoomAfter(room, msg)), data[used..])
       else n == |data|
  }

  /** What one call of the parser means for the bytes taken: a piece that is passed on leaves
      the rest to the calls that follow, and where the session stops nothing is left over. */
  lemma FeedTaken(a: Automaton, room: nat, data: bytes, capacity: nat, rc: Status, used: nat, msg: Message, a': Automaton)
    requires FeedStep(a, data, capacity, rc, used, msg, a')
    requires 0 < capacity <= room && (capacity == room || capacity >= 125) && WellFormed(a)
    ensures TakenStep(a, room, data, rc, used, msg, a')
    ensures rc == Overflow ==> Oversized(a', room)
  {
    hide Step, Run, Pass, Silent, PassAll, Taken, MessageEvents, WellFormed;
    var g := Gate(a, room);
    match rc
    case Ok =>
      var lead :| Piece(a, data, capacity, lead, used, msg, a');
      PieceTaken(g, data, lead, capacity, used, msg, a');
    case Again =>
      SilentPasses(g, data);
      TakenConcat(g, data, []);
      assert data + [] == data;
    case Protocol =>
      SilentPasses(g, data[..used - 1]);
      RejectStops(g, data, used);
    case Overflow =>
      SilentPasses(g, data[..used]);
      OversizedStops(g, data, used, capacity);
  }

  lemma RejectStops(g: Gate, data: bytes, used: nat)
    requires 0 < used <= |data| && g.room > 0
    requires PassAll(g, data[..used - 1]).Some? && PassAll(g, data[..used - 1]).value.room == g.room
    requires Run(g.parser, data[..used - 1]).final == Some(PassAll(g, data[..used - 1]).value.parser)
    requires Run(g.parser, data[..used]).final.None?
    ensures Taken(g, data) == |data|
  {
    hide Step, Run, PassAll, Taken, Halts, Relayed;
    RunSnoc(g.parser, data, used - 1);
    assert data == data[..used - 1] + data[used - 1..];
    TakenStops(g, data[..used - 1], data[used - 1..]);
  }

  lemma OversizedStops(g: Gate, data: bytes, used: nat, capacity: nat)
    requires used < |data| && g.room > 0 && 0 < capacity <= g.room && (capacity == g.room || capacity >= 125)
    requires WellFormed(g.parser)
    requires Run(g.parser, data[..used]).final.Some?
    requires PassAll(g, data[..used]) == Some(Gate(Run(g.parser, data[..used]).final.value, g.room))
    requires
      var b := Run(g.parser, data[..used]).final.value;
      b.phase.InPayload? && IsControl(b.phase.opcode) && b.phase.len - b.phase.offset > capacity
    ensures Oversized(Run(g.parser, data[..used]).final.value, g.room)
    ensures Taken(g, data) == |data|
  {
    hide Step, Run, PassAll, Taken, Halts, Relayed;
    RunWellFormed(g.parser, data[..used]);
    assert data == data[..used] + data[used..];
    TakenStops(g, data[..used], data[used..]);
  }

  lemma PieceTaken(g: Gate, data: bytes, lead: nat, capacity: nat, used: nat, msg: Message, a': Automaton)
    requires Piece(g.parser, data, capacity, lead, used, msg, a')
    requires 0 < capacity <= g.room && |msg.payload| <= capacity
    ensures used <= Taken(g, data)
    ensures !Ends(msg) ==>
              RoomAfter(g.room, msg) >= 0
              && Taken(g, data) == used + Taken(Gate(a', RoomAfter(g.room, msg)), data[used..])
    ensures Ends(msg) ==> Taken(g, data) == |data|
  {
    hide Step, Run, Pass, Silent, PassAll, Taken, MessageEvents;
    var x, y := data[..lead], data[lead..used];
    SilentPasses(g, x);
    var g' := PassAll(g, x).value;
    assert data[lead..][0] == data[lead] && data == x + data[lead..];
    if Ends(msg) {
      EndsAtOnce(g', data[lead]);
      TakenStops(g, x, data[lead..]);
    } else {
      PiecePasses(g', y, msg, a');
      PassConcat(g, x, y);
      assert data == (x + y) + data[used..] && x + y == data[..used];
      TakenConcat(g, x + y, data[used..]);
    }
  }

  lemma EndsAtOnce(g: Gate, b: byte)
    requires g.room > 0
    requires
      var p := g.parser.phase;
      if p.InPayload? then p.opcode == PING || p.opcode == CLOSE
      else exists op, fin, a' :: (op == PING || op == CLOSE) && Step(g.parser, b) == Next(a', [End(op, fin)])
    ensures Pass(g, b).None?
  {
    hide Step, Halts, Relayed;
    if g.parser.phase.InPayload? {
      if !Oversized(g.parser, g.room) {
        PayloadByte(g, b);
      }
    } else {
      var op, fin, a' :| (op == PING || op == CLOSE) && Step(g.parser, b) == Next(a', [End(op, fin)]);
      OneEvent(op, 0, fin);
    }
  }

  lemma PiecePasses(g: Gate, t: bytes, msg: Message, a': Automaton)
    requires !Ends(msg) && g.room > 0
    requires
      var p := g.parser.phase;
      if msg.payload == [] then |t| == 1 && p.InMask? && Step(g.parser, t[0]) == Next(a', [End(msg.opcode, msg.fin)])
      else && p.InPayload? && p.opcode == msg.opcode && |msg.payload| == |t| && p.offset + |t| <= p.len
           && (if IsControl(p.opcode) then p.len - p.offset <= g.room else |t| <= g.room)
           && Run(g.parser, t).final == Some(a')
    ensures RoomAfter(g.room, msg) >= 0 && PassAll(g, t) == Some(Gate(a', RoomAfter(g.room, msg)))
  {
    hide Step, Run, Halts, Relayed;
    if msg.payload == [] {
      OneEvent(msg.opcode, 0, msg.fin);
      assert t[1..] == [];
    } else {
      PayloadPasses(g, t);
    }
  }

  /** Input that fits the room is always taken. */
  lemma {:induction false} TakenAll(g: Gate, s: bytes)
    requires |s| <= g.room
    ensures Taken(g, s) == |s|
    decreases |s|
  {
    hide Step, Halts, Relayed;
    if s != [] && Pass(g, s[0]).Some? {
      TakenAll(Pass(g, s[0]).value, s[1..]);
    }
  }

  /** The input that is still due after one call, if the session goes on: client_out is busy, or
      the input fits the ring anyway. */
  lemma Onward(heard: bytes, fed: nat, a: Automaton, room: nat, data: bytes, rc: Status, used: nat, msg: Message,
               a': Automaton, busy: bool)
    requires fed <= |heard| && heard[fed..] == data[..Taken(Gate(a, room), data)]
    requires TakenStep(a, room, data, rc, used, msg, a') && used <= |data|
    requires |data| <= room || busy
    ensures fed + used <= |heard| && heard[fed..fed + used] == data[..used]
    ensures rc == Ok && |msg.payload| <= used && |msg.payload| <= room
            && (!Ends(msg) || (msg.opcode == PING && !busy)) ==>
              var room' := RoomAfter(room, msg);
              && room' >= 0
              && Taken(Gate(a, room), data) == used + Taken(Gate(a', room'), data[used..])
              && heard[fed + used..] == data[used..][..Taken(Gate(a', room'), data[used..])]
              && (|data| - used <= room' || busy)
    ensures rc == Again && used == |data| ==> heard[fed + used..] == []
  {
    hide Taken;
    var n := Taken(Gate(a, room), data);
    assert heard[fed..][..used] == heard[fed..fed + used] && data[..n][..used] == data[..used];
    assert heard[fed..][used..] == heard[fed + used..] && data[..n][used..] == data[used..][..n - used];
    if Ends(msg) && !busy {
      TakenAll(Gate(a, room), data);
      TakenAll(Gate(a', room), data[used..]);
    }
  }

  // ---------------------------------------------------------------------
  // When input is dropped
  // ---------------------------------------------------------------------

  function RelayedBy(a: Automaton, s: bytes): bytes {
    Relayed(DataBytes, Run(a, s).events)
  }

  /** Before byte number m the parser is about to give up on a control frame. */
  predicate CrampedAt(g: Gate, s: bytes, m: nat) {
    && m < |s| && Run(g.parser, s[..m]).final.Some?
    && Oversized(Run(g.parser, s[..m]).final.value, g.room - Min(g.room, |RelayedBy(g.parser, s[..m])|))
  }

  /** The data payload in s is exactly what the ring has room for, and nothing in s stops the
      session: no illegal header, CLOSE, PING or oversized control frame. */
  ghost predicate Fills(g: Gate, s: bytes) {
    && Run(g.parser, s).final.Some? && !Halts(Run(g.parser, s).events)
    && |RelayedBy(g.parser, s)| == g.room
    && forall m: nat :: !CrampedAt(g, s, m)
  }

  /** Input is dropped exactly when a part of it that is not the whole fills the ring. */
  lemma DropsExactly(g: Gate, s: bytes)
    ensures Taken(g, s) < |s| <==> exists n: nat :: n < |s| && Fills(g, s[..n])
  {
    hide Fills, Taken;
    if Taken(g, s) < |s| {
      TakenFills(g, s);
    }
    forall n: nat | n < |s| && Fills(g, s[..n])
      ensures Taken(g, s) < |s|
    {
      FillsTaken(g, s, n);
    }
  }

  /** Unfolding one byte that passes. */
  lemma RunFirst(g: Gate, s: bytes)
    requires s != [] && Pass(g, s[0]).Some?
    ensures
      var g' := Pass(g, s[0]).value;
      var ev, r := Step(g.parser, s[0]).events, Run(g'.parser, s[1..]);
      && Step(g.parser, s[0]).Next? && g'.parser == Step(g.parser, s[0]).state
      && Run(g.parser, s) == Outcome(ev + r.events, r.final) && !Halts(ev)
      && |RelayedBy(g.parser, s)| == g.room - g'.room + |RelayedBy(g'.parser, s[1..])|
  {
    hide Step, Halts, Relayed;
    var ev := Step(g.parser, s[0]).events;
    NoCloseIn(ev);
    RelayedConcat(DataBytes, ev, Run(Pass(g, s[0]).value.parser, s[1..]).events);
    StepRelaysOne(g.parser, s[0]);
  }

  lemma {:induction false} NoCloseIn(events: seq<Event>)
    ensures !Halts(events) ==> !HasClose(events)
  {
    if events != [] && !Halts(events) {
      assert events[0].opcode != CLOSE;
      forall i | 0 <= i < |events[1..]|
        ensures events[1..][i].opcode != PING && events[1..][i].opcode != CLOSE
      {
        assert events[1..][i] == events[i + 1];
      }
      NoCloseIn(events[1..]);
    }
  }

  lemma StepRelaysOne(a: Automaton, b: byte)
    ensures Step(a, b).Next? ==> |Relayed(DataBytes, Step(a, b).events)| <= 1
  {
    hide Relayed, Halts, Xor;
    NothingHalts();
    match a.phase
    case InPayload(fin, op, len, key, offset) => OneEvent(op, Xor(b, key[offset % 4]), fin);
    case InMask(fin, op, _, _) => OneEvent(op, 0, fin);
    case _ =>
  }

  lemma HaltsConcat(x: seq<Event>, y: seq<Event>)
    ensures Halts(x + y) == (Halts(x) || Halts(y))
  {
    if Halts(x) {
      var i :| 0 <= i < |x| && (x[i].opcode == PING || x[i].opcode == CLOSE);
      assert (x + y)[i] == x[i];
    }
    if Halts(y) {
      var i :| 0 <= i < |y| && (y[i].opcode == PING || y[i].opcode == CLOSE);
      assert (x + y)[|x| + i] == y[i];
    }
  }

  lemma CrampedShift(g: Gate, s: bytes, m: nat)
    requires s != [] && Pass(g, s[0]).Some? && m < |s| - 1
    requires |RelayedBy(Pass(g, s[0]).value.parser, s[1..][..m])| <= Pass(g, s[0]).value.room
    ensures CrampedAt(g, s, m + 1) == CrampedAt(Pass(g, s[0]).value, s[1..], m)
  {
    hide Step, Halts, Relayed, Pass, Run, Oversized;
    assert s[..m + 1][0] == s[0] && s[..m + 1][1..] == s[1..][..m];
    RunFirst(g, s[..m + 1]);
  }

  /** What is relayed by a prefix is no more than what is relayed by the whole. */
  lemma RelayedLess(a: Automaton, s: bytes, m: nat)
    requires m <= |s|
    ensures |RelayedBy(a, s[..m])| <= |RelayedBy(a, s)|
  {
    hide Run, Relayed;
    assert s == s[..m] + s[m..];
    RelayedMonotone(DataBytes, a, s[..m], s[m..]);
  }

  lemma EmptyFills(g: Gate)
    ensures Fills(g, []) <==> g.room == 0
  {
    NothingHalts();
    RunEmpty(g.parser);
  }

  lemma NotCrampedFirst(g: Gate, s: bytes)
    requires s != [] && Pass(g, s[0]).Some?
    ensures !CrampedAt(g, s, 0)
  {
    hide Step, Halts;
    assert s[..0] == [];
    NothingHalts();
  }

  /** One byte that passes does not change whether the rest fills the ring. */
  lemma FillsCons(g: Gate, s: bytes)
    requires s != [] && Pass(g, s[0]).Some?
    ensures Fills(g, s) <==> Fills(Pass(g, s[0]).value, s[1..])
  {
    hide Step, Halts, Relayed, Pass, Run, Oversized, CrampedAt;
    var g' := Pass(g, s[0]).value;
    RunFirst(g, s);
    HaltsConcat(Step(g.parser, s[0]).events, Run(g'.parser, s[1..]).events);
    if |RelayedBy(g'.parser, s[1..])| == g'.room {
      forall m: nat | m < |s| - 1
        ensures CrampedAt(g, s, m + 1) == CrampedAt(g', s[1..], m)
      {
        RelayedLess(g'.parser, s[1..], m);
        CrampedShift(g, s, m);
      }
      NotCrampedFirst(g, s);
      CrampedInside(g, s);
      CrampedInside(g', s[1..]);
      if forall m: nat :: !CrampedAt(g, s, m) {
        forall m: nat ensures !CrampedAt(g', s[1..], m) {
          assert m < |s| - 1 ==> !CrampedAt(g, s, m + 1);
        }
      }
      if forall m: nat :: !CrampedAt(g', s[1..], m) {
        forall m: nat ensures !CrampedAt(g, s, m) {
          assert 0 < m < |s| ==> CrampedAt(g, s, (m - 1) + 1) == CrampedAt(g', s[1..], m - 1);
        }
      }
    }
  }

  lemma CrampedInside(g: Gate, s: bytes)
    ensures forall m: nat :: CrampedAt(g, s, m) ==> m < |s|
  {
  }

  lemma {:induction false} TakenFills(g: Gate, s: bytes)
    requires Taken(g, s) < |s|
    ensures Fills(g, s[..Taken(g, s)])
    decreases |s|
  {
    hide Fills, Pass;
    var n := Taken(g, s);
    if n == 0 {
      assert s[..0] == [];
      EmptyFills(g);
    } else {
      var g' := Pass(g, s[0]).value;
      TakenFills(g', s[1..]);
      assert s[..n][0] == s[0] && s[..n][1..] == s[1..][..n - 1];
      FillsCons(g, s[..n]);
    }
  }

  lemma {:induction false} FillsTaken(g: Gate, s: bytes, n: nat)
    requires n < |s| && Fills(g, s[..n])
    ensures Taken(g, s) < |s|
    decreases n
  {
    hide Fills, Pass;
    if g.room > 0 {
      if n == 0 {
        assert s[..0] == [];
        EmptyFills(g);
      } else {
        FillsPasses(g, s[..n]);
        assert s[..n][0] == s[0] && s[..n][1..] == s[1..][..n - 1];
        FillsCons(g, s[..n]);
        FillsTaken(Pass(g, s[0]).value, s[1..], n - 1);
      }
    }
  }

  lemma FillsPasses(g: Gate, s: bytes)
    requires Fills(g, s) && s != [] && g.room > 0
    ensures Pass(g, s[0]).Some?
  {
    hide Step, Relayed, Halts;
    assert s[..0] == [];
    NothingHalts();
    assert !CrampedAt(g, s, 0);
    var ev := Step(g.parser, s[0]).events;
    HaltsConcat(ev, Run(Step(g.parser, s[0]).state, s[1..]).events);
  }

  // ---------------------------------------------------------------------
  // When a control frame fits
  // ---------------------------------------------------------------------

  /** The bytes of the current frame so far that carry no data. */
  function Progress(a: Automaton): nat {
    match a.phase
    case AtStart => 0
    case AtLength(_, _) => 1
    case InExtLen(_, _, _, got) => 2 + |got|
    case InMask(_, _, _, got) => 2 + |got|
    case InPayload(_, op, _, _, offset) => if IsControl(op) then 6 + offset else 0
  }

  lemma ProgressStep(a: Automaton, b: byte)
    requires Step(a, b).Next?
    ensures
      var a', n := Step(a, b).state, |Relayed(DataBytes, Step(a, b).events)|;
      n <= 1 && Progress(a') <= Progress(a) + 1 && (n == 1 ==> Progress(a') == 0)
  {
    hide Relayed, Halts, Xor, HeaderLegal, MinimalLength, BeValue;
    NothingHalts();
    match a.phase
    case InPayload(fin, op, len, key, offset) => OneEvent(op, Xor(b, key[offset % 4]), fin);
    case InMask(fin, op, _, _) => OneEvent(op, 0, fin);
    case _ =>
  }

  /** Once data was relayed, every other byte of the current frame came after it. */
  lemma {:induction false} ProgressRun(a: Automaton, s: bytes)
    requires Run(a, s).final.Some? && !HasClose(Run(a, s).events)
    ensures
      var n := |RelayedBy(a, s)|;
      n <= |s| && (n > 0 ==> n + Progress(Run(a, s).final.value) <= |s|)
    decreases |s|
  {
    hide Run, Step, Relayed, HasClose, Progress;
    if s == [] {
      RunEmpty(a);
      NothingHalts();
    } else {
      var k := |s| - 1;
      RunConcat(a, s[..k], [s[k]]);
      assert s == s[..k] + [s[k]];
      var r := Run(a, s[..k]);
      RunOne(r.final.value, s[k]);
      RelayedConcat(DataBytes, r.events, Run(r.final.value, [s[k]]).events);
      ProgressRun(a, s[..k]);
      ProgressStep(r.final.value, s[k]);
    }
  }

  /** With this much room, a control frame in n bytes of input always fits. */
  lemma NoStall(a: Automaton, s: bytes, room: nat, n: nat)
    requires WellFormed(a) && Run(a, s).final.Some? && !HasClose(Run(a, s).events)
    requires |s| < n && n + 118 <= room && 125 <= room
    ensures |RelayedBy(a, s)| <= room && !Oversized(Run(a, s).final.value, room - |RelayedBy(a, s)|)
  {
    hide Run, Relayed, HasClose;
    ProgressRun(a, s);
    RunWellFormed(a, s);
  }

  // ---------------------------------------------------------------------
  // How large a ring is large enough
  // ---------------------------------------------------------------------

  /** The fewest bytes that carry n bytes of data payload. */
  function Cost(n: nat): nat {
    if n == 0 then 0 else if n <= 125 then n + 6 else n + 8
  }

  lemma {:induction false} DecodeLeavesPart(s: bytes, frag: nat)
    ensures
      var d := Decode(s, frag);
      match ScanHeader(d.rest, d.frag)
      case Whole(h) => |d.rest| < h.size + 4 + h.len
      case _ => true
    decreases |s|
  {
    hide ScanHeader, FrameAt;
    match ScanHeader(s, frag)
    case Whole(h) =>
      if |s| >= h.size + 4 + h.len {
        DecodeLeavesPart(s[h.size + 4 + h.len..], NextFrag(frag, h.fin, h.opcode));
      }
    case _ =>
  }

  lemma TailCost(s: bytes, frag: nat)
    requires ScanHeader(s, frag).Whole? ==> |s| < ScanHeader(s, frag).header.size + 4 + ScanHeader(s, frag).header.len
    ensures Cost(|Relayed(DataBytes, TailEvents(s, frag))|) <= |s|
  {
    hide Relayed, DataEvents, ApplyMask, ScanHeader;
    NothingHalts();
    match ScanHeader(s, frag)
    case Whole(h) =>
      if |s| > h.size + 4 {
        LongHeader(s, frag);
        RelayedData(DataBytes, h.opcode, ApplyMask(s[h.size..h.size + 4], 0, s[h.size + 4..]));
      }
    case _ =>
  }

  lemma LongHeader(s: bytes, frag: nat)
    requires ScanHeader(s, frag).Whole?
    ensures ScanHeader(s, frag).header.len > 125 ==> ScanHeader(s, frag).header.size >= 4
  {
    hide BeValue, HeaderLegal;
  }

  lemma {:induction false} FramesCost(frag: nat, fs: seq<Frame>, tail: nat)
    requires Legal(frag, fs)
    ensures
      var n := |FramesRelayed(DataBytes, fs)| + if ClosesIn(fs) then 0 else tail;
      Cost(n) <= |EncodeAll(frag, fs)| + Cost(tail)
    decreases |fs|
  {
    hide EncodeFrame, HeaderLegal, ClosesIn, ValidOpcode;
    if fs == [] {
      NoneCloses();
    } else {
      ClosesInCons(fs);
      FrameCost(fs[0]);
      FramesCost(NextFrag(frag, fs[0].fin, fs[0].opcode), fs[1..], tail);
    }
  }

  lemma NoneCloses()
    ensures !ClosesIn([])
  {
  }

  lemma FrameCost(f: Frame)
    requires ValidOpcode(f.opcode) && |f.payload| < LENGTH_LIMIT
    ensures |EncodeFrame(f)| >= |f.payload| + if |f.payload| <= 125 then 6 else 8
    ensures |f.payload| <= 65535 ==> |EncodeFrame(f)| == |f.payload| + if |f.payload| <= 125 then 6 else 8
  {
    hide ApplyMask;
  }

  /** Relaying n bytes of data takes at least Cost(n) bytes of input. */
  lemma RelayedCost(s: bytes)
    ensures Cost(|RelayedBy(START, s)|) <= |s|
  {
    hide Run, Decode, Relayed, FramesRelayed, ScanHeader, EncodeAll, Legal, ClosesIn, TailEvents, Cost;
    DecodedIsRelayed(DataBytes, s);
    EncodeDecode(s, 0);
    DecodeLeavesPart(s, 0);
    var d := Decode(s, 0);
    TailCost(d.rest, d.frag);
    FramesCost(0, d.frames, |Relayed(DataBytes, TailEvents(d.rest, d.frag))|);
  }

  /** A binary frame that fills a ring of this size, and one byte more. */
  function Overfull(capacity: nat): bytes
    requires capacity < LENGTH_LIMIT
  {
    EncodeFrame(Full(capacity)) + [0]
  }

  function Full(capacity: nat): Frame {
    Frame(true, BINARY, [0, 0, 0, 0], seq(capacity, i => 0))
  }

  lemma {:induction false} CrampedShows(g: Gate, s: bytes, m: nat)
    requires Run(g.parser, s).final.Some? && CrampedAt(g, s, m)
    ensures exists i :: 0 <= i < |Run(g.parser, s).events| && IsControl(Run(g.parser, s).events[i].opcode)
  {
    hide Run, Relayed;
    RunConcat(g.parser, s[..m], s[m..]);
    assert s == s[..m] + s[m..];
    var b := Run(g.parser, s[..m]).final.value;
    RunConcat(b, [s[m]], s[m + 1..]);
    RunOne(b, s[m]);
    assert s[m..] == [s[m]] + s[m + 1..];
    var x, y := Run(g.parser, s[..m]).events, Run(b, s[m..]).events;
    assert (x + y)[|x|] == y[0];
  }

  lemma FullFills(capacity: nat)
    requires 0 < capacity < LENGTH_LIMIT
    ensures Fills(Gate(START, capacity), EncodeFrame(Full(capacity)))
  {
    hide Run, Relayed, ScanHeader, Decode, EncodeFrame, CrampedAt, DataEvents, Halts;
    var f, g := Full(capacity), Gate(START, capacity);
    var s := EncodeFrame(f);
    OneFrame(f);
    DecodeEncode(0, [f]);
    AutomatonRefinesDecoder(s, 0);
    EmptyTail(FragAfter(0, [f]));
    var events := Run(START, s).events;
    assert AllEvents([f]) == FrameEvents(f) + AllEvents([]) == FrameEvents(f);
    assert events == FrameEvents(f);
    FullEvents(f);
    forall m: nat ensures !CrampedAt(g, s, m) {
      if CrampedAt(g, s, m) {
        CrampedShows(g, s, m);
      }
    }
  }

  lemma OneFrame(f: Frame)
    requires FrameLegal(0, f)
    ensures Legal(0, [f]) && EncodeAll(0, [f]) == EncodeFrame(f)
  {
    hide EncodeFrame;
    var fs := [f];
    assert fs[1..] == [];
    assert Legal(NextFrag(0, f.fin, f.opcode), []);
    assert EncodeAll(NextFrag(0, f.fin, f.opcode), []) == [];
    assert EncodeFrame(f) + [] == EncodeFrame(f);
  }

  lemma FullEvents(f: Frame)
    requires f.opcode == BINARY
    ensures
      var events := FrameEvents(f);
      && Relayed(DataBytes, events) == f.payload && !Halts(events)
      && forall i :: 0 <= i < |events| ==> events[i].opcode == BINARY
  {
    hide Relayed, DataEvents;
    RelayedData(DataBytes, BINARY, f.payload);
    RelayedConcat(DataBytes, DataEvents(BINARY, f.payload), [End(BINARY, f.fin)]);
    OneEvent(BINARY, 0, f.fin);
  }

  /** Some input of fewer than `limit` bytes is dropped exactly when it can carry the
      capacity of the ring and still have a byte left. */
  lemma DropThreshold(capacity: nat, limit: nat)
    requires 0 < capacity <= 65535
    ensures (exists s: bytes :: |s| < limit && Taken(Gate(START, capacity), s) < |s|) <==> Cost(capacity) + 1 < limit
    ensures |Overfull(capacity)| == Cost(capacity) + 1
    ensures Taken(Gate(START, capacity), Overfull(capacity)) == Cost(capacity)
  {
    hide Taken, Fills, EncodeFrame;
    var g, f := Gate(START, capacity), Full(capacity);
    FrameCost(f);
    FullFills(capacity);
    var w := Overfull(capacity);
    assert w[..|w| - 1] == EncodeFrame(f);
    DropsExactly(g, w);
    TakenCost(capacity, w);
    forall s: bytes | |s| < limit && Taken(g, s) < |s|
      ensures Cost(capacity) + 1 < limit
    {
      TakenCost(capacity, s);
    }
  }

  lemma TakenCost(capacity: nat, s: bytes)
    requires Taken(Gate(START, capacity), s) < |s|
    ensures Cost(capacity) <= Taken(Gate(START, capacity), s)
  {
    hide Taken, Run, Relayed, CrampedAt;
    var g := Gate(START, capacity);
    TakenFills(g, s);
    RelayedCost(s[..Taken(g, s)]);
  }

  /** Input without PING and CLOSE asks for no answer. */
  lemma {:induction false} NoPings(events: seq<Event>)
    requires !Halts(events)
    ensures Relayed(PingBytes, events) == []
  {
    if events != [] {
      assert events[0].opcode != PING;
      forall i | 0 <= i < |events[1..]|
        ensures events[1..][i].opcode != PING && events[1..][i].opcode != CLOSE
      {
        assert events[1..][i] == events[i + 1];
      }
      NoPings(events[1..]);
    }
  }
}
