/**
 The wire format of RFC 6455 once more, in the numbers of the standard and without the
 definitions that the encoder, the decoder and the automaton share: what a legal sequence of
 frames is (section 5.4), which opcodes carry what (section 11.8), and the bytes of the
 examples of section 5.7.
 */
module WsLaws {
  import opened Core
  import opened WsSpec
  import opened WsWriter

  // ---------------------------------------------------------------------
  // Legal sequences of frames
  // ---------------------------------------------------------------------

  predicate Opens(f: Frame) {
    !f.fin && (f.opcode == 1 || f.opcode == 2)
  }

  predicate Finishes(f: Frame) {
    f.fin && f.opcode == 0
  }

  /** Frame j opens a message that no frame before i finishes. */
  predicate OpenedBy(fs: seq<Frame>, j: int, i: int) {
    0 <= j < i <= |fs| && Opens(fs[j]) && forall k :: j < k < i ==> !Finishes(fs[k])
  }

  ghost predicate OpenAt(fs: seq<Frame>, i: int) {
    exists j :: OpenedBy(fs, j, i)
  }

  /** Control frames are whole and short, a message is continued only while one is open, and no
      message begins inside another. */
  ghost predicate GoodFrame(fs: seq<Frame>, i: int)
    requires 0 <= i < |fs|
  {
    var f := fs[i];
    && (f.opcode == 0 || f.opcode == 1 || f.opcode == 2 || f.opcode == 8 || f.opcode == 9 || f.opcode == 10)
    && |f.payload| < 0x8000_0000_0000_0000
    && (f.opcode >= 8 ==> f.fin && |f.payload| <= 125)
    && (f.opcode == 0 ==> OpenAt(fs, i))
    && (f.opcode == 1 || f.opcode == 2 ==> !OpenAt(fs, i))
  }

  ghost predicate Grammatical(fs: seq<Frame>) {
    forall i :: 0 <= i < |fs| ==> GoodFrame(fs, i)
  }

  lemma {:induction false} LegalSnoc(frag: nat, fs: seq<Frame>, f: Frame)
    ensures Legal(frag, fs + [f]) <==> Legal(frag, fs) && FrameLegal(FragAfter(frag, fs), f)
    ensures FragAfter(frag, fs + [f]) == NextFrag(FragAfter(frag, fs), f.fin, f.opcode)
    decreases |fs|
  {
    hide FrameLegal, NextFrag;
    if fs == [] {
      assert fs + [f] == [f] && [f][1..] == [];
      assert FragAfter(NextFrag(frag, f.fin, f.opcode), []) == NextFrag(frag, f.fin, f.opcode);
    } else {
      assert (fs + [f])[0] == fs[0] && (fs + [f])[1..] == fs[1..] + [f];
      LegalSnoc(NextFrag(frag, fs[0].fin, fs[0].opcode), fs[1..], f);
    }
  }

  lemma OpenPrefix(fs: seq<Frame>, f: Frame, i: int)
    requires i <= |fs|
    ensures OpenAt(fs + [f], i) <==> OpenAt(fs, i)
  {
    if OpenAt(fs, i) {
      var j :| OpenedBy(fs, j, i);
      assert OpenedBy(fs + [f], j, i);
    }
    if OpenAt(fs + [f], i) {
      var j :| OpenedBy(fs + [f], j, i);
      forall k | j < k < i ensures !Finishes(fs[k]) {
        assert (fs + [f])[k] == fs[k];
      }
      assert OpenedBy(fs, j, i);
    }
  }

  lemma OpenSnoc(fs: seq<Frame>, f: Frame)
    ensures OpenAt(fs + [f], |fs| + 1) <==> Opens(f) || (OpenAt(fs, |fs|) && !Finishes(f))
  {
    var gs, n := fs + [f], |fs|;
    if Opens(f) {
      assert OpenedBy(gs, n, n + 1);
    } else if OpenAt(fs, n) && !Finishes(f) {
      var j :| OpenedBy(fs, j, n);
      assert OpenedBy(gs, j, n + 1);
    }
    if OpenAt(gs, n + 1) && !Opens(f) {
      var j :| OpenedBy(gs, j, n + 1);
      assert j != n && !Finishes(gs[n]);
      assert OpenedBy(gs, j, n);
      OpenPrefix(fs, f, n);
    }
  }

  /** The decoder remembers an opcode exactly while a message is open. */
  lemma {:induction false} FragIsOpen(fs: seq<Frame>)
    ensures FragAfter(0, fs) != 0 <==> OpenAt(fs, |fs|)
    decreases |fs|
  {
    if fs != [] {
      var front, f := fs[..|fs| - 1], fs[|fs| - 1];
      assert fs == front + [f];
      FragIsOpen(front);
      LegalSnoc(0, front, f);
      OpenSnoc(front, f);
    }
  }

  /** A list of frames is legal exactly when it obeys the grammar of sections 5.4 and 5.5. */
  lemma {:induction false} LegalExactly(fs: seq<Frame>)
    ensures Legal(0, fs) <==> Grammatical(fs)
    decreases |fs|
  {
    if fs != [] {
      hide GoodFrame, FrameLegal, OpenAt;
      var front, f := fs[..|fs| - 1], fs[|fs| - 1];
      assert fs == front + [f];
      LegalExactly(front);
      LegalSnoc(0, front, f);
      GoodSnoc(front, f);
      LastFrame(front, f);
    }
  }

  lemma GoodSnoc(fs: seq<Frame>, f: Frame)
    ensures Grammatical(fs + [f]) <==> Grammatical(fs) && GoodFrame(fs + [f], |fs|)
  {
    hide OpenAt;
    var gs := fs + [f];
    forall i | 0 <= i < |fs|
      ensures GoodFrame(gs, i) <==> GoodFrame(fs, i)
    {
      assert gs[i] == fs[i];
      OpenPrefix(fs, f, i);
    }
  }

  lemma LastFrame(fs: seq<Frame>, f: Frame)
    ensures GoodFrame(fs + [f], |fs|) <==> FrameLegal(FragAfter(0, fs), f)
  {
    hide OpenAt;
    assert (fs + [f])[|fs|] == f;
    OpenPrefix(fs, f, |fs|);
    FragIsOpen(fs);
  }

  /** The headers that break section 5.2 or the grammar, by their bytes. */
  predicate BadHeader(s: bytes, open: bool) {
    || (|s| >= 1 && ((s[0] / 16) % 8 != 0 || BadOpcode(s[0] % 16)))
    || (|s| >= 2 && s[1] < 128)
    || (|s| >= 2 && s[1] % 128 < 126 && BadFrame(s[0] >= 128, s[0] % 16, s[1] % 128, open))
    || (|s| >= 4 && s[1] % 128 == 126
        && (Number(s[2..4]) < 126 || BadFrame(s[0] >= 128, s[0] % 16, Number(s[2..4]), open)))
    || (|s| >= 10 && s[1] % 128 == 127
        && (Number(s[2..10]) < 65536 || s[2] >= 128 || BadFrame(s[0] >= 128, s[0] % 16, Number(s[2..10]), open)))
  }

  predicate BadOpcode(op: nat) {
    3 <= op <= 7 || op >= 11
  }

  predicate BadFrame(fin: bool, op: nat, len: nat, open: bool) {
    || (op >= 8 && (!fin || len > 125))
    || (op == 0 && !open)
    || ((op == 1 || op == 2) && open)
  }

  /** A number with its most significant byte first. */
  function Number(s: bytes): nat {
    if s == [] then 0 else 256 * Number(s[..|s| - 1]) + (s[|s| - 1] as int)
  }

  lemma {:induction false} NumberIs(s: bytes)
    ensures Number(s) == BeValue(s)
  {
    if s != [] {
      NumberIs(s[..|s| - 1]);
    }
  }

  lemma BadHeaderExactly(s: bytes, frag: nat)
    ensures ScanHeader(s, frag).Bad? <==> BadHeader(s, frag != 0)
  {
    hide Number, BeValue;
    if |s| >= 4 {
      NumberIs(s[2..4]);
    }
    if |s| >= 10 {
      NumberIs(s[2..10]);
      TopBit(s[2..10]);
    }
  }

  /** The streams that the parser rejects are frames that obey the grammar, and then a bad header. */
  lemma RejectedByGrammar(s: bytes)
    ensures Run(START, s).final.None? <==> exists fs, tail :: Breaks(s, fs, tail)
  {
    hide Run, ScanHeader, EncodeAll, Legal, FragAfter, Grammatical, BadHeader, OpenAt;
    RejectedExactly(s);
    if Run(START, s).final.None? {
      var fs, tail :| Legal(0, fs) && s == EncodeAll(0, fs) + tail && ScanHeader(tail, FragAfter(0, fs)).Bad?;
      LegalExactly(fs);
      FragIsOpen(fs);
      BadHeaderExactly(tail, FragAfter(0, fs));
      assert Breaks(s, fs, tail);
    }
    forall fs, tail | Breaks(s, fs, tail)
      ensures Run(START, s).final.None?
    {
      LegalExactly(fs);
      FragIsOpen(fs);
      BadHeaderExactly(tail, FragAfter(0, fs));
    }
  }

  /** The stream is these frames and then a bad header. */
  ghost predicate Breaks(s: bytes, fs: seq<Frame>, tail: bytes) {
    && Grammatical(fs) && BadHeader(tail, OpenAt(fs, |fs|))
    && Legal(0, fs) && s == EncodeAll(0, fs) + tail
  }

  // ---------------------------------------------------------------------
  // Opcodes
  // ---------------------------------------------------------------------

  /** Opcodes 0, 1 and 2 carry data to the target, 9 asks for an answer, and 8 ends the session. */
  lemma KindsExactly(op: nat)
    requires op == 0 || op == 1 || op == 2 || op == 8 || op == 9 || op == 10
    ensures Selects(DataBytes, op) <==> op == 0 || op == 1 || op == 2
    ensures Selects(PingBytes, op) <==> op == 9
    ensures op == CLOSE <==> op == 8
  {
  }

  /** The payload of the frames with the opcodes 0, 1 and 2 before the first with opcode 8. */
  function DataOf(fs: seq<Frame>): bytes {
    if fs == [] || fs[0].opcode == 8 then []
    else (if fs[0].opcode < 8 then fs[0].payload else []) + DataOf(fs[1..])
  }

  lemma {:induction false} DataIsRelayed(fs: seq<Frame>)
    ensures FramesRelayed(DataBytes, fs) == DataOf(fs)
  {
    if fs != [] {
      DataIsRelayed(fs[1..]);
    }
  }

  /** The bytes of a frame for the client: FIN and opcode, the shortest length field that fits,
      and the payload as it is. */
  lemma OutBytes(op: nat, payload: bytes)
    requires (op == 2 || op == 8 || op == 10) && |payload| < 65536
    ensures
      var n, f := |payload|, OutFrame(op, payload);
      && Writable(f)
      && EncodeOut(f) == [0x80 + op] + (if n < 126 then [n] else [126, n / 256, n % 256]) + payload
  {
    var n := |payload|;
    if n >= 126 {
      assert BeBytes(n / 256, 1) == BeBytes(n / 256 / 256, 0) + [n / 256 % 256];
      assert BeBytes(n, 2) == BeBytes(n / 256, 1) + [n % 256];
    }
  }

  // ---------------------------------------------------------------------
  // The examples of section 5.7 of RFC 6455
  // ---------------------------------------------------------------------

  /** Exclusive or in two halves of four bits. */
  lemma XorBytes(a: byte, b: byte)
    ensures Xor(a, b) == XorFour(a, b) + 16 * XorFour(a / 2 / 2 / 2 / 2, b / 2 / 2 / 2 / 2)
  {
    hide XorBit;
    XorBitsStep(a, b, 8);
    XorBitsStep(a / 2, b / 2, 7);
    XorBitsStep(a / 2 / 2, b / 2 / 2, 6);
    XorBitsStep(a / 2 / 2 / 2, b / 2 / 2 / 2, 5);
    var c, d := a / 2 / 2 / 2 / 2, b / 2 / 2 / 2 / 2;
    XorBitsStep(c, d, 4);
    XorBitsStep(c / 2, d / 2, 3);
    XorBitsStep(c / 2 / 2, d / 2 / 2, 2);
    XorBitsStep(c / 2 / 2 / 2, d / 2 / 2 / 2, 1);
  }

  function XorFour(a: nat, b: nat): nat {
    XorBit(a % 2, b % 2) + 2 * XorBit(a / 2 % 2, b / 2 % 2)
    + 4 * XorBit(a / 2 / 2 % 2, b / 2 / 2 % 2) + 8 * XorBit(a / 2 / 2 / 2 % 2, b / 2 / 2 / 2 % 2)
  }

  lemma XorBitsStep(a: nat, b: nat, k: nat)
    requires k > 0
    ensures XorBits(a, b, k) == 2 * XorBits(a / 2, b / 2, k - 1) + XorBit(a % 2, b % 2)
    ensures XorBits(a, b, 0) == 0
  {
  }

  const HELLO: bytes := [0x48, 0x65, 0x6c, 0x6c, 0x6f]

  /** A single-frame masked text message: "Hello". */
  lemma MaskedHello()
    ensures
      var s: bytes := [0x81, 0x85, 0x37, 0xfa, 0x21, 0x3d, 0x7f, 0x9f, 0x4d, 0x51, 0x58];
      Decode(s, 0) == Decoded([Frame(true, 1, [0x37, 0xfa, 0x21, 0x3d], HELLO)], [], 0)
  {
    hide Decode, ApplyMask, Xor;
    var s: bytes := [0x81, 0x85, 0x37, 0xfa, 0x21, 0x3d, 0x7f, 0x9f, 0x4d, 0x51, 0x58];
    var h := Header(true, 1, 5, 2);
    assert ScanHeader(s, 0) == Whole(h);
    HelloUnmasked();
    assert s[2..6] == [0x37, 0xfa, 0x21, 0x3d] && s[6..11] == [0x7f, 0x9f, 0x4d, 0x51, 0x58];
    DecodeUnfold(s, h, 0);
    assert s[11..] == [];
    NothingDecoded();
  }

  lemma NothingDecoded()
    ensures Decode([], 0) == Decoded([], [], 0)
  {
  }

  lemma HelloUnmasked()
    ensures ApplyMask([0x37, 0xfa, 0x21, 0x3d], 0, [0x7f, 0x9f, 0x4d, 0x51, 0x58]) == HELLO
  {
    hide Xor;
    HelloByte0();
    HelloByte1();
    HelloByte2();
    HelloByte3();
    HelloByte4();
    var r := ApplyMask([0x37, 0xfa, 0x21, 0x3d], 0, [0x7f, 0x9f, 0x4d, 0x51, 0x58]);
    assert r[0] == 0x48 && r[1] == 0x65 && r[2] == 0x6c && r[3] == 0x6c && r[4] == 0x6f;
  }

  lemma HelloByte0()
    ensures Xor(0x7f, 0x37) == 0x48
  {
    hide Xor;
    XorBytes(0x7f, 0x37);
  }

  lemma HelloByte1()
    ensures Xor(0x9f, 0xfa) == 0x65
  {
    hide Xor;
    XorBytes(0x9f, 0xfa);
  }

  lemma HelloByte2()
    ensures Xor(0x4d, 0x21) == 0x6c
  {
    hide Xor;
    XorBytes(0x4d, 0x21);
  }

  lemma HelloByte3()
    ensures Xor(0x51, 0x3d) == 0x6c
  {
    hide Xor;
    XorBytes(0x51, 0x3d);
  }

  lemma HelloByte4()
    ensures Xor(0x58, 0x37) == 0x6f
  {
    hide Xor;
    XorBytes(0x58, 0x37);
  }

  /** 256 bytes and 64 KiB of binary data in a single unmasked frame. */
  lemma UnmaskedLengths(payload: bytes)
    ensures |payload| == 256 ==> EncodeOut(OutFrame(2, payload)) == [0x82, 0x7e, 0x01, 0x00] + payload
    ensures |payload| == 65536 ==>
              EncodeOut(OutFrame(2, payload)) == [0x82, 0x7f, 0, 0, 0, 0, 0, 1, 0, 0] + payload
  {
    hide BeBytes;
    if |payload| == 256 {
      OutBytes(2, payload);
    } else if |payload| == 65536 {
      SixtyFourKiB();
    }
  }

  lemma SixtyFourKiB()
    ensures BeBytes(65536, 8) == [0, 0, 0, 0, 0, 1, 0, 0]
  {
    assert BeBytes(0, 1) == BeBytes(0, 0) + [0];
    assert BeBytes(0, 2) == BeBytes(0, 1) + [0];
    assert BeBytes(0, 3) == BeBytes(0, 2) + [0];
    assert BeBytes(0, 4) == BeBytes(0, 3) + [0];
    assert BeBytes(0, 5) == BeBytes(0, 4) + [0];
    assert BeBytes(1, 6) == BeBytes(0, 5) + [1];
    assert BeBytes(256, 7) == BeBytes(1, 6) + [0];
    assert BeBytes(65536, 8) == BeBytes(256, 7) + [0];
  }
}
