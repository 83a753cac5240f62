/**
 The digests that section 7.3 of RFC 3174 and section 1.3 of RFC 6455 give as samples, computed
 by the specification.  Every round is one call of Turn; the solver evaluates twenty at a time.
 */
module Sha1Samples {
  import opened Core
  import opened Sha1
  import opened Handshake
  import Base64

  // ---------------------------------------------------------------------
  // Rounds on words that are known
  // ---------------------------------------------------------------------

  lemma RotlBy(x: word)
    ensures Rotl(x, 1) == (x << 1) | (x >> 31)
    ensures Rotl(x, 5) == (x << 5) | (x >> 27)
    ensures Rotl(x, 30) == (x << 30) | (x >> 2)
  {
  }

  /** The registers before round t. */
  ghost predicate At(m: bytes, h: Regs, t: nat, r: Regs) {
    |m| == 64 && Rounds(m, h, t) == r
  }

  /** Sixteen words of the schedule, from number t on. */
  ghost predicate Words(m: bytes, t: nat, w0: word, w1: word, w2: word, w3: word,
                        w4: word, w5: word, w6: word, w7: word, w8: word, w9: word,
                        w10: word, w11: word, w12: word, w13: word, w14: word, w15: word)
  {
    && |m| == 64
    && W(m, t) == w0 && W(m, t + 1) == w1 && W(m, t + 2) == w2 && W(m, t + 3) == w3
    && W(m, t + 4) == w4 && W(m, t + 5) == w5 && W(m, t + 6) == w6 && W(m, t + 7) == w7
    && W(m, t + 8) == w8 && W(m, t + 9) == w9 && W(m, t + 10) == w10 && W(m, t + 11) == w11
    && W(m, t + 12) == w12 && W(m, t + 13) == w13 && W(m, t + 14) == w14 && W(m, t + 15) == w15
  }

  /** A word of the schedule and a round, with rotations by amounts that the solver can see. */
  lemma WordIs(m: bytes, t: nat)
    requires |m| == 64 && t >= 16
    ensures
      var x := XorWord(XorWord(XorWord(W(m, t - 3), W(m, t - 8)), W(m, t - 14)), W(m, t - 16));
      W(m, t) == (x << 1) | (x >> 31)
  {
    hide Rotl, XorWord;
    RotlBy(XorWord(XorWord(XorWord(W(m, t - 3), W(m, t - 8)), W(m, t - 14)), W(m, t - 16)));
  }

  lemma RoundIs(t: nat, r: Regs, w: word)
    ensures Round(t, r, w) ==
            Regs(Add(Add(Add(Add((r.a << 5) | (r.a >> 27), F(t, r.b, r.c, r.d)), r.e), K(t)), w),
                 r.a, (r.b << 30) | (r.b >> 2), r.c, r.d)
  {
    hide Rotl, Add, F, K;
    RotlBy(r.a);
    RotlBy(r.b);
  }

  lemma Turn(m: bytes, h: Regs, t: nat, r: Regs) returns (r': Regs)
    requires At(m, h, t, r)
    ensures At(m, h, t + 1, r')
    ensures r' == Regs(Add(Add(Add(Add((r.a << 5) | (r.a >> 27), F(t, r.b, r.c, r.d)), r.e), K(t)), W(m, t)),
                       r.a, (r.b << 30) | (r.b >> 2), r.c, r.d)
    ensures t >= 16 ==>
              var x := XorWord(XorWord(XorWord(W(m, t - 3), W(m, t - 8)), W(m, t - 14)), W(m, t - 16));
              W(m, t) == (x << 1) | (x >> 31)
  {
    hide Round, Add, F, K, W, XorWord;
    r' := Round(t, r, W(m, t));
    RoundIs(t, r, W(m, t));
    if t >= 16 {
      WordIs(m, t);
    }
  }

  lemma AtStart(m: bytes, h: Regs)
    requires |m| == 64
    ensures At(m, h, 0, h)
  {
  }

  // ---------------------------------------------------------------------
  // The digest of "abc"
  // ---------------------------------------------------------------------

  /** The padded block of "abc". */
  ghost predicate AbcBlock(m: bytes) {
    Words(m, 0, 0x61626380, 0x00000000, 0x00000000, 0x00000000, 0x00000000, 0x00000000, 0x00000000, 0x00000000,
                0x00000000, 0x00000000, 0x00000000, 0x00000000, 0x00000000, 0x00000000, 0x00000000, 0x00000018)
  }

  lemma Abc20(m: bytes)
    requires AbcBlock(m)
    ensures At(m, Regs(0x67452301, 0xefcdab89, 0x98badcfe, 0x10325476, 0xc3d2e1f0), 20,
               Regs(0xfd9e1d7d, 0xdc64901d, 0x20aa99ca, 0xd3a49608, 0xc82f758b))
    ensures Words(m, 4, 0x00000000, 0x00000000, 0x00000000, 0x00000000, 0x00000000, 0x00000000, 0x00000000, 0x00000000,
                      0x00000000, 0x00000000, 0x00000000, 0x00000018, 0xc2c4c700, 0x00000000, 0x00000030, 0x85898e01)
  {
    hide W, At;
    var h := Regs(0x67452301, 0xefcdab89, 0x98badcfe, 0x10325476, 0xc3d2e1f0);
    AtStart(m, h);
    var r := h;
    r := Turn(m, h, 0, r);
    r := Turn(m, h, 1, r);
    r := Turn(m, h, 2, r);
    r := Turn(m, h, 3, r);
    r := Turn(m, h, 4, r);
    r := Turn(m, h, 5, r);
    r := Turn(m, h, 6, r);
    r := Turn(m, h, 7, r);
    r := Turn(m, h, 8, r);
    r := Turn(m, h, 9, r);
    r := Turn(m, h, 10, r);
    r := Turn(m, h, 11, r);
    r := Turn(m, h, 12, r);
    r := Turn(m, h, 13, r);
    r := Turn(m, h, 14, r);
    r := Turn(m, h, 15, r);
    r := Turn(m, h, 16, r);
    r := Turn(m, h, 17, r);
    r := Turn(m, h, 18, r);
    r := Turn(m, h, 19, r);
  }

  lemma Abc40(m: bytes)
    requires AbcBlock(m)
    ensures At(m, Regs(0x67452301, 0xefcdab89, 0x98badcfe, 0x10325476, 0xc3d2e1f0), 40,
               Regs(0x32de1cba, 0x4c986405, 0xf718e5cf, 0x03d447f6, 0xf72eec32))
    ensures Words(m, 24, 0x85898ec1, 0x16263806, 0x00000000, 0x00000180, 0x2c4c700c, 0x000000f0, 0x93afb507, 0x5898e048,
                      0x8e9a9202, 0x00000600, 0xb131c0f0, 0x16263bc6, 0x4ebed41e, 0x626380a1, 0x16263806, 0x000018c0)
  {
    hide W, At;
    var h := Regs(0x67452301, 0xefcdab89, 0x98badcfe, 0x10325476, 0xc3d2e1f0);
    Abc20(m);
    var r := Regs(0xfd9e1d7d, 0xdc64901d, 0x20aa99ca, 0xd3a49608, 0xc82f758b);
    r := Turn(m, h, 20, r);
    r := Turn(m, h, 21, r);
    r := Turn(m, h, 22, r);
    r := Turn(m, h, 23, r);
    r := Turn(m, h, 24, r);
    r := Turn(m, h, 25, r);
    r := Turn(m, h, 26, r);
    r := Turn(m, h, 27, r);
    r := Turn(m, h, 28, r);
    r := Turn(m, h, 29, r);
    r := Turn(m, h, 30, r);
    r := Turn(m, h, 31, r);
    r := Turn(m, h, 32, r);
    r := Turn(m, h, 33, r);
    r := Turn(m, h, 34, r);
    r := Turn(m, h, 35, r);
    r := Turn(m, h, 36, r);
    r := Turn(m, h, 37, r);
    r := Turn(m, h, 38, r);
    r := Turn(m, h, 39, r);
  }

  lemma Abc60(m: bytes)
    requires AbcBlock(m)
    ensures At(m, Regs(0x67452301, 0xefcdab89, 0x98badcfe, 0x10325476, 0xc3d2e1f0), 60,
               Regs(0x3f52de5a, 0x09d785fd, 0x3498bfd4, 0xf211824f, 0xd79915ab))
    ensures Words(m, 44, 0xe2ba3c2b, 0x000060c0, 0x053a37cd, 0x74458547, 0xda9415ed, 0x26380a16, 0x626383a1, 0x4ebf54de,
                      0x3835b44b, 0x0000f600, 0x1e84c7a3, 0x98e04d98, 0x651d16a0, 0x62658ca1, 0x458544d6, 0x44584cb7)
  {
    hide W, At;
    var h := Regs(0x67452301, 0xefcdab89, 0x98badcfe, 0x10325476, 0xc3d2e1f0);
    Abc40(m);
    var r := Regs(0x32de1cba, 0x4c986405, 0xf718e5cf, 0x03d447f6, 0xf72eec32);
    r := Turn(m, h, 40, r);
    r := Turn(m, h, 41, r);
    r := Turn(m, h, 42, r);
    r := Turn(m, h, 43, r);
    r := Turn(m, h, 44, r);
    r := Turn(m, h, 45, r);
    r := Turn(m, h, 46, r);
    r := Turn(m, h, 47, r);
    r := Turn(m, h, 48, r);
    r := Turn(m, h, 49, r);
    r := Turn(m, h, 50, r);
    r := Turn(m, h, 51, r);
    r := Turn(m, h, 52, r);
    r := Turn(m, h, 53, r);
    r := Turn(m, h, 54, r);
    r := Turn(m, h, 55, r);
    r := Turn(m, h, 56, r);
    r := Turn(m, h, 57, r);
    r := Turn(m, h, 58, r);
    r := Turn(m, h, 59, r);
  }

  lemma Abc80(m: bytes)
    requires AbcBlock(m)
    ensures At(m, Regs(0x67452301, 0xefcdab89, 0x98badcfe, 0x10325476, 0xc3d2e1f0), 80,
               Regs(0x42541b35, 0x5738d5e1, 0x21834873, 0x681e6df6, 0xd8fdf6ad))
    ensures Words(m, 64, 0x7cd45c9d, 0x000f0000, 0xfb50753a, 0xec6765e8, 0xba3c2be2, 0x0060c000, 0x3a37cd05, 0x458546f4,
                      0xb8599dd6, 0x380a1a26, 0x01e02203, 0xe7cc3456, 0xe6e60b69, 0x00f60a00, 0x5795ef4f, 0x822e0879)
  {
    hide W, At;
    var h := Regs(0x67452301, 0xefcdab89, 0x98badcfe, 0x10325476, 0xc3d2e1f0);
    Abc60(m);
    var r := Regs(0x3f52de5a, 0x09d785fd, 0x3498bfd4, 0xf211824f, 0xd79915ab);
    r := Turn(m, h, 60, r);
    r := Turn(m, h, 61, r);
    r := Turn(m, h, 62, r);
    r := Turn(m, h, 63, r);
    r := Turn(m, h, 64, r);
    r := Turn(m, h, 65, r);
    r := Turn(m, h, 66, r);
    r := Turn(m, h, 67, r);
    r := Turn(m, h, 68, r);
    r := Turn(m, h, 69, r);
    r := Turn(m, h, 70, r);
    r := Turn(m, h, 71, r);
    r := Turn(m, h, 72, r);
    r := Turn(m, h, 73, r);
    r := Turn(m, h, 74, r);
    r := Turn(m, h, 75, r);
    r := Turn(m, h, 76, r);
    r := Turn(m, h, 77, r);
    r := Turn(m, h, 78, r);
    r := Turn(m, h, 79, r);
  }

  lemma AbcCompressed(m: bytes)
    requires AbcBlock(m)
    ensures Compress(Regs(0x67452301, 0xefcdab89, 0x98badcfe, 0x10325476, 0xc3d2e1f0), m)
         == Regs(0xa9993e36, 0x4706816a, 0xba3e2571, 0x7850c26c, 0x9cd0d89d)
  {
    hide W, Rounds;
    Abc80(m);
  }

  lemma WordOf(m: bytes, t: nat, p: byte, q: byte, r: byte, s: byte)
    requires |m| == 64 && t < 16
    requires m[4 * t] == p && m[4 * t + 1] == q && m[4 * t + 2] == r && m[4 * t + 3] == s
    ensures W(m, t) == ((p as word) << 24) | ((q as word) << 16) | ((r as word) << 8) | (s as word)
  {
  }

  lemma NoBits()
    ensures ((0 as word) << 24) | ((0 as word) << 16) | ((0 as word) << 8) | (0 as word) == 0
  {
  }

  lemma ZeroWords(m: bytes, from: nat, to: nat)
    requires |m| == 64 && to <= 16 && forall i :: 4 * from <= i < 4 * to ==> m[i] == 0
    ensures forall t :: from <= t < to ==> W(m, t) == 0
  {
    hide W;
    forall t | from <= t < to
      ensures W(m, t) == 0
    {
      WordOf(m, t, 0, 0, 0, 0);
      NoBits();
    }
  }

  lemma {:induction false} ZerosAre(k: nat)
    ensures forall i :: 0 <= i < k ==> Zeros(k)[i] == 0
  {
    if k > 0 {
      ZerosAre(k - 1);
    }
  }

  const ABC: bytes := [97, 98, 99]

  /** The bytes of a padded message of fewer than 8192 bytes. */
  lemma PadBytes(msg: bytes, hi: byte, lo: byte)
    requires 8 * |msg| == 256 * (hi as int) + (lo as int)
    ensures
      var m, n := Pad(msg), |msg|;
      && m[..n] == msg && m[n] == 0x80 && (forall i :: n < i < |m| - 2 ==> m[i] == 0)
      && m[|m| - 2] == hi && m[|m| - 1] == lo
  {
    hide Zeros, BeBytes, ZeroCount, PadBlocks;
    var z := ZeroCount(|msg|);
    ZerosAre(z);
    LengthBytes(8 * |msg|, hi, lo);
    var m, k := Pad(msg), |msg| + 1 + z;
    assert m == msg + [0x80] + Zeros(z) + BeBytes(8 * |msg|, 8);
    Slices(msg, [0x80], Zeros(z), BeBytes(8 * |msg|, 8));
    forall i | |msg| < i < |m| - 2
      ensures m[i] == 0
    {
      if i < k {
        Inside(msg + [0x80], Zeros(z), BeBytes(8 * |msg|, 8), i);
      } else {
        Inside(msg + [0x80] + Zeros(z), BeBytes(8 * |msg|, 8), [], i);
        assert m + [] == m;
      }
    }
  }

  lemma Inside(a: bytes, b: bytes, c: bytes, i: nat)
    requires |a| <= i < |a| + |b|
    ensures (a + b + c)[i] == b[i - |a|]
  {
  }

  lemma AbcPadded()
    ensures |Pad(ABC)| == 64 && AbcBlock(Pad(ABC))
  {
    PadBytes(ABC, 0, 24);
    assert PadBlocks(3) == 1;
    var m := Pad(ABC);
    assert m[0] == m[..3][0] && m[1] == m[..3][1] && m[2] == m[..3][2];
    AbcWords(m);
  }

  lemma AbcWords(m: bytes)
    requires |m| == 64 && m[0] == 97 && m[1] == 98 && m[2] == 99 && m[3] == 0x80 && m[62] == 0 && m[63] == 24
    requires forall i :: 4 <= i < 62 ==> m[i] == 0
    ensures AbcBlock(m)
  {
    hide W;
    WordOf(m, 0, 97, 98, 99, 0x80);
    ZeroWords(m, 1, 15);
    WordOf(m, 15, 0, 0, 0, 24);
  }

  lemma LengthBytes(n: nat, hi: byte, lo: byte)
    requires n == 256 * (hi as int) + (lo as int)
    ensures BeBytes(n, 8) == [0, 0, 0, 0, 0, 0, hi, lo]
  {
    var z := BeBytes(0, 0);
    assert BeBytes(0, 6) == BeBytes(0, 5) + [0];
    assert BeBytes(0, 5) == BeBytes(0, 4) + [0];
    assert BeBytes(0, 4) == BeBytes(0, 3) + [0];
    assert BeBytes(0, 3) == BeBytes(0, 2) + [0];
    assert BeBytes(0, 2) == BeBytes(0, 1) + [0];
    assert BeBytes(n, 8) == BeBytes(n / 256, 7) + [lo];
    assert BeBytes(n / 256, 7) == BeBytes(0, 6) + [hi];
  }

  lemma ByteOf24(w: word)
    ensures ByteOf(w, 24) == ((w >> 24) & 0xff) as int
  {
    assert (w >> 24) & 0xff <= 0xff;
  }

  lemma ByteOf16(w: word)
    ensures ByteOf(w, 16) == ((w >> 16) & 0xff) as int
  {
    assert (w >> 16) & 0xff <= 0xff;
  }

  lemma ByteOf8(w: word)
    ensures ByteOf(w, 8) == ((w >> 8) & 0xff) as int
  {
    assert (w >> 8) & 0xff <= 0xff;
  }

  lemma ByteOf0(w: word)
    ensures ByteOf(w, 0) == ((w >> 0) & 0xff) as int
  {
    assert (w >> 0) & 0xff <= 0xff;
  }

  lemma BytesOf(w: word)
    ensures WordBytes(w) == [((w >> 24) & 0xff) as int, ((w >> 16) & 0xff) as int, ((w >> 8) & 0xff) as int,
                             ((w >> 0) & 0xff) as int]
  {
    hide ByteOf;
    ByteOf24(w);
    ByteOf16(w);
    ByteOf8(w);
    ByteOf0(w);
  }

  lemma DigestIs(r: Regs)
    ensures Digest(r) == WordBytes(r.a) + WordBytes(r.b) + WordBytes(r.c) + WordBytes(r.d) + WordBytes(r.e)
  {
    hide WordBytes;
    DigestStep(r, 0);
    DigestStep(r, 1);
    DigestStep(r, 2);
    DigestStep(r, 3);
    DigestStep(r, 4);
  }

  lemma HashStart(s: bytes)
    ensures HashBlocks(s, 0) == H0
  {
  }

  lemma AbcBytes0()
    ensures WordBytes(0xa9993e36) == [0xa9, 0x99, 0x3e, 0x36]
  {
    hide WordBytes;
    BytesOf(0xa9993e36);
  }

  lemma AbcBytes1()
    ensures WordBytes(0x4706816a) == [0x47, 0x06, 0x81, 0x6a]
  {
    hide WordBytes;
    BytesOf(0x4706816a);
  }

  lemma AbcBytes2()
    ensures WordBytes(0xba3e2571) == [0xba, 0x3e, 0x25, 0x71]
  {
    hide WordBytes;
    BytesOf(0xba3e2571);
  }

  lemma AbcBytes3()
    ensures WordBytes(0x7850c26c) == [0x78, 0x50, 0xc2, 0x6c]
  {
    hide WordBytes;
    BytesOf(0x7850c26c);
  }

  lemma AbcBytes4()
    ensures WordBytes(0x9cd0d89d) == [0x9c, 0xd0, 0xd8, 0x9d]
  {
    hide WordBytes;
    BytesOf(0x9cd0d89d);
  }

  /** The first sample of section 7.3 of RFC 3174. */
  lemma AbcDigest()
    ensures Hash(ABC) == [0xa9, 0x99, 0x3e, 0x36, 0x47, 0x06, 0x81, 0x6a, 0xba, 0x3e,
                          0x25, 0x71, 0x78, 0x50, 0xc2, 0x6c, 0x9c, 0xd0, 0xd8, 0x9d]
  {
    hide Compress, WordBytes, Pad, HashBlocks, Digest, AbcBlock, Rounds, W, ABC;
    AbcPadded();
    AbcBytes0();
    AbcBytes1();
    AbcBytes2();
    AbcBytes3();
    AbcBytes4();
    var m := Pad(ABC);
    assert m[0..64] == m;
    AbcCompressed(m);
    HashStart(m);
    HashBlocksNext(m, 0);
    DigestIs(HashBlocks(m, 1));
  }

  // ---------------------------------------------------------------------
  // The sample handshake of section 1.3 of RFC 6455
  // ---------------------------------------------------------------------

  const KEY := "dGhlIHNhbXBsZSBub25jZQ=="

  lemma KeyLetters0()
    ensures
      var s := Ascii(KEY);
      && |s| == 24
      && s[0] == 100 && s[1] == 71 && s[2] == 104 && s[3] == 108 && s[4] == 73 && s[5] == 72
  {
  }

  lemma KeyLetters1()
    ensures
      var s := Ascii(KEY);
      && |s| == 24
      && s[6] == 78 && s[7] == 104 && s[8] == 98 && s[9] == 88 && s[10] == 66 && s[11] == 115
  {
  }

  lemma KeyLetters2()
    ensures
      var s := Ascii(KEY);
      && |s| == 24
      && s[12] == 90 && s[13] == 83 && s[14] == 66 && s[15] == 117 && s[16] == 98 && s[17] == 50
  {
  }

  lemma KeyLetters3()
    ensures
      var s := Ascii(KEY);
      && |s| == 24
      && s[18] == 53 && s[19] == 106 && s[20] == 90 && s[21] == 81 && s[22] == 61 && s[23] == 61
  {
  }

  lemma GuidLetters0()
    ensures
      var s := Ascii(GUID);
      && |s| == 36
      && s[0] == 50 && s[1] == 53 && s[2] == 56 && s[3] == 69 && s[4] == 65 && s[5] == 70
  {
  }

  lemma GuidLetters1()
    ensures
      var s := Ascii(GUID);
      && |s| == 36
      && s[6] == 65 && s[7] == 53 && s[8] == 45 && s[9] == 69 && s[10] == 57 && s[11] == 49
  {
  }

  lemma GuidLetters2()
    ensures
      var s := Ascii(GUID);
      && |s| == 36
      && s[12] == 52 && s[13] == 45 && s[14] == 52 && s[15] == 55 && s[16] == 68 && s[17] == 65
  {
  }

  lemma GuidLetters3()
    ensures
      var s := Ascii(GUID);
      && |s| == 36
      && s[18] == 45 && s[19] == 57 && s[20] == 53 && s[21] == 67 && s[22] == 65 && s[23] == 45
  {
  }

  lemma GuidLetters4()
    ensures
      var s := Ascii(GUID);
      && |s| == 36
      && s[24] == 67 && s[25] == 53 && s[26] == 65 && s[27] == 66 && s[28] == 48 && s[29] == 68
  {
  }

  lemma GuidLetters5()
    ensures
      var s := Ascii(GUID);
      && |s| == 36
      && s[30] == 67 && s[31] == 56 && s[32] == 53 && s[33] == 66 && s[34] == 49 && s[35] == 49
  {
  }

  /** The first padded block of the key and the GUID. */
  ghost predicate FirstBlock(m: bytes) {
    Words(m, 0, 0x6447686c, 0x49484e68, 0x62584273, 0x5a534275, 0x6232356a, 0x5a513d3d, 0x32353845, 0x41464135,
                0x2d453931, 0x342d3437, 0x44412d39, 0x3543412d, 0x43354142, 0x30444338, 0x35423131, 0x80000000)
  }

  lemma First20(m: bytes)
    requires FirstBlock(m)
    ensures At(m, Regs(0x67452301, 0xefcdab89, 0x98badcfe, 0x10325476, 0xc3d2e1f0), 20,
               Regs(0x091ab97c, 0x8dc510b6, 0xdfaeca5a, 0x75f6bd5d, 0x2801311a))
    ensures Words(m, 4, 0x6232356a, 0x5a513d3d, 0x32353845, 0x41464135, 0x2d453931, 0x342d3437, 0x44412d39, 0x3543412d,
                      0x43354142, 0x30444338, 0x35423131, 0x80000000, 0x363ca02c, 0x24e81236, 0x8856b441, 0x06fb3c92)
  {
    hide W, At;
    var h := Regs(0x67452301, 0xefcdab89, 0x98badcfe, 0x10325476, 0xc3d2e1f0);
    AtStart(m, h);
    var r := h;
    r := Turn(m, h, 0, r);
    r := Turn(m, h, 1, r);
    r := Turn(m, h, 2, r);
    r := Turn(m, h, 3, r);
    r := Turn(m, h, 4, r);
    r := Turn(m, h, 5, r);
    r := Turn(m, h, 6, r);
    r := Turn(m, h, 7, r);
    r := Turn(m, h, 8, r);
    r := Turn(m, h, 9, r);
    r := Turn(m, h, 10, r);
    r := Turn(m, h, 11, r);
    r := Turn(m, h, 12, r);
    r := Turn(m, h, 13, r);
    r := Turn(m, h, 14, r);
    r := Turn(m, h, 15, r);
    r := Turn(m, h, 16, r);
    r := Turn(m, h, 17, r);
    r := Turn(m, h, 18, r);
    r := Turn(m, h, 19, r);
  }

  lemma First40(m: bytes)
    requires FirstBlock(m)
    ensures At(m, Regs(0x67452301, 0xefcdab89, 0x98badcfe, 0x10325476, 0xc3d2e1f0), 40,
               Regs(0x2ba2c83e, 0xd0869081, 0x1a1d8209, 0xd3334889, 0x2779e4f2))
    ensures Words(m, 24, 0x3267458e, 0xf828fd04, 0x753a96a7, 0x6336f612, 0xc3d66383, 0x06eb86f9, 0x73b4fd42, 0xa503c5b8,
                      0x15cdae35, 0x531e5dc5, 0x6fb6b7d0, 0x6c16e4ac, 0x4ddd36bd, 0x35d36946, 0xe8ae8b9c, 0x4a933ad0)
  {
    hide W, At;
    var h := Regs(0x67452301, 0xefcdab89, 0x98badcfe, 0x10325476, 0xc3d2e1f0);
    First20(m);
    var r := Regs(0x091ab97c, 0x8dc510b6, 0xdfaeca5a, 0x75f6bd5d, 0x2801311a);
    r := Turn(m, h, 20, r);
    r := Turn(m, h, 21, r);
    r := Turn(m, h, 22, r);
    r := Turn(m, h, 23, r);
    r := Turn(m, h, 24, r);
    r := Turn(m, h, 25, r);
    r := Turn(m, h, 26, r);
    r := Turn(m, h, 27, r);
    r := Turn(m, h, 28, r);
    r := Turn(m, h, 29, r);
    r := Turn(m, h, 30, r);
    r := Turn(m, h, 31, r);
    r := Turn(m, h, 32, r);
    r := Turn(m, h, 33, r);
    r := Turn(m, h, 34, r);
    r := Turn(m, h, 35, r);
    r := Turn(m, h, 36, r);
    r := Turn(m, h, 37, r);
    r := Turn(m, h, 38, r);
    r := Turn(m, h, 39, r);
  }

  lemma First60(m: bytes)
    requires FirstBlock(m)
    ensures At(m, Regs(0x67452301, 0xefcdab89, 0x98badcfe, 0x10325476, 0xc3d2e1f0), 60,
               Regs(0x4872d85a, 0xd284f163, 0x83091f0b, 0x1bbdbfbd, 0x9f8490bc))
    ensures Words(m, 44, 0x79c425c5, 0x6353b49d, 0x00994218, 0x8a950ed1, 0xaf5d0b99, 0xfd9883de, 0x1ed8ffeb, 0xf007ff28,
                      0x425e3674, 0x059631c0, 0xad6c3c31, 0x860b71d7, 0x87bfc548, 0x3e64f92d, 0x8d0ab761, 0x34e1ee35)
  {
    hide W, At;
    var h := Regs(0x67452301, 0xefcdab89, 0x98badcfe, 0x10325476, 0xc3d2e1f0);
    First40(m);
    var r := Regs(0x2ba2c83e, 0xd0869081, 0x1a1d8209, 0xd3334889, 0x2779e4f2);
    r := Turn(m, h, 40, r);
    r := Turn(m, h, 41, r);
    r := Turn(m, h, 42, r);
    r := Turn(m, h, 43, r);
    r := Turn(m, h, 44, r);
    r := Turn(m, h, 45, r);
    r := Turn(m, h, 46, r);
    r := Turn(m, h, 47, r);
    r := Turn(m, h, 48, r);
    r := Turn(m, h, 49, r);
    r := Turn(m, h, 50, r);
    r := Turn(m, h, 51, r);
    r := Turn(m, h, 52, r);
    r := Turn(m, h, 53, r);
    r := Turn(m, h, 54, r);
    r := Turn(m, h, 55, r);
    r := Turn(m, h, 56, r);
    r := Turn(m, h, 57, r);
    r := Turn(m, h, 58, r);
    r := Turn(m, h, 59, r);
  }

  lemma First80(m: bytes)
    requires FirstBlock(m)
    ensures At(m, Regs(0x67452301, 0xefcdab89, 0x98badcfe, 0x10325476, 0xc3d2e1f0), 80,
               Regs(0xf48a5426, 0x835995e1, 0x25c11efb, 0x4a45c402, 0x9a73c2f2))
    ensures Words(m, 64, 0xe91c91c1, 0xbed165a2, 0x4c3e4abe, 0x50d96238, 0xb6587dde, 0x1a2ee6e6, 0x2d335896, 0xf3495d0b,
                      0xf30e0a1d, 0x32ce5459, 0x7165e3b8, 0xab05ff94, 0xc5949f0b, 0xbcd84e4a, 0x07720392, 0xff3ff806)
  {
    hide W, At;
    var h := Regs(0x67452301, 0xefcdab89, 0x98badcfe, 0x10325476, 0xc3d2e1f0);
    First60(m);
    var r := Regs(0x4872d85a, 0xd284f163, 0x83091f0b, 0x1bbdbfbd, 0x9f8490bc);
    r := Turn(m, h, 60, r);
    r := Turn(m, h, 61, r);
    r := Turn(m, h, 62, r);
    r := Turn(m, h, 63, r);
    r := Turn(m, h, 64, r);
    r := Turn(m, h, 65, r);
    r := Turn(m, h, 66, r);
    r := Turn(m, h, 67, r);
    r := Turn(m, h, 68, r);
    r := Turn(m, h, 69, r);
    r := Turn(m, h, 70, r);
    r := Turn(m, h, 71, r);
    r := Turn(m, h, 72, r);
    r := Turn(m, h, 73, r);
    r := Turn(m, h, 74, r);
    r := Turn(m, h, 75, r);
    r := Turn(m, h, 76, r);
    r := Turn(m, h, 77, r);
    r := Turn(m, h, 78, r);
    r := Turn(m, h, 79, r);
  }

  lemma FirstCompressed(m: bytes)
    requires FirstBlock(m)
    ensures Compress(Regs(0x67452301, 0xefcdab89, 0x98badcfe, 0x10325476, 0xc3d2e1f0), m)
         == Regs(0x5bcf7727, 0x7327416a, 0xbe7bfbf9, 0x5a781878, 0x5e46a4e2)
  {
    hide W, Rounds;
    First80(m);
  }

  /** The second block: the end of the padding. */
  ghost predicate SecondBlock(m: bytes) {
    Words(m, 0, 0x00000000, 0x00000000, 0x00000000, 0x00000000, 0x00000000, 0x00000000, 0x00000000, 0x00000000,
                0x00000000, 0x00000000, 0x00000000, 0x00000000, 0x00000000, 0x00000000, 0x00000000, 0x000001e0)
  }

  lemma Second20(m: bytes)
    requires SecondBlock(m)
    ensures At(m, Regs(0x5bcf7727, 0x7327416a, 0xbe7bfbf9, 0x5a781878, 0x5e46a4e2), 20,
               Regs(0x2a008b51, 0x2f193a09, 0x9c8663c1, 0x8eb5d103, 0x261b7c9a))
    ensures Words(m, 4, 0x00000000, 0x00000000, 0x00000000, 0x00000000, 0x00000000, 0x00000000, 0x00000000, 0x00000000,
                      0x00000000, 0x00000000, 0x00000000, 0x000001e0, 0x00000000, 0x00000000, 0x000003c0, 0x00000000)
  {
    hide W, At;
    var h := Regs(0x5bcf7727, 0x7327416a, 0xbe7bfbf9, 0x5a781878, 0x5e46a4e2);
    AtStart(m, h);
    var r := h;
    r := Turn(m, h, 0, r);
    r := Turn(m, h, 1, r);
    r := Turn(m, h, 2, r);
    r := Turn(m, h, 3, r);
    r := Turn(m, h, 4, r);
    r := Turn(m, h, 5, r);
    r := Turn(m, h, 6, r);
    r := Turn(m, h, 7, r);
    r := Turn(m, h, 8, r);
    r := Turn(m, h, 9, r);
    r := Turn(m, h, 10, r);
    r := Turn(m, h, 11, r);
    r := Turn(m, h, 12, r);
    r := Turn(m, h, 13, r);
    r := Turn(m, h, 14, r);
    r := Turn(m, h, 15, r);
    r := Turn(m, h, 16, r);
    r := Turn(m, h, 17, r);
    r := Turn(m, h, 18, r);
    r := Turn(m, h, 19, r);
  }

  lemma Second40(m: bytes)
    requires SecondBlock(m)
    ensures At(m, Regs(0x5bcf7727, 0x7327416a, 0xbe7bfbf9, 0x5a781878, 0x5e46a4e2), 40,
               Regs(0x6f698f1a, 0xc6ff0cd3, 0xde5ab7bc, 0x5f6f3cbb, 0x1da48a85))
    ensures Words(m, 24, 0x00000f00, 0x00000000, 0x00000000, 0x00001e00, 0x00000000, 0x00000cc0, 0x00003c00, 0x00000440,
                      0x00000000, 0x00007800, 0x00000f00, 0x00003300, 0x0000f000, 0x00000f00, 0x00000000, 0x0001ef00)
  {
    hide W, At;
    var h := Regs(0x5bcf7727, 0x7327416a, 0xbe7bfbf9, 0x5a781878, 0x5e46a4e2);
    Second20(m);
    var r := Regs(0x2a008b51, 0x2f193a09, 0x9c8663c1, 0x8eb5d103, 0x261b7c9a);
    r := Turn(m, h, 20, r);
    r := Turn(m, h, 21, r);
    r := Turn(m, h, 22, r);
    r := Turn(m, h, 23, r);
    r := Turn(m, h, 24, r);
    r := Turn(m, h, 25, r);
    r := Turn(m, h, 26, r);
    r := Turn(m, h, 27, r);
    r := Turn(m, h, 28, r);
    r := Turn(m, h, 29, r);
    r := Turn(m, h, 30, r);
    r := Turn(m, h, 31, r);
    r := Turn(m, h, 32, r);
    r := Turn(m, h, 33, r);
    r := Turn(m, h, 34, r);
    r := Turn(m, h, 35, r);
    r := Turn(m, h, 36, r);
    r := Turn(m, h, 37, r);
    r := Turn(m, h, 38, r);
    r := Turn(m, h, 39, r);
  }

  lemma Second60(m: bytes)
    requires SecondBlock(m)
    ensures At(m, Regs(0x5bcf7727, 0x7327416a, 0xbe7bfbf9, 0x5a781878, 0x5e46a4e2), 60,
               Regs(0x56119f19, 0x085eb2fe, 0x484a25c5, 0xc140cfe8, 0x686da050))
    ensures Words(m, 44, 0x00000000, 0x00078f00, 0x0000ff00, 0x00032680, 0x000f0000, 0x0000f000, 0x00003300, 0x001eff00,
                      0x00000000, 0x000cb800, 0x003c0000, 0x00040b00, 0x0000f000, 0x0078ff00, 0x000ff000, 0x00338700)
  {
    hide W, At;
    var h := Regs(0x5bcf7727, 0x7327416a, 0xbe7bfbf9, 0x5a781878, 0x5e46a4e2);
    Second40(m);
    var r := Regs(0x6f698f1a, 0xc6ff0cd3, 0xde5ab7bc, 0x5f6f3cbb, 0x1da48a85);
    r := Turn(m, h, 40, r);
    r := Turn(m, h, 41, r);
    r := Turn(m, h, 42, r);
    r := Turn(m, h, 43, r);
    r := Turn(m, h, 44, r);
    r := Turn(m, h, 45, r);
    r := Turn(m, h, 46, r);
    r := Turn(m, h, 47, r);
    r := Turn(m, h, 48, r);
    r := Turn(m, h, 49, r);
    r := Turn(m, h, 50, r);
    r := Turn(m, h, 51, r);
    r := Turn(m, h, 52, r);
    r := Turn(m, h, 53, r);
    r := Turn(m, h, 54, r);
    r := Turn(m, h, 55, r);
    r := Turn(m, h, 56, r);
    r := Turn(m, h, 57, r);
    r := Turn(m, h, 58, r);
    r := Turn(m, h, 59, r);
  }

  lemma Second80(m: bytes)
    requires SecondBlock(m)
    ensures At(m, Regs(0x5bcf7727, 0x7327416a, 0xbe7bfbf9, 0x5a781878, 0x5e46a4e2), 80,
               Regs(0x57aad805, 0x4d3b0dac, 0xd27a4a0d, 0x74c040cd, 0x54782008))
    ensures Words(m, 64, 0x00000000, 0x00cc0000, 0x03c0f000, 0x00438000, 0x00000000, 0x078f0000, 0x00ff0000, 0x03269e00,
                      0x0f000000, 0x00f0f000, 0x00333c00, 0x1eff8800, 0x00000000, 0x0cb88800, 0x3c00f000, 0x040a4a00)
  {
    hide W, At;
    var h := Regs(0x5bcf7727, 0x7327416a, 0xbe7bfbf9, 0x5a781878, 0x5e46a4e2);
    Second60(m);
    var r := Regs(0x56119f19, 0x085eb2fe, 0x484a25c5, 0xc140cfe8, 0x686da050);
    r := Turn(m, h, 60, r);
    r := Turn(m, h, 61, r);
    r := Turn(m, h, 62, r);
    r := Turn(m, h, 63, r);
    r := Turn(m, h, 64, r);
    r := Turn(m, h, 65, r);
    r := Turn(m, h, 66, r);
    r := Turn(m, h, 67, r);
    r := Turn(m, h, 68, r);
    r := Turn(m, h, 69, r);
    r := Turn(m, h, 70, r);
    r := Turn(m, h, 71, r);
    r := Turn(m, h, 72, r);
    r := Turn(m, h, 73, r);
    r := Turn(m, h, 74, r);
    r := Turn(m, h, 75, r);
    r := Turn(m, h, 76, r);
    r := Turn(m, h, 77, r);
    r := Turn(m, h, 78, r);
    r := Turn(m, h, 79, r);
  }

  lemma SecondCompressed(m: bytes)
    requires SecondBlock(m)
    ensures Compress(Regs(0x5bcf7727, 0x7327416a, 0xbe7bfbf9, 0x5a781878, 0x5e46a4e2), m)
         == Regs(0xb37a4f2c, 0xc0624f16, 0x90f64606, 0xcf385945, 0xb2bec4ea)
  {
    hide W, Rounds;
    Second80(m);
  }

  /** The key and the GUID. */
  ghost predicate KeyText(s: bytes) {
    && |s| >= 60
    && s[0] == 100 && s[1] == 71 && s[2] == 104 && s[3] == 108 && s[4] == 73 && s[5] == 72
    && s[6] == 78 && s[7] == 104 && s[8] == 98 && s[9] == 88 && s[10] == 66 && s[11] == 115
    && s[12] == 90 && s[13] == 83 && s[14] == 66 && s[15] == 117 && s[16] == 98 && s[17] == 50
    && s[18] == 53 && s[19] == 106 && s[20] == 90 && s[21] == 81 && s[22] == 61 && s[23] == 61
    && s[24] == 50 && s[25] == 53 && s[26] == 56 && s[27] == 69 && s[28] == 65 && s[29] == 70
    && s[30] == 65 && s[31] == 53 && s[32] == 45 && s[33] == 69 && s[34] == 57 && s[35] == 49
    && s[36] == 52 && s[37] == 45 && s[38] == 52 && s[39] == 55 && s[40] == 68 && s[41] == 65
    && s[42] == 45 && s[43] == 57 && s[44] == 53 && s[45] == 67 && s[46] == 65 && s[47] == 45
    && s[48] == 67 && s[49] == 53 && s[50] == 65 && s[51] == 66 && s[52] == 48 && s[53] == 68
    && s[54] == 67 && s[55] == 56 && s[56] == 53 && s[57] == 66 && s[58] == 49 && s[59] == 49
  }

  lemma FirstWords0(m: bytes)
    requires |m| == 64
    requires m[0] == 100 && m[1] == 71 && m[2] == 104 && m[3] == 108
    requires m[4] == 73 && m[5] == 72 && m[6] == 78 && m[7] == 104
    ensures W(m, 0) == 0x6447686c
            && W(m, 1) == 0x49484e68
  {
    hide W;
    WordOf(m, 0, 100, 71, 104, 108);
    WordOf(m, 1, 73, 72, 78, 104);
  }

  lemma FirstWords1(m: bytes)
    requires |m| == 64
    requires m[8] == 98 && m[9] == 88 && m[10] == 66 && m[11] == 115
    requires m[12] == 90 && m[13] == 83 && m[14] == 66 && m[15] == 117
    ensures W(m, 2) == 0x62584273
            && W(m, 3) == 0x5a534275
  {
    hide W;
    WordOf(m, 2, 98, 88, 66, 115);
    WordOf(m, 3, 90, 83, 66, 117);
  }

  lemma FirstWords2(m: bytes)
    requires |m| == 64
    requires m[16] == 98 && m[17] == 50 && m[18] == 53 && m[19] == 106
    requires m[20] == 90 && m[21] == 81 && m[22] == 61 && m[23] == 61
    ensures W(m, 4) == 0x6232356a
            && W(m, 5) == 0x5a513d3d
  {
    hide W;
    WordOf(m, 4, 98, 50, 53, 106);
    WordOf(m, 5, 90, 81, 61, 61);
  }

  lemma FirstWords3(m: bytes)
    requires |m| == 64
    requires m[24] == 50 && m[25] == 53 && m[26] == 56 && m[27] == 69
    requires m[28] == 65 && m[29] == 70 && m[30] == 65 && m[31] == 53
    ensures W(m, 6) == 0x32353845
            && W(m, 7) == 0x41464135
  {
    hide W;
    WordOf(m, 6, 50, 53, 56, 69);
    WordOf(m, 7, 65, 70, 65, 53);
  }

  lemma FirstWords4(m: bytes)
    requires |m| == 64
    requires m[32] == 45 && m[33] == 69 && m[34] == 57 && m[35] == 49
    requires m[36] == 52 && m[37] == 45 && m[38] == 52 && m[39] == 55
    ensures W(m, 8) == 0x2d453931
            && W(m, 9) == 0x342d3437
  {
    hide W;
    WordOf(m, 8, 45, 69, 57, 49);
    WordOf(m, 9, 52, 45, 52, 55);
  }

  lemma FirstWords5(m: bytes)
    requires |m| == 64
    requires m[40] == 68 && m[41] == 65 && m[42] == 45 && m[43] == 57
    requires m[44] == 53 && m[45] == 67 && m[46] == 65 && m[47] == 45
    ensures W(m, 10) == 0x44412d39
            && W(m, 11) == 0x3543412d
  {
    hide W;
    WordOf(m, 10, 68, 65, 45, 57);
    WordOf(m, 11, 53, 67, 65, 45);
  }

  lemma FirstWords6(m: bytes)
    requires |m| == 64
    requires m[48] == 67 && m[49] == 53 && m[50] == 65 && m[51] == 66
    requires m[52] == 48 && m[53] == 68 && m[54] == 67 && m[55] == 56
    requires m[56] == 53 && m[57] == 66 && m[58] == 49 && m[59] == 49
    ensures W(m, 12) == 0x43354142
            && W(m, 13) == 0x30444338
            && W(m, 14) == 0x35423131
  {
    hide W;
    WordOf(m, 12, 67, 53, 65, 66);
    WordOf(m, 13, 48, 68, 67, 56);
    WordOf(m, 14, 53, 66, 49, 49);
  }

  lemma FirstIsBlock(m: bytes)
    requires |m| == 64 && KeyText(m) && m[60] == 0x80 && m[61] == m[62] == m[63] == 0
    ensures FirstBlock(m)
  {
    hide W;
    FirstWords0(m);
    FirstWords1(m);
    FirstWords2(m);
    FirstWords3(m);
    FirstWords4(m);
    FirstWords5(m);
    FirstWords6(m);
    WordOf(m, 15, 0x80, 0, 0, 0);
  }

  lemma SecondIsBlock(m: bytes)
    requires |m| == 64 && m[62] == 1 && m[63] == 0xe0 && forall i :: 0 <= i < 62 ==> m[i] == 0
    ensures SecondBlock(m)
  {
    hide W;
    ZeroWords(m, 0, 15);
    WordOf(m, 15, 0, 0, 1, 0xe0);
  }

  lemma KeyPadded(s: bytes)
    requires |s| == 60 && KeyText(s)
    ensures |Pad(s)| == 128 && FirstBlock(Pad(s)[..64]) && SecondBlock(Pad(s)[64..])
  {
    hide KeyText, FirstBlock, SecondBlock, Pad;
    PadBytes(s, 1, 0xe0);
    var m := Pad(s);
    assert m[..64][..60] == m[..60] == s;
    KeyTextPrefix(s, m[..64]);
    FirstIsBlock(m[..64]);
    SecondIsBlock(m[64..]);
  }

  lemma KeyTextPrefix(s: bytes, m: bytes)
    requires KeyText(s) && |s| == 60 <= |m| && m[..60] == s
    ensures KeyText(m)
  {
    assert forall i :: 0 <= i < 60 ==> m[i] == m[..60][i];
  }

  lemma KeyBytes0()
    ensures WordBytes(0xb37a4f2c) == [0xb3, 0x7a, 0x4f, 0x2c]
  {
    hide WordBytes;
    BytesOf(0xb37a4f2c);
  }

  lemma KeyBytes1()
    ensures WordBytes(0xc0624f16) == [0xc0, 0x62, 0x4f, 0x16]
  {
    hide WordBytes;
    BytesOf(0xc0624f16);
  }

  lemma KeyBytes2()
    ensures WordBytes(0x90f64606) == [0x90, 0xf6, 0x46, 0x06]
  {
    hide WordBytes;
    BytesOf(0x90f64606);
  }

  lemma KeyBytes3()
    ensures WordBytes(0xcf385945) == [0xcf, 0x38, 0x59, 0x45]
  {
    hide WordBytes;
    BytesOf(0xcf385945);
  }

  lemma KeyBytes4()
    ensures WordBytes(0xb2bec4ea) == [0xb2, 0xbe, 0xc4, 0xea]
  {
    hide WordBytes;
    BytesOf(0xb2bec4ea);
  }

  const KEY_DIGEST: bytes := [0xb3, 0x7a, 0x4f, 0x2c, 0xc0, 0x62, 0x4f, 0x16, 0x90, 0xf6,
                               0x46, 0x06, 0xcf, 0x38, 0x59, 0x45, 0xb2, 0xbe, 0xc4, 0xea]

  lemma KeyDigest(s: bytes)
    requires |s| == 60 && KeyText(s)
    ensures Hash(s) == KEY_DIGEST
  {
    hide Compress, WordBytes, Pad, HashBlocks, Digest, FirstBlock, SecondBlock, Rounds, W, KeyText;
    KeyPadded(s);
    KeyBytes0();
    KeyBytes1();
    KeyBytes2();
    KeyBytes3();
    KeyBytes4();
    var m := Pad(s);
    assert m[0..64] == m[..64] && m[64..128] == m[64..];
    FirstCompressed(m[..64]);
    SecondCompressed(m[64..]);
    HashStart(m);
    HashBlocksNext(m, 0);
    HashBlocksNext(m, 1);
    DigestIs(HashBlocks(m, 2));
  }

  lemma KeyIsText()
    ensures
      var s := CString(Ascii(KEY)) + Ascii(GUID);
      |s| == 60 && KeyText(s)
  {
    hide Ascii, CString;
    assert Plain(KEY);
    PlainAscii(KEY);
    CStringUnique(Ascii(KEY), 24);
    var k, g := Ascii(KEY), Ascii(GUID);
    assert k[..24] == k;
    KeyLetters0();
    KeyLetters1();
    KeyLetters2();
    KeyLetters3();
    GuidLetters0();
    GuidLetters1();
    GuidLetters2();
    GuidLetters3();
    GuidLetters4();
    GuidLetters5();
  }

  // The accept value in Base64.

  lemma OneGroup(p: byte, q: byte, r: byte, rest: bytes)
    requires rest != []
    ensures Base64.Encode([p, q, r] + rest) == Base64.Quad(Base64.Triple(p, q, r)) + Base64.Encode(rest)
  {
    hide Base64.Quad, Base64.Triple;
    assert ([p, q, r] + rest)[3..] == rest;
  }

  lemma KeyGroup0()
    ensures Base64.Quad(Base64.Triple(0xb3, 0x7a, 0x4f)) == [115, 51, 112, 80]
  {
  }

  lemma KeyGroup1()
    ensures Base64.Quad(Base64.Triple(0x2c, 0xc0, 0x62)) == [76, 77, 66, 105]
  {
  }

  lemma KeyGroup2()
    ensures Base64.Quad(Base64.Triple(0x4f, 0x16, 0x90)) == [84, 120, 97, 81]
  {
  }

  lemma KeyGroup3()
    ensures Base64.Quad(Base64.Triple(0xf6, 0x46, 0x06)) == [57, 107, 89, 71]
  {
  }

  lemma KeyGroup4()
    ensures Base64.Quad(Base64.Triple(0xcf, 0x38, 0x59)) == [122, 122, 104, 90]
  {
  }

  lemma KeyGroup5()
    ensures Base64.Quad(Base64.Triple(0x45, 0xb2, 0xbe)) == [82, 98, 75, 43]
  {
  }

  lemma KeyGroup6()
    ensures Base64.Encode([0xc4, 0xea]) == [120, 79, 111, 61]
  {
  }

  const ACCEPT := "s3pPLMBiTxaQ9kYGzzhZRbK+xOo="

  lemma AcceptLetters0()
    ensures
      var s := Ascii(ACCEPT);
      && |s| == 28
      && s[0] == 115 && s[1] == 51 && s[2] == 112 && s[3] == 80 && s[4] == 76 && s[5] == 77
  {
  }

  lemma AcceptLetters1()
    ensures
      var s := Ascii(ACCEPT);
      && |s| == 28
      && s[6] == 66 && s[7] == 105 && s[8] == 84 && s[9] == 120 && s[10] == 97 && s[11] == 81
  {
  }

  lemma AcceptLetters2()
    ensures
      var s := Ascii(ACCEPT);
      && |s| == 28
      && s[12] == 57 && s[13] == 107 && s[14] == 89 && s[15] == 71 && s[16] == 122 && s[17] == 122
  {
  }

  lemma AcceptLetters3()
    ensures
      var s := Ascii(ACCEPT);
      && |s| == 28
      && s[18] == 104 && s[19] == 90 && s[20] == 82 && s[21] == 98 && s[22] == 75 && s[23] == 43
  {
  }

  lemma AcceptLetters4()
    ensures
      var s := Ascii(ACCEPT);
      && |s| == 28
      && s[24] == 120 && s[25] == 79 && s[26] == 111 && s[27] == 61
  {
  }

  lemma KeyDigestEncoded()
    ensures Base64.Encode(KEY_DIGEST) == Ascii(ACCEPT)
  {
    hide Base64.Encode, Base64.Quad, Base64.Triple, Ascii;
    var s6: bytes := [0xc4, 0xea];
    var s5: bytes := [0x45, 0xb2, 0xbe] + s6;
    OneGroup(0x45, 0xb2, 0xbe, s6);
    var s4: bytes := [0xcf, 0x38, 0x59] + s5;
    OneGroup(0xcf, 0x38, 0x59, s5);
    var s3: bytes := [0xf6, 0x46, 0x06] + s4;
    OneGroup(0xf6, 0x46, 0x06, s4);
    var s2: bytes := [0x4f, 0x16, 0x90] + s3;
    OneGroup(0x4f, 0x16, 0x90, s3);
    var s1: bytes := [0x2c, 0xc0, 0x62] + s2;
    OneGroup(0x2c, 0xc0, 0x62, s2);
    var s0: bytes := [0xb3, 0x7a, 0x4f] + s1;
    OneGroup(0xb3, 0x7a, 0x4f, s1);
    KeyGroup0();
    KeyGroup1();
    KeyGroup2();
    KeyGroup3();
    KeyGroup4();
    KeyGroup5();
    KeyGroup6();
    assert s0 == KEY_DIGEST;
    AcceptLetters0();
    AcceptLetters1();
    AcceptLetters2();
    AcceptLetters3();
    AcceptLetters4();
  }

  /** The accept value of section 1.3 of RFC 6455. */
  lemma SampleAccept()
    ensures AcceptValue(Ascii(KEY)) == Ascii(ACCEPT)
  {
    hide Hash, CString, Ascii, Base64.Encode, KeyText;
    KeyIsText();
    KeyDigest(CString(Ascii(KEY)) + Ascii(GUID));
    KeyDigestEncoded();
  }
}
