/** The SHA-1 of src/core/sha1.c against sections 4 and 6.1 of RFC 3174. */
module Sha1 {
  import opened Core

  type word = bv32

  // ---------------------------------------------------------------------
  // RFC 3174
  // ---------------------------------------------------------------------

  // The operations on words are named so that proofs can leave them uninterpreted.

  function Add(x: word, y: word): word { x + y }

  function XorWord(x: word, y: word): word { x ^ y }

  function Rotl(x: word, n: nat): word
    requires n <= 32
  {
    (x << n) | (x >> (32 - n))
  }

  /** Word t of a block, most significant byte first. */
  function BlockWord(block: bytes, t: nat): word
    requires |block| == 64 && t < 16
  {
    ((block[4 * t] as word) << 24) | ((block[4 * t + 1] as word) << 16)
    | ((block[4 * t + 2] as word) << 8) | (block[4 * t + 3] as word)
  }

  /** Word t of the message schedule. */
  function W(block: bytes, t: nat): word
    requires |block| == 64
  {
    if t < 16 then BlockWord(block, t)
    else Rotl(XorWord(XorWord(XorWord(W(block, t - 3), W(block, t - 8)), W(block, t - 14)), W(block, t - 16)), 1)
  }

  function Choose(b: word, c: word, d: word): word { (b & c) | ((!b) & d) }

  function Parity(b: word, c: word, d: word): word { b ^ c ^ d }

  function Majority(b: word, c: word, d: word): word { (b & c) | (b & d) | (c & d) }

  function F(t: nat, b: word, c: word, d: word): word {
    if t < 20 then Choose(b, c, d)
    else if t < 40 then Parity(b, c, d)
    else if t < 60 then Majority(b, c, d)
    else Parity(b, c, d)
  }

  function K(t: nat): word {
    if t < 20 then 0x5a827999
    else if t < 40 then 0x6ed9eba1
    else if t < 60 then 0x8f1bbcdc
    else 0xca62c1d6
  }

  datatype Regs = Regs(a: word, b: word, c: word, d: word, e: word)

  const H0: Regs := Regs(0x67452301, 0xefcdab89, 0x98badcfe, 0x10325476, 0xc3d2e1f0)

  function Round(t: nat, r: Regs, w: word): Regs {
    Regs(Add(Add(Add(Add(Rotl(r.a, 5), F(t, r.b, r.c, r.d)), r.e), K(t)), w), r.a, Rotl(r.b, 30), r.c, r.d)
  }

  /** The registers after the first t rounds on a block. */
  function Rounds(block: bytes, h: Regs, t: nat): Regs
    requires |block| == 64
  {
    if t == 0 then h else Round(t - 1, Rounds(block, h, t - 1), W(block, t - 1))
  }

  function AddRegs(x: Regs, y: Regs): Regs {
    Regs(Add(x.a, y.a), Add(x.b, y.b), Add(x.c, y.c), Add(x.d, y.d), Add(x.e, y.e))
  }

  function Compress(h: Regs, block: bytes): Regs
    requires |block| == 64
  {
    AddRegs(h, Rounds(block, h, 80))
  }

  /** Folds the compression over the first n 64-byte blocks of s. */
  function HashBlocks(s: bytes, n: nat): Regs
    requires 64 * n <= |s|
  {
    if n == 0 then H0 else Compress(HashBlocks(s, n - 1), s[64 * (n - 1)..64 * n])
  }

  lemma {:induction false} HashBlocksExtend(s: bytes, t: bytes, n: nat)
    requires 64 * n <= |s|
    ensures HashBlocks(s + t, n) == HashBlocks(s, n)
  {
    hide Compress;
    if n != 0 {
      HashBlocksExtend(s, t, n - 1);
      assert (s + t)[64 * (n - 1)..64 * n] == s[64 * (n - 1)..64 * n];
    }
  }

  lemma HashBlocksNext(s: bytes, n: nat)
    requires 64 * (n + 1) <= |s|
    ensures HashBlocks(s, n + 1) == Compress(HashBlocks(s, n), s[64 * n..64 * (n + 1)])
  {
    hide Compress;
  }

  function Zeros(k: nat): (z: bytes)
    ensures |z| == k
  {
    if k == 0 then [] else Zeros(k - 1) + [0]
  }

  /** The blocks that hold an n-byte message, a one bit and eight length bytes. */
  function PadBlocks(n: nat): nat {
    (n + 8) / 64 + 1
  }

  function ZeroCount(n: nat): (k: nat)
    ensures k < 64 && n + 9 + k == 64 * PadBlocks(n)
  {
    64 * PadBlocks(n) - 9 - n
  }

  /** A one bit, as few zeros as possible, and the length in bits fill whole blocks.  From
      2^61 bytes on, where RFC 3174 defines no padding, the length field wraps. */
  function Pad(msg: bytes): (s: bytes)
    ensures |s| == 64 * PadBlocks(|msg|)
  {
    msg + [0x80] + Zeros(ZeroCount(|msg|)) + BeBytes(8 * |msg|, 8)
  }

  lemma NoZeros()
    ensures Zeros(0) == []
  {
  }

  lemma OneMoreZero(k: nat)
    requires k > 0
    ensures Zeros(k) == Zeros(k - 1) + [0]
  {
  }

  function WordBytes(w: word): (s: bytes)
    ensures |s| == 4
  {
    [ByteOf(w, 24), ByteOf(w, 16), ByteOf(w, 8), ByteOf(w, 0)]
  }

  /** The byte of w that starts at bit `shift`. */
  function ByteOf(w: word, shift: nat): byte
    requires shift <= 24
  {
    ((w >> shift) & 0xff) as int % 256
  }

  /** The bytes of the first n words. */
  function DigestPrefix(r: Regs, n: nat): (s: bytes)
    requires n <= 5
    ensures |s| == 4 * n
  {
    if n == 0 then []
    else DigestPrefix(r, n - 1) + WordBytes(Reg(r, n - 1))
  }

  function Reg(r: Regs, i: nat): word
    requires i < 5
  {
    if i == 0 then r.a else if i == 1 then r.b else if i == 2 then r.c else if i == 3 then r.d else r.e
  }

  lemma DigestStep(r: Regs, i: nat)
    requires i < 5
    ensures DigestPrefix(r, 0) == []
    ensures DigestPrefix(r, i + 1) == DigestPrefix(r, i) + WordBytes(Reg(r, i))
  {
    hide WordBytes;
  }

  function Digest(r: Regs): (s: bytes)
    ensures |s| == 20
  {
    DigestPrefix(r, 5)
  }

  function Hash(msg: bytes): (s: bytes)
    ensures |s| == 20
  {
    Digest(HashBlocks(Pad(msg), PadBlocks(|msg|)))
  }

  /** The message can be read off its padding: no two messages share one. */
  lemma PadInjective(x: bytes, y: bytes)
    requires |x| < 0x2000_0000_0000_0000 && |y| < 0x2000_0000_0000_0000
    requires Pad(x) == Pad(y)
    ensures x == y
  {
    Pow256Eight();
    BeValueOfBytes(8 * |x|, 8);
    BeValueOfBytes(8 * |y|, 8);
    var p := Pad(x);
    assert p[|p| - 8..] == BeBytes(8 * |x|, 8);
    assert Pad(y)[|p| - 8..] == BeBytes(8 * |y|, 8);
    assert x == p[..|x|] && y == Pad(y)[..|y|];
  }

  // ---------------------------------------------------------------------
  // The context of sha1.c
  // ---------------------------------------------------------------------

  const U64: nat := 0x1_0000_0000_0000_0000

  function AddU64(x: nat, y: nat): nat {
    (x + y) % U64
  }

  lemma AddU64Total(x: nat, y: nat)
    ensures AddU64(x % U64, y) == (x + y) % U64
  {
  }

  /** The wrapped bit length has the same eight low bytes as the true one. */
  lemma WrappedLength(n: nat)
    ensures BeBytes(n % U64 * 8 % U64, 8) == BeBytes(8 * n, 8)
  {
    hide BeBytes;
    var r := n % U64 * 8 % U64;
    assert 8 * n == r + (n / U64 * 8 + n % U64 * 8 / U64) * U64;
    Pow256Eight();
    BeBytesWrap(r, n / U64 * 8 + n % U64 * 8 / U64, 8);
  }

  /** The padding loop stops after exactly the wanted number of zeros: until then the block
      position, which wraps at 64, cannot be 56. */
  lemma PaddingStops(n: nat, k: nat, blocks: nat, blockLen: nat)
    requires n + 1 + k == 64 * blocks + blockLen && blockLen < 64 && k <= ZeroCount(n)
    ensures blockLen == 56 <==> k == ZeroCount(n)
  {
  }

  class Context {
    const state: array<word>
    var totalLen: nat
    const block: array<byte>
    var blockLen: nat
    /** Every byte absorbed so far, and the number of blocks processed. */
    ghost var fed: bytes
    ghost var blocks: nat

    ghost function State(): Regs
      reads state
      requires state.Length == 5
    {
      Regs(state[0], state[1], state[2], state[3], state[4])
    }

    ghost predicate Valid()
      reads this, state, block
    {
      && totalLen == |fed| % U64
      && Absorbing()
    }

    constructor ()
      ensures Valid() && fed == []
      ensures fresh(state) && fresh(block)
    {
      state := new word[5][0x67452301, 0xefcdab89, 0x98badcfe, 0x10325476, 0xc3d2e1f0];
      block := new byte[64](_ => 0);
      totalLen, blockLen, fed, blocks := 0, 0, [], 0;
    }

    method Schedule() returns (w: array<word>)
      requires block.Length == 64
      ensures fresh(w) && w.Length == 80
      ensures forall j :: 0 <= j < 80 ==> w[j] == W(block[..], j)
    {
      hide Rotl, BlockWord, XorWord;
      w := new word[80](_ => 0);
      for i := 0 to 16
        invariant forall j :: 0 <= j < i ==> w[j] == W(block[..], j)
      {
        w[i] := BlockWord(block[..], i);
      }
      for i := 16 to 80
        invariant forall j :: 0 <= j < i ==> w[j] == W(block[..], j)
      {
        w[i] := Rotl(XorWord(XorWord(XorWord(w[i - 3], w[i - 8]), w[i - 14]), w[i - 16]), 1);
      }
    }

    /** Mixes the full block into the state. */
    method Process()
      requires state.Length == 5 && block.Length == 64
      modifies state
      ensures State() == Compress(old(State()), block[..])
    {
      hide Rotl, F, K, W, AddRegs, Add;
      var w := Schedule();
      ghost var h := State();
      var a, b, c, d, e := state[0], state[1], state[2], state[3], state[4];
      for i := 0 to 80
        modifies {}
        invariant Regs(a, b, c, d, e) == Rounds(block[..], h, i)
      {
        var f, k := RoundTerms(i, b, c, d);
        var temp := Add(Add(Add(Add(Rotl(a, 5), f), e), k), w[i]);
        e := d;
        d := c;
        c := Rotl(b, 30);
        b := a;
        a := temp;
      }
      AddTo(a, b, c, d, e);
    }

    static method RoundTerms(i: nat, b: word, c: word, d: word) returns (f: word, k: word)
      requires i < 80
      ensures f == F(i, b, c, d) && k == K(i)
    {
      hide Choose, Parity, Majority;
      if i < 20 {
        f, k := Choose(b, c, d), 0x5a827999;
      } else if i < 40 {
        f, k := Parity(b, c, d), 0x6ed9eba1;
      } else if i < 60 {
        f, k := Majority(b, c, d), 0x8f1bbcdc;
      } else {
        f, k := Parity(b, c, d), 0xca62c1d6;
      }
    }

    method AddTo(a: word, b: word, c: word, d: word, e: word)
      requires state.Length == 5
      modifies state
      ensures State() == AddRegs(old(State()), Regs(a, b, c, d, e))
    {
      hide Add;
      state[0] := Add(state[0], a);
      state[1] := Add(state[1], b);
      state[2] := Add(state[2], c);
      state[3] := Add(state[3], d);
      state[4] := Add(state[4], e);
    }

    /** Absorbs data: the state afterwards depends only on all bytes absorbed, not on the calls. */
    method Update(data: bytes)
      requires Valid()
      modifies this, state, block
      ensures Valid() && fed == old(fed) + data
    {
      hide HashBlocks, AddU64;
      AddU64Total(|fed|, |data|);
      totalLen := AddU64(totalLen, |data|);
      assert data[..0] == [];
      for i := 0 to |data|
        modifies this`blockLen, this`fed, this`blocks, state, block
        invariant Absorbing() && fed == old(fed) + data[..i]
      {
        assert data[..i + 1] == data[..i] + [data[i]];
        Absorb(data[i]);
      }
      assert data[..|data|] == data;
    }

    ghost predicate Absorbing()
      reads this, state, block
    {
      && state.Length == 5 && block.Length == 64
      && blockLen < 64 && |fed| == 64 * blocks + blockLen
      && block[..blockLen] == fed[64 * blocks..]
      && State() == HashBlocks(fed, blocks)
    }

    method Absorb(b: byte)
      requires Absorbing()
      modifies this`blockLen, this`fed, this`blocks, state, block
      ensures Absorbing() && fed == old(fed) + [b]
    {
      hide Compress, HashBlocks;
      ghost var tail := fed[64 * blocks..];
      HashBlocksExtend(fed, [b], blocks);
      block[blockLen] := b;
      blockLen := blockLen + 1;
      fed := fed + [b];
      assert block[..blockLen] == tail + [b] == fed[64 * blocks..];
      if blockLen == 64 {
        Process();
        assert block[..] == fed[64 * blocks..64 * (blocks + 1)];
        HashBlocksNext(fed, blocks);
        blocks := blocks + 1;
        blockLen := 0;
      }
    }

    /** Pads and reads out the digest. */
    method Final(digest: array<byte>)
      requires Valid() && digest.Length == 20
      requires digest != block
      modifies this, state, block, digest
      ensures digest[..] == Hash(old(fed))
    {
      hide HashBlocks, BeBytes, ShiftBytes, Zeros, ZeroCount;
      ghost var msg := fed;
      var bitLen := totalLen * 8 % U64;
      WrappedLength(|msg|);
      Update([0x80]);
      FillBlock(msg);
      PutLength(bitLen);
      assert blocks == PadBlocks(|msg|);
      ReadOut(digest);
    }

    /** The loop that absorbs the length field. */
    method PutLength(bitLen: nat)
      requires Valid()
      modifies this, state, block
      ensures Valid() && fed == old(fed) + BeBytes(bitLen, 8)
    {
      hide HashBlocks, BeBytes, ShiftBytes;
      ghost var field := BeBytes(bitLen, 8);
      for j := 0 to 8
        invariant Valid()
        invariant fed == old(fed) + field[..j]
      {
        BeBytesAt(bitLen, 8, j);
        Update([ShiftBytes(bitLen, 7 - j) % 256]);
        assert field[..j + 1] == field[..j] + [field[j]];
      }
      assert field[..8] == field;
    }

    /** The loop that absorbs zero bytes until eight bytes are left in the block. */
    method FillBlock(ghost msg: bytes)
      requires Valid() && fed == msg + [0x80]
      modifies this, state, block
      ensures Valid() && blockLen == 56
      ensures fed == msg + [0x80] + Zeros(ZeroCount(|msg|))
    {
      hide HashBlocks, ZeroCount, PadBlocks, Zeros;
      ghost var k: nat := 0;
      NoZeros();
      PaddingStops(|msg|, 0, blocks, blockLen);
      while blockLen != 56
        invariant Valid() && k <= ZeroCount(|msg|)
        invariant fed == msg + [0x80] + Zeros(k)
        invariant blockLen == 56 <==> k == ZeroCount(|msg|)
        decreases ZeroCount(|msg|) - k
      {
        Update([0x00]);
        k := k + 1;
        PaddingStops(|msg|, k, blocks, blockLen);
        OneMoreZero(k);
        assert fed == msg + [0x80] + (Zeros(k - 1) + [0]);
      }
    }

    method ReadOut(digest: array<byte>)
      requires state.Length == 5 && digest.Length == 20
      modifies digest
      ensures digest[..] == Digest(State())
    {
      hide WordBytes, DigestPrefix;
      DigestStep(State(), 0);
      for i := 0 to 5
        invariant digest[..4 * i] == DigestPrefix(State(), i)
      {
        DigestStep(State(), i);
        PutWord(digest, 4 * i, state[i]);
      }
      assert digest[..20] == digest[..];
    }

    method PutWord(digest: array<byte>, at: nat, w: word)
      requires at + 4 <= digest.Length
      modifies digest
      ensures digest[..at + 4] == old(digest[..at]) + WordBytes(w)
    {
      hide ByteOf;
      digest[at] := ByteOf(w, 24);
      digest[at + 1] := ByteOf(w, 16);
      digest[at + 2] := ByteOf(w, 8);
      digest[at + 3] := ByteOf(w, 0);
    }
  }

  /** The one-shot entry point. */
  method Sum(input: bytes, digest: array<byte>)
    requires digest.Length == 20
    modifies digest
    ensures digest[..] == Hash(input)
  {
    var ctx := new Context();
    if |input| != 0 {
      ctx.Update(input);
    }
    assert ctx.fed == input;
    ctx.Final(digest);
  }
}
