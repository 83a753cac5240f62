/** Result codes, bytes, exclusive or, and the big-endian fields of src/core/byte_order.c. */
module Core {

  /** The result codes of include/sockify/core.h that the modelled code returns. */
  datatype Status = Ok | Invalid | Overflow | Again | Closed | SysError | Protocol

  type byte = x: int | 0 <= x < 256
  type bytes = seq<byte>

  datatype Option<+T> = None | Some(value: T)

  function Min(a: nat, b: nat): nat {
    if a < b then a else b
  }

  /** Taking a concatenation apart again. */
  lemma Slices<T>(a: seq<T>, b: seq<T>, c: seq<T>, d: seq<T>)
    ensures
      var s := a + b + c + d;
      var i, j := |a| + |b|, |a| + |b| + |c|;
      s == a + (b + c + d) && s[|a|..i] == b && s[i..j] == c && s[j..] == d
  {
  }

  lemma Rejoin<T>(s: seq<T>, i: nat, j: nat, k: nat)
    requires i <= j <= k <= |s|
    ensures s[..k] == s[..i] + s[i..j] + s[j..k]
  {
  }

  /** Chunks in a row. */
  function Flat(chunks: seq<bytes>): bytes {
    if chunks == [] then [] else Flat(chunks[..|chunks| - 1]) + chunks[|chunks| - 1]
  }

  lemma FlatSnoc(chunks: seq<bytes>, chunk: bytes)
    ensures Flat(chunks + [chunk]) == Flat(chunks) + chunk
  {
    assert (chunks + [chunk])[..|chunks|] == chunks;
  }

  /** memcpy. */
  method Copy(dst: array<byte>, at: nat, src: bytes)
    requires at + |src| <= dst.Length
    modifies dst
    ensures dst[at..at + |src|] == src
    ensures dst[..at] == old(dst[..at]) && dst[at + |src|..] == old(dst[at + |src|..])
    ensures dst[..at + |src|] == old(dst[..at]) + src
  {
    forall i | at <= i < at + |src| {
      dst[i] := src[i - at];
    }
  }

  /** Exclusive or of the low k bits, bit by bit. */
  function XorBits(a: nat, b: nat, k: nat): (r: nat)
    ensures r < Pow2(k)
  {
    if k == 0 then 0 else 2 * XorBits(a / 2, b / 2, k - 1) + XorBit(a % 2, b % 2)
  }

  function XorBit(p: nat, q: nat): (r: nat)
    ensures r < 2
  {
    if p == q then 0 else 1
  }

  function Pow2(k: nat): nat {
    if k == 0 then 1 else 2 * Pow2(k - 1)
  }

  function Xor(a: byte, b: byte): byte {
    Pow2Eight();
    XorBits(a, b, 8)
  }

  lemma Pow2Eight()
    ensures Pow2(8) == 256
  {
    assert Pow2(3) == 8;
    assert Pow2(6) == 64;
  }

  /** Bit i of a number. */
  function Bit(n: nat, i: nat): nat {
    Pow2Positive(i);
    n / Pow2(i) % 2
  }

  lemma Pow2Positive(i: nat)
    ensures Pow2(i) > 0
  {
  }

  lemma BitShift(n: nat, i: nat)
    requires i > 0
    ensures Pow2(i) > 0 && Pow2(i - 1) > 0 && Bit(n, i) == Bit(n / 2, i - 1)
  {
    var p := Pow2(i - 1);
    Pow2Positive(i - 1);
    Pow2Positive(i);
    HalfOfQuotient(n, p);
  }

  lemma HalfOfQuotient(n: nat, p: nat)
    requires p > 0
    ensures n / (2 * p) == n / 2 / p
  {
    var q, r := n / 2 / p, n / 2 % p;
    assert n == (2 * p) * q + (2 * r + n % 2);
    QuotientOf(n, 2 * p, q, 2 * r + n % 2);
  }

  lemma QuotientOf(n: nat, d: nat, q: nat, r: nat)
    requires r < d && n == d * q + r
    ensures n / d == q
  {
    var e, m := n / d, n % d;
    assert n == d * e + m;
    if e < q {
      assert d * q - d * e == d * (q - e);
      AtLeastOnce(d, q - e);
    } else if e > q {
      assert d * e - d * q == d * (e - q);
      AtLeastOnce(d, e - q);
    }
  }

  lemma AtLeastOnce(d: nat, k: nat)
    requires k > 0
    ensures d * k >= d
  {
  }

  /** Exclusive or, bit by bit: one exactly where the two numbers differ. */
  lemma {:induction false} XorBitsLaw(a: nat, b: nat, k: nat, i: nat)
    requires i < k
    ensures Bit(XorBits(a, b, k), i) == 1 <==> Bit(a, i) != Bit(b, i)
  {
    var half, low := XorBits(a / 2, b / 2, k - 1), XorBit(a % 2, b % 2);
    assert (2 * half + low) / 2 == half && (2 * half + low) % 2 == low;
    if i == 0 {
      assert Bit(a, 0) == a % 2 && Bit(b, 0) == b % 2;
    } else {
      BitShift(2 * half + low, i);
      BitShift(a, i);
      BitShift(b, i);
      XorBitsLaw(a / 2, b / 2, k - 1, i - 1);
    }
  }

  /** Each bit of a masked byte differs from that of the key byte exactly where the bit is set. */
  lemma XorLaw(a: byte, b: byte, i: nat)
    requires i < 8
    ensures Bit(Xor(a, b), i) == 1 <==> Bit(a, i) != Bit(b, i)
  {
    XorBitsLaw(a, b, 8, i);
  }

  lemma {:induction false} XorBitsInvolution(a: nat, b: nat, k: nat)
    requires a < Pow2(k)
    ensures XorBits(XorBits(a, b, k), b, k) == a
  {
    if k != 0 {
      XorBitsInvolution(a / 2, b / 2, k - 1);
      XorBitsUnfold(XorBits(a / 2, b / 2, k - 1), XorBit(a % 2, b % 2), b, k);
    }
  }

  lemma XorBitsUnfold(half: nat, low: nat, b: nat, k: nat)
    requires low < 2 && k > 0
    ensures XorBits(2 * half + low, b, k) == 2 * XorBits(half, b / 2, k - 1) + XorBit(low, b % 2)
  {
    assert (2 * half + low) / 2 == half && (2 * half + low) % 2 == low;
  }

  /** Masking twice with the same key byte gives the byte back. */
  lemma XorInvolution(a: byte, b: byte)
    ensures Xor(Xor(a, b), b) == a
  {
    Pow2Eight();
    XorBitsInvolution(a, b, 8);
  }

  // ---------------------------------------------------------------------
  // Big-endian numbers
  // ---------------------------------------------------------------------

  /** 256 to the power k. */
  function Pow256(k: nat): nat {
    if k == 0 then 1 else 256 * Pow256(k - 1)
  }

  /** The number that a big-endian byte string denotes. */
  function BeValue(s: bytes): nat {
    if s == [] then 0 else BeValue(s[..|s| - 1]) * 256 + s[|s| - 1]
  }

  /** The low k bytes of n, most significant first. */
  function BeBytes(n: nat, k: nat): (s: bytes)
    ensures |s| == k
  {
    if k == 0 then [] else BeBytes(n / 256, k - 1) + [n % 256]
  }

  lemma {:induction false} BeValueOfBytes(n: nat, k: nat)
    requires n < Pow256(k)
    ensures BeValue(BeBytes(n, k)) == n
  {
    if k != 0 {
      BeValueOfBytes(n / 256, k - 1);
      assert BeBytes(n, k)[..k - 1] == BeBytes(n / 256, k - 1);
    }
  }

  /** Only the low k bytes matter. */
  lemma {:induction false} BeBytesWrap(n: nat, q: nat, k: nat)
    ensures BeBytes(n + q * Pow256(k), k) == BeBytes(n, k)
  {
    if k != 0 {
      var m := q * Pow256(k - 1);
      assert n + q * Pow256(k) == n + 256 * m;
      assert (n + 256 * m) / 256 == n / 256 + m;
      BeBytesWrap(n / 256, q, k - 1);
    }
  }

  lemma {:induction false} BeValueBound(s: bytes)
    ensures BeValue(s) < Pow256(|s|)
  {
    if s != [] {
      BeValueBound(s[..|s| - 1]);
    }
  }

  lemma {:induction false} BeBytesOfValue(s: bytes)
    ensures BeBytes(BeValue(s), |s|) == s
  {
    if s != [] {
      BeBytesOfValue(s[..|s| - 1]);
      assert s == s[..|s| - 1] + [s[|s| - 1]];
    }
  }

  lemma Pow256Two()
    ensures Pow256(2) == 0x1_0000
  {
    assert Pow256(1) == 256;
  }

  lemma Pow256Eight()
    ensures Pow256(8) == 0x1_0000_0000_0000_0000
  {
    assert Pow256(2) == 0x1_0000;
    assert Pow256(4) == 0x1_0000_0000;
    assert Pow256(6) == 0x1_0000_0000_0000;
  }

  /** The top bit of the first of eight bytes is set exactly when the number needs 64 bits. */
  lemma TopBit(s: bytes)
    requires |s| == 8
    ensures s[0] >= 128 <==> BeValue(s) >= 0x8000_0000_0000_0000
  {
    ReadBe64Value(s);
    assert s[..8] == s;
  }

  // The readers and writers of byte_order.c.  Shifts are written as products and
  // the disjoint ors as sums.

  function ReadBe16(b: bytes): (r: nat)
    requires |b| >= 2
  {
    0x100 * (b[0] as int) + b[1]
  }

  function ReadBe64(b: bytes): (r: nat)
    requires |b| >= 8
  {
    0x100_0000_0000_0000 * (b[0] as int) + 0x1_0000_0000_0000 * (b[1] as int) + 0x100_0000_0000 * (b[2] as int) + 0x1_0000_0000 * (b[3] as int)
    + 0x100_0000 * (b[4] as int) + 0x1_0000 * (b[5] as int) + 0x100 * (b[6] as int) + b[7]
  }

  lemma ReadBe16Value(b: bytes)
    requires |b| >= 2
    ensures ReadBe16(b) == BeValue(b[..2])
  {
    assert b[..2][..1] == b[..1];
    assert BeValue(b[..1]) == b[0];
  }

  lemma ReadBe64Value(b: bytes)
    requires |b| >= 8
    ensures ReadBe64(b) == BeValue(b[..8])
  {
    assert BeValue([]) == 0;
    BeValuePrefix(b, 1);
    BeValuePrefix(b, 2);
    BeValuePrefix(b, 3);
    BeValuePrefix(b, 4);
    BeValuePrefix(b, 5);
    BeValuePrefix(b, 6);
    BeValuePrefix(b, 7);
    BeValuePrefix(b, 8);
    assert b[..0] == [];
    if |b| == 8 { assert b[..8] == b; }
  }

  lemma BeValuePrefix(b: bytes, k: nat)
    requires 0 < k <= |b|
    ensures BeValue(b[..k]) == BeValue(b[..k - 1]) * 256 + b[k - 1]
  {
    assert b[..k][..k - 1] == b[..k - 1];
  }

  /** n shifted right by k whole bytes. */
  function ShiftBytes(n: nat, k: nat): nat {
    if k == 0 then n else ShiftBytes(n / 256, k - 1)
  }

  lemma {:induction false} BeBytesAt(n: nat, k: nat, i: nat)
    requires i < k
    ensures BeBytes(n, k)[i] == ShiftBytes(n, k - 1 - i) % 256
  {
    if i < k - 1 {
      BeBytesAt(n / 256, k - 1, i);
    }
  }

  method WriteBe16(buf: array<byte>, at: nat, value: nat)
    requires at + 2 <= buf.Length
    requires value < 0x1_0000
    modifies buf
    ensures buf[at..at + 2] == BeBytes(value, 2)
    ensures buf[..at] == old(buf[..at]) && buf[at + 2..] == old(buf[at + 2..])
  {
    buf[at] := ShiftBytes(value, 1) % 256;
    buf[at + 1] := value % 256;
    forall i: nat | i < 2 {
      BeBytesAt(value, 2, i);
    }
  }

  method WriteBe64(buf: array<byte>, at: nat, value: nat)
    requires at + 8 <= buf.Length
    requires value < 0x1_0000_0000_0000_0000
    modifies buf
    ensures buf[at..at + 8] == BeBytes(value, 8)
    ensures buf[..at] == old(buf[..at]) && buf[at + 8..] == old(buf[at + 8..])
  {
    buf[at] := ShiftBytes(value, 7) % 256;
    buf[at + 1] := ShiftBytes(value, 6) % 256;
    buf[at + 2] := ShiftBytes(value, 5) % 256;
    buf[at + 3] := ShiftBytes(value, 4) % 256;
    buf[at + 4] := ShiftBytes(value, 3) % 256;
    buf[at + 5] := ShiftBytes(value, 2) % 256;
    buf[at + 6] := ShiftBytes(value, 1) % 256;
    buf[at + 7] := value % 256;
    forall i: nat | i < 8
      ensures buf[at + i] == BeBytes(value, 8)[i]
    {
      BeBytesAt(value, 8, i);
    }
  }
}
