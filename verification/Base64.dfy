/** The Base64 encoder of src/core/base64.c against the decoder of section 4 of RFC 4648. */
module Base64 {
  import opened Core

  const PAD: byte := 61

  /** The character for a six-bit value, as an ASCII code. */
  function Digit(v: nat): (c: byte)
    requires v < 64
    ensures c != PAD
  {
    if v < 26 then 65 + v
    else if v < 52 then 97 + (v - 26)
    else if v < 62 then 48 + (v - 52)
    else if v == 62 then 43
    else 47
  }

  /** The six-bit value of a character. */
  function Value(c: byte): (v: Option<nat>)
    ensures v.Some? ==> v.value < 64
  {
    if 65 <= c <= 90 then Some(c - 65)
    else if 97 <= c <= 122 then Some(c - 97 + 26)
    else if 48 <= c <= 57 then Some(c - 48 + 52)
    else if c == 43 then Some(62)
    else if c == 47 then Some(63)
    else None
  }

  lemma ValueOfDigit(v: nat)
    requires v < 64
    ensures Value(Digit(v)) == Some(v)
  {
  }

  function EncodedSize(n: nat): nat {
    (n + 2) / 3 * 4
  }

  function Triple(a: byte, b: byte, c: byte): (n: nat)
    ensures n < 0x100_0000
  {
    0x1_0000 * (a as int) + 0x100 * (b as int) + (c as int)
  }

  /** The four characters for three bytes. */
  function Quad(n: nat): bytes
    requires n < 0x100_0000
  {
    [Digit(n / 0x4_0000 % 64), Digit(n / 0x1000 % 64), Digit(n / 64 % 64), Digit(n % 64)]
  }

  function Encode(s: bytes): bytes {
    if s == [] then []
    else if |s| == 1 then Quad(Triple(s[0], 0, 0))[..2] + [PAD, PAD]
    else if |s| == 2 then Quad(Triple(s[0], s[1], 0))[..3] + [PAD]
    else Quad(Triple(s[0], s[1], s[2])) + Encode(s[3..])
  }

  // ---------------------------------------------------------------------
  // The decoder
  // ---------------------------------------------------------------------

  /** The number that four characters denote, if all are in the alphabet. */
  function QuadValue(t: bytes): (n: Option<nat>)
    requires |t| == 4
    ensures n.Some? ==> n.value < 0x100_0000
  {
    var a, b, c, d := Value(t[0]), Value(t[1]), Value(t[2]), Value(t[3]);
    if a.None? || b.None? || c.None? || d.None? then None
    else Some(0x4_0000 * a.value + 0x1000 * b.value + 64 * c.value + d.value)
  }

  /** A last group: padding stands for zero bits, and the bits it covers must be zero. */
  function DecodeLast(t: bytes): Option<bytes>
    requires |t| == 4
  {
    if t[3] != PAD then
      match QuadValue(t)
      case None => None
      case Some(n) => Some([n / 0x1_0000, n / 0x100 % 256, n % 256])
    else if t[2] != PAD then
      match QuadValue(t[..3] + [Digit(0)])
      case None => None
      case Some(n) => if n % 256 == 0 then Some([n / 0x1_0000, n / 0x100 % 256]) else None
    else
      match QuadValue(t[..2] + [Digit(0), Digit(0)])
      case None => None
      case Some(n) => if n % 0x1_0000 == 0 then Some([n / 0x1_0000]) else None
  }

  function Decode(t: bytes): Option<bytes> {
    if t == [] then Some([])
    else if |t| < 4 then None
    else if |t| == 4 then DecodeLast(t)
    else match QuadValue(t[..4])
      case None => None
      case Some(n) =>
        match Decode(t[4..])
        case None => None
        case Some(rest) => Some([n / 0x1_0000, n / 0x100 % 256, n % 256] + rest)
  }

  lemma QuadRoundTrip(n: nat)
    requires n < 0x100_0000
    ensures QuadValue(Quad(n)) == Some(n)
  {
    hide Digit, Value;
    var a, b, c, d := n / 0x4_0000 % 64, n / 0x1000 % 64, n / 64 % 64, n % 64;
    ValueOfDigit(a);
    ValueOfDigit(b);
    ValueOfDigit(c);
    ValueOfDigit(d);
    QuadDigits(n);
  }

  /** A number below 2^24 is its four digits of base 64. */
  lemma QuadDigits(n: nat)
    requires n < 0x100_0000
    ensures n == 0x4_0000 * (n / 0x4_0000 % 64) + 0x1000 * (n / 0x1000 % 64) + 64 * (n / 64 % 64) + n % 64
  {
    assert n == 64 * (n / 64) + n % 64;
    assert n / 64 == 64 * (n / 0x1000) + n / 64 % 64;
    assert n / 0x1000 == 64 * (n / 0x4_0000) + n / 0x1000 % 64;
  }

  lemma TripleBytes(a: byte, b: byte, c: byte)
    ensures
      var n := Triple(a, b, c);
      n / 0x1_0000 == a && n / 0x100 % 256 == b && n % 256 == c
  {
    assert Triple(a, b, c) / 0x100 == 0x100 * (a as int) + b;
  }

  lemma PaddedQuad(n: nat)
    requires n < 0x100_0000
    ensures n % 64 == 0 ==> Quad(n)[..3] + [Digit(0)] == Quad(n)
    ensures n % 0x1000 == 0 ==> Quad(n)[..2] + [Digit(0), Digit(0)] == Quad(n)
  {
    if n % 0x1000 == 0 {
      assert n / 64 % 64 == 0;
    }
  }

  lemma DecodeEncodeLast(s: bytes)
    requires 0 < |s| <= 3
    ensures |Encode(s)| == 4 && DecodeLast(Encode(s)) == Some(s)
  {
    hide Encode, DecodeLast;
    if |s| == 3 {
      LastOfThree(s);
    } else if |s| == 2 {
      LastOfTwo(s);
    } else {
      LastOfOne(s);
    }
  }

  lemma LastOfThree(s: bytes)
    requires |s| == 3
    ensures |Encode(s)| == 4 && DecodeLast(Encode(s)) == Some(s)
  {
    hide Quad, QuadValue, Triple, Digit;
    var n := Triple(s[0], s[1], s[2]);
    LastDigit(n);
    TripleBytes(s[0], s[1], s[2]);
    QuadRoundTrip(n);
    assert s[3..] == [] && Encode(s[3..]) == [];
    assert Encode(s) == Quad(n);
    assert s == [s[0], s[1], s[2]];
  }

  lemma LastOfTwo(s: bytes)
    requires |s| == 2
    ensures |Encode(s)| == 4 && DecodeLast(Encode(s)) == Some(s)
  {
    hide Quad, QuadValue, Triple, Digit;
    var n := Triple(s[0], s[1], 0);
    LastDigit(n);
    TripleBytes(s[0], s[1], 0);
    assert n % 64 == 0;
    PaddedQuad(n);
    QuadRoundTrip(n);
    assert Encode(s)[..3] == Quad(n)[..3];
    assert Encode(s)[2] == Quad(n)[2];
    assert s == [s[0], s[1]];
  }

  lemma LastOfOne(s: bytes)
    requires |s| == 1
    ensures |Encode(s)| == 4 && DecodeLast(Encode(s)) == Some(s)
  {
    hide Quad, QuadValue, Triple, Digit;
    var n := Triple(s[0], 0, 0);
    LastDigit(n);
    TripleBytes(s[0], 0, 0);
    TripleLow(s[0]);
    assert n % 0x1000 == 0;
    PaddedQuad(n);
    QuadRoundTrip(n);
    assert Encode(s)[..2] == Quad(n)[..2];
    assert Encode(s)[2] == PAD && Encode(s)[3] == PAD;
    assert s == [s[0]];
  }

  lemma TripleLow(a: byte)
    ensures Triple(a, 0, 0) % 0x1_0000 == 0
  {
  }

  lemma LastDigit(n: nat)
    requires n < 0x100_0000
    ensures |Quad(n)| == 4 && Quad(n)[2] != PAD && Quad(n)[3] != PAD
  {
  }

  /** Decoding undoes encoding, and the encoded length is four thirds, rounded up to groups. */
  lemma {:induction false} DecodeEncode(s: bytes)
    ensures |Encode(s)| == EncodedSize(|s|)
    ensures Decode(Encode(s)) == Some(s)
  {
    hide Quad, QuadValue, DecodeLast, Triple;
    if s == [] {
    } else if |s| <= 3 {
      DecodeEncodeLast(s);
    } else {
      var n := Triple(s[0], s[1], s[2]);
      LastDigit(n);
      DecodeEncode(s[3..]);
      QuadRoundTrip(n);
      TripleBytes(s[0], s[1], s[2]);
      var t := Encode(s);
      assert t[..4] == Quad(n) && t[4..] == Encode(s[3..]);
      assert s == [s[0], s[1], s[2]] + s[3..];
    }
  }

  // ---------------------------------------------------------------------
  // The encoding loop
  // ---------------------------------------------------------------------

  lemma EncodeGroup(input: bytes, at: nat)
    requires at + 3 <= |input|
    ensures Encode(input[at..]) == Quad(Triple(input[at], input[at + 1], input[at + 2])) + Encode(input[at + 3..])
    ensures EncodedSize(|input| - at) == 4 + EncodedSize(|input| - at - 3)
  {
    hide Quad, Triple;
    assert input[at..][3..] == input[at + 3..];
    assert input[at + 3..] == [] ==> Encode(input[at + 3..]) == [];
  }

  /** One turn of the loop: a group moves from what is left to what is done. */
  lemma GroupDone(input: bytes, at: nat, done: bytes)
    requires at + 3 <= |input| && done + Encode(input[at..]) == Encode(input)
    ensures
      (done + Quad(Triple(input[at], input[at + 1], input[at + 2]))) + Encode(input[at + 3..]) == Encode(input)
    ensures EncodedSize(|input| - at) == 4 + EncodedSize(|input| - at - 3)
  {
    hide Quad, Triple, Encode, EncodedSize;
    EncodeGroup(input, at);
  }

  lemma EncodeLength(s: bytes)
    ensures |Encode(s)| == EncodedSize(|s|)
    ensures s == [] <==> EncodedSize(|s|) == 0
    ensures EncodedSize(|s|) == 0 || EncodedSize(|s|) >= 4
  {
    hide Encode, Decode;
    DecodeEncode(s);
  }

  method PutQuad(n: nat, output: array<byte>, at: nat)
    requires n < 0x100_0000 && at + 4 <= output.Length
    modifies output
    ensures output[..at + 4] == old(output[..at]) + Quad(n)
  {
    hide Digit;
    output[at] := Digit(n / 0x4_0000 % 64);
    output[at + 1] := Digit(n / 0x1000 % 64);
    output[at + 2] := Digit(n / 64 % 64);
    output[at + 3] := Digit(n % 64);
  }

  method EncodeInto(input: bytes, output: array<byte>, outputSize: nat) returns (rc: Status, written: nat)
    requires outputSize <= output.Length
    modifies output
    ensures rc == if outputSize < EncodedSize(|input|) + 1 then Overflow else Ok
    ensures rc == Ok ==> written == EncodedSize(|input|)
    ensures rc == Ok ==> output[..written] == Encode(input) && output[written] == 0
    ensures rc != Ok ==> written == 0 && output[..] == old(output[..])
  {
    hide Quad, Encode, Triple, EncodedSize;
    var encodedLen := EncodedSize(|input|);
    if outputSize < encodedLen + 1 {
      return Overflow, 0;
    }
    var at, out := 0, 0;
    assert input[0..] == input && output[..0] == [];
    while at + 3 <= |input|
      invariant at <= |input| && out + EncodedSize(|input| - at) == encodedLen
      invariant output[..out] + Encode(input[at..]) == Encode(input)
    {
      EncodeLength(input[at..]);
      GroupDone(input, at, output[..out]);
      PutQuad(Triple(input[at], input[at + 1], input[at + 2]), output, out);
      at := at + 3;
      out := out + 4;
    }
    EncodeLength(input[at..]);
    out := EncodeTail(input[at..], output, out);
    output[out] := 0;
    return Ok, out;
  }

  method EncodeTail(rest: bytes, output: array<byte>, at: nat) returns (out: nat)
    requires |rest| < 3 && at + 4 < output.Length + (if rest == [] then 4 else 0)
    modifies output
    ensures out == at + |Encode(rest)| < output.Length
    ensures output[..out] == old(output[..at]) + Encode(rest)
  {
    hide Digit, Quad;
    out := at;
    ghost var done := output[..at];
    if |rest| == 1 {
      var triple := Triple(rest[0], 0, 0);
      LastDigit(triple);
      output[out] := Quad(triple)[0];
      output[out + 1] := Quad(triple)[1];
      output[out + 2] := PAD;
      output[out + 3] := PAD;
      out := out + 4;
      assert output[..out] == done + [Quad(triple)[0], Quad(triple)[1], PAD, PAD];
    } else if |rest| == 2 {
      var triple := Triple(rest[0], rest[1], 0);
      LastDigit(triple);
      output[out] := Quad(triple)[0];
      output[out + 1] := Quad(triple)[1];
      output[out + 2] := Quad(triple)[2];
      output[out + 3] := PAD;
      out := out + 4;
      assert output[..out] == done + [Quad(triple)[0], Quad(triple)[1], Quad(triple)[2], PAD];
    }
  }
}
