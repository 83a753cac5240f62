/** The texts and character classes of the handshake, in characters, and its sample exchange. */
module HandshakeSamples {
  import opened Core
  import opened Handshake
  import opened Sha1Samples
  import Base64

  // ---------------------------------------------------------------------
  // Characters
  // ---------------------------------------------------------------------

  /** The characters between tokens, and those that are trimmed. */
  lemma SeparatorsExactly(c: byte)
    ensures IsSep(c) <==> c == ',' as int || c == ' ' as int || c == '\t' as int || c == '\r' as int || c == '\n' as int
    ensures Blank(c) <==> c == ' ' as int || c == '\t' as int
  {
  }

  /** A token is found between any two separators, in either case of its letters. */
  lemma TokenBetween(before: bytes, p: byte, text: bytes, q: byte, after: bytes, token: bytes)
    requires IsSep(p) && IsSep(q) && CiEqual(text, token) && forall i :: 0 <= i < |text| ==> !IsSep(text[i])
    ensures HasToken(before + [p] + text + [q] + after, token)
  {
    hide IsSep, CiEqual;
    var v, i := before + [p] + text + [q] + after, |before| + 1;
    var j := i + |text|;
    assert v[i - 1] == p && v[j] == q && v[i..j] == text;
    forall k | i <= k < j
      ensures !IsSep(v[k])
    {
      assert v[k] == text[k - i];
    }
    assert IsToken(v, i, j);
  }

  /** The digits of Base64 in the order of table 1 of RFC 4648. */
  lemma DigitsInOrder()
    ensures forall v :: 0 <= v < 26 ==> Base64.Digit(v) == "ABCDEFGHIJKLMNOPQRSTUVWXYZ"[v] as int
    ensures forall v :: 0 <= v < 26 ==> Base64.Digit(26 + v) == "abcdefghijklmnopqrstuvwxyz"[v] as int
    ensures forall v :: 0 <= v < 12 ==> Base64.Digit(52 + v) == "0123456789+/"[v] as int
  {
  }

  // ---------------------------------------------------------------------
  // Limits
  // ---------------------------------------------------------------------

  /** A request is too long from 8193 bytes on. */
  lemma RequestLimit(request: bytes)
    ensures Judge(request) == TooLong <==> |request| > 8192
  {
    hide JudgeBlock, FirstEnd;
    if |request| <= 8192 && HeaderLen(request).Some? {
      BlockVerdict(request[..HeaderLen(request).value]);
    }
  }

  lemma BlockVerdict(t: bytes)
    ensures JudgeBlock(t) != TooLong
  {
    hide GoodRequestLine, Scan, Lines, LineEnd, CString;
  }

  /** A key is used if it has 1 to 127 bytes, and the version must be 13. */
  lemma FieldLimits(value: bytes)
    ensures IsKey(Field(Ascii("Sec-WebSocket-Key"), value)) <==> 1 <= |value| <= 127
    ensures IsVersion(Field(Ascii("Sec-WebSocket-Version"), value)) <==> value == ['1' as int, '3' as int]
  {
    hide Lower;
    assert Ascii("13") == ['1' as int, '3' as int];
  }

  // ---------------------------------------------------------------------
  // The sample exchange
  // ---------------------------------------------------------------------

  const CRLF: bytes := [13, 10]

  /** The lines of a client's request, with the key of section 1.3 of RFC 6455. */
  function SampleRequest(): bytes {
    Ascii("GET / HTTP/1.1") + CRLF
    + (Ascii("Upgrade") + [58, 32] + Ascii("websocket") + CRLF
       + (Ascii("Connection") + [58, 32] + Ascii("Upgrade") + CRLF
          + (Ascii("Sec-WebSocket-Version") + [58, 32] + Ascii("13") + CRLF
             + (Ascii("Sec-WebSocket-Key") + [58, 32] + Ascii("dGhlIHNhbXBsZSBub25jZQ==") + CRLF
                + CRLF))))
  }

  /** It is accepted, and answered with the accept value of that section. */
  lemma SampleExchange()
    ensures Judge(SampleRequest()) == Accepted(Ascii("dGhlIHNhbXBsZSBub25jZQ=="), |SampleRequest()|)
    ensures Response(Ascii("dGhlIHNhbXBsZSBub25jZQ==")) ==
            Ascii("HTTP/1.1 101 Switching Protocols\r\nUpgrade: websocket\r\nConnection: Upgrade\r\nSec-WebSocket-Accept: ")
            + Ascii("s3pPLMBiTxaQ9kYGzzhZRbK+xOo=") + CRLF + CRLF
  {
    hide Ascii, Judge, AcceptValue, Plain;
    SampleKeyIsUsable();
    UpgradeAccepted(Ascii(KEY));
    SampleIsUpgrade();
    SampleAccept();
    assert [CR, LF, CR, LF] == CRLF + CRLF;
    var prefix, accept := Ascii(PREFIX), AcceptValue(Ascii(KEY));
    assert prefix + accept + [CR, LF, CR, LF] == prefix + accept + CRLF + CRLF;
  }

  lemma SampleKeyIsUsable()
    ensures UsableKeyText(Ascii(KEY))
  {
    hide Ascii, Plain;
    KeyIsPlain();
    PlainAscii(KEY);
  }

  lemma KeyIsPlain()
    ensures Plain(KEY)
  {
  }

  lemma SampleIsUpgrade()
    ensures SampleRequest() == UpgradeRequest(Ascii(KEY))
  {
    hide Ascii;
    var ls := UpgradeLines(Ascii(KEY));
    var end := Join([]) + CRLF;
    assert end == CRLF;
    JoinRest(ls, 0);
    JoinRest(ls, 1);
    JoinRest(ls, 2);
    JoinRest(ls, 3);
    assert ls[4..] == [] && ls[0..] == ls;
    assert UpgradeRequest(Ascii(KEY)) == Ascii(REQUEST_LINE) + CRLF + (Join(ls) + CRLF);
  }

  lemma JoinRest(lines: seq<bytes>, i: nat)
    requires i < |lines|
    ensures Join(lines[i..]) + CRLF == lines[i] + CRLF + (Join(lines[i + 1..]) + CRLF)
  {
    assert lines[i..][0] == lines[i] && lines[i..][1..] == lines[i + 1..];
  }
}
