/** The HTTP upgrade handshake of src/ws/ws_handshake.c (sections 4.2.1 and 4.2.2 of RFC 6455). */
module Handshake {
  import opened Core
  import Base64
  import Sha1

  const MAX_REQUEST: nat := 8192
  const CR: byte := 13
  const LF: byte := 10
  const COLON: byte := 58

  /** The bytes of an ASCII literal. */
  function Ascii(s: string): (r: bytes)
    ensures |r| == |s|
  {
    seq(|s|, i requires 0 <= i < |s| => (s[i] as int) % 256)
  }

  // ---------------------------------------------------------------------
  // Lines
  // ---------------------------------------------------------------------

  predicate CrLfAt(s: bytes, i: nat) {
    i + 2 <= |s| && s[i] == CR && s[i + 1] == LF
  }

  predicate EndAt(s: bytes, i: nat) {
    CrLfAt(s, i) && CrLfAt(s, i + 2)
  }

  /** The length of the header: up to and with the first CRLF CRLF from i on. */
  function FirstEnd(s: bytes, i: nat): (h: Option<nat>)
    ensures h.Some? ==> i + 4 <= h.value <= |s| && EndAt(s, h.value - 4)
    ensures h.Some? ==> forall j :: i <= j < h.value - 4 ==> !EndAt(s, j)
    ensures h.None? ==> forall j :: i <= j ==> !EndAt(s, j)
    decreases |s| - i
  {
    if i + 3 >= |s| then None
    else if EndAt(s, i) then Some(i + 4)
    else FirstEnd(s, i + 1)
  }

  function HeaderLen(s: bytes): Option<nat> {
    FirstEnd(s, 0)
  }

  /** A header block: it ends with its only CRLF CRLF. */
  ghost predicate IsBlock(t: bytes) {
    |t| >= 4 && EndAt(t, |t| - 4) && forall j :: 0 <= j < |t| - 4 ==> !EndAt(t, j)
  }

  lemma HeaderIsBlock(s: bytes)
    requires HeaderLen(s).Some?
    ensures IsBlock(s[..HeaderLen(s).value])
  {
    var h := HeaderLen(s).value;
    forall j | 0 <= j < h - 4
      ensures !EndAt(s[..h], j)
    {
      assert !EndAt(s, j);
    }
    assert EndAt(s, h - 4);
  }

  /** Where the line that starts at i ends. */
  function LineEnd(t: bytes, i: nat): (e: nat)
    ensures i <= e
    ensures i < |t| ==> e < |t|
    ensures e + 1 < |t| ==> CrLfAt(t, e)
    ensures forall j :: i <= j < e ==> !CrLfAt(t, j)
    decreases |t| - i
  {
    if i + 1 >= |t| || CrLfAt(t, i) then i else LineEnd(t, i + 1)
  }

  /** The lines from i on, up to the empty line. */
  function Lines(t: bytes, i: nat): seq<bytes>
    decreases |t| - i
  {
    if i + 1 >= |t| || CrLfAt(t, i) then []
    else [t[i..LineEnd(t, i)]] + Lines(t, LineEnd(t, i) + 2)
  }

  function Join(lines: seq<bytes>): bytes {
    if lines == [] then [] else lines[0] + [CR, LF] + Join(lines[1..])
  }

  lemma LineInBlock(t: bytes, i: nat)
    requires IsBlock(t) && i <= |t| - 4
    ensures LineEnd(t, i) <= |t| - 4 && CrLfAt(t, LineEnd(t, i))
    ensures CrLfAt(t, LineEnd(t, i) + 2) <==> LineEnd(t, i) == |t| - 4
  {
    assert CrLfAt(t, |t| - 4);
    var e := LineEnd(t, i);
    if e != |t| - 4 {
      assert !EndAt(t, e);
    }
  }

  /** i is the start of a line of the block after the first, or of the empty line. */
  predicate LineStart(t: bytes, i: nat) {
    2 <= i <= |t| - 2 && CrLfAt(t, i - 2)
  }

  lemma LineStartInBlock(t: bytes, i: nat)
    requires IsBlock(t) && LineStart(t, i)
    ensures CrLfAt(t, i) <==> i == |t| - 2
    ensures i <= |t| - 4 || i == |t| - 2
  {
    assert EndAt(t, |t| - 4);
    assert i < |t| - 2 ==> !EndAt(t, i - 2);
  }

  /** The first line and the rest, from a line start that is not the empty line. */
  lemma NextLine(t: bytes, i: nat)
    requires IsBlock(t) && LineStart(t, i) && i < |t| - 2
    ensures
      var e := LineEnd(t, i);
      LineStart(t, e + 2) && e < |t| && Lines(t, i) == [t[i..e]] + Lines(t, e + 2)
  {
    LineStartInBlock(t, i);
    LineInBlock(t, i);
  }

  lemma NoMoreLines(t: bytes, i: nat)
    requires CrLfAt(t, i)
    ensures Lines(t, i) == []
  {
  }

  /** Splitting loses nothing: the lines of a block, each with its CRLF, and the empty line. */
  lemma {:induction false} JoinLines(t: bytes, i: nat)
    requires IsBlock(t) && LineStart(t, i)
    ensures Join(Lines(t, i)) + [CR, LF] == t[i..]
    decreases |t| - i
  {
    hide IsBlock, Lines, LineEnd;
    LineStartInBlock(t, i);
    if i == |t| - 2 {
      NoMoreLines(t, i);
      assert Join([]) == [];
    } else {
      NextLine(t, i);
      var e := LineEnd(t, i);
      JoinLines(t, e + 2);
      assert ([t[i..e]] + Lines(t, e + 2))[1..] == Lines(t, e + 2);
      Rejoin(t, i, e, e + 2);
      assert t[i..] == t[i..e] + [CR, LF] + t[e + 2..];
      assert t[i..e] + [CR, LF] + Join(Lines(t, e + 2)) + [CR, LF] == t[i..e] + [CR, LF] + (Join(Lines(t, e + 2)) + [CR, LF]);
    }
  }

  // ---------------------------------------------------------------------
  // Text
  // ---------------------------------------------------------------------

  function Lower(c: byte): byte {
    if 65 <= c <= 90 then c + 32 else c
  }

  predicate CiEqual(a: bytes, b: bytes) {
    |a| == |b| && forall i :: 0 <= i < |a| ==> Lower(a[i]) == Lower(b[i])
  }

  /** Ignoring case: at each place the bytes are equal, or the two cases of one ASCII letter. */
  lemma CiEqualMeans(a: bytes, b: bytes)
    ensures CiEqual(a, b) <==>
            && |a| == |b|
            && forall i :: 0 <= i < |a| ==>
                 || a[i] == b[i]
                 || ('A' as int <= a[i] <= 'Z' as int && b[i] == a[i] + 32)
                 || ('A' as int <= b[i] <= 'Z' as int && a[i] == b[i] + 32)
  {
  }

  predicate IsSep(c: byte) {
    c == 44 || c == 32 || c == 9 || c == CR || c == LF
  }

  /** v[i..j] is a maximal run of characters that are not separators. */
  predicate IsToken(v: bytes, i: nat, j: nat) {
    && i <= j <= |v|
    && (i == 0 || IsSep(v[i - 1]))
    && (j == |v| || IsSep(v[j]))
    && forall k :: i <= k < j ==> !IsSep(v[k])
  }

  ghost predicate HasToken(v: bytes, token: bytes) {
    exists i: nat, j: nat :: IsToken(v, i, j) && CiEqual(v[i..j], token)
  }

  ghost predicate HasSubstring(hay: bytes, needle: bytes) {
    exists i: nat :: SubstringAt(hay, needle, i)
  }

  predicate SubstringAt(hay: bytes, needle: bytes, i: nat) {
    i + |needle| <= |hay| && hay[i..i + |needle|] == needle
  }

  predicate Blank(c: byte) {
    c == 32 || c == 9
  }

  function TrimLeft(v: bytes): bytes {
    if v != [] && Blank(v[0]) then TrimLeft(v[1..]) else v
  }

  function TrimRight(v: bytes): bytes {
    if v != [] && Blank(v[|v| - 1]) then TrimRight(v[..|v| - 1]) else v
  }

  function Trim(v: bytes): bytes {
    TrimRight(TrimLeft(v))
  }

  /** A C string: the bytes before the first NUL. */
  function CString(s: bytes): (r: bytes)
    ensures |r| <= |s| && r == s[..|r|]
    ensures forall i :: 0 <= i < |r| ==> r[i] != 0
    ensures |r| < |s| ==> s[|r|] == 0
  {
    if s == [] || s[0] == 0 then [] else [s[0]] + CString(s[1..])
  }

  lemma {:induction false} CStringUnique(s: bytes, n: nat)
    requires n <= |s| && (forall i :: 0 <= i < n ==> s[i] != 0) && (n < |s| ==> s[n] == 0)
    ensures CString(s) == s[..n]
    decreases n
  {
    if n != 0 {
      CStringUnique(s[1..], n - 1);
      assert s[..n] == [s[0]] + s[1..][..n - 1];
    }
  }

  method CiEqualN(a: bytes, b: bytes, n: nat) returns (r: bool)
    requires n <= |a| && n <= |b|
    ensures r == CiEqual(a[..n], b[..n])
  {
    for i := 0 to n
      invariant forall j :: 0 <= j < i ==> Lower(a[j]) == Lower(b[j])
    {
      if Lower(a[i]) != Lower(b[i]) {
        assert a[..n][i] == a[i] && b[..n][i] == b[i];
        return false;
      }
    }
    return true;
  }

  method CiEqualString(a: bytes, b: bytes) returns (r: bool)
    ensures r == CiEqual(a, b)
  {
    if |a| != |b| {
      return false;
    }
    r := CiEqualN(a, b, |a|);
    assert a[..|a|] == a && b[..|a|] == b;
  }

  method ContainsToken(v: bytes, token: bytes) returns (r: bool)
    requires token != []
    ensures r == HasToken(v, token)
  {
    var i := 0;
    while i < |v|
      invariant i <= |v| + 1
      invariant i == 0 || i == |v| + 1 || IsSep(v[i - 1])
      invariant forall p: nat, q: nat :: IsToken(v, p, q) && p < i ==> !CiEqual(v[p..q], token)
      decreases |v| + 1 - i
    {
      ghost var from := i;
      while i < |v| && IsSep(v[i])
        invariant from <= i <= |v|
        invariant i == 0 || IsSep(v[i - 1])
        invariant forall k :: from <= k < i ==> IsSep(v[k])
      {
        i := i + 1;
      }
      var j := i;
      while j < |v| && !IsSep(v[j])
        invariant i <= j <= |v|
        invariant forall k :: i <= k < j ==> !IsSep(v[k])
      {
        j := j + 1;
      }
      if j - i == |token| {
        var same := CiEqualN(v[i..], token, |token|);
        assert v[i..][..|token|] == v[i..j] && token[..|token|] == token;
        if same {
          assert IsToken(v, i, j);
          return true;
        }
      }
      forall p: nat, q: nat | IsToken(v, p, q) && p < j + 1
        ensures !CiEqual(v[p..q], token)
      {
        TokenIsRun(v, from, i, j, p, q, token);
      }
      i := j + 1;
    }
    assert !HasToken(v, token) by {
      forall p: nat, q: nat | IsToken(v, p, q)
        ensures !CiEqual(v[p..q], token)
      {
        if p == |v| { assert v[p..q] == []; }
      }
    }
    return false;
  }

  /** Between `from` and j there is at most one token that is not empty, namely v[i..j]. */
  lemma TokenIsRun(v: bytes, from: nat, i: nat, j: nat, p: nat, q: nat, token: bytes)
    requires from <= i <= j <= |v| && token != []
    requires forall k :: from <= k < i ==> IsSep(v[k])
    requires forall k :: i <= k < j ==> !IsSep(v[k])
    requires j == |v| || IsSep(v[j])
    requires IsToken(v, p, q) && p < j + 1
    requires p < from ==> !CiEqual(v[p..q], token)
    requires !CiEqual(v[i..j], token)
    ensures !CiEqual(v[p..q], token)
  {
    if from <= p < q {
      assert !IsSep(v[p]);
      assert p == i && q == j;
    }
  }

  /** v[i..j] is v without the blanks at its two ends. */
  predicate TrimmedTo(v: bytes, i: nat, j: nat) {
    && i <= j <= |v|
    && (forall k :: 0 <= k < i ==> Blank(v[k])) && (forall k :: j <= k < |v| ==> Blank(v[k]))
    && (i < j ==> !Blank(v[i]) && !Blank(v[j - 1]))
  }

  lemma {:induction false} TrimLeftSkips(v: bytes, i: nat)
    requires i <= |v| && (forall k :: 0 <= k < i ==> Blank(v[k])) && (i < |v| ==> !Blank(v[i]))
    ensures TrimLeft(v) == v[i..]
    decreases i
  {
    if i > 0 {
      TrimLeftSkips(v[1..], i - 1);
    }
  }

  lemma {:induction false} TrimRightSkips(v: bytes, j: nat)
    requires j <= |v| && (forall k :: j <= k < |v| ==> Blank(v[k])) && (j > 0 ==> !Blank(v[j - 1]))
    ensures TrimRight(v) == v[..j]
    decreases |v|
  {
    if j < |v| {
      TrimRightSkips(v[..|v| - 1], j);
      assert v[..|v| - 1][..j] == v[..j];
    }
  }

  /** Trimming takes away all blanks at both ends and nothing else. */
  lemma TrimExactly(v: bytes, i: nat, j: nat)
    requires TrimmedTo(v, i, j)
    ensures Trim(v) == v[i..j]
  {
    hide TrimLeft, TrimRight;
    if i < j {
      TrimLeftSkips(v, i);
      TrimRightSkips(v[i..], j - i);
      assert v[i..][..j - i] == v[i..j];
    } else {
      TrimLeftSkips(v, |v|);
      TrimRightSkips([], 0);
    }
  }

  method TrimSpan(v: bytes) returns (start: nat, len: nat)
    ensures TrimmedTo(v, start, start + len) && v[start..start + len] == Trim(v)
  {
    start, len := 0, |v|;
    while len != 0 && Blank(v[start])
      invariant start + len == |v|
      invariant forall k :: 0 <= k < start ==> Blank(v[k])
      decreases len
    {
      start, len := start + 1, len - 1;
    }
    while len != 0 && Blank(v[start + len - 1])
      invariant start + len <= |v| && (len > 0 ==> !Blank(v[start]))
      invariant forall k :: start + len <= k < |v| ==> Blank(v[k])
    {
      len := len - 1;
    }
    TrimExactly(v, start, start + len);
  }

  method MemoryContains(hay: bytes, needle: bytes) returns (r: bool)
    ensures r == HasSubstring(hay, needle)
  {
    if |needle| == 0 {
      assert SubstringAt(hay, needle, 0);
      return true;
    }
    if |hay| < |needle| {
      return false;
    }
    var i := 0;
    while i + |needle| <= |hay|
      invariant forall k: nat :: k < i ==> !SubstringAt(hay, needle, k)
    {
      if hay[i..i + |needle|] == needle {
        assert SubstringAt(hay, needle, i);
        return true;
      }
      i := i + 1;
    }
    return false;
  }

  // ---------------------------------------------------------------------
  // The verdict
  // ---------------------------------------------------------------------

  datatype Field = Field(name: bytes, value: bytes)

  function ColonFrom(line: bytes, i: nat): (c: nat)
    requires i <= |line|
    ensures i <= c <= |line| && (c < |line| ==> line[c] == COLON)
    ensures forall k :: i <= k < c ==> line[k] != COLON
    decreases |line| - i
  {
    if i == |line| || line[i] == COLON then i else ColonFrom(line, i + 1)
  }

  /** The name before the first colon and the trimmed value after it. */
  function FieldOf(line: bytes): Option<Field> {
    var c := ColonFrom(line, 0);
    if c == |line| then None else Some(Field(line[..c], Trim(line[c + 1..])))
  }

  ghost predicate IsUpgrade(f: Field) {
    CiEqual(f.name, Ascii("Upgrade")) && CiEqual(f.value, Ascii("websocket"))
  }

  ghost predicate IsConnection(f: Field) {
    CiEqual(f.name, Ascii("Connection")) && HasToken(f.value, Ascii("upgrade"))
  }

  predicate IsVersion(f: Field) {
    CiEqual(f.name, Ascii("Sec-WebSocket-Version")) && f.value == Ascii("13")
  }

  predicate IsKey(f: Field) {
    CiEqual(f.name, Ascii("Sec-WebSocket-Key")) && 0 < |f.value| < 128
  }

  ghost predicate GoodRequestLine(line: bytes) {
    && |line| >= 14
    && CiEqual(line[..4], Ascii("GET "))
    && (HasSubstring(line, Ascii(" HTTP/1.1")) || HasSubstring(line, Ascii(" HTTP/1.0")))
  }

  /** What the header lines have shown so far. */
  datatype Seen = Seen(upgrade: bool, connection: bool, version: bool, key: Option<bytes>)

  const NOTHING_SEEN := Seen(false, false, false, None)

  ghost function Note(seen: Seen, f: Field): Seen {
    Seen(seen.upgrade || IsUpgrade(f), seen.connection || IsConnection(f), seen.version || IsVersion(f),
         if IsKey(f) then Some(f.value) else seen.key)
  }

  ghost function Scan(lines: seq<bytes>): Option<Seen> {
    if lines == [] then Some(NOTHING_SEEN)
    else
      var before := Scan(lines[..|lines| - 1]);
      var f := FieldOf(lines[|lines| - 1]);
      if before.None? || f.None? then None else Some(Note(before.value, f.value))
  }

  datatype Verdict = Pending | TooLong | Refused | BadKey | Accepted(key: bytes, consumed: nat)

  ghost function JudgeBlock(t: bytes): Verdict {
    var e := LineEnd(t, 0);
    if e > |t| || !GoodRequestLine(t[..e]) then Refused
    else match Scan(Lines(t, e + 2))
      case None => Refused
      case Some(seen) =>
        if !seen.upgrade || !seen.connection || !seen.version || seen.key.None? then Refused
        else if CString(seen.key.value) == [] then BadKey
        else Accepted(seen.key.value, |t|)
  }

  /** The verdict on the bytes received so far. */
  ghost function Judge(request: bytes): Verdict {
    if |request| > MAX_REQUEST then TooLong
    else match HeaderLen(request)
      case None => Pending
      case Some(h) => JudgeBlock(request[..h])
  }

  // The verdict in plain terms.

  ghost predicate AnyField(lines: seq<bytes>, p: Field -> bool) {
    exists i :: 0 <= i < |lines| && FieldOf(lines[i]).Some? && p(FieldOf(lines[i]).value)
  }

  /** k is the value of the last usable key line. */
  ghost predicate LastKey(lines: seq<bytes>, k: bytes) {
    exists i :: 0 <= i < |lines| && KeyLine(lines[i], k) && forall j :: i < j < |lines| ==> !UsableKeyLine(lines[j])
  }

  predicate KeyLine(line: bytes, k: bytes) {
    FieldOf(line).Some? && IsKey(FieldOf(line).value) && FieldOf(line).value.value == k
  }

  predicate UsableKeyLine(line: bytes) {
    FieldOf(line).Some? && IsKey(FieldOf(line).value)
  }

  ghost predicate AllFields(lines: seq<bytes>) {
    forall i :: 0 <= i < |lines| ==> FieldOf(lines[i]).Some?
  }

  /** The fold over the header lines is what it should be: every line has a colon, and each
      flag is set exactly when some line sets it; the key is the last usable one. */
  lemma {:induction false} ScanMeaning(lines: seq<bytes>)
    ensures Scan(lines).Some? <==> AllFields(lines)
    ensures Scan(lines).Some? ==>
              var s := Scan(lines).value;
              && (s.upgrade <==> AnyField(lines, IsUpgrade))
              && (s.connection <==> AnyField(lines, IsConnection))
              && (s.version <==> AnyField(lines, IsVersion))
              && (s.key.None? <==> !AnyField(lines, IsKey))
              && (forall k :: s.key == Some(k) <==> LastKey(lines, k))
    decreases |lines|
  {
    hide FieldOf, IsUpgrade, IsConnection, IsVersion, IsKey, AnyField, LastKey, AllFields;
    if lines == [] {
      NoFields();
    } else {
      var front, last := lines[..|lines| - 1], lines[|lines| - 1];
      ScanMeaning(front);
      AllSnoc(lines);
      if AllFields(lines) {
        SomeSnoc(lines, IsUpgrade);
        SomeSnoc(lines, IsConnection);
        SomeSnoc(lines, IsVersion);
        SomeSnoc(lines, IsKey);
        forall k ensures Scan(lines).value.key == Some(k) <==> LastKey(lines, k) {
          LastKeySnoc(lines, k);
        }
      }
    }
  }

  lemma NoFields()
    ensures AllFields([]) && forall k :: !LastKey([], k)
    ensures !AnyField([], IsUpgrade) && !AnyField([], IsConnection) && !AnyField([], IsVersion) && !AnyField([], IsKey)
  {
  }

  lemma AllSnoc(lines: seq<bytes>)
    requires lines != []
    ensures AllFields(lines) <==> AllFields(lines[..|lines| - 1]) && FieldOf(lines[|lines| - 1]).Some?
  {
    hide FieldOf;
    var front := lines[..|lines| - 1];
    assert forall i :: 0 <= i < |front| ==> front[i] == lines[i];
  }

  lemma SomeSnoc(lines: seq<bytes>, p: Field -> bool)
    requires lines != [] && FieldOf(lines[|lines| - 1]).Some?
    ensures AnyField(lines, p) <==> AnyField(lines[..|lines| - 1], p) || p(FieldOf(lines[|lines| - 1]).value)
  {
    hide FieldOf;
    var front := lines[..|lines| - 1];
    if AnyField(front, p) {
      var i :| 0 <= i < |front| && FieldOf(front[i]).Some? && p(FieldOf(front[i]).value);
      assert lines[i] == front[i];
    }
    if AnyField(lines, p) && !p(FieldOf(lines[|lines| - 1]).value) {
      var i :| 0 <= i < |lines| && FieldOf(lines[i]).Some? && p(FieldOf(lines[i]).value);
      assert front[i] == lines[i];
    }
  }

  lemma LastKeySnoc(lines: seq<bytes>, k: bytes)
    requires lines != [] && FieldOf(lines[|lines| - 1]).Some?
    ensures
      var last := lines[|lines| - 1];
      LastKey(lines, k) <==> if UsableKeyLine(last) then KeyLine(last, k) else LastKey(lines[..|lines| - 1], k)
  {
    hide FieldOf, IsKey;
    var front, last := lines[..|lines| - 1], lines[|lines| - 1];
    if LastKey(lines, k) {
      var i :| 0 <= i < |lines| && KeyLine(lines[i], k) && forall j :: i < j < |lines| ==> !UsableKeyLine(lines[j]);
      if i < |front| {
        assert front[i] == lines[i];
        assert !UsableKeyLine(last);
      }
    }
    if !UsableKeyLine(last) && LastKey(front, k) {
      var i :| 0 <= i < |front| && KeyLine(front[i], k) && forall j :: i < j < |front| ==> !UsableKeyLine(front[j]);
      assert lines[i] == front[i];
      forall j | i < j < |lines| ensures !UsableKeyLine(lines[j]) {
        if j < |front| { assert lines[j] == front[j]; }
      }
    }
  }

  /** A block is accepted with key k exactly when its lines satisfy the stated conditions. */
  lemma AcceptedExactly(t: bytes, k: bytes)
    requires IsBlock(t)
    ensures
      var e := LineEnd(t, 0);
      var lines := Lines(t, e + 2);
      e <= |t| - 4 && t == t[..e] + [CR, LF] + Join(lines) + [CR, LF] &&
      (JudgeBlock(t) == Accepted(k, |t|) <==>
       && GoodRequestLine(t[..e])
       && AllFields(lines)
       && AnyField(lines, IsUpgrade)
       && AnyField(lines, IsConnection)
       && AnyField(lines, IsVersion)
       && LastKey(lines, k)
       && CString(k) != [])
  {
    hide GoodRequestLine, Scan, CString, AllFields, AnyField, LastKey, Lines, LineEnd, Join, IsBlock;
    var e := LineEnd(t, 0);
    FirstLine(t);
    JoinLines(t, e + 2);
    ScanMeaning(Lines(t, e + 2));
    assert t == t[..e] + [CR, LF] + t[e + 2..];
    assert t[..e] + [CR, LF] + (Join(Lines(t, e + 2)) + [CR, LF]) == t[..e] + [CR, LF] + Join(Lines(t, e + 2)) + [CR, LF];
  }

  lemma FirstLine(t: bytes)
    requires IsBlock(t)
    ensures LineStart(t, LineEnd(t, 0) + 2) && LineEnd(t, 0) <= |t| - 4
  {
    LineInBlock(t, 0);
  }

  // ---------------------------------------------------------------------
  // A request that is accepted
  // ---------------------------------------------------------------------

  /** A line that has something in it and no CR. */
  predicate IsLine(line: bytes) {
    line != [] && forall i :: 0 <= i < |line| ==> line[i] != CR
  }

  lemma {:induction false} LineEndsAt(t: bytes, i: nat, e: nat)
    requires i <= e && CrLfAt(t, e) && forall j :: i <= j < e ==> t[j] != CR
    ensures LineEnd(t, i) == e
    decreases e - i
  {
    if i < e {
      LineEndsAt(t, i + 1, e);
    }
  }

  /** Where the first of some joined lines is. */
  lemma FirstOfJoin(t: bytes, i: nat, lines: seq<bytes>)
    requires i <= |t| && t[i..] == Join(lines) + [CR, LF] && lines != [] && forall line <- lines :: IsLine(line)
    ensures
      var e := i + |lines[0]|;
      && i < e < |t| && CrLfAt(t, e) && t[i..e] == lines[0] && (forall j :: i <= j < e ==> t[j] != CR)
      && e + 2 <= |t| && t[e + 2..] == Join(lines[1..]) + [CR, LF] && forall line <- lines[1..] :: IsLine(line)
  {
    hide Join;
    var line := lines[0];
    assert line in lines;
    JoinFirst(lines);
    LineAt(t, i, line, Join(lines[1..]) + [CR, LF]);
    var e := i + |line|;
    forall j | i <= j < e
      ensures t[j] != CR
    {
      assert t[j] == t[i..e][j - i];
    }
    forall l | l in lines[1..]
      ensures IsLine(l)
    {
      assert l in lines;
    }
  }

  lemma JoinFirst(lines: seq<bytes>)
    requires lines != []
    ensures Join(lines) + [CR, LF] == lines[0] + [CR, LF] + (Join(lines[1..]) + [CR, LF])
  {
  }

  /** The places of a line and of what follows it. */
  lemma LineAt(t: bytes, i: nat, line: bytes, rest: bytes)
    requires i <= |t| && t[i..] == line + [CR, LF] + rest
    ensures
      var e := i + |line|;
      e + 2 <= |t| && t[i..e] == line && CrLfAt(t, e) && t[e + 2..] == rest
  {
    var u, n := t[i..], |line|;
    assert u[..n] == line && u[n] == CR && u[n + 1] == LF && u[n + 2..] == rest;
    assert t[i..i + n] == u[..n] && t[i + n] == u[n] && t[i + n + 1] == u[n + 1] && t[i + n + 2..] == u[n + 2..];
  }

  /** Joining and splitting undo each other: the lines come back. */
  lemma {:induction false} LinesJoin(t: bytes, i: nat, lines: seq<bytes>)
    requires i <= |t| && t[i..] == Join(lines) + [CR, LF] && forall line <- lines :: IsLine(line)
    ensures Lines(t, i) == lines
    decreases |lines|
  {
    hide LineEnd, Join, IsLine, Lines;
    if lines == [] {
      JoinNothing();
      LineAt(t, i, [], []);
      NoMoreLines(t, i);
    } else {
      FirstOfJoin(t, i, lines);
      var e := i + |lines[0]|;
      LineEndsAt(t, i, e);
      LinesJoin(t, e + 2, lines[1..]);
      OneMoreLine(t, i);
      assert [lines[0]] + lines[1..] == lines;
    }
  }

  lemma OneMoreLine(t: bytes, i: nat)
    requires LineEnd(t, i) != i && i < |t|
    ensures Lines(t, i) == [t[i..LineEnd(t, i)]] + Lines(t, LineEnd(t, i) + 2)
  {
  }

  lemma JoinNothing()
    ensures Join([]) == []
  {
  }

  /** No line but the last is followed by another line end. */
  lemma {:induction false} NoGapInJoin(t: bytes, i: nat, lines: seq<bytes>, j: nat)
    requires i <= |t| && t[i..] == Join(lines) + [CR, LF] && forall line <- lines :: IsLine(line)
    requires i <= j && CrLfAt(t, j) && j + 2 < |t|
    ensures t[j + 2] != CR || j + 4 == |t|
    decreases |lines|
  {
    hide Join, IsLine;
    if lines == [] {
      JoinNothing();
    } else {
      FirstOfJoin(t, i, lines);
      var e := i + |lines[0]|;
      if j == e {
        JoinStarts(lines[1..]);
        assert t[e + 2] == t[e + 2..][0];
      } else {
        assert j != e + 1;
        NoGapInJoin(t, e + 2, lines[1..], j);
      }
    }
  }

  lemma JoinStarts(lines: seq<bytes>)
    requires forall line <- lines :: IsLine(line)
    ensures
      var s := Join(lines) + [CR, LF];
      |s| >= 2 && (lines != [] ==> s[0] != CR) && (lines == [] ==> |s| == 2)
  {
    if lines != [] {
      assert lines[0] in lines;
      assert Join(lines)[0] == lines[0][0];
    }
  }

  function RequestText(first: bytes, lines: seq<bytes>): bytes {
    first + [CR, LF] + Join(lines) + [CR, LF]
  }

  lemma RequestParts(first: bytes, rest: bytes)
    ensures
      var t, e := first + [CR, LF] + rest, |first|;
      t[..e] == first && t[e + 2..] == rest && CrLfAt(t, e) && forall j :: 0 <= j < e ==> t[j] == first[j]
  {
  }

  lemma RequestLines(first: bytes, lines: seq<bytes>)
    requires IsLine(first) && forall line <- lines :: IsLine(line)
    ensures
      var t := RequestText(first, lines);
      IsBlock(t) && LineEnd(t, 0) == |first| && t[..|first|] == first && Lines(t, |first| + 2) == lines
  {
    hide LineEnd, Lines, Join, IsBlock;
    var t, e := RequestText(first, lines), |first|;
    var rest := Join(lines) + [CR, LF];
    assert t == first + [CR, LF] + rest;
    RequestParts(first, rest);
    LineEndsAt(t, 0, e);
    LinesJoin(t, e + 2, lines);
    JoinStarts(lines);
    assert t[e + 2..][0] == t[e + 2];
    OneEmptyLine(t, e, lines);
  }

  lemma OneEmptyLine(t: bytes, e: nat, lines: seq<bytes>)
    requires e + 4 <= |t| && (forall j :: 0 <= j < e ==> t[j] != CR) && CrLfAt(t, e)
    requires t[e + 2..] == Join(lines) + [CR, LF] && forall line <- lines :: IsLine(line)
    requires t[e + 2] != CR || e + 4 == |t|
    ensures IsBlock(t)
  {
    hide Join;
    BeforeEmptyLine(t, e, lines);
    var rest := t[e + 2..];
    assert rest[|rest| - 2..] == [CR, LF];
    assert t[|t| - 2] == rest[|rest| - 2] && t[|t| - 1] == rest[|rest| - 1];
    forall j: nat | j < |t| - 4
      ensures !EndAt(t, j)
    {
      assert j == e ==> t[j + 2] != CR;
      if e + 2 <= j && CrLfAt(t, j) {
        NoGapInJoin(t, e + 2, lines, j);
      }
    }
  }

  lemma BeforeEmptyLine(t: bytes, e: nat, lines: seq<bytes>)
    requires e + 4 <= |t| && CrLfAt(t, e) && t[e + 2..] == Join(lines) + [CR, LF]
    ensures CrLfAt(t, |t| - 4)
    decreases |lines|
  {
    if lines == [] {
      assert |t| == e + 4;
    } else {
      var line := lines[0];
      var e' := e + 2 + |line|;
      assert t[e + 2..] == line + [CR, LF] + (Join(lines[1..]) + [CR, LF]);
      assert t[e'] == t[e + 2..][|line|] && t[e' + 1] == t[e + 2..][|line| + 1];
      assert t[e' + 2..] == t[e + 2..][|line| + 2..];
      BeforeEmptyLine(t, e', lines[1..]);
    }
  }

  /** A header line made of a name and a value. */
  function FieldText(name: bytes, value: bytes): bytes {
    name + [COLON, 32] + value
  }

  lemma {:induction false} ColonAt(line: bytes, i: nat, c: nat)
    requires i <= c < |line| && line[c] == COLON && forall k :: i <= k < c ==> line[k] != COLON
    ensures ColonFrom(line, i) == c
    decreases c - i
  {
    if i < c {
      ColonAt(line, i + 1, c);
    }
  }

  lemma FieldOfText(name: bytes, value: bytes)
    requires COLON !in name && value != [] && !Blank(value[0]) && !Blank(value[|value| - 1])
    ensures FieldOf(FieldText(name, value)) == Some(Field(name, value))
  {
    hide Trim, ColonFrom;
    var line := FieldText(name, value);
    ColonAt(line, 0, |name|);
    assert line[..|name|] == name && line[|name| + 1..] == [32] + value;
    var v := [32] + value;
    assert TrimmedTo(v, 1, |v|);
    TrimExactly(v, 1, |v|);
    assert v[1..|v|] == value;
  }

  /** Text without CR, colon or separators. */
  predicate Plain(s: string) {
    s != "" && forall i :: 0 <= i < |s| ==> s[i] != '\r' && s[i] != ':' && s[i] != ' ' && s[i] != ',' && '\n' < s[i] < '~'
  }

  lemma PlainNames()
    ensures Plain("Upgrade") && Plain("websocket") && Plain("Connection") && Plain("Sec-WebSocket-Version")
    ensures Plain("13") && Plain("Sec-WebSocket-Key")
  {
  }

  lemma PlainAscii(s: string)
    requires Plain(s)
    ensures
      var b := Ascii(s);
      b != [] && forall i :: 0 <= i < |b| ==> b[i] != 0 && b[i] != CR && b[i] != COLON && !IsSep(b[i]) && !Blank(b[i])
  {
    forall i | 0 <= i < |s| ensures Ascii(s)[i] == s[i] as int && Ascii(s)[i] < 126 {
      assert s[i] < '~';
    }
  }

  const REQUEST_LINE := "GET / HTTP/1.1"

  function UpgradeLines(key: bytes): seq<bytes> {
    [FieldText(Ascii("Upgrade"), Ascii("websocket")),
     FieldText(Ascii("Connection"), Ascii("Upgrade")),
     FieldText(Ascii("Sec-WebSocket-Version"), Ascii("13")),
     FieldText(Ascii("Sec-WebSocket-Key"), key)]
  }

  /** The shortest usual request of a client. */
  function UpgradeRequest(key: bytes): bytes {
    RequestText(Ascii(REQUEST_LINE), UpgradeLines(key))
  }

  /** A key that fits its buffer and stands on one line with no blank or NUL at its ends. */
  predicate UsableKeyText(key: bytes) {
    && 0 < |key| < 128 && key[0] != 0 && !Blank(key[0]) && !Blank(key[|key| - 1])
    && forall i :: 0 <= i < |key| ==> key[i] != CR
  }

  lemma PlainField(name: string, value: bytes)
    requires Plain(name) && value != [] && !Blank(value[0]) && !Blank(value[|value| - 1])
    requires forall i :: 0 <= i < |value| ==> value[i] != CR
    ensures FieldOf(FieldText(Ascii(name), value)) == Some(Field(Ascii(name), value))
    ensures IsLine(FieldText(Ascii(name), value))
  {
    hide Ascii, FieldOf, Plain;
    PlainAscii(name);
    FieldOfText(Ascii(name), value);
  }

  lemma GoodFirstLine()
    ensures GoodRequestLine(Ascii(REQUEST_LINE)) && IsLine(Ascii(REQUEST_LINE))
  {
    var line := Ascii(REQUEST_LINE);
    assert line[..4] == Ascii("GET ");
    assert line[5..14] == Ascii(" HTTP/1.1");
    assert SubstringAt(line, Ascii(" HTTP/1.1"), 5);
  }

  lemma UpgradeToken()
    ensures HasToken(Ascii("Upgrade"), Ascii("upgrade"))
  {
    hide Ascii, IsSep, Plain, CiEqual;
    var v := Ascii("Upgrade");
    PlainNames();
    PlainAscii("Upgrade");
    UpgradeIgnoresCase();
    assert v[0..7] == v;
    assert IsToken(v, 0, 7);
  }

  lemma UpgradeIgnoresCase()
    ensures CiEqual(Ascii("Upgrade"), Ascii("upgrade"))
  {
  }

  /** The usual request is accepted with its key, whatever usable key the client chose. */
  lemma UpgradeAccepted(key: bytes)
    requires UsableKeyText(key)
    ensures Judge(UpgradeRequest(key)) == Accepted(key, |UpgradeRequest(key)|)
    ensures |UpgradeRequest(key)| <= 300
  {
    hide FieldOf, GoodRequestLine, JudgeBlock, IsBlock, LineEnd, Lines, Ascii, Plain, AnyField, LastKey, FirstEnd, Join;
    var t, lines := UpgradeRequest(key), UpgradeLines(key);
    GoodFirstLine();
    UpgradeFields(key);
    RequestLines(Ascii(REQUEST_LINE), lines);
    AcceptedExactly(t, key);
    UpgradeSize(key);
    BlockEnd(t, 0);
    assert t[..|t|] == t;
  }

  lemma UpgradeSize(key: bytes)
    requires |key| < 128
    ensures |UpgradeRequest(key)| <= 300
  {
    hide Ascii;
    var ls := UpgradeLines(key);
    assert Join(ls) == ls[0] + [CR, LF] + Join(ls[1..]);
    assert Join(ls[1..]) == ls[1] + [CR, LF] + Join(ls[2..]);
    assert Join(ls[2..]) == ls[2] + [CR, LF] + Join(ls[3..]);
    assert Join(ls[3..]) == ls[3] + [CR, LF] + Join([]);
  }

  lemma UpgradeFields(key: bytes)
    requires UsableKeyText(key)
    ensures
      var lines := UpgradeLines(key);
      && AllFields(lines) && (forall line <- lines :: IsLine(line))
      && AnyField(lines, IsUpgrade) && AnyField(lines, IsConnection) && AnyField(lines, IsVersion)
      && LastKey(lines, key) && CString(key) != []
  {
    hide FieldOf, Plain, Ascii, HasToken, IsLine, FieldText;
    PlainNames();
    PlainAscii("websocket");
    PlainAscii("Upgrade");
    PlainAscii("13");
    PlainField("Upgrade", Ascii("websocket"));
    PlainField("Connection", Ascii("Upgrade"));
    PlainField("Sec-WebSocket-Version", Ascii("13"));
    PlainField("Sec-WebSocket-Key", key);
    UpgradeToken();
    var lines := UpgradeLines(key);
    var f0, f1, f2 := FieldOf(lines[0]), FieldOf(lines[1]), FieldOf(lines[2]);
    assert IsUpgrade(f0.value) && IsConnection(f1.value) && IsVersion(f2.value);
    assert KeyLine(lines[3], key);
  }

  /** Before the header is complete the verdict is Pending; once it is, later bytes do not
      change it, and it depends on the header alone. */
  lemma JudgeChunks(x: bytes, y: bytes)
    requires |x + y| <= MAX_REQUEST
    ensures Judge(x) == Pending <==> HeaderLen(x).None?
    ensures HeaderLen(x).Some? ==>
              var h := HeaderLen(x).value;
              HeaderLen(x + y) == Some(h) && Judge(x + y) == Judge(x) == Judge(x[..h])
    ensures HeaderLen(x).None? && HeaderLen(x + y).Some? ==> |x| < HeaderLen(x + y).value
  {
    hide JudgeBlock;
    JudgeNotPending(x);
    if HeaderLen(x).Some? {
      var h := HeaderLen(x).value;
      FirstEndPrefix(x, y, 0);
      assert (x + y)[..h] == x[..h];
      assert x == x[..h] + x[h..];
      HeaderIsBlock(x);
      BlockEnd(x[..h], 0);
      assert x[..h][..h] == x[..h];
    } else {
      forall j: nat | j + 4 <= |x|
        ensures !EndAt(x + y, j)
      {
        assert !EndAt(x, j);
      }
    }
  }

  lemma JudgedHeader(all: bytes)
    requires Judge(all).Accepted?
    ensures HeaderLen(all) == Some(Judge(all).consumed)
    ensures JudgeBlock(all[..Judge(all).consumed]) == Judge(all)
  {
    hide GoodRequestLine, Scan, Lines, LineEnd, CString;
  }

  lemma JudgeNotPending(x: bytes)
    requires |x| <= MAX_REQUEST
    ensures Judge(x) == Pending <==> HeaderLen(x).None?
  {
    hide GoodRequestLine, Scan, Lines, CString;
  }

  lemma {:induction false} FirstEndPrefix(x: bytes, y: bytes, i: nat)
    requires FirstEnd(x, i).Some?
    ensures FirstEnd(x + y, i) == FirstEnd(x, i)
    decreases |x| - i
  {
    assert EndAt(x + y, i) == EndAt(x, i);
    if !EndAt(x, i) {
      FirstEndPrefix(x, y, i + 1);
    }
  }

  lemma {:induction false} BlockEnd(t: bytes, i: nat)
    requires IsBlock(t) && i <= |t| - 4
    ensures FirstEnd(t, i) == Some(|t|)
    decreases |t| - i
  {
    if i < |t| - 4 {
      assert !EndAt(t, i);
      BlockEnd(t, i + 1);
    }
  }

  // ---------------------------------------------------------------------
  // The scanner
  // ---------------------------------------------------------------------

  method FindHeaderEnd(request: bytes) returns (rc: Status, headerLen: nat)
    ensures rc == Overflow <==> |request| > MAX_REQUEST
    ensures rc == Ok <==> |request| <= MAX_REQUEST && HeaderLen(request).Some?
    ensures rc == Ok || rc == Again || rc == Overflow
    ensures rc == Ok ==> HeaderLen(request) == Some(headerLen)
  {
    headerLen := 0;
    if |request| > MAX_REQUEST {
      return Overflow, 0;
    }
    var i := 0;
    while i + 3 < |request|
      invariant FirstEnd(request, 0) == FirstEnd(request, i)
    {
      if request[i] == CR && request[i + 1] == LF && request[i + 2] == CR && request[i + 3] == LF {
        return Ok, i + 4;
      }
      i := i + 1;
    }
    return Again, 0;
  }

  method FindLineEnd(t: bytes, start: nat) returns (e: nat)
    ensures e == LineEnd(t, start)
  {
    e := start;
    while e + 1 < |t|
      invariant LineEnd(t, start) == LineEnd(t, e)
    {
      if t[e] == CR && t[e + 1] == LF {
        break;
      }
      e := e + 1;
    }
  }

  method CheckRequestLine(line: bytes) returns (ok: bool)
    ensures ok == GoodRequestLine(line)
  {
    if |line| < 14 {
      return false;
    }
    var get := CiEqualN(line, Ascii("GET "), 4);
    assert Ascii("GET ")[..4] == Ascii("GET ");
    if !get {
      return false;
    }
    var v11 := MemoryContains(line, Ascii(" HTTP/1.1"));
    var v10 := MemoryContains(line, Ascii(" HTTP/1.0"));
    return v11 || v10;
  }

  method NoteField(name: bytes, value: bytes, seen: Seen) returns (seen': Seen)
    ensures seen' == Note(seen, Field(name, value))
  {
    hide Ascii, HasToken, IsToken;
    seen' := seen;
    var upgrade := CiEqualString(name, Ascii("Upgrade"));
    var connection := CiEqualString(name, Ascii("Connection"));
    var version := CiEqualString(name, Ascii("Sec-WebSocket-Version"));
    var key := CiEqualString(name, Ascii("Sec-WebSocket-Key"));
    if upgrade {
      var ok := CiEqualString(value, Ascii("websocket"));
      if ok {
        seen' := seen.(upgrade := true);
      }
    } else if connection {
      var ok := ContainsToken(value, Ascii("upgrade"));
      if ok {
        seen' := seen.(connection := true);
      }
    } else if version {
      if |value| == 2 && value == Ascii("13") {
        seen' := seen.(version := true);
      }
    } else if key {
      if |value| != 0 && |value| < 128 {
        seen' := seen.(key := Some(value));
      }
    }
  }

  /** The line loop.  It stops exactly two bytes before the end of the header. */
  method ScanLines(t: bytes, start: nat) returns (rc: Status, seen: Seen, stop: nat)
    requires IsBlock(t) && LineStart(t, start)
    ensures rc == Ok <==> Scan(Lines(t, start)).Some?
    ensures rc == Ok ==> Scan(Lines(t, start)) == Some(seen) && stop == |t| - 2
    ensures rc == Ok || rc == Protocol
  {
    hide FieldOf, Note, Scan, Lines, LineEnd, IsBlock;
    seen := NOTHING_SEEN;
    stop := start;
    ghost var done := [];
    assert done + Lines(t, start) == Lines(t, start);
    ScanEmpty();
    LineStartInBlock(t, start);
    while stop + 1 < |t|
      invariant LineStart(t, stop)
      invariant CrLfAt(t, stop) <==> stop == |t| - 2
      invariant done + Lines(t, stop) == Lines(t, start)
      invariant Scan(done) == Some(seen)
      decreases |t| - stop
    {
      if t[stop] == CR && t[stop + 1] == LF {
        break;
      }
      NextLine(t, stop);
      var e := FindLineEnd(t, stop);
      var line := t[stop..e];
      ScanSnoc(done, line);
      ghost var next := done + [line];
      assert next + Lines(t, e + 2) == done + ([line] + Lines(t, e + 2));
      var field := SplitField(line);
      if field.None? {
        ScanStops(next, Lines(t, e + 2));
        return Protocol, seen, stop;
      }
      seen := NoteField(field.value.name, field.value.value, seen);
      done := next;
      stop := e + 2;
      LineStartInBlock(t, stop);
    }
    NoMoreLines(t, stop);
    assert done + [] == done;
    return Ok, seen, stop;
  }

  lemma ScanEmpty()
    ensures Scan([]) == Some(NOTHING_SEEN)
  {
  }

  lemma ScanSnoc(lines: seq<bytes>, line: bytes)
    ensures Scan(lines + [line]) ==
            if Scan(lines).None? || FieldOf(line).None? then None else Some(Note(Scan(lines).value, FieldOf(line).value))
  {
    hide FieldOf, Note;
    assert (lines + [line])[..|lines|] == lines;
  }

  lemma {:induction false} ScanStops(front: seq<bytes>, rest: seq<bytes>)
    requires Scan(front).None?
    ensures Scan(front + rest).None?
    decreases |rest|
  {
    if rest == [] {
      assert front + rest == front;
    } else {
      var shorter := rest[..|rest| - 1];
      ScanStops(front, shorter);
      assert (front + rest)[..|front + rest| - 1] == front + shorter;
    }
  }

  method SplitField(line: bytes) returns (f: Option<Field>)
    ensures f == FieldOf(line)
  {
    hide Trim;
    var nameLen := 0;
    while nameLen < |line| && line[nameLen] != COLON
      invariant nameLen <= |line|
      invariant ColonFrom(line, 0) == ColonFrom(line, nameLen)
    {
      nameLen := nameLen + 1;
    }
    if nameLen >= |line| {
      return None;
    }
    var v := line[nameLen + 1..];
    var start, len := TrimSpan(v);
    return Some(Field(line[..nameLen], v[start..start + len]));
  }

  // ---------------------------------------------------------------------
  // The response
  // ---------------------------------------------------------------------

  const GUID := "258EAFA5-E914-47DA-95CA-C5AB0DC85B11"
  const PREFIX := "HTTP/1.1 101 Switching Protocols\r\nUpgrade: websocket\r\nConnection: Upgrade\r\nSec-WebSocket-Accept: "

  /** The accept value of section 4.2.2 for a key as a C string. */
  function AcceptValue(key: bytes): bytes {
    Base64.Encode(Sha1.Hash(CString(key) + Ascii(GUID)))
  }

  function Response(key: bytes): bytes {
    Ascii(PREFIX) + AcceptValue(key) + [CR, LF, CR, LF]
  }

  /** The response is always 129 bytes long, and a client can recover the digest from it. */
  lemma ResponseShape(key: bytes)
    ensures |AcceptValue(key)| == 28 && |Response(key)| == 129
    ensures Base64.Decode(Response(key)[97..125]) == Some(Sha1.Hash(CString(key) + Ascii(GUID)))
  {
    hide Ascii, Sha1.Hash, Base64.Encode, Base64.Decode, CString;
    Base64.DecodeEncode(Sha1.Hash(CString(key) + Ascii(GUID)));
    assert |Ascii(PREFIX)| == 97;
    assert Response(key)[97..125] == AcceptValue(key);
  }

  lemma {:induction false} NoNul(s: bytes)
    ensures forall i :: 0 <= i < |Base64.Encode(s)| ==> Base64.Encode(s)[i] != 0
  {
    if |s| >= 3 {
      NoNul(s[3..]);
    }
  }

  method AcceptKey(key: bytes, output: array<byte>, outputSize: nat) returns (rc: Status)
    requires outputSize <= output.Length
    modifies output
    ensures rc ==
      if CString(key) == [] || |CString(key)| > 219 then Invalid
      else if outputSize < 29 then Overflow
      else Ok
    ensures rc == Ok ==> CString(output[..outputSize]) == AcceptValue(key)
  {
    hide Sha1.Hash, Base64.Encode, Ascii, CString;
    var k := CString(key);
    if |k| == 0 || |k| + |GUID| >= 256 {
      return Invalid;
    }
    if outputSize < 29 {
      if output.Length > 0 {
        output[0] := 0;
      }
      return Overflow;
    }
    var digest := new byte[20];
    Sha1.Sum(k + Ascii(GUID), digest);
    var written;
    rc, written := Base64.EncodeInto(digest[..], output, outputSize);
    NoNul(digest[..]);
    var accept := output[..outputSize];
    assert accept[..written] == AcceptValue(key);
    forall i | 0 <= i < written ensures accept[i] != 0 {
      assert accept[i] == Base64.Encode(digest[..])[i];
    }
    CStringUnique(accept, written);
  }

  /** The whole response builder. */
  method BuildResponse(request: bytes, response: array<byte>, responseSize: nat)
    returns (rc: Status, written: nat, consumed: nat)
    requires 0 < responseSize <= response.Length
    modifies response
    ensures
      match Judge(request)
      case Pending => rc == Again
      case TooLong => rc == Overflow
      case Refused => rc == Protocol
      case BadKey => rc == Invalid
      case Accepted(key, h) =>
        if responseSize <= 129 then rc == Overflow
        else rc == Ok && consumed == h && written == 129 && response[..written] == Response(key) && response[written] == 0
    ensures rc != Ok ==> written == 0 && consumed == 0
  {
    hide GoodRequestLine, Scan, Lines, LineEnd, IsBlock, AcceptValue, CString, Ascii;
    var headerLen;
    rc, headerLen := FindHeaderEnd(request);
    if rc != Ok {
      return rc, 0, 0;
    }
    var t := request[..headerLen];
    HeaderIsBlock(request);
    var lineEnd := FindLineEnd(t, 0);
    FirstLine(t);
    var good := CheckRequestLine(t[..lineEnd]);
    if !good {
      return Protocol, 0, 0;
    }
    var seen, stop;
    rc, seen, stop := ScanLines(t, lineEnd + 2);
    if rc != Ok {
      return rc, 0, 0;
    }
    if !seen.upgrade || !seen.connection || !seen.version || seen.key.None? {
      return Protocol, 0, 0;
    }
    var key := seen.key.value;
    UsableKey(Lines(t, lineEnd + 2));
    rc, written := Answer(key, response, responseSize);
    return rc, written, if rc == Ok then headerLen else 0;
  }

  /** Formats the response for an accepted key. */
  method Answer(key: bytes, response: array<byte>, responseSize: nat) returns (rc: Status, written: nat)
    requires 0 < responseSize <= response.Length && |CString(key)| < 128
    modifies response
    ensures rc == if CString(key) == [] then Invalid else if responseSize <= 129 then Overflow else Ok
    ensures rc == Ok ==> written == 129 && response[..129] == Response(key) && response[129] == 0
    ensures rc != Ok ==> written == 0
  {
    hide AcceptValue, CString, Ascii;
    var accept := new byte[29];
    rc := AcceptKey(key, accept, 29);
    if rc != Ok {
      return rc, 0;
    }
    ResponseShape(key);
    var value := CString(accept[..29]);
    var text := Ascii(PREFIX) + value + [CR, LF, CR, LF];
    if responseSize <= |text| {
      response[0] := 0;
      return Overflow, 0;
    }
    Copy(response, 0, text + [0]);
    assert response[..|text| + 1] == text + [0];
    assert response[..|text|] == text;
    return Ok, |text|;
  }

  lemma {:induction false} UsableKey(lines: seq<bytes>)
    requires Scan(lines).Some? && Scan(lines).value.key.Some?
    ensures |Scan(lines).value.key.value| < 128
    decreases |lines|
  {
    hide FieldOf, Ascii;
    if lines != [] {
      var front := lines[..|lines| - 1];
      if Scan(front).value.key.Some? {
        UsableKey(front);
      }
    }
  }
}
