/** The canonical messages that device and server authenticate: the firmware's builders, the
    server's, and the proof that they are the same text.

    A message is its fields joined by line feeds. Header values reach the server as sent. */
module Messages {
  import opened Records
  import opened Texts

  // ---------------------------------------------------------------- joining

  function Join(parts: seq<string>): string {
    if parts == [] then ""
    else if |parts| == 1 then parts[0]
    else parts[0] + "\n" + Join(parts[1..])
  }

  /** Where the first line of `s` ends. */
  function LineEnd(s: string): (k: nat)
    ensures k <= |s| && (k < |s| ==> s[k] == '\n')
    ensures '\n' !in s[..k]
  {
    if s == "" || s[0] == '\n' then 0 else 1 + LineEnd(s[1..])
  }

  function Split(s: string): seq<string>
    decreases |s|
  {
    var k := LineEnd(s);
    if k == |s| then [s] else [s[..k]] + Split(s[k + 1..])
  }

  predicate LineFree(parts: seq<string>) {
    forall i | 0 <= i < |parts| :: '\n' !in parts[i]
  }

  lemma {:induction false} LineEndOf(line: string, rest: string)
    requires '\n' !in line && (rest == "" || rest[0] == '\n')
    ensures LineEnd(line + rest) == |line|
  {
    if line == "" {
      assert line + rest == rest;
    } else {
      LineEndOf(line[1..], rest);
      assert (line + rest)[1..] == line[1..] + rest;
      assert line[0] in line;
    }
  }

  /** Fields without line feeds can be read back from the message. */
  lemma {:induction false} SplitJoin(parts: seq<string>)
    requires parts != [] && LineFree(parts)
    ensures Split(Join(parts)) == parts
  {
    var first := parts[0];
    if |parts| == 1 {
      LineEndOf(first, "");
      assert first + "" == first && parts == [first];
    } else {
      SplitFirst(first, Join(parts[1..]));
      assert Join(parts) == first + "\n" + Join(parts[1..]);
      SplitJoin(parts[1..]);
      assert parts == [first] + parts[1..];
    }
  }

  lemma SplitFirst(line: string, rest: string)
    requires '\n' !in line
    ensures Split(line + "\n" + rest) == [line] + Split(rest)
  {
    var s := line + "\n" + rest;
    LineEndOf(line, "\n" + rest);
    assert s == line + ("\n" + rest) && s[..|line|] == line && s[|line| + 1..] == rest;
  }

  /** Two messages with the same text have the same fields. */
  lemma MessagesAreInjective(a: seq<string>, b: seq<string>)
    requires a != [] && b != [] && LineFree(a) && LineFree(b) && Join(a) == Join(b)
    ensures a == b
  {
    SplitJoin(a);
    SplitJoin(b);
  }

  lemma {:induction false} JoinNests(a: seq<string>, b: seq<string>)
    requires a != [] && b != []
    ensures Join(a + [Join(b)]) == Join(a + b)
  {
    if |a| == 1 {
      assert (a + [Join(b)])[1..] == [Join(b)] && (a + b)[1..] == b;
    } else {
      JoinNests(a[1..], b);
      assert (a + [Join(b)])[1..] == a[1..] + [Join(b)] && (a + b)[1..] == a[1..] + b;
    }
  }

  // ---------------------------------------------------------------- the server's side

  /** build_canonical_message: the extra data is a field only when there is some. */
  function ServerMessage(verb: string, path: string, timestamp: string, nonce: string, extra: string): string {
    var parts := [Upper(verb), path, timestamp, nonce];
    if extra == "" then Join(parts) else Join(parts + [extra])
  }

  function DashFree(s: string): string {
    if s == "" then "" else (if s[0] == '-' then "" else [s[0]]) + DashFree(s[1..])
  }

  /** uuid.UUID on hexadecimal digits and dashes. */
  function ParseUuid(s: string): Option<Uuid> {
    var h := DashFree(s);
    if |h| == 32 && AllHex(h) && HexOf(h) < UUID_LIMIT then Some(HexOf(h)) else None
  }

  /** str(uuid.UUID(header.strip())). */
  function ServerUuid(header: string): Option<string> {
    var id := ParseUuid(Strip(header));
    if id.Some? then Some(UuidText(id.value)) else None
  }

  /** str(int(header)) on digits. */
  function ServerInt(header: string): Option<string> {
    var s := Strip(header);
    if s != "" && AllDigits(s) then Some(NatText(NatOf(s))) else None
  }

  // ---------------------------------------------------------------- the firmware's side

  const NEXT_PATH := "/api/v1/device/signature-requests/next"
  const CHALLENGE_PATH := "/api/v1/auth/challenge"
  const COMPLETE_PATH := "/api/v1/auth/complete"
  const SIGN_PATH := "/api/v1/sign"

  function StatusPath(requestId: string): string {
    "/api/v1/device/signature-requests/" + requestId + "/status"
  }

  datatype Assignment = Assignment(requestId: string, documentId: string, documentHash: string, decision: string)

  predicate IsSeparator(i: int) {
    i == 8 || i == 13 || i == 18 || i == 23
  }

  predicate IsUuidText(s: string) {
    |s| == 36 && forall i | 0 <= i < 36 :: if IsSeparator(i) then s[i] == '-' else IsHexDigit(s[i])
  }

  predicate IsHexText(s: string, n: nat) {
    |s| == n && AllHex(s)
  }

  method IsUuidString(value: string) returns (ok: bool)
    ensures ok <==> IsUuidText(value)
    ensures ok <==> |value| == 36 && forall i | 0 <= i < 36 ::
      if i in {8, 13, 18, 23} then value[i] == '-'
      else '0' <= value[i] <= '9' || 'a' <= value[i] <= 'f' || 'A' <= value[i] <= 'F'
  {
    if |value| != 36 {
      return false;
    }
    for i := 0 to |value|
      invariant forall j | 0 <= j < i :: if IsSeparator(j) then value[j] == '-' else IsHexDigit(value[j])
    {
      if i == 8 || i == 13 || i == 18 || i == 23 {
        if value[i] != '-' {
          return false;
        }
      } else if !IsHexDigit(value[i]) {
        return false;
      }
    }
    return true;
  }

  method IsHexString(value: string, expectedLength: nat) returns (ok: bool)
    ensures ok <==> IsHexText(value, expectedLength)
    ensures ok <==> |value| == expectedLength && forall i | 0 <= i < |value| ::
      '0' <= value[i] <= '9' || 'a' <= value[i] <= 'f' || 'A' <= value[i] <= 'F'
  {
    if |value| != expectedLength {
      return false;
    }
    for i := 0 to |value|
      invariant AllHex(value[..i])
    {
      if !IsHexDigit(value[i]) {
        assert !AllHex(value);
        return false;
      }
      assert value[..i + 1] == value[..i] + [value[i]];
    }
    assert value[..|value|] == value;
    return true;
  }

  /** Trim and fold every field. */
  function Normalized(t: Assignment): Assignment {
    Assignment(
      Lower(Trim(t.requestId)), Lower(Trim(t.documentId)), Lower(Trim(t.documentHash)), Upper(Trim(t.decision)))
  }

  predicate ValidAssignment(t: Assignment) {
    IsUuidText(t.requestId) && IsUuidText(t.documentId) && IsHexText(t.documentHash, 64) && t.decision == APPROVE
  }

  /** The firmware keeps the normalised fields and says whether they are usable. */
  method ValidateSignatureRequest(request: Assignment) returns (normalized: Assignment, ok: bool)
    ensures normalized == Normalized(request)
    ensures ok <==> ValidAssignment(normalized)
  {
    normalized := Assignment(
      Lower(Trim(request.requestId)), Lower(Trim(request.documentId)),
      Lower(Trim(request.documentHash)), Upper(Trim(request.decision)));
    ok := IsUuidString(normalized.requestId);
    if ok {
      ok := IsUuidString(normalized.documentId);
    }
    if ok {
      ok := IsHexString(normalized.documentHash, 64);
    }
    ok := ok && normalized.decision == "APPROVE";
  }

  predicate IsCodeChar(c: char) {
    'A' <= c <= 'Z' || '0' <= c <= '9' || c == '_'
  }

  predicate IsFailureCode(s: string) {
    3 <= |s| <= 64 && forall i | 0 <= i < |s| :: IsCodeChar(s[i])
  }

  method NormalizeFailureCode(raw: string) returns (code: string, ok: bool)
    ensures code == Upper(Trim(raw))
    ensures ok <==> IsFailureCode(code)
    ensures ok <==> 3 <= |code| <= 64 && forall i | 0 <= i < |code| ::
      'A' <= code[i] <= 'Z' || '0' <= code[i] <= '9' || code[i] == '_'
  {
    code := Upper(Trim(raw));
    if |code| < 3 || |code| > 64 {
      return code, false;
    }
    for i := 0 to |code|
      invariant forall j | 0 <= j < i :: IsCodeChar(code[j])
    {
      if !IsCodeChar(code[i]) {
        return code, false;
      }
    }
    ok := true;
  }

  /** Each pair of hexadecimal digits spells one byte. */
  predicate Decodes(hex: string, bytes: seq<nat>) {
    |hex| == 2 * |bytes| && AllHex(hex)
    && forall i | 0 <= i < |bytes| :: bytes[i] == HexDigitValue(hex[2 * i]) * 16 + HexDigitValue(hex[2 * i + 1])
  }

  /** Decode a hexadecimal text into a byte buffer; the buffer may be half written when the
      text turns out bad. */
  method HexToBytes(hex: string, output: array<nat>) returns (ok: bool)
    modifies output
    ensures ok <==> |hex| == output.Length * 2 && AllHex(hex)
    ensures ok ==> Decodes(hex, output[..])
  {
    if |hex| != output.Length * 2 {
      return false;
    }
    for i := 0 to output.Length
      invariant Decodes(hex[..2 * i], output[..i])
    {
      var high, low := hex[2 * i], hex[2 * i + 1];
      if !IsHexDigit(high) || !IsHexDigit(low) {
        return false;
      }
      output[i] := HexDigitValue(high) * 16 + HexDigitValue(low);
      assert hex[..2 * i + 2] == hex[..2 * i] + [high, low];
      assert output[..i + 1] == output[..i] + [output[i]];
    }
    assert hex[..2 * output.Length] == hex && output[..output.Length] == output[..];
    return true;
  }

  function Nibble(bytes: seq<nat>, k: nat): (d: nat)
    requires k < 2 * |bytes|
    ensures d < 16
  {
    if k % 2 == 0 then bytes[k / 2] / 16 % 16 else bytes[k / 2] % 16
  }

  /** bytes.hex(), and the "%02x" loops. */
  function BytesText(bytes: seq<nat>): string {
    seq(2 * |bytes|, k requires 0 <= k < 2 * |bytes| => HexChar(Nibble(bytes, k)))
  }

  lemma TwoDigits(h: nat, l: nat)
    requires h < 16 && l < 16
    ensures (h * 16 + l) / 16 % 16 == h && (h * 16 + l) % 16 == l
  {
  }

  lemma NibbleDecodes(hex: string, bytes: seq<nat>, k: nat)
    requires Decodes(hex, bytes) && k < |hex|
    ensures Nibble(bytes, k) == HexDigitValue(hex[k])
  {
    var i := k / 2;
    TwoDigits(HexDigitValue(hex[2 * i]), HexDigitValue(hex[2 * i + 1]));
  }

  lemma HexCharOf(c: char)
    requires IsHexDigit(c)
    ensures HexChar(HexDigitValue(c)) == LowerChar(c)
  {
  }

  /** Printing the decoded bytes gives the text back in lower case. */
  lemma BytesPrintBack(hex: string, bytes: seq<nat>)
    requires Decodes(hex, bytes)
    ensures BytesText(bytes) == Lower(hex)
  {
    forall k | 0 <= k < |hex| ensures BytesText(bytes)[k] == Lower(hex)[k] {
      NibbleDecodes(hex, bytes, k);
      HexCharOf(hex[k]);
    }
  }

  // ---------------------------------------------------------------- normalisation agrees

  /** A normalised identifier: lower case, as the firmware keeps it. */
  predicate IsCanonicalUuid(s: string) {
    IsUuidText(s) && Lower(s) == s
  }

  lemma {:induction false} DashFreeSplits(a: string, b: string)
    ensures DashFree(a + b) == DashFree(a) + DashFree(b)
  {
    if a == "" {
      assert a + b == b;
    } else {
      var rest, head := a[1..], if a[0] == '-' then "" else [a[0]];
      DashFreeSplits(rest, b);
      assert (a + b)[1..] == rest + b && (a + b)[0] == a[0];
      assert DashFree(a + b) == head + DashFree(rest + b);
      assert head + (DashFree(rest) + DashFree(b)) == head + DashFree(rest) + DashFree(b);
    }
  }

  lemma {:induction false} HexIsDashFree(s: string)
    requires AllHex(s)
    ensures DashFree(s) == s
  {
    if s != "" {
      HexIsDashFree(s[1..]);
      assert s == [s[0]] + s[1..];
    }
  }

  lemma HexThenDash(s: string, k: nat, m: nat)
    requires k <= m < |s| && AllHex(s[k..m]) && s[m] == '-'
    ensures DashFree(s[k..]) == s[k..m] + DashFree(s[m + 1..])
  {
    assert s[k..] == s[k..m] + s[m..] && s[m..][1..] == s[m + 1..];
    DashFreeSplits(s[k..m], s[m..]);
    HexIsDashFree(s[k..m]);
  }

  /** Removing the dashes of a UUID's text leaves its digits. */
  lemma UuidDigits(s: string)
    requires IsUuidText(s)
    ensures AllHex(Undashed(s)) && DashFree(s) == Undashed(s)
  {
    HexThenDash(s, 0, 8);
    HexThenDash(s, 9, 13);
    HexThenDash(s, 14, 18);
    HexThenDash(s, 19, 23);
    HexIsDashFree(s[24..]);
    assert s[0..] == s;
    Associates(s[..8], s[9..13], s[14..18], s[19..23], s[24..]);
  }

  lemma Associates(a: string, b: string, c: string, d: string, e: string)
    ensures a + b + c + d + e == a + (b + (c + (d + e)))
  {
  }

  lemma UndashedDashes(s: string)
    requires IsUuidText(s)
    ensures Dashed(Undashed(s)) == s
  {
    var h := Undashed(s);
    assert h[..8] == s[..8] && h[8..12] == s[9..13] && h[12..16] == s[14..18]
      && h[16..20] == s[19..23] && h[20..] == s[24..];
    assert s == s[..8] + "-" + s[9..13] + "-" + s[14..18] + "-" + s[19..23] + "-" + s[24..];
  }

  lemma UndashedIsHex(s: string)
    requires IsCanonicalUuid(s)
    ensures AllLowerHex(Undashed(s))
  {
    UuidDigits(s);
    var h := Undashed(s);
    forall i | 0 <= i < |h| ensures IsLowerHex(h[i]) {
      var k :=
        if i < 8 then i else if i < 12 then i + 1 else if i < 16 then i + 2 else if i < 20 then i + 3 else i + 4;
      assert h[i] == s[k] && Lower(s)[k] == LowerChar(s[k]);
    }
  }

  /** Parsing and printing fixes the identifier the firmware sends. */
  lemma UuidRoundTrip(s: string)
    requires IsCanonicalUuid(s)
    ensures ServerUuid(s) == Some(s)
  {
    StripTrims(s);
    UuidDigits(s);
    var h := Undashed(s);
    UndashedIsHex(s);
    HexOfPrints(h);
    UuidLimitIsPow16();
    UndashedDashes(s);
  }

  /** The server's own identifiers are canonical, and parse back to themselves. */
  lemma UuidTextIsCanonical(id: Uuid)
    ensures IsCanonicalUuid(UuidText(id)) && ParseUuid(Strip(UuidText(id))) == Some(id)
  {
    var s, h := UuidText(id), HexText(id, 32);
    assert IsCanonicalUuid(s) by {
      forall i | 0 <= i < 36 ensures if IsSeparator(i) then s[i] == '-' else IsLowerHex(s[i]) {
        DashedAt(h, i);
      }
      assert forall i | 0 <= i < 36 :: Lower(s)[i] == s[i];
    }
    UuidRoundTrip(s);
    var parsed := ParseUuid(Strip(s));
    UuidTextIsInjective(parsed.value, id);
  }

  lemma DashedAt(h: string, i: nat)
    requires |h| == 32 && i < 36
    ensures if IsSeparator(i) then Dashed(h)[i] == '-' else exists k | 0 <= k < 32 :: Dashed(h)[i] == h[k]
  {
    if !IsSeparator(i) {
      var k := if i < 8 then i else if i < 13 then i - 1 else if i < 18 then i - 2 else if i < 23 then i - 3 else i - 4;
      assert Dashed(h)[i] == h[k];
    }
  }

  lemma IntRoundTrip(n: nat)
    ensures ServerInt(IntText(n)) == Some(IntText(n))
  {
    var s := NatText(n);
    assert IsDigit(s[0]) && IsDigit(s[|s| - 1]);
    StripTrims(s);
    NatTextReads(n);
  }

  // ---------------------------------------------------------------- one message, two builders

  /** The server's message for an endpoint, from the headers; `None` where it rejects one. */
  function ServerChallenge(
    timestamp: string, nonce: string, rfid: string, document: string, hash: string, decision: string): Option<string>
  {
    var id := ServerUuid(document);
    if id.None? then None
    else
      Some(ServerMessage("POST", CHALLENGE_PATH, timestamp, nonce,
        Join([Upper(Strip(rfid)), id.value, Lower(Strip(hash)), Upper(Strip(decision))])))
  }

  function ServerComplete(
    timestamp: string, nonce: string, session: string, challenge: string, rfid: string, fingerprint: string,
    document: string, hash: string, decision: string): Option<string>
  {
    var id, sid, finger := ServerUuid(document), ServerUuid(session), ServerInt(fingerprint);
    if id.None? || sid.None? || finger.None? then None
    else
      Some(ServerMessage("POST", COMPLETE_PATH, timestamp, nonce,
        Join([sid.value, Lower(Strip(challenge)), Upper(Strip(rfid)), finger.value, id.value,
              Lower(Strip(hash)), Upper(Strip(decision))])))
  }

  function ServerSign(
    timestamp: string, nonce: string, session: string, document: string, hash: string, decision: string): Option<string>
  {
    var id, sid := ServerUuid(document), ServerUuid(session);
    if id.None? || sid.None? then None
    else
      Some(ServerMessage("POST", SIGN_PATH, timestamp, nonce,
        Join([sid.value, id.value, Lower(Strip(hash)), Upper(Strip(decision))])))
  }

  function ServerNext(timestamp: string, nonce: string, deviceUid: string): string {
    ServerMessage("POST", NEXT_PATH, timestamp, nonce, Upper(Strip(deviceUid)))
  }

  function ServerReport(
    requestId: string, timestamp: string, nonce: string, deviceUid: string, state: string, failureCode: string): string
  {
    ServerMessage("POST", StatusPath(requestId), timestamp, nonce,
      Join([Upper(Strip(deviceUid)), state, Upper(Strip(failureCode))]))
  }

  /** The firmware appends a line feed and the next field, field by field. */
  function Appended(message: string, fields: seq<string>): string
    decreases |fields|
  {
    if fields == [] then message else Appended(message + "\n" + fields[0], fields[1..])
  }

  function FirmwareNext(timestamp: string, nonce: string, deviceUid: string): string {
    Appended("POST", [NEXT_PATH, timestamp, nonce, deviceUid])
  }

  function FirmwareChallenge(timestamp: string, nonce: string, rfid: string, t: Assignment): string {
    Appended("POST", [CHALLENGE_PATH, timestamp, nonce, rfid, t.documentId, t.documentHash, t.decision])
  }

  function FirmwareComplete(
    timestamp: string, nonce: string, session: string, challenge: string, rfid: string, fingerprint: int,
    t: Assignment): string
  {
    Appended("POST", [COMPLETE_PATH, timestamp, nonce, session, challenge, rfid, IntText(fingerprint),
                      t.documentId, t.documentHash, t.decision])
  }

  function FirmwareSign(timestamp: string, nonce: string, session: string, t: Assignment): string {
    Appended("POST", [SIGN_PATH, timestamp, nonce, session, t.documentId, t.documentHash, t.decision])
  }

  function FirmwareReport(
    requestId: string, timestamp: string, nonce: string, deviceUid: string, failureCode: string): string
  {
    Appended("POST", [StatusPath(requestId), timestamp, nonce, deviceUid, "FAILED", failureCode])
  }

  lemma {:induction false} JoinGrows(acc: string, field: string, rest: seq<string>)
    ensures Join([acc + "\n" + field] + rest) == Join([acc, field] + rest)
  {
    assert ([acc, field] + rest)[1..] == [field] + rest;
    if rest != [] {
      assert ([acc + "\n" + field] + rest)[1..] == rest && ([field] + rest)[1..] == rest;
      assert acc + "\n" + field + "\n" + Join(rest) == acc + "\n" + (field + "\n" + Join(rest));
    }
  }

  lemma {:induction false} AppendedJoins(message: string, fields: seq<string>)
    ensures Appended(message, fields) == Join([message] + fields)
    decreases |fields|
  {
    if fields != [] {
      AppendedJoins(message + "\n" + fields[0], fields[1..]);
      JoinGrows(message, fields[0], fields[1..]);
      assert [message, fields[0]] + fields[1..] == [message] + fields;
    }
  }

  /** Upper case, with nothing at the ends that either side trims. */
  predicate Folded(s: string) {
    Trimmed(s) && Upper(s) == s
  }

  predicate KeptAssignment(t: Assignment) {
    ValidAssignment(t) && Lower(t.requestId) == t.requestId && Lower(t.documentId) == t.documentId
    && Lower(t.documentHash) == t.documentHash
  }

  /** An assignment the firmware accepts is in the form the server normalises to. */
  lemma AcceptedAssignmentIsKept(t: Assignment)
    requires ValidAssignment(Normalized(t))
    ensures KeptAssignment(Normalized(t))
  {
    assert Lower(Lower(Trim(t.requestId))) == Lower(Trim(t.requestId));
    assert Lower(Lower(Trim(t.documentId))) == Lower(Trim(t.documentId));
    assert Lower(Lower(Trim(t.documentHash))) == Lower(Trim(t.documentHash));
  }

  lemma HashIsFixed(h: string)
    requires IsHexText(h, 64) && Lower(h) == h
    ensures Lower(Strip(h)) == h
  {
    StripTrims(h);
  }

  lemma FoldedIsFixed(s: string)
    requires Folded(s)
    ensures Upper(Strip(s)) == s
  {
    StripTrims(s);
  }

  lemma ApproveIsFixed()
    ensures Upper(Strip(APPROVE)) == APPROVE
  {
    StripTrims(APPROVE);
    assert Upper(APPROVE) == APPROVE;
  }

  lemma PostIsUpper()
    ensures Upper("POST") == "POST"
  {
    assert Upper("POST") == "POST";
  }

  /** The server's message is one join of all its fields. */
  lemma ServerJoins(path: string, timestamp: string, nonce: string, fields: seq<string>)
    requires fields != [] && Join(fields) != ""
    ensures ServerMessage("POST", path, timestamp, nonce, Join(fields))
      == Join(["POST", path, timestamp, nonce] + fields)
  {
    PostIsUpper();
    JoinNests(["POST", path, timestamp, nonce], fields);
  }

  lemma SomeTextIsJoined(fields: seq<string>)
    requires |fields| >= 2 || (|fields| == 1 && fields[0] != "")
    ensures Join(fields) != ""
  {
    assert |fields| >= 2 ==> |Join(fields)| == |fields[0]| + 1 + |Join(fields[1..])|;
  }

  lemma FirmwareJoins(path: string, timestamp: string, nonce: string, fields: seq<string>)
    ensures Appended("POST", [path, timestamp, nonce] + fields) == Join(["POST", path, timestamp, nonce] + fields)
  {
    AppendedJoins("POST", [path, timestamp, nonce] + fields);
    assert ["POST"] + ([path, timestamp, nonce] + fields) == ["POST", path, timestamp, nonce] + fields;
  }

  /** Both sides' messages are the join of one list of fields. */
  lemma BuildersAgree(path: string, timestamp: string, nonce: string, fields: seq<string>)
    requires |fields| >= 2 || (|fields| == 1 && fields[0] != "")
    ensures ServerMessage("POST", path, timestamp, nonce, Join(fields))
      == Appended("POST", [path, timestamp, nonce] + fields)
    ensures Appended("POST", [path, timestamp, nonce] + fields) == Join(["POST", path, timestamp, nonce] + fields)
  {
    SomeTextIsJoined(fields);
    ServerJoins(path, timestamp, nonce, fields);
    FirmwareJoins(path, timestamp, nonce, fields);
  }

  lemma NextMessagesAgree(timestamp: string, nonce: string, deviceUid: string)
    requires Folded(deviceUid) && deviceUid != ""
    ensures ServerNext(timestamp, nonce, deviceUid) == FirmwareNext(timestamp, nonce, deviceUid)
  {
    FoldedIsFixed(deviceUid);
    BuildersAgree(NEXT_PATH, timestamp, nonce, [deviceUid]);
    assert [NEXT_PATH, timestamp, nonce] + [deviceUid] == [NEXT_PATH, timestamp, nonce, deviceUid];
  }

  /** For every assignment the firmware accepts, the server rebuilds the firmware's challenge
      message byte for byte. */
  lemma ChallengeMessagesAgree(timestamp: string, nonce: string, rfid: string, t: Assignment)
    requires KeptAssignment(t) && Folded(rfid)
    ensures ServerChallenge(timestamp, nonce, rfid, t.documentId, t.documentHash, t.decision)
      == Some(FirmwareChallenge(timestamp, nonce, rfid, t))
  {
    UuidRoundTrip(t.documentId);
    HashIsFixed(t.documentHash);
    FoldedIsFixed(rfid);
    ApproveIsFixed();
    var fields := [rfid, t.documentId, t.documentHash, t.decision];
    BuildersAgree(CHALLENGE_PATH, timestamp, nonce, fields);
    assert [CHALLENGE_PATH, timestamp, nonce] + fields
      == [CHALLENGE_PATH, timestamp, nonce, rfid, t.documentId, t.documentHash, t.decision];
  }

  lemma CompleteMessagesAgree(
    timestamp: string, nonce: string, session: string, challenge: string, rfid: string, fingerprint: nat, t: Assignment)
    requires KeptAssignment(t) && Folded(rfid) && IsCanonicalUuid(session)
    requires IsHexText(challenge, 64) && Lower(challenge) == challenge
    ensures
      ServerComplete(timestamp, nonce, session, challenge, rfid, IntText(fingerprint),
                     t.documentId, t.documentHash, t.decision)
      == Some(FirmwareComplete(timestamp, nonce, session, challenge, rfid, fingerprint, t))
  {
    UuidRoundTrip(t.documentId);
    UuidRoundTrip(session);
    IntRoundTrip(fingerprint);
    HashIsFixed(t.documentHash);
    HashIsFixed(challenge);
    FoldedIsFixed(rfid);
    ApproveIsFixed();
    var fields := [session, challenge, rfid, IntText(fingerprint), t.documentId, t.documentHash, t.decision];
    BuildersAgree(COMPLETE_PATH, timestamp, nonce, fields);
    assert [COMPLETE_PATH, timestamp, nonce] + fields
      == [COMPLETE_PATH, timestamp, nonce, session, challenge, rfid, IntText(fingerprint),
          t.documentId, t.documentHash, t.decision];
  }

  lemma SignMessagesAgree(timestamp: string, nonce: string, session: string, t: Assignment)
    requires KeptAssignment(t) && IsCanonicalUuid(session)
    ensures ServerSign(timestamp, nonce, session, t.documentId, t.documentHash, t.decision)
      == Some(FirmwareSign(timestamp, nonce, session, t))
  {
    UuidRoundTrip(t.documentId);
    UuidRoundTrip(session);
    HashIsFixed(t.documentHash);
    ApproveIsFixed();
    var fields := [session, t.documentId, t.documentHash, t.decision];
    BuildersAgree(SIGN_PATH, timestamp, nonce, fields);
    assert [SIGN_PATH, timestamp, nonce] + fields
      == [SIGN_PATH, timestamp, nonce, session, t.documentId, t.documentHash, t.decision];
  }

  lemma ReportMessagesAgree(requestId: string, timestamp: string, nonce: string, deviceUid: string, failureCode: string)
    requires Folded(deviceUid) && IsFailureCode(failureCode)
    ensures ServerReport(requestId, timestamp, nonce, deviceUid, "FAILED", failureCode)
      == FirmwareReport(requestId, timestamp, nonce, deviceUid, failureCode)
  {
    FoldedIsFixed(deviceUid);
    CodeIsFixed(failureCode);
    var fields := [deviceUid, "FAILED", failureCode];
    BuildersAgree(StatusPath(requestId), timestamp, nonce, fields);
    assert [StatusPath(requestId), timestamp, nonce] + fields
      == [StatusPath(requestId), timestamp, nonce, deviceUid, "FAILED", failureCode];
  }

  lemma CodeIsFixed(code: string)
    requires IsFailureCode(code)
    ensures Upper(Strip(code)) == code
  {
    StripTrims(code);
    assert Upper(code) == code;
  }

  /** The lines of the authenticated text. */
  lemma LinesOf(message: string, fields: seq<string>)
    requires LineFree([message] + fields)
    ensures Split(Appended(message, fields)) == [message] + fields
  {
    AppendedJoins(message, fields);
    SplitJoin([message] + fields);
  }

  /** What device and server authenticate, line by line. */
  lemma NextLines(ts: string, nonce: string, uid: string)
    requires LineFree(["POST", NEXT_PATH, ts, nonce, uid])
    ensures Split(FirmwareNext(ts, nonce, uid))
      == ["POST", "/api/v1/device/signature-requests/next", ts, nonce, uid]
  {
    var fields := [NEXT_PATH, ts, nonce, uid];
    assert ["POST"] + fields == ["POST", NEXT_PATH, ts, nonce, uid];
    LinesOf("POST", fields);
  }

  lemma ChallengeLines(ts: string, nonce: string, rfid: string, t: Assignment)
    requires LineFree(["POST", CHALLENGE_PATH, ts, nonce, rfid, t.documentId, t.documentHash, t.decision])
    ensures Split(FirmwareChallenge(ts, nonce, rfid, t))
      == ["POST", "/api/v1/auth/challenge", ts, nonce, rfid, t.documentId, t.documentHash, t.decision]
  {
    var fields := [CHALLENGE_PATH, ts, nonce, rfid, t.documentId, t.documentHash, t.decision];
    assert ["POST"] + fields == ["POST", CHALLENGE_PATH, ts, nonce, rfid, t.documentId, t.documentHash, t.decision];
    LinesOf("POST", fields);
  }

  lemma CompleteLines(
    ts: string, nonce: string, session: string, challenge: string, rfid: string, finger: int, t: Assignment)
    requires LineFree(["POST", COMPLETE_PATH, ts, nonce, session, challenge, rfid, IntText(finger),
                       t.documentId, t.documentHash, t.decision])
    ensures Split(FirmwareComplete(ts, nonce, session, challenge, rfid, finger, t))
      == ["POST", "/api/v1/auth/complete", ts, nonce, session, challenge, rfid, IntText(finger),
          t.documentId, t.documentHash, t.decision]
  {
    var fields := [COMPLETE_PATH, ts, nonce, session, challenge, rfid, IntText(finger),
                   t.documentId, t.documentHash, t.decision];
    assert ["POST"] + fields == ["POST", COMPLETE_PATH, ts, nonce, session, challenge, rfid, IntText(finger),
                                 t.documentId, t.documentHash, t.decision];
    LinesOf("POST", fields);
  }

  lemma SignLines(ts: string, nonce: string, session: string, t: Assignment)
    requires LineFree(["POST", SIGN_PATH, ts, nonce, session, t.documentId, t.documentHash, t.decision])
    ensures Split(FirmwareSign(ts, nonce, session, t))
      == ["POST", "/api/v1/sign", ts, nonce, session, t.documentId, t.documentHash, t.decision]
  {
    var fields := [SIGN_PATH, ts, nonce, session, t.documentId, t.documentHash, t.decision];
    assert ["POST"] + fields == ["POST", SIGN_PATH, ts, nonce, session, t.documentId, t.documentHash, t.decision];
    LinesOf("POST", fields);
  }

  lemma ReportLines(requestId: string, ts: string, nonce: string, uid: string, code: string)
    requires LineFree(["POST", StatusPath(requestId), ts, nonce, uid, "FAILED", code])
    ensures Split(FirmwareReport(requestId, ts, nonce, uid, code))
      == ["POST", "/api/v1/device/signature-requests/" + requestId + "/status", ts, nonce, uid, "FAILED", code]
  {
    var fields := [StatusPath(requestId), ts, nonce, uid, "FAILED", code];
    assert ["POST"] + fields == ["POST", StatusPath(requestId), ts, nonce, uid, "FAILED", code];
    LinesOf("POST", fields);
  }

  // ---------------------------------------------------------------- endpoints stay apart

  datatype Endpoint = Next | Challenge | Complete | Sign | Status(requestId: string)

  function PathOf(e: Endpoint): string {
    match e
    case Next => NEXT_PATH
    case Challenge => CHALLENGE_PATH
    case Complete => COMPLETE_PATH
    case Sign => SIGN_PATH
    case Status(id) => StatusPath(id)
  }

  lemma PathsDiffer(a: Endpoint, b: Endpoint)
    requires PathOf(a) == PathOf(b)
    ensures a == b
  {
    var p := PathOf(a);
    assert NEXT_PATH[|NEXT_PATH| - 2] == 'x' && CHALLENGE_PATH[|CHALLENGE_PATH| - 2] == 'g';
    assert COMPLETE_PATH[|COMPLETE_PATH| - 2] == 't' && SIGN_PATH[|SIGN_PATH| - 2] == 'g';
    if a.Status? {
      assert p[|p| - 2] == 'u';
    }
    if b.Status? {
      assert p[|p| - 2] == 'u';
    }
    if a.Status? && b.Status? {
      var prefix := "/api/v1/device/signature-requests/";
      assert p[|prefix|..|p| - 7] == a.requestId && p[|prefix|..|p| - 7] == b.requestId;
    }
  }

  /** A message names its endpoint and every field: two calls with one message go to one
      endpoint, at one timestamp, with one nonce and the same fields. */
  lemma OneMessageOneCall(
    a: Endpoint, timestampA: string, nonceA: string, fieldsA: seq<string>,
    b: Endpoint, timestampB: string, nonceB: string, fieldsB: seq<string>)
    requires LineFree([PathOf(a), timestampA, nonceA] + fieldsA) && LineFree([PathOf(b), timestampB, nonceB] + fieldsB)
    requires Join(["POST", PathOf(a), timestampA, nonceA] + fieldsA)
      == Join(["POST", PathOf(b), timestampB, nonceB] + fieldsB)
    ensures a == b && timestampA == timestampB && nonceA == nonceB && fieldsA == fieldsB
  {
    var x, y := ["POST", PathOf(a), timestampA, nonceA] + fieldsA, ["POST", PathOf(b), timestampB, nonceB] + fieldsB;
    assert x[1..] == [PathOf(a), timestampA, nonceA] + fieldsA && y[1..] == [PathOf(b), timestampB, nonceB] + fieldsB;
    assert LineFree(x) by { assert forall i | 1 <= i < |x| :: x[i] == x[1..][i - 1]; }
    assert LineFree(y) by { assert forall i | 1 <= i < |y| :: y[i] == y[1..][i - 1]; }
    MessagesAreInjective(x, y);
    assert x[1] == y[1] && x[2] == y[2] && x[3] == y[3] && x[4..] == fieldsA && y[4..] == fieldsB;
    PathsDiffer(a, b);
  }
}
