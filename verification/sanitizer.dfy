/** The sanitiser of audit details: what it removes, how it bounds a value, and what it
    leaves alone. */
module Sanitizer {
  import opened Records
  import opened Texts
  import opened AuditValues

  const MAX_DEPTH: nat := 5
  const MAX_ITEMS: nat := 50
  const MAX_STRING: nat := 512
  const MAX_KEY: nat := 128
  const TRUNCATED := "[TRUNCATED]"
  const TRUNCATED_KEY := "_truncated"

  const SENSITIVE_KEYS := {
    "password", "password_hash", "device_secret", "hmac_secret", "hmac_key", "hmac_signature", "x_signature",
    "admin_api_key", "softhsm_pin", "softhsm_user_pin", "private_key", "session_token", "cookie",
    "authorization", "csrf", "csrf_token", "tsa_key", "tsa_private_key", "ca_private_key"}

  const SENSITIVE_KEY_PARTS := [
    "password", "private_key", "device_secret", "hmac", "admin_api_key", "session_token", "session_cookie",
    "session_secret", "authorization", "cookie", "csrf", "softhsm_pin", "softhsm_user_pin", "tsa_key", "ca_private_key"]

  // ---------------------------------------------------------------- keys

  predicate IsWordChar(c: char) {
    'a' <= c <= 'z' || '0' <= c <= '9'
  }

  function SkipPunctuation(s: string): (r: string)
    ensures |r| <= |s| && (r == "" || IsWordChar(r[0]))
  {
    if s != "" && !IsWordChar(s[0]) then SkipPunctuation(s[1..]) else s
  }

  /** Each run of other characters becomes one underscore. */
  function Collapse(s: string): string
    decreases |s|
  {
    if s == "" then ""
    else if IsWordChar(s[0]) then [s[0]] + Collapse(s[1..])
    else "_" + Collapse(SkipPunctuation(s[1..]))
  }

  function DropLeading(s: string): string {
    if s != "" && s[0] == '_' then DropLeading(s[1..]) else s
  }

  function DropTrailing(s: string): string {
    if s != "" && s[|s| - 1] == '_' then DropTrailing(s[..|s| - 1]) else s
  }

  function NormalizedKey(key: string): string {
    DropTrailing(DropLeading(Collapse(Lower(Strip(key)))))
  }

  predicate OccursAt(s: string, part: string, i: nat) {
    i + |part| <= |s| && s[i..i + |part|] == part
  }

  predicate Contains(s: string, part: string) {
    exists i | 0 <= i <= |s| :: OccursAt(s, part, i)
  }

  predicate IsSensitiveWord(k: string) {
    k in SENSITIVE_KEYS || exists i | 0 <= i < |SENSITIVE_KEY_PARTS| :: Contains(k, SENSITIVE_KEY_PARTS[i])
  }

  predicate IsSensitive(key: string) {
    IsSensitiveWord(NormalizedKey(key))
  }

  lemma ForeignCharNotContained(s: string, part: string, i: nat)
    requires i < |part| && part[i] !in s
    ensures !Contains(s, part)
  {
    forall k | 0 <= k <= |s| ensures !OccursAt(s, part, k) {
      if k + |part| <= |s| {
        assert s[k + i] in s;
        assert s[k..k + |part|][i] == s[k + i];
      }
    }
  }

  /** A short word without these letters contains no sensitive part. */
  lemma NoShortPart(word: string)
    requires |word| in {5, 9} && 'p' !in word && 'h' !in word && 'o' !in word && 's' !in word
    ensures !IsSensitiveWord(word)
  {
    assert forall k | k in SENSITIVE_KEYS :: |k| !in {5, 9};
    forall i | 0 <= i < |SENSITIVE_KEY_PARTS| ensures !Contains(word, SENSITIVE_KEY_PARTS[i]) {
      var part := SENSITIVE_KEY_PARTS[i];
      if |part| <= 9 {
        assert part in {"password", "hmac", "cookie", "csrf", "tsa_key"};
        ForeignCharNotContained(word, part, if part == "password" || part == "hmac" then 0 else 1);
      }
    }
  }

  lemma {:induction false} WordsCollapseToThemselves(s: string)
    requires forall i | 0 <= i < |s| :: IsWordChar(s[i])
    ensures Collapse(s) == s
  {
    if s != "" {
      WordsCollapseToThemselves(s[1..]);
      assert s == [s[0]] + s[1..];
    }
  }

  lemma TruncationMarkCollapses(key: string)
    requires key == TRUNCATED_KEY
    ensures Collapse(key) == "_" + key[1..]
  {
    WordsCollapseToThemselves(key[1..]);
    assert SkipPunctuation(key[1..]) == key[1..];
  }

  lemma TruncationMarkNormalizes(key: string)
    requires key == TRUNCATED_KEY
    ensures NormalizedKey(key) == key[1..]
  {
    var word := key[1..];
    StripTrims(key);
    assert Lower(key) == key;
    TruncationMarkCollapses(key);
    assert ("_" + word)[1..] == word;
  }

  lemma MarkWordIsPlain(word: string)
    requires word == "truncated"
    ensures !IsSensitiveWord(word)
  {
    NoShortPart(word);
  }

  /** The mark of a shortened mapping is not itself dropped by a second pass. */
  lemma TruncationMarkIsNotSensitive(key: string)
    requires key == TRUNCATED_KEY
    ensures !IsSensitive(key)
  {
    TruncationMarkNormalizes(key);
    assert key[1..] == "truncated";
    MarkWordIsPlain(key[1..]);
  }

  /** Nor is the key that scalar details are stored under. */
  lemma ValueKeyIsNotSensitive(key: string)
    requires key == "value"
    ensures !IsSensitive(key)
  {
    StripTrims(key);
    assert Lower(key) == key;
    WordsCollapseToThemselves(key);
    NoShortPart(key);
  }

  /** Runs of anything but small letters and digits between two words count as one underscore. */
  lemma {:induction false} WordsAreJoined(a: string, gap: string, b: string)
    requires gap != "" && b != ""
    requires forall i | 0 <= i < |a| :: 'a' <= a[i] <= 'z' || '0' <= a[i] <= '9'
    requires forall i | 0 <= i < |b| :: 'a' <= b[i] <= 'z' || '0' <= b[i] <= '9'
    requires forall i | 0 <= i < |gap| :: !('a' <= gap[i] <= 'z' || '0' <= gap[i] <= '9')
    ensures Collapse(a + gap + b) == a + "_" + b
    decreases a
  {
    if a == "" {
      GapIsSkipped(gap[1..], b);
      assert (a + gap + b)[1..] == gap[1..] + b;
      WordsCollapseToThemselves(b);
    } else {
      WordsAreJoined(a[1..], gap, b);
      assert (a + gap + b)[1..] == a[1..] + gap + b;
      assert a == [a[0]] + a[1..];
    }
  }

  lemma {:induction false} GapIsSkipped(gap: string, b: string)
    requires b != "" && IsWordChar(b[0]) && forall i | 0 <= i < |gap| :: !IsWordChar(gap[i])
    ensures SkipPunctuation(gap + b) == b
  {
    if gap != "" {
      assert (gap + b)[1..] == gap[1..] + b;
      GapIsSkipped(gap[1..], b);
    } else {
      assert gap + b == b;
    }
  }

  lemma {:induction false} LStripOfUpper(s: string)
    ensures LStrip(Upper(s)) == Upper(LStrip(s))
  {
    if s != "" && IsBlank(s[0]) {
      assert Upper(s)[1..] == Upper(s[1..]);
      LStripOfUpper(s[1..]);
    } else {
      assert s != "" ==> Upper(s)[0] == UpperChar(s[0]);
    }
  }

  lemma {:induction false} RStripOfUpper(s: string)
    ensures RStrip(Upper(s)) == Upper(RStrip(s))
  {
    if s != "" && IsBlank(s[|s| - 1]) {
      assert Upper(s)[..|s| - 1] == Upper(s[..|s| - 1]);
      RStripOfUpper(s[..|s| - 1]);
    } else {
      assert s != "" ==> Upper(s)[|s| - 1] == UpperChar(s[|s| - 1]);
    }
  }

  /** Whether a key is sensitive does not depend on the case of its letters. */
  lemma CaseDoesNotHideAKey(key: string)
    ensures NormalizedKey(Upper(key)) == NormalizedKey(key)
    ensures IsSensitive(Upper(key)) == IsSensitive(key)
  {
    LStripOfUpper(key);
    RStripOfUpper(LStrip(key));
    var s := Strip(key);
    assert Strip(Upper(key)) == Upper(s);
    assert Lower(Upper(s)) == Lower(s);
  }

  // ---------------------------------------------------------------- values

  /** Assigning to a dictionary: in place for a key it has, at the end otherwise. */
  function SetKey(d: Entries, key: string, value: Value): Entries {
    match d
    case NoEntries => Entry(key, value, NoEntries)
    case Entry(k, v, rest) => if k == key then Entry(k, value, rest) else Entry(k, v, SetKey(rest, key, value))
  }

  /** The text redactor, the text of an instant, and the keys to drop; the service drops
      those of `IsSensitive`. */
  datatype Texter = Texter(redact: string -> string, stamp: Time -> string, sensitive: string -> bool)

  function Sanitized(v: Value, depth: nat, t: Texter): Value {
    if depth > MAX_DEPTH then Text(TRUNCATED)
    else match v
      case Nothing => v
      case Flag(_) => v
      case Whole(_) => v
      case Real(finite, repr) => if finite then v else Text(repr)
      case Uid(id) => Text(UuidText(id))
      case Instant(time) => Text(t.stamp(time))
      case Enumerated(value) => Sanitized(value, depth, t)
      case Map(entries) => Map(SanitizedEntries(entries, 0, depth, NoEntries, t))
      case Array(elements) => Array(SanitizedElements(elements, 0, depth, t))
      case Text(text) => Text(t.redact(text))
      case Other(repr) => Text(t.redact(repr))
  }

  /** The loop over a mapping's items, with the dictionary built so far. */
  function SanitizedEntries(raw: Entries, index: nat, depth: nat, built: Entries, t: Texter): Entries {
    if raw.NoEntries? then built
    else if index >= MAX_ITEMS then SetKey(built, TRUNCATED_KEY, Flag(true))
    else
      var key := Clip(raw.key, MAX_KEY);
      if t.sensitive(key) then SanitizedEntries(raw.rest, index + 1, depth, built, t)
      else SanitizedEntries(raw.rest, index + 1, depth, SetKey(built, key, Sanitized(raw.value, depth + 1, t)), t)
  }

  function SanitizedElements(raw: Elements, index: nat, depth: nat, t: Texter): Elements {
    if raw.NoElements? then NoElements
    else if index >= MAX_ITEMS then Element(Text(TRUNCATED), NoElements)
    else Element(Sanitized(raw.first, depth + 1, t), SanitizedElements(raw.rest, index + 1, depth, t))
  }

  /** A value that is not a container is wrapped in one. */
  function SanitizedDetails(v: Value, t: Texter): Value {
    if v.Nothing? then Nothing
    else
      var s := Sanitized(v, 0, t);
      if s.Map? || s.Array? then s else Map(Entry("value", s, NoEntries))
  }

  // ---------------------------------------------------------------- non-interference

  /** The values differ at most in what sensitive keys hold, at any depth. */
  predicate Alike(a: Value, b: Value, t: Texter) {
    match a
    case Map(entries) => b.Map? && AlikeEntries(entries, b.entries, t)
    case Array(elements) => b.Array? && AlikeElements(elements, b.elements, t)
    case Enumerated(value) => b.Enumerated? && Alike(value, b.value, t)
    case _ => a == b
  }

  predicate AlikeEntries(a: Entries, b: Entries, t: Texter) {
    match a
    case NoEntries => b.NoEntries?
    case Entry(key, value, rest) =>
      && b.Entry? && b.key == key && AlikeEntries(rest, b.rest, t)
      && (t.sensitive(Clip(key, MAX_KEY)) || Alike(value, b.value, t))
  }

  predicate AlikeElements(a: Elements, b: Elements, t: Texter) {
    match a
    case NoElements => b.NoElements?
    case Element(first, rest) => b.Element? && Alike(first, b.first, t) && AlikeElements(rest, b.rest, t)
  }

  /** Nothing a sensitive key holds reaches the sanitised value. */
  lemma {:induction false} SecretsDoNotInterfere(a: Value, b: Value, depth: nat, t: Texter)
    requires Alike(a, b, t)
    ensures Sanitized(a, depth, t) == Sanitized(b, depth, t)
    decreases a
  {
    match a {
      case Map(entries) => SecretEntriesDoNotInterfere(entries, b.entries, 0, depth, NoEntries, t);
      case Array(elements) => SecretElementsDoNotInterfere(elements, b.elements, 0, depth, t);
      case Enumerated(value) => SecretsDoNotInterfere(value, b.value, depth, t);
      case _ =>
    }
  }

  lemma {:induction false} SecretEntriesDoNotInterfere(
    a: Entries, b: Entries, index: nat, depth: nat, built: Entries, t: Texter)
    requires AlikeEntries(a, b, t)
    ensures SanitizedEntries(a, index, depth, built, t) == SanitizedEntries(b, index, depth, built, t)
    decreases a
  {
    if a.Entry? && index < MAX_ITEMS {
      var key := Clip(a.key, MAX_KEY);
      if t.sensitive(key) {
        SecretEntriesDoNotInterfere(a.rest, b.rest, index + 1, depth, built, t);
      } else {
        SecretsDoNotInterfere(a.value, b.value, depth + 1, t);
        SecretEntriesDoNotInterfere(
          a.rest, b.rest, index + 1, depth, SetKey(built, key, Sanitized(a.value, depth + 1, t)), t);
      }
    }
  }

  lemma {:induction false} SecretElementsDoNotInterfere(a: Elements, b: Elements, index: nat, depth: nat, t: Texter)
    requires AlikeElements(a, b, t)
    ensures SanitizedElements(a, index, depth, t) == SanitizedElements(b, index, depth, t)
    decreases a
  {
    if a.Element? && index < MAX_ITEMS {
      SecretsDoNotInterfere(a.first, b.first, depth + 1, t);
      SecretElementsDoNotInterfere(a.rest, b.rest, index + 1, depth, t);
    }
  }

  // ---------------------------------------------------------------- what the sanitiser returns

  /** What the model assumes of the redactor: it is idempotent, its results are short, and
      the texts the sanitiser itself produces are short and contain nothing to redact. */
  ghost predicate Redacts(t: Texter) {
    && (forall s :: Plain(t, t.redact(s)))
    && t.redact(TRUNCATED) == TRUNCATED
    && !t.sensitive(TRUNCATED_KEY) && !t.sensitive("value")
    && (forall id :: Plain(t, UuidText(id)))
    && (forall time :: Plain(t, t.stamp(time)))
  }

  predicate Plain(t: Texter, s: string) {
    |s| <= MAX_STRING && t.redact(s) == s
  }

  /** The service's sanitiser: its own sensitive keys, with any redactor and any text of instants. */
  function Service(redact: string -> string, stamp: Time -> string): Texter {
    Texter(redact, stamp, IsSensitive)
  }

  ghost predicate RedactorOk(redact: string -> string, stamp: Time -> string) {
    && (forall s :: |redact(s)| <= MAX_STRING && redact(redact(s)) == redact(s))
    && redact(TRUNCATED) == TRUNCATED
    && (forall id: Uuid :: |UuidText(id)| <= MAX_STRING && redact(UuidText(id)) == UuidText(id))
    && (forall time :: |stamp(time)| <= MAX_STRING && redact(stamp(time)) == stamp(time))
  }

  /** Of its keys the service need assume nothing: its two own keys are not sensitive. */
  lemma ServiceRedacts(redact: string -> string, stamp: Time -> string)
    requires RedactorOk(redact, stamp)
    ensures Redacts(Service(redact, stamp))
  {
    TruncationMarkIsNotSensitive(TRUNCATED_KEY);
    ValueKeyIsNotSensitive("value");
  }

  /** The texts of the non-finite floats in the value are plain. */
  predicate PlainFloats(v: Value, t: Texter) {
    match v
    case Real(finite, repr) => finite || Plain(t, repr)
    case Enumerated(value) => PlainFloats(value, t)
    case Map(entries) => PlainEntries(entries, t)
    case Array(elements) => PlainElements(elements, t)
    case _ => true
  }

  predicate PlainEntries(entries: Entries, t: Texter) {
    entries.Entry? ==> PlainFloats(entries.value, t) && PlainEntries(entries.rest, t)
  }

  predicate PlainElements(elements: Elements, t: Texter) {
    elements.Element? ==> PlainFloats(elements.first, t) && PlainElements(elements.rest, t)
  }

  function Keys(d: Entries): set<string> {
    if d.NoEntries? then {} else {d.key} + Keys(d.rest)
  }

  function Size(d: Entries): nat {
    if d.NoEntries? then 0 else 1 + Size(d.rest)
  }

  predicate IsMark(key: string, value: Value) {
    key == TRUNCATED_KEY && value == Flag(true)
  }

  /** A value the sanitiser may return at this depth: JSON scalars, short plain texts, and
      containers at depth at most five. */
  predicate Output(v: Value, depth: nat, t: Texter) {
    if depth > MAX_DEPTH then v == Text(TRUNCATED)
    else match v
      case Nothing => true
      case Flag(_) => true
      case Whole(_) => true
      case Real(finite, _) => finite
      case Text(text) => Plain(t, text)
      case Map(entries) => OutputEntries(entries, 0, depth, t)
      case Array(elements) => OutputElements(elements, 0, depth, t)
      case _ => false
  }

  /** Distinct, short keys, none of them sensitive; a 51st entry can only be the mark. */
  predicate OutputEntries(d: Entries, index: nat, depth: nat, t: Texter) {
    d.Entry? ==>
      && |d.key| <= MAX_KEY && !t.sensitive(d.key) && d.key !in Keys(d.rest)
      && (Output(d.value, depth + 1, t) || IsMark(d.key, d.value))
      && OutputEntries(d.rest, index + 1, depth, t)
      && (index >= MAX_ITEMS ==> IsMark(d.key, d.value) && d.rest.NoEntries?)
  }

  predicate OutputElements(e: Elements, index: nat, depth: nat, t: Texter) {
    e.Element? ==>
      && Output(e.first, depth + 1, t)
      && OutputElements(e.rest, index + 1, depth, t)
      && (index >= MAX_ITEMS ==> e == Element(Text(TRUNCATED), NoElements))
  }

  lemma {:induction false} SanitizedIsOutput(v: Value, depth: nat, t: Texter)
    requires Redacts(t) && PlainFloats(v, t)
    ensures Output(Sanitized(v, depth, t), depth, t)
    decreases v
  {
    if depth <= MAX_DEPTH {
      match v {
        case Uid(id) => assert Plain(t, UuidText(id));
        case Instant(time) => assert Plain(t, t.stamp(time));
        case Enumerated(value) => SanitizedIsOutput(value, depth, t);
        case Map(entries) => SanitizedEntriesAreOutput(entries, 0, depth, NoEntries, t);
        case Array(elements) => SanitizedElementsAreOutput(elements, 0, depth, t);
        case _ =>
      }
    }
  }

  /** The dictionary built from the first `index` items. */
  predicate Built(d: Entries, index: nat, depth: nat, t: Texter) {
    OutputEntries(d, 0, depth, t) && Size(d) <= index <= MAX_ITEMS
  }

  lemma {:induction false} SanitizedEntriesAreOutput(raw: Entries, index: nat, depth: nat, built: Entries, t: Texter)
    requires Redacts(t) && PlainEntries(raw, t) && Built(built, index, depth, t)
    ensures OutputEntries(SanitizedEntries(raw, index, depth, built, t), 0, depth, t)
    decreases raw
  {
    if raw.Entry? && index < MAX_ITEMS {
      var key := Clip(raw.key, MAX_KEY);
      if t.sensitive(key) {
        SanitizedEntriesAreOutput(raw.rest, index + 1, depth, built, t);
      } else {
        var value := Sanitized(raw.value, depth + 1, t);
        SanitizedIsOutput(raw.value, depth + 1, t);
        SetKeyStaysOutput(built, key, value, 0, depth, t);
        SanitizedEntriesAreOutput(raw.rest, index + 1, depth, SetKey(built, key, value), t);
      }
    } else {
      SetKeyStaysOutput(built, TRUNCATED_KEY, Flag(true), 0, depth, t);
    }
  }

  lemma {:induction false} SetKeyStaysOutput(d: Entries, key: string, value: Value, index: nat, depth: nat, t: Texter)
    requires OutputEntries(d, index, depth, t)
    requires |key| <= MAX_KEY && !t.sensitive(key) && (Output(value, depth + 1, t) || IsMark(key, value))
    requires index + Size(d) <= MAX_ITEMS && (index + Size(d) == MAX_ITEMS && key !in Keys(d) ==> IsMark(key, value))
    ensures OutputEntries(SetKey(d, key, value), index, depth, t)
    ensures Keys(SetKey(d, key, value)) == Keys(d) + {key}
    ensures Size(SetKey(d, key, value)) == if key in Keys(d) then Size(d) else Size(d) + 1
  {
    if d.Entry? && d.key != key {
      SetKeyStaysOutput(d.rest, key, value, index + 1, depth, t);
    }
  }

  lemma {:induction false} SanitizedElementsAreOutput(raw: Elements, index: nat, depth: nat, t: Texter)
    requires Redacts(t) && PlainElements(raw, t) && index <= MAX_ITEMS
    ensures OutputElements(SanitizedElements(raw, index, depth, t), index, depth, t)
    decreases raw
  {
    if raw.Element? {
      if index >= MAX_ITEMS {
        assert Output(Text(TRUNCATED), depth + 1, t);
      } else {
        SanitizedIsOutput(raw.first, depth + 1, t);
        SanitizedElementsAreOutput(raw.rest, index + 1, depth, t);
      }
    }
  }

  // ---------------------------------------------------------------- sanitising twice

  /** No mapping at the depth limit carries its truncation mark before the 51st place. */
  predicate MarksInPlace(v: Value, depth: nat) {
    match v
    case Map(entries) => MarksInPlaceIn(entries, 0, depth)
    case Array(elements) => MarksInPlaceAmong(elements, 0, depth)
    case _ => true
  }

  predicate MarksInPlaceIn(d: Entries, index: nat, depth: nat) {
    d.Entry? && index < MAX_ITEMS ==>
      && (depth >= MAX_DEPTH ==> !IsMark(d.key, d.value))
      && MarksInPlace(d.value, depth + 1)
      && MarksInPlaceIn(d.rest, index + 1, depth)
  }

  predicate MarksInPlaceAmong(e: Elements, index: nat, depth: nat) {
    e.Element? && index < MAX_ITEMS ==> MarksInPlace(e.first, depth + 1) && MarksInPlaceAmong(e.rest, index + 1, depth)
  }

  function Append(a: Entries, b: Entries): Entries {
    match a
    case NoEntries => b
    case Entry(key, value, rest) => Entry(key, value, Append(rest, b))
  }

  /** The dictionary with the values of its first fifty entries sanitised. */
  function Again(d: Entries, index: nat, depth: nat, t: Texter): Entries {
    match d
    case NoEntries => NoEntries
    case Entry(key, value, rest) =>
      Entry(key, if index < MAX_ITEMS then Sanitized(value, depth + 1, t) else value, Again(rest, index + 1, depth, t))
  }

  /** A second pass over a dictionary keeps its keys and their order. */
  lemma {:induction false} SecondPass(d: Entries, built: Entries, depth: nat, t: Texter)
    requires OutputEntries(d, Size(built), depth, t) && Keys(built) !! Keys(d)
    ensures SanitizedEntries(d, Size(built), depth, built, t) == Append(built, Again(d, Size(built), depth, t))
    decreases d
  {
    if d.NoEntries? {
      AppendNothing(built);
    } else if Size(built) >= MAX_ITEMS {
      SetFreshKeyAppends(built, d.key, d.value);
    } else {
      var value := Sanitized(d.value, depth + 1, t);
      SetFreshKeyAppends(built, d.key, value);
      SecondPass(d.rest, SetKey(built, d.key, value), depth, t);
      AppendMoves(built, d.key, value, Again(d.rest, Size(built) + 1, depth, t));
    }
  }

  lemma {:induction false} AppendNothing(a: Entries)
    ensures Append(a, NoEntries) == a
  {
    if a.Entry? {
      AppendNothing(a.rest);
    }
  }

  lemma {:induction false} SetFreshKeyAppends(d: Entries, key: string, value: Value)
    requires key !in Keys(d)
    ensures SetKey(d, key, value) == Append(d, Entry(key, value, NoEntries))
    ensures Size(SetKey(d, key, value)) == Size(d) + 1
    ensures Keys(SetKey(d, key, value)) == Keys(d) + {key}
  {
    if d.Entry? {
      SetFreshKeyAppends(d.rest, key, value);
    }
  }

  lemma {:induction false} AppendMoves(a: Entries, key: string, value: Value, b: Entries)
    ensures Append(Append(a, Entry(key, value, NoEntries)), b) == Append(a, Entry(key, value, b))
  {
    if a.Entry? {
      AppendMoves(a.rest, key, value, b);
    }
  }

  /** What the sanitiser returned, it returns unchanged the second time exactly when every
      truncation mark is in its place. */
  lemma {:induction false} OutputIsFixedExactlyWhenMarksAreInPlace(v: Value, depth: nat, t: Texter)
    requires Redacts(t) && Output(v, depth, t)
    ensures Sanitized(v, depth, t) == v <==> MarksInPlace(v, depth)
    decreases v
  {
    if depth <= MAX_DEPTH {
      match v {
        case Map(entries) =>
          SecondPass(entries, NoEntries, depth, t);
          EntriesFixed(entries, 0, depth, t);
        case Array(elements) => ElementsFixed(elements, 0, depth, t);
        case _ =>
      }
    }
  }

  lemma {:induction false} EntriesFixed(d: Entries, index: nat, depth: nat, t: Texter)
    requires Redacts(t) && OutputEntries(d, index, depth, t) && depth <= MAX_DEPTH
    ensures Again(d, index, depth, t) == d <==> MarksInPlaceIn(d, index, depth)
    decreases d
  {
    if d.Entry? {
      EntriesFixed(d.rest, index + 1, depth, t);
      if index < MAX_ITEMS && Output(d.value, depth + 1, t) {
        OutputIsFixedExactlyWhenMarksAreInPlace(d.value, depth + 1, t);
      }
    }
  }

  lemma {:induction false} ElementsFixed(e: Elements, index: nat, depth: nat, t: Texter)
    requires Redacts(t) && OutputElements(e, index, depth, t) && depth <= MAX_DEPTH
    ensures SanitizedElements(e, index, depth, t) == e <==> MarksInPlaceAmong(e, index, depth)
    decreases e
  {
    if e.Element? && index < MAX_ITEMS {
      OutputIsFixedExactlyWhenMarksAreInPlace(e.first, depth + 1, t);
      ElementsFixed(e.rest, index + 1, depth, t);
    }
  }

  // ---------------------------------------------------------------- where the marks come from

  /** The keys the loop will still assign from these items on. */
  function Written(raw: Entries, index: nat, t: Texter): set<string> {
    if raw.NoEntries? then {}
    else if index >= MAX_ITEMS then {TRUNCATED_KEY}
    else
      var key := Clip(raw.key, MAX_KEY);
      (if t.sensitive(key) then {} else {key}) + Written(raw.rest, index + 1, t)
  }

  /** The first fifty keys are all kept apart: none is sensitive, none clips to an earlier one
      or to the mark's. */
  predicate KeptApart(raw: Entries, index: nat, seen: set<string>, t: Texter) {
    raw.Entry? && index < MAX_ITEMS ==>
      var key := Clip(raw.key, MAX_KEY);
      && !t.sensitive(key) && key !in seen && key != TRUNCATED_KEY
      && KeptApart(raw.rest, index + 1, seen + {key}, t)
  }

  /** No mapping five levels down that counts has more than fifty items unless its first fifty
      keys are all kept apart. What counts is what is neither under a sensitive key, nor
      overridden by a later item of the mapping, nor past the fiftieth place. */
  predicate Steady(v: Value, depth: nat, t: Texter) {
    depth <= MAX_DEPTH ==>
      match v
      case Enumerated(value) => Steady(value, depth, t)
      case Array(elements) => SteadyElements(elements, 0, depth, t)
      case Map(entries) =>
        if depth < MAX_DEPTH then SteadyEntries(entries, 0, depth, t)
        else Size(entries) <= MAX_ITEMS || KeptApart(entries, 0, {}, t)
      case _ => true
  }

  predicate SteadyEntries(raw: Entries, index: nat, depth: nat, t: Texter) {
    raw.Entry? && index < MAX_ITEMS ==>
      var key := Clip(raw.key, MAX_KEY);
      && (t.sensitive(key) || key in Written(raw.rest, index + 1, t) || Steady(raw.value, depth + 1, t))
      && SteadyEntries(raw.rest, index + 1, depth, t)
  }

  predicate SteadyElements(raw: Elements, index: nat, depth: nat, t: Texter) {
    raw.Element? && index < MAX_ITEMS ==>
      Steady(raw.first, depth + 1, t) && SteadyElements(raw.rest, index + 1, depth, t)
  }

  predicate Distinct(d: Entries) {
    d.Entry? ==> d.key !in Keys(d.rest) && Distinct(d.rest)
  }

  /** The marks inside the values are in place, those under the keys of `skip` aside. */
  predicate SteadyBut(d: Entries, skip: set<string>, depth: nat) {
    d.Entry? ==> (d.key in skip || MarksInPlace(d.value, depth + 1)) && SteadyBut(d.rest, skip, depth)
  }

  lemma {:induction false} SkippingAnAbsentKey(d: Entries, skip: set<string>, key: string, depth: nat)
    requires key !in Keys(d)
    ensures SteadyBut(d, skip + {key}, depth) <==> SteadyBut(d, skip, depth)
  {
    if d.Entry? {
      SkippingAnAbsentKey(d.rest, skip, key, depth);
    }
  }

  lemma {:induction false} SetKeySize(d: Entries, key: string, value: Value)
    ensures Keys(SetKey(d, key, value)) == Keys(d) + {key}
    ensures Size(SetKey(d, key, value)) == if key in Keys(d) then Size(d) else Size(d) + 1
    ensures Distinct(d) ==> Distinct(SetKey(d, key, value))
  {
    if d.Entry? && d.key != key {
      SetKeySize(d.rest, key, value);
    }
  }

  lemma {:induction false} SetKeySteady(d: Entries, key: string, value: Value, skip: set<string>, depth: nat)
    requires Distinct(d)
    ensures SteadyBut(SetKey(d, key, value), skip, depth)
      <==> SteadyBut(d, skip + {key}, depth) && (key in skip || MarksInPlace(value, depth + 1))
  {
    if d.Entry? {
      if d.key == key {
        SkippingAnAbsentKey(d.rest, skip, key, depth);
      } else {
        SetKeySteady(d.rest, key, value, skip, depth);
      }
    }
  }

  lemma {:induction false} ShortIsSteady(d: Entries, index: nat, depth: nat)
    requires index + Size(d) <= MAX_ITEMS && depth < MAX_DEPTH
    ensures MarksInPlaceIn(d, index, depth) <==> SteadyBut(d, {}, depth)
  {
    if d.Entry? {
      ShortIsSteady(d.rest, index + 1, depth);
    }
  }

  lemma {:induction false} MarkedIsSteady(d: Entries, index: nat, depth: nat)
    requires index + Size(d) <= MAX_ITEMS && depth < MAX_DEPTH && Distinct(d)
    ensures MarksInPlaceIn(SetKey(d, TRUNCATED_KEY, Flag(true)), index, depth) <==> SteadyBut(d, {TRUNCATED_KEY}, depth)
  {
    if d.Entry? {
      if d.key == TRUNCATED_KEY {
        ShortIsSteady(d.rest, index + 1, depth);
        SkippingAnAbsentKey(d.rest, {}, TRUNCATED_KEY, depth);
        assert {} + {TRUNCATED_KEY} == {TRUNCATED_KEY};
      } else {
        MarkedIsSteady(d.rest, index + 1, depth);
      }
    }
  }

  /** Above the depth limit a mark does no harm by itself; what the kept values hold decides. */
  lemma {:induction false} EntriesSteady(raw: Entries, index: nat, depth: nat, built: Entries, t: Texter)
    requires depth < MAX_DEPTH && Size(built) <= index <= MAX_ITEMS && Distinct(built)
    ensures MarksInPlaceIn(SanitizedEntries(raw, index, depth, built, t), 0, depth)
      <==> SteadyEntries(raw, index, depth, t) && SteadyBut(built, Written(raw, index, t), depth)
    decreases raw
  {
    if raw.NoEntries? {
      ShortIsSteady(built, 0, depth);
    } else if index >= MAX_ITEMS {
      MarkedIsSteady(built, 0, depth);
    } else {
      var key, later := Clip(raw.key, MAX_KEY), Written(raw.rest, index + 1, t);
      if t.sensitive(key) {
        assert Written(raw, index, t) == later;
        EntriesSteady(raw.rest, index + 1, depth, built, t);
      } else {
        var value := Sanitized(raw.value, depth + 1, t);
        assert Written(raw, index, t) == later + {key};
        SetKeySize(built, key, value);
        SetKeySteady(built, key, value, later, depth);
        MarksAreInPlaceExactlyWhenSteady(raw.value, depth + 1, t);
        EntriesSteady(raw.rest, index + 1, depth, SetKey(built, key, value), t);
      }
    }
  }

  /** Every value is the text that replaces what nests too deep. */
  predicate AllCut(d: Entries) {
    d.Entry? ==> d.value == Text(TRUNCATED) && AllCut(d.rest)
  }

  lemma {:induction false} SetKeyStaysCut(d: Entries, key: string)
    requires AllCut(d)
    ensures AllCut(SetKey(d, key, Text(TRUNCATED)))
  {
    if d.Entry? && d.key != key {
      SetKeyStaysCut(d.rest, key);
    }
  }

  lemma {:induction false} CutIsInPlace(d: Entries, index: nat)
    requires AllCut(d)
    ensures MarksInPlaceIn(d, index, MAX_DEPTH)
  {
    if d.Entry? {
      CutIsInPlace(d.rest, index + 1);
    }
  }

  lemma {:induction false} MarkPlace(d: Entries, index: nat)
    requires AllCut(d) && index + Size(d) <= MAX_ITEMS
    ensures MarksInPlaceIn(SetKey(d, TRUNCATED_KEY, Flag(true)), index, MAX_DEPTH)
      <==> index + Size(d) == MAX_ITEMS && TRUNCATED_KEY !in Keys(d)
  {
    if d.Entry? && d.key != TRUNCATED_KEY {
      MarkPlace(d.rest, index + 1);
    }
  }

  /** At the depth limit the mark is the 51st entry exactly when nothing was lost before it. */
  lemma {:induction false} MarkIsInPlaceExactlyWhenKeptApart(raw: Entries, index: nat, built: Entries, t: Texter)
    requires Size(built) <= index <= MAX_ITEMS && AllCut(built)
    ensures MarksInPlaceIn(SanitizedEntries(raw, index, MAX_DEPTH, built, t), 0, MAX_DEPTH)
      <==> index + Size(raw) <= MAX_ITEMS
           || (Size(built) == index && TRUNCATED_KEY !in Keys(built) && KeptApart(raw, index, Keys(built), t))
    decreases raw
  {
    if raw.NoEntries? {
      CutIsInPlace(built, 0);
    } else if index >= MAX_ITEMS {
      MarkPlace(built, 0);
    } else {
      var key := Clip(raw.key, MAX_KEY);
      if t.sensitive(key) {
        MarkIsInPlaceExactlyWhenKeptApart(raw.rest, index + 1, built, t);
      } else {
        var cut := Sanitized(raw.value, MAX_DEPTH + 1, t);
        SetKeySize(built, key, cut);
        SetKeyStaysCut(built, key);
        MarkIsInPlaceExactlyWhenKeptApart(raw.rest, index + 1, SetKey(built, key, cut), t);
      }
    }
  }

  /** Which inputs the sanitiser gives marks out of place. */
  lemma {:induction false} MarksAreInPlaceExactlyWhenSteady(v: Value, depth: nat, t: Texter)
    ensures MarksInPlace(Sanitized(v, depth, t), depth) <==> Steady(v, depth, t)
    decreases v
  {
    if depth <= MAX_DEPTH {
      match v {
        case Enumerated(value) => MarksAreInPlaceExactlyWhenSteady(value, depth, t);
        case Array(elements) => ElementsSteady(elements, 0, depth, t);
        case Map(entries) =>
          if depth < MAX_DEPTH {
            EntriesSteady(entries, 0, depth, NoEntries, t);
          } else {
            MarkIsInPlaceExactlyWhenKeptApart(entries, 0, NoEntries, t);
          }
        case _ =>
      }
    }
  }

  lemma {:induction false} ElementsSteady(raw: Elements, index: nat, depth: nat, t: Texter)
    requires depth <= MAX_DEPTH
    ensures MarksInPlaceAmong(SanitizedElements(raw, index, depth, t), index, depth)
      <==> SteadyElements(raw, index, depth, t)
    decreases raw
  {
    if raw.Element? && index < MAX_ITEMS {
      MarksAreInPlaceExactlyWhenSteady(raw.first, depth + 1, t);
      ElementsSteady(raw.rest, index + 1, depth, t);
    }
  }

  lemma {:induction false} ScalarsAreSteady(v: Value, depth: nat, t: Texter)
    requires !Sanitized(v, depth, t).Map? && !Sanitized(v, depth, t).Array?
    ensures Steady(v, depth, t)
    decreases v
  {
    if v.Enumerated? && depth <= MAX_DEPTH {
      ScalarsAreSteady(v.value, depth, t);
    }
  }

  /** Stored details are nothing or a container the sanitiser could return; sanitising them
      again, as the audit view does, changes nothing exactly when the original was steady. */
  lemma StoredDetailsAreStable(v: Value, t: Texter)
    requires Redacts(t) && PlainFloats(v, t)
    ensures var d := SanitizedDetails(v, t);
      && (d.Nothing? || ((d.Map? || d.Array?) && Output(d, 0, t)))
      && (SanitizedDetails(d, t) == d <==> Steady(v, 0, t))
  {
    if !v.Nothing? {
      var s := Sanitized(v, 0, t);
      SanitizedIsOutput(v, 0, t);
      if !s.Map? && !s.Array? {
        assert Output(s, 1, t);
        ScalarsAreSteady(v, 0, t);
        assert MarksInPlaceIn(NoEntries, 1, 0) && MarksInPlace(s, 1);
      } else {
        MarksAreInPlaceExactlyWhenSteady(v, 0, t);
      }
      var d := SanitizedDetails(v, t);
      assert SanitizedDetails(d, t) == Sanitized(d, 0, t);
      OutputIsFixedExactlyWhenMarksAreInPlace(d, 0, t);
    }
  }

  /** `v` inside `n` mappings of one entry. */
  function Nested(n: nat, v: Value): Value {
    if n == 0 then v else Map(Entry("value", Nested(n - 1, v), NoEntries))
  }

  lemma {:induction false} NestedIsUnsteady(n: nat, v: Value, t: Texter)
    requires n <= MAX_DEPTH && !t.sensitive("value") && !Steady(v, MAX_DEPTH, t)
    ensures !Steady(Nested(n, v), MAX_DEPTH - n, t)
  {
    if n > 0 {
      NestedIsUnsteady(n - 1, v, t);
      assert Clip("value", MAX_KEY) == "value";
    }
  }

  lemma {:induction false} NestingIsPlain(n: nat, v: Value, t: Texter)
    requires PlainFloats(v, t)
    ensures PlainFloats(Nested(n, v), t)
  {
    if n > 0 {
      NestingIsPlain(n - 1, v, t);
      assert PlainEntries(NoEntries, t);
    }
  }

  /** The sanitiser is not idempotent: five mappings deep, a mapping of more than fifty items
      whose first key is sensitive comes back changed from a second pass. */
  lemma SecondPassCanDiffer(entries: Entries, t: Texter)
    requires Redacts(t) && PlainEntries(entries, t)
    requires entries.Entry? && t.sensitive(Clip(entries.key, MAX_KEY)) && Size(entries) > MAX_ITEMS
    ensures var d := SanitizedDetails(Nested(MAX_DEPTH, Map(entries)), t);
      SanitizedDetails(d, t) != d
  {
    var v := Nested(MAX_DEPTH, Map(entries));
    NestingIsPlain(MAX_DEPTH, Map(entries), t);
    NestedIsUnsteady(MAX_DEPTH, Map(entries), t);
    StoredDetailsAreStable(v, t);
  }

  // ---------------------------------------------------------------- bounds

  /** Containers nest at most `levels` deep with at most 51 entries each; texts and keys are
      short; no key is sensitive. */
  predicate Bounded(v: Value, levels: nat, t: Texter) {
    match v
    case Text(text) => |text| <= MAX_STRING
    case Map(entries) => levels > 0 && Size(entries) <= MAX_ITEMS + 1 && BoundedEntries(entries, levels - 1, t)
    case Array(elements) => levels > 0 && Count(elements) <= MAX_ITEMS + 1 && BoundedElements(elements, levels - 1, t)
    case _ => true
  }

  predicate BoundedEntries(d: Entries, levels: nat, t: Texter) {
    d.Entry? ==>
      |d.key| <= MAX_KEY && !t.sensitive(d.key) && Bounded(d.value, levels, t) && BoundedEntries(d.rest, levels, t)
  }

  predicate BoundedElements(e: Elements, levels: nat, t: Texter) {
    e.Element? ==> Bounded(e.first, levels, t) && BoundedElements(e.rest, levels, t)
  }

  function Count(e: Elements): nat {
    if e.NoElements? then 0 else 1 + Count(e.rest)
  }

  lemma {:induction false} OutputIsBounded(v: Value, depth: nat, t: Texter)
    requires Output(v, depth, t) && depth <= MAX_DEPTH + 1
    ensures Bounded(v, MAX_DEPTH + 1 - depth, t)
    decreases v
  {
    if v.Map? {
      OutputEntriesAreBounded(v.entries, 0, depth, t);
    } else if v.Array? {
      OutputElementsAreBounded(v.elements, 0, depth, t);
    }
  }

  lemma {:induction false} OutputEntriesAreBounded(d: Entries, index: nat, depth: nat, t: Texter)
    requires OutputEntries(d, index, depth, t) && depth <= MAX_DEPTH && index <= MAX_ITEMS + 1
    requires index == MAX_ITEMS + 1 ==> d.NoEntries?
    ensures BoundedEntries(d, MAX_DEPTH - depth, t) && index + Size(d) <= MAX_ITEMS + 1
    decreases d
  {
    if d.Entry? {
      if Output(d.value, depth + 1, t) {
        OutputIsBounded(d.value, depth + 1, t);
      }
      OutputEntriesAreBounded(d.rest, index + 1, depth, t);
    }
  }

  lemma {:induction false} OutputElementsAreBounded(e: Elements, index: nat, depth: nat, t: Texter)
    requires OutputElements(e, index, depth, t) && depth <= MAX_DEPTH && index <= MAX_ITEMS + 1
    requires index == MAX_ITEMS + 1 ==> e.NoElements?
    ensures BoundedElements(e, MAX_DEPTH - depth, t) && index + Count(e) <= MAX_ITEMS + 1
    decreases e
  {
    if e.Element? {
      OutputIsBounded(e.first, depth + 1, t);
      OutputElementsAreBounded(e.rest, index + 1, depth, t);
    }
  }

  /** Whatever went in, what comes out nests at most six levels, with at most 51 entries a
      level, texts of at most 512 characters and no sensitive key anywhere. */
  lemma SanitizedIsBounded(v: Value, t: Texter)
    requires Redacts(t) && PlainFloats(v, t)
    ensures Bounded(SanitizedDetails(v, t), 6, t)
  {
    StoredDetailsAreStable(v, t);
    var d := SanitizedDetails(v, t);
    if !d.Nothing? {
      OutputIsBounded(d, 0, t);
    }
  }

  // ---------------------------------------------------------------- what the sanitiser keeps

  /** What becomes of each kind of value that is not a container. */
  lemma ScalarsAreKept(v: Value, depth: nat, t: Texter)
    requires depth <= 5
    ensures v == Nothing ==> Sanitized(v, depth, t) == Nothing
    ensures v.Flag? || v.Whole? || (v.Real? && v.finite) ==> Sanitized(v, depth, t) == v
    ensures v.Real? && !v.finite ==> Sanitized(v, depth, t) == Text(v.repr)
    ensures v.Uid? ==> Sanitized(v, depth, t) == Text(UuidText(v.id))
    ensures v.Instant? ==> Sanitized(v, depth, t) == Text(t.stamp(v.t))
    ensures v.Text? ==> Sanitized(v, depth, t) == Text(t.redact(v.text))
    ensures v.Other? ==> Sanitized(v, depth, t) == Text(t.redact(v.repr))
    ensures v.Enumerated? ==> Sanitized(v, depth, t) == Sanitized(v.value, depth, t)
    ensures Sanitized(v, 6, t) == Text("[TRUNCATED]")
  {
  }

  /** Up to fifty items under keys of at most 128 characters: the result maps exactly the keys that
      are not sensitive, each to its last value, sanitised. */
  lemma MappingsKeepTheirValues(entries: Entries, depth: nat, t: Texter)
    requires depth <= 5 && Size(entries) <= 50 && (forall k | k in Keys(entries) :: |k| <= 128)
    ensures var s, given := Sanitized(Map(entries), depth, t), EntryMap(entries);
      && s.Map?
      && EntryMap(s.entries) == map k | k in given && !t.sensitive(k) :: Sanitized(given[k], depth + 1, t)
  {
    EntriesKeepTheirValues(entries, 0, depth, NoEntries, t);
    assert KeptMap(EntryMap(entries), depth, t)
      == map k | k in EntryMap(entries) && !t.sensitive(k) :: Sanitized(EntryMap(entries)[k], depth + 1, t);
  }

  function KeptMap(given: map<string, Value>, depth: nat, t: Texter): map<string, Value> {
    map k | k in given && !t.sensitive(k) :: Sanitized(given[k], depth + 1, t)
  }

  lemma KeptMapStep(
    built: map<string, Value>, key: string, value: Value, rest: map<string, Value>, depth: nat, t: Texter)
    ensures t.sensitive(key) ==> KeptMap(map[key := value] + rest, depth, t) == KeptMap(rest, depth, t)
    ensures !t.sensitive(key) ==>
      built[key := Sanitized(value, depth + 1, t)] + KeptMap(rest, depth, t)
        == built + KeptMap(map[key := value] + rest, depth, t)
  {
    var whole, part := KeptMap(map[key := value] + rest, depth, t), KeptMap(rest, depth, t);
    assert t.sensitive(key) ==> whole.Keys == part.Keys;
    if !t.sensitive(key) {
      assert whole.Keys == part.Keys + {key};
      assert forall k | k in part :: whole[k] == part[k];
    }
  }

  lemma {:induction false} SetKeyMaps(d: Entries, key: string, value: Value)
    requires Distinct(d)
    ensures EntryMap(SetKey(d, key, value)) == EntryMap(d)[key := value]
    ensures EntryMap(d).Keys == Keys(d)
  {
    if d.Entry? {
      SetKeyMaps(d.rest, key, value);
    }
  }

  lemma {:induction false} EntriesKeepTheirValues(raw: Entries, index: nat, depth: nat, built: Entries, t: Texter)
    requires index + Size(raw) <= 50 && (forall k | k in Keys(raw) :: |k| <= 128) && Distinct(built)
    ensures EntryMap(SanitizedEntries(raw, index, depth, built, t))
      == EntryMap(built) + KeptMap(EntryMap(raw), depth, t)
    decreases raw
  {
    if raw.Entry? {
      var key, value := raw.key, Sanitized(raw.value, depth + 1, t);
      assert Clip(key, MAX_KEY) == key;
      KeptMapStep(EntryMap(built), key, raw.value, EntryMap(raw.rest), depth, t);
      if t.sensitive(key) {
        EntriesKeepTheirValues(raw.rest, index + 1, depth, built, t);
      } else {
        SetKeySize(built, key, value);
        SetKeyMaps(built, key, value);
        EntriesKeepTheirValues(raw.rest, index + 1, depth, SetKey(built, key, value), t);
      }
    }
  }

  function At(e: Elements, i: nat): Value
    requires i < Count(e)
  {
    if i == 0 then e.first else At(e.rest, i - 1)
  }

  /** The first fifty elements keep their places, sanitised; a mark stands for all others. */
  lemma ListsKeepTheirPlaces(elements: Elements, depth: nat, t: Texter, i: nat)
    requires depth <= 5 && i < Count(elements)
    ensures var s := Sanitized(Array(elements), depth, t);
      && s.Array? && Count(s.elements) == (if Count(elements) <= 50 then Count(elements) else 51)
      && (i < 50 ==> At(s.elements, i) == Sanitized(At(elements, i), depth + 1, t))
      && (i >= 50 ==> At(s.elements, 50) == Text("[TRUNCATED]"))
  {
    ElementsKeepTheirPlaces(elements, 0, depth, t, i);
  }

  lemma {:induction false} ElementsKeepTheirPlaces(raw: Elements, index: nat, depth: nat, t: Texter, i: nat)
    requires i < Count(raw) && index <= 50
    ensures var s := SanitizedElements(raw, index, depth, t);
      && Count(s) == (if index + Count(raw) <= 50 then Count(raw) else 51 - index)
      && (index + i < 50 ==> At(s, i) == Sanitized(At(raw, i), depth + 1, t))
      && (index + i >= 50 ==> At(s, 50 - index) == Text("[TRUNCATED]"))
    decreases raw
  {
    if index < 50 && raw.rest.Element? {
      ElementsKeepTheirPlaces(raw.rest, index + 1, depth, t, if i > 0 then i - 1 else 0);
    }
  }

  /** Nothing here for the sanitiser to do: texts it would not change, at most fifty entries
      under distinct, short keys that are not sensitive, and no more than `levels` levels. */
  predicate Clean(v: Value, levels: nat, t: Texter) {
    && levels > 0
    && match v
       case Nothing => true
       case Flag(_) => true
       case Whole(_) => true
       case Real(finite, _) => finite
       case Text(text) => t.redact(text) == text
       case Map(entries) => Size(entries) <= 50 && CleanEntries(entries, levels - 1, t)
       case Array(elements) => Count(elements) <= 50 && CleanElements(elements, levels - 1, t)
       case _ => false
  }

  predicate CleanEntries(d: Entries, levels: nat, t: Texter) {
    d.Entry? ==>
      && |d.key| <= 128 && !t.sensitive(d.key) && d.key !in Keys(d.rest)
      && Clean(d.value, levels, t) && CleanEntries(d.rest, levels, t)
  }

  predicate CleanElements(e: Elements, levels: nat, t: Texter) {
    e.Element? ==> Clean(e.first, levels, t) && CleanElements(e.rest, levels, t)
  }

  /** The sanitiser changes nothing it need not: a clean value is returned as it is. */
  lemma {:induction false} CleanValuesAreKept(v: Value, depth: nat, t: Texter)
    requires depth <= 5 && Clean(v, 6 - depth, t)
    ensures Sanitized(v, depth, t) == v
    decreases v
  {
    match v {
      case Map(entries) => CleanEntriesAreKept(entries, depth, NoEntries, t);
      case Array(elements) => CleanElementsAreKept(elements, 0, depth, t);
      case _ =>
    }
  }

  lemma {:induction false} CleanEntriesAreKept(d: Entries, depth: nat, built: Entries, t: Texter)
    requires depth <= 5 && Size(built) + Size(d) <= 50 && CleanEntries(d, 5 - depth, t) && Keys(built) !! Keys(d)
    ensures SanitizedEntries(d, Size(built), depth, built, t) == Append(built, d)
    decreases d
  {
    if d.NoEntries? {
      AppendNothing(built);
    } else {
      CleanValuesAreKept(d.value, depth + 1, t);
      SetFreshKeyAppends(built, d.key, d.value);
      CleanEntriesAreKept(d.rest, depth, SetKey(built, d.key, d.value), t);
      AppendMoves(built, d.key, d.value, d.rest);
    }
  }

  lemma {:induction false} CleanElementsAreKept(e: Elements, index: nat, depth: nat, t: Texter)
    requires depth <= 5 && index + Count(e) <= 50 && CleanElements(e, 5 - depth, t)
    ensures SanitizedElements(e, index, depth, t) == e
    decreases e
  {
    if e.Element? {
      CleanValuesAreKept(e.first, depth + 1, t);
      CleanElementsAreKept(e.rest, index + 1, depth, t);
    }
  }

  // ---------------------------------------------------------------- the service

  /** Clean details are stored as they are given; a single clean value is stored under `value`. */
  lemma ServiceKeepsCleanDetails(v: Value, redact: string -> string, stamp: Time -> string)
    requires Clean(v, 6, Service(redact, stamp)) && v != Nothing
    ensures SanitizedDetails(v, Service(redact, stamp))
      == if v.Map? || v.Array? then v else Map(Entry("value", v, NoEntries))
  {
    CleanValuesAreKept(v, 0, Service(redact, stamp));
  }

  /** The keys that are sensitive as a whole. */
  lemma SensitiveKeys(k: string)
    requires NormalizedKey(k) in {
      "password", "password_hash", "device_secret", "hmac_secret", "hmac_key", "hmac_signature", "x_signature",
      "admin_api_key", "softhsm_pin", "softhsm_user_pin", "private_key", "session_token", "cookie", "authorization",
      "csrf", "csrf_token", "tsa_key", "tsa_private_key", "ca_private_key"}
    ensures IsSensitive(k)
  {
  }

  /** The words that make a key sensitive, wherever they stand in it. */
  lemma SensitiveWords(k: string, word: string, i: nat)
    requires word in {"password", "private_key", "device_secret", "hmac", "admin_api_key", "session_token",
                      "session_cookie", "session_secret", "authorization", "cookie", "csrf", "softhsm_pin",
                      "softhsm_user_pin", "tsa_key", "ca_private_key"}
    requires i + |word| <= |NormalizedKey(k)| && NormalizedKey(k)[i..i + |word|] == word
    ensures IsSensitive(k)
  {
    var n := NormalizedKey(k);
    assert OccursAt(n, word, i);
    assert Contains(n, word);
    assert word in SENSITIVE_KEY_PARTS;
    var j :| 0 <= j < |SENSITIVE_KEY_PARTS| && SENSITIVE_KEY_PARTS[j] == word;
  }

  /** Stored details do not depend on anything under the service's sensitive keys. */
  lemma ServiceKeepsSecrets(a: Value, b: Value, redact: string -> string, stamp: Time -> string)
    requires Alike(a, b, Service(redact, stamp))
    ensures SanitizedDetails(a, Service(redact, stamp)) == SanitizedDetails(b, Service(redact, stamp))
  {
    SecretsDoNotInterfere(a, b, 0, Service(redact, stamp));
  }

  /** Whatever is recorded, the stored details keep the bounds, and no key the service counts
      as sensitive is left at any level. */
  lemma ServiceDetailsAreBounded(v: Value, redact: string -> string, stamp: Time -> string)
    requires RedactorOk(redact, stamp) && PlainFloats(v, Service(redact, stamp))
    ensures Bounded(SanitizedDetails(v, Service(redact, stamp)), 6, Service(redact, stamp))
  {
    ServiceRedacts(redact, stamp);
    SanitizedIsBounded(v, Service(redact, stamp));
  }

  /** The stored details and what a second pass makes of them. */
  lemma ServiceDetailsAreStable(v: Value, redact: string -> string, stamp: Time -> string)
    requires RedactorOk(redact, stamp) && PlainFloats(v, Service(redact, stamp))
    ensures var t := Service(redact, stamp);
      var d := SanitizedDetails(v, t);
      && (d.Nothing? || ((d.Map? || d.Array?) && Output(d, 0, t)))
      && (SanitizedDetails(d, t) == d <==> Steady(v, 0, t))
  {
    ServiceRedacts(redact, stamp);
    StoredDetailsAreStable(v, Service(redact, stamp));
  }
}
