/** The rows of the audit log and the hash over their canonical text. */
module AuditEvents {
  import opened Records
  import opened Texts
  import opened CanonicalJson
  import opened AuditValues

  const GENESIS := "0000000000000000000000000000000000000000000000000000000000000000"

  /** A `security_audit_events` row. */
  datatype Event = Event(
    id: Uuid,
    category: Option<string>,
    eventType: string,
    actorType: Option<string>,
    actorId: Option<string>,
    userId: Option<Uuid>,
    deviceId: Option<Uuid>,
    sessionId: Option<Uuid>,
    documentId: Option<Uuid>,
    signatureRequestId: Option<Uuid>,
    signatureId: Option<Uuid>,
    outcome: string,
    failureCode: Option<string>,
    correlationId: Option<Uuid>,
    httpMethod: Option<string>,
    httpPath: Option<string>,
    httpStatus: Option<int>,
    sourceIp: Option<string>,
    userAgent: Option<string>,
    detail: Option<string>,
    details: Value,
    createdAt: Time,
    previousHash: Option<string>,
    eventHash: Option<string>)

  /** SHA-256 of a canonical text, and the text of an instant. */
  datatype Oracle = Oracle(sha: string -> string, stamp: Time -> string)

  ghost predicate CollisionFree(o: Oracle) {
    && (forall x, y :: o.sha(x) == o.sha(y) ==> x == y)
    && (forall x :: o.sha(x) != GENESIS)
  }

  ghost predicate StampsDiffer(o: Oracle) {
    forall t, u :: o.stamp(t) == o.stamp(u) ==> t == u
  }

  function OfText(t: Option<string>): Json {
    if t.Some? then Str(t.value) else Null
  }

  function OfUuid(id: Option<Uuid>): Json {
    if id.Some? then Str(UuidText(id.value)) else Null
  }

  /** The hashed columns by name, in the order in which `sort_keys` prints them. */
  function Columns(e: Event, o: Oracle): seq<(string, Json)> {
    [ ("actor_id", OfText(e.actorId)),
      ("actor_type", OfText(e.actorType)),
      ("category", OfText(e.category)),
      ("correlation_id", OfUuid(e.correlationId)),
      ("created_at", Str(o.stamp(e.createdAt))),
      ("detail", OfText(e.detail)),
      ("details", Canonical(e.details, o.stamp)),
      ("device_id", OfUuid(e.deviceId)),
      ("document_id", OfUuid(e.documentId)),
      ("event_type", Str(e.eventType)),
      ("failure_code", OfText(e.failureCode)),
      ("http_method", OfText(e.httpMethod)),
      ("http_path", OfText(e.httpPath)),
      ("http_status", if e.httpStatus.Some? then Int(e.httpStatus.value) else Null),
      ("id", Str(UuidText(e.id))),
      ("outcome", Str(e.outcome)),
      ("previous_hash", OfText(e.previousHash)),
      ("session_id", OfUuid(e.sessionId)),
      ("signature_id", OfUuid(e.signatureId)),
      ("signature_request_id", OfUuid(e.signatureRequestId)),
      ("source_ip", OfText(e.sourceIp)),
      ("user_agent", OfText(e.userAgent)),
      ("user_id", OfUuid(e.userId)) ]
  }

  function ToMembers(columns: seq<(string, Json)>): Members {
    if columns == [] then NoMembers else Member(columns[0].0, columns[0].1, ToMembers(columns[1..]))
  }

  function Payload(e: Event, o: Oracle): Json {
    Obj(ToMembers(Columns(e, o)))
  }

  function HashOf(e: Event, o: Oracle): string {
    o.sha(Print(Payload(e, o)))
  }

  /** The rows agree on every hashed column; of `details`, the canonical form counts. */
  predicate SameColumns(a: Event, b: Event, o: Oracle) {
    && a.id == b.id && a.category == b.category && a.eventType == b.eventType
    && a.actorType == b.actorType && a.actorId == b.actorId && a.userId == b.userId
    && a.deviceId == b.deviceId && a.sessionId == b.sessionId && a.documentId == b.documentId
    && a.signatureRequestId == b.signatureRequestId && a.signatureId == b.signatureId
    && a.outcome == b.outcome && a.failureCode == b.failureCode && a.correlationId == b.correlationId
    && a.httpMethod == b.httpMethod && a.httpPath == b.httpPath && a.httpStatus == b.httpStatus
    && a.sourceIp == b.sourceIp && a.userAgent == b.userAgent && a.detail == b.detail
    && a.createdAt == b.createdAt && a.previousHash == b.previousHash
    && Canonical(a.details, o.stamp) == Canonical(b.details, o.stamp)
  }

  lemma OfUuidIsInjective(a: Option<Uuid>, b: Option<Uuid>)
    requires OfUuid(a) == OfUuid(b)
    ensures a == b
  {
    if a.Some? && b.Some? {
      UuidTextIsInjective(a.value, b.value);
    }
  }

  /** Rows with equal hashes agree on every hashed column. */
  lemma EqualHashesMeanEqualColumns(a: Event, b: Event, o: Oracle)
    requires CollisionFree(o) && StampsDiffer(o) && HashOf(a, o) == HashOf(b, o)
    ensures SameColumns(a, b, o)
  {
    PrintIsInjective(Payload(a, o), Payload(b, o));
    MembersKeepColumns(Columns(a, o), Columns(b, o));
    ColumnsDetermineRow(a, b, o);
  }

  /** A hash fixes every column of its row but the hash itself, and the details up to their
      canonical form. */
  lemma HashesFixTheRow(a: Event, b: Event, o: Oracle)
    requires CollisionFree(o) && StampsDiffer(o) && HashOf(a, o) == HashOf(b, o)
    ensures b == a.(details := b.details, eventHash := b.eventHash)
    ensures Print(Canonical(a.details, o.stamp)) == Print(Canonical(b.details, o.stamp))
  {
    EqualHashesMeanEqualColumns(a, b, o);
  }

  /** The members of the payload, by name. */
  lemma PayloadNames(e: Event, o: Oracle)
    ensures seq(23, i requires 0 <= i < 23 => Columns(e, o)[i].0) == [
      "actor_id", "actor_type", "category", "correlation_id", "created_at", "detail", "details", "device_id",
      "document_id", "event_type", "failure_code", "http_method", "http_path", "http_status", "id", "outcome",
      "previous_hash", "session_id", "signature_id", "signature_request_id", "source_ip", "user_agent", "user_id"]
  {
  }

  lemma {:induction false} MembersKeepColumns(a: seq<(string, Json)>, b: seq<(string, Json)>)
    requires ToMembers(a) == ToMembers(b)
    ensures a == b
    decreases |a|
  {
    if a != [] && b != [] {
      MembersKeepColumns(a[1..], b[1..]);
      assert a == [a[0]] + a[1..] && b == [b[0]] + b[1..];
    }
  }

  /** `a` comes before `b`: they differ first at `k`, or `a` ends there. */
  lemma {:induction false} LessAt(a: string, b: string, k: nat)
    requires k <= |a| && k < |b| && a[..k] == b[..k] && (k < |a| ==> a[k] < b[k])
    ensures Less(a, b)
  {
    if k > 0 {
      assert a[0] == a[..k][0] == b[..k][0] == b[0];
      assert a[1..][..k - 1] == a[..k][1..] && b[1..][..k - 1] == b[..k][1..];
      LessAt(a[1..], b[1..], k - 1);
    }
  }

  lemma {:induction false} AscendingColumnsAreSorted(columns: seq<(string, Json)>)
    requires forall i | 0 < i < |columns| :: Less(columns[i - 1].0, columns[i].0)
    ensures Sorted(ToMembers(columns))
  {
    if columns != [] {
      var rest := columns[1..];
      forall i | 0 < i < |rest| ensures Less(rest[i - 1].0, rest[i].0) {
        assert Less(columns[i + 1 - 1].0, columns[i + 1].0);
      }
      AscendingColumnsAreSorted(rest);
      assert |columns| > 1 ==> Less(columns[1 - 1].0, columns[1].0);
    }
  }

  lemma FirstColumnsAscend(e: Event, o: Oracle, i: nat)
    requires 0 < i <= 11
    ensures Less(Columns(e, o)[i - 1].0, Columns(e, o)[i].0)
  {
    LessAt(Columns(e, o)[i - 1].0, Columns(e, o)[i].0, [6, 0, 1, 1, 0, 6, 2, 1, 0, 0, 0][i - 1]);
  }

  lemma MiddleColumnsAscend(e: Event, o: Oracle, i: nat)
    requires 11 < i <= 17
    ensures Less(Columns(e, o)[i - 1].0, Columns(e, o)[i].0)
  {
    LessAt(Columns(e, o)[i - 1].0, Columns(e, o)[i].0, [5, 5, 0, 0, 0, 0][i - 12]);
  }

  lemma LastColumnsAscend(e: Event, o: Oracle, i: nat)
    requires 17 < i <= 22
    ensures Less(Columns(e, o)[i - 1].0, Columns(e, o)[i].0)
  {
    LessAt(Columns(e, o)[i - 1].0, Columns(e, o)[i].0, [1, 10, 1, 0, 5][i - 18]);
  }

  /** The payload's members are in key order, as the printer of the service emits them. */
  lemma PayloadIsSorted(e: Event, o: Oracle)
    ensures Sorted(Payload(e, o).members)
  {
    var columns := Columns(e, o);
    forall i | 0 < i < |columns| ensures Less(columns[i - 1].0, columns[i].0) {
      if i <= 11 {
        FirstColumnsAscend(e, o, i);
      } else if i <= 17 {
        MiddleColumnsAscend(e, o, i);
      } else {
        LastColumnsAscend(e, o, i);
      }
    }
    AscendingColumnsAreSorted(columns);
  }

  lemma ColumnsDetermineRow(a: Event, b: Event, o: Oracle)
    requires StampsDiffer(o) && Columns(a, o) == Columns(b, o)
    ensures SameColumns(a, b, o)
  {
    var x, y := Columns(a, o), Columns(b, o);
    assert forall i | 0 <= i < |x| :: x[i].1 == y[i].1;
    UuidTextIsInjective(a.id, b.id);
    OfUuidIsInjective(a.correlationId, b.correlationId);
    OfUuidIsInjective(a.deviceId, b.deviceId);
    OfUuidIsInjective(a.documentId, b.documentId);
    OfUuidIsInjective(a.sessionId, b.sessionId);
    OfUuidIsInjective(a.signatureId, b.signatureId);
    OfUuidIsInjective(a.signatureRequestId, b.signatureRequestId);
    OfUuidIsInjective(a.userId, b.userId);
  }

  /** Hash functions the chain works with, and the comparison of rows they decide. */
  type Hasher = Event -> string
  type Comparer = (Event, Event) -> bool

  function Hashing(o: Oracle): Hasher {
    e => HashOf(e, o)
  }

  function Comparing(o: Oracle): Comparer {
    (a, b) => SameColumns(a, b, o)
  }

  /** The hash does not cover the column it is stored in. */
  ghost predicate SkipsItself(h: Hasher) {
    forall e: Event, x: Option<string> :: h(e.(eventHash := x)) == h(e)
  }

  /** Equal hashes are exactly equal hashed columns, the predecessor's hash among them. */
  ghost predicate Binding(h: Hasher, same: Comparer) {
    && (forall a, b :: h(a) == h(b) <==> same(a, b))
    && (forall a, b :: same(a, b) ==> a.id == b.id && a.previousHash == b.previousHash)
    && (forall a :: h(a) != GENESIS)
  }

  lemma HashingSkipsItself(o: Oracle)
    ensures SkipsItself(Hashing(o))
  {
    forall e: Event, x ensures HashOf(e.(eventHash := x), o) == HashOf(e, o) {
      assert Columns(e.(eventHash := x), o) == Columns(e, o);
    }
  }

  /** With a collision-free SHA-256, the hash of the canonical text is binding. */
  lemma HashingIsBinding(o: Oracle)
    requires CollisionFree(o) && StampsDiffer(o)
    ensures Binding(Hashing(o), Comparing(o))
  {
    forall a, b ensures HashOf(a, o) == HashOf(b, o) <==> SameColumns(a, b, o) {
      if HashOf(a, o) == HashOf(b, o) {
        EqualHashesMeanEqualColumns(a, b, o);
      }
      assert SameColumns(a, b, o) ==> Columns(a, o) == Columns(b, o);
    }
  }
}
