/** The calls the endpoints receive: what each must satisfy, what it may be answered, and the
    atomic transaction of `Protocol` it becomes. */
module Calls {
  import opened Records
  import opened Texts
  import opened RequestService
  import opened Protocol

  datatype Reply =
    | Accepted
    | NoContent
    | Delivered(request: Id, document: Id, documentHash: string, decision: string)
    | Closed(status: Status)
    | Rejected(code: nat)

  /** The calling device's row and the outcome of the checks made elsewhere: the rate
      limiter and the HMAC over the canonical message. */
  datatype Caller = Caller(
    known: bool, id: Id, active: bool, rfidEnabled: bool, fingerprintEnabled: bool, hasSecret: bool,
    limited: bool, hmacValid: bool)

  datatype Credential = Credential(user: Id, device: Id, rfid: string, fingerprint: int)

  /** Administrative tables at the time of the call: credentials, and users with their ACTIVE flag. */
  datatype Directory = Directory(credentials: set<Credential>, users: map<Id, bool>)

  /** UNIQUE(device_id, rfid_uid). */
  predicate UniqueCards(dir: Directory) {
    forall a, b | a in dir.credentials && b in dir.credentials && a.device == b.device && a.rfid == b.rfid :: a == b
  }

  predicate IsSha256Text(s: string) {
    |s| == 64 && AllHex(s)
  }

  /** The verdict of the ordered checks: the first that fails decides. A terminal refusal
      also fails the request bound to the session, in a later transaction. */
  datatype Verdict = Grant | Refuse(code: nat, terminal: bool)

  predicate Genuine(caller: Caller) {
    caller.known && !caller.limited && caller.active && caller.hasSecret && caller.hmacValid
  }

  /** The session exists and belongs to the calling device. */
  predicate OwnSession(db: Db, caller: Caller, sid: Option<Id>) {
    sid.Some? && sid.value in db.sessions && db.sessions[sid.value].device == caller.id
  }

  predicate SessionAuthorized(db: Db, sid: Id, s: Session, expected: Status, now: Time) {
    exists id | id in RowsOfSession(db.requests, sid) :: Authorized(db.requests[id], s, expected, now)
  }

  lemma TheRowDecides(db: Db, sid: Id, found: Option<Id>, s: Session, expected: Status, now: Time)
    requires FoundBySession(db.requests, sid, found)
    ensures SessionAuthorized(db, sid, s, expected, now) <==>
      found.Some? && Authorized(db.requests[found.value], s, expected, now)
  {
    assert forall id | id in RowsOfSession(db.requests, sid) :: found == Some(id);
    assert found.Some? ==> found.value in RowsOfSession(db.requests, sid);
  }

  /** The session's document is stored with the hash the session was opened for. */
  predicate DocumentStands(db: Db, s: Session) {
    s.document in db.documents && db.documents[s.document].documentHash == s.documentHash
  }

  /** The one transaction an accepted call commits, enabled where it started. */
  ghost predicate Commits(db: Db, op: Op, db': Db) {
    Enabled(db, op) && db' == Apply(db, op)
  }

  // ---------------------------------------------------------------- POST /auth/complete

  /** Identifiers that do not parse are `None`. */
  datatype CompleteCall = CompleteCall(
    caller: Caller, sid: Option<Id>, challenge: string, rfid: string, fingerprint: Option<int>,
    document: Option<Id>, documentHash: string, decision: string, nonceFresh: bool,
    now: Time, checkedAt: Time, markedAt: Time)

  predicate WellFormedComplete(c: CompleteCall) {
    c.document.Some? && IsSha256Text(c.documentHash) && c.decision == APPROVE
    && c.fingerprint.Some? && c.fingerprint.value > 0 && c.sid.Some?
  }

  predicate CompleteCalled(c: CompleteCall) {
    WellFormedComplete(c) && Genuine(c.caller) && c.caller.fingerprintEnabled
  }

  /** The call repeats what the session was opened with. */
  predicate Presents(s: Session, c: CompleteCall) {
    && s.challenge == c.challenge && s.rfid == c.rfid
    && c.document == Some(s.document) && s.documentHash == c.documentHash && s.decision == c.decision
  }

  /** Card and finger are the session's active user's, and that user's own request waits for
      this authentication of an unchanged document. */
  predicate Entitled(db: Db, dir: Directory, c: CompleteCall, s: Session)
    requires CompleteCalled(c)
  {
    && DocumentStands(db, s)
    && Credential(s.user, s.device, s.rfid, c.fingerprint.value) in dir.credentials
    && s.user in dir.users && dir.users[s.user]
    && SessionAuthorized(db, c.sid.value, s, Authenticating, c.checkedAt)
  }

  predicate Proves(db: Db, dir: Directory, c: CompleteCall, s: Session)
    requires CompleteCalled(c)
  {
    && s.device == c.caller.id && c.now < s.expiresAt && s.verifiedAt.None?
    && Presents(s, c) && Entitled(db, dir, c, s) && c.nonceFresh
  }

  /** The challenge has expired, or the right challenge was answered by someone not entitled. */
  predicate Disproves(db: Db, dir: Directory, c: CompleteCall, s: Session)
    requires CompleteCalled(c)
  {
    && s.device == c.caller.id
    && (s.expiresAt <= c.now || (s.verifiedAt.None? && Presents(s, c) && !Entitled(db, dir, c, s)))
  }

  /** When strong authentication succeeds. */
  predicate CompleteConditions(db: Db, dir: Directory, c: CompleteCall) {
    CompleteCalled(c) && OwnSession(db, c.caller, c.sid) && Proves(db, dir, c, db.sessions[c.sid.value])
  }

  /** When the attempt also ends the request behind it. */
  predicate CompleteEnds(db: Db, dir: Directory, c: CompleteCall) {
    CompleteCalled(c) && OwnSession(db, c.caller, c.sid) && Disproves(db, dir, c, db.sessions[c.sid.value])
  }

  /** What is wrong with a call refused with this status once its session was found. */
  predicate CompleteSessionReason(db: Db, dir: Directory, c: CompleteCall, s: Session, code: nat)
    requires CompleteCalled(c)
  {
    match code
    case 401 => s.expiresAt <= c.now || s.challenge != c.challenge || !c.nonceFresh
    case 403 =>
      || s.device != c.caller.id || (s.challenge == c.challenge && !Presents(s, c))
      || (s.document in db.documents && !Entitled(db, dir, c, s))
    case 404 => s.document !in db.documents
    case 409 => s.verifiedAt.Some?
    case _ => false
  }

  /** What is wrong with a call refused with this status. */
  predicate CompleteReason(db: Db, dir: Directory, c: CompleteCall, code: nat) {
    if CompleteCalled(c) && c.sid.value in db.sessions then
      CompleteSessionReason(db, dir, c, db.sessions[c.sid.value], code)
    else
      match code
      case 400 => !WellFormedComplete(c)
      case 401 => !c.caller.known || !c.caller.hasSecret || !c.caller.hmacValid
      case 403 => !c.caller.active || !c.caller.fingerprintEnabled
      case 404 => CompleteCalled(c)
      case 429 => c.caller.known && c.caller.limited
      case _ => false
  }

  function CompleteOp(c: CompleteCall, rid: Id): Op
    requires c.sid.Some?
  {
    Complete(c.sid.value, rid, c.now, c.checkedAt, c.markedAt)
  }

  /** The guards of the transaction follow from the conditions of the endpoint. */
  lemma CompletionIsEnabled(db: Db, dir: Directory, c: CompleteCall) returns (rid: Id)
    requires CompleteConditions(db, dir, c)
    requires Stamped(db.requests, c.checkedAt) && c.now <= c.checkedAt <= c.markedAt
    ensures rid in RowsOfSession(db.requests, c.sid.value) && Enabled(db, CompleteOp(c, rid))
    ensures Credential(db.requests[rid].user, c.caller.id, c.rfid, c.fingerprint.value) in dir.credentials
    ensures db.requests[rid].status == Authenticating && db.requests[rid].device == c.caller.id
  {
    rid :| rid in RowsOfSession(db.requests, c.sid.value)
      && Authorized(db.requests[rid], db.sessions[c.sid.value], Authenticating, c.checkedAt);
  }

  /** The request an accepted completion leaves: AUTHENTICATED on the calling device, for the
      user whose card and finger, enrolled together on that device, the call names. */
  predicate Authenticates(dir: Directory, c: CompleteCall, rid: Id, db': Db) {
    && rid in db'.requests && c.fingerprint.Some?
    && var r := db'.requests[rid];
    && r.status == Authenticated && r.session == c.sid && r.device == c.caller.id
    && Credential(r.user, c.caller.id, c.rfid, c.fingerprint.value) in dir.credentials
  }

  lemma CompletionLeaves(db: Db, dir: Directory, c: CompleteCall, rid: Id)
    requires c.sid.Some? && c.fingerprint.Some? && Enabled(db, CompleteOp(c, rid))
    requires db.requests[rid].device == c.caller.id
    requires Credential(db.requests[rid].user, c.caller.id, c.rfid, c.fingerprint.value) in dir.credentials
    ensures Authenticates(dir, c, rid, Apply(db, CompleteOp(c, rid)))
  {
  }

  /** A granted completion is one transaction, on the one request bound to the session: it
      makes the calling device's request AUTHENTICATED and keeps the invariant. */
  lemma CompletionIsOneTransaction(db: Db, dir: Directory, c: CompleteCall) returns (rid: Id)
    requires Inv(db) && CompleteConditions(db, dir, c)
    requires Stamped(db.requests, c.checkedAt) && c.now <= c.checkedAt <= c.markedAt
    ensures Enabled(db, CompleteOp(c, rid))
    ensures forall other | Enabled(db, CompleteOp(c, other)) :: other == rid
    ensures Inv(Apply(db, CompleteOp(c, rid)))
    ensures var r := Apply(db, CompleteOp(c, rid)).requests[rid];
      && r.status == Authenticated && r.authenticatedAt == Some(c.markedAt) && r.device == c.caller.id
      && r.user == db.sessions[c.sid.value].user && r.session == c.sid
      && Credential(r.user, c.caller.id, c.rfid, c.fingerprint.value) in dir.credentials
  {
    rid := CompletionIsEnabled(db, dir, c);
    forall other | Enabled(db, CompleteOp(c, other)) ensures other == rid {
      assert db.requests[other].session == db.requests[rid].session;
    }
    ApplyKeepsInv(db, CompleteOp(c, rid));
  }

  /** The call can only be refused with this status, and ends the request or does not. */
  predicate CompleteRefused(db: Db, dir: Directory, c: CompleteCall, code: nat, terminal: bool) {
    && !CompleteConditions(db, dir, c) && CompleteReason(db, dir, c, code)
    && (forall other | other in {400, 401, 403, 404, 409, 429} && other != code :: !CompleteReason(db, dir, c, other))
    && (terminal <==> CompleteEnds(db, dir, c))
  }

  // ---------------------------------------------------------------- POST /sign

  /** What reading the stored document gives. */
  datatype Stored = OutsideStorage | NotAFile | Unreadable | Digest(hash: string)

  /** How the cryptographic half of the handler ends. */
  datatype Outcome = HsmFailed | BadTarget | StorageFailed | PadesFailed | NotPublished | Produced

  datatype SignCall = SignCall(
    caller: Caller, sid: Option<Id>, document: Option<Id>, documentHash: string, decision: string,
    nonceFresh: bool, stored: Stored, outcome: Outcome, gid: Id,
    authorizedAt: Time, freshAt: Time, markedAt: Time, usedAt: Time)

  predicate WellFormedSign(c: SignCall) {
    c.sid.Some? && c.document.Some? && IsSha256Text(c.documentHash)
  }

  predicate SignCalled(c: SignCall) {
    WellFormedSign(c) && Genuine(c.caller) && c.decision == APPROVE
  }

  predicate Names(s: Session, c: SignCall) {
    c.document == Some(s.document) && s.documentHash == c.documentHash && s.decision == c.decision
  }

  predicate Unsigned(db: Db, sid: Id) {
    forall g | g in db.signatures :: db.signatures[g].session != sid
  }

  /** Verified, and not yet used for a signature. */
  predicate Ready(db: Db, sid: Id, s: Session) {
    s.verifiedAt.Some? && s.usedAt.None? && Unsigned(db, sid)
  }

  /** The verification is recent, and the stored file is the document that was approved. */
  predicate Intact(db: Db, dir: Directory, c: SignCall, s: Session)
    requires s.verifiedAt.Some?
  {
    && c.freshAt - s.verifiedAt.value <= SIGNING_TTL
    && DocumentStands(db, s) && s.user in dir.users
    && c.stored == Digest(s.documentHash)
  }

  /** Everything the endpoint demands before it turns to the cryptographic services. */
  predicate Signable(db: Db, dir: Directory, c: SignCall, s: Session)
    requires SignCalled(c)
  {
    && s.device == c.caller.id
    && SessionAuthorized(db, c.sid.value, s, Authenticated, c.authorizedAt)
    && Ready(db, c.sid.value, s) && Names(s, c) && Intact(db, dir, c, s) && c.nonceFresh
  }

  predicate Unsignable(db: Db, dir: Directory, c: SignCall, s: Session)
    requires SignCalled(c)
  {
    && s.device == c.caller.id
    && (!SessionAuthorized(db, c.sid.value, s, Authenticated, c.authorizedAt)
        || (Ready(db, c.sid.value, s) && Names(s, c) && !Intact(db, dir, c, s)))
  }

  predicate SignAttempted(db: Db, dir: Directory, c: SignCall) {
    SignCalled(c) && OwnSession(db, c.caller, c.sid) && Signable(db, dir, c, db.sessions[c.sid.value])
  }

  /** When a document is signed. */
  predicate SignConditions(db: Db, dir: Directory, c: SignCall) {
    SignAttempted(db, dir, c) && c.outcome == Produced
  }

  /** When the attempt also ends the request behind it. */
  predicate SignEnds(db: Db, dir: Directory, c: SignCall) {
    SignCalled(c) && OwnSession(db, c.caller, c.sid) && Unsignable(db, dir, c, db.sessions[c.sid.value])
  }

  predicate ServiceFailed(o: Outcome) {
    o == HsmFailed || o == StorageFailed || o == PadesFailed || o == NotPublished
  }

  predicate SignSessionReason(db: Db, dir: Directory, c: SignCall, s: Session, code: nat)
    requires SignCalled(c)
  {
    match code
    case 401 => (s.verifiedAt.Some? && s.verifiedAt.value + SIGNING_TTL < c.freshAt) || !c.nonceFresh
    case 403 =>
      || s.device != c.caller.id || !SessionAuthorized(db, c.sid.value, s, Authenticated, c.authorizedAt)
      || s.verifiedAt.None? || !Names(s, c) || s.user !in dir.users
    case 404 => s.document !in db.documents
    case 409 =>
      || s.usedAt.Some? || !Unsigned(db, c.sid.value)
      || (s.document in db.documents && !DocumentStands(db, s))
      || (c.stored.Digest? && c.stored.hash != s.documentHash)
    case 500 => !c.stored.Digest? || (Signable(db, dir, c, s) && c.outcome == BadTarget)
    case 503 => Signable(db, dir, c, s) && ServiceFailed(c.outcome)
    case _ => false
  }

  predicate SignReason(db: Db, dir: Directory, c: SignCall, code: nat) {
    if SignCalled(c) && c.sid.value in db.sessions then
      SignSessionReason(db, dir, c, db.sessions[c.sid.value], code)
    else
      match code
      case 400 => !WellFormedSign(c)
      case 401 => !c.caller.known || !c.caller.hasSecret || !c.caller.hmacValid
      case 403 => !c.caller.active || c.decision != APPROVE
      case 404 => SignCalled(c)
      case 429 => c.caller.known && c.caller.limited
      case _ => false
  }

  function SignOp(c: SignCall, rid: Id): Op
    requires c.sid.Some?
  {
    Sign(c.gid, c.sid.value, rid, c.authorizedAt, c.freshAt, c.markedAt, c.usedAt)
  }

  /** In a reachable database the last-line defences of `/sign` never fire: once the request
      is authorized, the session is verified, unused and has no signature. */
  lemma AuthorizedSessionIsReady(db: Db, sid: Id, now: Time)
    requires Inv(db) && sid in db.sessions
    requires SessionAuthorized(db, sid, db.sessions[sid], Authenticated, now)
    ensures Ready(db, sid, db.sessions[sid])
  {
    var id :|
      id in RowsOfSession(db.requests, sid) && Authorized(db.requests[id], db.sessions[sid], Authenticated, now);
    assert RequestOk(db, db.requests[id]);
    forall g | g in db.signatures ensures db.signatures[g].session != sid {
      var k := SignatureHasItsRequest(db, g);
      assert RequestOk(db, db.requests[k]);
    }
  }

  /** The guards of the transaction follow from the conditions of the endpoint. */
  lemma SigningIsEnabled(db: Db, dir: Directory, c: SignCall) returns (rid: Id)
    requires SignConditions(db, dir, c) && c.gid !in db.signatures
    requires Stamped(db.requests, c.authorizedAt) && c.authorizedAt <= c.freshAt <= c.markedAt <= c.usedAt
    ensures rid in RowsOfSession(db.requests, c.sid.value) && Enabled(db, SignOp(c, rid))
    ensures db.requests[rid].status == Authenticated && db.requests[rid].device == c.caller.id
    ensures c.document == Some(db.requests[rid].document) && c.stored == Digest(db.requests[rid].documentHash)
  {
    rid :| rid in RowsOfSession(db.requests, c.sid.value)
      && Authorized(db.requests[rid], db.sessions[c.sid.value], Authenticated, c.authorizedAt);
  }

  /** The request an accepted signing call leaves: SIGNED on the calling device, with a signature
      over the document whose file has the digest the call and the request name. */
  predicate Signs(c: SignCall, rid: Id, db': Db) {
    && rid in db'.requests && c.gid in db'.signatures
    && var r, g := db'.requests[rid], db'.signatures[c.gid];
    && r.status == Signed && r.signature == Some(c.gid) && r.session == c.sid && r.device == c.caller.id
    && c.document == Some(r.document) && c.stored == Digest(r.documentHash)
    && g.document == r.document && g.documentHash == r.documentHash && Some(g.session) == c.sid
  }

  lemma SigningLeaves(db: Db, c: SignCall, rid: Id)
    requires c.sid.Some? && Enabled(db, SignOp(c, rid))
    requires db.requests[rid].device == c.caller.id && c.document == Some(db.requests[rid].document)
    requires c.stored == Digest(db.requests[rid].documentHash)
    ensures Signs(c, rid, Apply(db, SignOp(c, rid)))
  {
    var r, s := db.requests[rid], db.sessions[c.sid.value];
    var g := NewSignature(s, c.sid.value, c.authorizedAt, c.freshAt);
    assert MarkSigned(r, c.sid.value, c.gid, g, c.markedAt).status == Signed;
  }

  /** A granted signing call is one transaction, on the one request bound to the session: it
      makes the calling device's request SIGNED with this signature and keeps the invariant. */
  lemma SigningIsOneTransaction(db: Db, dir: Directory, c: SignCall) returns (rid: Id)
    requires Inv(db) && SignConditions(db, dir, c) && c.gid !in db.signatures
    requires Stamped(db.requests, c.authorizedAt) && c.authorizedAt <= c.freshAt <= c.markedAt <= c.usedAt
    ensures Enabled(db, SignOp(c, rid))
    ensures forall other | Enabled(db, SignOp(c, other)) :: other == rid
    ensures Inv(Apply(db, SignOp(c, rid)))
    ensures var r := Apply(db, SignOp(c, rid)).requests[rid];
      && r.status == Signed && r.signature == Some(c.gid) && r.device == c.caller.id
      && r.session == c.sid && c.document == Some(r.document) && r.documentHash == c.documentHash
      && c.stored == Digest(r.documentHash)
  {
    rid := SigningIsEnabled(db, dir, c);
    forall other | Enabled(db, SignOp(c, other)) ensures other == rid {
      assert db.requests[other].session == db.requests[rid].session;
    }
    SignKeepsInv(db, SignOp(c, rid));
  }

  /** The call can only be refused with this status, and ends the request or does not. */
  predicate SignRefused(db: Db, dir: Directory, c: SignCall, code: nat, terminal: bool) {
    && !SignConditions(db, dir, c) && SignReason(db, dir, c, code)
    && (forall other | other in {400, 401, 403, 404, 409, 429, 500, 503} && other != code ::
          !SignReason(db, dir, c, other))
    && (terminal <==> SignEnds(db, dir, c))
  }

  // ---------------------------------------------------------------- terminal refusals

  lemma SessionKeepsItsDevice(db: Db, op: Op, sid: Id)
    requires Enabled(db, op) && sid in db.sessions
    ensures sid in Apply(db, op).sessions && Apply(db, op).sessions[sid].device == db.sessions[sid].device
  {
  }

  lemma {:induction false} SessionKeepsItsDeviceAlong(db: Db, ops: seq<Op>, db': Db, sid: Id)
    requires Serial(db, ops, db') && sid in db.sessions
    ensures sid in db'.sessions && db'.sessions[sid].device == db.sessions[sid].device
    decreases |ops|
  {
    if ops != [] {
      SessionKeepsItsDevice(db, ops[0], sid);
      SessionKeepsItsDeviceAlong(Apply(db, ops[0]), ops[1..], db', sid);
    }
  }

  lemma EndingFreesTheQueue(rows: Rows, rid: Id, r': Request)
    requires OneActivePerDevice(rows) && rid in rows && Active(rows[rid].status)
    requires r'.device == rows[rid].device && !Active(r'.status)
    ensures InFlight(rows[rid := r'], r'.device) == {}
  {
  }

  /** A terminal failure leaves its request terminal, and touches no other; it frees the
      device's queue if the request occupied it. */
  lemma TerminalFailureEndsOneRequest(db: Db, sid: Id, rid: Id, detail: string, now: Time)
    requires Inv(db) && Enabled(db, FailSession(sid, rid, detail, now))
    ensures var rows := Apply(db, FailSession(sid, rid, detail, now)).requests;
      && rows.Keys == db.requests.Keys
      && (forall id | id in rows && id != rid :: rows[id] == db.requests[id])
      && rows[rid].device == db.requests[rid].device && !Open(rows[rid].status)
      && (Active(db.requests[rid].status) ==> InFlight(rows, rows[rid].device) == {})
  {
    var r := db.requests[rid];
    assert RequestOk(db, r);
    if Active(r.status) {
      EndingFreesTheQueue(db.requests, rid, MarkFailedBySession(r, detail, now));
    }
  }

  /** Whatever commits between a refusal's rollback and its terminal failure, the failed
      request is one of the device that called. */
  lemma TerminalFailureStaysOnTheDevice(
    db: Db, ops: seq<Op>, db': Db, caller: Caller, sid: Id, rid: Id, detail: string, now: Time)
    requires Inv(db) && Serial(db, ops, db') && OwnSession(db, caller, Some(sid))
    requires Enabled(db', FailSession(sid, rid, detail, now))
    ensures Inv(db') && db'.requests[rid].device == caller.id
  {
    SerialKeepsInv(db, ops, db');
    SessionKeepsItsDeviceAlong(db, ops, db', sid);
    assert RequestOk(db', db'.requests[rid]);
  }

  // ---------------------------------------------------------------- POST /auth/challenge

  datatype ChallengeCall = ChallengeCall(
    caller: Caller, rfid: string, document: Option<Id>, documentHash: string, decision: string, nonceFresh: bool,
    sid: Id, challenge: string, now: Time, attachedAt: Time)

  function Cards(dir: Directory, device: Id, rfid: string): set<Credential> {
    set k | k in dir.credentials && k.device == device && k.rfid == rfid
  }

  predicate ActiveUser(dir: Directory, user: Id) {
    user in dir.users && dir.users[user]
  }

  predicate WellFormedChallenge(c: ChallengeCall) {
    c.document.Some? && IsSha256Text(c.documentHash) && c.decision == APPROVE
  }

  /** When a challenge is issued: a genuine device names a stored document by its hash, and
      the card is an active user's. */
  predicate ChallengeConditions(db: Db, dir: Directory, c: ChallengeCall) {
    && Genuine(c.caller) && c.caller.rfidEnabled && WellFormedChallenge(c)
    && c.document.value in db.documents && db.documents[c.document.value].documentHash == c.documentHash
    && Cards(dir, c.caller.id, c.rfid) != {}
    && (forall k | k in Cards(dir, c.caller.id, c.rfid) :: ActiveUser(dir, k.user))
    && c.nonceFresh
  }

  predicate ChallengeReason(db: Db, dir: Directory, c: ChallengeCall, code: nat) {
    match code
    case 400 => !WellFormedChallenge(c)
    case 401 => !c.caller.known || !c.caller.hasSecret || !c.caller.hmacValid || !c.nonceFresh
    case 403 =>
      || !c.caller.active || !c.caller.rfidEnabled
      || (WellFormedChallenge(c) && c.document.value in db.documents
          && db.documents[c.document.value].documentHash != c.documentHash)
      || Cards(dir, c.caller.id, c.rfid) == {}
      || exists k | k in Cards(dir, c.caller.id, c.rfid) :: !ActiveUser(dir, k.user)
    case 404 => c.document.Some? && c.document.value !in db.documents
    case 429 => c.caller.known && c.caller.limited
    case _ => false
  }

  function OpenedSession(c: ChallengeCall, user: Id): Session
    requires c.document.Some?
  {
    Session(c.caller.id, user, c.rfid, c.document.value, c.documentHash, APPROVE, c.challenge,
            c.now + CHALLENGE_TTL, None, None)
  }

  function ChallengeOp(c: ChallengeCall, user: Id, target: Option<Id>): Op
    requires c.document.Some?
  {
    Challenge(c.sid, c.caller.id, user, c.rfid, c.document.value, c.challenge, c.now, target, c.attachedAt)
  }

  /** The request the challenge binds: the device's claimed request for the document. */
  predicate BindsClaimed(rows: Rows, c: ChallengeCall, target: Option<Id>)
    requires c.document.Some?
  {
    var fitting := AttachableRows(rows, c.caller.id, c.document.value, c.documentHash, APPROVE);
    if target.Some? then target.value in fitting else fitting == {}
  }

  lemma ChallengeCommits(db: Db, c: ChallengeCall, user: Id, target: Option<Id>)
    requires WellFormedChallenge(c) && c.document.value in db.documents
    requires db.documents[c.document.value].documentHash == c.documentHash
    requires c.sid !in db.sessions && c.now <= c.attachedAt && BindsClaimed(db.requests, c, target)
    ensures Enabled(db, ChallengeOp(c, user, target))
    ensures Apply(db, ChallengeOp(c, user, target)) == db.(
      sessions := db.sessions[c.sid := OpenedSession(c, user)],
      requests :=
        if target.Some? then db.requests[target.value := Attach(db.requests[target.value], c.sid, c.attachedAt)]
        else db.requests)
  {
  }

  /** A granted challenge is one transaction: the card decides the user, and the queue holds
      at most one request for it to bind. */
  lemma ChallengeIsOneTransaction(db: Db, dir: Directory, c: ChallengeCall) returns (user: Id, target: Option<Id>)
    requires Inv(db) && UniqueCards(dir) && ChallengeConditions(db, dir, c)
    requires c.sid !in db.sessions && c.now <= c.attachedAt
    ensures forall k | k in Cards(dir, c.caller.id, c.rfid) :: k.user == user
    ensures BindsClaimed(db.requests, c, target)
    ensures forall other | BindsClaimed(db.requests, c, other) :: other == target
    ensures Enabled(db, ChallengeOp(c, user, target)) && Inv(Apply(db, ChallengeOp(c, user, target)))
  {
    var k :| k in Cards(dir, c.caller.id, c.rfid);
    user := k.user;
    var fitting := AttachableRows(db.requests, c.caller.id, c.document.value, c.documentHash, APPROVE);
    if fitting == {} {
      target := None;
    } else {
      var id :| id in fitting;
      target := Some(id);
    }
    ApplyKeepsInv(db, ChallengeOp(c, user, target));
  }

  /** The call can only be refused with this status. */
  predicate ChallengeRefused(db: Db, dir: Directory, c: ChallengeCall, code: nat) {
    && !ChallengeConditions(db, dir, c) && ChallengeReason(db, dir, c, code)
    && forall other | other in {400, 401, 403, 404, 429} && other != code :: !ChallengeReason(db, dir, c, other)
  }

  // ---------------------------------------------------------------- the device queue

  /** How a caller that fails the queue's authentication is answered. */
  predicate QueueReason(caller: Caller, code: nat) {
    && (code == 429 <==> caller.known && caller.limited)
    && (code == 403 <==> caller.known && !caller.limited && !caller.active)
    && (code == 401 <==> !caller.known || (!caller.limited && caller.active))
  }

  /** A poll of the queue is one atomic `Claim`, with the rows the statement expired. */
  lemma PollIsOneClaim(db: Db, device: Id, now: Time, lockedAtExpiry: set<Id>, lockedAtPick: set<Id>,
                       rows': Rows, picked: Option<Id>)
    requires ClaimOutcome(db.requests, device, now, lockedAtExpiry, lockedAtPick, rows', picked)
    ensures Commits(db, Claim(device, now, DueRows(db.requests, Some(device), now, lockedAtExpiry), picked),
                    db.(requests := rows'))
  {
    var expired := DueRows(db.requests, Some(device), now, lockedAtExpiry);
    var rest := ExpireAll(db.requests, expired, now);
    if picked.Some? {
      assert picked.value in Claimable(rest, device, now, lockedAtPick);
      forall id | id in InFlight(db.requests, device) ensures id in expired {
        assert id in expired || id in InFlight(rest, device);
      }
    }
  }

  // ---------------------------------------------------------------- POST /api/signature-requests

  /** `device` is the configured signature device when it is active and enrolled. */
  datatype CreateCall = CreateCall(
    web: Id, document: Id, id: Id, device: Option<Id>, startedAt: Time, consentedAt: Time, now: Time)

  function CreateOp(c: CreateCall): Op
    requires c.device.Some?
  {
    Create(c.id, c.web, c.document, c.device.value, c.startedAt, c.consentedAt, c.now)
  }

  /** The request an accepted creation leaves: PENDING for the configured device, for the user's
      own document as stored, viewed in this web session, with consent and a deadline 900 seconds
      after the last reading; and nothing else changed. */
  predicate Consents(db: Db, c: CreateCall, db': Db) {
    && c.web in db.webUsers && c.document in db.documents && (c.web, c.document) in db.viewed && c.id in db'.requests
    && var r := db'.requests[c.id];
    && r.status == Pending && r.owner == c.web && r.user == db.webUsers[c.web] && c.device == Some(r.device)
    && r.document == c.document && db.documents[c.document] == Document(Some(r.user), r.documentHash)
    && r.decision == "APPROVE" && r.consentedAt == Some(c.consentedAt)
    && r.consentVersion == Some("remotesign-lab-consent-v1")
    && r.createdAt == c.startedAt && r.expiresAt == c.now + 900_000_000
    && r.session.None? && r.signature.None? && r.claimedAt.None? && r.completedAt.None?
    && db' == db.(requests := db.requests[c.id := r])
    && forall id | id in db.requests && db.requests[id].user == r.user && db.requests[id].document == c.document ::
         db.requests[id].status in {Signed, Failed, Expired}
  }

  lemma CreationConsents(db: Db, c: CreateCall)
    requires c.device.Some? && Enabled(db, CreateOp(c))
    ensures Consents(db, c, Apply(db, CreateOp(c)))
  {
    forall id | id in db.requests && db.requests[id].user == db.webUsers[c.web]
             && db.requests[id].document == c.document
      ensures db.requests[id].status in {Signed, Failed, Expired}
    {
      assert !Open(db.requests[id].status);
    }
  }

  /** A creation that everything allows is enabled. */
  lemma CreationIsEnabled(db: Db, c: CreateCall)
    requires c.device.Some? && c.id !in db.requests && c.startedAt <= c.consentedAt <= c.now
    requires c.web in db.webUsers && c.document in db.documents && (c.web, c.document) in db.viewed
    requires db.documents[c.document].owner == Some(db.webUsers[c.web])
    requires forall id | id in db.requests && db.requests[id].user == db.webUsers[c.web]
                      && db.requests[id].document == c.document ::
      db.requests[id].status in {Signed, Failed, Expired}
    ensures Enabled(db, CreateOp(c))
  {
  }

  // ---------------------------------------------------------------- what a handler answers

  function ReportReply(status: Status): Reply {
    if status == Failed || status == Expired then Closed(status) else Rejected(409)
  }

  function PollReply(rows: Rows, picked: Option<Id>): Reply
    requires picked.Some? ==> picked.value in rows
  {
    if picked.None? then NoContent
    else
      var r := rows[picked.value];
      Delivered(picked.value, r.document, r.documentHash, r.decision)
  }

  /** A poll commits one claim of the first claimable row, and answers with that row. */
  ghost predicate Polled(
    db: Db, device: Id, now: Time, lockedAtExpiry: set<Id>, lockedAtPick: set<Id>, reply: Reply, db': Db)
  {
    exists picked: Option<Id> ::
      && ClaimOutcome(db.requests, device, now, lockedAtExpiry, lockedAtPick, db'.requests, picked)
      && (picked.Some? ==> picked.value in db'.requests)
      && reply == PollReply(db'.requests, picked)
      && Commits(db, Claim(device, now, DueRows(db.requests, Some(device), now, lockedAtExpiry), picked), db')
  }

  /** What the device is given is a request of its own, CLAIMED for it by this poll. */
  lemma DeliveredIsClaimed(
    db: Db, device: Id, now: Time, lockedAtExpiry: set<Id>, lockedAtPick: set<Id>, reply: Reply, db': Db)
    requires Polled(db, device, now, lockedAtExpiry, lockedAtPick, reply, db')
    ensures reply.Delivered? || reply == NoContent
    ensures reply.Delivered? ==>
      && reply.request in db.requests && reply.request in db'.requests
      && var r, r' := db.requests[reply.request], db'.requests[reply.request];
      && r.status == Pending && now < r.expiresAt && r.device == device
      && r' == r.(status := Claimed, claimedAt := Some(now), updatedAt := now)
      && reply.document == r.document && reply.documentHash == r.documentHash && reply.decision == r.decision
    ensures reply == NoContent ==>
      forall id | id in db'.requests && db'.requests[id].status == Claimed ::
        id in db.requests && db'.requests[id] == db.requests[id]
  {
    var picked: Option<Id> :|
      && ClaimOutcome(db.requests, device, now, lockedAtExpiry, lockedAtPick, db'.requests, picked)
      && (picked.Some? ==> picked.value in db'.requests)
      && reply == PollReply(db'.requests, picked);
    if picked.Some? {
      PollServesTheOldest(db.requests, device, now, lockedAtExpiry, lockedAtPick, db'.requests, picked.value);
    }
  }

  lemma PollAnswered(
    db: Db, device: Id, now: Time, lockedAtExpiry: set<Id>, lockedAtPick: set<Id>, db': Db, picked: Option<Id>)
    requires ClaimOutcome(db.requests, device, now, lockedAtExpiry, lockedAtPick, db'.requests, picked)
    requires db' == db.(requests := db'.requests) && (picked.Some? ==> picked.value in db'.requests)
    ensures Polled(db, device, now, lockedAtExpiry, lockedAtPick, PollReply(db'.requests, picked), db')
  {
    PollIsOneClaim(db, device, now, lockedAtExpiry, lockedAtPick, db'.requests, picked);
  }
}
