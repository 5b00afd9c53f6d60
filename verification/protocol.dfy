/** The signing protocol as atomic transactions over the committed database, and the
    invariant every reachable database satisfies. */
module Protocol {
  import opened Records
  import opened RequestService

  const CONSENT_VERSION := "remotesign-lab-consent-v1"
  const CHALLENGE_TTL: int := 60 * SECOND
  const SIGNING_TTL: int := 60 * SECOND

  /** Committed rows. `webUsers` gives the user of each web session and `viewed` the
      documents each web session has opened; documents and their owners do not change. */
  datatype Db = Db(
    requests: Rows,
    sessions: map<Id, Session>,
    signatures: map<Id, Signature>,
    documents: map<Id, Document>,
    webUsers: map<Id, Id>,
    viewed: set<(Id, Id)>)

  /** A committed transaction, with the rows it selected and its clock readings. */
  datatype Op =
    | View(web: Id, document: Id)
    | Create(id: Id, web: Id, document: Id, device: Id, startedAt: Time, consentedAt: Time, now: Time)
    | Claim(device: Id, now: Time, expired: set<Id>, picked: Option<Id>)
    | Challenge(sid: Id, device: Id, user: Id, rfid: string, document: Id, challenge: string,
                now: Time, target: Option<Id>, attachedAt: Time)
    | Complete(sid: Id, rid: Id, verifiedAt: Time, checkedAt: Time, markedAt: Time)
    | Sign(gid: Id, sid: Id, rid: Id, authorizedAt: Time, freshAt: Time, markedAt: Time, usedAt: Time)
    | Report(rid: Id, device: Id, detail: string, now: Time)
    | FailSession(sid: Id, rid: Id, detail: string, now: Time)
    | Poll(rid: Id, user: Id, now: Time)

  /** No instant recorded in the row is after `t`. */
  predicate Timely(r: Request, t: Time) {
    && r.createdAt <= t
    && NotAfter(r.claimedAt, t)
    && NotAfter(r.authStartedAt, t)
    && NotAfter(r.authenticatedAt, t)
    && NotAfter(r.completedAt, t)
  }

  predicate Stamped(rows: Rows, clock: Time) {
    forall id | id in rows :: Timely(rows[id], clock)
  }

  predicate NoOpenRequest(rows: Rows, user: Id, document: Id) {
    forall id | id in rows && rows[id].user == user && rows[id].document == document :: !Open(rows[id].status)
  }

  /** The tests a handler passes before it commits. */
  predicate Guard(db: Db, op: Op) {
    match op
    case View(web, document) =>
      && web in db.webUsers && document in db.documents
      && db.documents[document].owner == Some(db.webUsers[web])
    case Create(id, web, document, device, startedAt, consentedAt, now) =>
      && id !in db.requests && web in db.webUsers && document in db.documents
      && db.documents[document].owner == Some(db.webUsers[web])
      && (web, document) in db.viewed
      && NoOpenRequest(db.requests, db.webUsers[web], document)
      && startedAt <= consentedAt <= now
    case Claim(device, now, expired, picked) =>
      && (forall id | id in expired ::
            id in db.requests && db.requests[id].device == device && Due(db.requests[id], now))
      && (picked.Some? ==>
            && picked.value in db.requests && Waiting(db.requests[picked.value], device, now)
            && InFlight(db.requests, device) <= expired)
    case Challenge(sid, device, user, rfid, document, challenge, now, target, attachedAt) =>
      && sid !in db.sessions && document in db.documents && now <= attachedAt
      && (target.Some? ==>
            && target.value in db.requests
            && Attachable(db.requests[target.value], device, document, db.documents[document].documentHash, APPROVE))
    case Complete(sid, rid, verifiedAt, checkedAt, markedAt) =>
      && sid in db.sessions && rid in db.requests && db.requests[rid].session == Some(sid)
      && db.sessions[sid].expiresAt > verifiedAt && db.sessions[sid].verifiedAt.None?
      && Authorized(db.requests[rid], db.sessions[sid], Authenticating, checkedAt)
      && verifiedAt <= checkedAt <= markedAt
    case Sign(gid, sid, rid, authorizedAt, freshAt, markedAt, usedAt) =>
      && gid !in db.signatures && sid in db.sessions && rid in db.requests && db.requests[rid].session == Some(sid)
      && Authorized(db.requests[rid], db.sessions[sid], Authenticated, authorizedAt)
      && db.sessions[sid].verifiedAt.Some? && db.sessions[sid].usedAt.None?
      && freshAt <= db.sessions[sid].verifiedAt.value + SIGNING_TTL
      && authorizedAt <= freshAt <= markedAt <= usedAt
    case Report(rid, device, detail, now) =>
      rid in db.requests && db.requests[rid].device == device
    case FailSession(sid, rid, detail, now) =>
      rid in db.requests && db.requests[rid].session == Some(sid)
    case Poll(rid, user, now) =>
      rid in db.requests && db.requests[rid].user == user
  }

  /** The instants in the row the handler locked precede its first clock reading after the
      lock. `Claim` and `Challenge` read the clock before they lock a row, so they promise
      nothing of the kind. */
  predicate ReadAfterLock(db: Db, op: Op)
    requires Guard(db, op)
  {
    match op
    case Complete(_, rid, _, checkedAt, _) => Timely(db.requests[rid], checkedAt)
    case Sign(_, _, rid, authorizedAt, _, _, _) => Timely(db.requests[rid], authorizedAt)
    case Report(rid, _, _, now) => Timely(db.requests[rid], now)
    case FailSession(_, rid, _, now) => Timely(db.requests[rid], now)
    case Poll(rid, _, now) => Timely(db.requests[rid], now)
    case _ => true
  }

  predicate Enabled(db: Db, op: Op) {
    Guard(db, op) && ReadAfterLock(db, op)
  }

  function NewSession(op: Op, documentHash: string): Session
    requires op.Challenge?
  {
    Session(op.device, op.user, op.rfid, op.document, documentHash, APPROVE, op.challenge,
            op.now + CHALLENGE_TTL, None, None)
  }

  function NewSignature(s: Session, sid: Id, authorizedAt: Time, freshAt: Time): Signature {
    Signature(sid, s.document, s.user, s.device, s.documentHash, authorizedAt, freshAt)
  }

  function ClaimRows(rows: Rows, now: Time, expired: set<Id>, picked: Option<Id>): Rows {
    var rest := ExpireAll(rows, expired, now);
    if picked.Some? && picked.value in rest
    then rest[picked.value := RequestService.Claim(rest[picked.value], now)]
    else rest
  }

  /** What the transaction commits. */
  function Apply(db: Db, op: Op): Db
    requires Guard(db, op)
  {
    match op
    case View(web, document) => db.(viewed := db.viewed + {(web, document)})
    case Create(id, web, document, device, startedAt, consentedAt, now) =>
      db.(requests := db.requests[id := NewRequest(
        web, db.webUsers[web], device, document, db.documents[document].documentHash,
        consentedAt, CONSENT_VERSION, startedAt, now)])
    case Claim(device, now, expired, picked) =>
      db.(requests := ClaimRows(db.requests, now, expired, picked))
    case Challenge(sid, device, user, rfid, document, challenge, now, target, attachedAt) =>
      var db' := db.(sessions := db.sessions[sid := NewSession(op, db.documents[document].documentHash)]);
      if target.Some?
      then db'.(requests := db.requests[target.value := Attach(db.requests[target.value], sid, attachedAt)])
      else db'
    case Complete(sid, rid, verifiedAt, checkedAt, markedAt) =>
      db.(sessions := db.sessions[sid := db.sessions[sid].(verifiedAt := Some(verifiedAt))],
          requests := db.requests[rid := MarkAuthenticated(db.requests[rid], markedAt)])
    case Sign(gid, sid, rid, authorizedAt, freshAt, markedAt, usedAt) =>
      var g := NewSignature(db.sessions[sid], sid, authorizedAt, freshAt);
      db.(signatures := db.signatures[gid := g],
          sessions := db.sessions[sid := db.sessions[sid].(usedAt := Some(usedAt))],
          requests := db.requests[rid := MarkSigned(db.requests[rid], sid, gid, g, markedAt)])
    case Report(rid, device, detail, now) =>
      db.(requests := db.requests[rid := MarkFailed(db.requests[rid], detail, now)])
    case FailSession(sid, rid, detail, now) =>
      db.(requests := db.requests[rid := MarkFailedBySession(db.requests[rid], detail, now)])
    case Poll(rid, user, now) =>
      db.(requests := db.requests[rid := AfterExpiry(db.requests[rid], now)])
  }

  // ---------------------------------------------------------------- the invariant

  /** Stage columns are set exactly for the stages passed. */
  predicate Shape(r: Request) {
    && r.decision == APPROVE
    && (r.signature.Some? <==> r.status == Signed)
    && (r.completedAt.Some? <==> !Open(r.status))
    && (r.failureDetail.Some? <==> r.status == Failed || r.status == Expired)
    && (r.session.Some? <==> r.authStartedAt.Some?)
    && (r.authenticatedAt.Some? ==> r.session.Some?)
    && (r.session.Some? ==> r.claimedAt.Some?)
    && match r.status
       case Pending => r.claimedAt.None?
       case Claimed => r.claimedAt.Some? && r.session.None?
       case Authenticating => r.session.Some? && r.authenticatedAt.None?
       case Authenticated => r.authenticatedAt.Some?
       case Signed => r.authenticatedAt.Some?
       case Failed => r.claimedAt.Some?
       case Expired => r.session.None?
  }

  /** Stage instants are ordered, except that nothing bounds `claimedAt` from below nor
      `authStartedAt` by `claimedAt`. */
  predicate Ordered(r: Request) {
    && r.consentedAt.Some? && r.createdAt <= r.consentedAt.value <= r.expiresAt - SIGNATURE_REQUEST_TTL
    && (r.claimedAt.Some? ==> r.claimedAt.value < r.expiresAt)
    && (r.authenticatedAt.Some? && r.authStartedAt.Some? ==>
          r.authStartedAt.value <= r.authenticatedAt.value
          && r.claimedAt.Some? && r.claimedAt.value <= r.authenticatedAt.value)
    && (r.completedAt.Some? ==> Timely(r, r.completedAt.value))
  }

  /** The request belongs to its document's owner, carries consent, and follows a view of
      the document in the web session that created it. */
  predicate Consented(db: Db, r: Request) {
    && r.document in db.documents
    && db.documents[r.document].owner == Some(r.user)
    && db.documents[r.document].documentHash == r.documentHash
    && r.owner in db.webUsers && db.webUsers[r.owner] == r.user
    && (r.owner, r.document) in db.viewed
    && r.consentVersion == Some(CONSENT_VERSION)
  }

  /** The request agrees with the session bound to it, as far as its status says. */
  predicate Linked(db: Db, r: Request) {
    r.session.Some? ==>
      && r.session.value in db.sessions
      && var s := db.sessions[r.session.value];
      && Binds(r, s)
      && (s.verifiedAt.Some? <==> r.authenticatedAt.Some?)
      && (s.verifiedAt.Some? ==>
            r.user == s.user && s.verifiedAt.value < s.expiresAt && s.verifiedAt.value <= r.authenticatedAt.value)
      && (s.usedAt.Some? <==> r.status == Signed)
      && (r.status == Signed ==> SignedPair(db, r, s))
  }

  /** A SIGNED request, its session and its signature row agree on everything, and the
      signature's checks were timely. */
  predicate SignedPair(db: Db, r: Request, s: Session) {
    && r.signature.Some? && r.signature.value in db.signatures
    && var g := db.signatures[r.signature.value];
    && r.session == Some(g.session)
    && g.document == r.document && g.device == r.device && g.user == r.user && g.documentHash == r.documentHash
    && s.verifiedAt.Some? && s.verifiedAt.value <= g.authorizedAt <= g.freshAt <= s.verifiedAt.value + SIGNING_TTL
    && g.authorizedAt < r.expiresAt
  }

  predicate RequestOk(db: Db, r: Request) {
    Shape(r) && Ordered(r) && Consented(db, r) && Linked(db, r)
  }

  predicate AllRequestsOk(db: Db) {
    forall id | id in db.requests :: RequestOk(db, db.requests[id])
  }

  predicate OneActivePerDevice(rows: Rows) {
    forall a, b | a in rows && b in rows && Active(rows[a].status) && Active(rows[b].status)
               && rows[a].device == rows[b].device :: a == b
  }

  predicate OneOpenPerDocument(rows: Rows) {
    forall a, b | a in rows && b in rows && Open(rows[a].status) && Open(rows[b].status)
               && rows[a].document == rows[b].document :: a == b
  }

  /** The signature row is the one its SIGNED request names. */
  predicate SignedFor(rows: Rows, id: Id, gid: Id) {
    id in rows && rows[id].status == Signed && rows[id].signature == Some(gid)
  }

  ghost predicate SignaturesAccounted(db: Db) {
    forall gid | gid in db.signatures :: exists id :: SignedFor(db.requests, id, gid)
  }

  /** A session that was used or verified is bound to a request. */
  predicate Bound(rows: Rows, id: Id, sid: Id) {
    id in rows && rows[id].session == Some(sid)
  }

  ghost predicate SessionsAccounted(db: Db) {
    forall sid | sid in db.sessions ::
      && db.sessions[sid].decision == APPROVE
      && (db.sessions[sid].verifiedAt.Some? || db.sessions[sid].usedAt.Some? ==>
            exists id :: Bound(db.requests, id, sid))
  }

  ghost predicate Inv(db: Db) {
    && AllRequestsOk(db)
    && UniqueSessions(db.requests)
    && OneActivePerDevice(db.requests)
    && OneOpenPerDocument(db.requests)
    && SignaturesAccounted(db)
    && SessionsAccounted(db)
  }

  predicate Empty(db: Db) {
    db.requests == map[] && db.sessions == map[] && db.signatures == map[] && db.viewed == {}
  }

  lemma ConsentHasText()
    ensures HasText(Some(CONSENT_VERSION))
  {
    assert CONSENT_VERSION[0] == 'r';
  }

  // ---------------------------------------------------------------- preservation

  /** `db'` may have gained rows and views; what `r` refers to is as it was. */
  predicate Frames(db: Db, db': Db, r: Request) {
    && db'.documents == db.documents && db'.webUsers == db.webUsers && db.viewed <= db'.viewed
    && (forall g | g in db.signatures :: g in db'.signatures && db'.signatures[g] == db.signatures[g])
    && (r.session.Some? && r.session.value in db.sessions ==>
          r.session.value in db'.sessions && db'.sessions[r.session.value] == db.sessions[r.session.value])
  }

  lemma FramedRequestOk(db: Db, db': Db, r: Request)
    requires RequestOk(db, r) && Frames(db, db', r)
    ensures RequestOk(db', r)
  {
  }

  /** One request row replaced, with a status and links that keep the table's invariants. */
  predicate Replaces(rows: Rows, rid: Id, r': Request) {
    && rid in rows
    && var r := rows[rid];
    && SameIdentity(r, r')
    && r.status != Signed
    && (r'.session == r.session || r.session.None?)
    && (Open(r'.status) ==> Open(r.status))
    && (Active(r'.status) ==> Active(r.status) || InFlight(rows, r.device) == {})
  }

  lemma ReplacedStaysUnique(rows: Rows, rid: Id, r': Request)
    requires UniqueSessions(rows) && Replaces(rows, rid, r')
    requires r'.session.Some? && r'.session != rows[rid].session ==>
      forall id | id in rows :: rows[id].session != r'.session
    ensures UniqueSessions(rows[rid := r'])
  {
  }

  lemma ReplacedStaysOneActive(rows: Rows, rid: Id, r': Request)
    requires OneActivePerDevice(rows) && Replaces(rows, rid, r')
    ensures OneActivePerDevice(rows[rid := r'])
  {
    forall a | a in rows && a != rid && Active(rows[a].status) && rows[a].device == r'.device
      ensures !Active(r'.status)
    {
      assert a in InFlight(rows, r'.device);
    }
  }

  lemma ReplacedStaysOneOpen(rows: Rows, rid: Id, r': Request)
    requires OneOpenPerDocument(rows) && Replaces(rows, rid, r')
    ensures OneOpenPerDocument(rows[rid := r'])
  {
  }

  lemma ReplacedKeepsSignatures(db: Db, rid: Id, r': Request)
    requires SignaturesAccounted(db) && Replaces(db.requests, rid, r')
    ensures SignaturesAccounted(db.(requests := db.requests[rid := r']))
  {
    var rows := db.requests[rid := r'];
    forall gid | gid in db.signatures ensures exists id :: SignedFor(rows, id, gid) {
      var id :| SignedFor(db.requests, id, gid);
      assert SignedFor(rows, id, gid);
    }
  }

  lemma ReplacedKeepsSessions(db: Db, rid: Id, r': Request)
    requires SessionsAccounted(db) && Replaces(db.requests, rid, r')
    ensures SessionsAccounted(db.(requests := db.requests[rid := r']))
  {
    var rows := db.requests[rid := r'];
    forall sid | sid in db.sessions && (db.sessions[sid].verifiedAt.Some? || db.sessions[sid].usedAt.Some?)
      ensures exists id :: Bound(rows, id, sid)
    {
      var id :| Bound(db.requests, id, sid);
      assert Bound(rows, id, sid);
    }
  }

  /** A row update that leaves sessions and signatures alone. */
  lemma UpdateKeepsInv(db: Db, rid: Id, r': Request)
    requires Inv(db) && Replaces(db.requests, rid, r')
    requires r'.session == db.requests[rid].session
    requires RequestOk(db, r')
    ensures Inv(db.(requests := db.requests[rid := r']))
  {
    var db' := db.(requests := db.requests[rid := r']);
    forall id | id in db'.requests ensures RequestOk(db', db'.requests[id]) {
      FramedRequestOk(db, db', db'.requests[id]);
    }
    ReplacedStaysUnique(db.requests, rid, r');
    ReplacedStaysOneActive(db.requests, rid, r');
    ReplacedStaysOneOpen(db.requests, rid, r');
    ReplacedKeepsSignatures(db, rid, r');
    ReplacedKeepsSessions(db, rid, r');
  }

  lemma ExpiryOk(db: Db, r: Request, now: Time)
    requires RequestOk(db, r) && Due(r, now)
    ensures RequestOk(db, Expire(r, now))
  {
  }

  lemma FailureOk(db: Db, r: Request, detail: string, now: Time)
    requires RequestOk(db, r) && Active(r.status) && Timely(r, now)
    ensures RequestOk(db, Fail(r, detail, now))
  {
  }

  lemma ViewKeepsInv(db: Db, op: Op)
    requires Inv(db) && Enabled(db, op) && op.View?
    ensures Inv(Apply(db, op))
  {
    var db' := Apply(db, op);
    forall id | id in db'.requests ensures RequestOk(db', db'.requests[id]) {
      FramedRequestOk(db, db', db.requests[id]);
    }
  }

  /** A new PENDING row: the table's own invariants. */
  lemma AddedKeepsTable(rows: Rows, id: Id, r: Request)
    requires id !in rows && r.status == Pending && r.session.None?
    requires UniqueSessions(rows) && OneActivePerDevice(rows) && OneOpenPerDocument(rows)
    requires forall a | a in rows && rows[a].document == r.document :: !Open(rows[a].status)
    ensures UniqueSessions(rows[id := r]) && OneActivePerDevice(rows[id := r]) && OneOpenPerDocument(rows[id := r])
  {
  }

  lemma AddedKeepsAccounts(db: Db, id: Id, r: Request)
    requires id !in db.requests && SignaturesAccounted(db) && SessionsAccounted(db)
    ensures var db' := db.(requests := db.requests[id := r]); SignaturesAccounted(db') && SessionsAccounted(db')
  {
    var rows := db.requests[id := r];
    forall gid | gid in db.signatures ensures exists k :: SignedFor(rows, k, gid) {
      var k :| SignedFor(db.requests, k, gid);
      assert SignedFor(rows, k, gid);
    }
    forall sid | sid in db.sessions && (db.sessions[sid].verifiedAt.Some? || db.sessions[sid].usedAt.Some?)
      ensures exists k :: Bound(rows, k, sid)
    {
      var k :| Bound(db.requests, k, sid);
      assert Bound(rows, k, sid);
    }
  }

  lemma CreateKeepsInv(db: Db, op: Op)
    requires Inv(db) && Enabled(db, op) && op.Create?
    ensures Inv(Apply(db, op))
  {
    var db' := Apply(db, op);
    var r := db'.requests[op.id];
    assert RequestOk(db', r);
    forall id | id in db'.requests ensures RequestOk(db', db'.requests[id]) {
      if id != op.id {
        FramedRequestOk(db, db', db.requests[id]);
      }
    }
    forall a | a in db.requests && db.requests[a].document == op.document ensures !Open(db.requests[a].status) {
      assert RequestOk(db, db.requests[a]);
    }
    AddedKeepsTable(db.requests, op.id, r);
    AddedKeepsAccounts(db, op.id, r);
  }

  /** Expiring the selected rows one at a time. */
  lemma {:induction false} ExpireKeepsInv(db: Db, ids: set<Id>, now: Time)
    requires Inv(db) && forall id | id in ids :: id in db.requests && Due(db.requests[id], now)
    ensures Inv(db.(requests := ExpireAll(db.requests, ids, now)))
    decreases ids
  {
    if ids == {} {
      assert ExpireAll(db.requests, ids, now) == db.requests;
    } else {
      var id :| id in ids;
      var rows := db.requests[id := Expire(db.requests[id], now)];
      ExpireOneKeepsInv(db, id, now);
      assert forall k | k in ids - {id} :: rows[k] == db.requests[k];
      ExpireKeepsInv(db.(requests := rows), ids - {id}, now);
      ExpireAllPeels(db.requests, ids, id, now);
    }
  }

  lemma ExpireOneKeepsInv(db: Db, id: Id, now: Time)
    requires Inv(db) && id in db.requests && Due(db.requests[id], now)
    ensures Inv(db.(requests := db.requests[id := Expire(db.requests[id], now)]))
  {
    assert RequestOk(db, db.requests[id]);
    ExpiryOk(db, db.requests[id], now);
    UpdateKeepsInv(db, id, Expire(db.requests[id], now));
  }

  lemma ExpireAllPeels(rows: Rows, ids: set<Id>, id: Id, now: Time)
    requires id in ids && id in rows
    ensures ExpireAll(rows[id := Expire(rows[id], now)], ids - {id}, now) == ExpireAll(rows, ids, now)
  {
  }

  lemma ClaimKeepsInv(db: Db, op: Op)
    requires Inv(db) && Enabled(db, op) && op.Claim?
    ensures Inv(Apply(db, op))
  {
    var rows := ExpireAll(db.requests, op.expired, op.now);
    var db1 := db.(requests := rows);
    ExpireKeepsInv(db, op.expired, op.now);
    if op.picked.Some? {
      ClaimRowKeepsInv(db, db1, op, op.picked.value);
    }
  }

  lemma ClaimRowKeepsInv(db: Db, db1: Db, op: Op, p: Id)
    requires Inv(db) && Inv(db1) && op.Claim? && Guard(db, op) && op.picked == Some(p)
    requires db1 == db.(requests := ExpireAll(db.requests, op.expired, op.now))
    ensures Inv(db1.(requests := db1.requests[p := RequestService.Claim(db1.requests[p], op.now)]))
  {
    var rows := db1.requests;
    assert rows[p] == db.requests[p] && RequestOk(db1, rows[p]);
    assert InFlight(rows, op.device) <= InFlight(db.requests, op.device);
    assert InFlight(rows, op.device) == {};
    UpdateKeepsInv(db1, p, RequestService.Claim(rows[p], op.now));
  }

  lemma ChallengeKeepsInv(db: Db, op: Op)
    requires Inv(db) && Enabled(db, op) && op.Challenge?
    ensures Inv(Apply(db, op))
  {
    var db1 := db.(sessions := db.sessions[op.sid := NewSession(op, db.documents[op.document].documentHash)]);
    forall id | id in db1.requests
      ensures RequestOk(db1, db1.requests[id]) && db1.requests[id].session != Some(op.sid)
    {
      assert RequestOk(db, db.requests[id]);
      FramedRequestOk(db, db1, db.requests[id]);
    }
    assert Inv(db1);
    if op.target.Some? {
      var rid := op.target.value;
      var r := db.requests[rid];
      if Due(r, op.attachedAt) {
        ExpiryOk(db1, r, op.attachedAt);
        UpdateKeepsInv(db1, rid, Expire(r, op.attachedAt));
      } else {
        AttachKeepsInv(db1, rid, op.sid, op.attachedAt);
      }
    }
  }

  lemma AttachKeepsInv(db: Db, rid: Id, sid: Id, now: Time)
    requires Inv(db) && rid in db.requests && sid in db.sessions
    requires var r := db.requests[rid]; r.status == Claimed && Binds(r, db.sessions[sid]) && !Due(r, now)
    requires db.sessions[sid].verifiedAt.None? && db.sessions[sid].usedAt.None?
    requires forall id | id in db.requests :: db.requests[id].session != Some(sid)
    ensures Inv(db.(requests := db.requests[rid := Attach(db.requests[rid], sid, now)]))
  {
    var r := db.requests[rid];
    var r' := Attach(r, sid, now);
    var db' := db.(requests := db.requests[rid := r']);
    assert RequestOk(db, r);
    forall id | id in db'.requests ensures RequestOk(db', db'.requests[id]) {
      if id != rid {
        FramedRequestOk(db, db', db.requests[id]);
      }
    }
    ReplacedStaysUnique(db.requests, rid, r');
    ReplacedStaysOneActive(db.requests, rid, r');
    ReplacedStaysOneOpen(db.requests, rid, r');
    ReplacedKeepsSignatures(db, rid, r');
    ReplacedKeepsSessions(db, rid, r');
  }

  /** A session row and the request bound to it change together. */
  lemma PairKeepsInv(db: Db, sid: Id, s': Session, rid: Id, r': Request, signatures: map<Id, Signature>)
    requires Inv(db) && sid in db.sessions && Replaces(db.requests, rid, r')
    requires db.requests[rid].session == Some(sid) && r'.session == Some(sid)
    requires s'.decision == APPROVE
    requires forall g | g in db.signatures :: g in signatures && signatures[g] == db.signatures[g]
    requires forall g | g in signatures && g !in db.signatures :: r'.status == Signed && r'.signature == Some(g)
    requires RequestOk(db.(sessions := db.sessions[sid := s'], signatures := signatures), r')
    ensures Inv(db.(sessions := db.sessions[sid := s'], signatures := signatures, requests := db.requests[rid := r']))
  {
    var db1 := db.(sessions := db.sessions[sid := s'], signatures := signatures);
    var db' := db1.(requests := db.requests[rid := r']);
    forall id | id in db'.requests ensures RequestOk(db', db'.requests[id]) {
      if id != rid {
        assert RequestOk(db, db.requests[id]);
        FramedRequestOk(db, db', db.requests[id]);
      } else {
        FramedRequestOk(db1, db', r');
      }
    }
    ReplacedStaysUnique(db.requests, rid, r');
    ReplacedStaysOneActive(db.requests, rid, r');
    ReplacedStaysOneOpen(db.requests, rid, r');
    assert Bound(db.requests, rid, sid);
    PairKeepsAccounts(db, sid, s', rid, r', signatures);
  }

  lemma PairKeepsAccounts(db: Db, sid: Id, s': Session, rid: Id, r': Request, signatures: map<Id, Signature>)
    requires SignaturesAccounted(db) && SessionsAccounted(db) && Replaces(db.requests, rid, r')
    requires r'.session == Some(sid) && s'.decision == APPROVE
    requires forall g | g in signatures && g !in db.signatures :: r'.status == Signed && r'.signature == Some(g)
    ensures var db' := db.(
        sessions := db.sessions[sid := s'], signatures := signatures, requests := db.requests[rid := r']);
      SignaturesAccounted(db') && SessionsAccounted(db')
  {
    var rows := db.requests[rid := r'];
    forall gid | gid in signatures ensures exists id :: SignedFor(rows, id, gid) {
      if gid in db.signatures {
        var id :| SignedFor(db.requests, id, gid);
        assert SignedFor(rows, id, gid);
      } else {
        assert SignedFor(rows, rid, gid);
      }
    }
    var sessions := db.sessions[sid := s'];
    forall k | k in sessions && (sessions[k].verifiedAt.Some? || sessions[k].usedAt.Some?)
      ensures exists id :: Bound(rows, id, k)
    {
      if k == sid {
        assert Bound(rows, rid, k);
      } else {
        var id :| Bound(db.requests, id, k);
        assert Bound(rows, id, k);
      }
    }
  }

  lemma CompleteKeepsInv(db: Db, op: Op)
    requires Inv(db) && Enabled(db, op) && op.Complete?
    ensures Inv(Apply(db, op))
  {
    var s, r := db.sessions[op.sid], db.requests[op.rid];
    assert RequestOk(db, r);
    var s' := s.(verifiedAt := Some(op.verifiedAt));
    var r' := MarkAuthenticated(r, op.markedAt);
    var db1 := db.(sessions := db.sessions[op.sid := s'], signatures := db.signatures);
    assert RequestOk(db1, r');
    PairKeepsInv(db, op.sid, s', op.rid, r', db.signatures);
  }

  lemma SignKeepsInv(db: Db, op: Op)
    requires Inv(db) && Enabled(db, op) && op.Sign?
    ensures Inv(Apply(db, op))
    ensures Apply(db, op).requests[op.rid].status == Signed
    ensures Apply(db, op).requests[op.rid].signature == Some(op.gid)
  {
    var s, r := db.sessions[op.sid], db.requests[op.rid];
    assert RequestOk(db, r);
    var g := NewSignature(s, op.sid, op.authorizedAt, op.freshAt);
    var s' := s.(usedAt := Some(op.usedAt));
    var r' := MarkSigned(r, op.sid, op.gid, g, op.markedAt);
    var db1 := db.(sessions := db.sessions[op.sid := s'], signatures := db.signatures[op.gid := g]);
    assert r'.status == Signed;
    assert SignedPair(db1, r', s');
    assert RequestOk(db1, r');
    PairKeepsInv(db, op.sid, s', op.rid, r', db.signatures[op.gid := g]);
  }

  /** Expiry or failure of one row, by whichever path. */
  lemma EndingKeepsInv(db: Db, rid: Id, detail: string, now: Time, r': Request)
    requires Inv(db) && rid in db.requests
    requires var r := db.requests[rid];
      || r' == r
      || (Due(r, now) && r' == Expire(r, now))
      || (Active(r.status) && Timely(r, now) && r' == Fail(r, detail, now))
    ensures Inv(db.(requests := db.requests[rid := r']))
  {
    var r := db.requests[rid];
    assert RequestOk(db, r);
    if r' == r {
      assert db.requests[rid := r'] == db.requests;
    } else if Due(r, now) && r' == Expire(r, now) {
      ExpireOneKeepsInv(db, rid, now);
    } else {
      FailureOk(db, r, detail, now);
      UpdateKeepsInv(db, rid, r');
    }
  }

  /** Every committed transaction keeps the invariant. */
  lemma ApplyKeepsInv(db: Db, op: Op)
    requires Inv(db) && Enabled(db, op)
    ensures Inv(Apply(db, op))
  {
    match op {
      case View(_, _) => ViewKeepsInv(db, op);
      case Create(_, _, _, _, _, _, _) => CreateKeepsInv(db, op);
      case Claim(_, _, _, _) => ClaimKeepsInv(db, op);
      case Challenge(_, _, _, _, _, _, _, _, _) => ChallengeKeepsInv(db, op);
      case Complete(_, _, _, _, _) => CompleteKeepsInv(db, op);
      case Sign(_, _, _, _, _, _, _) => SignKeepsInv(db, op);
      case Report(rid, _, detail, now) =>
        EndingKeepsInv(db, rid, detail, now, MarkFailed(db.requests[rid], detail, now));
      case FailSession(_, rid, detail, now) =>
        EndingKeepsInv(db, rid, detail, now, MarkFailedBySession(db.requests[rid], detail, now));
      case Poll(rid, _, now) => EndingKeepsInv(db, rid, "", now, AfterExpiry(db.requests[rid], now));
    }
  }

  // ---------------------------------------------------------------- runs

  /** `db'` is what the transactions leave, each finding its guards true. */
  predicate Serial(db: Db, ops: seq<Op>, db': Db)
    decreases |ops|
  {
    if ops == [] then db' == db
    else Enabled(db, ops[0]) && Serial(Apply(db, ops[0]), ops[1..], db')
  }

  lemma {:induction false} SerialExtends(db: Db, ops: seq<Op>, mid: Db, op: Op)
    requires Serial(db, ops, mid) && Enabled(mid, op)
    ensures Serial(db, ops + [op], Apply(mid, op))
    decreases |ops|
  {
    var all := ops + [op];
    if ops == [] {
      assert all[1..] == [];
    } else {
      SerialExtends(Apply(db, ops[0]), ops[1..], mid, op);
      assert all[1..] == ops[1..] + [op];
    }
  }

  lemma {:induction false} SerialKeepsInv(db: Db, ops: seq<Op>, db': Db)
    requires Inv(db) && Serial(db, ops, db')
    ensures Inv(db')
    decreases |ops|
  {
    if ops != [] {
      ApplyKeepsInv(db, ops[0]);
      SerialKeepsInv(Apply(db, ops[0]), ops[1..], db');
    }
  }

  /** No transaction removes a request; each leaves its status alone or raises its rank. */
  lemma ApplyAdvances(db: Db, op: Op, id: Id)
    requires Enabled(db, op) && id in db.requests
    ensures id in Apply(db, op).requests && Advances(db.requests[id], Apply(db, op).requests[id])
  {
  }

  /** A terminal request never changes again, in any column. */
  lemma TerminalIsFinal(db: Db, op: Op, id: Id)
    requires Guard(db, op) && id in db.requests && !Open(db.requests[id].status)
    ensures id in Apply(db, op).requests && Apply(db, op).requests[id] == db.requests[id]
  {
    match op {
      case Claim(_, now, expired, picked) => assert id !in expired && picked != Some(id);
      case Challenge(_, _, _, _, _, _, _, target, _) => assert target != Some(id);
      case _ =>
    }
  }

  /** A run: databases in commit order. */
  ghost predicate Run(dbs: seq<Db>, ops: seq<Op>) {
    && |dbs| == |ops| + 1
    && Inv(dbs[0])
    && forall i | 0 <= i < |ops| :: Enabled(dbs[i], ops[i]) && dbs[i + 1] == Apply(dbs[i], ops[i])
  }

  /** How often the status of one request changes along a sequence of databases. */
  function StatusChanges(dbs: seq<Db>, id: Id): nat
    requires forall i | 0 <= i < |dbs| :: id in dbs[i].requests
  {
    if |dbs| < 2 then 0
    else
      (if dbs[0].requests[id].status == dbs[1].requests[id].status then 0 else 1) + StatusChanges(dbs[1..], id)
  }

  lemma {:induction false} StatusChangesBounded(dbs: seq<Db>, ops: seq<Op>, id: Id)
    requires |dbs| == |ops| + 1
    requires forall i | 0 <= i < |ops| :: Enabled(dbs[i], ops[i]) && dbs[i + 1] == Apply(dbs[i], ops[i])
    requires id in dbs[0].requests
    ensures forall i | 0 <= i < |dbs| :: id in dbs[i].requests
    ensures StatusChanges(dbs, id) <= Rank(dbs[|ops|].requests[id].status) - Rank(dbs[0].requests[id].status)
    decreases |ops|
  {
    if ops != [] {
      ApplyAdvances(dbs[0], ops[0], id);
      assert dbs[0 + 1] == Apply(dbs[0], ops[0]);
      var rest, restOps := dbs[1..], ops[1..];
      forall i | 0 <= i < |restOps| ensures Enabled(rest[i], restOps[i]) && rest[i + 1] == Apply(rest[i], restOps[i]) {
        assert Enabled(dbs[i + 1], ops[i + 1]) && dbs[i + 1 + 1] == Apply(dbs[i + 1], ops[i + 1]);
      }
      StatusChangesBounded(rest, restOps, id);
      forall i | 0 <= i < |dbs| ensures id in dbs[i].requests {
        assert i > 0 ==> dbs[i] == rest[i - 1];
      }
    }
  }

  /** A request changes status at most four times, whatever happens to it. */
  lemma AtMostFourStatusChanges(dbs: seq<Db>, ops: seq<Op>, id: Id)
    requires Run(dbs, ops) && id in dbs[0].requests
    ensures forall i | 0 <= i < |dbs| :: id in dbs[i].requests
    ensures StatusChanges(dbs, id) <= 4
  {
    StatusChangesBounded(dbs, ops, id);
  }

  // ---------------------------------------------------------------- what the invariant says

  /** A SIGNED request has one signature row, which agrees with it and with its session. */
  lemma SignedRequestHasItsSignature(db: Db, id: Id)
    requires Inv(db) && id in db.requests && db.requests[id].status == Signed
    ensures var r := db.requests[id];
      && r.signature.Some? && r.signature.value in db.signatures && r.session.Some? && r.session.value in db.sessions
      && var g, s := db.signatures[r.signature.value], db.sessions[r.session.value];
      && g.session == r.session.value
      && g.device == r.device == s.device && g.user == r.user == s.user
      && g.document == r.document == s.document && g.documentHash == r.documentHash == s.documentHash
      && r.decision == s.decision == APPROVE
      && r.consentedAt.Some? && HasText(r.consentVersion)
      && s.verifiedAt.Some? && s.usedAt.Some?
  {
    assert RequestOk(db, db.requests[id]);
    ConsentHasText();
  }

  /** A signature row belongs to exactly one SIGNED request, and a session yields one signature. */
  lemma SignatureHasItsRequest(db: Db, gid: Id) returns (id: Id)
    requires Inv(db) && gid in db.signatures
    ensures SignedFor(db.requests, id, gid)
    ensures forall k | SignedFor(db.requests, k, gid) :: k == id
    ensures forall other | other in db.signatures && db.signatures[other].session == db.signatures[gid].session ::
      other == gid
  {
    id :| SignedFor(db.requests, id, gid);
    assert RequestOk(db, db.requests[id]);
    forall k | SignedFor(db.requests, k, gid) ensures k == id {
      assert RequestOk(db, db.requests[k]);
    }
    forall other | other in db.signatures && db.signatures[other].session == db.signatures[gid].session
      ensures other == gid
    {
      var k :| SignedFor(db.requests, k, other);
      assert RequestOk(db, db.requests[k]);
      assert k == id;
    }
  }

  /** How fresh a signature's authorization was: at most a minute after verification, under
      two minutes after the challenge, within fifteen minutes of the request's creation. */
  lemma SignatureWasFresh(db: Db, gid: Id, id: Id)
    requires Inv(db) && SignedFor(db.requests, id, gid) && gid in db.signatures
    ensures var g, r := db.signatures[gid], db.requests[id];
      && g.session in db.sessions
      && var s := db.sessions[g.session];
      && s.verifiedAt.Some?
      && s.verifiedAt.value <= g.authorizedAt <= g.freshAt
      && g.freshAt - s.verifiedAt.value <= 60 * SECOND
      && g.freshAt - (s.expiresAt - CHALLENGE_TTL) < 120 * SECOND
      && g.authorizedAt - (r.expiresAt - SIGNATURE_REQUEST_TTL) < 900 * SECOND
      && r.createdAt <= r.expiresAt - SIGNATURE_REQUEST_TTL
  {
    assert RequestOk(db, db.requests[id]);
  }

  /** Once it is terminal or authenticated, a request's instants are in stage order. */
  lemma StagesAreOrdered(db: Db, id: Id)
    requires Inv(db) && id in db.requests
    ensures var r := db.requests[id];
      && r.consentedAt.Some? && r.createdAt <= r.consentedAt.value
      && (r.authenticatedAt.Some? ==>
            && r.authStartedAt.Some? && r.claimedAt.Some?
            && r.claimedAt.value <= r.authenticatedAt.value && r.authStartedAt.value <= r.authenticatedAt.value)
      && (r.completedAt.Some? ==>
            && r.createdAt <= r.completedAt.value && NotAfter(r.claimedAt, r.completedAt.value)
            && NotAfter(r.authStartedAt, r.completedAt.value) && NotAfter(r.authenticatedAt, r.completedAt.value))
  {
    assert RequestOk(db, db.requests[id]);
  }

  /** In every reachable database: one request in hand per device, one unfinished per document, one
      request per session. */
  lemma OneOfEach(db: Db, a: Id, b: Id)
    requires Inv(db) && a in db.requests && b in db.requests && a != b
    ensures var r, s := db.requests[a], db.requests[b];
      && !(r.device == s.device && r.status in {Claimed, Authenticating, Authenticated}
           && s.status in {Claimed, Authenticating, Authenticated})
      && !(r.document == s.document && r.status in {Pending, Claimed, Authenticating, Authenticated}
           && s.status in {Pending, Claimed, Authenticating, Authenticated})
      && !(r.session.Some? && r.session == s.session)
  {
  }

  /** In every reachable database: which columns a request has in which status. */
  lemma ColumnsByStatus(db: Db, id: Id)
    requires Inv(db) && id in db.requests
    ensures var r := db.requests[id];
      && r.decision == "APPROVE" && r.consentedAt.Some? && r.consentVersion == Some("remotesign-lab-consent-v1")
      && (r.status == Pending ==> r.claimedAt.None? && r.session.None?
                                  && r.authenticatedAt.None? && r.completedAt.None?)
      && (r.status == Claimed ==> r.claimedAt.Some? && r.session.None?
                                  && r.authenticatedAt.None? && r.completedAt.None?)
      && (r.status == Authenticating ==> r.claimedAt.Some? && r.session.Some? && r.authStartedAt.Some?
                                         && r.authenticatedAt.None? && r.completedAt.None?)
      && (r.status == Authenticated ==> r.session.Some? && r.authenticatedAt.Some? && r.completedAt.None?)
      && (r.status == Signed ==> r.session.Some? && r.authenticatedAt.Some? && r.signature.Some? && r.completedAt.Some?)
      && (r.status != Signed ==> r.signature.None?)
      && (r.status == Failed ==> r.claimedAt.Some? && r.failureDetail.Some? && r.completedAt.Some?)
      && (r.status == Expired ==> r.session.None? && r.failureDetail.Some? && r.completedAt.Some?)
  {
    assert RequestOk(db, db.requests[id]);
  }

  /** In every reachable database: a request belongs to the user of the web session that created it,
      who had viewed the document there and owns it, as stored. */
  lemma RequestsAreTheOwners(db: Db, id: Id)
    requires Inv(db) && id in db.requests
    ensures var r := db.requests[id];
      && r.owner in db.webUsers && db.webUsers[r.owner] == r.user && (r.owner, r.document) in db.viewed
      && r.document in db.documents && db.documents[r.document] == Document(Some(r.user), r.documentHash)
  {
    assert RequestOk(db, db.requests[id]);
  }

  /** In every reachable database: a request behind a session is for the session's device, document
      and hash; a verified session belongs to the request's user, a used one to a SIGNED request. */
  lemma RequestAndSessionAgree(db: Db, id: Id)
    requires Inv(db) && id in db.requests && db.requests[id].session.Some?
    ensures var r := db.requests[id];
      && r.session.value in db.sessions
      && var s := db.sessions[r.session.value];
      && s.device == r.device && s.document == r.document && s.documentHash == r.documentHash
      && s.decision == r.decision
      && (s.verifiedAt.Some? <==> r.authenticatedAt.Some?) && (s.usedAt.Some? <==> r.status == Signed)
      && (s.verifiedAt.Some? ==> s.user == r.user && s.verifiedAt.value < s.expiresAt)
  {
    assert RequestOk(db, db.requests[id]);
  }

  // ---------------------------------------------------------------- what sessions record

  /** Transaction `i` of the run opened the session, and the session still says so. */
  predicate OpenedBy(dbs: seq<Db>, ops: seq<Op>, n: nat, sid: Id, i: nat)
    requires n < |dbs| && sid in dbs[n].sessions
  {
    && i < n && i < |ops| && ops[i].Challenge? && ops[i].sid == sid
    && var s := dbs[n].sessions[sid];
    && s.device == ops[i].device && s.user == ops[i].user && s.rfid == ops[i].rfid
    && s.document == ops[i].document && s.challenge == ops[i].challenge
    && s.decision == "APPROVE" && s.expiresAt == ops[i].now + 60_000_000
  }

  /** What one transaction does to a session: open it, verify it, use it, or nothing. */
  lemma SessionSteps(db: Db, op: Op, sid: Id)
    requires Guard(db, op) && sid in Apply(db, op).sessions
    ensures var s' := Apply(db, op).sessions[sid];
      if sid !in db.sessions then
        && op.Challenge? && op.sid == sid && op.document in db.documents
        && s' == Session(op.device, op.user, op.rfid, op.document, db.documents[op.document].documentHash, "APPROVE",
                         op.challenge, op.now + 60_000_000, None, None)
      else if op.Complete? && op.sid == sid then s' == db.sessions[sid].(verifiedAt := Some(op.verifiedAt))
      else if op.Sign? && op.sid == sid then s' == db.sessions[sid].(usedAt := Some(op.usedAt))
      else s' == db.sessions[sid]
  {
  }

  /** Every session was opened by one challenge of the run, and lasts a minute from its reading. */
  lemma {:induction false} SessionsLastAMinute(dbs: seq<Db>, ops: seq<Op>, n: nat, sid: Id) returns (i: nat)
    requires Run(dbs, ops) && Empty(dbs[0]) && n < |dbs| && sid in dbs[n].sessions
    ensures OpenedBy(dbs, ops, n, sid, i)
  {
    assert n > 0;
    var m := n - 1;
    assert Enabled(dbs[m], ops[m]) && dbs[m + 1] == Apply(dbs[m], ops[m]);
    SessionSteps(dbs[m], ops[m], sid);
    if sid in dbs[m].sessions {
      i := SessionsLastAMinute(dbs, ops, m, sid);
    } else {
      i := m;
    }
  }

  lemma {:induction false} RunKeepsInv(dbs: seq<Db>, ops: seq<Op>, n: nat)
    requires Run(dbs, ops) && n < |dbs|
    ensures Inv(dbs[n])
  {
    if n > 0 {
      RunKeepsInv(dbs, ops, n - 1);
      assert Enabled(dbs[n - 1], ops[n - 1]) && dbs[n - 1 + 1] == Apply(dbs[n - 1], ops[n - 1]);
      ApplyKeepsInv(dbs[n - 1], ops[n - 1]);
    }
  }

  /** How old a signature's proofs can be, in clock readings: its session was verified under 60
      seconds after the challenge was issued, and its freshness was checked at most 60 seconds
      after that. */
  lemma SignaturesFollowTheirChallenge(dbs: seq<Db>, ops: seq<Op>, n: nat, gid: Id) returns (i: nat)
    requires Run(dbs, ops) && Empty(dbs[0]) && n < |dbs| && gid in dbs[n].signatures
    ensures var g := dbs[n].signatures[gid];
      && g.session in dbs[n].sessions && OpenedBy(dbs, ops, n, g.session, i)
      && var s := dbs[n].sessions[g.session];
      && s.verifiedAt.Some? && s.verifiedAt.value < ops[i].now + 60_000_000
      && s.verifiedAt.value <= g.authorizedAt <= g.freshAt <= s.verifiedAt.value + 60_000_000
      && g.device == ops[i].device && g.user == ops[i].user && g.document == ops[i].document
  {
    RunKeepsInv(dbs, ops, n);
    var id := SignatureHasItsRequest(dbs[n], gid);
    assert RequestOk(dbs[n], dbs[n].requests[id]);
    i := SessionsLastAMinute(dbs, ops, n, dbs[n].signatures[gid].session);
  }
}
