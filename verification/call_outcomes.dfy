/** What the endpoints' answers mean: what an accepted call proves, what each single fault is
    answered with, and that a device without fault succeeds. */
module CallOutcomes {
  import opened Records
  import opened Texts
  import opened RequestService
  import opened Protocol
  import opened Calls

  // ---------------------------------------------------------------- strong authentication

  /** What an accepted completion proves, across the tables: a genuine device answered its own
      unexpired challenge with a card and a finger enrolled together, on that device, for the very
      user who consented to the request; and the document is that user's, stored unchanged. */
  lemma AuthenticationMeans(db: Db, dir: Directory, c: CompleteCall) returns (rid: Id)
    requires Inv(db) && CompleteConditions(db, dir, c)
    ensures c.caller.known && c.caller.active && c.caller.fingerprintEnabled && c.caller.hasSecret
    ensures c.caller.hmacValid && !c.caller.limited && c.nonceFresh
    ensures c.sid.Some? && c.sid.value in db.sessions && rid in db.requests && c.fingerprint.Some?
    ensures var s, r := db.sessions[c.sid.value], db.requests[rid];
      && s.device == c.caller.id && s.challenge == c.challenge && s.rfid == c.rfid
      && c.now < s.expiresAt && s.verifiedAt.None?
      && r.session == c.sid && r.status == Authenticating && c.checkedAt < r.expiresAt
      && r.device == c.caller.id && r.user == s.user && r.consentedAt.Some?
      && c.document == Some(r.document) && c.documentHash == r.documentHash && r.decision == c.decision == "APPROVE"
      && r.document in db.documents && db.documents[r.document] == Document(Some(r.user), c.documentHash)
      && Credential(r.user, c.caller.id, c.rfid, c.fingerprint.value) in dir.credentials
      && c.fingerprint.value > 0 && r.user in dir.users && dir.users[r.user]
  {
    rid :| rid in RowsOfSession(db.requests, c.sid.value)
      && Authorized(db.requests[rid], db.sessions[c.sid.value], Authenticating, c.checkedAt);
    assert RequestOk(db, db.requests[rid]);
  }

  /** One thing wrong with the caller: the status says what, and the request lives on. */
  lemma CompletionCallerFaults(db: Db, dir: Directory, c: CompleteCall)
    requires CompleteConditions(db, dir, c)
    ensures CompleteRefused(db, dir, c.(caller := c.caller.(known := false)), 401, false)
    ensures CompleteRefused(db, dir, c.(caller := c.caller.(limited := true)), 429, false)
    ensures CompleteRefused(db, dir, c.(caller := c.caller.(active := false)), 403, false)
    ensures CompleteRefused(db, dir, c.(caller := c.caller.(fingerprintEnabled := false)), 403, false)
    ensures CompleteRefused(db, dir, c.(caller := c.caller.(hasSecret := false)), 401, false)
    ensures CompleteRefused(db, dir, c.(caller := c.caller.(hmacValid := false)), 401, false)
    ensures CompleteRefused(db, dir, c.(nonceFresh := false), 401, false)
  {
  }

  /** One thing wrong with the call: a field malformed, or not what the session was opened for. */
  lemma CompletionCallFaults(
    db: Db, dir: Directory, c: CompleteCall, answer: string, card: string, document: Id, hash: string, sid: Id)
    requires CompleteConditions(db, dir, c)
    ensures CompleteRefused(db, dir, c.(sid := None), 400, false)
    ensures CompleteRefused(db, dir, c.(document := None), 400, false)
    ensures CompleteRefused(db, dir, c.(fingerprint := Some(0)), 400, false)
    ensures CompleteRefused(db, dir, c.(decision := "REJECT"), 400, false)
    ensures hash != c.documentHash ==>
      CompleteRefused(db, dir, c.(documentHash := hash), if |hash| == 64 && AllHex(hash) then 403 else 400, false)
    ensures answer != c.challenge ==> CompleteRefused(db, dir, c.(challenge := answer), 401, false)
    ensures card != c.rfid ==> CompleteRefused(db, dir, c.(rfid := card), 403, false)
    ensures Some(document) != c.document ==> CompleteRefused(db, dir, c.(document := Some(document)), 403, false)
    ensures sid !in db.sessions ==> CompleteRefused(db, dir, c.(sid := Some(sid)), 404, false)
  {
  }

  /** One thing wrong with the session: another device's, expired, or verified already. */
  lemma CompletionSessionFaults(db: Db, dir: Directory, c: CompleteCall, s: Session)
    requires CompleteConditions(db, dir, c) && s == db.sessions[c.sid.value]
    ensures forall device | device != s.device ::
      CompleteRefused(db.(sessions := db.sessions[c.sid.value := s.(device := device)]), dir, c, 403, false)
    ensures forall t | t <= c.now ::
      CompleteRefused(db.(sessions := db.sessions[c.sid.value := s.(expiresAt := t)]), dir, c, 401, true)
    ensures forall t ::
      CompleteRefused(db.(sessions := db.sessions[c.sid.value := s.(verifiedAt := Some(t))]), dir, c, 409, false)
  {
  }

  /** The request is another user's, names another device, document, hash or decision, or lacks
      consent. */
  predicate Unfit(r: Request, s: Session) {
    || r.user != s.user || r.device != s.device || r.document != s.document
    || r.documentHash != s.documentHash || r.decision != s.decision
    || r.consentedAt.None? || r.consentVersion.None? || r.consentVersion == Some("") || r.consentVersion == Some(" ")
  }

  /** One thing wrong with who answers or what for: card and finger not enrolled together for the
      session's user, that user gone or inactive, the document gone or changed, no request of
      that user waiting with consent. Each ends the request. */
  lemma CompletionEntitlementFaults(db: Db, dir: Directory, c: CompleteCall, s: Session, rows: Rows, hash: string)
    requires CompleteConditions(db, dir, c) && s == db.sessions[c.sid.value]
    ensures var k := Credential(s.user, c.caller.id, c.rfid, c.fingerprint.value);
      CompleteRefused(db, dir.(credentials := dir.credentials - {k}), c, 403, true)
    ensures CompleteRefused(db, dir.(users := dir.users - {s.user}), c, 403, true)
    ensures CompleteRefused(db, dir.(users := dir.users[s.user := false]), c, 403, true)
    ensures CompleteRefused(db.(documents := db.documents - {s.document}), dir, c, 404, true)
    ensures hash != c.documentHash ==>
      CompleteRefused(db.(documents := db.documents[s.document := Document(Some(s.user), hash)]), dir, c, 403, true)
    ensures (forall id | id in rows && rows[id].session == c.sid ::
               rows[id].expiresAt <= c.checkedAt || rows[id].status != Authenticating || Unfit(rows[id], s)) ==>
      CompleteRefused(db.(requests := rows), dir, c, 403, true)
  {
  }

  /** The device's finger decides: an otherwise right answer whose card and finger are not
      enrolled together is refused with 403, and ends the request. */
  lemma WrongFingerEndsTheRequest(db: Db, dir: Directory, c: CompleteCall, k: Credential)
    requires CompleteConditions(db, dir.(credentials := dir.credentials + {k}), c)
    requires k == Credential(db.sessions[c.sid.value].user, c.caller.id, c.rfid, c.fingerprint.value)
    requires k !in dir.credentials
    ensures CompleteRefused(db, dir, c, 403, true)
  {
  }

  /** However much else is wrong, a completion ends a request only when a genuine device uses its
      own session, and either the challenge has expired or the call names everything the session
      was opened with. */
  lemma OnlyRightAnswersEndRequests(db: Db, dir: Directory, c: CompleteCall)
    requires CompleteEnds(db, dir, c)
    ensures c.caller.known && c.caller.active && c.caller.hmacValid && !c.caller.limited
    ensures c.sid.Some? && c.sid.value in db.sessions
    ensures var s := db.sessions[c.sid.value];
      && s.device == c.caller.id
      && (s.expiresAt <= c.now
          || (s.verifiedAt.None? && s.challenge == c.challenge && s.rfid == c.rfid
              && c.document == Some(s.document) && s.documentHash == c.documentHash))
  {
  }

  // ---------------------------------------------------------------- signing

  /** What an accepted signing call proves, across the tables: a genuine device uses its own
      session, verified at most 60 seconds ago, for the request of that session's user, and the
      file on disk is the document that user owns and consented to, bit for bit. */
  lemma SigningMeans(db: Db, dir: Directory, c: SignCall) returns (rid: Id)
    requires Inv(db) && SignConditions(db, dir, c)
    ensures c.caller.known && c.caller.active && c.caller.hasSecret && c.caller.hmacValid && !c.caller.limited
    ensures c.nonceFresh && c.outcome == Produced
    ensures c.sid.Some? && c.sid.value in db.sessions && rid in db.requests
    ensures var s, r := db.sessions[c.sid.value], db.requests[rid];
      && s.device == c.caller.id && s.verifiedAt.Some? && s.usedAt.None?
      && c.freshAt <= s.verifiedAt.value + 60_000_000
      && (forall g | g in db.signatures :: db.signatures[g].session != c.sid.value)
      && r.session == c.sid && r.status == Authenticated && c.authorizedAt < r.expiresAt
      && r.device == c.caller.id && r.user == s.user && r.user in dir.users && r.consentedAt.Some?
      && c.document == Some(r.document) && c.documentHash == r.documentHash && r.decision == c.decision == "APPROVE"
      && r.document in db.documents && db.documents[r.document] == Document(Some(r.user), c.documentHash)
      && c.stored == Digest(c.documentHash)
  {
    rid :| rid in RowsOfSession(db.requests, c.sid.value)
      && Authorized(db.requests[rid], db.sessions[c.sid.value], Authenticated, c.authorizedAt);
    assert RequestOk(db, db.requests[rid]);
  }

  lemma SigningCallerFaults(db: Db, dir: Directory, c: SignCall)
    requires SignConditions(db, dir, c)
    ensures SignRefused(db, dir, c.(caller := c.caller.(known := false)), 401, false)
    ensures SignRefused(db, dir, c.(caller := c.caller.(limited := true)), 429, false)
    ensures SignRefused(db, dir, c.(caller := c.caller.(active := false)), 403, false)
    ensures SignRefused(db, dir, c.(caller := c.caller.(hasSecret := false)), 401, false)
    ensures SignRefused(db, dir, c.(caller := c.caller.(hmacValid := false)), 401, false)
    ensures SignRefused(db, dir, c.(nonceFresh := false), 401, false)
  {
  }

  lemma SigningCallFaults(db: Db, dir: Directory, c: SignCall, document: Id, hash: string, sid: Id)
    requires SignConditions(db, dir, c)
    ensures SignRefused(db, dir, c.(sid := None), 400, false)
    ensures SignRefused(db, dir, c.(document := None), 400, false)
    ensures SignRefused(db, dir, c.(decision := "REJECT"), 403, false)
    ensures !(|hash| == 64 && AllHex(hash)) ==> SignRefused(db, dir, c.(documentHash := hash), 400, false)
    ensures |hash| == 64 && AllHex(hash) && hash != c.documentHash ==>
      SignRefused(db, dir, c.(documentHash := hash), 403, false)
    ensures Some(document) != c.document ==> SignRefused(db, dir, c.(document := Some(document)), 403, false)
    ensures sid !in db.sessions ==> SignRefused(db, dir, c.(sid := Some(sid)), 404, false)
  {
  }

  predicate SessionRefused(db: Db, dir: Directory, c: SignCall, s: Session, code: nat, terminal: bool)
    requires c.sid.Some?
  {
    SignRefused(db.(sessions := db.sessions[c.sid.value := s]), dir, c, code, terminal)
  }

  /** A session of another device, verified too long ago, or behind no waiting request. */
  lemma SigningSessionFaults(db: Db, dir: Directory, c: SignCall, s: Session, rows: Rows)
    requires SignConditions(db, dir, c) && s == db.sessions[c.sid.value]
    ensures forall device | device != s.device ::
      SessionRefused(db, dir, c, s.(device := device), 403, false)
    ensures forall t | t + 60_000_000 < c.freshAt ::
      SessionRefused(db, dir, c, s.(verifiedAt := Some(t)), 401, true)
    ensures (forall id | id in rows && rows[id].session == c.sid ::
               rows[id].expiresAt <= c.authorizedAt || rows[id].status != Authenticated || Unfit(rows[id], s)) ==>
      SignRefused(db.(requests := rows), dir, c, 403, true)
  {
  }

  /** The document or its file gone, unreadable or changed: each ends the request. */
  lemma SigningDocumentFaults(db: Db, dir: Directory, c: SignCall, s: Session, hash: string)
    requires SignConditions(db, dir, c) && s == db.sessions[c.sid.value]
    ensures SignRefused(db.(documents := db.documents - {s.document}), dir, c, 404, true)
    ensures hash != c.documentHash ==>
      SignRefused(db.(documents := db.documents[s.document := Document(Some(s.user), hash)]), dir, c, 409, true)
    ensures SignRefused(db, dir.(users := dir.users - {s.user}), c, 403, true)
    ensures SignRefused(db, dir, c.(stored := OutsideStorage), 500, true)
    ensures SignRefused(db, dir, c.(stored := NotAFile), 500, true)
    ensures SignRefused(db, dir, c.(stored := Unreadable), 500, true)
    ensures hash != c.documentHash ==> SignRefused(db, dir, c.(stored := Digest(hash)), 409, true)
  {
  }

  /** A service that fails leaves the request as it is, to be tried again. */
  lemma SigningServiceFaults(db: Db, dir: Directory, c: SignCall)
    requires SignConditions(db, dir, c)
    ensures SignRefused(db, dir, c.(outcome := HsmFailed), 503, false)
    ensures SignRefused(db, dir, c.(outcome := StorageFailed), 503, false)
    ensures SignRefused(db, dir, c.(outcome := PadesFailed), 503, false)
    ensures SignRefused(db, dir, c.(outcome := NotPublished), 503, false)
    ensures SignRefused(db, dir, c.(outcome := BadTarget), 500, false)
  {
  }

  /** However much else is wrong, a signing call ends a request only when a genuine device uses its
      own session, and either no request of the session's user is authorized behind it, or the call
      names the document and hash of a session that is verified and unused. */
  lemma OnlyOwnSessionsEndRequests(db: Db, dir: Directory, c: SignCall)
    requires SignEnds(db, dir, c)
    ensures c.caller.known && c.caller.active && c.caller.hmacValid && !c.caller.limited && c.decision == "APPROVE"
    ensures c.sid.Some? && c.sid.value in db.sessions
    ensures var s := db.sessions[c.sid.value];
      && s.device == c.caller.id
      && ((forall id | id in db.requests && db.requests[id].session == c.sid ::
             !Authorized(db.requests[id], s, Authenticated, c.authorizedAt))
          || (s.verifiedAt.Some? && s.usedAt.None? && c.document == Some(s.document)
              && s.documentHash == c.documentHash))
  {
    var s := db.sessions[c.sid.value];
    forall id | id in db.requests && db.requests[id].session == c.sid
             && Authorized(db.requests[id], s, Authenticated, c.authorizedAt)
      ensures SessionAuthorized(db, c.sid.value, s, Authenticated, c.authorizedAt)
    {
      assert id in RowsOfSession(db.requests, c.sid.value);
    }
  }

  /** A file replaced on disk is not signed: a call right in everything else is refused with 409,
      and ends the request. */
  lemma ReplacedFileEndsTheRequest(db: Db, dir: Directory, c: SignCall)
    requires SignConditions(db, dir, c.(stored := Digest(c.documentHash)))
    requires c.stored.Digest? && c.stored.hash != c.documentHash
    ensures SignRefused(db, dir, c, 409, true)
  {
    assert c == c.(stored := Digest(c.documentHash)).(stored := c.stored);
    SigningDocumentFaults(db, dir, c.(stored := Digest(c.documentHash)), db.sessions[c.sid.value], c.stored.hash);
  }

  // ---------------------------------------------------------------- challenges

  /** What an issued challenge rests on. */
  lemma ChallengeMeans(db: Db, dir: Directory, c: ChallengeCall) returns (k: Credential)
    requires ChallengeConditions(db, dir, c)
    ensures c.caller.known && c.caller.active && c.caller.rfidEnabled && c.caller.hasSecret
    ensures c.caller.hmacValid && !c.caller.limited && c.nonceFresh && c.decision == "APPROVE"
    ensures c.document.Some? && c.document.value in db.documents
    ensures db.documents[c.document.value].documentHash == c.documentHash
    ensures k in dir.credentials && k.device == c.caller.id && k.rfid == c.rfid
    ensures k.user in dir.users && dir.users[k.user]
  {
    k :| k in Cards(dir, c.caller.id, c.rfid);
  }

  lemma ChallengeFaults(db: Db, dir: Directory, c: ChallengeCall, user: Id, hash: string)
    requires ChallengeConditions(db, dir, c) && user in dir.users
    requires exists k :: k in Cards(dir, c.caller.id, c.rfid) && k.user == user
    ensures ChallengeRefused(db, dir, c.(caller := c.caller.(known := false)), 401)
    ensures ChallengeRefused(db, dir, c.(caller := c.caller.(limited := true)), 429)
    ensures ChallengeRefused(db, dir, c.(caller := c.caller.(active := false)), 403)
    ensures ChallengeRefused(db, dir, c.(caller := c.caller.(rfidEnabled := false)), 403)
    ensures ChallengeRefused(db, dir, c.(caller := c.caller.(hasSecret := false)), 401)
    ensures ChallengeRefused(db, dir, c.(caller := c.caller.(hmacValid := false)), 401)
    ensures ChallengeRefused(db, dir, c.(nonceFresh := false), 401)
    ensures ChallengeRefused(db, dir, c.(document := None), 400)
    ensures ChallengeRefused(db, dir, c.(decision := "REJECT"), 400)
    ensures hash != c.documentHash ==>
      ChallengeRefused(db, dir, c.(documentHash := hash), if |hash| == 64 && AllHex(hash) then 403 else 400)
    ensures ChallengeRefused(db.(documents := db.documents - {c.document.value}), dir, c, 404)
    ensures ChallengeRefused(db, dir.(users := dir.users[user := false]), c, 403)
    ensures ChallengeRefused(db, dir.(users := dir.users - {user}), c, 403)
    ensures ChallengeRefused(db, dir.(credentials := dir.credentials - Cards(dir, c.caller.id, c.rfid)), c, 403)
  {
    var k :| k in Cards(dir, c.caller.id, c.rfid) && k.user == user;
    var gone := dir.(users := dir.users - {user});
    var disabled := dir.(users := dir.users[user := false]);
    assert k in Cards(gone, c.caller.id, c.rfid) && !ActiveUser(gone, k.user);
    assert k in Cards(disabled, c.caller.id, c.rfid) && !ActiveUser(disabled, k.user);
    var cardless := dir.(credentials := dir.credentials - Cards(dir, c.caller.id, c.rfid));
    assert Cards(cardless, c.caller.id, c.rfid) == {};
  }

  /** One fault of a caller of the queue endpoints, and the one status it is answered with; a genuine
      caller is refused only for its nonce. */
  lemma QueueFaults(caller: Caller, code: nat)
    requires caller.known && !caller.limited && caller.active && caller.hasSecret && caller.hmacValid
    ensures QueueReason(caller, code) <==> code == 401
    ensures QueueReason(caller.(known := false), code) <==> code == 401
    ensures QueueReason(caller.(limited := true), code) <==> code == 429
    ensures QueueReason(caller.(active := false), code) <==> code == 403
    ensures QueueReason(caller.(hasSecret := false), code) <==> code == 401
    ensures QueueReason(caller.(hmacValid := false), code) <==> code == 401
  {
  }

  // ---------------------------------------------------------------- an honest device succeeds

  /** The three calls of one authentication, made by a genuine device for request `rid` with the
      card and finger of its user. */
  predicate Honest(db: Db, dir: Directory, rid: Id, k: Credential, a: ChallengeCall, b: CompleteCall, s: SignCall)
    requires rid in db.requests
  {
    var r := db.requests[rid];
    && Genuine(a.caller) && a.caller.rfidEnabled && a.caller.fingerprintEnabled
    && b.caller == a.caller && s.caller == a.caller && a.caller.id == r.device
    && a.nonceFresh && b.nonceFresh && s.nonceFresh
    && k in dir.credentials && k.user == r.user && k.device == r.device && k.fingerprint > 0
    && k.user in dir.users && dir.users[k.user]
    && a.rfid == b.rfid == k.rfid && b.fingerprint == Some(k.fingerprint) && b.challenge == a.challenge
    && a.document == b.document == s.document == Some(r.document)
    && a.documentHash == b.documentHash == s.documentHash == r.documentHash
    && a.decision == b.decision == s.decision == "APPROVE"
    && b.sid == s.sid == Some(a.sid)
    && s.stored == Digest(r.documentHash) && s.outcome == Produced
  }

  /** The calls are in time: an answer within 60 seconds of the challenge, the signature within 60
      seconds of that, all before the request's deadline. */
  predicate InTime(db: Db, rid: Id, a: ChallengeCall, b: CompleteCall, s: SignCall)
    requires rid in db.requests
  {
    var r := db.requests[rid];
    && a.now <= a.attachedAt < r.expiresAt
    && a.attachedAt <= b.checkedAt && b.now < a.now + 60_000_000
    && b.now <= b.checkedAt <= b.markedAt && b.checkedAt < r.expiresAt
    && b.markedAt <= s.authorizedAt <= s.freshAt <= s.markedAt <= s.usedAt
    && s.authorizedAt < r.expiresAt && s.freshAt <= b.now + 60_000_000
    && Timely(r, b.checkedAt)
  }

  /** The request while its device authenticates, and the session opened for it. */
  predicate Opened(db: Db, db1: Db, rid: Id, user: Id, a: ChallengeCall)
    requires rid in db.requests && a.document.Some?
  {
    db1 == db.(
      sessions := db.sessions[a.sid := OpenedSession(a, user)],
      requests := db.requests[rid := db.requests[rid].(session := Some(a.sid), status := Authenticating,
                                       authStartedAt := Some(a.attachedAt), updatedAt := a.attachedAt)])
  }

  lemma HonestChallenge(
    db: Db, dir: Directory, rid: Id, k: Credential, a: ChallengeCall, b: CompleteCall, s: SignCall)
    requires Inv(db) && UniqueCards(dir) && rid in db.requests && db.requests[rid].status == Claimed
    requires Honest(db, dir, rid, k, a, b, s) && InTime(db, rid, a, b, s)
    requires IsSha256Text(db.requests[rid].documentHash) && a.sid !in db.sessions
    ensures ChallengeConditions(db, dir, a) && Enabled(db, ChallengeOp(a, k.user, Some(rid)))
    ensures Opened(db, Apply(db, ChallengeOp(a, k.user, Some(rid))), rid, k.user, a)
  {
    assert RequestOk(db, db.requests[rid]);
    assert k in Cards(dir, a.caller.id, a.rfid);
    ChallengeCommits(db, a, k.user, Some(rid));
  }

  lemma HonestCompletion(
    db: Db, db1: Db, dir: Directory, rid: Id, k: Credential, a: ChallengeCall, b: CompleteCall, s: SignCall)
    requires Inv(db) && rid in db.requests && db.requests[rid].status == Claimed
    requires Honest(db, dir, rid, k, a, b, s) && InTime(db, rid, a, b, s)
    requires IsSha256Text(db.requests[rid].documentHash) && Opened(db, db1, rid, k.user, a)
    ensures CompleteConditions(db1, dir, b) && Enabled(db1, CompleteOp(b, rid))
    ensures Apply(db1, CompleteOp(b, rid)) == db1.(
      sessions := db1.sessions[a.sid := db1.sessions[a.sid].(verifiedAt := Some(b.now))],
      requests := db1.requests[rid := db1.requests[rid].(status := Authenticated,
                                        authenticatedAt := Some(b.markedAt), updatedAt := b.markedAt)])
  {
    assert RequestOk(db, db.requests[rid]);
    assert rid in RowsOfSession(db1.requests, a.sid);
    assert Authorized(db1.requests[rid], db1.sessions[a.sid], Authenticating, b.checkedAt) by {
      ConsentHasText();
    }
  }

  lemma HonestSigning(
    db: Db, db1: Db, db2: Db, dir: Directory, rid: Id, k: Credential, a: ChallengeCall, b: CompleteCall, s: SignCall)
    requires Inv(db) && rid in db.requests && db.requests[rid].status == Claimed
    requires Honest(db, dir, rid, k, a, b, s) && InTime(db, rid, a, b, s)
    requires IsSha256Text(db.requests[rid].documentHash) && Opened(db, db1, rid, k.user, a)
    requires a.sid !in db.sessions && s.gid !in db.signatures
    requires db2 == db1.(
      sessions := db1.sessions[a.sid := db1.sessions[a.sid].(verifiedAt := Some(b.now))],
      requests := db1.requests[rid := db1.requests[rid].(status := Authenticated,
                                        authenticatedAt := Some(b.markedAt), updatedAt := b.markedAt)])
    ensures SignConditions(db2, dir, s) && Enabled(db2, SignOp(s, rid))
    ensures Apply(db2, SignOp(s, rid)).requests[rid].status == Signed
  {
    assert RequestOk(db, db.requests[rid]);
    assert rid in RowsOfSession(db2.requests, a.sid);
    assert Authorized(db2.requests[rid], db2.sessions[a.sid], Authenticated, s.authorizedAt) by {
      ConsentHasText();
    }
    forall g | g in db.signatures ensures db.signatures[g].session != a.sid {
      var id := SignatureHasItsRequest(db, g);
      assert RequestOk(db, db.requests[id]);
    }
    assert Ready(db2, a.sid, db2.sessions[a.sid]);
    SigningLeaves(db2, s, rid);
  }

  /** A device that does everything right and in time gets its request signed, from any reachable
      database in which it has claimed the request: each of its calls is accepted. */
  lemma AnHonestDeviceSigns(
    db: Db, dir: Directory, rid: Id, k: Credential, a: ChallengeCall, b: CompleteCall, s: SignCall)
    requires Inv(db) && UniqueCards(dir) && rid in db.requests && db.requests[rid].status == Claimed
    requires Honest(db, dir, rid, k, a, b, s) && InTime(db, rid, a, b, s)
    requires IsSha256Text(db.requests[rid].documentHash) && a.sid !in db.sessions && s.gid !in db.signatures
    ensures ChallengeConditions(db, dir, a) && Enabled(db, ChallengeOp(a, k.user, Some(rid)))
    ensures var db1 := Apply(db, ChallengeOp(a, k.user, Some(rid)));
      && CompleteConditions(db1, dir, b) && Enabled(db1, CompleteOp(b, rid))
      && var db2 := Apply(db1, CompleteOp(b, rid));
      && SignConditions(db2, dir, s) && Enabled(db2, SignOp(s, rid))
      && Apply(db2, SignOp(s, rid)).requests[rid].status == Signed
  {
    HonestChallenge(db, dir, rid, k, a, b, s);
    var db1 := Apply(db, ChallengeOp(a, k.user, Some(rid)));
    HonestCompletion(db, db1, dir, rid, k, a, b, s);
    HonestSigning(db, db1, Apply(db1, CompleteOp(b, rid)), dir, rid, k, a, b, s);
  }
}
