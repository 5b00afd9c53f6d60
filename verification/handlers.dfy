/** The HTTP handlers: the checks in their order, the answer, and the transaction each commits. */
module Handlers {
  import opened Records
  import opened Texts
  import opened RequestService
  import opened Protocol
  import opened Calls

  // ---------------------------------------------------------------- the server

  class Server {
    const table: RequestTable
    var sessions: map<Id, Session>
    var signatures: map<Id, Signature>
    const documents: map<Id, Document>
    const webUsers: map<Id, Id>
    var viewed: set<(Id, Id)>

    constructor (documents: map<Id, Document>, webUsers: map<Id, Id>)
      ensures Valid() && Db() == Protocol.Db(map[], map[], map[], documents, webUsers, {})
    {
      this.documents, this.webUsers := documents, webUsers;
      sessions, signatures, viewed := map[], map[], {};
      table := new RequestTable();
    }

    ghost function Db(): Db
      reads this, table, table.records.Values
    {
      Protocol.Db(table.Contents(), sessions, signatures, documents, webUsers, viewed)
    }

    ghost predicate Valid()
      reads this, table, table.records.Values
    {
      table.Valid()
    }

    /** What follows a terminal refusal, once its transaction has rolled back and after whatever
        else has committed: the request bound to the session fails. */
    method FailTerminally(sid: Id, detail: string, now: Time)
      requires Valid() && Stamped(Db().requests, now)
      modifies table.records.Values
      ensures Valid()
      ensures if RowsOfSession(old(Db()).requests, sid) == {} then Db() == old(Db())
        else exists rid :: Commits(old(Db()), FailSession(sid, rid, detail, now), Db())
    {
      ghost var db := Db();
      var found := table.MarkSignatureRequestFailedBySession(sid, detail, now);
      if found.Some? {
        assert found.value in RowsOfSession(db.requests, sid);
        assert Commits(db, FailSession(sid, found.value, detail, now), Db());
      }
    }

    /** Answer and, for an accepted call, commit. On a terminal refusal the handler goes on to
        `FailTerminally`. */
    method CompleteAuthentication(dir: Directory, c: CompleteCall) returns (reply: Reply, terminal: bool)
      requires Valid() && Stamped(Db().requests, c.checkedAt) && c.now <= c.checkedAt <= c.markedAt
      modifies this, table.records.Values
      ensures Valid()
      ensures reply == Accepted <==> CompleteConditions(old(Db()), dir, c)
      ensures reply == Accepted ==> exists rid ::
        Commits(old(Db()), CompleteOp(c, rid), Db()) && Authenticates(dir, c, rid, Db())
      ensures reply != Accepted ==>
        reply.Rejected? && CompleteReason(old(Db()), dir, c, reply.code) && Db() == old(Db())
      ensures terminal <==> CompleteEnds(old(Db()), dir, c)
      ensures forall code, ends | CompleteRefused(old(Db()), dir, c, code, ends) ::
        reply == Rejected(code) && terminal == ends
      ensures terminal ==> OwnSession(old(Db()), c.caller, c.sid)
    {
      ghost var db := Db();
      var verdict := CheckComplete(dir, c);
      match verdict {
        case Refuse(code, ends) =>
          reply, terminal := Rejected(code), ends;
        case Grant =>
          VerifySession(db, dir, c);
          reply, terminal := Accepted, false;
      }
    }

    /** The endpoint's checks, in the endpoint's order. */
    method CheckComplete(dir: Directory, c: CompleteCall) returns (verdict: Verdict)
      requires Valid()
      ensures verdict.Grant? <==> CompleteConditions(Db(), dir, c)
      ensures verdict.Refuse? ==> CompleteReason(Db(), dir, c, verdict.code)
      ensures verdict.Refuse? && verdict.terminal <==> CompleteEnds(Db(), dir, c)
    {
      if c.document.None? || !IsSha256Text(c.documentHash) || c.decision != APPROVE {
        return Refuse(400, false);
      }
      if c.fingerprint.None? || c.fingerprint.value <= 0 || c.sid.None? {
        return Refuse(400, false);
      }
      if !c.caller.known {
        return Refuse(401, false);
      }
      if c.caller.limited {
        return Refuse(429, false);
      }
      if !c.caller.active || !c.caller.fingerprintEnabled {
        return Refuse(403, false);
      }
      if !c.caller.hasSecret || !c.caller.hmacValid {
        return Refuse(401, false);
      }
      if c.sid.value !in sessions {
        return Refuse(404, false);
      }
      verdict := CheckCompleteSession(dir, c, sessions[c.sid.value]);
    }

    /** The checks made once the session row is locked. */
    method CheckCompleteSession(dir: Directory, c: CompleteCall, s: Session) returns (verdict: Verdict)
      requires Valid() && CompleteCalled(c)
      ensures verdict.Grant? <==> Proves(Db(), dir, c, s)
      ensures verdict.Refuse? ==> CompleteSessionReason(Db(), dir, c, s, verdict.code)
      ensures verdict.Refuse? && verdict.terminal <==> Disproves(Db(), dir, c, s)
    {
      var document := c.document.value;
      if s.device != c.caller.id {
        return Refuse(403, false);
      }
      if s.expiresAt <= c.now {
        return Refuse(401, true);
      }
      if s.verifiedAt.Some? {
        return Refuse(409, false);
      }
      if s.challenge != c.challenge {
        return Refuse(401, false);
      }
      if s.rfid != c.rfid || s.document != document || s.documentHash != c.documentHash || s.decision != c.decision {
        return Refuse(403, false);
      }
      if document !in documents {
        return Refuse(404, true);
      }
      if documents[document].documentHash != c.documentHash {
        return Refuse(403, true);
      }
      if Credential(s.user, c.caller.id, c.rfid, c.fingerprint.value) !in dir.credentials {
        return Refuse(403, true);
      }
      if s.user !in dir.users || !dir.users[s.user] {
        return Refuse(403, true);
      }
      var authorized := IsAuthorized(c.sid.value, s, Authenticating, c.checkedAt);
      if !authorized {
        return Refuse(403, true);
      }
      if !c.nonceFresh {
        return Refuse(401, false);
      }
      return Grant;
    }

    method IsAuthorized(sid: Id, s: Session, expected: Status, now: Time) returns (authorized: bool)
      requires Valid()
      ensures authorized == SessionAuthorized(Db(), sid, s, expected, now)
    {
      var found;
      authorized, found := table.IsAuthorizedForSession(sid, s, expected, now);
      TheRowDecides(Db(), sid, found, s, expected, now);
    }

    /** verified_at and the request's AUTHENTICATED status, committed together. */
    method VerifySession(ghost db: Db, ghost dir: Directory, c: CompleteCall)
      requires Valid() && db == Db() && CompleteConditions(db, dir, c)
      requires Stamped(db.requests, c.checkedAt) && c.now <= c.checkedAt <= c.markedAt
      modifies this, table.records.Values
      ensures Valid()
      ensures exists rid :: Commits(db, CompleteOp(c, rid), Db()) && Authenticates(dir, c, rid, Db())
    {
      ghost var rid := CompletionIsEnabled(db, dir, c);
      UpdateVerified(db, c, c.sid.value, rid);
      CompletionLeaves(db, dir, c, rid);
      assert Commits(db, CompleteOp(c, rid), Db()) && Authenticates(dir, c, rid, Db());
    }

    method UpdateVerified(ghost db: Db, c: CompleteCall, sid: Id, ghost rid: Id)
      requires Valid() && db == Db() && sid in sessions && rid in RowsOfSession(db.requests, sid)
      modifies this, table.records.Values
      ensures Valid()
      ensures Db() == db.(sessions := db.sessions[sid := db.sessions[sid].(verifiedAt := Some(c.now))],
                          requests := db.requests[rid := MarkAuthenticated(db.requests[rid], c.markedAt)])
    {
      sessions := sessions[sid := sessions[sid].(verifiedAt := Some(c.now))];
      var found := table.MarkSignatureRequestAuthenticated(sid, c.markedAt);
      assert found == Some(rid);
    }

    // -------------------------------------------------------------- POST /auth/challenge

    method CreateChallenge(dir: Directory, c: ChallengeCall) returns (reply: Reply)
      requires Valid() && c.sid !in sessions && c.now <= c.attachedAt
      requires forall id | id in Db().requests :: Db().requests[id].session != Some(c.sid)
      modifies this, table.records.Values
      ensures Valid()
      ensures reply == Accepted <==> ChallengeConditions(old(Db()), dir, c)
      ensures reply == Accepted ==> exists k, target ::
        (k in Cards(dir, c.caller.id, c.rfid) && BindsClaimed(old(Db()).requests, c, target)
         && Commits(old(Db()), ChallengeOp(c, k.user, target), Db()))
      ensures reply != Accepted ==>
        reply.Rejected? && ChallengeReason(old(Db()), dir, c, reply.code) && Db() == old(Db())
    {
      ghost var db := Db();
      var verdict := CheckChallenge(dir, c);
      match verdict {
        case Refuse(code, _) => reply := Rejected(code);
        case Grant =>
          var cards := Cards(dir, c.caller.id, c.rfid);
          var k :| k in cards;
          ghost var target := OpenSession(db, c, k.user);
          assert Commits(db, ChallengeOp(c, k.user, target), Db());
          reply := Accepted;
      }
    }

    method CheckChallenge(dir: Directory, c: ChallengeCall) returns (verdict: Verdict)
      requires Valid()
      ensures verdict.Grant? <==> ChallengeConditions(Db(), dir, c)
      ensures verdict.Refuse? ==> !verdict.terminal && ChallengeReason(Db(), dir, c, verdict.code)
    {
      if !c.caller.known {
        return Refuse(401, false);
      }
      if c.caller.limited {
        return Refuse(429, false);
      }
      if !c.caller.active || !c.caller.rfidEnabled {
        return Refuse(403, false);
      }
      if !c.caller.hasSecret {
        return Refuse(401, false);
      }
      if c.document.None? || !IsSha256Text(c.documentHash) || c.decision != APPROVE {
        return Refuse(400, false);
      }
      if !c.caller.hmacValid {
        return Refuse(401, false);
      }
      if c.document.value !in documents {
        return Refuse(404, false);
      }
      if documents[c.document.value].documentHash != c.documentHash {
        return Refuse(403, false);
      }
      var cards := Cards(dir, c.caller.id, c.rfid);
      if cards == {} {
        return Refuse(403, false);
      }
      if exists k | k in cards :: !ActiveUser(dir, k.user) {
        return Refuse(403, false);
      }
      if !c.nonceFresh {
        return Refuse(401, false);
      }
      return Grant;
    }

    /** Insert the session, then bind the device's claimed request for the document to it. */
    method OpenSession(ghost db: Db, c: ChallengeCall, user: Id) returns (target: Option<Id>)
      requires Valid() && db == Db() && c.sid !in sessions && c.now <= c.attachedAt
      requires forall id | id in db.requests :: db.requests[id].session != Some(c.sid)
      requires WellFormedChallenge(c) && c.document.value in documents
      requires documents[c.document.value].documentHash == c.documentHash
      modifies this, table.records.Values
      ensures Valid()
      ensures BindsClaimed(db.requests, c, target) && Commits(db, ChallengeOp(c, user, target), Db())
    {
      target := InsertSession(db, c, OpenedSession(c, user));
      ChallengeCommits(db, c, user, target);
    }

    method InsertSession(ghost db: Db, c: ChallengeCall, s: Session) returns (target: Option<Id>)
      requires Valid() && db == Db() && c.document.Some?
      requires s.device == c.caller.id && s.document == c.document.value
      requires s.documentHash == c.documentHash && s.decision == APPROVE
      requires forall id | id in db.requests :: db.requests[id].session != Some(c.sid)
      modifies this, table.records.Values
      ensures Valid()
      ensures BindsClaimed(db.requests, c, target)
      ensures Db() == db.(sessions := db.sessions[c.sid := s],
        requests :=
          if target.Some? then db.requests[target.value := Attach(db.requests[target.value], c.sid, c.attachedAt)]
          else db.requests)
    {
      sessions := sessions[c.sid := s];
      target := table.AttachAuthenticationSession(
        c.caller.id, c.document.value, c.documentHash, APPROVE, c.sid, s, c.attachedAt);
    }

    // -------------------------------------------------------------- POST /sign

    /** Answer and, for an accepted call, commit. On a terminal refusal the handler goes on to
        `FailTerminally`. */
    method SignDocument(dir: Directory, c: SignCall) returns (reply: Reply, terminal: bool)
      requires Valid() && Stamped(Db().requests, c.authorizedAt) && c.gid !in signatures
      requires c.authorizedAt <= c.freshAt <= c.markedAt <= c.usedAt
      modifies this, table.records.Values
      ensures Valid()
      ensures reply == Accepted <==> SignConditions(old(Db()), dir, c)
      ensures reply == Accepted ==> exists rid ::
        Commits(old(Db()), SignOp(c, rid), Db()) && Signs(c, rid, Db())
      ensures reply != Accepted ==>
        reply.Rejected? && SignReason(old(Db()), dir, c, reply.code) && Db() == old(Db())
      ensures reply == Rejected(503) <==> SignAttempted(old(Db()), dir, c) && ServiceFailed(c.outcome)
      ensures terminal <==> SignEnds(old(Db()), dir, c)
      ensures reply == Accepted ==> c.stored == Digest(c.documentHash)
      ensures forall code, ends | SignRefused(old(Db()), dir, c, code, ends) ::
        reply == Rejected(code) && terminal == ends
      ensures terminal ==> OwnSession(old(Db()), c.caller, c.sid)
    {
      var verdict := CheckSign(dir, c);
      if verdict.Refuse? {
        return Rejected(verdict.code), verdict.terminal;
      }
      RecordSignature(Db(), dir, c);
      return Accepted, false;
    }

    /** The endpoint's checks, in the endpoint's order. */
    method CheckSign(dir: Directory, c: SignCall) returns (verdict: Verdict)
      requires Valid()
      ensures verdict.Grant? <==> SignConditions(Db(), dir, c)
      ensures verdict.Refuse? ==> SignReason(Db(), dir, c, verdict.code)
      ensures verdict.Refuse? && verdict.terminal <==> SignEnds(Db(), dir, c)
      ensures verdict.Refuse? && verdict.code == 503 <==> SignAttempted(Db(), dir, c) && ServiceFailed(c.outcome)
    {
      if !c.caller.known {
        return Refuse(401, false);
      }
      if c.caller.limited {
        return Refuse(429, false);
      }
      if !c.caller.active {
        return Refuse(403, false);
      }
      if !c.caller.hasSecret {
        return Refuse(401, false);
      }
      if c.sid.None? || c.document.None? || !IsSha256Text(c.documentHash) {
        return Refuse(400, false);
      }
      if c.decision != APPROVE {
        return Refuse(403, false);
      }
      if !c.caller.hmacValid {
        return Refuse(401, false);
      }
      if c.sid.value !in sessions {
        return Refuse(404, false);
      }
      verdict := CheckSignSession(dir, c, sessions[c.sid.value]);
    }

    /** The checks made once the session row is locked. */
    method CheckSignSession(dir: Directory, c: SignCall, s: Session) returns (verdict: Verdict)
      requires Valid() && SignCalled(c)
      ensures verdict.Grant? <==> Signable(Db(), dir, c, s) && c.outcome == Produced
      ensures verdict.Refuse? ==> SignSessionReason(Db(), dir, c, s, verdict.code)
      ensures verdict.Refuse? && verdict.terminal <==> Unsignable(Db(), dir, c, s)
      ensures verdict.Refuse? && verdict.code == 503 <==> Signable(Db(), dir, c, s) && ServiceFailed(c.outcome)
    {
      var document := c.document.value;
      if s.device != c.caller.id {
        return Refuse(403, false);
      }
      var authorized := IsAuthorized(c.sid.value, s, Authenticated, c.authorizedAt);
      if !authorized {
        return Refuse(403, true);
      }
      if s.verifiedAt.None? {
        return Refuse(403, false);
      }
      if s.usedAt.Some? || exists g | g in signatures :: signatures[g].session == c.sid.value {
        return Refuse(409, false);
      }
      if s.document != document || s.documentHash != c.documentHash || s.decision != c.decision {
        return Refuse(403, false);
      }
      if c.freshAt > s.verifiedAt.value + SIGNING_TTL {
        return Refuse(401, true);
      }
      if document !in documents {
        return Refuse(404, true);
      }
      if s.user !in dir.users {
        return Refuse(403, true);
      }
      if documents[document].documentHash != c.documentHash {
        return Refuse(409, true);
      }
      if !c.stored.Digest? {
        return Refuse(500, true);
      }
      if c.stored.hash != c.documentHash {
        return Refuse(409, true);
      }
      if !c.nonceFresh {
        return Refuse(401, false);
      }
      match c.outcome {
        case BadTarget => return Refuse(500, false);
        case Produced => return Grant;
        case _ => return Refuse(503, false);
      }
    }

    /** The signature row, used_at and the request's SIGNED status, committed together. */
    method RecordSignature(ghost db: Db, ghost dir: Directory, c: SignCall)
      requires Valid() && db == Db() && SignConditions(db, dir, c) && c.gid !in signatures
      requires Stamped(db.requests, c.authorizedAt) && c.authorizedAt <= c.freshAt <= c.markedAt <= c.usedAt
      modifies this, table.records.Values
      ensures Valid()
      ensures exists rid :: Commits(db, SignOp(c, rid), Db()) && Signs(c, rid, Db())
    {
      ghost var rid := SigningIsEnabled(db, dir, c);
      InsertSignature(db, c.sid.value, rid, c);
      SigningLeaves(db, c, rid);
      assert Commits(db, SignOp(c, rid), Db()) && Signs(c, rid, Db());
    }

    method InsertSignature(ghost db: Db, sid: Id, ghost rid: Id, c: SignCall)
      requires Valid() && db == Db() && sid in sessions && rid in RowsOfSession(db.requests, sid)
      modifies this, table.records.Values
      ensures Valid()
      ensures var g := NewSignature(db.sessions[sid], sid, c.authorizedAt, c.freshAt);
        Db() == db.(signatures := db.signatures[c.gid := g],
                    sessions := db.sessions[sid := db.sessions[sid].(usedAt := Some(c.usedAt))],
                    requests := db.requests[rid := MarkSigned(db.requests[rid], sid, c.gid, g, c.markedAt)])
    {
      var g := NewSignature(sessions[sid], sid, c.authorizedAt, c.freshAt);
      signatures := signatures[c.gid := g];
      var found := table.MarkSignatureRequestSigned(sid, c.gid, g, c.markedAt);
      assert found == Some(rid);
      sessions := sessions[sid := sessions[sid].(usedAt := Some(c.usedAt))];
    }

    // -------------------------------------------------------------- the device queue

    method ClaimNextRequest(
      caller: Caller, nonceFresh: bool, now: Time, lockedAtExpiry: set<Id>, lockedAtPick: set<Id>)
      returns (reply: Reply)
      requires Valid()
      modifies table.records.Values
      ensures Valid()
      ensures if Genuine(caller) && nonceFresh
        then Polled(old(Db()), caller.id, now, lockedAtExpiry, lockedAtPick, reply, Db())
        else reply.Rejected? && QueueReason(caller, reply.code) && Db() == old(Db())
    {
      var verdict := AuthenticateDevice(caller, nonceFresh);
      if verdict.Refuse? {
        return Rejected(verdict.code);
      }
      reply := PollQueue(Db(), caller.id, now, lockedAtExpiry, lockedAtPick);
    }

    method AuthenticateDevice(caller: Caller, nonceFresh: bool) returns (verdict: Verdict)
      ensures verdict.Grant? <==> Genuine(caller) && nonceFresh
      ensures verdict.Refuse? ==> !verdict.terminal && QueueReason(caller, verdict.code)
    {
      if !caller.known {
        return Refuse(401, false);
      }
      if caller.limited {
        return Refuse(429, false);
      }
      if !caller.active {
        return Refuse(403, false);
      }
      if !caller.hasSecret || !caller.hmacValid || !nonceFresh {
        return Refuse(401, false);
      }
      return Grant;
    }

    method PollQueue(ghost db: Db, device: Id, now: Time, lockedAtExpiry: set<Id>, lockedAtPick: set<Id>)
      returns (reply: Reply)
      requires Valid() && db == Db()
      modifies table.records.Values
      ensures Valid()
      ensures Polled(db, device, now, lockedAtExpiry, lockedAtPick, reply, Db())
    {
      ghost var db', picked;
      reply, db', picked := ClaimFromQueue(db, device, now, lockedAtExpiry, lockedAtPick);
      PollAnswered(db, device, now, lockedAtExpiry, lockedAtPick, db', picked);
    }

    method ClaimFromQueue(ghost db: Db, device: Id, now: Time, lockedAtExpiry: set<Id>, lockedAtPick: set<Id>)
      returns (reply: Reply, ghost db': Db, ghost picked: Option<Id>)
      requires Valid() && db == Db()
      modifies table.records.Values
      ensures Valid() && db' == Db() == db.(requests := db'.requests)
      ensures picked.Some? ==> picked.value in db'.requests
      ensures reply == PollReply(db'.requests, picked)
      ensures ClaimOutcome(db.requests, device, now, lockedAtExpiry, lockedAtPick, db'.requests, picked)
    {
      var found := table.ClaimNext(device, now, lockedAtExpiry, lockedAtPick);
      picked, db' := found, Db();
      reply := Deliver(found);
    }

    function Deliver(picked: Option<Id>): (reply: Reply)
      reads this, table, table.records.Values
      requires Valid() && (picked.Some? ==> picked.value in table.records)
      ensures reply == PollReply(Db().requests, picked)
    {
      if picked.None? then NoContent
      else
        var r := table.records[picked.value];
        Delivered(picked.value, r.document, r.documentHash, r.decision)
    }

    method ReportRequestStatus(caller: Caller, nonceFresh: bool, rid: Id, detail: string, now: Time)
      returns (reply: Reply)
      requires Valid() && Stamped(Db().requests, now)
      modifies table.records.Values
      ensures Valid()
      ensures !(Genuine(caller) && nonceFresh) ==>
        reply.Rejected? && QueueReason(caller, reply.code) && Db() == old(Db())
      ensures Genuine(caller) && nonceFresh ==>
        if rid !in old(Db()).requests || old(Db()).requests[rid].device != caller.id then
          reply == Rejected(404) && Db() == old(Db())
        else
          && Commits(old(Db()), Report(rid, caller.id, detail, now), Db())
          && reply == ReportReply(Db().requests[rid].status)
      ensures
        (Genuine(caller) && nonceFresh && rid in old(Db()).requests && old(Db()).requests[rid].device == caller.id) ==>
        if Db().requests[rid].status in {Failed, Expired} then reply == Closed(Db().requests[rid].status)
        else reply == Rejected(409)
    {
      var verdict := AuthenticateDevice(caller, nonceFresh);
      if verdict.Refuse? {
        return Rejected(verdict.code);
      }
      reply := RecordFailure(Db(), caller.id, rid, detail, now);
    }

    method RecordFailure(ghost db: Db, device: Id, rid: Id, detail: string, now: Time) returns (reply: Reply)
      requires Valid() && db == Db()
      modifies table.records.Values
      ensures Valid()
      ensures rid !in db.requests || db.requests[rid].device != device ==> reply == Rejected(404) && Db() == db
      ensures rid in db.requests && db.requests[rid].device == device ==>
        && Db() == db.(requests := db.requests[rid := MarkFailed(db.requests[rid], detail, now)])
        && reply == ReportReply(Db().requests[rid].status)
    {
      var found := table.MarkSignatureRequestFailed(rid, device, detail, now);
      if !found {
        return Rejected(404);
      }
      var status := table.records[rid].status;
      assert Db().requests[rid] == table.records[rid].Row();
      return ReportReply(status);
    }

    // -------------------------------------------------------------- the user's side

    /** `onDisk`: the document's file exists inside the document storage. */
    method ViewDocument(web: Id, document: Id, onDisk: bool) returns (reply: Reply)
      requires Valid() && web in webUsers
      modifies this`viewed
      ensures Valid()
      ensures if Enabled(old(Db()), View(web, document)) && onDisk
        then reply == Accepted && Commits(old(Db()), View(web, document), Db())
        else reply == Rejected(404) && Db() == old(Db())
    {
      if document !in documents || documents[document].owner != Some(webUsers[web]) {
        return Rejected(404);
      }
      if !onDisk {
        return Rejected(404);
      }
      viewed := viewed + {(web, document)};
      return Accepted;
    }

    method CreateUserSignatureRequest(c: CreateCall) returns (reply: Reply)
      requires Valid() && c.web in webUsers && c.id !in table.records && c.startedAt <= c.consentedAt <= c.now
      modifies table
      ensures Valid()
      ensures reply == Accepted <==> c.device.Some? && Enabled(old(Db()), CreateOp(c))
      ensures reply == Accepted ==> Db() == Apply(old(Db()), CreateOp(c))
      ensures reply != Accepted ==> Db() == old(Db())
      ensures reply == Rejected(404) <==>
        c.document !in documents || documents[c.document].owner != Some(webUsers[c.web])
      ensures reply == Rejected(503) <==> c.device.None? && Enabled(old(Db()), CreateOp(c.(device := Some(0))))
      ensures reply in {Accepted, Rejected(404), Rejected(409), Rejected(503)}
      ensures reply == Accepted ==> Consents(old(Db()), c, Db())
      ensures c.document in documents && documents[c.document].owner == Some(webUsers[c.web]) ==>
        && ((c.web, c.document) !in old(viewed) ==> reply == Rejected(409))
        && (forall id | id in old(Db()).requests && old(Db()).requests[id].user == webUsers[c.web]
                     && old(Db()).requests[id].document == c.document
                     && old(Db()).requests[id].status in {Pending, Claimed, Authenticating, Authenticated} ::
              reply == Rejected(409))
    {
      ghost var db := Db();
      if c.document !in documents || documents[c.document].owner != Some(webUsers[c.web]) {
        return Rejected(404);
      }
      if (c.web, c.document) !in viewed {
        return Rejected(409);
      }
      var clear := table.NoneOpen(webUsers[c.web], c.document);
      if !clear {
        return Rejected(409);
      }
      if c.device.None? {
        return Rejected(503);
      }
      InsertRequest(db, c);
      CreationConsents(db, c);
      return Accepted;
    }

    method InsertRequest(ghost db: Db, c: CreateCall)
      requires Valid() && db == Db() && c.device.Some? && c.id !in table.records && Enabled(db, CreateOp(c))
      modifies table
      ensures Valid() && Db() == Apply(db, CreateOp(c))
    {
      var document := documents[c.document];
      var created := table.CreateSignatureRequest(
        c.id, c.web, webUsers[c.web], c.device.value, c.document, document.owner, document.documentHash,
        c.consentedAt, CONSENT_VERSION, c.startedAt, c.now);
    }

    /** The status page; looking at a due request expires it. */
    method RequestStatus(web: Id, rid: Id, now: Time) returns (reply: Reply)
      requires Valid() && web in webUsers && Stamped(Db().requests, now)
      modifies table.records.Values
      ensures Valid()
      ensures if rid in old(Db()).requests && old(Db()).requests[rid].user == webUsers[web]
        then reply == Accepted && Commits(old(Db()), Poll(rid, webUsers[web], now), Db())
        else reply == Rejected(404) && Db() == old(Db())
    {
      var found := table.GetUserSignatureRequest(rid, webUsers[web], now);
      return if found then Accepted else Rejected(404);
    }
  }
}
