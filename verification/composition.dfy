/** The device and the server together, over a network that may lose, delay or duplicate
    requests and lose or delay replies: what the device believes, the server has committed. */
module Composition {
  import opened Records
  import opened RequestService
  import opened Texts
  import opened Protocol
  import Calls
  import Messages
  import Firmware

  type Assignment = Messages.Assignment
  type Device = Firmware.Device

  /** A call as its headers carry it. */
  datatype Call =
    | ForAssignment
    | ForChallenge(rfid: string, assignment: Assignment)
    | ForAuthentication(session: string, challenge: string, rfid: string, fingerprint: int, assignment: Assignment)
    | ForSignature(session: string, assignment: Assignment)
    | ForFailure(requestId: string, failure: string)

  /** The committed rows, the device `me`, the call it waits for, every call it ever sent, and
      every successful reply the server ever produced for one of them. Other replies carry no
      promise and need no record. */
  datatype System = System(
    db: Db, me: Id, device: Device, waiting: Option<nat>, calls: map<nat, Call>, replies: set<(nat, Firmware.Body)>)

  datatype Event =
    | Other(op: Op)
    | GrantChallenge(n: nat, dir: Calls.Directory, asked: Calls.ChallengeCall, user: Id, target: Option<Id>)
    | GrantAuthentication(n: nat, dir: Calls.Directory, completed: Calls.CompleteCall, rid: Id)
    | GrantSignature(n: nat, dir: Calls.Directory, signed: Calls.SignCall,
        rid: Id, signatureId: string, algorithm: string)
    | Send(n: nat)
    | Local(i: Firmware.Input)
    | Receive(i: Firmware.Input)

  /** The states in which a pass of the loop makes a call, once it is due. */
  predicate Calling(d: Device) {
    d.state in {
      Firmware.PollNext, Firmware.AskChallenge, Firmware.CompleteAuth, Firmware.SignDocument, Firmware.ReportFailed}
  }

  function CallOf(d: Device): Call
    requires Calling(d)
  {
    match d.state
    case PollNext => ForAssignment
    case AskChallenge => ForChallenge(d.rfid, d.assignment)
    case CompleteAuth => ForAuthentication(d.session, d.challenge, d.rfid, d.fingerprint, d.assignment)
    case SignDocument => ForSignature(d.session, d.assignment)
    case ReportFailed => ForFailure(d.assignment.requestId, d.failure)
  }

  /** The handler's call is the request the device sent, normalised as the endpoint does. */
  predicate AsksChallenge(call: Call, me: Id, c: Calls.ChallengeCall) {
    && call.ForChallenge? && c.caller.id == me && c.sid < UUID_LIMIT
    && c.rfid == Upper(Strip(call.rfid))
    && c.document == Messages.ParseUuid(Strip(call.assignment.documentId))
    && c.documentHash == Lower(Strip(call.assignment.documentHash))
    && c.decision == Upper(Strip(call.assignment.decision))
  }

  predicate AsksAuthentication(call: Call, me: Id, c: Calls.CompleteCall) {
    && call.ForAuthentication? && c.caller.id == me
    && c.sid == Messages.ParseUuid(Strip(call.session)) && c.challenge == Lower(Strip(call.challenge))
    && c.rfid == Upper(Strip(call.rfid)) && c.fingerprint == Some(call.fingerprint)
    && c.document == Messages.ParseUuid(Strip(call.assignment.documentId))
    && c.documentHash == Lower(Strip(call.assignment.documentHash))
  }

  predicate AsksSignature(call: Call, me: Id, c: Calls.SignCall) {
    && call.ForSignature? && c.caller.id == me
    && c.sid == Messages.ParseUuid(Strip(call.session))
    && c.document == Messages.ParseUuid(Strip(call.assignment.documentId))
    && c.documentHash == Lower(Strip(call.assignment.documentHash))
  }

  /** Whether a reply counts as success for the state that waits for it. */
  predicate Succeeds(d: Device, http: Firmware.Http) {
    match d.state
    case AskChallenge => Firmware.ChallengeOutcome(http, d.assignment).Succeeded?
    case CompleteAuth => Firmware.CompleteOutcome(http).Succeeded?
    case SignDocument => Firmware.SignOutcome(http).Succeeded?
    case _ => false
  }

  predicate Can(s: System, e: Event) {
    match e
    case Other(op) => Enabled(s.db, op)
    case GrantChallenge(n, dir, c, user, target) =>
      && n in s.calls && AsksChallenge(s.calls[n], s.me, c)
      && Calls.ChallengeConditions(s.db, dir, c)
      && Enabled(s.db, Calls.ChallengeOp(c, user, target))
    case GrantAuthentication(n, dir, c, rid) =>
      && n in s.calls && AsksAuthentication(s.calls[n], s.me, c)
      && Calls.CompleteConditions(s.db, dir, c)
      && Enabled(s.db, Calls.CompleteOp(c, rid))
    case GrantSignature(n, dir, c, rid, _, _) =>
      && n in s.calls && AsksSignature(s.calls[n], s.me, c)
      && Calls.SignConditions(s.db, dir, c)
      && Enabled(s.db, Calls.SignOp(c, rid))
    case Send(n) => s.waiting.None? && Calling(s.device) && n !in s.calls
    case Local(i) =>
      s.waiting.None? && (!Calling(s.device) || !Firmware.ActionDue(i.now, s.device.nextActionAt))
      && s.device.state != Firmware.PollNext
    case Receive(i) =>
      && s.waiting.Some?
      && (Succeeds(s.device, i.http) ==> (s.waiting.value, i.http.body) in s.replies)
  }

  function Do(s: System, e: Event): System
    requires Can(s, e)
  {
    match e
    case Other(op) => s.(db := Apply(s.db, op))
    case GrantChallenge(n, dir, c, user, target) =>
      s.(db := Apply(s.db, Calls.ChallengeOp(c, user, target)),
         replies := s.replies + {(n, ChallengeReply(c))})
    case GrantAuthentication(n, dir, c, rid) =>
      s.(db := Apply(s.db, Calls.CompleteOp(c, rid)),
         replies := s.replies + {(n, Firmware.CompleteBody(true))})
    case GrantSignature(n, dir, c, rid, signatureId, algorithm) =>
      s.(db := Apply(s.db, Calls.SignOp(c, rid)),
         replies := s.replies + {(n, Firmware.SignBody(true, signatureId, algorithm))})
    case Send(n) => s.(waiting := Some(n), calls := s.calls[n := CallOf(s.device)])
    case Local(i) => s.(device := Firmware.Pass(s.device, i))
    case Receive(i) => s.(device := Firmware.Pass(s.device, i), waiting := None)
  }

  /** The body of the endpoint's reply. */
  function ChallengeReply(c: Calls.ChallengeCall): Firmware.Body
    requires c.document.Some? && c.document.value < UUID_LIMIT && c.sid < UUID_LIMIT
  {
    Firmware.ChallengeBody(UuidText(c.sid), c.challenge, UuidText(c.document.value), c.documentHash, c.decision)
  }

  // ---------------------------------------------------------------- beliefs

  /** Session `sid` belongs to the device and is bound to the assignment's document and hash. */
  predicate BoundSession(db: Db, me: Id, sid: Uuid, t: Assignment) {
    && sid in db.sessions && db.sessions[sid].device == me
    && Messages.ParseUuid(Strip(t.documentId)) == Some(db.sessions[sid].document)
    && db.sessions[sid].documentHash == Lower(Strip(t.documentHash))
    && db.sessions[sid].decision == APPROVE
  }

  predicate VerifiedSession(db: Db, me: Id, sid: Uuid, t: Assignment) {
    BoundSession(db, me, sid, t) && db.sessions[sid].verifiedAt.Some?
  }

  /** A committed SIGNED request for the device, the assignment's document and hash, and the session. */
  predicate SignedFor(db: Db, me: Id, sid: Uuid, t: Assignment, rid: Id) {
    && VerifiedSession(db, me, sid, t)
    && rid in db.requests && db.requests[rid].status == Status.Signed
    && db.requests[rid].session == Some(sid as Id) && db.requests[rid].device == me
    && Messages.ParseUuid(Strip(t.documentId)) == Some(db.requests[rid].document)
    && db.requests[rid].documentHash == Lower(Strip(t.documentHash))
  }

  ghost predicate KnowsSession(db: Db, me: Id, session: string, t: Assignment) {
    exists sid: Uuid :: session == UuidText(sid) && BoundSession(db, me, sid, t)
  }

  ghost predicate KnowsVerified(db: Db, me: Id, session: string, t: Assignment) {
    exists sid: Uuid :: session == UuidText(sid) && VerifiedSession(db, me, sid, t)
  }

  ghost predicate KnowsSigned(db: Db, me: Id, session: string, t: Assignment) {
    exists sid: Uuid, rid :: session == UuidText(sid) && SignedFor(db, me, sid, t, rid)
  }

  /** What the device's state lets it believe is true of the committed rows. */
  ghost predicate BeliefsHold(db: Db, me: Id, d: Device) {
    && (d.state == Firmware.WaitFingerprint || d.state == Firmware.CompleteAuth ==>
          KnowsSession(db, me, d.session, d.assignment))
    && (d.state == Firmware.SignDocument ==> KnowsVerified(db, me, d.session, d.assignment))
    && (d.state == Firmware.Success ==> KnowsSigned(db, me, d.session, d.assignment))
  }

  /** A reply the server produced stays true. */
  ghost predicate ReplyHolds(db: Db, me: Id, call: Call, body: Firmware.Body) {
    match body
    case ChallengeBody(session, _, _, _, _) => call.ForChallenge? && KnowsSession(db, me, session, call.assignment)
    case CompleteBody(ok) => call.ForAuthentication? && Authenticates(db, me, call.session, call.assignment)
    case SignBody(_, _, _) => call.ForSignature? && Signs(db, me, call.session, call.assignment)
    case _ => false
  }

  /** The session the header names. */
  ghost predicate Authenticates(db: Db, me: Id, header: string, t: Assignment) {
    exists sid: Uuid :: Messages.ParseUuid(Strip(header)) == Some(sid) && VerifiedSession(db, me, sid, t)
  }

  ghost predicate Signs(db: Db, me: Id, header: string, t: Assignment) {
    exists sid: Uuid, rid :: Messages.ParseUuid(Strip(header)) == Some(sid) && SignedFor(db, me, sid, t, rid)
  }

  ghost predicate SystemOk(s: System) {
    && Inv(s.db)
    && BeliefsHold(s.db, s.me, s.device)
    && (forall r | r in s.replies :: r.0 in s.calls && ReplyHolds(s.db, s.me, s.calls[r.0], r.1))
    && (s.waiting.Some? ==>
          Calling(s.device) && s.waiting.value in s.calls && s.calls[s.waiting.value] == CallOf(s.device))
  }

  // ---------------------------------------------------------------- stability

  /** No transaction takes a session away, rebinds it or unverifies it. */
  lemma SessionsAreStable(db: Db, op: Op, me: Id, sid: Uuid, t: Assignment)
    requires Enabled(db, op) && BoundSession(db, me, sid, t)
    ensures BoundSession(Apply(db, op), me, sid, t)
    ensures VerifiedSession(db, me, sid, t) ==> VerifiedSession(Apply(db, op), me, sid, t)
  {
  }

  /** No transaction undoes a signed request: late failure reports and replays included. */
  lemma SignedIsStable(db: Db, op: Op, me: Id, sid: Uuid, t: Assignment, rid: Id)
    requires Enabled(db, op) && SignedFor(db, me, sid, t, rid)
    ensures SignedFor(Apply(db, op), me, sid, t, rid)
  {
    SessionsAreStable(db, op, me, sid, t);
    TerminalIsFinal(db, op, rid);
  }

  lemma KnowledgeIsStable(db: Db, op: Op, me: Id, session: string, t: Assignment)
    requires Enabled(db, op)
    ensures KnowsSession(db, me, session, t) ==> KnowsSession(Apply(db, op), me, session, t)
    ensures KnowsVerified(db, me, session, t) ==> KnowsVerified(Apply(db, op), me, session, t)
    ensures KnowsSigned(db, me, session, t) ==> KnowsSigned(Apply(db, op), me, session, t)
  {
    if KnowsSession(db, me, session, t) {
      var sid: Uuid :| session == UuidText(sid) && BoundSession(db, me, sid, t);
      SessionsAreStable(db, op, me, sid, t);
    }
    if KnowsVerified(db, me, session, t) {
      var sid: Uuid :| session == UuidText(sid) && VerifiedSession(db, me, sid, t);
      SessionsAreStable(db, op, me, sid, t);
    }
    if KnowsSigned(db, me, session, t) {
      var sid: Uuid, rid :| session == UuidText(sid) && SignedFor(db, me, sid, t, rid);
      SignedIsStable(db, op, me, sid, t, rid);
    }
  }

  lemma RepliesAreStable(db: Db, op: Op, me: Id, call: Call, body: Firmware.Body)
    requires Enabled(db, op) && ReplyHolds(db, me, call, body)
    ensures ReplyHolds(Apply(db, op), me, call, body)
  {
    match body {
      case ChallengeBody(session, _, _, _, _) => KnowledgeIsStable(db, op, me, session, call.assignment);
      case CompleteBody(_) =>
        var sid: Uuid :|
          Messages.ParseUuid(Strip(call.session)) == Some(sid) && VerifiedSession(db, me, sid, call.assignment);
        SessionsAreStable(db, op, me, sid, call.assignment);
      case SignBody(_, _, _) =>
        var sid: Uuid, rid :|
          Messages.ParseUuid(Strip(call.session)) == Some(sid) && SignedFor(db, me, sid, call.assignment, rid);
        SignedIsStable(db, op, me, sid, call.assignment, rid);
    }
  }

  /** Any server transaction keeps the system's invariant. */
  lemma ServerKeepsOk(s: System, op: Op)
    requires SystemOk(s) && Enabled(s.db, op)
    ensures SystemOk(s.(db := Apply(s.db, op)))
  {
    ApplyKeepsInv(s.db, op);
    KnowledgeIsStable(s.db, op, s.me, s.device.session, s.device.assignment);
    forall r | r in s.replies ensures ReplyHolds(Apply(s.db, op), s.me, s.calls[r.0], r.1) {
      RepliesAreStable(s.db, op, s.me, s.calls[r.0], r.1);
    }
  }

  // ---------------------------------------------------------------- the server's grants

  lemma ChallengeGrantHolds(
    s: System, n: nat, dir: Calls.Directory, c: Calls.ChallengeCall, user: Id, target: Option<Id>)
    requires Can(s, GrantChallenge(n, dir, c, user, target))
    ensures ReplyHolds(Apply(s.db, Calls.ChallengeOp(c, user, target)), s.me, s.calls[n], ChallengeReply(c))
  {
    var sid: Uuid := c.sid;
    assert BoundSession(Apply(s.db, Calls.ChallengeOp(c, user, target)), s.me, sid, s.calls[n].assignment);
  }

  lemma AuthenticationGrantHolds(s: System, n: nat, dir: Calls.Directory, c: Calls.CompleteCall, rid: Id)
    requires Can(s, GrantAuthentication(n, dir, c, rid))
    ensures Authenticates(
      Apply(s.db, Calls.CompleteOp(c, rid)), s.me, s.calls[n].session, s.calls[n].assignment)
  {
    var sid: Uuid := c.sid.value;
    assert VerifiedSession(Apply(s.db, Calls.CompleteOp(c, rid)), s.me, sid, s.calls[n].assignment);
  }

  /** A granted signing transaction leaves a SIGNED request for the call's document and session. */
  lemma SigningSigns(db: Db, me: Id, dir: Calls.Directory, c: Calls.SignCall, rid: Id, t: Assignment)
    requires c.sid.Some? && c.sid.value < UUID_LIMIT && c.caller.id == me
    requires Calls.SignConditions(db, dir, c) && Enabled(db, Calls.SignOp(c, rid))
    requires c.document == Messages.ParseUuid(Strip(t.documentId)) && c.documentHash == Lower(Strip(t.documentHash))
    ensures SignedFor(Apply(db, Calls.SignOp(c, rid)), me, c.sid.value, t, rid)
  {
    var r, s := db.requests[rid], db.sessions[c.sid.value];
    var g := NewSignature(s, c.sid.value, c.authorizedAt, c.freshAt);
    assert MarkSigned(r, c.sid.value, c.gid, g, c.markedAt).status == Status.Signed;
  }

  lemma SignatureGrantHolds(s: System, n: nat, dir: Calls.Directory, c: Calls.SignCall, rid: Id)
    requires SystemOk(s) && n in s.calls && AsksSignature(s.calls[n], s.me, c)
    requires Calls.SignConditions(s.db, dir, c) && Enabled(s.db, Calls.SignOp(c, rid))
    ensures Signs(Apply(s.db, Calls.SignOp(c, rid)), s.me, s.calls[n].session, s.calls[n].assignment)
  {
    var sid: Uuid := c.sid.value;
    SigningSigns(s.db, s.me, dir, c, rid, s.calls[n].assignment);
    assert SignedFor(Apply(s.db, Calls.SignOp(c, rid)), s.me, sid, s.calls[n].assignment, rid);
  }

  /** What the server authenticated is what the device read: the card and the finger of the call it
      sent are enrolled together, on this device, for the user whose request becomes AUTHENTICATED. */
  lemma GrantsAreByCardAndFinger(s: System, n: nat, dir: Calls.Directory, c: Calls.CompleteCall, rid: Id)
    requires Can(s, GrantAuthentication(n, dir, c, rid))
    ensures var call := s.calls[n];
      && rid in Do(s, GrantAuthentication(n, dir, c, rid)).db.requests
      && var r := Do(s, GrantAuthentication(n, dir, c, rid)).db.requests[rid];
      && r.status == Authenticated && r.device == s.me
      && Calls.Credential(r.user, s.me, Upper(Strip(call.rfid)), call.fingerprint) in dir.credentials
  {
  }

  lemma GrantKeepsOk(s: System, op: Op, n: nat, body: Firmware.Body)
    requires SystemOk(s) && Enabled(s.db, op) && n in s.calls
    requires ReplyHolds(Apply(s.db, op), s.me, s.calls[n], body)
    ensures SystemOk(s.(db := Apply(s.db, op), replies := s.replies + {(n, body)}))
  {
    ServerKeepsOk(s, op);
  }

  // ---------------------------------------------------------------- the device's passes

  /** A session the firmware kept from the server's reply is the server's text of it. */
  lemma KeptSessionIsTheServers(sid: Uuid)
    ensures Lower(Trim(UuidText(sid))) == UuidText(sid)
  {
    Messages.UuidTextIsCanonical(sid);
    TrimKeepsTrimmed(UuidText(sid));
  }

  lemma ReceivedChallenge(s: System, i: Firmware.Input)
    requires SystemOk(s) && Can(s, Receive(i)) && s.device.state == Firmware.AskChallenge
    requires Succeeds(s.device, i.http)
    ensures KnowsSession(s.db, s.me, Firmware.KeptSession(i.http.body), s.device.assignment)
  {
    var call := s.calls[s.waiting.value];
    assert ReplyHolds(s.db, s.me, call, i.http.body);
    var sid: Uuid :| i.http.body.session == UuidText(sid) && BoundSession(s.db, s.me, sid, call.assignment);
    KeptSessionIsTheServers(sid);
  }

  lemma ReceivedAuthentication(s: System, i: Firmware.Input)
    requires SystemOk(s) && Can(s, Receive(i)) && s.device.state == Firmware.CompleteAuth
    requires Succeeds(s.device, i.http)
    ensures KnowsVerified(s.db, s.me, s.device.session, s.device.assignment)
  {
    var d := s.device;
    assert ReplyHolds(s.db, s.me, s.calls[s.waiting.value], i.http.body);
    var sid: Uuid :|
      Messages.ParseUuid(Strip(d.session)) == Some(sid) && VerifiedSession(s.db, s.me, sid, d.assignment);
    var known: Uuid :| d.session == UuidText(known) && BoundSession(s.db, s.me, known, d.assignment);
    Messages.UuidTextIsCanonical(known);
    assert known == sid;
  }

  lemma ReceivedSignature(s: System, i: Firmware.Input)
    requires SystemOk(s) && Can(s, Receive(i)) && s.device.state == Firmware.SignDocument
    requires Succeeds(s.device, i.http)
    ensures KnowsSigned(s.db, s.me, s.device.session, s.device.assignment)
  {
    var d := s.device;
    assert ReplyHolds(s.db, s.me, s.calls[s.waiting.value], i.http.body);
    var sid: Uuid, rid :|
      Messages.ParseUuid(Strip(d.session)) == Some(sid) && SignedFor(s.db, s.me, sid, d.assignment, rid);
    var known: Uuid :| d.session == UuidText(known) && VerifiedSession(s.db, s.me, known, d.assignment);
    Messages.UuidTextIsCanonical(known);
    assert known == sid;
  }

  /** How a pass can reach a state that carries a belief. */
  lemma PassReaches(d: Device, i: Firmware.Input)
    ensures var d' := Firmware.Pass(d, i);
      && (d'.state == Firmware.WaitFingerprint ==>
            d'.assignment == d.assignment && ((d.state == Firmware.WaitFingerprint && d'.session == d.session)
              || (d.state == Firmware.AskChallenge && Succeeds(d, i.http)
                  && d'.session == Firmware.KeptSession(i.http.body))))
      && (d'.state == Firmware.CompleteAuth ==>
            d'.assignment == d.assignment && d'.session == d.session
            && d.state in {Firmware.WaitFingerprint, Firmware.CompleteAuth})
      && (d'.state == Firmware.SignDocument ==>
            d'.assignment == d.assignment && d'.session == d.session
            && (d.state == Firmware.SignDocument || (d.state == Firmware.CompleteAuth && Succeeds(d, i.http))))
      && (d'.state == Firmware.Success ==>
            d'.assignment == d.assignment && d'.session == d.session
            && d.state == Firmware.SignDocument && Succeeds(d, i.http))
  {
  }

  lemma ReceiveKeepsBeliefs(s: System, i: Firmware.Input)
    requires SystemOk(s) && Can(s, Receive(i))
    ensures BeliefsHold(s.db, s.me, Firmware.Pass(s.device, i))
  {
    PassReaches(s.device, i);
    if Succeeds(s.device, i.http) {
      match s.device.state {
        case AskChallenge => ReceivedChallenge(s, i);
        case CompleteAuth => ReceivedAuthentication(s, i);
        case SignDocument => ReceivedSignature(s, i);
        case _ =>
      }
    }
  }

  lemma ReceiveKeepsOk(s: System, i: Firmware.Input)
    requires SystemOk(s) && Can(s, Receive(i))
    ensures SystemOk(Do(s, Receive(i)))
  {
    ReceiveKeepsBeliefs(s, i);
  }

  lemma LocalKeepsOk(s: System, i: Firmware.Input)
    requires SystemOk(s) && Can(s, Local(i))
    ensures SystemOk(Do(s, Local(i)))
  {
    PassReaches(s.device, i);
    assert Calling(s.device) ==> Firmware.Pass(s.device, i) == s.device;
  }

  lemma EventKeepsOk(s: System, e: Event)
    requires SystemOk(s) && Can(s, e)
    ensures SystemOk(Do(s, e))
  {
    match e {
      case Other(op) => ServerKeepsOk(s, op);
      case GrantChallenge(n, dir, c, user, target) =>
        ChallengeGrantHolds(s, n, dir, c, user, target);
        GrantKeepsOk(s, Calls.ChallengeOp(c, user, target), n, ChallengeReply(c));
      case GrantAuthentication(n, dir, c, rid) =>
        AuthenticationGrantHolds(s, n, dir, c, rid);
        GrantKeepsOk(s, Calls.CompleteOp(c, rid), n, Firmware.CompleteBody(true));
      case GrantSignature(n, dir, c, rid, signatureId, algorithm) =>
        SignatureGrantHolds(s, n, dir, c, rid);
        GrantKeepsOk(s, Calls.SignOp(c, rid), n, Firmware.SignBody(true, signatureId, algorithm));
      case Send(n) =>
      case Local(i) => LocalKeepsOk(s, i);
      case Receive(i) => ReceiveKeepsOk(s, i);
    }
  }

  ghost predicate Run(systems: seq<System>, events: seq<Event>) {
    && |systems| == |events| + 1
    && Empty(systems[0].db) && systems[0].device.state == Firmware.Idle
    && systems[0].waiting.None? && systems[0].calls == map[] && systems[0].replies == {}
    && forall i | 0 <= i < |events| :: Can(systems[i], events[i]) && systems[i + 1] == Do(systems[i], events[i])
  }

  lemma {:induction false} RunKeepsOk(systems: seq<System>, events: seq<Event>, n: nat)
    requires Run(systems, events) && n < |systems|
    ensures SystemOk(systems[n])
  {
    if n > 0 {
      RunKeepsOk(systems, events, n - 1);
      assert Can(systems[n - 1], events[n - 1]) && systems[n - 1 + 1] == Do(systems[n - 1], events[n - 1]);
      EventKeepsOk(systems[n - 1], events[n - 1]);
    }
  }

  /** In every run, over any loss, delay or duplication: a device that waits for a finger has
      a session bound to its assignment, one that signs has a verified session, and one that
      announces success has a committed SIGNED request for its assignment and session. */
  lemma BeliefsAreAlwaysTrue(systems: seq<System>, events: seq<Event>, n: nat)
    requires Run(systems, events) && n < |systems|
    ensures BeliefsHold(systems[n].db, systems[n].me, systems[n].device)
  {
    RunKeepsOk(systems, events, n);
  }

  /** What a device learned stays true after any further transactions, its own late retries
      and failure reports among them. */
  lemma {:induction false} KnowledgeSurvives(db: Db, ops: seq<Op>, db': Db, me: Id, session: string, t: Assignment)
    requires Serial(db, ops, db')
    ensures KnowsSession(db, me, session, t) ==> KnowsSession(db', me, session, t)
    ensures KnowsVerified(db, me, session, t) ==> KnowsVerified(db', me, session, t)
    ensures KnowsSigned(db, me, session, t) ==> KnowsSigned(db', me, session, t)
    decreases |ops|
  {
    if ops != [] {
      KnowledgeIsStable(db, ops[0], me, session, t);
      KnowledgeSurvives(Apply(db, ops[0]), ops[1..], db', me, session, t);
    }
  }
}
