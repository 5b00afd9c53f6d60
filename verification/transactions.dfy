/** Transactions as they interleave: row locks held to commit, the per-device advisory lock,
    SKIP LOCKED selections, rollback at any point.

    A transaction reads committed rows when it locks them and publishes its writes when it
    commits. The main result is that every interleaving commits the same databases as some
    sequence of the atomic transactions of `Protocol`. */
module Transactions {
  import opened Records
  import opened RequestService
  import opened Protocol

  datatype Lock =
    | RequestRow(id: Id)
    | SessionRow(id: Id)
    | SignatureRow(id: Id)
    | DocumentRow(id: Id)
    | DeviceQueue(key: nat)

  /** The advisory key keeps the low 63 bits of the device's UUID. */
  function LockKey(device: Id): nat {
    device % 0x8000_0000_0000_0000
  }

  /** Locks a transaction holds when it commits `op`; a row it inserts counts as locked. */
  ghost function Footprint(op: Op): iset<Lock> {
    match op
    case View(_, _) => iset{}
    case Create(id, _, document, _, _, _, _) => iset{RequestRow(id), DocumentRow(document)}
    case Claim(device, _, expired, picked) =>
      iset{DeviceQueue(LockKey(device))}
      + (iset l: Lock | l.RequestRow? && (l.id in expired || picked == Some(l.id)))
    case Challenge(sid, _, _, _, _, _, _, target, _) =>
      iset{SessionRow(sid)} + (iset l: Lock | l.RequestRow? && target == Some(l.id))
    case Complete(sid, rid, _, _, _) => iset{SessionRow(sid), RequestRow(rid)}
    case Sign(gid, sid, rid, _, _, _, _) => iset{SignatureRow(gid), SessionRow(sid), RequestRow(rid)}
    case Report(rid, _, _, _) => iset{RequestRow(rid)}
    case FailSession(_, rid, _, _) => iset{RequestRow(rid)}
    case Poll(rid, _, _) => iset{RequestRow(rid)}
  }

  /** The rows a transaction publishes when it commits. */
  datatype Writes = Writes(requests: Rows, sessions: map<Id, Session>, signatures: map<Id, Signature>)

  function RequestWrite(rid: Id, r: Request): Writes {
    Writes(map[rid := r], map[], map[])
  }

  /** The rows the handler computed from the rows it locked. */
  function WritesOf(db: Db, op: Op): Writes
    requires Guard(db, op)
  {
    match op
    case View(_, _) => Writes(map[], map[], map[])
    case Create(id, web, document, device, startedAt, consentedAt, now) =>
      RequestWrite(id, NewRequest(web, db.webUsers[web], device, document, db.documents[document].documentHash,
                                  consentedAt, CONSENT_VERSION, startedAt, now))
    case Claim(device, now, expired, picked) =>
      Writes(ClaimWrites(ExpiredRows(db.requests, expired, now), db.requests, now, picked), map[], map[])
    case Challenge(sid, _, _, _, document, _, _, target, attachedAt) =>
      Writes(if target.Some? then map[target.value := Attach(db.requests[target.value], sid, attachedAt)] else map[],
             map[sid := NewSession(op, db.documents[document].documentHash)], map[])
    case Complete(sid, rid, verifiedAt, _, markedAt) =>
      Writes(map[rid := MarkAuthenticated(db.requests[rid], markedAt)],
             map[sid := db.sessions[sid].(verifiedAt := Some(verifiedAt))], map[])
    case Sign(gid, sid, rid, authorizedAt, freshAt, markedAt, usedAt) =>
      var g := NewSignature(db.sessions[sid], sid, authorizedAt, freshAt);
      Writes(map[rid := MarkSigned(db.requests[rid], sid, gid, g, markedAt)],
             map[sid := db.sessions[sid].(usedAt := Some(usedAt))], map[gid := g])
    case Report(rid, _, detail, now) => RequestWrite(rid, MarkFailed(db.requests[rid], detail, now))
    case FailSession(_, rid, detail, now) => RequestWrite(rid, MarkFailedBySession(db.requests[rid], detail, now))
    case Poll(rid, _, now) => RequestWrite(rid, AfterExpiry(db.requests[rid], now))
  }

  function ExpiredRows(rows: Rows, ids: set<Id>, now: Time): Rows {
    map id | id in ids && id in rows :: Expire(rows[id], now)
  }

  function ClaimWrites(expired: Rows, rows: Rows, now: Time, picked: Option<Id>): Rows {
    if picked.Some? && picked.value in rows && picked.value !in expired
    then expired[picked.value := RequestService.Claim(rows[picked.value], now)]
    else expired
  }

  function Publish(db: Db, writes: Writes): Db {
    db.(requests := db.requests + writes.requests,
        sessions := db.sessions + writes.sessions,
        signatures := db.signatures + writes.signatures)
  }

  /** The last clock reading that ends up in a row. */
  function LastReading(op: Op): Time {
    match op
    case View(_, _) => 0
    case Create(_, _, _, _, _, _, now) => now
    case Claim(_, now, _, _) => now
    case Challenge(_, _, _, _, _, _, _, _, attachedAt) => attachedAt
    case Complete(_, _, _, _, markedAt) => markedAt
    case Sign(_, _, _, _, _, _, usedAt) => usedAt
    case Report(_, _, _, now) => now
    case FailSession(_, _, _, now) => now
    case Poll(_, _, now) => now
  }

  /** The first clock reading taken after the locks of the handler were granted. */
  function FirstLockedReading(op: Op): Option<Time> {
    match op
    case Complete(_, _, _, checkedAt, _) => Some(checkedAt)
    case Sign(_, _, _, authorizedAt, _, _, _) => Some(authorizedAt)
    case Report(_, _, _, now) => Some(now)
    case FailSession(_, _, _, now) => Some(now)
    case Poll(_, _, now) => Some(now)
    case _ => None
  }

  /** How far a transaction has got. A working one last locked a request row at `since`; the
      others carry the clock readings they have taken. */
  datatype Txn =
    | Working(since: Time)
    | ChallengeStarted(now: Time)
    | ChallengeRead(now: Time, attachedAt: Time)
    | ClaimStarted(device: Id, now: Time)
    | ClaimQueued(device: Id, now: Time)
    | ClaimExpired(device: Id, now: Time, rows: Rows)
    | ClaimFree(device: Id, now: Time, rows: Rows)
    | CreateStarted(web: Id, document: Id, startedAt: Time)
    | CreateLocked(web: Id, document: Id, startedAt: Time)
    | CreateChecked(web: Id, document: Id, startedAt: Time, user: Id, documentHash: string)
    | Staged(op: Op, writes: Writes)

  datatype World = World(db: Db, clock: Time, txns: map<Id, Txn>, locks: map<Lock, Id>)

  ghost function Held(locks: map<Lock, Id>, tx: Id): iset<Lock> {
    iset l | l in locks && locks[l] == tx
  }

  /** Rows some other transaction has locked, which SKIP LOCKED passes over. */
  function LockedElsewhere(w: World, tx: Id): set<Id> {
    set l | l in w.locks && l.RequestRow? && w.locks[l] != tx :: l.id
  }

  predicate Free(w: World, tx: Id, l: Lock) {
    l in w.locks ==> w.locks[l] == tx
  }

  function LockRows(locks: map<Lock, Id>, tx: Id, ids: set<Id>): map<Lock, Id> {
    locks + map id | id in ids :: RequestRow(id) := tx
  }

  function Release(locks: map<Lock, Id>, tx: Id): map<Lock, Id> {
    map l | l in locks && locks[l] != tx :: locks[l]
  }

  datatype Step =
    | Tick(now: Time)
    | Look(web: Id, document: Id)
    | Begin(tx: Id)
    | Acquire(tx: Id, row: Lock)
    | StartChallenge(tx: Id)
    | ReadClock(tx: Id)
    | StartClaim(tx: Id, device: Id)
    | QueueClaim(tx: Id)
    | ExpireClaim(tx: Id)
    | FindBusy(tx: Id, busy: Id)
    | FindFree(tx: Id)
    | Pick(tx: Id, picked: Option<Id>)
    | StartCreate(tx: Id, web: Id, document: Id)
    | LockDocument(tx: Id)
    | CheckCreate(tx: Id)
    | InsertRequest(tx: Id, id: Id, device: Id, consentedAt: Time, now: Time)
    | Stage(tx: Id, op: Op)
    | Commit(tx: Id)
    | Rollback(tx: Id)

  /** Transactions that lock the rows they need one at a time. */
  predicate Locking(t: Txn) {
    t.Working? || t.ChallengeStarted? || t.ChallengeRead?
  }

  /** The readings in `op` are readings the transaction can have taken: between its last row
      lock and now, or, for a challenge, the two it recorded. */
  predicate ReadingsTaken(t: Txn, op: Op, clock: Time) {
    match t
    case Working(since) =>
      && !op.Challenge? && LastReading(op) <= clock
      && (FirstLockedReading(op).Some? ==> since <= FirstLockedReading(op).value)
    case ChallengeRead(now, attachedAt) => op.Challenge? && op.now == now && op.attachedAt == attachedAt
    case _ => false
  }

  /** Whether the step can happen; a statement that waits for a lock happens once it is
      granted. Other transactions may take any steps, and the clock may advance, between any
      two steps of one transaction; a handler's writes are staged when it has computed them all. */
  ghost predicate Can(w: World, step: Step) {
    match step
    case Tick(now) => w.clock <= now
    case Look(web, document) => Enabled(w.db, View(web, document))
    case Begin(tx) => tx !in w.txns
    case Acquire(tx, row) =>
      tx in w.txns && Locking(w.txns[tx]) && !row.DeviceQueue? && !row.DocumentRow? && Free(w, tx, row)
    case StartChallenge(tx) => tx !in w.txns
    case ReadClock(tx) => tx in w.txns && w.txns[tx].ChallengeStarted?
    case StartClaim(tx, device) => tx !in w.txns
    case QueueClaim(tx) =>
      tx in w.txns && w.txns[tx].ClaimStarted? && Free(w, tx, DeviceQueue(LockKey(w.txns[tx].device)))
    case ExpireClaim(tx) => tx in w.txns && w.txns[tx].ClaimQueued?
    case FindBusy(tx, busy) =>
      && tx in w.txns && w.txns[tx].ClaimExpired?
      && busy in InFlight(w.db.requests, w.txns[tx].device) - w.txns[tx].rows.Keys && Free(w, tx, RequestRow(busy))
    case FindFree(tx) =>
      tx in w.txns && w.txns[tx].ClaimExpired? && InFlight(w.db.requests, w.txns[tx].device) <= w.txns[tx].rows.Keys
    case Pick(tx, picked) =>
      && tx in w.txns && w.txns[tx].ClaimFree?
      && var ids := Claimable(w.db.requests, w.txns[tx].device, w.txns[tx].now, LockedElsewhere(w, tx));
      && if picked.None? then ids == {} else IsFirst(w.db.requests, ids, picked.value)
    case StartCreate(tx, web, document) => tx !in w.txns
    case LockDocument(tx) =>
      tx in w.txns && w.txns[tx].CreateStarted? && Free(w, tx, DocumentRow(w.txns[tx].document))
    case CheckCreate(tx) =>
      && tx in w.txns && w.txns[tx].CreateLocked?
      && var t := w.txns[tx];
      && t.web in w.db.webUsers && t.document in w.db.documents
      && w.db.documents[t.document].owner == Some(w.db.webUsers[t.web])
      && (t.web, t.document) in w.db.viewed
      && NoOpenRequest(w.db.requests, w.db.webUsers[t.web], t.document)
    case InsertRequest(tx, id, device, consentedAt, now) =>
      && tx in w.txns && w.txns[tx].CreateChecked?
      && id !in w.db.requests && Free(w, tx, RequestRow(id))
      && w.txns[tx].startedAt <= consentedAt <= now <= w.clock
    case Stage(tx, op) =>
      && tx in w.txns && !op.View? && !op.Claim? && !op.Create?
      && Guard(w.db, op) && Footprint(op) <= Held(w.locks, tx)
      && ReadingsTaken(w.txns[tx], op, w.clock)
    case Commit(tx) => tx in w.txns && w.txns[tx].Staged?
    case Rollback(tx) => tx in w.txns
  }

  /** Locking a request row anew makes `since` now. */
  function AfterLock(w: World, tx: Id, row: Lock): Txn
    requires tx in w.txns
  {
    if w.txns[tx].Working? && row.RequestRow? && row !in w.locks then Working(w.clock) else w.txns[tx]
  }

  ghost function Do(w: World, step: Step): World
    requires Can(w, step)
  {
    match step
    case Tick(now) => w.(clock := now)
    case Look(web, document) => w.(db := Apply(w.db, View(web, document)))
    case Begin(tx) => w.(txns := w.txns[tx := Working(w.clock)])
    case Acquire(tx, row) =>
      w.(txns := w.txns[tx := AfterLock(w, tx, row)], locks := w.locks[row := tx])
    case StartChallenge(tx) => w.(txns := w.txns[tx := ChallengeStarted(w.clock)])
    case ReadClock(tx) => w.(txns := w.txns[tx := ChallengeRead(w.txns[tx].now, w.clock)])
    case StartClaim(tx, device) => w.(txns := w.txns[tx := ClaimStarted(device, w.clock)])
    case QueueClaim(tx) =>
      var t := w.txns[tx];
      w.(txns := w.txns[tx := ClaimQueued(t.device, t.now)],
         locks := w.locks[DeviceQueue(LockKey(t.device)) := tx])
    case ExpireClaim(tx) =>
      var t := w.txns[tx];
      var due := DueRows(w.db.requests, Some(t.device), t.now, LockedElsewhere(w, tx));
      w.(txns := w.txns[tx := ClaimExpired(t.device, t.now, ExpiredRows(w.db.requests, due, t.now))],
         locks := LockRows(w.locks, tx, due))
    case FindBusy(tx, busy) =>
      var t := w.txns[tx];
      var op := Claim(t.device, t.now, t.rows.Keys, None);
      w.(txns := w.txns[tx := Staged(op, Writes(t.rows, map[], map[]))],
         locks := w.locks[RequestRow(busy) := tx])
    case FindFree(tx) =>
      var t := w.txns[tx];
      w.(txns := w.txns[tx := ClaimFree(t.device, t.now, t.rows)])
    case Pick(tx, picked) =>
      var t := w.txns[tx];
      var op := Claim(t.device, t.now, t.rows.Keys, picked);
      w.(txns := w.txns[tx := Staged(op, Writes(ClaimWrites(t.rows, w.db.requests, t.now, picked), map[], map[]))],
         locks := if picked.Some? then w.locks[RequestRow(picked.value) := tx] else w.locks)
    case StartCreate(tx, web, document) => w.(txns := w.txns[tx := CreateStarted(web, document, w.clock)])
    case LockDocument(tx) =>
      var t := w.txns[tx];
      w.(txns := w.txns[tx := CreateLocked(t.web, t.document, t.startedAt)],
         locks := w.locks[DocumentRow(t.document) := tx])
    case CheckCreate(tx) =>
      var t := w.txns[tx];
      w.(txns := w.txns[tx := CreateChecked(t.web, t.document, t.startedAt,
                                            w.db.webUsers[t.web], w.db.documents[t.document].documentHash)])
    case InsertRequest(tx, id, device, consentedAt, now) =>
      var t := w.txns[tx];
      var r := NewRequest(
        t.web, t.user, device, t.document, t.documentHash, consentedAt, CONSENT_VERSION, t.startedAt, now);
      w.(txns := w.txns[tx :=
           Staged(Create(id, t.web, t.document, device, t.startedAt, consentedAt, now), RequestWrite(id, r))],
         locks := w.locks[RequestRow(id) := tx])
    case Stage(tx, op) => w.(txns := w.txns[tx := Staged(op, WritesOf(w.db, op))])
    case Commit(tx) =>
      w.(db := Publish(w.db, w.txns[tx].writes), txns := w.txns - {tx}, locks := Release(w.locks, tx))
    case Rollback(tx) => w.(txns := w.txns - {tx}, locks := Release(w.locks, tx))
  }

  // ---------------------------------------------------------------- frames

  /** Every row whose lock is in `kept` is the same in both databases. */
  ghost predicate Keeps(db: Db, db': Db, kept: iset<Lock>) {
    && db'.documents == db.documents && db'.webUsers == db.webUsers && db.viewed <= db'.viewed
    && (forall id :: RequestRow(id) in kept ==>
          (id in db'.requests <==> id in db.requests) && (id in db.requests ==> db'.requests[id] == db.requests[id]))
    && (forall id :: SessionRow(id) in kept ==>
          (id in db'.sessions <==> id in db.sessions) && (id in db.sessions ==> db'.sessions[id] == db.sessions[id]))
    && (forall id :: SignatureRow(id) in kept ==> (id in db'.signatures <==> id in db.signatures))
  }

  /** A commit leaves every row outside its footprint as it was. */
  lemma CommitFrames(db: Db, op: Op, kept: iset<Lock>)
    requires Enabled(db, op) && Footprint(op) !! kept
    ensures Keeps(db, Apply(db, op), kept)
  {
  }

  /** Only a claim under the device's advisory lock adds to the device's in-flight rows. */
  lemma InFlightGrowsOnlyByClaim(db: Db, op: Op, device: Id)
    requires Enabled(db, op) && DeviceQueue(LockKey(device)) !in Footprint(op)
    ensures InFlight(Apply(db, op).requests, device) <= InFlight(db.requests, device)
  {
    var rows' := Apply(db, op).requests;
    forall id | id in InFlight(rows', device) ensures id in InFlight(db.requests, device) {
      assert op.Claim? ==> op.device != device;
    }
  }

  /** Only a creation under the document's row lock adds an open request for the document. */
  lemma OpenGrowsOnlyByCreate(db: Db, op: Op, user: Id, document: Id)
    requires Enabled(db, op) && DocumentRow(document) !in Footprint(op)
    requires NoOpenRequest(db.requests, user, document)
    ensures NoOpenRequest(Apply(db, op).requests, user, document)
  {
  }

  // ---------------------------------------------------------------- invariant

  /** What a transaction in flight may rely on until it commits. */
  ghost predicate TxnOk(db: Db, clock: Time, held: iset<Lock>, t: Txn) {
    match t
    case Working(since) =>
      since <= clock && forall id | id in db.requests && RequestRow(id) in held :: Timely(db.requests[id], since)
    case ChallengeStarted(now) => now <= clock
    case ChallengeRead(now, attachedAt) => now <= attachedAt <= clock
    case ClaimStarted(_, now) => now <= clock
    case ClaimQueued(device, now) => DeviceQueue(LockKey(device)) in held && now <= clock
    case ClaimExpired(device, now, rows) =>
      StagedOk(db, clock, held, Claim(device, now, rows.Keys, None), Writes(rows, map[], map[]))
    case ClaimFree(device, now, rows) =>
      && StagedOk(db, clock, held, Claim(device, now, rows.Keys, None), Writes(rows, map[], map[]))
      && InFlight(db.requests, device) <= rows.Keys
    case CreateStarted(_, _, startedAt) => startedAt <= clock
    case CreateLocked(_, document, startedAt) => DocumentRow(document) in held && startedAt <= clock
    case CreateChecked(web, document, startedAt, user, documentHash) =>
      && DocumentRow(document) in held && startedAt <= clock
      && web in db.webUsers && document in db.documents
      && db.documents[document].owner == Some(db.webUsers[web])
      && (web, document) in db.viewed
      && NoOpenRequest(db.requests, db.webUsers[web], document)
      && user == db.webUsers[web] && documentHash == db.documents[document].documentHash
    case Staged(op, writes) => StagedOk(db, clock, held, op, writes)
  }

  /** The guards the transaction passed still hold, and the rows it computed are the rows
      it would compute now. */
  ghost predicate StagedOk(db: Db, clock: Time, held: iset<Lock>, op: Op, writes: Writes) {
    && !op.View?
    && Footprint(op) <= held && Enabled(db, op) && LastReading(op) <= clock && writes == WritesOf(db, op)
  }

  ghost predicate WorldInv(w: World) {
    && Inv(w.db)
    && Stamped(w.db.requests, w.clock)
    && (forall tx | tx in w.txns :: TxnOk(w.db, w.clock, Held(w.locks, tx), w.txns[tx]))
    && (forall l | l in w.locks :: w.locks[l] in w.txns)
  }

  lemma TxnOkMonotone(db: Db, clock: Time, clock': Time, held: iset<Lock>, held': iset<Lock>, t: Txn)
    requires TxnOk(db, clock, held, t) && clock <= clock' && held == held'
    ensures TxnOk(db, clock', held', t)
  {
  }

  /** A staged transaction stays enabled while the rows it locked keep, and while nothing
      it tested the absence of appears. */
  lemma KeptStaysEnabled(db: Db, db': Db, mine: Op)
    requires Enabled(db, mine) && Keeps(db, db', Footprint(mine))
    requires mine.Create? ==> NoOpenRequest(db'.requests, db.webUsers[mine.web], mine.document)
    requires mine.Claim? ==> InFlight(db'.requests, mine.device) <= InFlight(db.requests, mine.device)
    ensures Enabled(db', mine)
  {
    match mine {
      case Claim(_, _, expired, picked) =>
        forall id | id in expired ensures id in db'.requests && db'.requests[id] == db.requests[id] {
          assert RequestRow(id) in Footprint(mine);
        }
        assert picked.Some? ==> RequestRow(picked.value) in Footprint(mine);
      case Challenge(sid, _, _, _, _, _, _, target, _) =>
        assert SessionRow(sid) in Footprint(mine);
        assert target.Some? ==> RequestRow(target.value) in Footprint(mine);
      case _ =>
    }
  }

  lemma KeptKeepsWrites(db: Db, db': Db, mine: Op)
    requires Guard(db, mine) && Guard(db', mine) && Keeps(db, db', Footprint(mine))
    ensures WritesOf(db', mine) == WritesOf(db, mine)
  {
    match mine {
      case Claim(_, now, expired, picked) =>
        forall id | id in expired ensures db'.requests[id] == db.requests[id] {
          assert RequestRow(id) in Footprint(mine);
        }
        assert ExpiredRows(db'.requests, expired, now) == ExpiredRows(db.requests, expired, now);
        assert picked.Some? ==> RequestRow(picked.value) in Footprint(mine);
      case Challenge(_, _, _, _, _, _, _, target, _) =>
        assert target.Some? ==> RequestRow(target.value) in Footprint(mine);
      case _ =>
    }
  }

  lemma StagedSurvives(db: Db, op: Op, clock: Time, held: iset<Lock>, mine: Op, writes: Writes)
    requires Enabled(db, op) && Footprint(op) !! held
    requires StagedOk(db, clock, held, mine, writes)
    ensures StagedOk(Apply(db, op), clock, held, mine, writes)
  {
    CommitFrames(db, op, Footprint(mine));
    if mine.Create? {
      assert DocumentRow(mine.document) in Footprint(mine);
      OpenGrowsOnlyByCreate(db, op, db.webUsers[mine.web], mine.document);
    } else if mine.Claim? {
      assert DeviceQueue(LockKey(mine.device)) in Footprint(mine);
      InFlightGrowsOnlyByClaim(db, op, mine.device);
    }
    KeptStaysEnabled(db, Apply(db, op), mine);
    KeptKeepsWrites(db, Apply(db, op), mine);
  }

  lemma TxnSurvives(db: Db, op: Op, clock: Time, held: iset<Lock>, t: Txn)
    requires Enabled(db, op) && Footprint(op) !! held
    requires TxnOk(db, clock, held, t)
    ensures TxnOk(Apply(db, op), clock, held, t)
  {
    CommitFrames(db, op, held);
    match t {
      case ClaimExpired(device, now, rows) =>
        StagedSurvives(db, op, clock, held, Claim(device, now, rows.Keys, None), Writes(rows, map[], map[]));
      case ClaimFree(device, now, rows) =>
        StagedSurvives(db, op, clock, held, Claim(device, now, rows.Keys, None), Writes(rows, map[], map[]));
        assert DeviceQueue(LockKey(device)) in Footprint(Claim(device, now, rows.Keys, None));
        InFlightGrowsOnlyByClaim(db, op, device);
      case CreateChecked(web, document, _, _, _) => OpenGrowsOnlyByCreate(db, op, db.webUsers[web], document);
      case Staged(mine, writes) => StagedSurvives(db, op, clock, held, mine, writes);
      case _ =>
    }
  }

  /** Publishing the rows computed under the locks is applying the transaction atomically. */
  lemma PublishIsApply(db: Db, op: Op)
    requires Guard(db, op) && !op.View?
    ensures Publish(db, WritesOf(db, op)) == Apply(db, op)
  {
    OverwriteNone(db.requests);
    OverwriteNone(db.sessions);
    OverwriteNone(db.signatures);
    match op {
      case Create(id, _, _, _, _, _, _) => OverwriteOne(db.requests, id, WritesOf(db, op).requests[id]);
      case Claim(_, now, expired, picked) => ClaimPublishes(db.requests, now, expired, picked);
      case Challenge(sid, _, _, _, _, _, _, target, _) =>
        OverwriteOne(db.sessions, sid, WritesOf(db, op).sessions[sid]);
        if target.Some? {
          OverwriteOne(db.requests, target.value, WritesOf(db, op).requests[target.value]);
        }
      case Complete(sid, rid, _, _, _) =>
        OverwriteOne(db.sessions, sid, WritesOf(db, op).sessions[sid]);
        OverwriteOne(db.requests, rid, WritesOf(db, op).requests[rid]);
      case Sign(gid, sid, rid, _, _, _, _) =>
        OverwriteOne(db.signatures, gid, WritesOf(db, op).signatures[gid]);
        OverwriteOne(db.sessions, sid, WritesOf(db, op).sessions[sid]);
        OverwriteOne(db.requests, rid, WritesOf(db, op).requests[rid]);
      case Report(rid, _, _, _) => OverwriteOne(db.requests, rid, WritesOf(db, op).requests[rid]);
      case FailSession(_, rid, _, _) => OverwriteOne(db.requests, rid, WritesOf(db, op).requests[rid]);
      case Poll(rid, _, _) => OverwriteOne(db.requests, rid, WritesOf(db, op).requests[rid]);
      case View(_, _) =>
    }
  }

  lemma OverwriteNone<V>(m: map<Id, V>)
    ensures m + map[] == m
  {
  }

  lemma OverwriteOne<V>(m: map<Id, V>, k: Id, v: V)
    ensures m + map[k := v] == m[k := v]
  {
  }

  lemma ClaimPublishes(rows: Rows, now: Time, expired: set<Id>, picked: Option<Id>)
    requires expired <= rows.Keys && (picked.Some? ==> picked.value in rows && picked.value !in expired)
    ensures rows + ClaimWrites(ExpiredRows(rows, expired, now), rows, now, picked)
      == ClaimRows(rows, now, expired, picked)
  {
  }

  lemma CommitKeepsStamps(db: Db, op: Op, clock: Time)
    requires Enabled(db, op) && Stamped(db.requests, clock) && LastReading(op) <= clock
    ensures Stamped(Apply(db, op).requests, clock)
  {
    var rows, rows' := db.requests, Apply(db, op).requests;
    match op {
      case View(_, _) =>
      case Create(_, _, _, _, _, _, _) =>
      case Claim(_, now, expired, picked) =>
        forall id | id in rows' ensures Timely(rows'[id], clock) {
          assert Timely(rows[id], clock);
        }
      case Challenge(sid, _, _, _, _, _, _, target, attachedAt) =>
        if target.Some? {
          assert Timely(Attach(rows[target.value], sid, attachedAt), clock);
        }
      case Complete(_, rid, _, _, markedAt) => assert Timely(MarkAuthenticated(rows[rid], markedAt), clock);
      case Sign(gid, sid, rid, authorizedAt, freshAt, markedAt, _) =>
        assert Timely(
          MarkSigned(rows[rid], sid, gid, NewSignature(db.sessions[sid], sid, authorizedAt, freshAt), markedAt), clock);
      case Report(rid, _, detail, now) => assert Timely(MarkFailed(rows[rid], detail, now), clock);
      case FailSession(_, rid, detail, now) => assert Timely(MarkFailedBySession(rows[rid], detail, now), clock);
      case Poll(rid, _, now) => assert Timely(AfterExpiry(rows[rid], now), clock);
    }
  }

  // ---------------------------------------------------------------- steps

  /** A step of one transaction that publishes nothing. */
  lemma AdvanceKeepsInv(w: World, w': World, tx: Id)
    requires WorldInv(w)
    requires w'.db == w.db && w.clock <= w'.clock && tx in w'.txns && w'.txns == w.txns[tx := w'.txns[tx]]
    requires forall l | l in w'.locks :: w'.locks[l] == tx || (l in w.locks && w'.locks[l] == w.locks[l])
    requires forall l | l in w.locks && w.locks[l] != tx :: l in w'.locks && w'.locks[l] == w.locks[l]
    requires TxnOk(w'.db, w'.clock, Held(w'.locks, tx), w'.txns[tx])
    ensures WorldInv(w')
  {
    forall k | k in w'.txns ensures TxnOk(w'.db, w'.clock, Held(w'.locks, k), w'.txns[k]) {
      if k != tx {
        assert Held(w.locks, k) == Held(w'.locks, k);
        TxnOkMonotone(w.db, w.clock, w'.clock, Held(w.locks, k), Held(w'.locks, k), w.txns[k]);
      }
    }
    forall id | id in w'.db.requests ensures Timely(w'.db.requests[id], w'.clock) {
      assert Timely(w.db.requests[id], w.clock);
    }
  }

  /** SKIP LOCKED: what a statement does not pass over, no other transaction holds. */
  lemma LockedRowsAreElsewhere(w: World, tx: Id)
    ensures forall id :: RequestRow(id) in w.locks && w.locks[RequestRow(id)] != tx ==> id in LockedElsewhere(w, tx)
  {
    forall id | RequestRow(id) in w.locks && w.locks[RequestRow(id)] != tx ensures id in LockedElsewhere(w, tx) {
      assert RequestRow(id).id == id;
    }
  }

  /** The poll's statements up to the in-flight test. */
  lemma ClaimStepsKeepInv(w: World, step: Step)
    requires WorldInv(w) && Can(w, step)
    requires step.QueueClaim? || step.FindBusy? || step.FindFree?
    ensures WorldInv(Do(w, step))
  {
    var w' := Do(w, step);
    var tx := step.tx;
    assert TxnOk(w.db, w.clock, Held(w.locks, tx), w.txns[tx]);
    if step.FindBusy? {
      assert Held(w.locks, tx) <= Held(w'.locks, tx);
    }
    AdvanceKeepsInv(w, w', tx);
  }

  lemma ExpireStepKeepsInv(w: World, step: Step)
    requires WorldInv(w) && Can(w, step) && step.ExpireClaim?
    ensures WorldInv(Do(w, step))
  {
    var w' := Do(w, step);
    var tx := step.tx;
    var t := w.txns[tx];
    assert TxnOk(w.db, w.clock, Held(w.locks, tx), t);
    LockedRowsAreElsewhere(w, tx);
    var due := DueRows(w.db.requests, Some(t.device), t.now, LockedElsewhere(w, tx));
    LockRowsLocks(w.locks, tx, due, DeviceQueue(LockKey(t.device)));
    ExpiryIsStaged(w.db, w.clock, Held(w'.locks, tx), t.device, t.now, due);
    AdvanceKeepsInv(w, w', tx);
  }

  lemma LockRowsLocks(locks: map<Lock, Id>, tx: Id, ids: set<Id>, queue: Lock)
    requires queue in Held(locks, tx) && !queue.RequestRow?
    ensures var held := Held(LockRows(locks, tx, ids), tx);
      queue in held && forall id | id in ids :: RequestRow(id) in held
    ensures forall l | l in LockRows(locks, tx, ids) ::
      LockRows(locks, tx, ids)[l] == tx || (l in locks && LockRows(locks, tx, ids)[l] == locks[l])
    ensures forall l | l in locks && !(l.RequestRow? && l.id in ids) ::
      l in LockRows(locks, tx, ids) && LockRows(locks, tx, ids)[l] == locks[l]
  {
  }

  lemma ExpiryIsStaged(db: Db, clock: Time, held: iset<Lock>, device: Id, now: Time, due: set<Id>)
    requires DeviceQueue(LockKey(device)) in held && now <= clock
    requires forall id | id in due :: RequestRow(id) in held
    requires forall id | id in due :: id in db.requests && db.requests[id].device == device && Due(db.requests[id], now)
    ensures var rows := ExpiredRows(db.requests, due, now);
      StagedOk(db, clock, held, Claim(device, now, rows.Keys, None), Writes(rows, map[], map[]))
  {
    var rows := ExpiredRows(db.requests, due, now);
    assert rows.Keys == due;
    assert Footprint(Claim(device, now, due, None)) <= held;
  }

  lemma PickIsStaged(db: Db, clock: Time, held: iset<Lock>, held': iset<Lock>, t: Txn, picked: Option<Id>)
    requires t.ClaimFree? && TxnOk(db, clock, held, t) && held <= held'
    requires picked.Some? ==> RequestRow(picked.value) in held'
    requires picked.Some? ==> picked.value in db.requests && Waiting(db.requests[picked.value], t.device, t.now)
    ensures StagedOk(db, clock, held', Claim(t.device, t.now, t.rows.Keys, picked),
                     Writes(ClaimWrites(t.rows, db.requests, t.now, picked), map[], map[]))
  {
    assert Footprint(Claim(t.device, t.now, t.rows.Keys, None)) <= held;
  }

  /** Of two requests waiting for the device when a poll picks, and locked by nobody else, the
      later-created one is not the one claimed. */
  lemma PicksServeTheOldest(w: World, tx: Id, p: Id)
    requires Can(w, Pick(tx, Some(p)))
    ensures tx in w.txns && w.txns[tx].ClaimFree? && p in w.db.requests
    ensures var t, rows := w.txns[tx], w.db.requests;
      && rows[p].device == t.device && rows[p].status == Pending && t.now < rows[p].expiresAt
      && forall y | y in rows && y != p && rows[y].device == t.device && rows[y].status == Pending
                 && t.now < rows[y].expiresAt && (RequestRow(y) in w.locks ==> w.locks[RequestRow(y)] == tx) ::
           rows[p].createdAt < rows[y].createdAt || (rows[p].createdAt == rows[y].createdAt && p < y)
  {
    var t, rows := w.txns[tx], w.db.requests;
    var ids := Claimable(rows, t.device, t.now, LockedElsewhere(w, tx));
    forall y | y in rows && y != p && Waiting(rows[y], t.device, t.now)
            && (RequestRow(y) in w.locks ==> w.locks[RequestRow(y)] == tx)
      ensures rows[p].createdAt < rows[y].createdAt || (rows[p].createdAt == rows[y].createdAt && p < y)
    {
      assert y in ids;
      assert Before(rows, p, y);
    }
  }

  /** A poll that picks nothing found no waiting request that is not locked by somebody else. */
  lemma EmptyPicksFoundNone(w: World, tx: Id, y: Id)
    requires Can(w, Pick(tx, None)) && y in w.db.requests
    requires RequestRow(y) in w.locks ==> w.locks[RequestRow(y)] == tx
    ensures tx in w.txns && w.txns[tx].ClaimFree?
    ensures var r, t := w.db.requests[y], w.txns[tx];
      !(r.device == t.device && r.status == Pending && t.now < r.expiresAt)
  {
    var t := w.txns[tx];
    assert y !in Claimable(w.db.requests, t.device, t.now, LockedElsewhere(w, tx));
  }

  lemma PickKeepsInv(w: World, step: Step)
    requires WorldInv(w) && Can(w, step) && step.Pick?
    ensures WorldInv(Do(w, step))
  {
    var w' := Do(w, step);
    var tx := step.tx;
    var t := w.txns[tx];
    assert TxnOk(w.db, w.clock, Held(w.locks, tx), t);
    LockedRowsAreElsewhere(w, tx);
    PickIsStaged(w.db, w.clock, Held(w.locks, tx), Held(w'.locks, tx), t, step.picked);
    AdvanceKeepsInv(w, w', tx);
  }

  lemma CreateStepsKeepInv(w: World, step: Step)
    requires WorldInv(w) && Can(w, step)
    requires step.LockDocument? || step.CheckCreate? || step.InsertRequest?
    ensures WorldInv(Do(w, step))
  {
    var w' := Do(w, step);
    var tx := step.tx;
    assert TxnOk(w.db, w.clock, Held(w.locks, tx), w.txns[tx]);
    AdvanceKeepsInv(w, w', tx);
  }

  /** Steps that begin a transaction or read the clock. */
  lemma BeginKeepsInv(w: World, step: Step)
    requires WorldInv(w) && Can(w, step)
    requires step.Begin? || step.StartChallenge? || step.ReadClock? || step.StartClaim? || step.StartCreate?
    ensures WorldInv(Do(w, step))
  {
    if step.ReadClock? {
      assert TxnOk(w.db, w.clock, Held(w.locks, step.tx), w.txns[step.tx]);
    } else {
      assert Held(w.locks, step.tx) == iset{};
    }
    AdvanceKeepsInv(w, Do(w, step), step.tx);
  }

  lemma AcquireKeepsInv(w: World, tx: Id, row: Lock)
    requires WorldInv(w) && Can(w, Acquire(tx, row))
    ensures WorldInv(Do(w, Acquire(tx, row)))
  {
    var w' := Do(w, Acquire(tx, row));
    assert TxnOk(w.db, w.clock, Held(w.locks, tx), w.txns[tx]);
    assert Held(w'.locks, tx) == Held(w.locks, tx) + iset{row};
    AdvanceKeepsInv(w, w', tx);
  }

  /** What a handler read after its locks were granted, no stamp in the rows has passed. */
  lemma StagedReadingsFollowTheRows(w: World, tx: Id, op: Op)
    requires WorldInv(w) && Can(w, Stage(tx, op))
    ensures Enabled(w.db, op) && LastReading(op) <= w.clock
  {
    assert TxnOk(w.db, w.clock, Held(w.locks, tx), w.txns[tx]);
    if op.Complete? || op.Sign? || op.Report? || op.FailSession? || op.Poll? {
      assert RequestRow(op.rid) in Footprint(op);
      assert Timely(w.db.requests[op.rid], w.txns[tx].since);
    }
  }

  lemma StageKeepsInv(w: World, tx: Id, op: Op)
    requires WorldInv(w) && Can(w, Stage(tx, op))
    ensures WorldInv(Do(w, Stage(tx, op)))
  {
    StagedReadingsFollowTheRows(w, tx, op);
    AdvanceKeepsInv(w, Do(w, Stage(tx, op)), tx);
  }

  /** A transaction ends; what it held is free again. */
  lemma EndKeepsInv(w: World, tx: Id, db': Db)
    requires WorldInv(w) && tx in w.txns
    requires Inv(db') && Stamped(db'.requests, w.clock)
    requires forall k | k in w.txns && k != tx :: TxnOk(db', w.clock, Held(w.locks, k), w.txns[k])
    ensures WorldInv(w.(db := db', txns := w.txns - {tx}, locks := Release(w.locks, tx)))
  {
    var locks := Release(w.locks, tx);
    forall k | k in w.txns && k != tx ensures Held(locks, k) == Held(w.locks, k) {
    }
  }

  /** A commit is atomic: the guards the transaction passed hold of the database it
      commits to, and what it publishes is the atomic transaction's result. */
  lemma CommitKeepsInv(w: World, tx: Id)
    requires WorldInv(w) && Can(w, Commit(tx))
    ensures Enabled(w.db, w.txns[tx].op)
    ensures Do(w, Commit(tx)).db == Apply(w.db, w.txns[tx].op)
    ensures WorldInv(Do(w, Commit(tx)))
  {
    var op := w.txns[tx].op;
    assert TxnOk(w.db, w.clock, Held(w.locks, tx), w.txns[tx]);
    PublishIsApply(w.db, op);
    ApplyKeepsInv(w.db, op);
    CommitKeepsStamps(w.db, op, w.clock);
    forall k | k in w.txns && k != tx ensures TxnOk(Apply(w.db, op), w.clock, Held(w.locks, k), w.txns[k]) {
      assert Held(w.locks, k) !! Held(w.locks, tx);
      TxnSurvives(w.db, op, w.clock, Held(w.locks, k), w.txns[k]);
    }
    EndKeepsInv(w, tx, Apply(w.db, op));
  }

  lemma LookKeepsInv(w: World, step: Step)
    requires WorldInv(w) && Can(w, step) && step.Look?
    ensures WorldInv(Do(w, step))
  {
    var op := View(step.web, step.document);
    var w' := Do(w, step);
    ApplyKeepsInv(w.db, op);
    forall k | k in w'.txns ensures TxnOk(w'.db, w'.clock, Held(w'.locks, k), w'.txns[k]) {
      TxnSurvives(w.db, op, w.clock, Held(w.locks, k), w.txns[k]);
    }
  }

  lemma TickKeepsInv(w: World, now: Time)
    requires WorldInv(w) && w.clock <= now
    ensures WorldInv(w.(clock := now))
  {
    forall k | k in w.txns ensures TxnOk(w.db, now, Held(w.locks, k), w.txns[k]) {
      TxnOkMonotone(w.db, w.clock, now, Held(w.locks, k), Held(w.locks, k), w.txns[k]);
    }
    forall id | id in w.db.requests ensures Timely(w.db.requests[id], now) {
      assert Timely(w.db.requests[id], w.clock);
    }
  }

  lemma PollKeepsInv(w: World, step: Step)
    requires WorldInv(w) && Can(w, step)
    requires step.QueueClaim? || step.ExpireClaim? || step.FindBusy? || step.FindFree? || step.Pick?
    ensures WorldInv(Do(w, step))
  {
    if step.ExpireClaim? {
      ExpireStepKeepsInv(w, step);
    } else if step.Pick? {
      PickKeepsInv(w, step);
    } else {
      ClaimStepsKeepInv(w, step);
    }
  }

  /** Every step of every transaction keeps the invariant. */
  lemma StepKeepsInv(w: World, step: Step)
    requires WorldInv(w) && Can(w, step)
    ensures WorldInv(Do(w, step))
  {
    if step.Tick? {
      TickKeepsInv(w, step.now);
    } else if step.Look? {
      LookKeepsInv(w, step);
    } else if step.Acquire? {
      AcquireKeepsInv(w, step.tx, step.row);
    } else if step.Stage? {
      StageKeepsInv(w, step.tx, step.op);
    } else if step.Commit? {
      CommitKeepsInv(w, step.tx);
    } else if step.Rollback? {
      EndKeepsInv(w, step.tx, w.db);
    } else if step.LockDocument? || step.CheckCreate? || step.InsertRequest? {
      CreateStepsKeepInv(w, step);
    } else if step.QueueClaim? || step.ExpireClaim? || step.FindBusy? || step.FindFree? || step.Pick? {
      PollKeepsInv(w, step);
    } else {
      BeginKeepsInv(w, step);
    }
  }

  // ---------------------------------------------------------------- executions

  ghost predicate Start(w: World) {
    Empty(w.db) && w.txns == map[] && w.locks == map[]
  }

  /** The worlds an interleaving of steps passes through. */
  ghost predicate Execution(worlds: seq<World>, steps: seq<Step>) {
    && |worlds| == |steps| + 1
    && Start(worlds[0])
    && forall i | 0 <= i < |steps| ::
         && Can(worlds[i], steps[i])
         && worlds[i + 1] == Do(worlds[i], steps[i])
  }

  lemma StartIsOk(w: World)
    requires Start(w)
    ensures WorldInv(w)
  {
  }

  lemma StepOf(worlds: seq<World>, steps: seq<Step>, i: nat)
    requires Execution(worlds, steps) && i < |steps|
    ensures Can(worlds[i], steps[i]) && worlds[i + 1] == Do(worlds[i], steps[i])
  {
  }

  lemma StepReaches(w: World, step: Step, w': World)
    requires WorldInv(w) && Can(w, step) && w' == Do(w, step)
    ensures WorldInv(w')
  {
    StepKeepsInv(w, step);
  }

  lemma {:induction false} ExecutionKeepsInv(worlds: seq<World>, steps: seq<Step>, n: nat)
    requires Execution(worlds, steps) && n < |worlds|
    ensures WorldInv(worlds[n])
  {
    if n == 0 {
      StartIsOk(worlds[0]);
    } else {
      ExecutionKeepsInv(worlds, steps, n - 1);
      StepOf(worlds, steps, n - 1);
      StepReaches(worlds[n - 1], steps[n - 1], worlds[n]);
    }
  }

  /** In every interleaving, every committed database satisfies the protocol's invariant. */
  lemma EveryInterleavingIsSafe(worlds: seq<World>, steps: seq<Step>)
    requires Execution(worlds, steps)
    ensures forall n | 0 <= n < |worlds| :: Inv(worlds[n].db)
  {
    forall n | 0 <= n < |worlds| ensures Inv(worlds[n].db) {
      ExecutionKeepsInv(worlds, steps, n);
    }
  }

  /** The atomic transactions an interleaving commits, in commit order. */
  ghost function Committed(worlds: seq<World>, steps: seq<Step>): seq<Op>
    requires |worlds| == |steps| + 1
    requires forall i | 0 <= i < |steps| :: Can(worlds[i], steps[i])
    decreases |steps|
  {
    if steps == [] then []
    else
      var n := |steps| - 1;
      var before := Committed(worlds[..n + 1], steps[..n]);
      var step := steps[n];
      assert Can(worlds[n], step);
      if step.Commit? then before + [worlds[n].txns[step.tx].op]
      else if step.Look? then before + [View(step.web, step.document)]
      else before
  }

  /** Serializability: an interleaving leaves the database that its committed transactions
      leave when each runs alone, one after the other in commit order. */
  lemma {:induction false} InterleavingsAreSerializable(worlds: seq<World>, steps: seq<Step>)
    requires Execution(worlds, steps)
    ensures Serial(worlds[0].db, Committed(worlds, steps), worlds[|steps|].db)
    decreases |steps|
  {
    if steps != [] {
      var n := |steps| - 1;
      var w := worlds[n];
      ExecutionKeepsInv(worlds, steps, n);
      InterleavingsAreSerializable(worlds[..n + 1], steps[..n]);
      assert worlds[n + 1] == Do(w, steps[n]);
      var ops := Committed(worlds[..n + 1], steps[..n]);
      match steps[n] {
        case Commit(tx) =>
          CommitKeepsInv(w, tx);
          SerialExtends(worlds[0].db, ops, w.db, w.txns[tx].op);
        case Look(web, document) => SerialExtends(worlds[0].db, ops, w.db, View(web, document));
        case _ =>
      }
    }
  }
}
