/** Laws over whole interleavings: which request a poll claims, how long a challenge lasts, and
    that a request keeps the terms it was created with. */
module RunLaws {
  import opened Records
  import opened RequestService
  import opened Protocol
  import opened Transactions
  import opened ClockOrder

  // ---------------------------------------------------------------- challenges

  /** The reading a challenge's session expires from. */
  function OpeningReading(t: Txn): Option<Time> {
    match t
    case ChallengeStarted(now) => Some(now)
    case ChallengeRead(now, _) => Some(now)
    case Staged(op, _) => if op.Challenge? then Some(op.now) else None
    case _ => None
  }

  ghost predicate OpeningTraced(worlds: seq<World>, steps: seq<Step>, n: nat, tx: Id)
    requires n < |worlds| && tx in worlds[n].txns
  {
    var t := OpeningReading(worlds[n].txns[tx]);
    t.Some? ==> exists i :: Reading(worlds, steps, n, tx, StartChallenge(tx), t.value, i)
  }

  lemma {:induction false} OpeningsAreTaken(worlds: seq<World>, steps: seq<Step>, n: nat)
    requires Execution(worlds, steps) && n < |worlds|
    ensures forall tx | tx in worlds[n].txns :: OpeningTraced(worlds, steps, n, tx)
  {
    if n > 0 {
      OpeningsAreTaken(worlds, steps, n - 1);
      StepOf(worlds, steps, n - 1);
      forall tx | tx in worlds[n].txns ensures OpeningTraced(worlds, steps, n, tx) {
        OpeningIsKept(worlds, steps, n - 1, tx);
      }
    }
  }

  lemma OpeningIsKept(worlds: seq<World>, steps: seq<Step>, n: nat, tx: Id)
    requires n + 1 < |worlds| && n < |steps| && tx in worlds[n + 1].txns
    requires Can(worlds[n], steps[n]) && worlds[n + 1] == Do(worlds[n], steps[n])
    requires tx in worlds[n].txns ==> OpeningTraced(worlds, steps, n, tx)
    ensures OpeningTraced(worlds, steps, n + 1, tx)
  {
    var t' := OpeningReading(worlds[n + 1].txns[tx]);
    if t'.Some? {
      if tx in worlds[n].txns && OpeningReading(worlds[n].txns[tx]) == t' {
        var i :| Reading(worlds, steps, n, tx, StartChallenge(tx), t'.value, i);
        assert Reading(worlds, steps, n + 1, tx, StartChallenge(tx), t'.value, i);
      } else {
        OpeningIsFresh(worlds[n], steps[n], tx);
        assert Reading(worlds, steps, n + 1, tx, StartChallenge(tx), t'.value, n);
      }
    }
  }

  lemma OpeningIsFresh(w: World, step: Step, tx: Id)
    requires Can(w, step) && tx in Do(w, step).txns
    requires OpeningReading(Do(w, step).txns[tx]).Some?
    requires tx in w.txns ==> OpeningReading(w.txns[tx]) != OpeningReading(Do(w, step).txns[tx])
    ensures step == StartChallenge(tx) && OpeningReading(Do(w, step).txns[tx]) == Some(w.clock)
  {
  }

  // ---------------------------------------------------------------- picks

  /** Step `i` of the transaction picked request `p`. */
  ghost predicate Picked(worlds: seq<World>, steps: seq<Step>, n: nat, tx: Id, op: Op, i: nat) {
    && i < n < |worlds| && i < |steps| && Alive(worlds, tx, i, n)
    && op.Claim? && steps[i] == Pick(tx, op.picked) && Can(worlds[i], steps[i])
    && worlds[i].txns[tx].device == op.device && worlds[i].txns[tx].now == op.now
  }

  ghost predicate PickTraced(worlds: seq<World>, steps: seq<Step>, n: nat, tx: Id)
    requires n < |worlds| && tx in worlds[n].txns
  {
    var t := worlds[n].txns[tx];
    t.Staged? && t.op.Claim? && t.op.picked.Some? ==> exists i :: Picked(worlds, steps, n, tx, t.op, i)
  }

  lemma {:induction false} PicksAreTaken(worlds: seq<World>, steps: seq<Step>, n: nat)
    requires Execution(worlds, steps) && n < |worlds|
    ensures forall tx | tx in worlds[n].txns :: PickTraced(worlds, steps, n, tx)
  {
    if n > 0 {
      PicksAreTaken(worlds, steps, n - 1);
      StepOf(worlds, steps, n - 1);
      forall tx | tx in worlds[n].txns ensures PickTraced(worlds, steps, n, tx) {
        PickIsKept(worlds, steps, n - 1, tx);
      }
    }
  }

  lemma PickIsKept(worlds: seq<World>, steps: seq<Step>, n: nat, tx: Id)
    requires n + 1 < |worlds| && n < |steps| && tx in worlds[n + 1].txns
    requires Can(worlds[n], steps[n]) && worlds[n + 1] == Do(worlds[n], steps[n])
    requires tx in worlds[n].txns ==> PickTraced(worlds, steps, n, tx)
    ensures PickTraced(worlds, steps, n + 1, tx)
  {
    var t := worlds[n + 1].txns[tx];
    if t.Staged? && t.op.Claim? && t.op.picked.Some? {
      if tx in worlds[n].txns && worlds[n].txns[tx] == t {
        var i :| Picked(worlds, steps, n, tx, t.op, i);
        assert Picked(worlds, steps, n + 1, tx, t.op, i);
      } else {
        PickIsFresh(worlds[n], steps[n], tx);
        assert Picked(worlds, steps, n + 1, tx, t.op, n);
      }
    }
  }

  lemma PickIsFresh(w: World, step: Step, tx: Id)
    requires Can(w, step) && tx in Do(w, step).txns && (tx in w.txns ==> w.txns[tx] != Do(w, step).txns[tx])
    requires var t := Do(w, step).txns[tx]; t.Staged? && t.op.Claim? && t.op.picked.Some?
    ensures var op := Do(w, step).txns[tx].op;
      && step == Pick(tx, op.picked) && tx in w.txns && w.txns[tx].ClaimFree?
      && w.txns[tx].device == op.device && w.txns[tx].now == op.now
  {
  }

  // ---------------------------------------------------------------- laws

  /** First come, first served, in every interleaving: when the poll that claimed a request
      picked it, every other request then waiting for the device and locked by nobody else had
      been created later, or at the same instant under a larger identifier. */
  lemma ClaimsServeTheOldest(worlds: seq<World>, steps: seq<Step>, k: nat, tx: Id, op: Op) returns (i: nat)
    requires Execution(worlds, steps) && Commits(worlds, steps, k, tx, op) && op.Claim? && op.picked.Some?
    ensures i < k && steps[i] == Pick(tx, op.picked) && Alive(worlds, tx, i, k)
    ensures var rows, p := worlds[i].db.requests, op.picked.value;
      && p in rows
      && forall y | y in rows && y != p && rows[y].device == op.device && rows[y].status == Pending
                 && op.now < rows[y].expiresAt
                 && (RequestRow(y) in worlds[i].locks ==> worlds[i].locks[RequestRow(y)] == tx) ::
           rows[p].createdAt < rows[y].createdAt || (rows[p].createdAt == rows[y].createdAt && p < y)
  {
    PicksAreTaken(worlds, steps, k);
    i :| Picked(worlds, steps, k, tx, op, i);
    PicksServeTheOldest(worlds[i], tx, op.picked.value);
  }

  /** What was consented to never changes: no step alters a request's columns of identity,
      document, consent or deadline. */
  lemma {:induction false} TermsNeverChange(worlds: seq<World>, steps: seq<Step>, m: nat, n: nat, id: Id)
    requires Execution(worlds, steps) && m <= n < |worlds| && id in worlds[m].db.requests
    ensures id in worlds[n].db.requests && SameIdentity(worlds[m].db.requests[id], worlds[n].db.requests[id])
    decreases n
  {
    if m < n {
      TermsNeverChange(worlds, steps, m, n - 1, id);
      TermsAtNext(worlds, steps, n - 1, id);
    }
  }

  lemma TermsAtNext(worlds: seq<World>, steps: seq<Step>, i: nat, id: Id)
    requires Execution(worlds, steps) && i < |steps| && id in worlds[i].db.requests
    ensures id in worlds[i + 1].db.requests
    ensures SameIdentity(worlds[i].db.requests[id], worlds[i + 1].db.requests[id])
  {
    StepOf(worlds, steps, i);
    ExecutionKeepsInv(worlds, steps, i);
    StepKeepsTerms(worlds[i], steps[i], worlds[i + 1], id);
  }

  lemma StepKeepsTerms(w: World, step: Step, w': World, id: Id)
    requires WorldInv(w) && Can(w, step) && w' == Do(w, step) && id in w.db.requests
    ensures id in w'.db.requests && SameIdentity(w.db.requests[id], w'.db.requests[id])
  {
    StepAppliesItsCommit(w, step);
    var op := CommittedOp(w, step);
    if op.Some? {
      ApplyAdvances(w.db, op.value, id);
    }
  }

  /** A request carries, for as long as it exists, the terms of its creation: a deadline 900
      seconds after the last reading of that transaction, consent recorded between its start and
      that reading, the document with the hash it is stored under, the device, and APPROVE. */
  lemma RequestsKeepTheirTerms(
    worlds: seq<World>, steps: seq<Step>, n: nat, id: Id, j: nat, k: nat, tx: Id, op: Op)
    requires Execution(worlds, steps) && n < |worlds| && CreationOf(worlds, steps, n, id, j, k, tx, op)
    ensures id in worlds[n].db.requests && j < |worlds|
    ensures var r := worlds[n].db.requests[id];
      && r.expiresAt == op.now + 900_000_000 && r.consentedAt == Some(op.consentedAt)
      && worlds[j].clock <= op.consentedAt <= op.now
      && r.consentVersion == Some("remotesign-lab-consent-v1") && r.decision == "APPROVE"
      && r.owner == op.web && r.device == op.device && r.document == op.document
      && op.document in worlds[k].db.documents
      && r.documentHash == worlds[k].db.documents[op.document].documentHash
      && worlds[k].db.documents[op.document].owner == Some(r.user)
  {
    ExecutionKeepsInv(worlds, steps, k);
    StepOf(worlds, steps, k);
    CommitKeepsInv(worlds[k], tx);
    assert worlds[k + 1].db == Apply(worlds[k].db, op);
    TermsNeverChange(worlds, steps, k + 1, n, id);
  }

  /** No request is signed 900 seconds or more after its creation: the authorization of its
      signature was checked before that, in every interleaving. */
  lemma NoneIsSignedLate(worlds: seq<World>, steps: seq<Step>, n: nat, id: Id, j: nat, k: nat, tx: Id, op: Op)
    requires Execution(worlds, steps) && n < |worlds| && CreationOf(worlds, steps, n, id, j, k, tx, op)
    requires id in worlds[n].db.requests && worlds[n].db.requests[id].status == Signed
    ensures var gid := worlds[n].db.requests[id].signature;
      gid.Some? && gid.value in worlds[n].db.signatures
      && worlds[n].db.signatures[gid.value].authorizedAt < op.now + 900_000_000
  {
    RequestsKeepTheirTerms(worlds, steps, n, id, j, k, tx, op);
    ExecutionKeepsInv(worlds, steps, n);
    assert RequestOk(worlds[n].db, worlds[n].db.requests[id]);
  }

  /** The session a committed challenge opens expires 60 seconds after the clock reading with which
      its transaction began, however long the transaction then took. */
  lemma ChallengesLastAMinute(worlds: seq<World>, steps: seq<Step>, k: nat, tx: Id, op: Op) returns (i: nat)
    requires Execution(worlds, steps) && Commits(worlds, steps, k, tx, op) && op.Challenge?
    ensures i < k < |steps| && steps[i] == StartChallenge(tx) && Alive(worlds, tx, i, k)
    ensures op.sid in worlds[k + 1].db.sessions
    ensures worlds[k + 1].db.sessions[op.sid].expiresAt == worlds[i].clock + 60_000_000
  {
    OpeningsAreTaken(worlds, steps, k);
    i :| Reading(worlds, steps, k, tx, StartChallenge(tx), op.now, i);
    ExecutionKeepsInv(worlds, steps, k);
    StepOf(worlds, steps, k);
    CommitKeepsInv(worlds[k], tx);
    assert worlds[k + 1].db == Apply(worlds[k].db, op);
  }
}
