/** What the instants in a request say about the order of events.

    A stamp is the clock reading of one step of one transaction: the start of the creating
    transaction, of the poll that claimed, the reading of the challenge that attached. A poll
    takes its reading before it waits for the device's advisory lock, and a challenge before
    it selects the claimed row, so the stamps of a request can contradict the order of its
    stages. They do so exactly when the readings were taken in the wrong order. */
module ClockOrder {
  import opened Records
  import opened RequestService
  import opened Protocol
  import opened Transactions

  // ---------------------------------------------------------------- readings

  /** Transaction `tx` has been open since just after step `i`. */
  ghost predicate Alive(worlds: seq<World>, tx: Id, i: nat, n: nat) {
    n < |worlds| && forall m | i < m <= n :: tx in worlds[m].txns
  }

  /** Step `i` of the transaction, still open at world `n`, found the clock at `t`. */
  ghost predicate Reading(worlds: seq<World>, steps: seq<Step>, n: nat, tx: Id, step: Step, t: Time, i: nat) {
    i < n < |worlds| && i < |steps| && steps[i] == step && worlds[i].clock == t && Alive(worlds, tx, i, n)
  }

  /** The step at which a transaction takes the reading it will stamp, and the reading. */
  function StampReading(tx: Id, t: Txn): Option<(Step, Time)> {
    match t
    case ClaimStarted(device, now) => Some((StartClaim(tx, device), now))
    case ClaimQueued(device, now) => Some((StartClaim(tx, device), now))
    case ClaimExpired(device, now, _) => Some((StartClaim(tx, device), now))
    case ClaimFree(device, now, _) => Some((StartClaim(tx, device), now))
    case CreateStarted(web, document, startedAt) => Some((StartCreate(tx, web, document), startedAt))
    case CreateLocked(web, document, startedAt) => Some((StartCreate(tx, web, document), startedAt))
    case CreateChecked(web, document, startedAt, _, _) => Some((StartCreate(tx, web, document), startedAt))
    case ChallengeRead(_, attachedAt) => Some((ReadClock(tx), attachedAt))
    case Staged(op, _) =>
      if op.Claim? then Some((StartClaim(tx, op.device), op.now))
      else if op.Create? then Some((StartCreate(tx, op.web, op.document), op.startedAt))
      else if op.Challenge? then Some((ReadClock(tx), op.attachedAt))
      else None
    case _ => None
  }

  ghost predicate Traced(worlds: seq<World>, steps: seq<Step>, n: nat, tx: Id)
    requires n < |worlds| && tx in worlds[n].txns
  {
    var s := StampReading(tx, worlds[n].txns[tx]);
    s.Some? ==> exists i :: Reading(worlds, steps, n, tx, s.value.0, s.value.1, i)
  }

  /** Every reading an open transaction carries is one it took. */
  lemma {:induction false} ReadingsAreTaken(worlds: seq<World>, steps: seq<Step>, n: nat)
    requires Execution(worlds, steps) && n < |worlds|
    ensures forall tx | tx in worlds[n].txns :: Traced(worlds, steps, n, tx)
  {
    if n > 0 {
      ReadingsAreTaken(worlds, steps, n - 1);
      assert Can(worlds[n - 1], steps[n - 1]) && worlds[n - 1 + 1] == Do(worlds[n - 1], steps[n - 1]);
      forall tx | tx in worlds[n].txns ensures Traced(worlds, steps, n, tx) {
        ReadingIsKept(worlds, steps, n - 1, tx);
      }
    }
  }

  lemma ReadingIsKept(worlds: seq<World>, steps: seq<Step>, n: nat, tx: Id)
    requires n + 1 < |worlds| && n < |steps| && tx in worlds[n + 1].txns
    requires Can(worlds[n], steps[n]) && worlds[n + 1] == Do(worlds[n], steps[n])
    requires tx in worlds[n].txns ==> Traced(worlds, steps, n, tx)
    ensures Traced(worlds, steps, n + 1, tx)
  {
    var s' := StampReading(tx, worlds[n + 1].txns[tx]);
    if s'.Some? {
      if tx in worlds[n].txns && StampReading(tx, worlds[n].txns[tx]) == s' {
        var i :| Reading(worlds, steps, n, tx, s'.value.0, s'.value.1, i);
        assert Reading(worlds, steps, n + 1, tx, s'.value.0, s'.value.1, i);
      } else {
        StampIsFresh(worlds[n], steps[n], tx);
        assert Reading(worlds, steps, n + 1, tx, s'.value.0, s'.value.1, n);
      }
    }
  }

  /** A stamp a transaction did not carry before is the reading of this very step. */
  lemma StampIsFresh(w: World, step: Step, tx: Id)
    requires Can(w, step) && tx in Do(w, step).txns
    requires var s' := StampReading(tx, Do(w, step).txns[tx]);
      s'.Some? && (tx in w.txns ==> StampReading(tx, w.txns[tx]) != s')
    ensures StampReading(tx, Do(w, step).txns[tx]).value == (step, w.clock)
  {
  }

  // ---------------------------------------------------------------- stamps

  /** Step `k` commits `op` for transaction `tx`. */
  ghost predicate Commits(worlds: seq<World>, steps: seq<Step>, k: nat, tx: Id, op: Op) {
    && k < |steps| && k < |worlds| && steps[k] == Commit(tx)
    && tx in worlds[k].txns && worlds[k].txns[tx].Staged? && worlds[k].txns[tx].op == op
  }

  /** The creating transaction began at step `j`, and committed before world `n`. */
  ghost predicate CreationBegan(worlds: seq<World>, steps: seq<Step>, n: nat, id: Id, j: nat) {
    exists k, tx, op :: CreationOf(worlds, steps, n, id, j, k, tx, op)
  }

  ghost predicate CreationOf(worlds: seq<World>, steps: seq<Step>, n: nat, id: Id, j: nat, k: nat, tx: Id, op: Op) {
    && k < n && Commits(worlds, steps, k, tx, op) && op.Create? && op.id == id
    && Reading(worlds, steps, k, tx, StartCreate(tx, op.web, op.document), op.startedAt, j)
  }

  /** The poll that claimed the request began at step `i`, and committed before world `n`. */
  ghost predicate ClaimBegan(worlds: seq<World>, steps: seq<Step>, n: nat, id: Id, i: nat) {
    exists k, tx, op :: ClaimOf(worlds, steps, n, id, i, k, tx, op)
  }

  ghost predicate ClaimOf(worlds: seq<World>, steps: seq<Step>, n: nat, id: Id, i: nat, k: nat, tx: Id, op: Op) {
    && k < n && Commits(worlds, steps, k, tx, op) && op.Claim? && op.picked == Some(id)
    && Reading(worlds, steps, k, tx, StartClaim(tx, op.device), op.now, i)
  }

  /** The challenge that attached its session to the request read the clock at step `m`, and
      committed before world `n`. */
  ghost predicate AttachRead(worlds: seq<World>, steps: seq<Step>, n: nat, id: Id, m: nat) {
    exists k, tx, op :: AttachOf(worlds, steps, n, id, m, k, tx, op)
  }

  ghost predicate AttachOf(worlds: seq<World>, steps: seq<Step>, n: nat, id: Id, m: nat, k: nat, tx: Id, op: Op) {
    && k < n && Commits(worlds, steps, k, tx, op) && op.Challenge? && op.target == Some(id)
    && id in worlds[k].db.requests && !Due(worlds[k].db.requests[id], op.attachedAt)
    && Reading(worlds, steps, k, tx, ReadClock(tx), op.attachedAt, m)
  }

  /** The transaction a step commits. */
  function CommittedOp(w: World, step: Step): Option<Op> {
    if step.Look? then Some(View(step.web, step.document))
    else if step.Commit? && step.tx in w.txns && w.txns[step.tx].Staged? then Some(w.txns[step.tx].op)
    else None
  }

  lemma StepAppliesItsCommit(w: World, step: Step)
    requires WorldInv(w) && Can(w, step)
    ensures var op := CommittedOp(w, step);
      && (op.Some? ==> Enabled(w.db, op.value))
      && Do(w, step).db == if op.Some? then Apply(w.db, op.value) else w.db
  {
    if step.Commit? {
      CommitKeepsInv(w, step.tx);
    }
  }

  /** Which transactions write which stamp of a request; each stamp is written once. */
  predicate StampsWritten(db: Db, op: Op, id: Id, db': Db)
    requires id in db'.requests
  {
    var r' := db'.requests[id];
    if id !in db.requests then
      op.Create? && op.id == id && r'.createdAt == op.startedAt && r'.claimedAt.None? && r'.authStartedAt.None?
    else
      var r := db.requests[id];
      && r'.createdAt == r.createdAt && !(op.Create? && op.id == id)
      && (if op.Claim? && op.picked == Some(id) then r.claimedAt.None? && r'.claimedAt == Some(op.now)
          else r'.claimedAt == r.claimedAt)
      && (if op.Challenge? && op.target == Some(id) && !Due(r, op.attachedAt)
          then r.authStartedAt.None? && r'.authStartedAt == Some(op.attachedAt)
          else r'.authStartedAt == r.authStartedAt)
  }

  lemma StampsAreWrittenOnce(db: Db, op: Op, id: Id)
    requires Inv(db) && Enabled(db, op) && id in Apply(db, op).requests
    ensures StampsWritten(db, op, id, Apply(db, op))
  {
    if id in db.requests {
      assert RequestOk(db, db.requests[id]);
      OtherStampsStay(db, op, id);
    }
  }

  lemma OtherStampsStay(db: Db, op: Op, id: Id)
    requires Guard(db, op) && id in db.requests && id in Apply(db, op).requests
    ensures var r, r' := db.requests[id], Apply(db, op).requests[id];
      && r'.createdAt == r.createdAt
      && (!(op.Claim? && op.picked == Some(id)) ==> r'.claimedAt == r.claimedAt)
      && (!(op.Challenge? && op.target == Some(id)) ==> r'.authStartedAt == r.authStartedAt)
  {
  }

  /** What one step of an execution does to one request's stamps. */
  lemma DatabaseSteps(worlds: seq<World>, steps: seq<Step>, n: nat, id: Id)
    requires Execution(worlds, steps) && n < |steps|
    ensures Can(worlds[n], steps[n]) && worlds[n + 1] == Do(worlds[n], steps[n])
    ensures var committed, db, db' := CommittedOp(worlds[n], steps[n]), worlds[n].db, worlds[n + 1].db;
      if committed.None? then db' == db
      else
        && (id in db.requests || (committed.value.Create? && committed.value.id == id) ==> id in db'.requests)
        && Guard(db, committed.value)
        && (id in db'.requests ==> StampsWritten(db, committed.value, id, db'))
  {
    ExecutionKeepsInv(worlds, steps, n);
    assert Can(worlds[n], steps[n]) && worlds[n + 1] == Do(worlds[n], steps[n]);
    StepAppliesItsCommit(worlds[n], steps[n]);
    var committed := CommittedOp(worlds[n], steps[n]);
    if committed.Some? {
      if id in worlds[n].db.requests {
        ApplyAdvances(worlds[n].db, committed.value, id);
      }
      if id in worlds[n + 1].db.requests {
        StampsAreWrittenOnce(worlds[n].db, committed.value, id);
      }
    }
  }

  /** The stamps that a step's reading becomes. */
  ghost predicate CreatedThen(worlds: seq<World>, n: nat, id: Id, i: nat) {
    && n < |worlds| && i < |worlds| && id in worlds[n].db.requests
    && worlds[n].db.requests[id].createdAt == worlds[i].clock
  }

  ghost predicate ClaimedThen(worlds: seq<World>, n: nat, id: Id, i: nat) {
    && n < |worlds| && i < |worlds| && id in worlds[n].db.requests
    && worlds[n].db.requests[id].claimedAt == Some(worlds[i].clock)
  }

  ghost predicate AttachedThen(worlds: seq<World>, n: nat, id: Id, i: nat) {
    && n < |worlds| && i < |worlds| && id in worlds[n].db.requests
    && worlds[n].db.requests[id].authStartedAt == Some(worlds[i].clock)
  }

  lemma {:induction false} CreationsAreStamped(worlds: seq<World>, steps: seq<Step>, n: nat, id: Id)
    requires Execution(worlds, steps) && n < |worlds|
    ensures forall i: nat | CreationBegan(worlds, steps, n, id, i) :: CreatedThen(worlds, n, id, i)
  {
    if n > 0 {
      var m := n - 1;
      CreationsAreStamped(worlds, steps, m, id);
      DatabaseSteps(worlds, steps, m, id);
      forall i: nat | CreationBegan(worlds, steps, n, id, i) ensures CreatedThen(worlds, n, id, i) {
        var k: nat, tx, op :| CreationOf(worlds, steps, n, id, i, k, tx, op);
        if k < m {
          assert CreationOf(worlds, steps, m, id, i, k, tx, op);
          assert CreationBegan(worlds, steps, m, id, i);
        }
      }
    }
  }

  lemma {:induction false} CreationsHaveTheirStep(worlds: seq<World>, steps: seq<Step>, n: nat, id: Id)
    requires Execution(worlds, steps) && n < |worlds| && id in worlds[n].db.requests
    ensures exists i :: CreationBegan(worlds, steps, n, id, i)
  {
    if n > 0 {
      var m := n - 1;
      DatabaseSteps(worlds, steps, m, id);
      if id in worlds[m].db.requests {
        CreationsHaveTheirStep(worlds, steps, m, id);
        var i :| CreationBegan(worlds, steps, m, id, i);
        var k: nat, tx, op :| CreationOf(worlds, steps, m, id, i, k, tx, op);
        assert CreationOf(worlds, steps, n, id, i, k, tx, op);
        assert CreationBegan(worlds, steps, n, id, i);
      } else {
        var tx, op := steps[m].tx, CommittedOp(worlds[m], steps[m]).value;
        ReadingsAreTaken(worlds, steps, m);
        assert Traced(worlds, steps, m, tx);
        var s := StampReading(tx, worlds[m].txns[tx]);
        var i :| Reading(worlds, steps, m, tx, s.value.0, s.value.1, i);
        assert CreationOf(worlds, steps, n, id, i, m, tx, op);
        assert CreationBegan(worlds, steps, n, id, i);
      }
    }
  }

  lemma {:induction false} ClaimsAreStamped(worlds: seq<World>, steps: seq<Step>, n: nat, id: Id)
    requires Execution(worlds, steps) && n < |worlds|
    ensures forall i: nat | ClaimBegan(worlds, steps, n, id, i) :: ClaimedThen(worlds, n, id, i)
  {
    if n > 0 {
      var m := n - 1;
      ClaimsAreStamped(worlds, steps, m, id);
      DatabaseSteps(worlds, steps, m, id);
      forall i: nat | ClaimBegan(worlds, steps, n, id, i) ensures ClaimedThen(worlds, n, id, i) {
        var k: nat, tx, op :| ClaimOf(worlds, steps, n, id, i, k, tx, op);
        if k < m {
          assert ClaimOf(worlds, steps, m, id, i, k, tx, op);
          assert ClaimBegan(worlds, steps, m, id, i);
        }
      }
    }
  }

  lemma {:induction false} ClaimsHaveTheirStep(worlds: seq<World>, steps: seq<Step>, n: nat, id: Id)
    requires Execution(worlds, steps) && n < |worlds| && id in worlds[n].db.requests
    requires worlds[n].db.requests[id].claimedAt.Some?
    ensures exists i :: ClaimBegan(worlds, steps, n, id, i)
  {
    if n > 0 {
      var m := n - 1;
      DatabaseSteps(worlds, steps, m, id);
      if id in worlds[m].db.requests && worlds[m].db.requests[id].claimedAt.Some? {
        ClaimsHaveTheirStep(worlds, steps, m, id);
        var i :| ClaimBegan(worlds, steps, m, id, i);
        var k: nat, tx, op :| ClaimOf(worlds, steps, m, id, i, k, tx, op);
        assert ClaimOf(worlds, steps, n, id, i, k, tx, op);
        assert ClaimBegan(worlds, steps, n, id, i);
      } else {
        var tx, op := steps[m].tx, CommittedOp(worlds[m], steps[m]).value;
        ReadingsAreTaken(worlds, steps, m);
        assert Traced(worlds, steps, m, tx);
        var s := StampReading(tx, worlds[m].txns[tx]);
        var i :| Reading(worlds, steps, m, tx, s.value.0, s.value.1, i);
        assert ClaimOf(worlds, steps, n, id, i, m, tx, op);
        assert ClaimBegan(worlds, steps, n, id, i);
      }
    }
  }

  lemma {:induction false} AttachmentsAreStamped(worlds: seq<World>, steps: seq<Step>, n: nat, id: Id)
    requires Execution(worlds, steps) && n < |worlds|
    ensures forall i: nat | AttachRead(worlds, steps, n, id, i) :: AttachedThen(worlds, n, id, i)
  {
    if n > 0 {
      var m := n - 1;
      AttachmentsAreStamped(worlds, steps, m, id);
      DatabaseSteps(worlds, steps, m, id);
      forall i: nat | AttachRead(worlds, steps, n, id, i) ensures AttachedThen(worlds, n, id, i) {
        var k: nat, tx, op :| AttachOf(worlds, steps, n, id, i, k, tx, op);
        if k < m {
          assert AttachOf(worlds, steps, m, id, i, k, tx, op);
          assert AttachRead(worlds, steps, m, id, i);
        }
      }
    }
  }

  lemma {:induction false} AttachmentsHaveTheirStep(worlds: seq<World>, steps: seq<Step>, n: nat, id: Id)
    requires Execution(worlds, steps) && n < |worlds| && id in worlds[n].db.requests
    requires worlds[n].db.requests[id].authStartedAt.Some?
    ensures exists i :: AttachRead(worlds, steps, n, id, i)
  {
    if n > 0 {
      var m := n - 1;
      DatabaseSteps(worlds, steps, m, id);
      if id in worlds[m].db.requests && worlds[m].db.requests[id].authStartedAt.Some? {
        AttachmentsHaveTheirStep(worlds, steps, m, id);
        var i :| AttachRead(worlds, steps, m, id, i);
        var k: nat, tx, op :| AttachOf(worlds, steps, m, id, i, k, tx, op);
        assert AttachOf(worlds, steps, n, id, i, k, tx, op);
        assert AttachRead(worlds, steps, n, id, i);
      } else {
        var tx, op := steps[m].tx, CommittedOp(worlds[m], steps[m]).value;
        ReadingsAreTaken(worlds, steps, m);
        assert Traced(worlds, steps, m, tx);
        var s := StampReading(tx, worlds[m].txns[tx]);
        var i :| Reading(worlds, steps, m, tx, s.value.0, s.value.1, i);
        assert AttachOf(worlds, steps, n, id, i, m, tx, op);
        assert AttachRead(worlds, steps, n, id, i);
      }
    }
  }

  lemma {:induction false} ClockRises(worlds: seq<World>, steps: seq<Step>, i: nat, j: nat)
    requires Execution(worlds, steps) && i <= j < |worlds|
    ensures worlds[i].clock <= worlds[j].clock
    decreases j - i
  {
    if i < j {
      ClockRises(worlds, steps, i, j - 1);
      assert Can(worlds[j - 1], steps[j - 1]) && worlds[j - 1 + 1] == Do(worlds[j - 1], steps[j - 1]);
    }
  }

  /** Every request of every execution has the steps its stamps come from. */
  lemma EveryStampHasItsStep(worlds: seq<World>, steps: seq<Step>, n: nat, id: Id)
    requires Execution(worlds, steps) && n < |worlds| && id in worlds[n].db.requests
    ensures var r := worlds[n].db.requests[id];
      && (exists j :: CreationBegan(worlds, steps, n, id, j))
      && (r.claimedAt.Some? ==> exists i :: ClaimBegan(worlds, steps, n, id, i))
      && (r.authStartedAt.Some? ==> exists m :: AttachRead(worlds, steps, n, id, m))
  {
    var r := worlds[n].db.requests[id];
    CreationsHaveTheirStep(worlds, steps, n, id);
    if r.claimedAt.Some? {
      ClaimsHaveTheirStep(worlds, steps, n, id);
    }
    if r.authStartedAt.Some? {
      AttachmentsHaveTheirStep(worlds, steps, n, id);
    }
  }

  /** A claim's stamp precedes the creation's exactly when the poll began before the creating
      transaction did, and the clock moved in between. */
  lemma ClaimPrecedesCreationExactlyWhen(worlds: seq<World>, steps: seq<Step>, n: nat, id: Id, j: nat, i: nat)
    requires Execution(worlds, steps) && n < |worlds|
    requires CreationBegan(worlds, steps, n, id, j) && ClaimBegan(worlds, steps, n, id, i)
    ensures j < |worlds| && i < |worlds| && id in worlds[n].db.requests
    ensures var r := worlds[n].db.requests[id];
      && r.createdAt == worlds[j].clock && r.claimedAt == Some(worlds[i].clock)
      && (r.claimedAt.value < r.createdAt <==> i < j && worlds[i].clock != worlds[j].clock)
  {
    CreationsAreStamped(worlds, steps, n, id);
    ClaimsAreStamped(worlds, steps, n, id);
    if i < j {
      ClockRises(worlds, steps, i, j);
    } else {
      ClockRises(worlds, steps, j, i);
    }
  }

  /** An authentication's stamp precedes the claim's exactly when the challenge read its clock
      before the poll began, and the clock moved in between. */
  lemma AuthenticationPrecedesClaimExactlyWhen(
    worlds: seq<World>, steps: seq<Step>, n: nat, id: Id, i: nat, m: nat)
    requires Execution(worlds, steps) && n < |worlds|
    requires ClaimBegan(worlds, steps, n, id, i) && AttachRead(worlds, steps, n, id, m)
    ensures i < |worlds| && m < |worlds| && id in worlds[n].db.requests
    ensures var r := worlds[n].db.requests[id];
      && r.claimedAt == Some(worlds[i].clock) && r.authStartedAt == Some(worlds[m].clock)
      && (r.authStartedAt.value < r.claimedAt.value <==> m < i && worlds[m].clock != worlds[i].clock)
  {
    ClaimsAreStamped(worlds, steps, n, id);
    AttachmentsAreStamped(worlds, steps, n, id);
    if m < i {
      ClockRises(worlds, steps, m, i);
    } else {
      ClockRises(worlds, steps, i, m);
    }
  }

  /** A request already committed when the poll read its clock is claimed in order: in any
      interleaving, its creation does not come after the reading. */
  lemma RequestsSeenAtTheReadingAreInOrder(worlds: seq<World>, steps: seq<Step>, i: nat, id: Id)
    requires Execution(worlds, steps) && i < |steps| && steps[i].StartClaim? && id in worlds[i].db.requests
    ensures steps[i].tx in worlds[i + 1].txns
    ensures var t := worlds[i + 1].txns[steps[i].tx];
      t.ClaimStarted? && worlds[i].db.requests[id].createdAt <= t.now
  {
    ExecutionKeepsInv(worlds, steps, i);
    assert Can(worlds[i], steps[i]) && worlds[i + 1] == Do(worlds[i], steps[i]);
    assert Timely(worlds[i].db.requests[id], worlds[i].clock);
  }
}
