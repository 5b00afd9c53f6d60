/** Two executions in which the stamps of a request contradict the order of its stages. */
module LateStamps {
  import opened Records
  import opened RequestService
  import opened Protocol
  import opened Transactions

  const OWNER: Id := 7
  const DEVICE: Id := 5
  const DOCUMENTS := map[0 := Document(Some(OWNER), "digest")]

  function Base(requests: Rows, viewed: set<(Id, Id)>): Db {
    Protocol.Db(requests, map[], map[], DOCUMENTS, map[0 := OWNER], viewed)
  }

  // ---------------------------------------------------------------- the late claim

  function Late(): Request {
    NewRequest(0, OWNER, DEVICE, 0, "digest", 10, CONSENT_VERSION, 10, 10)
  }

  function LateCreate(): Op {
    Create(3, 0, 0, DEVICE, 10, 10, 10)
  }

  function LateClaim(): Op {
    Protocol.Claim(DEVICE, 0, {}, Some(3))
  }

  /** The poll (transaction 1) reads the clock at 0 and waits; the creation (transaction 2)
      starts at 10 and commits; the poll then claims the new request. */
  function LateWorlds(): seq<World> {
    var q := DeviceQueue(LockKey(DEVICE));
    var waiting := ClaimStarted(DEVICE, 0);
    var seen := Base(map[], {(0, 0)});
    var filed := Base(map[3 := Late()], {(0, 0)});
    var staged := Staged(LateClaim(), Writes(map[3 := RequestService.Claim(Late(), 0)], map[], map[]));
    [ World(Base(map[], {}), 0, map[], map[]),
      World(seen, 0, map[], map[]),
      World(seen, 0, map[1 := waiting], map[]),
      World(seen, 10, map[1 := waiting], map[]),
      World(seen, 10, map[1 := waiting, 2 := CreateStarted(0, 0, 10)], map[]),
      World(seen, 10, map[1 := waiting, 2 := CreateLocked(0, 0, 10)], map[DocumentRow(0) := 2]),
      World(seen, 10, map[1 := waiting, 2 := CreateChecked(0, 0, 10, OWNER, "digest")], map[DocumentRow(0) := 2]),
      World(seen, 10, map[1 := waiting, 2 := Staged(LateCreate(), RequestWrite(3, Late()))],
            map[DocumentRow(0) := 2, RequestRow(3) := 2]),
      World(filed, 10, map[1 := waiting], map[]),
      World(filed, 10, map[1 := ClaimQueued(DEVICE, 0)], map[q := 1]),
      World(filed, 10, map[1 := ClaimExpired(DEVICE, 0, map[])], map[q := 1]),
      World(filed, 10, map[1 := ClaimFree(DEVICE, 0, map[])], map[q := 1]),
      World(filed, 10, map[1 := staged], map[q := 1, RequestRow(3) := 1]),
      World(Base(map[3 := RequestService.Claim(Late(), 0)], {(0, 0)}), 10, map[], map[]) ]
  }

  function LateSteps(): seq<Step> {
    [ Look(0, 0), StartClaim(1, DEVICE), Tick(10), StartCreate(2, 0, 0), LockDocument(2), CheckCreate(2),
      InsertRequest(2, 3, DEVICE, 10, 10), Commit(2), QueueClaim(1), ExpireClaim(1), FindFree(1),
      Pick(1, Some(3)), Commit(1) ]
  }

  lemma LateStartHappens(i: nat)
    requires i < 4
    ensures Can(LateWorlds()[i], LateSteps()[i]) && LateWorlds()[i + 1] == Do(LateWorlds()[i], LateSteps()[i])
  {
    if i == 0 {
      assert LateWorlds()[i].db.viewed + {(0, 0)} == {(0, 0)};
    }
  }

  lemma LateCreationHappens(i: nat)
    requires 4 <= i < 7
    ensures Can(LateWorlds()[i], LateSteps()[i]) && LateWorlds()[i + 1] == Do(LateWorlds()[i], LateSteps()[i])
  {
  }

  lemma LateCreationCommits()
    ensures Can(LateWorlds()[7], LateSteps()[7]) && LateWorlds()[8] == Do(LateWorlds()[7], LateSteps()[7])
  {
    var w := LateWorlds()[7];
    assert w.db.requests + map[3 := Late()] == map[3 := Late()];
    assert Release(w.locks, 2) == map[];
    assert w.txns - {2} == map[1 := ClaimStarted(DEVICE, 0)];
  }

  lemma LatePollHappens(i: nat)
    requires i == 8 || i == 10
    ensures Can(LateWorlds()[i], LateSteps()[i]) && LateWorlds()[i + 1] == Do(LateWorlds()[i], LateSteps()[i])
  {
    if i == 10 {
      assert InFlight(LateWorlds()[i].db.requests, DEVICE) == {};
    }
  }

  lemma LateExpiryHappens()
    ensures Can(LateWorlds()[9], LateSteps()[9]) && LateWorlds()[10] == Do(LateWorlds()[9], LateSteps()[9])
  {
    NothingIsDue(LateWorlds()[9], Late(), 0);
  }

  lemma NothingIsDue(w: World, r: Request, now: Time)
    requires w.db.requests == map[3 := r] && r.expiresAt > now
    ensures DueRows(w.db.requests, Some(DEVICE), now, LockedElsewhere(w, 1)) == {}
    ensures ExpiredRows(w.db.requests, {}, now) == map[]
    ensures LockRows(w.locks, 1, {}) == w.locks
  {
  }

  lemma TheRequestIsPicked(w: World, r: Request, now: Time)
    requires w.db.requests == map[3 := r] && Waiting(r, DEVICE, now) && LockedElsewhere(w, 1) == {}
    ensures Claimable(w.db.requests, DEVICE, now, LockedElsewhere(w, 1)) == {3}
    ensures ClaimWrites(map[], w.db.requests, now, Some(3)) == map[3 := RequestService.Claim(r, now)]
  {
  }

  lemma LatePickHappens()
    ensures Can(LateWorlds()[11], LateSteps()[11]) && LateWorlds()[12] == Do(LateWorlds()[11], LateSteps()[11])
  {
    var w := LateWorlds()[11];
    var none: Rows := map[];
    assert none.Keys == {};
    assert LockedElsewhere(w, 1) == {};
    TheRequestIsPicked(w, Late(), 0);
  }

  lemma LateCommitHappens()
    ensures Can(LateWorlds()[12], LateSteps()[12]) && LateWorlds()[13] == Do(LateWorlds()[12], LateSteps()[12])
  {
    var w := LateWorlds()[12];
    var writes := map[3 := RequestService.Claim(Late(), 0)];
    assert w.db.requests + writes == writes;
    assert Release(w.locks, 1) == map[];
    assert w.txns - {1} == map[];
  }

  /** `createdAt <= claimedAt` is not an invariant of the protocol: here is an execution
      that commits a CLAIMED request whose claim precedes its creation. */
  lemma ClaimedAtCanPrecedeCreatedAt() returns (worlds: seq<World>, steps: seq<Step>)
    ensures Execution(worlds, steps)
    ensures var rows := worlds[|steps|].db.requests;
      exists id ::
        (id in rows && rows[id].status == Claimed && rows[id].claimedAt.Some?
         && rows[id].claimedAt.value < rows[id].createdAt)
  {
    worlds, steps := LateWorlds(), LateSteps();
    forall i | 0 <= i < |steps| ensures Can(worlds[i], steps[i]) && worlds[i + 1] == Do(worlds[i], steps[i]) {
      if i < 4 {
        LateStartHappens(i);
      } else if i < 7 {
        LateCreationHappens(i);
      } else if i == 7 {
        LateCreationCommits();
      } else if i == 9 {
        LateExpiryHappens();
      } else if i < 11 {
        LatePollHappens(i);
      } else if i == 11 {
        LatePickHappens();
      } else {
        LateCommitHappens();
      }
    }
    assert 3 in worlds[13].db.requests;
  }

  // ---------------------------------------------------------------- the early authentication

  const VIEWED := {(0, 0)}

  function FiledRow(): Request {
    NewRequest(0, OWNER, DEVICE, 0, "digest", 0, CONSENT_VERSION, 0, 0)
  }

  function EarlyCreate(): Op {
    Create(3, 0, 0, DEVICE, 0, 0, 0)
  }

  function EarlyClaim(): Op {
    Protocol.Claim(DEVICE, 5, {}, Some(3))
  }

  function EarlyChallenge(): Op {
    Challenge(9, DEVICE, OWNER, "card", 0, "challenge", 0, Some(3), 0)
  }

  function ClaimedRow(): Request {
    RequestService.Claim(FiledRow(), 5)
  }

  /** A request is filed; the challenge (transaction 4) reads the clock at 0; before it selects
      the claimed row, the poll (transaction 1) begins at 5, claims and commits. */
  function EarlySteps(): seq<Step> {
    [ Look(0, 0), StartCreate(2, 0, 0), LockDocument(2), CheckCreate(2), InsertRequest(2, 3, DEVICE, 0, 0), Commit(2),
      StartChallenge(4), Acquire(4, SessionRow(9)), ReadClock(4), Tick(5),
      StartClaim(1, DEVICE), QueueClaim(1), ExpireClaim(1), FindFree(1), Pick(1, Some(3)), Commit(1),
      Acquire(4, RequestRow(3)), Stage(4, EarlyChallenge()), Commit(4) ]
  }

  /** While the request is filed. */
  function FilingWorlds(): seq<World> {
    var seen := Base(map[], VIEWED);
    [ World(Base(map[], {}), 0, map[], map[]),
      World(seen, 0, map[], map[]),
      World(seen, 0, map[2 := CreateStarted(0, 0, 0)], map[]),
      World(seen, 0, map[2 := CreateLocked(0, 0, 0)], map[DocumentRow(0) := 2]),
      World(seen, 0, map[2 := CreateChecked(0, 0, 0, OWNER, "digest")], map[DocumentRow(0) := 2]),
      World(seen, 0, map[2 := Staged(EarlyCreate(), RequestWrite(3, FiledRow()))],
            map[DocumentRow(0) := 2, RequestRow(3) := 2]) ]
  }

  /** While the challenge waits and the poll runs. */
  function PollingWorlds(): seq<World> {
    var filed := Base(map[3 := FiledRow()], VIEWED);
    var q, s := DeviceQueue(LockKey(DEVICE)), SessionRow(9);
    var read := ChallengeRead(0, 0);
    var claim := Staged(EarlyClaim(), Writes(map[3 := ClaimedRow()], map[], map[]));
    [ World(filed, 0, map[], map[]),
      World(filed, 0, map[4 := ChallengeStarted(0)], map[]),
      World(filed, 0, map[4 := ChallengeStarted(0)], map[s := 4]),
      World(filed, 0, map[4 := read], map[s := 4]),
      World(filed, 5, map[4 := read], map[s := 4]),
      World(filed, 5, map[4 := read, 1 := ClaimStarted(DEVICE, 5)], map[s := 4]),
      World(filed, 5, map[4 := read, 1 := ClaimQueued(DEVICE, 5)], map[s := 4, q := 1]),
      World(filed, 5, map[4 := read, 1 := ClaimExpired(DEVICE, 5, map[])], map[s := 4, q := 1]),
      World(filed, 5, map[4 := read, 1 := ClaimFree(DEVICE, 5, map[])], map[s := 4, q := 1]),
      World(filed, 5, map[4 := read, 1 := claim], map[s := 4, q := 1, RequestRow(3) := 1]) ]
  }

  /** While the challenge attaches its session. */
  function AttachingWorlds(): seq<World> {
    var claimed := Base(map[3 := ClaimedRow()], VIEWED);
    var s, r := SessionRow(9), RequestRow(3);
    var session := NewSession(EarlyChallenge(), "digest");
    var attached := map[3 := Attach(ClaimedRow(), 9, 0)];
    [ World(claimed, 5, map[4 := ChallengeRead(0, 0)], map[s := 4]),
      World(claimed, 5, map[4 := ChallengeRead(0, 0)], map[s := 4, r := 4]),
      World(claimed, 5, map[4 := Staged(EarlyChallenge(), Writes(attached, map[9 := session], map[]))],
        map[s := 4, r := 4]),
      World(Base(attached, VIEWED).(sessions := map[9 := session]), 5, map[], map[]) ]
  }

  lemma FilingHappens(i: nat)
    requires i < 5
    ensures Can(FilingWorlds()[i], EarlySteps()[i]) && FilingWorlds()[i + 1] == Do(FilingWorlds()[i], EarlySteps()[i])
  {
    if i == 0 {
      assert FilingWorlds()[i].db.viewed + VIEWED == VIEWED;
    }
  }

  lemma FilingCommits()
    ensures Can(FilingWorlds()[5], EarlySteps()[5]) && PollingWorlds()[0] == Do(FilingWorlds()[5], EarlySteps()[5])
  {
    var w := FilingWorlds()[5];
    assert w.db.requests + map[3 := FiledRow()] == map[3 := FiledRow()];
    assert Release(w.locks, 2) == map[];
    assert w.txns - {2} == map[];
  }

  lemma ChallengeReads(i: nat)
    requires i < 5
    ensures Can(PollingWorlds()[i], EarlySteps()[i + 6])
    ensures PollingWorlds()[i + 1] == Do(PollingWorlds()[i], EarlySteps()[i + 6])
  {
  }

  lemma PollRuns(i: nat)
    requires i == 5 || i == 7
    ensures Can(PollingWorlds()[i], EarlySteps()[i + 6])
    ensures PollingWorlds()[i + 1] == Do(PollingWorlds()[i], EarlySteps()[i + 6])
  {
    if i == 7 {
      assert InFlight(PollingWorlds()[i].db.requests, DEVICE) == {};
    }
  }

  lemma PollExpires()
    ensures Can(PollingWorlds()[6], EarlySteps()[12]) && PollingWorlds()[7] == Do(PollingWorlds()[6], EarlySteps()[12])
  {
    NothingIsDue(PollingWorlds()[6], FiledRow(), 5);
  }

  lemma PollPicks()
    ensures Can(PollingWorlds()[8], EarlySteps()[14])
    ensures PollingWorlds()[9] == Do(PollingWorlds()[8], EarlySteps()[14])
  {
    var w := PollingWorlds()[8];
    var none: Rows := map[];
    assert none.Keys == {};
    assert LockedElsewhere(w, 1) == {};
    TheRequestIsPicked(w, FiledRow(), 5);
  }

  lemma PollCommits()
    ensures Can(PollingWorlds()[9], EarlySteps()[15])
      && AttachingWorlds()[0] == Do(PollingWorlds()[9], EarlySteps()[15])
  {
    var w := PollingWorlds()[9];
    assert w.db.requests + map[3 := ClaimedRow()] == map[3 := ClaimedRow()];
    assert Release(w.locks, 1) == map[SessionRow(9) := 4];
    assert w.txns - {1} == map[4 := ChallengeRead(0, 0)];
  }

  lemma ChallengeLocks()
    ensures Can(AttachingWorlds()[0], EarlySteps()[16])
      && AttachingWorlds()[1] == Do(AttachingWorlds()[0], EarlySteps()[16])
  {
  }

  lemma ChallengeStages()
    ensures Can(AttachingWorlds()[1], EarlySteps()[17])
      && AttachingWorlds()[2] == Do(AttachingWorlds()[1], EarlySteps()[17])
  {
    var w := AttachingWorlds()[1];
    assert SessionRow(9) in Held(w.locks, 4) && RequestRow(3) in Held(w.locks, 4);
    assert Footprint(EarlyChallenge()) <= Held(w.locks, 4);
  }

  lemma ChallengeCommits()
    ensures Can(AttachingWorlds()[2], EarlySteps()[18])
      && AttachingWorlds()[3] == Do(AttachingWorlds()[2], EarlySteps()[18])
  {
    var w := AttachingWorlds()[2];
    var attached := map[3 := Attach(ClaimedRow(), 9, 0)];
    assert w.db.requests + attached == attached;
    assert Release(w.locks, 4) == map[];
    assert w.txns - {4} == map[];
  }

  lemma EarlyStepHappens(i: nat)
    requires i < 19
    ensures var worlds := FilingWorlds() + PollingWorlds() + AttachingWorlds();
      Can(worlds[i], EarlySteps()[i]) && worlds[i + 1] == Do(worlds[i], EarlySteps()[i])
  {
    if i < 5 {
      FilingHappens(i);
    } else if i == 5 {
      FilingCommits();
    } else if i < 11 {
      ChallengeReads(i - 6);
    } else if i == 12 {
      PollExpires();
    } else if i < 14 {
      PollRuns(i - 6);
    } else if i == 14 {
      PollPicks();
    } else if i == 15 {
      PollCommits();
    } else if i == 16 {
      ChallengeLocks();
    } else if i == 17 {
      ChallengeStages();
    } else {
      ChallengeCommits();
    }
  }

  /** `claimedAt <= authStartedAt` is not an invariant either: an execution that commits an
      AUTHENTICATING request whose authentication started, by its stamp, before the claim. */
  lemma AuthenticationCanPrecedeClaim() returns (worlds: seq<World>, steps: seq<Step>)
    ensures Execution(worlds, steps)
    ensures var rows := worlds[|steps|].db.requests;
      exists id ::
        (id in rows && rows[id].status == Authenticating && rows[id].claimedAt.Some? && rows[id].authStartedAt.Some?
         && rows[id].authStartedAt.value < rows[id].claimedAt.value)
  {
    worlds, steps := FilingWorlds() + PollingWorlds() + AttachingWorlds(), EarlySteps();
    forall i | 0 <= i < |steps| ensures Can(worlds[i], steps[i]) && worlds[i + 1] == Do(worlds[i], steps[i]) {
      EarlyStepHappens(i);
    }
    assert worlds[19] == AttachingWorlds()[3] && 3 in worlds[19].db.requests;
  }
}
