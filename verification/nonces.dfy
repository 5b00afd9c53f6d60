/** Anti-replay: the timestamp window, the nonce table with its cleanup, and why no message is
    accepted by two committed transactions. */
module Nonces {
  import opened Records
  import opened Texts

  const MAX_CLOCK_SKEW := 120
  const NONCE_TTL := 120 * SECOND
  const NONCE_RETENTION := 600 * SECOND

  /** The row's key: the device and the normalised nonce. */
  datatype Key = Key(device: Id, nonce: string)

  type Rows = map<Key, Time>

  function NormalizedNonce(nonce: string): string {
    Lower(Strip(nonce))
  }

  predicate IsNonce(nonce: string) {
    |nonce| == 32 && AllLowerHex(nonce)
  }

  /** abs(int(time.time()) - timestamp) <= 120. */
  predicate InWindow(timestamp: int, now: Time) {
    -MAX_CLOCK_SKEW <= now / SECOND - timestamp <= MAX_CLOCK_SKEW
  }

  predicate Old(expires: Time, now: Time) {
    expires < now - NONCE_RETENTION
  }

  function OldRows(rows: Rows, now: Time): set<Key> {
    set k | k in rows && Old(rows[k], now)
  }

  function CleanedUp(rows: Rows, now: Time): Rows {
    rows - OldRows(rows, now)
  }

  /** Consuming a nonce: rows after it, and whether it was accepted. */
  predicate Consumption(
    rows: Rows, device: Id, nonce: string, cleanedAt: Time, now: Time, rows': Rows, accepted: bool)
  {
    var n := NormalizedNonce(nonce);
    var key := Key(device, n);
    if !IsNonce(n) then !accepted && rows' == rows
    else
      var rest := CleanedUp(rows, cleanedAt);
      && (accepted <==> key !in rest)
      && rows' == if accepted then rest[key := now + NONCE_TTL] else rest
  }

  /** The `used_nonces` table as one transaction sees it. */
  class NonceTable {
    var rows: Rows

    constructor ()
      ensures rows == map[]
    {
      rows := map[];
    }

    method CleanupOldNonces(now: Time)
      modifies this
      ensures rows == CleanedUp(old(rows), now)
    {
      rows := map k | k in rows && !(rows[k] < now - NONCE_RETENTION) :: rows[k];
    }

    /** The insert runs in a savepoint: a duplicate key undoes the insert alone. */
    method ConsumeNonce(device: Id, nonce: string, cleanedAt: Time, now: Time) returns (accepted: bool)
      modifies this
      ensures Consumption(old(rows), device, nonce, cleanedAt, now, rows, accepted)
    {
      var normalized := NormalizedNonce(nonce);
      if !IsNonce(normalized) {
        return false;
      }
      CleanupOldNonces(cleanedAt);
      var key := Key(device, normalized);
      var savepoint := rows;
      rows := rows[key := now + NONCE_TTL];
      if key in savepoint {
        rows := savepoint;
        return false;
      }
      return true;
    }
  }

  /** A fresh nonce is accepted: 32 hexadecimal digits in either case, blanks around them, that the
      device has no row for; it is remembered for 120 seconds past the reading, and other rows are
      kept unless they ended more than 600 seconds before the cleanup. */
  lemma FreshNoncesAreAccepted(
    rows: Rows, device: Id, nonce: string, cleanedAt: Time, now: Time, rows': Rows, accepted: bool, k: Key)
    requires Consumption(rows, device, nonce, cleanedAt, now, rows', accepted)
    ensures var n := Lower(Strip(nonce));
      var wellFormed := |n| == 32 && forall i | 0 <= i < 32 :: '0' <= n[i] <= '9' || 'a' <= n[i] <= 'f';
      && (!wellFormed ==> !accepted && rows' == rows)
      && (wellFormed && Key(device, n) !in rows ==> accepted)
      && (accepted ==>
            && wellFormed && rows'.Keys <= rows.Keys + {Key(device, n)}
            && Key(device, n) in rows' && rows'[Key(device, n)] == now + 120_000_000)
      && (wellFormed && k != Key(device, n) && k in rows ==>
            (k in rows' <==> cleanedAt - 600_000_000 <= rows[k]) && (k in rows' ==> rows'[k] == rows[k]))
  {
  }

  /** The same nonce again is refused by the next `NONCE_TTL + NONCE_RETENTION` of calls. */
  lemma SecondConsumptionFails(
    rows: Rows, device: Id, nonce: string, again: string, t0: Time, t1: Time, rows': Rows, t2: Time, t3: Time,
    rows'': Rows, accepted: bool)
    requires Consumption(rows, device, nonce, t0, t1, rows', true)
    requires Consumption(rows', device, again, t2, t3, rows'', accepted)
    requires NormalizedNonce(again) == NormalizedNonce(nonce) && t2 <= t1 + NONCE_TTL + NONCE_RETENTION
    ensures !accepted && Key(device, NormalizedNonce(nonce)) in rows''
  {
  }

  // ---------------------------------------------------------------- concurrent transactions

  /** An accepted call: what was consumed, the message's timestamp, when the timestamp was
      checked, the reading the row's expiry comes from, and when the row was inserted. */
  datatype Acceptance = Acceptance(key: Key, timestamp: int, checkedAt: Time, readAt: Time, insertedAt: Time)

  /** How far a handler's transaction has got. Cleanup and insert each read the clock first,
      and may then wait for another transaction. */
  datatype Stage =
    | Checked
    | Cleaning(cleanedAt: Time)
    | Cleaned(deletes: set<Key>)
    | Dated(deletes: set<Key>, readAt: Time)
    | Inserted(deletes: set<Key>, readAt: Time, insertedAt: Time)

  datatype Txn = Txn(key: Key, timestamp: int, checkedAt: Time, stage: Stage)

  /** Committed rows, open transactions, the clock, and the committed acceptances in order. */
  datatype World = World(rows: Rows, txns: map<Id, Txn>, clock: Time, accepted: seq<Acceptance>)

  function Deletes(t: Txn): set<Key> {
    if t.stage.Checked? || t.stage.Cleaning? then {} else t.stage.deletes
  }

  function Accepted(t: Txn): Acceptance
    requires t.stage.Inserted?
  {
    Acceptance(t.key, t.timestamp, t.checkedAt, t.stage.readAt, t.stage.insertedAt)
  }

  datatype Step =
    | Tick(now: Time)
    | Check(tx: Id, key: Key, timestamp: int)
    | ReadForCleanup(tx: Id)
    | Clean(tx: Id)
    | ReadForInsert(tx: Id)
    | Insert(tx: Id)
    | Commit(tx: Id)
    | Rollback(tx: Id)

  /** A statement that meets a row another transaction is deleting or inserting waits; it
      happens when that transaction has ended. */
  predicate Can(w: World, step: Step) {
    match step
    case Tick(now) => w.clock <= now
    case Check(tx, key, timestamp) => tx !in w.txns && InWindow(timestamp, w.clock)
    case ReadForCleanup(tx) => tx in w.txns && w.txns[tx].stage.Checked?
    case Clean(tx) =>
      && tx in w.txns && w.txns[tx].stage.Cleaning?
      && forall k | k in w.txns :: Deletes(w.txns[k]) !! OldRows(w.rows, w.txns[tx].stage.cleanedAt)
    case ReadForInsert(tx) => tx in w.txns && w.txns[tx].stage.Cleaned?
    case Insert(tx) =>
      && tx in w.txns && w.txns[tx].stage.Dated?
      && w.txns[tx].key !in w.rows.Keys - w.txns[tx].stage.deletes
      && forall k | k in w.txns && w.txns[k].stage.Inserted? :: w.txns[k].key != w.txns[tx].key
    case Commit(tx) => tx in w.txns && w.txns[tx].stage.Inserted?
    case Rollback(tx) => tx in w.txns
  }

  function Moved(w: World, tx: Id, stage: Stage): World
    requires tx in w.txns
  {
    w.(txns := w.txns[tx := w.txns[tx].(stage := stage)])
  }

  function Do(w: World, step: Step): World
    requires Can(w, step)
  {
    match step
    case Tick(now) => w.(clock := now)
    case Check(tx, key, timestamp) => w.(txns := w.txns[tx := Txn(key, timestamp, w.clock, Checked)])
    case ReadForCleanup(tx) => Moved(w, tx, Cleaning(w.clock))
    case Clean(tx) => Moved(w, tx, Cleaned(OldRows(w.rows, w.txns[tx].stage.cleanedAt)))
    case ReadForInsert(tx) => Moved(w, tx, Dated(w.txns[tx].stage.deletes, w.clock))
    case Insert(tx) =>
      var s := w.txns[tx].stage;
      Moved(w, tx, Inserted(s.deletes, s.readAt, w.clock))
    case Commit(tx) =>
      var t := w.txns[tx];
      w.(rows := (w.rows - t.stage.deletes)[t.key := t.stage.readAt + NONCE_TTL],
         txns := w.txns - {tx},
         accepted := w.accepted + [Accepted(t)])
    case Rollback(tx) => w.(txns := w.txns - {tx})
  }

  /** The second use of a nonce comes only after the first use's row could be cleaned up. */
  predicate FarApart(a: Acceptance, b: Acceptance) {
    a.key == b.key ==> a.readAt + NONCE_TTL + NONCE_RETENTION < b.insertedAt
  }

  /** The acceptance's row is still there, or old enough to have been cleaned up. */
  predicate Remembered(w: World, a: Acceptance) {
    || (a.key in w.rows && w.rows[a.key] >= a.readAt + NONCE_TTL)
    || a.readAt + NONCE_TTL + NONCE_RETENTION < w.clock
  }

  predicate Timely(a: Acceptance) {
    InWindow(a.timestamp, a.checkedAt) && a.checkedAt <= a.readAt <= a.insertedAt
  }

  predicate StageOk(w: World, t: Txn) {
    match t.stage
    case Checked => true
    case Cleaning(cleanedAt) => cleanedAt <= w.clock
    case Cleaned(_) => true
    case Dated(_, readAt) => t.checkedAt <= readAt <= w.clock
    case Inserted(deletes, readAt, insertedAt) =>
      && Timely(Accepted(t)) && insertedAt <= w.clock
      && t.key !in w.rows.Keys - deletes
      && forall i | 0 <= i < |w.accepted| :: FarApart(w.accepted[i], Accepted(t))
  }

  predicate TxnOk(w: World, t: Txn) {
    && InWindow(t.timestamp, t.checkedAt) && t.checkedAt <= w.clock
    && (forall k | k in Deletes(t) :: k in w.rows && Old(w.rows[k], w.clock))
    && StageOk(w, t)
  }

  predicate WorldOk(w: World) {
    && (forall i | 0 <= i < |w.accepted| :: Timely(w.accepted[i]) && Remembered(w, w.accepted[i]))
    && (forall i, j | 0 <= i < j < |w.accepted| :: FarApart(w.accepted[i], w.accepted[j]))
    && (forall tx | tx in w.txns :: TxnOk(w, w.txns[tx]))
    && (forall t, u | t in w.txns && u in w.txns && t != u :: Deletes(w.txns[t]) !! Deletes(w.txns[u]))
    && (forall t, u | t in w.txns && u in w.txns && t != u && w.txns[t].stage.Inserted? && w.txns[u].stage.Inserted? ::
          w.txns[t].key != w.txns[u].key)
  }

  lemma InsertKeepsOk(w: World, tx: Id)
    requires WorldOk(w) && Can(w, Insert(tx))
    ensures WorldOk(Do(w, Insert(tx)))
  {
    var t := w.txns[tx];
    var a := Accepted(Do(w, Insert(tx)).txns[tx]);
    assert TxnOk(w, t);
    forall i | 0 <= i < |w.accepted| ensures FarApart(w.accepted[i], a) {
      assert Remembered(w, w.accepted[i]);
    }
  }

  lemma CommitKeepsOk(w: World, tx: Id)
    requires WorldOk(w) && Can(w, Commit(tx))
    ensures WorldOk(Do(w, Commit(tx)))
  {
    var t := w.txns[tx];
    var w' := Do(w, Commit(tx));
    assert TxnOk(w, t);
    forall i | 0 <= i < |w'.accepted| ensures Timely(w'.accepted[i]) && Remembered(w', w'.accepted[i]) {
      if i < |w.accepted| {
        assert Remembered(w, w.accepted[i]);
        assert FarApart(w.accepted[i], Accepted(t));
      }
    }
    forall u | u in w'.txns ensures TxnOk(w', w'.txns[u]) {
      CommitKeepsTxn(w, tx, u);
    }
  }

  lemma CommitKeepsTxn(w: World, tx: Id, u: Id)
    requires WorldOk(w) && Can(w, Commit(tx)) && u in w.txns && u != tx
    ensures TxnOk(Do(w, Commit(tx)), w.txns[u])
  {
    var t := w.txns[tx];
    assert TxnOk(w, t) && TxnOk(w, w.txns[u]);
    assert Deletes(w.txns[u]) !! Deletes(t);
    forall k | k in Deletes(w.txns[u]) ensures k != t.key {
      assert k in w.rows.Keys - t.stage.deletes;
    }
  }

  /** Steps of a transaction that has not inserted its row. */
  lemma MovedKeepsOk(w: World, tx: Id, stage: Stage)
    requires WorldOk(w) && tx in w.txns && !stage.Inserted?
    requires TxnOk(w, w.txns[tx].(stage := stage))
    requires forall u | u in w.txns && u != tx :: Deletes(w.txns[u]) !! Deletes(w.txns[tx].(stage := stage))
    ensures WorldOk(Moved(w, tx, stage))
  {
    var w' := Moved(w, tx, stage);
    forall u | u in w'.txns ensures TxnOk(w', w'.txns[u]) {
      assert u != tx ==> TxnOk(w, w.txns[u]);
    }
  }

  lemma TickKeepsOk(w: World, now: Time)
    requires WorldOk(w) && w.clock <= now
    ensures WorldOk(w.(clock := now))
  {
    forall tx | tx in w.txns ensures TxnOk(w.(clock := now), w.txns[tx]) {
      assert TxnOk(w, w.txns[tx]);
    }
  }

  lemma RollbackKeepsOk(w: World, tx: Id)
    requires WorldOk(w)
    ensures WorldOk(w.(txns := w.txns - {tx}))
  {
    var w' := w.(txns := w.txns - {tx});
    forall u | u in w'.txns ensures TxnOk(w', w'.txns[u]) {
      assert TxnOk(w, w.txns[u]);
    }
  }

  lemma StepKeepsOk(w: World, step: Step)
    requires WorldOk(w) && Can(w, step)
    ensures WorldOk(Do(w, step))
  {
    match step {
      case Insert(tx) => InsertKeepsOk(w, tx);
      case Commit(tx) => CommitKeepsOk(w, tx);
      case Tick(now) => TickKeepsOk(w, now);
      case Check(_, _, _) =>
      case ReadForCleanup(tx) => MovedKeepsOk(w, tx, Cleaning(w.clock));
      case Clean(tx) =>
        assert TxnOk(w, w.txns[tx]);
        MovedKeepsOk(w, tx, Cleaned(OldRows(w.rows, w.txns[tx].stage.cleanedAt)));
      case ReadForInsert(tx) =>
        assert TxnOk(w, w.txns[tx]);
        MovedKeepsOk(w, tx, Dated(w.txns[tx].stage.deletes, w.clock));
      case Rollback(tx) => RollbackKeepsOk(w, tx);
    }
  }

  ghost predicate Run(worlds: seq<World>, steps: seq<Step>) {
    && |worlds| == |steps| + 1
    && worlds[0].txns == map[] && worlds[0].accepted == []
    && forall i | 0 <= i < |steps| :: Can(worlds[i], steps[i]) && worlds[i + 1] == Do(worlds[i], steps[i])
  }

  lemma {:induction false} RunKeepsOk(worlds: seq<World>, steps: seq<Step>, n: nat)
    requires Run(worlds, steps) && n < |worlds|
    ensures WorldOk(worlds[n])
  {
    if n > 0 {
      RunKeepsOk(worlds, steps, n - 1);
      assert Can(worlds[n - 1], steps[n - 1]) && worlds[n - 1 + 1] == Do(worlds[n - 1], steps[n - 1]);
      StepKeepsOk(worlds[n - 1], steps[n - 1]);
    }
  }

  /** Whatever the cleanup schedule and the waits, a nonce is inserted again only more than
      twelve minutes after the clock reading of its last committed use. */
  lemma CommittedUsesAreFarApart(worlds: seq<World>, steps: seq<Step>, n: nat, i: nat, j: nat)
    requires Run(worlds, steps) && n < |worlds| && i < j < |worlds[n].accepted|
    requires worlds[n].accepted[i].key == worlds[n].accepted[j].key
    ensures worlds[n].accepted[i].readAt + 720 * SECOND < worlds[n].accepted[j].insertedAt
  {
    RunKeepsOk(worlds, steps, n);
    assert FarApart(worlds[n].accepted[i], worlds[n].accepted[j]);
  }

  const MAX_DELAY := 479 * SECOND

  /** No message is accepted by two committed transactions, as long as each handler's insert of
      the nonce succeeds within 479 seconds of its check of the timestamp. */
  lemma NoMessageIsAcceptedTwice(worlds: seq<World>, steps: seq<Step>, n: nat, i: nat, j: nat)
    requires Run(worlds, steps) && n < |worlds| && i < j < |worlds[n].accepted|
    requires worlds[n].accepted[j].insertedAt <= worlds[n].accepted[j].checkedAt + MAX_DELAY
    ensures worlds[n].accepted[i].key != worlds[n].accepted[j].key
      || worlds[n].accepted[i].timestamp != worlds[n].accepted[j].timestamp
  {
    var a, b := worlds[n].accepted[i], worlds[n].accepted[j];
    RunKeepsOk(worlds, steps, n);
    assert Timely(a) && Timely(b) && FarApart(a, b);
    if a.key == b.key && a.timestamp == b.timestamp {
      WindowBounds(a.timestamp, a.checkedAt);
      WindowBounds(b.timestamp, b.checkedAt);
    }
  }

  /** A timestamp is acceptable from 120 seconds before it to the end of the 120th second after. */
  lemma WindowBounds(timestamp: int, now: Time)
    ensures InWindow(timestamp, now) <==> (timestamp - 120) * SECOND <= now < (timestamp + 121) * SECOND
  {
  }

  // ---------------------------------------------------------------- the bound is tight

  function Twice(key: Key): seq<World> {
    var row := map[key := NONCE_TTL];
    var late := 720 * SECOND + 1;
    var checked := 241 * SECOND - 1;
    var first, second := Txn(key, 120, 0, Checked), Txn(key, 120, checked, Checked);
    var done := Acceptance(key, 120, 0, 0, 0);
    [ World(map[], map[], 0, []),
      World(map[], map[1 := first], 0, []),
      World(map[], map[1 := first.(stage := Cleaning(0))], 0, []),
      World(map[], map[1 := first.(stage := Cleaned({}))], 0, []),
      World(map[], map[1 := first.(stage := Dated({}, 0))], 0, []),
      World(map[], map[1 := first.(stage := Inserted({}, 0, 0))], 0, []),
      World(row, map[], 0, [done]),
      World(row, map[], checked, [done]),
      World(row, map[2 := second], checked, [done]),
      World(row, map[2 := second], late, [done]),
      World(row, map[2 := second.(stage := Cleaning(late))], late, [done]),
      World(row, map[2 := second.(stage := Cleaned({key}))], late, [done]),
      World(row, map[2 := second.(stage := Dated({key}, late))], late, [done]),
      World(row, map[2 := second.(stage := Inserted({key}, late, late))], late, [done]),
      World(map[key := late + NONCE_TTL], map[], late, [done, Acceptance(key, 120, checked, late, late)]) ]
  }

  function TwiceSteps(key: Key): seq<Step> {
    [ Check(1, key, 120), ReadForCleanup(1), Clean(1), ReadForInsert(1), Insert(1), Commit(1),
      Tick(241 * SECOND - 1), Check(2, key, 120), Tick(720 * SECOND + 1),
      ReadForCleanup(2), Clean(2), ReadForInsert(2), Insert(2), Commit(2) ]
  }

  lemma FirstUseHappens(key: Key, i: nat)
    requires i < 7
    ensures Can(Twice(key)[i], TwiceSteps(key)[i]) && Twice(key)[i + 1] == Do(Twice(key)[i], TwiceSteps(key)[i])
  {
    var w := Twice(key)[i];
    if i == 2 {
      assert OldRows(w.rows, 0) == {};
    } else if i == 5 {
      assert w.rows - w.txns[1].stage.deletes == map[];
      assert w.txns - {1} == map[];
    }
  }

  lemma SecondUseHappens(key: Key, i: nat)
    requires 7 <= i < 14
    ensures Can(Twice(key)[i], TwiceSteps(key)[i]) && Twice(key)[i + 1] == Do(Twice(key)[i], TwiceSteps(key)[i])
  {
    var w := Twice(key)[i];
    if i == 10 {
      assert OldRows(w.rows, w.clock) == {key};
    } else if i == 12 {
      assert w.rows.Keys - {key} == {};
    } else if i == 13 {
      assert w.rows - w.txns[2].stage.deletes == map[];
      assert w.txns - {2} == map[];
    }
  }

  /** With two microseconds more between the check and the consumption, a message can be
      accepted twice. */
  lemma DelayBoundIsTight(key: Key) returns (worlds: seq<World>, steps: seq<Step>)
    ensures Run(worlds, steps)
    ensures var accepted := worlds[|steps|].accepted;
      && |accepted| == 2
      && accepted[0].key == accepted[1].key && accepted[0].timestamp == accepted[1].timestamp
      && accepted[1].insertedAt == accepted[1].checkedAt + MAX_DELAY + 2
  {
    worlds, steps := Twice(key), TwiceSteps(key);
    forall i | 0 <= i < |steps| ensures Can(worlds[i], steps[i]) && worlds[i + 1] == Do(worlds[i], steps[i]) {
      if i < 7 {
        FirstUseHappens(key, i);
      } else {
        SecondUseHappens(key, i);
      }
    }
  }
}
