/** The hash-chained audit log: how events are sealed under the chain lock, what the verifier
    reports, and which alterations it detects. */
module AuditChain {
  import opened Records
  import opened Texts
  import opened AuditValues
  import opened AuditEvents

  // ---------------------------------------------------------------- the verifier

  predicate Sealed(e: Event) {
    e.previousHash.Some? && e.eventHash.Some?
  }

  predicate Unsealed(e: Event) {
    e.previousHash.None? && e.eventHash.None?
  }

  /** The row and every row before it predate the chain. */
  predicate Historical(log: seq<Event>, i: nat)
    requires i < |log|
  {
    forall j | 0 <= j <= i :: Unsealed(log[j])
  }

  function Expected(log: seq<Event>, i: nat): string
    requires i < |log|
  {
    if i > 0 && log[i - 1].eventHash.Some? then log[i - 1].eventHash.value else GENESIS
  }

  /** The row is sealed and linked to the row before it. */
  predicate LinkedRow(log: seq<Event>, i: nat, h: Hasher)
    requires i < |log|
  {
    Sealed(log[i]) && log[i].previousHash.value == Expected(log, i) && log[i].eventHash.value == h(log[i])
  }

  predicate Good(log: seq<Event>, i: nat, h: Hasher)
    requires i < |log|
  {
    Historical(log, i) || LinkedRow(log, i, h)
  }

  predicate GoodUpTo(log: seq<Event>, n: nat, h: Hasher)
    requires n <= |log|
  {
    forall i | 0 <= i < n :: Good(log, i, h)
  }

  /** An unsealed prefix followed by a chain linked from genesis. */
  predicate Intact(log: seq<Event>, h: Hasher) {
    GoodUpTo(log, |log|, h)
  }

  predicate FirstViolation(log: seq<Event>, i: nat, h: Hasher) {
    i < |log| && GoodUpTo(log, i, h) && !Good(log, i, h)
  }

  /** How many rows at the start predate the chain. */
  function Prefix(log: seq<Event>): (n: nat)
    ensures n <= |log|
    ensures forall j | 0 <= j < n :: Unsealed(log[j])
    ensures n < |log| ==> !Unsealed(log[n])
  {
    if log == [] || !Unsealed(log[0]) then 0 else 1 + Prefix(log[1..])
  }

  lemma PrefixIs(log: seq<Event>, n: nat)
    requires n <= |log| && (forall j | 0 <= j < n :: Unsealed(log[j])) && (n < |log| ==> !Unsealed(log[n]))
    ensures Prefix(log) == n
  {
  }

  datatype Report = Report(valid: bool, historical: nat, chained: nat, checked: nat, firstInvalid: Option<Uuid>)

  /** Row `i` is the first violation, and the counts cover the rows up to it. */
  predicate Blames(log: seq<Event>, h: Hasher, r: Report, i: nat) {
    && FirstViolation(log, i, h) && r.firstInvalid == Some(log[i].id)
    && r.historical == Prefix(log[..i]) && r.historical + r.checked == i + 1
    && r.chained == if Sealed(log[i]) then r.checked else r.checked - 1
  }

  /** The report is valid exactly for an intact log, names the least violating row
      otherwise, and its counts account for every row read. */
  ghost predicate Accurate(log: seq<Event>, h: Hasher, r: Report) {
    && (r.valid <==> Intact(log, h))
    && (r.valid ==> r.firstInvalid.None? && r.historical == Prefix(log)
                    && r.historical + r.chained == |log| && r.checked == r.chained)
    && (!r.valid ==> exists i :: Blames(log, h, r, i))
  }

  method VerifyAuditChain(log: seq<Event>, h: Hasher) returns (r: Report)
    ensures Accurate(log, h, r)
  {
    var historical, chained, checked := 0, 0, 0;
    var expectedPrevious, chainStarted := GENESIS, false;
    for i := 0 to |log|
      invariant GoodUpTo(log, i, h)
      invariant historical + chained == i && checked == chained
      invariant chainStarted <==> chained > 0
      invariant forall j | 0 <= j < historical :: Unsealed(log[j])
      invariant forall j | historical <= j < i :: Sealed(log[j])
      invariant i < |log| ==> expectedPrevious == Expected(log, i)
    {
      var event := log[i];
      if event.previousHash.None? && event.eventHash.None? && !chainStarted {
        historical := historical + 1;
        assert Historical(log, i);
        continue;
      }
      NotHistorical(log, i, historical);
      if event.previousHash.None? || event.eventHash.None? {
        r := Report(false, historical, chained, checked + 1, Some(event.id));
        assert Blames(log, h, r, i);
        return;
      }
      chainStarted := true;
      chained := chained + 1;
      checked := checked + 1;
      if event.previousHash.value != expectedPrevious || event.eventHash.value != h(event) {
        r := Report(false, historical, chained, checked, Some(event.id));
        assert Blames(log, h, r, i);
        return;
      }
      expectedPrevious := event.eventHash.value;
    }
    PrefixIs(log, historical);
    return Report(true, historical, chained, checked, None);
  }

  /** The row at which the verifier's first branch is no longer taken. */
  lemma NotHistorical(log: seq<Event>, i: nat, historical: nat)
    requires historical <= i < |log| && (forall j | 0 <= j < historical :: Unsealed(log[j]))
    requires forall j | historical <= j < i :: Sealed(log[j])
    requires historical < i || !Unsealed(log[i])
    ensures !Historical(log, i) && Prefix(log[..i]) == historical
  {
    PrefixIs(log[..i], historical);
    assert !Unsealed(log[historical]);
  }

  // ---------------------------------------------------------------- appending

  /** ORDER BY created_at, id. */
  predicate Earlier(a: Event, b: Event) {
    a.createdAt < b.createdAt || (a.createdAt == b.createdAt && a.id < b.id)
  }

  /** The query for the last sealed row. */
  predicate LatestChained(rows: seq<Event>, latest: Option<Event>) {
    if latest.None? then forall e | e in rows :: e.eventHash.None?
    else
      && latest.value in rows && latest.value.eventHash.Some?
      && forall e | e in rows && e.eventHash.Some? :: e == latest.value || Earlier(e, latest.value)
  }

  /** A clock that stalls or runs backwards still yields a later instant. */
  function NowAfter(previous: Option<Event>, now: Time): (t: Time)
    ensures previous.Some? ==> previous.value.createdAt < t
    ensures t >= now
  {
    if previous.Some? && now <= previous.value.createdAt then previous.value.createdAt + 1 else now
  }

  /** The new instant is the least that is not before the clock and after the previous event. */
  lemma NowAfterIsLeast(previous: Option<Event>, now: Time, t: Time)
    requires now <= t && (previous.Some? ==> previous.value.createdAt < t)
    ensures NowAfter(previous, now) <= t
  {
  }

  function HashBefore(previous: Option<Event>): string {
    if previous.Some? && previous.value.eventHash.Some? then previous.value.eventHash.value else GENESIS
  }

  /** Complete a draft row and seal it after `previous`. */
  function Seal(draft: Event, previous: Option<Event>, now: Time, h: Hasher): Event {
    var e := draft.(createdAt := NowAfter(previous, now), previousHash := Some(HashBefore(previous)));
    e.(eventHash := Some(h(e)))
  }

  /** Sealing fills three columns and no other: the instant, the hash of the row before, 64 zeros
      when there is none, and the hash of the row with both. */
  lemma SealingFillsThreeColumns(draft: Event, previous: Option<Event>, now: Time, h: Hasher)
    ensures var e := Seal(draft, previous, now, h);
      && e == draft.(createdAt := e.createdAt, previousHash := e.previousHash, eventHash := e.eventHash)
      && now <= e.createdAt && e.previousHash.Some? && e.eventHash == Some(h(e.(eventHash := draft.eventHash)))
      && (previous.None? ==>
            && e.createdAt == now
            && e.previousHash == Some("0000000000000000000000000000000000000000000000000000000000000000"))
      && (previous.Some? && previous.value.eventHash.Some? ==>
            e.previousHash == previous.value.eventHash && previous.value.createdAt < e.createdAt)
  {
  }

  /** Committed rows, the uncommitted rows of each open transaction, and the chain lock. */
  datatype State = State(history: seq<Event>, chain: seq<Event>, pending: map<Id, seq<Event>>, holder: Option<Id>)

  function PendingOf(s: State, tx: Id): seq<Event> {
    if tx in s.pending then s.pending[tx] else []
  }

  /** What a statement of the transaction sees. */
  function Visible(s: State, tx: Id): seq<Event> {
    s.history + (s.chain + PendingOf(s, tx))
  }

  datatype Step =
    | Acquire(tx: Id)
    | Write(tx: Id, draft: Event, now: Time, previous: Option<Event>)
    | Commit(tx: Id)
    | Rollback(tx: Id)

  predicate Can(s: State, step: Step) {
    match step
    case Acquire(tx) => s.holder.None? || s.holder == Some(tx)
    case Write(tx, draft, _, previous) =>
      && s.holder == Some(tx)
      && LatestChained(Visible(s, tx), previous)
      && forall e | e in Visible(s, tx) :: e.id != draft.id
    case Commit(tx) => true
    case Rollback(tx) => true
  }

  function Freed(s: State, tx: Id): Option<Id> {
    if s.holder == Some(tx) then None else s.holder
  }

  function Do(s: State, step: Step, h: Hasher): State {
    match step
    case Acquire(tx) => s.(holder := Some(tx))
    case Write(tx, draft, now, previous) =>
      s.(pending := s.pending[tx := PendingOf(s, tx) + [Seal(draft, previous, now, h)]])
    case Commit(tx) =>
      s.(chain := s.chain + PendingOf(s, tx), pending := s.pending - {tx}, holder := Freed(s, tx))
    case Rollback(tx) => s.(pending := s.pending - {tx}, holder := Freed(s, tx))
  }

  /** Row `i` continues the chain: linked from genesis, at a later instant. */
  predicate Continues(c: seq<Event>, i: nat, h: Hasher)
    requires i < |c|
  {
    && LinkedRow(c, i, h)
    && (i > 0 ==> c[i - 1].createdAt < c[i].createdAt)
  }

  predicate Chained(c: seq<Event>, h: Hasher) {
    forall i | 0 <= i < |c| :: Continues(c, i, h)
  }

  predicate DistinctIds(rows: seq<Event>) {
    forall i, j | 0 <= i < j < |rows| :: rows[i].id != rows[j].id
  }

  predicate AllUnsealed(rows: seq<Event>) {
    forall i | 0 <= i < |rows| :: Unsealed(rows[i])
  }

  /** Only the lock holder has uncommitted rows, and they extend the committed chain. */
  predicate StateOk(s: State, h: Hasher) {
    && AllUnsealed(s.history)
    && (forall tx | tx in s.pending :: s.pending[tx] == [] || s.holder == Some(tx))
    && Chained(s.chain, h) && DistinctIds(s.history + s.chain)
    && (s.holder.Some? ==>
          && Chained(s.chain + PendingOf(s, s.holder.value), h)
          && DistinctIds(Visible(s, s.holder.value)))
  }

  lemma {:induction false} InstantsIncrease(c: seq<Event>, i: nat, j: nat, h: Hasher)
    requires Chained(c, h) && i < j < |c|
    ensures c[i].createdAt < c[j].createdAt
    decreases j - i
  {
    assert Continues(c, j, h);
    if i + 1 < j {
      InstantsIncrease(c, i, j - 1, h);
    }
  }

  /** The query finds the end of the chain. */
  lemma LatestIsLast(history: seq<Event>, c: seq<Event>, latest: Option<Event>, h: Hasher)
    requires Chained(c, h) && AllUnsealed(history) && LatestChained(history + c, latest)
    ensures latest == if c == [] then None else Some(c[|c| - 1])
  {
    if c != [] {
      assert Continues(c, |c| - 1, h);
      assert c[|c| - 1] in history + c;
    }
    if latest.Some? {
      LatestIsInChain(history, c, latest.value, h);
    }
  }

  lemma LatestIsInChain(history: seq<Event>, c: seq<Event>, e: Event, h: Hasher)
    requires Chained(c, h) && AllUnsealed(history) && e in history + c && e.eventHash.Some?
    ensures c != [] && (e == c[|c| - 1] || Earlier(e, c[|c| - 1]))
  {
    assert e !in history;
    var k :| 0 <= k < |c| && c[k] == e;
    if k < |c| - 1 {
      InstantsIncrease(c, k, |c| - 1, h);
    }
  }

  function Last(c: seq<Event>): Option<Event> {
    if c == [] then None else Some(c[|c| - 1])
  }

  lemma SealExtends(c: seq<Event>, draft: Event, now: Time, h: Hasher)
    requires Chained(c, h) && SkipsItself(h)
    ensures Chained(c + [Seal(draft, Last(c), now, h)], h)
  {
    var e := Seal(draft, Last(c), now, h);
    var c' := c + [e];
    forall i | 0 <= i < |c'| ensures Continues(c', i, h) {
      if i < |c| {
        assert Continues(c, i, h);
      } else {
        assert e == e.(eventHash := None).(eventHash := e.eventHash);
        assert c != [] ==> Continues(c, |c| - 1, h);
      }
    }
  }

  /** Every step of every transaction keeps the log chained, whatever the clock does. */
  lemma StepKeepsLog(s: State, step: Step, h: Hasher)
    requires StateOk(s, h) && Can(s, step) && SkipsItself(h)
    ensures StateOk(Do(s, step, h), h)
  {
    match step {
      case Acquire(tx) => AcquireKeepsLog(s, tx, h);
      case Write(tx, draft, now, previous) => WriteKeepsLog(s, tx, draft, now, previous, h);
      case Commit(tx) => CommitKeepsLog(s, tx, h);
      case Rollback(tx) => assert s.holder.Some? && s.holder.value != tx ==> PendingOf(s, tx) == [];
    }
  }

  lemma AcquireKeepsLog(s: State, tx: Id, h: Hasher)
    requires StateOk(s, h) && Can(s, Acquire(tx))
    ensures StateOk(Do(s, Acquire(tx), h), h)
  {
    if s.holder.None? {
      assert PendingOf(s, tx) == [] && s.chain + [] == s.chain;
    }
  }

  lemma CommitKeepsLog(s: State, tx: Id, h: Hasher)
    requires StateOk(s, h)
    ensures StateOk(Do(s, Commit(tx), h), h)
  {
    if s.holder != Some(tx) {
      assert PendingOf(s, tx) == [] && s.chain + [] == s.chain;
    }
  }

  lemma WriteKeepsLog(s: State, tx: Id, draft: Event, now: Time, previous: Option<Event>, h: Hasher)
    requires StateOk(s, h) && Can(s, Write(tx, draft, now, previous)) && SkipsItself(h)
    ensures StateOk(Do(s, Write(tx, draft, now, previous), h), h)
  {
    var c := s.chain + PendingOf(s, tx);
    LatestIsLast(s.history, c, previous, h);
    SealExtends(c, draft, now, h);
    var e := Seal(draft, previous, now, h);
    FreshIdStaysDistinct(s.history + c, e);
    assert s.chain + (PendingOf(s, tx) + [e]) == c + [e];
    assert s.history + (c + [e]) == s.history + c + [e];
  }

  lemma FreshIdStaysDistinct(rows: seq<Event>, e: Event)
    requires DistinctIds(rows) && forall r | r in rows :: r.id != e.id
    ensures DistinctIds(rows + [e])
  {
    forall i | 0 <= i < |rows| ensures rows[i].id != e.id {
      assert rows[i] in rows;
    }
  }

  /** States in the order in which steps reach them, from a log with no sealed row. */
  ghost predicate Run(states: seq<State>, steps: seq<Step>, h: Hasher) {
    && |states| == |steps| + 1
    && AllUnsealed(states[0].history) && DistinctIds(states[0].history)
    && states[0].chain == [] && states[0].pending == map[] && states[0].holder.None?
    && forall i | 0 <= i < |steps| :: Can(states[i], steps[i]) && states[i + 1] == Do(states[i], steps[i], h)
  }

  lemma {:induction false} RunKeepsLog(states: seq<State>, steps: seq<Step>, h: Hasher, n: nat)
    requires Run(states, steps, h) && n < |states| && SkipsItself(h)
    ensures StateOk(states[n], h)
  {
    if n == 0 {
      assert states[0].history + states[0].chain == states[0].history;
    } else {
      RunKeepsLog(states, steps, h, n - 1);
      assert Can(states[n - 1], steps[n - 1]) && states[n - 1 + 1] == Do(states[n - 1], steps[n - 1], h);
      StepKeepsLog(states[n - 1], steps[n - 1], h);
    }
  }

  // ---------------------------------------------------------------- the committed log verifies

  predicate InOrder(rows: seq<Event>) {
    forall i, j | 0 <= i < j < |rows| :: Earlier(rows[i], rows[j])
  }

  predicate SameRows(a: seq<Event>, b: seq<Event>) {
    (forall e | e in a :: e in b) && (forall e | e in b :: e in a)
  }

  lemma FirstIsEarliest(a: seq<Event>, e: Event)
    requires InOrder(a) && e in a
    ensures e == a[0] || Earlier(a[0], e)
  {
  }

  /** Sorting has one result. */
  lemma {:induction false} SortedRowsAreUnique(a: seq<Event>, b: seq<Event>)
    requires InOrder(a) && InOrder(b) && SameRows(a, b)
    ensures a == b
    decreases |a|
  {
    assert |a| > 0 ==> a[0] in b;
    assert |b| > 0 ==> b[0] in a;
    if a != [] && b != [] {
      FirstIsEarliest(a, b[0]);
      FirstIsEarliest(b, a[0]);
      RestSameRows(a, b);
      RestSameRows(b, a);
      SortedRowsAreUnique(a[1..], b[1..]);
      assert a == [a[0]] + a[1..] && b == [b[0]] + b[1..];
    }
  }

  lemma RestSameRows(a: seq<Event>, b: seq<Event>)
    requires InOrder(a) && a != [] && b != [] && a[0] == b[0] && forall e | e in a :: e in b
    ensures forall e | e in a[1..] :: e in b[1..]
  {
    assert b == [b[0]] + b[1..];
    forall e | e in a[1..] ensures e in b[1..] {
      var i :| 0 <= i < |a[1..]| && a[1..][i] == e;
      assert Earlier(a[0], a[i + 1]);
      assert e in a && e in b;
    }
  }

  lemma ChainIsInOrder(c: seq<Event>, h: Hasher)
    requires Chained(c, h)
    ensures InOrder(c)
  {
    forall i, j | 0 <= i < j < |c| ensures Earlier(c[i], c[j]) {
      InstantsIncrease(c, i, j, h);
    }
  }

  /** Rows that predate the chain also sort before it. */
  predicate HistoryFirst(s: State) {
    s.chain == [] || forall e | e in s.history :: Earlier(e, s.chain[0])
  }

  /** Read in (created_at, id) order, the committed log verifies exactly when the unsealed
      rows sort before the first sealed one; the append order is then the reading order. */
  lemma CommittedLogVerifies(s: State, rows: seq<Event>, h: Hasher)
    requires StateOk(s, h) && InOrder(rows) && SameRows(rows, s.history + s.chain)
    ensures Intact(rows, h) <==> HistoryFirst(s)
    ensures HistoryFirst(s) ==> rows[Prefix(rows)..] == s.chain
  {
    if HistoryFirst(s) {
      TailIsChain(s, rows, h);
      ChainAfterPrefixIsIntact(rows, Prefix(rows), h);
    } else {
      LateHistoryBreaks(s, rows, h);
    }
  }

  /** After the first sealed row, every row is sealed. */
  lemma AfterTheChainStarts(s: State, rows: seq<Event>, h: Hasher, m: nat, j: nat)
    requires StateOk(s, h) && InOrder(rows) && HistoryFirst(s) && m <= j < |rows|
    requires rows[m] in s.chain && rows[j] in s.history + s.chain
    ensures rows[j] in s.chain
  {
    assert m < j ==> Earlier(rows[m], rows[j]);
    if rows[j] in s.history {
      ChainIsInOrder(s.chain, h);
      FirstIsEarliest(s.chain, rows[m]);
      assert Earlier(rows[j], s.chain[0]);
    }
  }

  lemma InChainExactlyWhenSealed(s: State, e: Event, h: Hasher)
    requires StateOk(s, h) && e in s.history + s.chain
    ensures e in s.chain <==> !Unsealed(e)
  {
    if e in s.chain {
      var k :| 0 <= k < |s.chain| && s.chain[k] == e;
      assert Continues(s.chain, k, h);
    }
  }

  lemma TailIsChain(s: State, rows: seq<Event>, h: Hasher)
    requires StateOk(s, h) && InOrder(rows) && SameRows(rows, s.history + s.chain) && HistoryFirst(s)
    ensures rows[Prefix(rows)..] == s.chain
  {
    var m := Prefix(rows);
    var tail := rows[m..];
    forall e | e in tail ensures e in s.chain {
      var j :| 0 <= j < |tail| && tail[j] == e;
      assert rows[m] in rows && rows[m + j] in rows;
      InChainExactlyWhenSealed(s, rows[m], h);
      AfterTheChainStarts(s, rows, h, m, m + j);
    }
    forall e | e in s.chain ensures e in tail {
      assert e in s.history + s.chain;
      InChainExactlyWhenSealed(s, e, h);
      assert rows == rows[..m] + tail;
      assert forall j | 0 <= j < m :: rows[..m][j] == rows[j];
      assert e !in rows[..m];
    }
    ChainIsInOrder(s.chain, h);
    SortedRowsAreUnique(tail, s.chain);
  }

  lemma ChainAfterPrefixIsIntact(rows: seq<Event>, m: nat, h: Hasher)
    requires m <= |rows| && (forall j | 0 <= j < m :: Unsealed(rows[j])) && Chained(rows[m..], h)
    ensures Intact(rows, h)
  {
    forall i | 0 <= i < |rows| ensures Good(rows, i, h) {
      if i < m {
        assert Historical(rows, i);
      } else {
        assert Continues(rows[m..], i - m, h);
      }
    }
  }

  lemma LateHistoryBreaks(s: State, rows: seq<Event>, h: Hasher)
    requires StateOk(s, h) && InOrder(rows) && SameRows(rows, s.history + s.chain) && !HistoryFirst(s)
    ensures !Intact(rows, h)
  {
    var e :| e in s.history && !Earlier(e, s.chain[0]);
    assert e in s.history + s.chain && s.chain[0] in s.history + s.chain;
    assert Continues(s.chain, 0, h);
    var j :| 0 <= j < |rows| && rows[j] == e;
    var i :| 0 <= i < |rows| && rows[i] == s.chain[0];
    assert Unsealed(rows[j]) && !Unsealed(rows[i]);
    assert i < j;
    assert !Good(rows, j, h);
  }

  /** Any number of transactions, interleaved in any way, with any clock: at every moment the
      committed log, read in order, is intact exactly when history sorts before the chain. */
  lemma CommittedLogAlwaysVerifies(states: seq<State>, steps: seq<Step>, o: Oracle, n: nat, rows: seq<Event>)
    requires Run(states, steps, Hashing(o)) && n < |states|
    requires InOrder(rows) && SameRows(rows, states[n].history + states[n].chain)
    ensures Intact(rows, Hashing(o)) <==> HistoryFirst(states[n])
  {
    HashingSkipsItself(o);
    RunKeepsLog(states, steps, Hashing(o), n);
    CommittedLogVerifies(states[n], rows, Hashing(o));
  }

  // ---------------------------------------------------------------- tamper evidence

  /** In a verified part, the row before a sealed row is sealed too or is the last historical one. */
  lemma SealedRow(log: seq<Event>, i: nat, h: Hasher)
    requires i < |log| && GoodUpTo(log, i + 1, h) && !Unsealed(log[i])
    ensures Prefix(log) <= i && LinkedRow(log, i, h)
    ensures i > Prefix(log) ==> LinkedRow(log, i - 1, h) && log[i].previousHash.value == h(log[i - 1])
    ensures i == Prefix(log) ==> log[i].previousHash.value == GENESIS
  {
    assert Good(log, i, h) && !Historical(log, i);
    if i > Prefix(log) {
      assert Good(log, i - 1, h);
      assert !Unsealed(log[Prefix(log)]);
      assert !Historical(log, i - 1);
    }
  }

  /** Rows `p` to `n` of `a` agree with those of `b` from `q` on. */
  predicate Agree(a: seq<Event>, p: nat, n: nat, b: seq<Event>, q: nat, same: Comparer) {
    p <= n <= |a| && n - p + q <= |b| && forall k | p <= k < n :: same(a[k], b[k - p + q])
  }

  /** Going back from two rows with one hash, the chains agree row by row to genesis. */
  lemma {:induction false} ChainsAgreeBackwards(a: seq<Event>, i: nat, b: seq<Event>, j: nat, h: Hasher, same: Comparer)
    requires Binding(h, same) && i < |a| && j < |b| && GoodUpTo(a, i + 1, h) && GoodUpTo(b, j + 1, h)
    requires !Unsealed(a[i]) && !Unsealed(b[j]) && h(a[i]) == h(b[j])
    ensures i - Prefix(a) == j - Prefix(b) >= 0
    ensures Agree(a, Prefix(a), i + 1, b, Prefix(b), same)
    decreases i
  {
    SealedRow(a, i, h);
    SealedRow(b, j, h);
    BindingStep(a[i], b[j], h, same);
    if i > Prefix(a) && j > Prefix(b) {
      ChainsAgreeBackwards(a, i - 1, b, j - 1, h, same);
    } else {
      NeverGenesis(a, i, b, j, h, same);
    }
    AgreeStep(a, Prefix(a), i, b, Prefix(b), same);
  }

  lemma BindingStep(x: Event, y: Event, h: Hasher, same: Comparer)
    requires Binding(h, same) && h(x) == h(y)
    ensures same(x, y) && x.previousHash == y.previousHash
  {
  }

  /** Two rows that carry the same predecessor hash are first in their chains together. */
  lemma NeverGenesis(a: seq<Event>, i: nat, b: seq<Event>, j: nat, h: Hasher, same: Comparer)
    requires Binding(h, same) && Prefix(a) <= i < |a| && Prefix(b) <= j < |b|
    requires a[i].previousHash.Some? && a[i].previousHash == b[j].previousHash
    requires if i == Prefix(a) then a[i].previousHash.value == GENESIS else a[i].previousHash.value == h(a[i - 1])
    requires if j == Prefix(b) then b[j].previousHash.value == GENESIS else b[j].previousHash.value == h(b[j - 1])
    ensures i == Prefix(a) <==> j == Prefix(b)
  {
  }

  lemma AgreeStep(a: seq<Event>, p: nat, i: nat, b: seq<Event>, q: nat, same: Comparer)
    requires p <= i < |a| && i - p + q < |b| && same(a[i], b[i - p + q])
    requires i > p ==> Agree(a, p, i, b, q, same)
    ensures Agree(a, p, i + 1, b, q, same)
  {
  }

  /** The last hash pins the whole chain: intact logs that end in one hash have the same
      number of sealed rows and agree on every hashed column of each. */
  lemma FinalHashPinsTheChain(a: seq<Event>, b: seq<Event>, h: Hasher, same: Comparer)
    requires Binding(h, same) && Intact(a, h) && Intact(b, h)
    requires a != [] && b != [] && Sealed(a[|a| - 1]) && Sealed(b[|b| - 1])
    requires a[|a| - 1].eventHash == b[|b| - 1].eventHash
    ensures |a| - Prefix(a) == |b| - Prefix(b)
    ensures Agree(a, Prefix(a), |a|, b, Prefix(b), same)
  {
    var i: nat, j: nat := |a| - 1, |b| - 1;
    LastRowsHashAlike(a, b, h);
    ChainsAgreeBackwards(a, i, b, j, h, same);
  }

  lemma LastRowsHashAlike(a: seq<Event>, b: seq<Event>, h: Hasher)
    requires Intact(a, h) && Intact(b, h) && a != [] && b != []
    requires Sealed(a[|a| - 1]) && Sealed(b[|b| - 1]) && a[|a| - 1].eventHash == b[|b| - 1].eventHash
    ensures h(a[|a| - 1]) == h(b[|b| - 1])
  {
    SealedRow(a, |a| - 1, h);
    SealedRow(b, |b| - 1, h);
  }

  /** Rows before an alteration are judged as before. */
  lemma UnchangedPrefixStaysGood(log: seq<Event>, log': seq<Event>, n: nat, h: Hasher)
    requires n <= |log| && n <= |log'| && GoodUpTo(log, n, h) && log[..n] == log'[..n]
    ensures GoodUpTo(log', n, h)
  {
    forall i | 0 <= i < n ensures Good(log', i, h) {
      assert Good(log, i, h);
      assert forall j | 0 <= j < n :: log[j] == log[..n][j] && log'[j] == log'[..n][j];
    }
  }

  /** Editing a sealed row without resealing it makes it the first invalid row; the edits
      that go unnoticed are exactly those that reach no hashed column. */
  lemma EditIsCaughtAtTheRow(log: seq<Event>, i: nat, e': Event, h: Hasher, same: Comparer)
    requires Binding(h, same) && Intact(log, h) && i < |log| && Sealed(log[i])
    requires e'.eventHash == log[i].eventHash
    ensures if same(log[i], e') then Intact(log[i := e'], h) else FirstViolation(log[i := e'], i, h)
  {
    var log' := log[i := e'];
    SealedRow(log, i, h);
    UnchangedPrefixStaysGood(log, log', i, h);
    assert Expected(log', i) == Expected(log, i);
    if same(log[i], e') {
      assert LinkedRow(log', i, h);
      forall j | i < j < |log| ensures Good(log', j, h) {
        assert Good(log, j, h);
        assert !Historical(log, j);
        assert Expected(log', j) == Expected(log, j);
      }
    } else {
      assert !LinkedRow(log', i, h);
      assert !Historical(log', i);
    }
  }

  /** Resealing the edited row moves the break to the next row; with no next row there is none. */
  lemma ResealedEditIsCaughtNext(log: seq<Event>, i: nat, e': Event, h: Hasher, same: Comparer)
    requires Binding(h, same) && Intact(log, h) && i < |log| && Sealed(log[i])
    requires e'.previousHash == log[i].previousHash && e'.eventHash == Some(h(e')) && !same(log[i], e')
    ensures if i + 1 < |log| then FirstViolation(log[i := e'], i + 1, h) else Intact(log[i := e'], h)
  {
    var log' := log[i := e'];
    SealedRow(log, i, h);
    UnchangedPrefixStaysGood(log, log', i, h);
    assert Expected(log', i) == Expected(log, i);
    assert LinkedRow(log', i, h);
    if i + 1 < |log| {
      assert Good(log, i + 1, h) && !Historical(log, i + 1);
      SealedRow(log, i + 1, h);
      assert Expected(log', i + 1) == h(e') != h(log[i]);
      assert !Historical(log', i + 1);
    }
  }

  /** Deleting a sealed row that is not the last makes its successor the first invalid row. */
  lemma DeletionIsCaughtAtTheSuccessor(log: seq<Event>, i: nat, h: Hasher, same: Comparer)
    requires Binding(h, same) && Intact(log, h) && DistinctIds(log) && i + 1 < |log| && Sealed(log[i])
    ensures FirstViolation(log[..i] + log[i + 1..], i, h)
  {
    var log' := log[..i] + log[i + 1..];
    assert log'[..i] == log[..i];
    UnchangedPrefixStaysGood(log, log', i, h);
    SealedRow(log, i, h);
    assert Good(log, i + 1, h) && !Historical(log, i + 1);
    SealedRow(log, i + 1, h);
    assert log'[i] == log[i + 1] && !Historical(log', i);
    if i > Prefix(log) {
      assert log'[i - 1] == log[i - 1];
      assert !same(log[i - 1], log[i]);
      assert Expected(log', i) == h(log[i - 1]);
    } else {
      assert i > 0 ==> log'[i - 1] == log[i - 1] && Unsealed(log[i - 1]);
      assert Expected(log', i) == GENESIS;
    }
  }

  /** Cutting rows off the end leaves an intact log: the chain cannot show it. */
  lemma TruncationIsInvisible(log: seq<Event>, n: nat, h: Hasher)
    requires Intact(log, h) && n <= |log|
    ensures Intact(log[..n], h)
  {
    assert log[..n][..n] == log[..n];
    UnchangedPrefixStaysGood(log, log[..n], n, h);
  }

  /** The chain does not see floats turned into the strings of their digits, wherever they stand
      inside the details. */
  lemma FloatEditIsInvisible(log: seq<Event>, i: nat, details: Value, o: Oracle)
    requires CollisionFree(o) && StampsDiffer(o) && Intact(log, Hashing(o)) && i < |log| && Sealed(log[i])
    requires FloatsAsText(log[i].details, details)
    ensures Intact(log[i := log[i].(details := details)], Hashing(o))
  {
    HashingIsBinding(o);
    FloatsAsTextAgree(log[i].details, details, o.stamp);
    EditIsCaughtAtTheRow(log, i, log[i].(details := details), Hashing(o), Comparing(o));
  }
}
