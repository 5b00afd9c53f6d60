/** The failure-based rate limiter, as a sliding window over the audit log. */
module RateLimit {
  import opened Records
  import AuditEvents
  import AuditLog
  import Texts

  const WINDOW: int := 300 * SECOND
  const MAX_FAILURES := 10

  /** A row of the audit log. `call` is the clock reading of the limiter when the row was
      written by a request that the limiter let through; it is not a column. */
  datatype Row = Row(source: Option<string>, device: Option<Id>, outcome: string, createdAt: Time, call: Option<Time>)

  predicate Counted(outcome: string) {
    outcome in {"FAILED", "FAILURE", "DENIED"}
  }

  /** The query's conditions; without a device it counts every device of the source. */
  predicate Matches(row: Row, source: string, device: Option<Id>, since: Time) {
    && Counted(row.outcome) && row.source == Some(source) && row.createdAt >= since
    && (device.Some? ==> row.device == device)
  }

  function Failures(log: seq<Row>, source: string, device: Option<Id>, now: Time): set<nat> {
    set i | 0 <= i < |log| && Matches(log[i], source, device, now - WINDOW)
  }

  predicate IsRateLimited(log: seq<Row>, source: Option<string>, device: Option<Id>, now: Time) {
    source.Some? && |Failures(log, source.value, device, now)| >= MAX_FAILURES
  }

  /** The rows a sequence of requests leaves: a row of an admitted request was preceded by a
      limiter query over all earlier rows that did not block it. */
  predicate Sequential(log: seq<Row>) {
    forall i | 0 <= i < |log| && log[i].call.Some? ::
      && log[i].call.value <= log[i].createdAt
      && !IsRateLimited(log[..i], log[i].source, log[i].device, log[i].call.value)
  }

  /** Failures of admitted requests of one source and device within a window. */
  function AdmittedFailures(log: seq<Row>, source: string, device: Id, start: Time): set<nat> {
    set i | 0 <= i < |log| && log[i].call.Some? && Matches(log[i], source, Some(device), start)
            && log[i].createdAt <= start + WINDOW
  }

  lemma {:induction false} GreatestExists(s: set<nat>) returns (m: nat)
    requires s != {}
    ensures m in s && forall k | k in s :: k <= m
    decreases s
  {
    var x :| x in s;
    var rest := s - {x};
    if rest == {} {
      m := x;
      forall k | k in s ensures k == x {
        assert k !in rest;
      }
    } else {
      var y := GreatestExists(rest);
      m := if x > y then x else y;
      forall k | k in s ensures k <= m {
        assert k == x || k in rest;
      }
    }
  }

  lemma SubsetIsSmaller(a: set<nat>, b: set<nat>)
    requires a <= b
    ensures |a| <= |b|
  {
    assert b == a + (b - a);
  }

  /** Over all runs, any window of 300 seconds holds at most ten failures of requests the
      limiter admitted, for each source and device. */
  lemma AtMostTenAdmittedFailures(log: seq<Row>, source: string, device: Id, start: Time)
    requires Sequential(log)
    ensures |AdmittedFailures(log, source, device, start)| <= MAX_FAILURES
  {
    var admitted := AdmittedFailures(log, source, device, start);
    if |admitted| > MAX_FAILURES {
      var m := GreatestExists(admitted);
      var row := log[m];
      var earlier := admitted - {m};
      assert |earlier| >= MAX_FAILURES;
      var failures := Failures(log[..m], source, Some(device), row.call.value);
      forall i | i in earlier ensures i in failures {
        assert log[..m][i] == log[i];
      }
      SubsetIsSmaller(earlier, failures);
      assert IsRateLimited(log[..m], row.source, row.device, row.call.value);
    }
  }

  // ---------------------------------------------------------------- blocked attempts count

  /** A blocked attempt is recorded with an outcome that counts. */
  lemma BlockedAttemptsCount(outcome: string)
    ensures AuditLog.NormalizedOutcome(outcome, "RATE_LIMIT_BLOCKED") == Some("DENIED")
    ensures Counted("DENIED")
  {
  }

  /** The log and the limiter agree: a stored event counts against its source exactly when its type
      is a denial or the caller did not report SUCCESS. */
  lemma StoredEventsCount(draft: AuditEvents.Event)
    requires AuditLog.Normalized(draft).Some?
    ensures Counted(AuditLog.Normalized(draft).value.outcome) <==>
      || draft.eventType in {
           "HMAC_REJECTED", "NONCE_REPLAY_REJECTED", "DEVICE_CHALLENGE_REJECTED", "DEVICE_AUTH_FAILED",
           "USER_LOGIN_FAILED", "ADMIN_LOGIN_FAILED", "RATE_LIMIT_BLOCKED"}
      || Texts.Upper(Texts.Strip(draft.outcome)) != "SUCCESS"
  {
  }

  /** Successes never count, whatever else the row says, and neither do other sources, other
      devices, or rows more than 300 seconds old; failures and denials of the source do. */
  lemma WhatCounts(row: Row, source: string, device: Option<Id>, now: Time)
    ensures Matches(row, source, device, now - 300_000_000) <==>
      && row.outcome in {"FAILED", "FAILURE", "DENIED"} && row.source == Some(source)
      && now - row.createdAt <= 300_000_000 && (device.None? || row.device == device)
    ensures row.outcome == "SUCCESS" ==> !Matches(row, source, device, now - 300_000_000)
  {
  }

  function Members(rows: seq<nat>): set<nat> {
    set k | k in rows
  }

  /** A caller is limited exactly when ten different rows of the last 300 seconds count against it;
      without a source address, never. */
  lemma LimitedExactlyAfterTen(log: seq<Row>, source: Option<string>, device: Option<Id>, now: Time)
    ensures IsRateLimited(log, source, device, now) <==>
      source.Some? && exists rows: seq<nat> :: TenOf(log, rows, source.value, device, now)
  {
    if source.Some? {
      var failures := Failures(log, source.value, device, now);
      if |failures| >= MAX_FAILURES {
        var rows := TakeTen(failures, MAX_FAILURES);
        assert TenOf(log, rows, source.value, device, now);
      }
      forall rows: seq<nat> | TenOf(log, rows, source.value, device, now) ensures |failures| >= MAX_FAILURES {
        DistinctAreMany(rows);
        SubsetIsSmaller(Members(rows), failures);
      }
    }
  }

  /** Ten different rows that count. */
  predicate TenOf(log: seq<Row>, rows: seq<nat>, source: string, device: Option<Id>, now: Time) {
    && |rows| == 10
    && (forall j, k | 0 <= j < k < |rows| :: rows[j] != rows[k])
    && forall k | 0 <= k < |rows| ::
         && rows[k] < |log| && log[rows[k]].outcome in {"FAILED", "FAILURE", "DENIED"}
         && log[rows[k]].source == Some(source) && now - log[rows[k]].createdAt <= 300_000_000
         && (device.None? || log[rows[k]].device == device)
  }

  lemma {:induction false} TakeTen(s: set<nat>, n: nat) returns (rows: seq<nat>)
    requires |s| >= n
    ensures |rows| == n && (forall k | 0 <= k < n :: rows[k] in s)
    ensures forall j, k | 0 <= j < k < n :: rows[j] != rows[k]
    decreases n
  {
    if n == 0 {
      rows := [];
    } else {
      var x :| x in s;
      var rest := TakeTen(s - {x}, n - 1);
      rows := rest + [x];
    }
  }

  lemma {:induction false} DistinctAreMany(rows: seq<nat>)
    requires forall j, k | 0 <= j < k < |rows| :: rows[j] != rows[k]
    ensures |Members(rows)| == |rows|
  {
    if rows != [] {
      var front, last := rows[..|rows| - 1], rows[|rows| - 1];
      DistinctAreMany(front);
      assert rows == front + [last];
      assert last !in front;
      assert Members(rows) == Members(front) + {last};
    }
  }

  const SPACING: int := 30 * SECOND

  /** Counted rows of the source and device, each at most 30 seconds after the one before. */
  predicate Spaced(log: seq<Row>, rows: seq<nat>, source: string, device: Id) {
    && (forall k | 0 <= k < |rows| ::
          rows[k] < |log| && Counted(log[rows[k]].outcome)
          && log[rows[k]].source == Some(source) && log[rows[k]].device == Some(device))
    && Increasing(rows)
    && forall k | 0 < k < |rows| :: log[rows[k]].createdAt <= log[rows[k - 1]].createdAt + SPACING
  }

  predicate Increasing(rows: seq<nat>) {
    forall j, k | 0 <= j < k < |rows| :: rows[j] < rows[k]
  }

  lemma {:induction false} SpacedBack(log: seq<Row>, rows: seq<nat>, source: string, device: Id, k: nat)
    requires Spaced(log, rows, source, device) && k < |rows|
    ensures log[rows[|rows| - 1]].createdAt <= log[rows[k]].createdAt + (|rows| - 1 - k) * SPACING
    decreases |rows| - k
  {
    if k < |rows| - 1 {
      SpacedBack(log, rows, source, device, k + 1);
      assert log[rows[k + 1]].createdAt <= log[rows[k + 1 - 1]].createdAt + SPACING;
    }
  }

  /** Ten failures at most 30 seconds apart block any attempt within 30 seconds of the last. */
  lemma SpacedFailuresBlock(log: seq<Row>, rows: seq<nat>, source: string, device: Id, now: Time)
    requires Spaced(log, rows, source, device) && |rows| >= MAX_FAILURES
    requires now <= log[rows[|rows| - 1]].createdAt + SPACING
    ensures IsRateLimited(log, Some(source), Some(device), now)
  {
    var first := |rows| - MAX_FAILURES;
    var recent := rows[first..];
    DistinctAreMany(recent);
    var failures := Failures(log, source, Some(device), now);
    forall m | m in Members(recent) ensures m in failures {
      var j :| 0 <= j < |recent| && recent[j] == m;
      SpacedBack(log, rows, source, device, first + j);
      assert rows[first + j] == m;
    }
    SubsetIsSmaller(Members(recent), failures);
  }

  /** An attempt: when the limiter read its clock, and when the row it left was stamped. */
  datatype Attempt = Attempt(readAt: Time, createdAt: Time)

  function BlockedRow(source: string, device: Id, a: Attempt): Row {
    Row(Some(source), Some(device), "DENIED", a.createdAt, None)
  }

  /** Each attempt comes, and is recorded, at most 30 seconds after the last recorded failure. */
  predicate KeepComing(last: Time, attempts: seq<Attempt>)
    decreases |attempts|
  {
    attempts == []
    || (attempts[0].readAt <= attempts[0].createdAt <= last + SPACING
        && KeepComing(attempts[0].createdAt, attempts[1..]))
  }

  /** Every attempt in turn is blocked, and leaves its row. */
  predicate AllBlocked(log: seq<Row>, source: string, device: Id, attempts: seq<Attempt>)
    decreases |attempts|
  {
    attempts == []
    || (IsRateLimited(log, Some(source), Some(device), attempts[0].readAt)
        && AllBlocked(log + [BlockedRow(source, device, attempts[0])], source, device, attempts[1..]))
  }

  /** After ten failures at most 30 seconds apart, attempts stay blocked for as long as they
      keep coming at that spacing, however many there are. */
  lemma {:induction false} AttemptsStayBlocked(
    log: seq<Row>, rows: seq<nat>, source: string, device: Id, attempts: seq<Attempt>)
    requires Spaced(log, rows, source, device) && |rows| >= MAX_FAILURES
    requires KeepComing(log[rows[|rows| - 1]].createdAt, attempts)
    ensures AllBlocked(log, source, device, attempts)
    decreases |attempts|
  {
    if attempts != [] {
      var a := attempts[0];
      SpacedFailuresBlock(log, rows, source, device, a.readAt);
      var log' := log + [BlockedRow(source, device, a)];
      var rows' := rows + [|log|];
      assert Spaced(log', rows', source, device);
      AttemptsStayBlocked(log', rows', source, device, attempts[1..]);
    }
  }
}
