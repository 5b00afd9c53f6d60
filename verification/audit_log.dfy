/** The audit log as the service updates it: events written in the caller's transaction, or
    recorded in a transaction of their own. */
module AuditLog {
  import opened Records
  import opened Texts
  import opened AuditEvents
  import opened AuditChain
  import Messages

  // ---------------------------------------------------------------- normalisation

  const OUTCOMES := {"SUCCESS", "FAILURE", "DENIED"}

  /** Event types whose outcome is DENIED whatever the caller said. */
  const DENIALS := {
    "HMAC_REJECTED", "NONCE_REPLAY_REJECTED", "DEVICE_CHALLENGE_REJECTED", "DEVICE_AUTH_FAILED",
    "USER_LOGIN_FAILED", "ADMIN_LOGIN_FAILED", "RATE_LIMIT_BLOCKED"}

  /** `None` where the service raises ValueError. */
  function NormalizedOutcome(outcome: string, eventType: string): (r: Option<string>)
    ensures r.Some? ==> r.value in OUTCOMES
    ensures r.None? <==> eventType !in DENIALS && Upper(Strip(outcome)) !in OUTCOMES + {"FAILED"}
    ensures eventType !in DENIALS ==>
      && (r == Some("SUCCESS") <==> Upper(Strip(outcome)) == "SUCCESS")
      && (r == Some("FAILURE") <==> Upper(Strip(outcome)) == "FAILURE" || Upper(Strip(outcome)) == "FAILED")
      && (r == Some("DENIED") <==> Upper(Strip(outcome)) == "DENIED")
    ensures eventType in DENIALS ==> r == Some("DENIED")
  {
    var normalized := Upper(Strip(outcome));
    var renamed := if normalized == "FAILED" then "FAILURE" else normalized;
    var final := if eventType in DENIALS then "DENIED" else renamed;
    if final in OUTCOMES then Some(final) else None
  }

  /** Which value is stored, for every outcome the service's callers give. */
  lemma OutcomesStored(eventType: string)
    ensures eventType !in {"HMAC_REJECTED", "NONCE_REPLAY_REJECTED", "DEVICE_CHALLENGE_REJECTED", "DEVICE_AUTH_FAILED",
                           "USER_LOGIN_FAILED", "ADMIN_LOGIN_FAILED", "RATE_LIMIT_BLOCKED"} ==>
      && NormalizedOutcome("SUCCESS", eventType) == Some("SUCCESS")
      && NormalizedOutcome("FAILURE", eventType) == NormalizedOutcome("FAILED", eventType) == Some("FAILURE")
      && NormalizedOutcome("DENIED", eventType) == Some("DENIED")
    ensures eventType in {"HMAC_REJECTED", "NONCE_REPLAY_REJECTED", "DEVICE_CHALLENGE_REJECTED", "DEVICE_AUTH_FAILED",
                          "USER_LOGIN_FAILED", "ADMIN_LOGIN_FAILED", "RATE_LIMIT_BLOCKED"} ==>
      forall outcome :: NormalizedOutcome(outcome, eventType) == Some("DENIED")
  {
    assert Upper(Strip("SUCCESS")) == "SUCCESS" by { FoldedWord("SUCCESS"); }
    assert Upper(Strip("FAILURE")) == "FAILURE" by { FoldedWord("FAILURE"); }
    assert Upper(Strip("FAILED")) == "FAILED" by { FoldedWord("FAILED"); }
    assert Upper(Strip("DENIED")) == "DENIED" by { FoldedWord("DENIED"); }
  }

  lemma FoldedWord(word: string)
    requires word != "" && forall i | 0 <= i < |word| :: 'A' <= word[i] <= 'Z'
    ensures Upper(Strip(word)) == word
  {
    StripTrims(word);
    assert Upper(word) == word;
  }

  /** The outcome of an event stays what it is when it is normalised again. */
  lemma OutcomesAreNormal(outcome: string, eventType: string)
    ensures var r := NormalizedOutcome(outcome, eventType);
      r.Some? ==> NormalizedOutcome(r.value, eventType) == r
  {
    var r := NormalizedOutcome(outcome, eventType);
    if r.Some? {
      assert Trimmed(r.value);
      StripTrims(r.value);
      assert Upper(r.value) == r.value;
    }
  }

  const CATEGORIES := {
    "AUTH", "DOCUMENT", "CONSENT", "SIGNATURE_REQUEST", "DEVICE_AUTH", "SIGNATURE", "PADES", "TSA", "ADMIN", "SECURITY"}

  const ACTOR_TYPES := {"USER", "ADMIN", "DEVICE", "SYSTEM"}

  const INVALID_CODE := "INVALID_FAILURE_CODE"

  /** `None` where the service raises ValueError. */
  function NormalizedIn(value: Option<string>, allowed: set<string>): Option<string> {
    if value.Some? && Upper(Strip(value.value)) in allowed then Some(Upper(Strip(value.value))) else None
  }

  function NormalizedFailureCode(code: Option<string>): Option<string> {
    if code.None? then None
    else if Messages.IsFailureCode(Upper(Strip(code.value))) then Some(Upper(Strip(code.value)))
    else Some(INVALID_CODE)
  }

  /** The row the service stores for a draft with the caller's columns or their defaults, or
      `None` where it raises ValueError. */
  function Normalized(draft: Event): (r: Option<Event>)
    ensures r.Some? <==>
      && NormalizedOutcome(draft.outcome, draft.eventType).Some?
      && draft.category.Some? && Upper(Strip(draft.category.value)) in CATEGORIES
      && draft.actorType.Some? && Upper(Strip(draft.actorType.value)) in ACTOR_TYPES
    ensures r.Some? ==> r.value.id == draft.id
  {
    var outcome := NormalizedOutcome(draft.outcome, draft.eventType);
    var category := NormalizedIn(draft.category, CATEGORIES);
    var actor := NormalizedIn(draft.actorType, ACTOR_TYPES);
    if outcome.None? || category.None? || actor.None? then None
    else
      Some(draft.(outcome := outcome.value, category := category, actorType := actor,
                  failureCode := NormalizedFailureCode(draft.failureCode)))
  }

  lemma FoldingIsIdempotent(s: string)
    ensures Upper(Strip(Upper(Strip(s)))) == Upper(Strip(s))
  {
    var folded := Upper(Strip(s));
    StripTrims(s);
    assert Trimmed(folded);
    StripTrims(folded);
    assert Upper(folded) == folded;
  }

  lemma FailureCodesAreNormal(code: Option<string>)
    ensures NormalizedFailureCode(NormalizedFailureCode(code)) == NormalizedFailureCode(code)
  {
    if code.Some? {
      var n := Upper(Strip(code.value));
      if Messages.IsFailureCode(n) {
        Messages.CodeIsFixed(n);
      } else {
        assert Messages.IsFailureCode(INVALID_CODE);
        Messages.CodeIsFixed(INVALID_CODE);
      }
    }
  }

  /** The stored columns: those normalised, and the others as given. */
  lemma StoredColumns(draft: Event)
    requires Normalized(draft).Some?
    ensures var e := Normalized(draft).value;
      && e == draft.(outcome := e.outcome, category := e.category, actorType := e.actorType,
                     failureCode := e.failureCode)
      && draft.category.Some? && e.category == Some(Upper(Strip(draft.category.value)))
      && draft.actorType.Some? && e.actorType == Some(Upper(Strip(draft.actorType.value)))
      && e.category.value in {"AUTH", "DOCUMENT", "CONSENT", "SIGNATURE_REQUEST", "DEVICE_AUTH", "SIGNATURE", "PADES",
                              "TSA", "ADMIN", "SECURITY"}
      && e.actorType.value in {"USER", "ADMIN", "DEVICE", "SYSTEM"}
      && (draft.failureCode.None? ==> e.failureCode.None?)
      && (draft.failureCode.Some? ==>
            e.failureCode == Some(
              if Messages.IsFailureCode(Upper(Strip(draft.failureCode.value)))
              then Upper(Strip(draft.failureCode.value)) else "INVALID_FAILURE_CODE"))
  {
  }

  /** What is stored is in normal form: writing it again would store the same columns. */
  lemma StoredRowsAreNormal(draft: Event)
    ensures Normalized(draft).Some? ==> Normalized(Normalized(draft).value) == Normalized(draft)
  {
    var r := Normalized(draft);
    if r.Some? {
      OutcomesAreNormal(draft.outcome, draft.eventType);
      FoldingIsIdempotent(draft.category.value);
      FoldingIsIdempotent(draft.actorType.value);
      FailureCodesAreNormal(draft.failureCode);
    }
  }

  // ---------------------------------------------------------------- the log

  /** Where the database may fail an independent recording: opening a session, writing the row,
      committing it, or answering a commit that did take place. */
  datatype Fault = Sound | NoSession | WriteFails | CommitFails | CommitUnanswered

  class Log {
    const h: Hasher
    var history: seq<Event>
    var chain: seq<Event>
    var pending: map<Id, seq<Event>>
    var holder: Option<Id>

    constructor (h: Hasher, history: seq<Event>)
      requires AllUnsealed(history) && DistinctIds(history)
      ensures Valid() && this.h == h && Contents() == State(history, [], map[], None)
    {
      this.h, this.history := h, history;
      chain, pending, holder := [], map[], None;
      new;
      assert history + [] == history;
    }

    function Contents(): State
      reads this
    {
      State(history, chain, pending, holder)
    }

    predicate Valid()
      reads this
    {
      StateOk(Contents(), h)
    }

    /** pg_advisory_xact_lock, once it is granted. */
    method Acquire(tx: Id)
      requires Valid() && (holder.None? || holder == Some(tx))
      modifies this
      ensures Valid() && Contents() == Do(old(Contents()), Step.Acquire(tx), h)
    {
      AcquireKeepsLog(Contents(), tx, h);
      holder := Some(tx);
    }

    /** The last sealed row the transaction sees. */
    method LatestEvent(tx: Id) returns (latest: Option<Event>)
      requires Valid() && holder == Some(tx)
      ensures LatestChained(Visible(Contents(), tx), latest)
    {
      ghost var s := Contents();
      var rows := Visible(Contents(), tx);
      if forall e | e in rows :: e.eventHash.None? {
        return None;
      }
      LatestExists(s.history, s.chain + PendingOf(s, tx), h);
      var e :| e in rows && e.eventHash.Some? && forall k | k in rows && k.eventHash.Some? :: k == e || Earlier(k, e);
      return Some(e);
    }

    /** Append one sealed event to the transaction; an unsupported column writes nothing. */
    method WriteAuditEvent(tx: Id, draft: Event, now: Time) returns (written: bool)
      requires Valid() && holder == Some(tx) && SkipsItself(h)
      requires forall e | e in Visible(Contents(), tx) :: e.id != draft.id
      modifies this
      ensures Valid()
      ensures written <==> Normalized(draft).Some?
      ensures written ==> Can(old(Contents()), Append(old(Contents()), tx, draft, now))
      ensures Contents() ==
        if written then Do(old(Contents()), Append(old(Contents()), tx, draft, now), h) else old(Contents())
    {
      var normalized := Normalized(draft);
      if normalized.None? {
        return false;
      }
      var event := normalized.value;
      var previous := LatestEvent(tx);
      LatestIsLast(history, chain + PendingOf(Contents(), tx), previous, h);
      WriteKeepsLog(Contents(), tx, event, now, previous, h);
      pending := pending[tx := PendingOf(Contents(), tx) + [Seal(event, previous, now, h)]];
      return true;
    }

    method CommitTransaction(tx: Id)
      requires Valid()
      modifies this
      ensures Valid() && Contents() == Do(old(Contents()), Commit(tx), h)
    {
      CommitKeepsLog(Contents(), tx, h);
      chain := chain + PendingOf(Contents(), tx);
      EndTransaction(tx);
    }

    method RollbackTransaction(tx: Id)
      requires Valid()
      modifies this
      ensures Valid() && Contents() == Do(old(Contents()), Rollback(tx), h)
    {
      RollbackKeepsLog(Contents(), tx, h);
      EndTransaction(tx);
    }

    method EndTransaction(tx: Id)
      modifies this`pending, this`holder
      ensures pending == old(pending) - {tx} && holder == Freed(old(Contents()), tx)
    {
      pending := pending - {tx};
      holder := if holder == Some(tx) then None else holder;
    }

    /** Lock and write in a fresh transaction. */
    method WriteAlone(tx: Id, draft: Event, now: Time) returns (written: bool)
      requires Valid() && holder.None? && SkipsItself(h) && tx !in pending
      requires forall e | e in history + chain :: e.id != draft.id
      modifies this
      ensures Valid() && holder == Some(tx) && history == old(history) && chain == old(chain)
      ensures written <==> Normalized(draft).Some?
      ensures PendingOf(Contents(), tx) ==
        if written then [Seal(Normalized(draft).value, Last(chain), now, h)] else []
    {
      Acquire(tx);
      ghost var s := Contents();
      assert Visible(s, tx) == history + chain;
      written := WriteAuditEvent(tx, draft, now);
      if written {
        FirstWrite(s, tx, draft, now, h);
      }
    }

    /** A denial, recorded in a transaction of its own: either one event is committed at the
        end of the chain, or nothing changes; the answer is never true for nothing. */
    method RecordAuditEvent(tx: Id, draft: Event, now: Time, fault: Fault) returns (recorded: bool)
      requires Valid() && holder.None? && SkipsItself(h) && tx !in pending
      requires forall e | e in history + chain :: e.id != draft.id
      modifies this
      ensures Valid() && holder.None? && history == old(history)
      ensures recorded <==> Normalized(draft).Some? && fault == Sound
      ensures chain ==
        if Normalized(draft).Some? && fault in {Sound, CommitUnanswered}
        then old(chain) + [Seal(Normalized(draft).value, Last(old(chain)), now, h)]
        else old(chain)
    {
      if fault == NoSession {
        return false;
      }
      var written := WriteAlone(tx, draft, now);
      if !written || fault == WriteFails || fault == CommitFails {
        RollbackTransaction(tx);
        return false;
      }
      CommitTransaction(tx);
      return fault == Sound;
    }
  }

  /** The write of a draft after the last row of the chain the transaction sees. */
  function Append(s: State, tx: Id, draft: Event, now: Time): Step
    requires Normalized(draft).Some?
  {
    Write(tx, Normalized(draft).value, now, Last(s.chain + PendingOf(s, tx)))
  }

  lemma FirstWrite(s: State, tx: Id, draft: Event, now: Time, h: Hasher)
    requires Normalized(draft).Some? && tx !in s.pending && Can(s, Append(s, tx, draft, now))
    ensures var s' := Do(s, Append(s, tx, draft, now), h);
      && s'.history == s.history && s'.chain == s.chain && s'.holder == s.holder
      && PendingOf(s', tx) == [Seal(Normalized(draft).value, Last(s.chain), now, h)]
  {
    assert s.chain + PendingOf(s, tx) == s.chain;
  }

  lemma LatestExists(history: seq<Event>, c: seq<Event>, h: Hasher)
    requires Chained(c, h) && AllUnsealed(history)
    requires exists e :: e in history + c && e.eventHash.Some?
    ensures c != [] && c[|c| - 1] in history + c && c[|c| - 1].eventHash.Some?
    ensures forall k | k in history + c && k.eventHash.Some? :: k == c[|c| - 1] || Earlier(k, c[|c| - 1])
  {
    forall k | k in history + c && k.eventHash.Some?
      ensures c != [] && (k == c[|c| - 1] || Earlier(k, c[|c| - 1]))
    {
      LatestIsInChain(history, c, k, h);
    }
    assert Continues(c, |c| - 1, h);
  }

  lemma RollbackKeepsLog(s: State, tx: Id, h: Hasher)
    requires StateOk(s, h)
    ensures StateOk(Do(s, Rollback(tx), h), h)
  {
    assert s.holder.Some? && s.holder.value != tx ==> PendingOf(s, tx) == [];
  }
}
