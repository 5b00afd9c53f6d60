/** The device: its timers, and the workflow that polls, authenticates, signs and reports. */
module Firmware {
  import opened Records
  import opened Texts
  import opened Messages

  // ---------------------------------------------------------------- timers

  const WRAP: nat := 0x1_0000_0000
  const HALF: nat := 0x8000_0000

  /** A reading of millis(), which wraps at 32 bits. */
  type Millis = n: nat | n < WRAP

  /** millis() after `t` milliseconds of uptime. */
  function Reading(t: nat): Millis {
    t % WRAP
  }

  function Elapsed(now: Millis, startedAt: Millis): Millis {
    (now as int - startedAt as int) % WRAP
  }

  predicate IntervalElapsed(now: Millis, startedAt: Millis, duration: nat) {
    Elapsed(now, startedAt) >= duration
  }

  /** The signed difference to the deadline is not negative. */
  predicate ActionDue(now: Millis, nextActionAt: Millis) {
    Elapsed(now, nextActionAt) < HALF
  }

  function Later(now: Millis, delay: nat): Millis {
    (now + delay) % WRAP
  }

  lemma ElapsedIsModular(start: nat, now: nat)
    ensures Elapsed(Reading(now), Reading(start)) == (now as int - start as int) % WRAP
  {
    var a, b := now / WRAP, start / WRAP;
    assert Reading(now) == now - a * WRAP && Reading(start) == start - b * WRAP;
    var d := now as int - start as int;
    assert Reading(now) as int - Reading(start) as int == d + (b - a) * WRAP;
    ModuloShift(d, b - a);
  }

  lemma ModuloShift(d: int, k: int)
    ensures (d + k * WRAP) % WRAP == d % WRAP
  {
  }

  /** Across the wrap-around of millis(), an interval test tells the truth exactly when the
      real time since the start, or what is left of it after whole wraps, says the same. */
  lemma IntervalTestIsRightExactlyWhen(start: nat, now: nat, duration: nat)
    requires start <= now && duration <= WRAP
    ensures (IntervalElapsed(Reading(now), Reading(start), duration) <==> now - start >= duration)
      <==> (now - start < duration || (now - start) % WRAP >= duration)
    ensures now - start < WRAP ==>
      (IntervalElapsed(Reading(now), Reading(start), duration) <==> now - start >= duration)
  {
    ElapsedIsModular(start, now);
  }

  /** The deadline test tells the truth within 2^31 milliseconds of the deadline, either side. */
  lemma DeadlineTestIsRight(deadline: nat, now: nat)
    requires deadline <= now + HALF && now < deadline + HALF
    ensures ActionDue(Reading(now), Reading(deadline)) <==> now >= deadline
  {
    ElapsedIsModular(deadline, now);
  }

  /** A retry scheduled at `t` is due exactly from `t + delay` on, for the next 24 days. */
  lemma RetryIsDueAfterItsDelay(t: nat, delay: nat, now: nat)
    requires t <= now && delay < HALF && now - t < HALF
    ensures ActionDue(Reading(now), Later(Reading(t), delay)) <==> now >= t + delay
  {
    assert Later(Reading(t), delay) == Reading(t + delay) by {
      var a := t / WRAP;
      assert Reading(t) + delay == t + delay - a * WRAP;
      ModuloShift(t + delay, -a);
    }
    DeadlineTestIsRight(t + delay, now);
  }

  // ---------------------------------------------------------------- replies

  /** The body of a reply, with the texts the firmware reads from it. */
  datatype Body =
    | Garbled
    | NextBody(assignment: Assignment)
    | ChallengeBody(session: string, challenge: string, document: string, hash: string, decision: string)
    | CompleteBody(authenticated: bool)
    | SignBody(signed: bool, signatureId: string, algorithm: string)

  /** No network, a failed exchange (negative code), or a reply. */
  datatype Http = Unreachable | Reply(code: int, body: Body)

  datatype Outcome = Succeeded | TemporaryError | DefinitiveError

  predicate IsTemporaryStatus(code: int) {
    code < 0 || code == 408 || code == 425 || code == 429 || code >= 500
  }

  function ErrorOf(code: int): Outcome {
    if IsTemporaryStatus(code) then TemporaryError else DefinitiveError
  }

  function KeptSession(b: Body): string
    requires b.ChallengeBody?
  {
    Lower(Trim(b.session))
  }

  function KeptChallenge(b: Body): string
    requires b.ChallengeBody?
  {
    Lower(Trim(b.challenge))
  }

  /** The reply is for this assignment, as far as it says. */
  predicate Echoes(b: Body, t: Assignment)
    requires b.ChallengeBody?
  {
    && (b.document == "" || b.document == t.documentId)
    && (b.hash == "" || b.hash == t.documentHash)
    && (b.decision == "" || b.decision == t.decision)
  }

  function ChallengeOutcome(http: Http, t: Assignment): Outcome {
    if http.Unreachable? then TemporaryError
    else if http.code != 200 then ErrorOf(http.code)
    else if !http.body.ChallengeBody? then DefinitiveError
    else if IsUuidText(KeptSession(http.body)) && IsHexText(KeptChallenge(http.body), 64) && Echoes(http.body, t)
    then Succeeded
    else DefinitiveError
  }

  function CompleteOutcome(http: Http): Outcome {
    if http.Unreachable? then TemporaryError
    else if http.code != 200 then ErrorOf(http.code)
    else if http.body == CompleteBody(true) then Succeeded
    else DefinitiveError
  }

  function SignOutcome(http: Http): Outcome {
    if http.Unreachable? then TemporaryError
    else if http.code != 200 then ErrorOf(http.code)
    else if http.body.SignBody? && http.body.signed then Succeeded
    else DefinitiveError
  }

  function ReportOutcome(requestId: string, failure: string, http: Http): Outcome {
    if requestId == "" || !IsFailureCode(Upper(Trim(failure))) then DefinitiveError
    else if http.Unreachable? then TemporaryError
    else if http.code == 200 then Succeeded
    else ErrorOf(http.code)
  }

  // ---------------------------------------------------------------- the workflow

  const POLL_INTERVAL: nat := 3000
  const RETRY_INTERVAL: nat := 3000
  const RFID_TIMEOUT: nat := 60000
  const FINGERPRINT_TIMEOUT: nat := 60000
  const FINGERPRINT_POLL_INTERVAL: nat := 150

  const NO_TASK := Assignment("", "", "", "")

  datatype State =
    | Idle | PollNext | WaitRfid | AskChallenge | WaitFingerprint | CompleteAuth | SignDocument | ReportFailed | Success

  /** The global variables. */
  datatype Device = Device(
    state: State, assignment: Assignment, rfid: string, session: string, challenge: string, failure: string,
    signatureId: string, algorithm: string, fingerprint: int,
    stateStartedAt: Millis, lastPollAt: Millis, nextActionAt: Millis, lastFingerAt: Millis)

  /** What one pass of the loop observes: clock readings before and after any call, the card
      reader, the fingerprint reader, and the reply of the call it makes, if any. */
  datatype Input = Input(now: Millis, after: Millis, card: Option<string>, finger: int, http: Http)

  function Enter(d: Device, s: State, at: Millis): Device {
    d.(state := s, stateStartedAt := at, nextActionAt := at)
  }

  function Cleared(d: Device, at: Millis): Device {
    Device(Idle, NO_TASK, "", "", "", "", "", "", -1, at, at, at, d.lastFingerAt)
  }

  function Failing(d: Device, code: string, at: Millis): Device {
    Enter(d.(failure := code), ReportFailed, at)
  }

  function Retrying(d: Device, at: Millis): Device {
    d.(nextActionAt := Later(at, RETRY_INTERVAL))
  }

  /** What POLL_NEXT keeps of the reply: a valid assignment, or nothing. */
  function FetchedAssignment(http: Http): Option<Assignment> {
    if http.Reply? && http.code == 200 && http.body.NextBody? && ValidAssignment(Normalized(http.body.assignment))
    then Some(Normalized(http.body.assignment))
    else None
  }

  /** The fields a challenge reply overwrites, valid or not. */
  function TookChallenge(d: Device, http: Http): Device {
    if http.Reply? && http.code == 200 && http.body.ChallengeBody?
    then d.(session := KeptSession(http.body), challenge := KeptChallenge(http.body))
    else d
  }

  function TookSignature(d: Device, http: Http): Device {
    if http.Reply? && http.code == 200 && http.body.SignBody?
    then d.(signatureId := http.body.signatureId, algorithm := http.body.algorithm)
    else d
  }

  /** Where an authenticated call leads: on, again after a pause, or to the failure report. */
  function AfterCall(d: Device, o: Outcome, next: State, failure: string, at: Millis): Device {
    match o
    case Succeeded => Enter(d, next, at)
    case TemporaryError => Retrying(d, at)
    case DefinitiveError => Failing(d, failure, at)
  }

  /** One pass of the loop. */
  function Pass(d: Device, i: Input): Device {
    match d.state
    case Idle => if IntervalElapsed(i.now, d.lastPollAt, POLL_INTERVAL) then Enter(d, PollNext, i.after) else d
    case PollNext =>
      var t := FetchedAssignment(i.http);
      var polled := d.(assignment := if t.Some? then t.value else NO_TASK, lastPollAt := i.after);
      Enter(polled, if t.Some? then WaitRfid else Idle, i.after)
    case WaitRfid =>
      if IntervalElapsed(i.now, d.stateStartedAt, RFID_TIMEOUT) then Failing(d, "RFID_TIMEOUT", i.after)
      else if i.card.Some? then Enter(d.(rfid := i.card.value), AskChallenge, i.after)
      else d.(rfid := "")
    case AskChallenge =>
      if !ActionDue(i.now, d.nextActionAt) then d
      else
        var o := ChallengeOutcome(i.http, d.assignment);
        var took := TookChallenge(d, i.http);
        AfterCall(if o.Succeeded? then took.(lastFingerAt := 0) else took,
                  o, WaitFingerprint, "CHALLENGE_REJECTED", i.after)
    case WaitFingerprint =>
      if IntervalElapsed(i.now, d.stateStartedAt, FINGERPRINT_TIMEOUT) then Failing(d, "FINGERPRINT_TIMEOUT", i.after)
      else if !IntervalElapsed(i.now, d.lastFingerAt, FINGERPRINT_POLL_INTERVAL) then d
      else
        var looked := d.(lastFingerAt := i.now, fingerprint := i.finger);
        if i.finger > 0 then Enter(looked, CompleteAuth, i.after) else looked
    case CompleteAuth =>
      if !ActionDue(i.now, d.nextActionAt) then d
      else AfterCall(d, CompleteOutcome(i.http), SignDocument, "AUTHENTICATION_REJECTED", i.after)
    case SignDocument =>
      if !ActionDue(i.now, d.nextActionAt) then d
      else AfterCall(TookSignature(d, i.http), SignOutcome(i.http), Success, "SIGNATURE_REJECTED", i.after)
    case ReportFailed =>
      if !ActionDue(i.now, d.nextActionAt) then d
      else if ReportOutcome(d.assignment.requestId, d.failure, i.http).TemporaryError? then Retrying(d, i.after)
      else Cleared(d, i.after)
    case Success => Cleared(d, i.after)
  }

  // ---------------------------------------------------------------- in status codes

  /** Waiting for a retry or a deadline, a pass does nothing before it is due. */
  lemma NothingHappensBeforeItIsDue(d: Device, i: Input)
    requires
      || (d.state in {AskChallenge, CompleteAuth, SignDocument, ReportFailed}
          && (i.now - d.nextActionAt) % 0x1_0000_0000 >= 0x8000_0000)
      || (d.state == Idle && (i.now - d.lastPollAt) % 0x1_0000_0000 < 3000)
      || (d.state == WaitFingerprint && (i.now - d.stateStartedAt) % 0x1_0000_0000 < 60000
          && (i.now - d.lastFingerAt) % 0x1_0000_0000 < 150)
    ensures Pass(d, i) == d
  {
  }

  /** A call that finds no network, or is answered with a negative code, 408, 425, 429 or a
      server error, is made again after three seconds; nothing else changes. */
  lemma TemporaryErrorsAreRetried(d: Device, i: Input)
    requires d.state in {AskChallenge, CompleteAuth, SignDocument}
    requires (i.now - d.nextActionAt) % 0x1_0000_0000 < 0x8000_0000
    requires i.http.Unreachable? || i.http.code < 0 || i.http.code in {408, 425, 429} || i.http.code >= 500
    ensures Pass(d, i) == d.(nextActionAt := (i.after + 3000) % 0x1_0000_0000)
  {
  }

  /** Any other code but 200 sends the device to report the failure of that call, at once. */
  lemma DefinitiveErrorsAreReported(d: Device, i: Input)
    requires d.state in {AskChallenge, CompleteAuth, SignDocument}
    requires (i.now - d.nextActionAt) % 0x1_0000_0000 < 0x8000_0000
    requires i.http.Reply? && 0 <= i.http.code < 500 && i.http.code !in {200, 408, 425, 429}
    ensures Pass(d, i) == d.(
      state := ReportFailed, stateStartedAt := i.after, nextActionAt := i.after,
      failure := if d.state == AskChallenge then "CHALLENGE_REJECTED"
                 else if d.state == CompleteAuth then "AUTHENTICATION_REJECTED" else "SIGNATURE_REJECTED")
  {
  }

  /** A reply with code 200 is believed only when its body says what it must: a session, a
      challenge and no other document; `authenticated`; `signed`. Otherwise it is a failure. */
  lemma RepliesMustSayWhatTheyMust(d: Device, i: Input)
    requires d.state in {AskChallenge, CompleteAuth, SignDocument}
    requires (i.now - d.nextActionAt) % 0x1_0000_0000 < 0x8000_0000
    requires i.http.Reply? && i.http.code == 200
    ensures var d', b := Pass(d, i), i.http.body;
      && d'.assignment == d.assignment && d'.rfid == d.rfid && d'.fingerprint == d.fingerprint
      && (d.state == AskChallenge ==>
            if b.ChallengeBody? && IsUuidText(Lower(Trim(b.session))) && IsHexText(Lower(Trim(b.challenge)), 64)
               && b.document in {"", d.assignment.documentId} && b.hash in {"", d.assignment.documentHash}
               && b.decision in {"", d.assignment.decision}
            then d'.state == WaitFingerprint && d'.session == Lower(Trim(b.session))
                 && d'.challenge == Lower(Trim(b.challenge)) && d'.lastFingerAt == 0
            else d'.state == ReportFailed && d'.failure == "CHALLENGE_REJECTED")
      && (d.state == CompleteAuth ==>
            && d'.session == d.session
            && if b.CompleteBody? && b.authenticated then d'.state == SignDocument
               else d'.state == ReportFailed && d'.failure == "AUTHENTICATION_REJECTED")
      && (d.state == SignDocument ==>
            && d'.session == d.session
            && if b.SignBody? && b.signed
               then d'.state == Success && d'.signatureId == b.signatureId && d'.algorithm == b.algorithm
               else d'.state == ReportFailed && d'.failure == "SIGNATURE_REJECTED")
      && d'.stateStartedAt == d'.nextActionAt == i.after
  {
  }

  /** A failure report is repeated every three seconds while its error is temporary; any other
      end, and a report that cannot be made, leaves the device idle and empty. */
  lemma ReportsEndTheWorkflow(d: Device, i: Input)
    requires d.state == ReportFailed && (i.now - d.nextActionAt) % 0x1_0000_0000 < 0x8000_0000
    ensures Pass(d, i) ==
      if d.assignment.requestId != "" && IsFailureCode(Upper(Trim(d.failure)))
         && (i.http.Unreachable? || i.http.code < 0 || i.http.code in {408, 425, 429} || i.http.code >= 500)
      then d.(nextActionAt := (i.after + 3000) % 0x1_0000_0000)
      else
        Device(Idle, Assignment("", "", "", ""), "", "", "", "", "", "", -1, i.after, i.after, i.after, d.lastFingerAt)
  {
  }

  /** The device starts over after success. */
  lemma SuccessEndsTheWorkflow(d: Device, i: Input)
    requires d.state == Success
    ensures Pass(d, i) ==
      Device(Idle, Assignment("", "", "", ""), "", "", "", "", "", "", -1, i.after, i.after, i.after, d.lastFingerAt)
  {
  }

  /** A card or a finger is waited for one minute; a card read in time starts the challenge, a
      finger recognised in time the completion. */
  lemma WaitsEndInAMinute(d: Device, i: Input)
    requires d.state == WaitRfid || d.state == WaitFingerprint
    ensures (i.now - d.stateStartedAt) % 0x1_0000_0000 >= 60000 ==>
      Pass(d, i) == d.(
        state := ReportFailed, stateStartedAt := i.after, nextActionAt := i.after,
        failure := if d.state == WaitRfid then "RFID_TIMEOUT" else "FINGERPRINT_TIMEOUT")
    ensures (i.now - d.stateStartedAt) % 0x1_0000_0000 < 60000 && d.state == WaitRfid ==>
      Pass(d, i) ==
        if i.card.Some?
        then d.(rfid := i.card.value, state := AskChallenge, stateStartedAt := i.after, nextActionAt := i.after)
        else d.(rfid := "")
    ensures
      (d.state == WaitFingerprint && (i.now - d.stateStartedAt) % 0x1_0000_0000 < 60000
       && (i.now - d.lastFingerAt) % 0x1_0000_0000 >= 150) ==>
      Pass(d, i) ==
        if i.finger > 0
        then d.(lastFingerAt := i.now, fingerprint := i.finger, state := CompleteAuth,
                stateStartedAt := i.after, nextActionAt := i.after)
        else d.(lastFingerAt := i.now, fingerprint := i.finger)
  {
  }

  /** The queue is polled every three seconds; only a 200 with two identifiers, a 64-digit hash
      and APPROVE, once trimmed and folded, starts a workflow. */
  lemma PollsStartWorkflows(d: Device, i: Input)
    ensures d.state == Idle && (i.now - d.lastPollAt) % 0x1_0000_0000 >= 3000 ==>
      Pass(d, i) == d.(state := PollNext, stateStartedAt := i.after, nextActionAt := i.after)
    ensures d.state == PollNext ==>
      var d' := Pass(d, i);
      && d'.lastPollAt == d'.stateStartedAt == d'.nextActionAt == i.after
      && if i.http.Reply? && i.http.code == 200 && i.http.body.NextBody?
            && IsUuidText(Lower(Trim(i.http.body.assignment.requestId)))
            && IsUuidText(Lower(Trim(i.http.body.assignment.documentId)))
            && IsHexText(Lower(Trim(i.http.body.assignment.documentHash)), 64)
            && Upper(Trim(i.http.body.assignment.decision)) == "APPROVE"
         then d'.state == WaitRfid && d'.assignment == Assignment(
           Lower(Trim(i.http.body.assignment.requestId)), Lower(Trim(i.http.body.assignment.documentId)),
           Lower(Trim(i.http.body.assignment.documentHash)), "APPROVE")
         else d'.state == Idle && d'.assignment == Assignment("", "", "", "")
  {
  }

  /** A retry is due exactly three seconds after the call that failed, for the next 24 days, across
      any wrap of the clock: a pass before that does nothing, and one after it calls again. */
  lemma RetriesComeAfterThreeSeconds(d: Device, failed: Input, t: nat, i: Input, now: nat)
    requires d.state in {AskChallenge, CompleteAuth, SignDocument}
    requires (failed.now - d.nextActionAt) % 0x1_0000_0000 < 0x8000_0000
    requires failed.http.Unreachable? || failed.http.code in {408, 425, 429, 500, 502, 503, 504}
    requires failed.after == Reading(t) && i.now == Reading(now) && t <= now < t + 0x8000_0000
    requires i.http.Reply? && i.http.code == 403
    ensures var waiting := Pass(d, failed);
      && waiting.state == d.state
      && Pass(waiting, i).state == if now < t + 3000 then d.state else ReportFailed
  {
    TemporaryErrorsAreRetried(d, failed);
    RetryIsDueAfterItsDelay(t, 3000, now);
    var waiting := Pass(d, failed);
    if now < t + 3000 {
      NothingHappensBeforeItIsDue(waiting, i);
    } else {
      DefinitiveErrorsAreReported(waiting, i);
    }
  }

  /** The firmware's variables, updated in place by each pass of the loop. */
  class Controller {
    var state: State
    var assignment: Assignment
    var rfid: string
    var session: string
    var challenge: string
    var failure: string
    var signatureId: string
    var algorithm: string
    var fingerprint: int
    var stateStartedAt: Millis
    var lastPollAt: Millis
    var nextActionAt: Millis
    var lastFingerAt: Millis

    function Contents(): Device
      reads this
    {
      Device(state, assignment, rfid, session, challenge, failure, signatureId, algorithm, fingerprint,
             stateStartedAt, lastPollAt, nextActionAt, lastFingerAt)
    }

    /** setup(): the first poll is due at once. */
    constructor (now: Millis)
      ensures Contents() == Device(Idle, NO_TASK, "", "", "", "", "", "", -1, 0, Elapsed(now, POLL_INTERVAL), 0, 0)
    {
      state, assignment := Idle, NO_TASK;
      rfid, session, challenge, failure, signatureId, algorithm := "", "", "", "", "", "";
      fingerprint := -1;
      stateStartedAt, lastPollAt, nextActionAt, lastFingerAt := 0, (now as int - POLL_INTERVAL) % WRAP, 0, 0;
    }

    method EnterState(newState: State, at: Millis)
      modifies this
      ensures Contents() == Enter(old(Contents()), newState, at)
    {
      state := newState;
      stateStartedAt := at;
      nextActionAt := at;
    }

    method ClearWorkflow(at: Millis)
      modifies this
      ensures Contents() == Cleared(old(Contents()), at)
    {
      assignment := NO_TASK;
      rfid, session, challenge, failure, signatureId, algorithm := "", "", "", "", "", "";
      fingerprint := -1;
      lastPollAt := at;
      EnterState(Idle, at);
    }

    method BeginDefinitiveFailure(code: string, at: Millis)
      modifies this
      ensures Contents() == Failing(old(Contents()), code, at)
    {
      failure := code;
      EnterState(ReportFailed, at);
    }

    method RetryLater(at: Millis)
      modifies this
      ensures Contents() == Retrying(old(Contents()), at)
    {
      nextActionAt := (at + RETRY_INTERVAL) % WRAP;
    }

    method FinishCall(o: Outcome, next: State, code: string, at: Millis)
      modifies this
      ensures Contents() == AfterCall(old(Contents()), o, next, code, at)
    {
      match o {
        case Succeeded => EnterState(next, at);
        case TemporaryError => RetryLater(at);
        case DefinitiveError => BeginDefinitiveFailure(code, at);
      }
    }

    method ProcessWorkflow(i: Input)
      modifies this
      ensures Contents() == Pass(old(Contents()), i)
      ensures
        (old(state) in {AskChallenge, CompleteAuth, SignDocument}
         && (i.now - old(nextActionAt)) % 0x1_0000_0000 < 0x8000_0000
         && (i.http.Unreachable? || i.http.code < 0 || i.http.code in {408, 425, 429} || i.http.code >= 500)) ==>
        && state == old(state) && assignment == old(assignment) && session == old(session)
        && nextActionAt == (i.after + 3000) % 0x1_0000_0000
      ensures
        (old(state) in {AskChallenge, CompleteAuth, SignDocument}
         && (i.now - old(nextActionAt)) % 0x1_0000_0000 < 0x8000_0000
         && i.http.Reply? && 0 <= i.http.code < 500 && i.http.code !in {200, 408, 425, 429}) ==>
        && state == ReportFailed && assignment == old(assignment)
        && (old(state) == AskChallenge ==> failure == "CHALLENGE_REJECTED")
        && (old(state) == CompleteAuth ==> failure == "AUTHENTICATION_REJECTED")
        && (old(state) == SignDocument ==> failure == "SIGNATURE_REJECTED")
    {
      ghost var d := Contents();
      RunState(i);
      if d.state in {AskChallenge, CompleteAuth, SignDocument}
         && (i.now - d.nextActionAt) % 0x1_0000_0000 < 0x8000_0000 {
        if i.http.Unreachable? || i.http.code < 0 || i.http.code in {408, 425, 429} || i.http.code >= 500 {
          TemporaryErrorsAreRetried(d, i);
        } else if i.http.code != 200 {
          DefinitiveErrorsAreReported(d, i);
        }
      }
    }

    /** The branch of the current state. */
    method RunState(i: Input)
      modifies this
      ensures Contents() == Pass(old(Contents()), i)
    {
      match state {
        case Idle =>
          if IntervalElapsed(i.now, lastPollAt, POLL_INTERVAL) {
            EnterState(PollNext, i.after);
          }
        case PollNext => Poll(i);
        case WaitRfid =>
          if IntervalElapsed(i.now, stateStartedAt, RFID_TIMEOUT) {
            BeginDefinitiveFailure("RFID_TIMEOUT", i.after);
            return;
          }
          rfid := if i.card.Some? then i.card.value else "";
          if i.card.Some? {
            EnterState(AskChallenge, i.after);
          }
        case AskChallenge => RequestChallenge(i);
        case WaitFingerprint => WatchFinger(i);
        case CompleteAuth =>
          if ActionDue(i.now, nextActionAt) {
            FinishCall(CompleteOutcome(i.http), SignDocument, "AUTHENTICATION_REJECTED", i.after);
          }
        case SignDocument => RequestSignature(i);
        case ReportFailed =>
          if !ActionDue(i.now, nextActionAt) {
            return;
          }
          if ReportOutcome(assignment.requestId, failure, i.http).TemporaryError? {
            RetryLater(i.after);
          } else {
            ClearWorkflow(i.after);
          }
        case Success => ClearWorkflow(i.after);
      }
    }

    method Poll(i: Input)
      requires state == PollNext
      modifies this
      ensures Contents() == Pass(old(Contents()), i)
    {
      assignment := NO_TASK;
      var accepted := false;
      if i.http.Reply? && i.http.code == 200 && i.http.body.NextBody? {
        var normalized;
        normalized, accepted := ValidateSignatureRequest(i.http.body.assignment);
        if accepted {
          assignment := normalized;
        }
      }
      lastPollAt := i.after;
      EnterState(if accepted then WaitRfid else Idle, i.after);
    }

    method RequestChallenge(i: Input)
      requires state == AskChallenge
      modifies this
      ensures Contents() == Pass(old(Contents()), i)
    {
      if !ActionDue(i.now, nextActionAt) {
        return;
      }
      var o := ChallengeOutcome(i.http, assignment);
      if i.http.Reply? && i.http.code == 200 && i.http.body.ChallengeBody? {
        session := Lower(Trim(i.http.body.session));
        challenge := Lower(Trim(i.http.body.challenge));
      }
      if o.Succeeded? {
        lastFingerAt := 0;
      }
      FinishCall(o, WaitFingerprint, "CHALLENGE_REJECTED", i.after);
    }

    method WatchFinger(i: Input)
      requires state == WaitFingerprint
      modifies this
      ensures Contents() == Pass(old(Contents()), i)
    {
      if IntervalElapsed(i.now, stateStartedAt, FINGERPRINT_TIMEOUT) {
        BeginDefinitiveFailure("FINGERPRINT_TIMEOUT", i.after);
        return;
      }
      if !IntervalElapsed(i.now, lastFingerAt, FINGERPRINT_POLL_INTERVAL) {
        return;
      }
      lastFingerAt := i.now;
      fingerprint := i.finger;
      if fingerprint > 0 {
        EnterState(CompleteAuth, i.after);
      }
    }

    method RequestSignature(i: Input)
      requires state == SignDocument
      modifies this
      ensures Contents() == Pass(old(Contents()), i)
    {
      if !ActionDue(i.now, nextActionAt) {
        return;
      }
      if i.http.Reply? && i.http.code == 200 && i.http.body.SignBody? {
        signatureId := i.http.body.signatureId;
        algorithm := i.http.body.algorithm;
      }
      FinishCall(SignOutcome(i.http), Success, "SIGNATURE_REJECTED", i.after);
    }
  }
}
