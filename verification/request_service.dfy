/** The signature-request queue: what each statement of the service does to one row,
    the queries it runs, and the table whose row objects those statements update. */
module RequestService {
  import opened Records
  import opened Texts

  const SIGNATURE_REQUEST_TTL: int := 900 * SECOND
  const FAILURE_DETAIL_MAX := 255
  const EXPIRED_DETAIL := "Signature request expired"

  // ---------------------------------------------------------------- one row

  predicate Expirable(s: Status) {
    s == Pending || s == Claimed
  }

  predicate Due(r: Request, now: Time) {
    Expirable(r.status) && r.expiresAt <= now
  }

  function Expire(r: Request, now: Time): Request {
    r.(status := Expired, failureDetail := Some(EXPIRED_DETAIL), completedAt := Some(now), updatedAt := now)
  }

  function AfterExpiry(r: Request, now: Time): Request {
    if Due(r, now) then Expire(r, now) else r
  }

  function NewRequest(
    owner: Id, user: Id, device: Id, document: Id, documentHash: string,
    consentedAt: Time, consentVersion: string, createdAt: Time, now: Time): Request
  {
    Request(
      owner, user, device, document, documentHash, APPROVE, Some(consentedAt), Some(consentVersion),
      now + SIGNATURE_REQUEST_TTL, createdAt, Pending, None, None, None, None, None, None, None, now)
  }

  function Claim(r: Request, now: Time): Request {
    r.(status := Claimed, claimedAt := Some(now), updatedAt := now)
  }

  /** What attaching session `s` does to the row the query selected. */
  function Attach(r: Request, s: Id, now: Time): Request {
    if Due(r, now) then Expire(r, now)
    else r.(session := Some(s), status := Authenticating, authStartedAt := Some(now), updatedAt := now)
  }

  function MarkAuthenticated(r: Request, now: Time): Request {
    if Due(r, now) then Expire(r, now)
    else if r.status == Authenticating then
      r.(status := Authenticated, authenticatedAt := Some(now), updatedAt := now)
    else r
  }

  /** The signature row names this session and this request's document, device and hash. */
  predicate SignatureFits(r: Request, s: Id, g: Signature) {
    && g.session == s
    && r.document == g.document
    && r.device == g.device
    && r.documentHash == g.documentHash
  }

  function MarkSigned(r: Request, s: Id, gid: Id, g: Signature, now: Time): Request {
    if !SignatureFits(r, s, g) then r
    else if Due(r, now) then Expire(r, now)
    else if r.status == Authenticated then
      r.(status := Signed, signature := Some(gid), completedAt := Some(now), updatedAt := now)
    else r
  }

  function Fail(r: Request, detail: string, now: Time): Request {
    r.(status := Failed, failureDetail := Some(Clip(detail, FAILURE_DETAIL_MAX)),
       completedAt := Some(now), updatedAt := now)
  }

  function MarkFailed(r: Request, detail: string, now: Time): Request {
    if Due(r, now) then Expire(r, now)
    else if Active(r.status) then Fail(r, detail, now)
    else r
  }

  function MarkFailedBySession(r: Request, detail: string, now: Time): Request {
    if Due(r, now) then Expire(r, now)
    else if r.status == Authenticating || r.status == Authenticated then Fail(r, detail, now)
    else r
  }

  /** The text is not empty once stripped. */
  predicate HasText(v: Option<string>) {
    v.Some? && exists i :: 0 <= i < |v.value| && !IsBlank(v.value[i])
  }

  /** The request names the session's device, document, hash and decision. */
  predicate Binds(r: Request, s: Session) {
    && r.device == s.device
    && r.document == s.document
    && r.documentHash == s.documentHash
    && r.decision == s.decision
  }

  predicate Authorized(r: Request, s: Session, expected: Status, now: Time) {
    && r.status == expected
    && r.expiresAt > now
    && r.user == s.user
    && r.consentedAt.Some?
    && HasText(r.consentVersion)
    && Binds(r, s)
  }

  // ---------------------------------------------------------------- queries

  type Rows = map<Id, Request>

  predicate OnDevice(r: Request, device: Option<Id>) {
    device.None? || r.device == device.value
  }

  /** Rows the expiry statement selects: due, on the device, and not locked elsewhere. */
  function DueRows(rows: Rows, device: Option<Id>, now: Time, locked: set<Id>): set<Id> {
    set id | id in rows && id !in locked && Due(rows[id], now) && OnDevice(rows[id], device)
  }

  function ExpireAll(rows: Rows, ids: set<Id>, now: Time): Rows {
    map id | id in rows :: if id in ids then Expire(rows[id], now) else rows[id]
  }

  lemma ExpireAllStep(rows: Rows, done: set<Id>, id: Id, now: Time)
    requires id in rows && id !in done && UniqueSessions(rows)
    ensures ExpireAll(rows, done, now)[id] == rows[id]
    ensures ExpireAll(rows, done, now)[id := Expire(rows[id], now)] == ExpireAll(rows, done + {id}, now)
    ensures UniqueSessions(ExpireAll(rows, done + {id}, now))
  {
  }

  function InFlight(rows: Rows, device: Id): set<Id> {
    set id | id in rows && rows[id].device == device && Active(rows[id].status)
  }

  predicate Waiting(r: Request, device: Id, now: Time) {
    r.device == device && r.status == Pending && r.expiresAt > now
  }

  function Claimable(rows: Rows, device: Id, now: Time, locked: set<Id>): set<Id> {
    set id | id in rows && id !in locked && Waiting(rows[id], device, now)
  }

  /** ORDER BY created_at, id. */
  predicate Before(rows: Rows, a: Id, b: Id)
    requires a in rows && b in rows
  {
    rows[a].createdAt < rows[b].createdAt || (rows[a].createdAt == rows[b].createdAt && a < b)
  }

  predicate IsFirst(rows: Rows, ids: set<Id>, x: Id)
    requires ids <= rows.Keys
  {
    x in ids && forall y | y in ids :: y == x || Before(rows, x, y)
  }

  lemma {:induction false} FirstExists(rows: Rows, ids: set<Id>) returns (x: Id)
    requires ids <= rows.Keys && ids != {}
    ensures IsFirst(rows, ids, x)
    decreases ids
  {
    var z :| z in ids;
    var rest := ids - {z};
    if rest == {} {
      x := z;
      forall w | w in ids ensures w == z {
        assert w !in rest;
      }
    } else {
      var y := FirstExists(rows, rest);
      x := if Before(rows, z, y) then z else y;
      forall w | w in ids ensures w == x || Before(rows, x, w) {
        assert w == z || w in rest;
        assert w != z ==> w == y || Before(rows, y, w);
      }
    }
  }

  lemma FirstIsUnique(rows: Rows, ids: set<Id>, x: Id, y: Id)
    requires ids <= rows.Keys
    requires IsFirst(rows, ids, x) && IsFirst(rows, ids, y)
    ensures x == y
  {
  }

  predicate Attachable(r: Request, device: Id, document: Id, documentHash: string, decision: string) {
    && r.device == device && r.document == document
    && r.documentHash == documentHash && r.decision == decision
    && r.status == Claimed && r.session.None?
  }

  function AttachableRows(rows: Rows, device: Id, document: Id, documentHash: string, decision: string): set<Id> {
    set id | id in rows && Attachable(rows[id], device, document, documentHash, decision)
  }

  /** UNIQUE(authentication_session_id). */
  predicate UniqueSessions(rows: Rows) {
    forall a, b | a in rows && b in rows && rows[a].session.Some? && rows[a].session == rows[b].session :: a == b
  }

  function RowsOfSession(rows: Rows, s: Id): set<Id> {
    set id | id in rows && rows[id].session == Some(s)
  }

  /** The lookup by session found exactly the rows that carry it. */
  predicate FoundBySession(rows: Rows, s: Id, found: Option<Id>) {
    && (found.Some? ==> found.value in rows)
    && RowsOfSession(rows, s) == if found.Some? then {found.value} else {}
  }

  /** What one poll of the device's queue does: rows it expires, then the row it claims. */
  predicate ClaimOutcome(
    rows: Rows, device: Id, now: Time, lockedAtExpiry: set<Id>, lockedAtPick: set<Id>,
    rows': Rows, picked: Option<Id>)
  {
    FreeClaimOutcome(
      ExpireAll(rows, DueRows(rows, Some(device), now, lockedAtExpiry), now), device, now, lockedAtPick, rows', picked)
  }

  /** The part of a poll after the device's due rows have expired. */
  predicate FreeClaimOutcome(rows: Rows, device: Id, now: Time, locked: set<Id>, rows': Rows, picked: Option<Id>) {
    var candidates := Claimable(rows, device, now, locked);
    if InFlight(rows, device) != {} || candidates == {} then
      picked.None? && rows' == rows
    else
      && picked.Some?
      && IsFirst(rows, candidates, picked.value)
      && rows' == rows[picked.value := Claim(rows[picked.value], now)]
  }

  // ---------------------------------------------------------------- progress

  /** Status and rank: a step leaves the status alone or strictly raises its rank. */
  predicate Advances(r: Request, r': Request) {
    SameIdentity(r, r') && (r'.status == r.status || Rank(r.status) < Rank(r'.status))
  }

  lemma RowStepsAdvance(r: Request, s: Id, gid: Id, g: Signature, detail: string, now: Time)
    ensures Advances(r, AfterExpiry(r, now))
    ensures r.status == Pending ==> Advances(r, Claim(r, now))
    ensures r.status == Claimed ==> Advances(r, Attach(r, s, now))
    ensures Advances(r, MarkAuthenticated(r, now))
    ensures Advances(r, MarkSigned(r, s, gid, g, now))
    ensures Advances(r, MarkFailed(r, detail, now))
    ensures Advances(r, MarkFailedBySession(r, detail, now))
  {
  }

  /** A CLAIMED blocker stops blocking once its deadline has passed: with no row locked by
      another transaction, the poll delivers the oldest waiting request. */
  lemma ExpiredBlockersDoNotBlock(rows: Rows, device: Id, now: Time, rows': Rows, picked: Option<Id>)
    requires ClaimOutcome(rows, device, now, {}, {}, rows', picked)
    requires forall id | id in InFlight(rows, device) :: rows[id].status == Claimed && rows[id].expiresAt <= now
    ensures picked.None? <==> Claimable(rows, device, now, {}) == {}
    ensures picked.Some? ==> IsFirst(rows, Claimable(rows, device, now, {}), picked.value)
  {
    var expired := ExpireAll(rows, DueRows(rows, Some(device), now, {}), now);
    assert InFlight(expired, device) <= InFlight(rows, device);
    assert InFlight(expired, device) == {};
    assert Claimable(expired, device, now, {}) == Claimable(rows, device, now, {});
    if picked.Some? {
      var c := Claimable(rows, device, now, {});
      forall y | y in c ensures y == picked.value || Before(rows, picked.value, y) {
        assert y == picked.value || Before(expired, picked.value, y);
      }
    }
  }

  /** A request that reached AUTHENTICATING or AUTHENTICATED blocks its device's queue at
      every later instant, however far past its deadline. */
  lemma UnfinishedAuthenticationBlocks(
    rows: Rows, id: Id, now: Time, lockedAtExpiry: set<Id>, lockedAtPick: set<Id>, rows': Rows, picked: Option<Id>)
    requires id in rows && (rows[id].status == Authenticating || rows[id].status == Authenticated)
    requires ClaimOutcome(rows, rows[id].device, now, lockedAtExpiry, lockedAtPick, rows', picked)
    ensures picked.None? && rows'[id] == rows[id]
  {
    var expired := ExpireAll(rows, DueRows(rows, Some(rows[id].device), now, lockedAtExpiry), now);
    assert id in InFlight(expired, rows[id].device);
  }

  // ---------------------------------------------------------------- in the columns

  /** First come, first served: of the device's PENDING, unexpired requests that nobody else has
      locked, a poll claims the one created first, by its identifier among equal instants; and
      only when every request the device still had in hand has just expired. */
  lemma PollServesTheOldest(
    rows: Rows, device: Id, now: Time, lockedAtExpiry: set<Id>, lockedAtPick: set<Id>, rows': Rows, p: Id)
    requires ClaimOutcome(rows, device, now, lockedAtExpiry, lockedAtPick, rows', Some(p))
    ensures p in rows && p !in lockedAtPick && p in rows'
    ensures rows[p].device == device && rows[p].status == Pending && now < rows[p].expiresAt
    ensures rows'[p] == rows[p].(status := Claimed, claimedAt := Some(now), updatedAt := now)
    ensures forall y | y in rows && y != p && y !in lockedAtPick
                    && rows[y].device == device && rows[y].status == Pending && now < rows[y].expiresAt ::
      rows[p].createdAt < rows[y].createdAt || (rows[p].createdAt == rows[y].createdAt && p < y)
    ensures forall y | y in rows && rows[y].device == device
                    && rows[y].status in {Claimed, Authenticating, Authenticated} ::
      rows[y].status == Claimed && rows[y].expiresAt <= now && y !in lockedAtExpiry
  {
    var expired := ExpireAll(rows, DueRows(rows, Some(device), now, lockedAtExpiry), now);
    forall y | y in rows && y != p && y !in lockedAtPick && Waiting(rows[y], device, now)
      ensures rows[p].createdAt < rows[y].createdAt || (rows[p].createdAt == rows[y].createdAt && p < y)
    {
      assert y in Claimable(expired, device, now, lockedAtPick);
      assert Before(expired, p, y);
    }
    forall y | y in rows && rows[y].device == device && Active(rows[y].status)
      ensures rows[y].status == Claimed && rows[y].expiresAt <= now && y !in lockedAtExpiry
    {
      assert y !in InFlight(expired, device);
    }
  }

  /** A poll that claims nothing either found a request in hand that it could not expire, or no
      PENDING, unexpired, unlocked request. */
  lemma IdlePollsHaveAReason(
    rows: Rows, device: Id, now: Time, lockedAtExpiry: set<Id>, lockedAtPick: set<Id>, rows': Rows)
    requires ClaimOutcome(rows, device, now, lockedAtExpiry, lockedAtPick, rows', None)
    ensures
      || (exists y :: y in rows && rows[y].device == device
            && (rows[y].status == Authenticating || rows[y].status == Authenticated
                || (rows[y].status == Claimed && (now < rows[y].expiresAt || y in lockedAtExpiry))))
      || (forall y | y in rows && rows[y].device == device && rows[y].status == Pending && now < rows[y].expiresAt ::
            y in lockedAtPick)
  {
    var expired := ExpireAll(rows, DueRows(rows, Some(device), now, lockedAtExpiry), now);
    if InFlight(expired, device) != {} {
      var y :| y in InFlight(expired, device);
      assert y in rows;
    } else {
      forall y | y in rows && Waiting(rows[y], device, now) ensures y in lockedAtPick {
        assert y !in Claimable(expired, device, now, lockedAtPick);
      }
    }
  }

  /** The expiry statement in the columns: the PENDING and CLAIMED rows of the device, or of all,
      past their deadline and not locked elsewhere; the others keep every column. */
  lemma ExpiryEndsTheOverdue(rows: Rows, device: Option<Id>, now: Time, locked: set<Id>, y: Id)
    requires y in rows
    ensures var rows' := ExpireAll(rows, DueRows(rows, device, now, locked), now);
      && rows'.Keys == rows.Keys
      && rows'[y] ==
        if (device.None? || rows[y].device == device.value) && (rows[y].status == Pending || rows[y].status == Claimed)
           && rows[y].expiresAt <= now && y !in locked
        then rows[y].(status := Expired, failureDetail := Some("Signature request expired"),
                      completedAt := Some(now), updatedAt := now)
        else rows[y]
  {
  }

  /** What a poll does to every request it does not claim. */
  lemma PollsExpireTheDue(
    rows: Rows, device: Id, now: Time, lockedAtExpiry: set<Id>, lockedAtPick: set<Id>,
    rows': Rows, picked: Option<Id>, y: Id)
    requires ClaimOutcome(rows, device, now, lockedAtExpiry, lockedAtPick, rows', picked)
    requires y in rows && picked != Some(y)
    ensures y in rows'
    ensures rows'[y] ==
      if rows[y].device == device && (rows[y].status == Pending || rows[y].status == Claimed)
         && rows[y].expiresAt <= now && y !in lockedAtExpiry
      then rows[y].(status := Expired, failureDetail := Some("Signature request expired"),
                    completedAt := Some(now), updatedAt := now)
      else rows[y]
  {
  }

  /** The state diagram: which status each statement leads to, and from where. */
  lemma StatusDiagram(r: Request, s: Id, gid: Id, g: Signature, detail: string, now: Time)
    ensures AfterExpiry(r, now).status ==
      if (r.status == Pending || r.status == Claimed) && r.expiresAt <= now then Expired else r.status
    ensures r.status == Claimed ==>
      Attach(r, s, now).status == if r.expiresAt <= now then Expired else Authenticating
    ensures !(r.status in {Pending, Claimed} && r.expiresAt <= now) ==>
      && MarkAuthenticated(r, now).status == (if r.status == Authenticating then Authenticated else r.status)
      && MarkFailed(r, detail, now).status ==
           (if r.status in {Claimed, Authenticating, Authenticated} then Failed else r.status)
      && MarkFailedBySession(r, detail, now).status ==
           (if r.status in {Authenticating, Authenticated} then Failed else r.status)
      && MarkSigned(r, s, gid, g, now).status ==
           (if r.status == Authenticated && g.session == s && g.document == r.document && g.device == r.device
               && g.documentHash == r.documentHash
            then Signed else r.status)
    ensures r.status in {Pending, Claimed} && r.expiresAt <= now ==>
      && MarkAuthenticated(r, now).status == Expired
      && MarkFailed(r, detail, now).status == MarkFailedBySession(r, detail, now).status == Expired
  {
  }

  /** The row a statement leaves is the row it found, or carries the reading in `updated_at` and
      in the stamp of its new status. */
  predicate StampedFor(r: Request, r': Request, now: Time) {
    || r' == r
    || (&& r'.updatedAt == now && r'.status != r.status
        && (r'.status == Claimed ==> r'.claimedAt == Some(now))
        && (r'.status == Authenticating ==> r'.authStartedAt == Some(now))
        && (r'.status == Authenticated ==> r'.authenticatedAt == Some(now))
        && (r'.status in {Signed, Failed, Expired} ==> r'.completedAt == Some(now))
        && (r'.status != Claimed ==> r'.claimedAt == r.claimedAt)
        && (r'.status != Authenticating ==> r'.authStartedAt == r.authStartedAt && r'.session == r.session)
        && (r'.status != Authenticated ==> r'.authenticatedAt == r.authenticatedAt)
        && (r'.status != Signed ==> r'.signature == r.signature)
        && (r'.status !in {Signed, Failed, Expired} ==> r'.completedAt == r.completedAt)
        && (r'.status !in {Failed, Expired} ==> r'.failureDetail == r.failureDetail))
  }

  lemma StatementsStampTheirStatus(r: Request, s: Id, gid: Id, g: Signature, detail: string, now: Time)
    ensures StampedFor(r, AfterExpiry(r, now), now)
    ensures r.status == Pending ==> StampedFor(r, Claim(r, now), now)
    ensures r.status == Claimed ==> StampedFor(r, Attach(r, s, now), now)
    ensures StampedFor(r, MarkAuthenticated(r, now), now) && StampedFor(r, MarkSigned(r, s, gid, g, now), now)
    ensures StampedFor(r, MarkFailed(r, detail, now), now) && StampedFor(r, MarkFailedBySession(r, detail, now), now)
    ensures Attach(r, s, now).status == Authenticating && r.status == Claimed ==> Attach(r, s, now).session == Some(s)
    ensures MarkSigned(r, s, gid, g, now).status == Signed && r.status != Signed ==>
      MarkSigned(r, s, gid, g, now).signature == Some(gid)
  {
  }

  /** A failed request says why, in at most 255 characters, all from the start of the text. */
  lemma FailuresSayWhy(r: Request, detail: string, now: Time)
    requires r.status in {Authenticating, Authenticated}
    ensures var why := MarkFailedBySession(r, detail, now).failureDetail;
      && why == MarkFailed(r, detail, now).failureDetail && why.Some? && |why.value| <= 255 && why.value <= detail
      && (|detail| <= 255 ==> why.value == detail)
  {
  }

  // ---------------------------------------------------------------- the table

  /** A row object, as the service's functions hold and update it. */
  class RequestRecord {
    const id: Id
    const owner: Id
    const user: Id
    const device: Id
    const document: Id
    const documentHash: string
    const decision: string
    const consentedAt: Option<Time>
    const consentVersion: Option<string>
    const expiresAt: Time
    const createdAt: Time
    var status: Status
    var session: Option<Id>
    var signature: Option<Id>
    var failureDetail: Option<string>
    var claimedAt: Option<Time>
    var authStartedAt: Option<Time>
    var authenticatedAt: Option<Time>
    var completedAt: Option<Time>
    var updatedAt: Time

    function Row(): Request
      reads this
    {
      Request(
        owner, user, device, document, documentHash, decision, consentedAt, consentVersion, expiresAt, createdAt,
        status, session, signature, failureDetail, claimedAt, authStartedAt, authenticatedAt, completedAt, updatedAt)
    }

    /** A freshly built request, before it is flushed. */
    constructor (
      id: Id, owner: Id, user: Id, device: Id, document: Id, documentHash: string,
      consentedAt: Time, consentVersion: string, createdAt: Time, now: Time)
      ensures this.id == id
      ensures Row() ==
        NewRequest(owner, user, device, document, documentHash, consentedAt, consentVersion, createdAt, now)
    {
      this.id, this.owner, this.user, this.device := id, owner, user, device;
      this.document, this.documentHash, this.decision := document, documentHash, APPROVE;
      this.consentedAt, this.consentVersion := Some(consentedAt), Some(consentVersion);
      this.expiresAt, this.createdAt := now + SIGNATURE_REQUEST_TTL, createdAt;
      status, session, signature, failureDetail := Pending, None, None, None;
      claimedAt, authStartedAt, authenticatedAt, completedAt := None, None, None, None;
      updatedAt := now;
    }

    method ExpireIfNeeded(now: Time) returns (expired: bool)
      modifies this
      ensures expired == Due(old(Row()), now)
      ensures Row() == AfterExpiry(old(Row()), now)
    {
      if !Expirable(status) || expiresAt > now {
        return false;
      }
      status := Expired;
      failureDetail := Some(EXPIRED_DETAIL);
      completedAt := Some(now);
      updatedAt := now;
      return true;
    }

    method BecomeClaimed(now: Time)
      modifies this
      ensures Row() == Claim(old(Row()), now)
    {
      status := Claimed;
      claimedAt := Some(now);
      updatedAt := now;
    }

    method BindSession(sid: Id, now: Time)
      modifies this
      ensures Row() == Attach(old(Row()), sid, now)
    {
      var expired := ExpireIfNeeded(now);
      if expired {
        return;
      }
      session := Some(sid);
      status := Authenticating;
      authStartedAt := Some(now);
      updatedAt := now;
    }

    method BecomeAuthenticated(now: Time)
      modifies this
      ensures Row() == MarkAuthenticated(old(Row()), now)
    {
      var expired := ExpireIfNeeded(now);
      if expired {
        return;
      }
      if status == Authenticating {
        status := Authenticated;
        authenticatedAt := Some(now);
        updatedAt := now;
      }
    }

    method BecomeSigned(sid: Id, gid: Id, g: Signature, now: Time)
      modifies this
      ensures Row() == MarkSigned(old(Row()), sid, gid, g, now)
    {
      if g.session != sid || document != g.document || device != g.device || documentHash != g.documentHash {
        return;
      }
      var expired := ExpireIfNeeded(now);
      if expired {
        return;
      }
      if status == Authenticated {
        status := Signed;
        signature := Some(gid);
        completedAt := Some(now);
        updatedAt := now;
      }
    }

    /** Shared by the two failure paths, which differ in the statuses they may fail. */
    method BecomeFailed(detail: string, now: Time, bySession: bool)
      modifies this
      ensures Row() ==
        if bySession then MarkFailedBySession(old(Row()), detail, now) else MarkFailed(old(Row()), detail, now)
    {
      var expired := ExpireIfNeeded(now);
      if expired {
        return;
      }
      if status == Authenticating || status == Authenticated || (!bySession && status == Claimed) {
        status := Failed;
        failureDetail := Some(Clip(detail, FAILURE_DETAIL_MAX));
        completedAt := Some(now);
        updatedAt := now;
      }
    }
  }

  /** The `signature_requests` table, keyed by primary key. */
  class RequestTable {
    var records: map<Id, RequestRecord>

    ghost predicate Valid()
      reads this, records.Values
    {
      && (forall id | id in records :: records[id].id == id)
      && UniqueSessions(Contents())
    }

    /** The rows the statements see. */
    ghost function Contents(): (rows: Rows)
      reads this, records.Values
      ensures rows.Keys == records.Keys
    {
      map id | id in records :: records[id].Row()
    }

    /** Updating one row object is a functional update of the contents. */
    twostate lemma OneRowChanged(id: Id)
      requires old(Valid()) && records == old(records) && id in records
      requires forall k | k in records && k != id :: unchanged(records[k])
      ensures Contents() == old(Contents())[id := records[id].Row()]
    {
    }

    constructor ()
      ensures Valid() && Contents() == map[]
    {
      records := map[];
    }

    method CreateSignatureRequest(
      id: Id, owner: Id, user: Id, device: Id, document: Id, documentOwner: Option<Id>, documentHash: string,
      consentedAt: Time, consentVersion: string, createdAt: Time, now: Time)
      returns (created: bool)
      requires Valid() && id !in records
      modifies this
      ensures Valid()
      ensures created <==> (documentOwner.None? || documentOwner.value == user)
      ensures Contents() ==
        if created then
          old(Contents())[id := NewRequest(
            owner, user, device, document, documentHash, consentedAt, consentVersion, createdAt, now)]
        else old(Contents())
    {
      if documentOwner.Some? && documentOwner.value != user {
        return false;
      }
      ghost var rows := Contents();
      var request := new RequestRecord(
        id, owner, user, device, document, documentHash, consentedAt, consentVersion, createdAt, now);
      records := records[id := request];
      assert Contents() == rows[id := request.Row()];
      return true;
    }

    /** Expire every due row of one device, or of all, skipping rows locked elsewhere. */
    method ExpireSignatureRequests(device: Option<Id>, now: Time, locked: set<Id>) returns (count: nat)
      requires Valid()
      modifies records.Values
      ensures Valid() && records == old(records)
      ensures Contents() == ExpireAll(old(Contents()), DueRows(old(Contents()), device, now, locked), now)
      ensures count == |DueRows(old(Contents()), device, now, locked)|
    {
      var selected := SelectDue(device, now, locked);
      count := |selected|;
      ExpireSelected(selected, now);
    }

    /** The loop over the selected rows; their order does not matter. */
    method ExpireSelected(selected: set<Id>, now: Time)
      requires Valid() && forall id | id in selected :: id in Contents() && Due(Contents()[id], now)
      modifies records.Values
      ensures Valid() && records == old(records)
      ensures Contents() == ExpireAll(old(Contents()), selected, now)
    {
      ghost var rows := Contents();
      ghost var done := {};
      var rest := selected;
      while rest != {}
        invariant done !! rest && done + rest == selected
        invariant records == old(records) && Valid()
        invariant Contents() == ExpireAll(rows, done, now)
        decreases rest
      {
        var id :| id in rest;
        ExpireOne(rows, done, id, now);
        rest := rest - {id};
        done := done + {id};
      }
      assert done == selected;
    }

    /** The statement's WHERE clause. */
    method SelectDue(device: Option<Id>, now: Time, locked: set<Id>) returns (selected: set<Id>)
      requires Valid()
      ensures selected == DueRows(Contents(), device, now, locked)
    {
      selected := set id | id in records && id !in locked
                  && Expirable(records[id].status) && records[id].expiresAt <= now
                  && (device.None? || records[id].device == device.value);
    }

    /** One turn of the expiry loop. */
    method ExpireOne(ghost rows: Rows, ghost done: set<Id>, id: Id, now: Time)
      requires Valid() && UniqueSessions(rows) && rows.Keys == records.Keys
      requires Contents() == ExpireAll(rows, done, now)
      requires id in rows && id !in done && Due(rows[id], now)
      modifies records.Values
      ensures Valid() && records == old(records)
      ensures Contents() == ExpireAll(rows, done + {id}, now)
    {
      ExpireAllStep(rows, done, id, now);
      assert records[id].Row() == rows[id];
      var expired := records[id].ExpireIfNeeded(now);
      OneRowChanged(id);
    }

    /** The row precedes, or is, the other by (created_at, id). */
    predicate Precedes(a: Id, b: Id)
      reads this, records.Values
      requires a in records && b in records
      ensures Precedes(a, b) <==> b == a || Before(Contents(), a, b)
    {
      a == b || records[a].createdAt < records[b].createdAt || (records[a].createdAt == records[b].createdAt && a < b)
    }

    /** ORDER BY created_at, id LIMIT 1. */
    method SelectFirst(ids: set<Id>) returns (first: Id)
      requires Valid() && ids <= records.Keys && ids != {}
      ensures first in records && IsFirst(Contents(), ids, first)
    {
      ghost var x := FirstExists(Contents(), ids);
      assert x in ids && forall y | y in ids :: Precedes(x, y);
      first :| first in ids && forall y | y in ids :: Precedes(first, y);
      forall y | y in ids ensures y == first || Before(Contents(), first, y) {
        assert Precedes(first, y);
      }
    }

    /** One poll of a device's queue, run under the device's advisory lock. */
    method ClaimNext(device: Id, now: Time, lockedAtExpiry: set<Id>, lockedAtPick: set<Id>)
      returns (picked: Option<Id>)
      requires Valid()
      modifies records.Values
      ensures Valid() && records == old(records)
      ensures ClaimOutcome(old(Contents()), device, now, lockedAtExpiry, lockedAtPick, Contents(), picked)
      ensures picked.Some? ==> picked.value in old(Contents())
      ensures picked.Some? ==> forall y | y in old(Contents()) && y != picked.value && y !in lockedAtPick
        && old(Contents())[y].device == device && old(Contents())[y].status == Pending
        && now < old(Contents())[y].expiresAt ::
        || old(Contents())[picked.value].createdAt < old(Contents())[y].createdAt
        || (old(Contents())[picked.value].createdAt == old(Contents())[y].createdAt && picked.value < y)
    {
      ghost var rows := Contents();
      var _ := ExpireSignatureRequests(Some(device), now, lockedAtExpiry);
      picked := ClaimAfterExpiry(device, now, lockedAtPick);
      if picked.Some? {
        PollServesTheOldest(rows, device, now, lockedAtExpiry, lockedAtPick, Contents(), picked.value);
      }
    }

    /** The in-flight test and the claim, once the device's due rows have expired. */
    method ClaimAfterExpiry(device: Id, now: Time, locked: set<Id>) returns (picked: Option<Id>)
      requires Valid()
      modifies records.Values
      ensures Valid() && records == old(records)
      ensures FreeClaimOutcome(old(Contents()), device, now, locked, Contents(), picked)
    {
      ghost var rows := Contents();
      var blocked := SelectInFlight(device);
      if blocked != {} {
        return None;
      }
      picked := PickFirst(device, now, locked);
      if picked.Some? {
        ClaimRow(rows, picked.value, now);
      }
    }

    /** The first claimable row, if there is one. */
    method PickFirst(device: Id, now: Time, locked: set<Id>) returns (picked: Option<Id>)
      requires Valid()
      ensures picked.None? <==> Claimable(Contents(), device, now, locked) == {}
      ensures picked.Some? ==>
        picked.value in records && IsFirst(Contents(), Claimable(Contents(), device, now, locked), picked.value)
    {
      var candidates := SelectClaimable(device, now, locked);
      if candidates == {} {
        return None;
      }
      var id := SelectFirst(candidates);
      return Some(id);
    }

    method ClaimRow(ghost rows: Rows, id: Id, now: Time)
      requires Valid() && rows == Contents() && id in rows
      modifies records.Values
      ensures Valid() && records == old(records)
      ensures Contents() == rows[id := Claim(rows[id], now)]
    {
      records[id].BecomeClaimed(now);
      OneRowChanged(id);
    }

    method SelectInFlight(device: Id) returns (ids: set<Id>)
      requires Valid()
      ensures ids == InFlight(Contents(), device)
    {
      ids := set id | id in records && records[id].device == device && Active(records[id].status);
    }

    method SelectClaimable(device: Id, now: Time, locked: set<Id>) returns (ids: set<Id>)
      requires Valid()
      ensures ids == Claimable(Contents(), device, now, locked)
    {
      ids := set id | id in records && id !in locked && Waiting(records[id].Row(), device, now);
    }

    /** Bind a new session to the device's claimed request for the same document, if there is one. */
    method AttachAuthenticationSession(
      device: Id, document: Id, documentHash: string, decision: string, sid: Id, s: Session, now: Time)
      returns (picked: Option<Id>)
      requires Valid() && forall id | id in Contents() :: Contents()[id].session != Some(sid)
      modifies records.Values
      ensures Valid() && records == old(records)
      ensures picked.None? <==>
        s.device != device || s.document != document || s.documentHash != documentHash || s.decision != decision
        || AttachableRows(old(Contents()), device, document, documentHash, decision) == {}
      ensures picked.None? ==> Contents() == old(Contents())
      ensures picked.Some? ==> (
        && picked.value in AttachableRows(old(Contents()), device, document, documentHash, decision)
        && old(Contents())[picked.value].status == Claimed && old(Contents())[picked.value].session.None?
        && old(Contents())[picked.value].device == device && old(Contents())[picked.value].document == document
        && old(Contents())[picked.value].documentHash == documentHash
        && Contents() == old(Contents())[picked.value := Attach(old(Contents())[picked.value], sid, now)])
    {
      if s.device != device || s.document != document || s.documentHash != documentHash || s.decision != decision {
        return None;
      }
      var candidates := SelectAttachable(device, document, documentHash, decision);
      if candidates == {} {
        return None;
      }
      var id :| id in candidates;
      BindRow(Contents(), id, sid, now);
      return Some(id);
    }

    method BindRow(ghost rows: Rows, id: Id, sid: Id, now: Time)
      requires Valid() && rows == Contents() && id in rows
      requires forall k | k in rows :: rows[k].session != Some(sid)
      modifies records.Values
      ensures Valid() && records == old(records)
      ensures Contents() == rows[id := Attach(rows[id], sid, now)]
    {
      records[id].BindSession(sid, now);
      OneRowChanged(id);
    }

    method SelectAttachable(device: Id, document: Id, documentHash: string, decision: string) returns (ids: set<Id>)
      requires Valid()
      ensures ids == AttachableRows(Contents(), device, document, documentHash, decision)
    {
      ids := set id | id in records && Attachable(records[id].Row(), device, document, documentHash, decision);
    }

    /** SELECT ... WHERE authentication_session_id = sid FOR UPDATE. */
    method LockBySession(sid: Id) returns (found: Option<Id>)
      requires Valid()
      ensures FoundBySession(Contents(), sid, found)
    {
      ghost var rows := Contents();
      var hits := set id | id in records && records[id].session == Some(sid);
      assert hits == RowsOfSession(rows, sid);
      if hits == {} {
        return None;
      }
      var id :| id in hits;
      assert rows[id].session == Some(sid);
      forall k | k in hits ensures k == id {
        assert rows[k].session == Some(sid);
      }
      assert hits == {id};
      return Some(id);
    }

    method MarkSignatureRequestAuthenticated(sid: Id, now: Time) returns (found: Option<Id>)
      requires Valid()
      modifies records.Values
      ensures Valid() && records == old(records)
      ensures FoundBySession(old(Contents()), sid, found)
      ensures found.None? ==> Contents() == old(Contents())
      ensures found.Some? ==>
        Contents() == old(Contents())[found.value := MarkAuthenticated(old(Contents())[found.value], now)]
    {
      found := LockBySession(sid);
      if found.None? {
        return;
      }
      records[found.value].BecomeAuthenticated(now);
      OneRowChanged(found.value);
    }

    method MarkSignatureRequestSigned(sid: Id, gid: Id, g: Signature, now: Time) returns (found: Option<Id>)
      requires Valid()
      modifies records.Values
      ensures Valid() && records == old(records)
      ensures FoundBySession(old(Contents()), sid, found)
      ensures found.None? ==> Contents() == old(Contents())
      ensures found.Some? ==>
        Contents() == old(Contents())[found.value := MarkSigned(old(Contents())[found.value], sid, gid, g, now)]
    {
      found := LockBySession(sid);
      if found.None? {
        return;
      }
      records[found.value].BecomeSigned(sid, gid, g, now);
      OneRowChanged(found.value);
    }

    /** A device reports a failure of one of its own requests. */
    method MarkSignatureRequestFailed(id: Id, device: Id, detail: string, now: Time) returns (found: bool)
      requires Valid()
      modifies records.Values
      ensures Valid() && records == old(records)
      ensures found <==> id in old(Contents()) && old(Contents())[id].device == device
      ensures Contents() ==
        if found then old(Contents())[id := MarkFailed(old(Contents())[id], detail, now)] else old(Contents())
    {
      if id !in records || records[id].device != device {
        return false;
      }
      records[id].BecomeFailed(detail, now, false);
      OneRowChanged(id);
      return true;
    }

    method MarkSignatureRequestFailedBySession(sid: Id, detail: string, now: Time) returns (found: Option<Id>)
      requires Valid()
      modifies records.Values
      ensures Valid() && records == old(records)
      ensures FoundBySession(old(Contents()), sid, found)
      ensures found.None? ==> Contents() == old(Contents())
      ensures found.Some? ==>
        Contents() == old(Contents())[found.value := MarkFailedBySession(old(Contents())[found.value], detail, now)]
    {
      found := LockBySession(sid);
      if found.None? {
        return;
      }
      records[found.value].BecomeFailed(detail, now, true);
      OneRowChanged(found.value);
    }

    /** A user looks at one of their requests; looking expires it when it is due. */
    method GetUserSignatureRequest(id: Id, user: Id, now: Time) returns (found: bool)
      requires Valid()
      modifies records.Values
      ensures Valid() && records == old(records)
      ensures found <==> id in old(Contents()) && old(Contents())[id].user == user
      ensures Contents() ==
        if found then old(Contents())[id := AfterExpiry(old(Contents())[id], now)] else old(Contents())
    {
      if id !in records || records[id].user != user {
        return false;
      }
      var expired := records[id].ExpireIfNeeded(now);
      OneRowChanged(id);
      return true;
    }

    /** The duplicate test of a creation: no open request of the user for the document. */
    method NoneOpen(user: Id, document: Id) returns (clear: bool)
      requires Valid()
      ensures clear <==>
        forall id | id in Contents() && Contents()[id].user == user && Contents()[id].document == document ::
          !Open(Contents()[id].status)
    {
      clear := forall id | id in records && records[id].user == user && records[id].document == document ::
        !Open(records[id].status);
      ghost var rows := Contents();
      assert forall id | id in records :: rows[id] == records[id].Row();
    }

    /** FOR UPDATE read of the row behind a session, and the authorization test on it. */
    method IsAuthorizedForSession(sid: Id, s: Session, expected: Status, now: Time)
      returns (authorized: bool, found: Option<Id>)
      requires Valid()
      ensures FoundBySession(Contents(), sid, found)
      ensures authorized <==> found.Some? && Authorized(Contents()[found.value], s, expected, now)
    {
      found := LockBySession(sid);
      if found.None? {
        return false, None;
      }
      authorized := Authorized(records[found.value].Row(), s, expected, now);
    }
  }
}
