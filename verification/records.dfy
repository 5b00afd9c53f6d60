/** The database rows the signing protocol reads and writes, as values.

    Instants are microseconds since the epoch; identifiers are the integer value
    of the UUID; documents are named by the hexadecimal SHA-256 text the rows carry. */
module Records {

  datatype Option<+T> = None | Some(value: T)

  type Id = nat
  type Time = int

  const SECOND: int := 1_000_000

  const APPROVE := "APPROVE"

  datatype Status = Pending | Claimed | Authenticating | Authenticated | Signed | Failed | Expired

  /** Statuses in which a request occupies its device's queue. */
  predicate Active(s: Status) {
    s == Claimed || s == Authenticating || s == Authenticated
  }

  /** Statuses a request can still leave. */
  predicate Open(s: Status) {
    s == Pending || Active(s)
  }

  /** How far a request has travelled; every terminal status has the same rank. */
  function Rank(s: Status): nat {
    match s
    case Pending => 0
    case Claimed => 1
    case Authenticating => 2
    case Authenticated => 3
    case Signed => 4
    case Failed => 4
    case Expired => 4
  }

  /** A `signature_requests` row. */
  datatype Request = Request(
    owner: Id,
    user: Id,
    device: Id,
    document: Id,
    documentHash: string,
    decision: string,
    consentedAt: Option<Time>,
    consentVersion: Option<string>,
    expiresAt: Time,
    createdAt: Time,
    status: Status,
    session: Option<Id>,
    signature: Option<Id>,
    failureDetail: Option<string>,
    claimedAt: Option<Time>,
    authStartedAt: Option<Time>,
    authenticatedAt: Option<Time>,
    completedAt: Option<Time>,
    updatedAt: Time)

  /** The columns no statement ever updates. */
  predicate SameIdentity(r: Request, r': Request) {
    && r'.owner == r.owner && r'.user == r.user && r'.device == r.device
    && r'.document == r.document && r'.documentHash == r.documentHash
    && r'.decision == r.decision && r'.consentedAt == r.consentedAt
    && r'.consentVersion == r.consentVersion && r'.expiresAt == r.expiresAt
    && r'.createdAt == r.createdAt
  }

  /** An `authentication_sessions` row. */
  datatype Session = Session(
    device: Id,
    user: Id,
    rfid: string,
    document: Id,
    documentHash: string,
    decision: string,
    challenge: string,
    expiresAt: Time,
    verifiedAt: Option<Time>,
    usedAt: Option<Time>)

  /** A `document_signatures` row. The last two fields are not columns: they record the
      clock readings at which the handler that inserted the row checked the authorization
      of the request and the freshness of the session. */
  datatype Signature = Signature(
    session: Id,
    document: Id,
    user: Id,
    device: Id,
    documentHash: string,
    authorizedAt: Time,
    freshAt: Time)

  datatype Document = Document(owner: Option<Id>, documentHash: string)

  /** `t`, when present, is not after `bound`. */
  predicate NotAfter(t: Option<Time>, bound: Time) {
    t.Some? ==> t.value <= bound
  }
}
