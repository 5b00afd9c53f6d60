# RemoteSignLab verification model

RemoteSignLab lets a web user consent to signing a document, hands the request to a hardware
device, authenticates the user there by card and fingerprint, signs the document, and records
everything in a hash-chained audit log. This project models that protocol in Dafny and proves
what it promises. `dafny verify dfyconfig.toml` checks it.

| file | what it models |
|---|---|
| `records.dfy` | the rows of requests, sessions, signatures and documents |
| `request_service.dfy` | the statements of the queue service: on one row, as queries, and as a table of mutable row objects |
| `protocol.dfy` | the handlers' transactions as atomic operations, and the invariant of every reachable database |
| `transactions.dfy` | the same transactions interleaved: row locks to commit, the device's advisory lock, SKIP LOCKED, rollback; serializability |
| `run_laws.dfy` | laws over whole interleavings: first come first served, deadlines, terms that never change |
| `clock_order.dfy`, `late_stamps.dfy`, `reachability.dfy` | which clock reading each time stamp is, and what stamps can and cannot say; a run that signs a document |
| `calls.dfy`, `call_outcomes.dfy`, `handlers.dfy` | the endpoints: when they accept, what they answer and commit, what a terminal refusal ends, what each single fault is answered with, and that a faultless device succeeds |
| `texts.dfy`, `messages.dfy` | decimal, hexadecimal and UUID text; the canonical messages of server and firmware |
| `nonces.dfy`, `rate_limit.dfy` | anti-replay and the failure window |
| `canonical_json.dfy`, `audit_values.dfy`, `audit_events.dfy`, `audit_chain.dfy`, `audit_log.dfy` | canonical JSON, the event hash, the chain under its lock, the verifier, tamper evidence |
| `sanitizer.dfy` | the sanitiser of audit details |
| `publication.dfy`, `page_box.dfy`, `signature_check.dfy` | publication of signed files with crashes, the visible signature box, PAdES decisions |
| `firmware.dfy`, `composition.dfy` | the device's timers and workflow, and device and server over an unreliable network |

Instants are microseconds. Everything computed by cryptography, the PDF library, the operating
system or a sensor is a parameter, so the results hold for whatever those return.

## Where the code does less than its design suggests

- `claimed_at` may precede `created_at`: a poll reads its clock before it waits for the device's
  advisory lock, and may then claim a request created meanwhile.
- `authentication_started_at` may precede `claimed_at`: a challenge reads its clock before its
  SELECT starts, and a poll may read its own clock, claim and commit in between. A row still
  PENDING when the SELECT starts is neither seen nor waited for. For both orders an execution
  that breaks it is given, and it is proved over all executions exactly when that happens.
- The details sanitiser is not idempotent: five levels down, a mapping of more than fifty items
  that loses one of its first fifty gets its truncation mark too early, and the mark becomes text
  in a second pass. Exactly which inputs are affected is proved.
- A temporary file stays behind when closing it raises, and in no other handled error before
  the commit.
- A float anywhere in the details and the string of its digits have one canonical form, so that
  edit is invisible to the chain.
- A replay is excluded up to 479 seconds between the timestamp check and the nonce's insert, and
  possible two microseconds later.
- The chain verifies exactly when rows that predate it also sort before it.

## Model

| member | source | states |
|---|---|---|
| RequestService.RowStepsAdvance | app/services/signature_request_service.py:40-79 | every statement on one request row keeps the identity columns and either keeps the status or strictly raises its rank |
| RequestService.FirstExists | app/services/signature_request_service.py:234-248 | among any non-empty set of candidates there is a least by (created_at, id) |
| RequestService.FirstIsUnique | app/services/signature_request_service.py:234-248 | that least candidate is unique, so a poll's choice is determined |
| RequestService.PollServesTheOldest | app/services/signature_request_service.py:199-255 | first come, first served, in the columns: a poll claims a PENDING, unexpired, unlocked request of the device, every other such request was created later or at the same instant under a larger identifier, and all the device had in hand has just expired |
| RequestService.IdlePollsHaveAReason | app/services/signature_request_service.py:199-250 | a poll that claims nothing found a request in hand that it could not expire, or no waiting request that is not locked |
| RequestService.PollsExpireTheDue | app/services/signature_request_service.py:127-180 | a poll leaves every request it does not claim as it was, except the overdue PENDING and CLAIMED ones of its device, which become EXPIRED at its reading |
| RequestService.ExpiryEndsTheOverdue | app/services/signature_request_service.py:127-180 | the expiry statement in the columns, for one device or all |
| RequestService.StatusDiagram | app/services/signature_request_service.py:40-568 | the state diagram: to which status each statement takes a request, from which status, and when it expires it instead |
| RequestService.StatementsStampTheirStatus | app/services/signature_request_service.py:40-568 | a statement either leaves the row alone or changes the status, sets updated_at and exactly the stamp of the new status to its reading, and keeps the other columns |
| RequestService.FailuresSayWhy | app/services/signature_request_service.py:491-568 | the failure detail is the start of the given text, all of it up to 255 characters |
| RequestService.ExpiredBlockersDoNotBlock | app/services/signature_request_service.py:199-248 | when every in-flight request of the device is CLAIMED and past its deadline, an uncontended poll claims exactly the oldest waiting request, and nothing only if none waits |
| RequestService.UnfinishedAuthenticationBlocks | app/services/signature_request_service.py:24-27 | a request in AUTHENTICATING or AUTHENTICATED blocks its device's queue at every later instant, however old, and a poll does not change it |
| RequestService.RequestRecord.ExpireIfNeeded | app/services/signature_request_service.py:40-79 | the in-place expiry of one row, tied to the row's new value, and whether it happened |
| RequestService.RequestTable.CreateSignatureRequest | app/services/signature_request_service.py:82-124 | inserts exactly one PENDING row expiring 900 s after the clock reading, or nothing when the document has another owner |
| RequestService.RequestTable.ExpireSignatureRequests | app/services/signature_request_service.py:127-180 | the loop expires exactly the due PENDING and CLAIMED rows of the device that no other transaction has locked, leaves the others unchanged, and returns their number |
| RequestService.RequestTable.ClaimNext | app/services/signature_request_service.py:183-257 | expiry, in-flight test and claim; of the waiting requests that nobody else has locked the one claimed was created first, or has the smaller identifier among equals |
| RequestService.RequestTable.AttachAuthenticationSession | app/services/signature_request_service.py:338-400 | binds the session to a CLAIMED unbound request of the same device, document, hash and decision, expiring it instead when due; otherwise changes nothing |
| RequestService.RequestTable.MarkSignatureRequestAuthenticated | app/services/signature_request_service.py:403-439 | changes only the row found by session, by the authenticated transition or expiry |
| RequestService.RequestTable.MarkSignatureRequestSigned | app/services/signature_request_service.py:442-488 | changes only the row found by session, and not at all unless the signature row names its session, document, device and hash |
| RequestService.RequestTable.MarkSignatureRequestFailed | app/services/signature_request_service.py:491-529 | a failure report changes only the named request of the reporting device, and only while it is active |
| RequestService.RequestTable.MarkSignatureRequestFailedBySession | app/services/signature_request_service.py:532-568 | a terminal rejection changes only the request bound to the session |
| RequestService.RequestTable.GetUserSignatureRequest | app/services/signature_request_service.py:290-314 | a user sees only their own request; looking expires it when due and changes nothing else |
| RequestService.RequestTable.IsAuthorizedForSession | app/services/signature_request_service.py:627-672 | authorized exactly when the one row carrying the session has the expected status, is unexpired, carries consent and agrees with the session on user, device, document, hash and decision |
| Protocol.ApplyKeepsInv | app/services/signature_request_service.py:338-568 | every transaction of every handler keeps the protocol invariant: stage columns exactly for the stages passed, agreement of linked rows, accounting of signatures and sessions, one active request per device, one open request per document |
| Protocol.ClaimKeepsInv | app/services/signature_request_service.py:183-257 | a poll keeps at most one request per device CLAIMED, AUTHENTICATING or AUTHENTICATED |
| Protocol.CreateKeepsInv | app/user_web/routes.py:714-788 | a creation keeps at most one non-terminal request per document, owned, consented and viewed in the creating session |
| Protocol.ChallengeKeepsInv | app/api/auth.py:598-677 | creating a session and attaching it to the claimed request keeps the invariant |
| Protocol.CompleteKeepsInv | app/api/auth.py:1292-1371 | verified_at and the request's AUTHENTICATED status, committed together, keep the invariant |
| Protocol.SignKeepsInv | app/api/signing.py:1045-1205 | signature row, used_at and SIGNED status, committed together, keep the invariant, and the request does become SIGNED with that signature |
| Protocol.SerialKeepsInv | app/services/signature_request_service.py:30-725 | the invariant holds after any sequence of transactions |
| Protocol.ApplyAdvances | app/services/signature_request_service.py:40-79 | no transaction removes a request; each leaves its status alone or strictly raises its rank |
| Protocol.TerminalIsFinal | app/services/signature_request_service.py:519-568 | a terminal request never changes again, in any column |
| Protocol.AtMostFourStatusChanges | app/services/signature_request_service.py:391-486 | along any run a request changes status at most four times |
| Protocol.SignedRequestHasItsSignature | app/api/signing.py:1045-1159 | a SIGNED request has one signature row that agrees with it and with its session on device, user, document, hash and APPROVE, with consent recorded and verified_at and used_at set |
| Protocol.SignatureHasItsRequest | app/api/signing.py:478-615 | every signature row belongs to exactly one SIGNED request, and no session yields two signatures |
| Protocol.SignatureWasFresh | app/api/signing.py:621-632 | a signature's freshness check came at most 60 s after verification and under 120 s after the challenge, its authorization check within 900 s of the request's creation |
| Protocol.StagesAreOrdered | app/services/signature_request_service.py:391-486 | stage instants up to authentication and completion are in order |
| Protocol.OneOfEach | app/services/signature_request_service.py:183-400 | in every reachable database, two requests never share a device while both in hand, a document while both unfinished, or a session |
| Protocol.ColumnsByStatus | app/services/signature_request_service.py:40-568 | in every reachable database, which columns are set in which status |
| Protocol.RequestsAreTheOwners | app/user_web/routes.py:720-788 | in every reachable database, a request belongs to the user of the web session that created it, who viewed the document there and owns it as stored |
| Protocol.RequestAndSessionAgree | app/services/signature_request_service.py:338-488 | in every reachable database, a request agrees with its session on device, document, hash and decision; the session is verified exactly when the request was authenticated, used exactly when it is SIGNED, and a verified one is the requesting user's |
| Protocol.SessionSteps | app/api/auth.py:598-640 | a session is opened by a challenge for 60 seconds, and changed afterwards only by being verified and by being used |
| Protocol.SessionsLastAMinute | app/api/auth.py:598-640 | in every run, each session was opened by one challenge, whose device, user, card, document and challenge it keeps, and expires 60 s after its reading |
| Protocol.SignaturesFollowTheirChallenge | app/api/signing.py:621-632 | in every run, a signature's session was verified under 60 s after its challenge was issued, and its freshness was checked at most 60 s after that |
| Transactions.CommitKeepsInv | app/services/signature_request_service.py:183-257 | a commit is atomic: the guards the transaction passed under its locks still hold of the database it commits to, and what it publishes is the atomic transaction's result |
| Transactions.PublishIsApply | app/api/signing.py:1071-1205 | rows computed from locked rows and published at commit are those of the atomic transaction |
| Transactions.StepKeepsInv | app/services/signature_request_service.py:183-257 | every step of every transaction (clock reading, lock, skip-locked selection, test, write, commit, rollback) keeps what the others rely on, with any other steps and clock readings between a handler's readings |
| Transactions.StagedReadingsFollowTheRows | app/api/signing.py:478-1159 | the readings of a handler that locked its rows come after every instant in those rows, however long ago it took the locks |
| Transactions.ClaimStepsKeepInv | app/services/signature_request_service.py:189-228 | the steps of a poll under the device's advisory lock, up to its in-flight test |
| Transactions.PicksServeTheOldest | app/services/signature_request_service.py:229-250 | when a poll picks, of the requests waiting for its device and locked by nobody else it takes the one created first |
| Transactions.EmptyPicksFoundNone | app/services/signature_request_service.py:229-250 | a poll that picks nothing found no waiting request of its device that nobody else has locked |
| Transactions.CreateStepsKeepInv | app/user_web/routes.py:720-788 | the steps of a creation under the document's row lock, with its clock readings anywhere between its start and the insert |
| Transactions.EveryInterleavingIsSafe | app/services/signature_request_service.py:189-248 | in every interleaving of transactions, every committed database satisfies the protocol invariant |
| Transactions.InterleavingsAreSerializable | app/services/signature_request_service.py:189-248 | every interleaving commits what its committed transactions commit when each runs alone, in commit order |
| LateStamps.ClaimedAtCanPrecedeCreatedAt | app/services/signature_request_service.py:188-199 | counterexample: an execution that commits a CLAIMED request whose claimed_at precedes its created_at, because the poll reads its clock before it waits for the advisory lock |
| LateStamps.AuthenticationCanPrecedeClaim | app/services/signature_request_service.py:347-400 | counterexample: an execution that commits a request whose authentication_started_at precedes its claimed_at, because a poll read its clock and claimed the row between the challenge's reading and its SELECT |
| ClockOrder.EveryStampHasItsStep | app/services/signature_request_service.py:101-400 | in every execution each created_at, claimed_at and authentication_started_at is the clock reading of one step of one committed transaction: the start of the creation, the start of the poll, the reading of the challenge |
| ClockOrder.ClaimPrecedesCreationExactlyWhen | app/services/signature_request_service.py:188-255 | claimed_at precedes created_at exactly when the poll began before the creating transaction did and the clock moved in between |
| ClockOrder.AuthenticationPrecedesClaimExactlyWhen | app/services/signature_request_service.py:347-400 | authentication_started_at precedes claimed_at exactly when the challenge read its clock before the claiming poll began and the clock moved in between |
| ClockOrder.RequestsSeenAtTheReadingAreInOrder | app/services/signature_request_service.py:188-255 | in any interleaving, a request already committed when the poll reads its clock was created no later than that reading |
| RunLaws.ClaimsServeTheOldest | app/services/signature_request_service.py:183-257 | first come, first served, in every interleaving: behind every committed claim there is its pick, and every request then waiting for the device and locked by nobody else was created later |
| RunLaws.TermsNeverChange | app/services/signature_request_service.py:40-568 | no step of any interleaving changes a request's owner, user, device, document, hash, decision, consent or deadline |
| RunLaws.RequestsKeepTheirTerms | app/services/signature_request_service.py:100-124 | in every interleaving a request carries the terms of its creation: a deadline 900 s after that transaction's last reading, consent recorded between its start and that reading, the user's own document with its stored hash, APPROVE |
| RunLaws.NoneIsSignedLate | app/services/signature_request_service.py:640-672 | in every interleaving the authorization of a signature was checked less than 900 s after its request was created |
| RunLaws.ChallengesLastAMinute | app/api/auth.py:590-640 | in every interleaving the session of a challenge expires 60 s after the clock reading its transaction began with |
| Reachability.SigningIsReachable | app/api/signing.py:162-1215 | a run from an empty database to a SIGNED request: all guards can be met |
| Calls.AuthorizedSessionIsReady | app/api/signing.py:478-615 | in a reachable database an authorized session is verified, unused and has no signature, so the later checks of those are never decisive |
| Calls.CompletionIsOneTransaction | app/api/auth.py:1292-1371 | a granted completion enables exactly one transaction, on the calling device's request bound to the session: that request becomes AUTHENTICATED for the session's user and the invariant is kept |
| Calls.SigningIsOneTransaction | app/api/signing.py:1045-1205 | a granted signing call enables exactly one transaction, on the calling device's request bound to the session: that request becomes SIGNED with this signature, for the document and hash of the call, and the invariant is kept |
| Calls.ChallengeIsOneTransaction | app/api/auth.py:520-677 | a granted challenge is exactly one transaction: the card decides the user, and at most one claimed request can be bound |
| CallOutcomes.AuthenticationMeans | app/api/auth.py:1044-1345 | an accepted completion proves, across the tables: a genuine device, its own unexpired challenge, a card and a finger enrolled together on it for the user who consented, that user active, and that user's document unchanged |
| CallOutcomes.WrongFingerEndsTheRequest | app/api/auth.py:1200-1248 | a right answer whose card and finger are not enrolled together for the session's user is refused with 403 and ends the request |
| CallOutcomes.CompletionCallerFaults | app/api/auth.py:880-1012 | one fault of the caller: 401 unknown, without secret, wrong HMAC or stale nonce; 403 inactive or without fingerprint reader; 429 limited; the request lives on |
| CallOutcomes.CompletionCallFaults | app/api/auth.py:750-1190 | one fault of the call: 400 malformed, 401 wrong challenge, 403 wrong card, document or hash, 404 unknown session; the request lives on |
| CallOutcomes.CompletionSessionFaults | app/api/auth.py:1044-1120 | another device's session 403, a verified one 409, an expired one 401 and only that ends the request |
| CallOutcomes.CompletionEntitlementFaults | app/api/auth.py:1150-1318 | credential missing, user gone or inactive, document changed, no authorized request: 403; document gone: 404; each ends the request |
| CallOutcomes.OnlyRightAnswersEndRequests | app/api/auth.py:880-1318 | whatever else is wrong, a completion ends a request only from the session's own genuine device, and only when the challenge has expired or everything the session was opened with is named |
| CallOutcomes.SigningMeans | app/api/signing.py:436-840 | an accepted signing call proves, across the tables: a genuine device, its own session, verified at most 60 s ago and unused, the AUTHENTICATED request of the session's user, and a file whose digest is the hash that user's document is stored under |
| CallOutcomes.ReplacedFileEndsTheRequest | app/api/signing.py:786-846 | a readable file of another digest, in a call right in everything else, is refused with 409 and ends the request |
| CallOutcomes.SigningCallerFaults | app/api/signing.py:226-436 | one fault of the caller: 401, 403 or 429 as for completions; the request lives on |
| CallOutcomes.SigningCallFaults | app/api/signing.py:290-615 | one fault of the call: 400 malformed, 403 not approved or another document or hash, 404 unknown session; the request lives on |
| CallOutcomes.SigningSessionFaults | app/api/signing.py:463-650 | another device's session 403 without ending the request; verified more than 60 s ago 401, no authorized request 403, each ending it |
| CallOutcomes.SigningDocumentFaults | app/api/signing.py:652-846 | document gone 404, changed in the table 409, user gone 403, file outside storage, missing or unreadable 500, file changed 409; each ends the request |
| CallOutcomes.SigningServiceFaults | app/api/signing.py:890-1039 | a failing service is answered 503, a bad target path 500, and the request lives on |
| CallOutcomes.OnlyOwnSessionsEndRequests | app/api/signing.py:436-846 | whatever else is wrong, a signing call ends a request only from the session's own genuine device, and only when nothing authorized is behind the session or the call names the document of a verified, unused session |
| CallOutcomes.ChallengeMeans | app/api/auth.py:150-580 | an issued challenge rests on a genuine device with a card reader, a stored document named by its hash, and a card of an active user |
| CallOutcomes.ChallengeFaults | app/api/auth.py:150-590 | one fault of a challenge and the one status it can be answered with |
| CallOutcomes.QueueFaults | app/api/device_signature_requests.py:70-229 | one fault of a caller of the queue endpoints and its status: 401 unknown, without secret, wrong HMAC or stale nonce, 429 limited, 403 inactive |
| CallOutcomes.AnHonestDeviceSigns | app/api/auth.py:118-1395 | from any reachable database in which it has claimed a request, a device that does everything right and in time has all three calls accepted and the request SIGNED |
| Calls.DeliveredIsClaimed | app/api/device_signature_requests.py:268-305 | what a poll delivers is a request that was PENDING and unexpired on the device and is now CLAIMED by this poll, with its document, hash and decision; no content means nothing was claimed |
| Calls.CreationConsents | app/user_web/routes.py:714-788 | a created request is PENDING for the configured device, for the user's own viewed document as stored, with consent and a deadline 900 s after the last reading, and nothing else changes |
| Calls.CreationIsEnabled | app/user_web/routes.py:714-788 | the owner of a viewed document without an unfinished request can always create one |
| Calls.TerminalFailureStaysOnTheDevice | app/api/signing.py:114-126 | whatever transactions commit between a refusal's rollback and its terminal failure, the request that fails belongs to the device that called |
| Calls.TerminalFailureEndsOneRequest | app/services/signature_request_service.py:532-568 | a terminal failure leaves the bound request terminal and every other request as it was, and frees the device's queue if the request occupied it |
| Calls.PollIsOneClaim | app/api/device_signature_requests.py:258-305 | one poll is one atomic claim transaction, with the rows it expired |
| Handlers.Server.CompleteAuthentication | app/api/auth.py:717-1395 | accepts exactly when the call is well formed and genuine, answers the device's own unexpired, unverified session with what it was opened for, and proves card, finger, user and authorized request; then commits one completion, which leaves the calling device's request AUTHENTICATED for the user whom card and finger are enrolled for. Where only one refusal is possible it gives that one. Otherwise changes nothing, answers a status whose reason holds, and is terminal exactly for an expired challenge or a right answer by someone not entitled, in the caller's own session |
| Handlers.Server.CreateChallenge | app/api/auth.py:118-706 | accepts exactly when a genuine device names a stored document by its hash with the card of an active user; then commits the session insert and the attach to the device's claimed request for the document, if there is one. Otherwise changes nothing and answers a status whose reason holds |
| Handlers.Server.SignDocument | app/api/signing.py:162-1215 | accepts exactly when the call is genuine, the device's own session is authorized, ready, named by the call and recently verified, the stored file is the approved document, and the services delivered; then commits one signing, over the document whose file has the digest the call names. Where only one refusal is possible it gives that one. Otherwise changes nothing, answers a status whose reason holds (503 exactly when only a service failed), and is terminal exactly for an unauthorized session, a stale verification or a document that no longer stands, in the caller's own session |
| Handlers.Server.FailTerminally | app/services/signature_request_service.py:571-592 | the terminal failure is a transaction of its own: one failure of the request bound to the session by then, or nothing when no request is |
| Handlers.Server.ClaimNextRequest | app/api/device_signature_requests.py:232-305 | an authenticated poll is answered with exactly the row it claimed, or no content when it claimed none; any other poll changes nothing and is answered 401, 403 or 429, each exactly for its reason |
| Handlers.Server.ReportRequestStatus | app/api/device_signature_requests.py:312-405 | 404 for another device's request, 409 when it could not be failed, and the stored terminal status otherwise, with exactly that row changed |
| Handlers.Server.CreateUserSignatureRequest | app/user_web/routes.py:714-823 | accepts exactly when the creation transaction is enabled and a device is configured, and commits it; 404 exactly for a document the user does not own, 503 exactly when only the device is missing, 409 for a document not viewed or with an unfinished request, with nothing changed |
| Handlers.Server.ViewDocument | app/user_web/routes.py:577-632 | only the owner views a document, only when its file is on disk, and the view is recorded for the web session |
| Handlers.Server.RequestStatus | app/user_web/routes.py:826-875 | a user's status read commits at most the expiry of that user's own request |
| AuditChain.VerifyAuditChain | app/services/audit_service.py:822-880 | the loop's report is valid exactly for an unsealed prefix followed by a chain linked from genesis, otherwise names the least violating row; its counts account for every row read |
| AuditChain.NowAfter | app/services/audit_service.py:487-505 | the new instant is later than the previous event's whatever the clock does, and no earlier than the clock |
| AuditChain.NowAfterIsLeast | app/services/audit_service.py:487-505 | the new instant is the least that is not before the clock and after the previous event |
| AuditChain.SealingFillsThreeColumns | app/services/audit_service.py:647-669 | sealing sets the instant, the previous row's hash or 64 zeros, and the hash of the row with both, and no other column |
| AuditChain.LatestIsLast | app/services/audit_service.py:473-484 | the query for the last sealed row by (created_at, id) finds the end of the chain |
| AuditChain.StepKeepsLog | app/services/audit_service.py:617-674 | locking, writing, committing and rolling back, in any interleaving, keep the committed rows chained and uncommitted rows the lock holder's alone |
| AuditChain.SortedRowsAreUnique | app/services/audit_service.py:825-831 | two orderings of the same rows by (created_at, id) are the same sequence |
| AuditChain.CommittedLogVerifies | app/services/audit_service.py:473-505 | read in (created_at, id) order the committed log is intact exactly when the unsealed rows sort before the first sealed one; append order is then reading order |
| AuditChain.CommittedLogAlwaysVerifies | app/services/audit_service.py:617-674 | the same at every moment of every run of any number of transactions, with any clock |
| AuditChain.FinalHashPinsTheChain | app/services/audit_service.py:840-868 | intact logs that end in one event hash have equally many sealed rows and agree on every hashed column of each |
| AuditChain.EditIsCaughtAtTheRow | app/services/audit_service.py:840-868 | editing a sealed row makes it the first invalid row exactly when the edit reaches a hashed column |
| AuditChain.ResealedEditIsCaughtNext | app/services/audit_service.py:840-868 | resealing the edited row moves the first violation to its successor; without a successor it goes unnoticed |
| AuditChain.DeletionIsCaughtAtTheSuccessor | app/services/audit_service.py:840-868 | deleting a sealed row that is not the last makes its successor the first invalid row |
| AuditChain.TruncationIsInvisible | app/services/audit_service.py:840-868 | cutting rows off the end leaves an intact log |
| AuditChain.FloatEditIsInvisible | app/services/audit_service.py:387-409 | blind spot: replacing floats by the strings of their digits, at any depth inside the stored details, keeps the log intact |
| AuditEvents.HashingIsBinding | app/services/audit_service.py:412-461 | with a collision-free SHA-256, equal event hashes mean exactly equal hashed columns, details up to their canonical form |
| AuditEvents.HashesFixTheRow | app/services/audit_service.py:412-461 | with a collision-free SHA-256, a hash fixes every column of its row but the hash itself, and the text of the details |
| AuditEvents.PayloadNames | app/services/audit_service.py:412-453 | the names of the 23 hashed columns |
| AuditEvents.PayloadIsSorted | app/services/audit_service.py:412-453 | the 23 hashed columns are printed in the key order of the service's JSON printer |
| AuditLog.NormalizedOutcome | app/services/audit_service.py:347-370 | outside the denials SUCCESS is stored for SUCCESS, FAILURE for FAILURE and FAILED, DENIED for DENIED and anything else is refused; every event type that is a denial is stored as DENIED |
| AuditLog.OutcomesStored | app/services/audit_service.py:347-370 | the stored value of each outcome the service's callers give, for the seven denials and for all other event types |
| AuditLog.OutcomesAreNormal | app/services/audit_service.py:347-370 | normalising an outcome again changes nothing |
| AuditLog.StoredColumns | app/services/audit_service.py:347-386 | the stored category, actor type and failure code: trimmed and folded, of the supported values, INVALID_FAILURE_CODE for a malformed code; the other columns as given |
| AuditLog.StoredRowsAreNormal | app/services/audit_service.py:347-386 | category, actor type, outcome and failure code are stored in normal form: normalising a stored row again changes nothing |
| AuditLog.Log.WriteAuditEvent | app/services/audit_service.py:508-674 | appends one sealed event, normalised, after the last row the transaction sees, or nothing exactly when outcome, category or actor type is unsupported |
| AuditLog.Log.RecordAuditEvent | app/services/audit_service.py:685-744 | in a transaction of its own, commits one event at the end of the chain or changes nothing, whichever database step fails; answers true exactly when nothing failed, and releases the lock |
| CanonicalJson.ParsePrint | app/services/audit_service.py:439-453 | reading inverts the printer with its sorted keys and string escapes, whatever text follows the value |
| CanonicalJson.PrintIsInjective | app/services/audit_service.py:439-453 | equal canonical texts come from equal payload trees |
| CanonicalJson.PrintedForms | app/services/audit_service.py:439-453 | the text is JSON without blanks: the literals, and lists with commas |
| CanonicalJson.PrintedObjects | app/services/audit_service.py:439-453 | objects with quoted keys, colons and commas |
| CanonicalJson.PrintedStrings | app/services/audit_service.py:439-453 | quotation mark, reverse solidus and control characters are escaped, and nothing else |
| AuditValues.InsertionOrderDoesNotMatter | app/services/audit_service.py:387-453 | the order in which a dictionary was filled does not reach its canonical text |
| AuditValues.EqualTextsMapAlike | app/services/audit_service.py:387-453 | dictionaries with equal texts map the same keys to values with equal canonical forms |
| AuditValues.CanonicalEntriesMap | app/services/audit_service.py:400-404 | the canonical object is sorted and maps each key to the canonical form of its value, later entries overriding earlier ones |
| AuditValues.CanonicalForms | app/services/audit_service.py:387-409 | what each kind of value is printed as |
| AuditValues.FloatsAsTextAgree | app/services/audit_service.py:387-409 | values that differ only in floats given as the strings of their digits have one canonical form |
| Sanitizer.ServiceKeepsSecrets | app/services/audit_service.py:163-236 | inputs that differ only in what the service's sensitive keys hold, at any depth, give equal stored details |
| Sanitizer.SecretsDoNotInterfere | app/services/audit_service.py:163-222 | the same for every value at every depth, whatever keys count as sensitive |
| Sanitizer.SanitizedIsOutput | app/services/audit_service.py:163-222 | the sanitiser returns only JSON scalars, short redacted texts and containers with distinct, short, non-sensitive keys |
| Sanitizer.ServiceDetailsAreBounded | app/services/audit_service.py:137-236 | details nest at most six levels with at most 51 entries a level, texts of at most 512 characters and no key that the service counts as sensitive anywhere |
| Sanitizer.ServiceDetailsAreStable | app/services/audit_service.py:225-236 | sanitising stored details again changes nothing exactly when the original was steady: no mapping five levels down that counts has more than fifty items, unless none of its first fifty keys is sensitive, collides after clipping, or clips to the mark's key |
| Sanitizer.MarksAreInPlaceExactlyWhenSteady | app/services/audit_service.py:163-222 | the same for every value at every depth: which inputs the sanitiser gives a truncation mark before the 51st place |
| Sanitizer.MarkIsInPlaceExactlyWhenKeptApart | app/services/audit_service.py:187-205 | at the depth limit the mark is the 51st entry exactly when the first fifty items were all kept under different keys |
| Sanitizer.OutputIsFixedExactlyWhenMarksAreInPlace | app/services/audit_service.py:187-205 | the same at every depth, for every value the sanitiser may return |
| Sanitizer.SecondPassCanDiffer | app/services/audit_service.py:187-205 | the sanitiser is not idempotent: five mappings deep, a mapping of more than fifty items whose first key is sensitive changes in a second pass |
| Sanitizer.CaseDoesNotHideAKey | app/services/audit_service.py:129-141 | whether a key is sensitive does not depend on the case of its letters |
| Sanitizer.WordsAreJoined | app/services/audit_service.py:129-134 | whatever stands between two words of a key counts as one underscore |
| Sanitizer.SensitiveKeys | app/services/audit_service.py:68-93 | nineteen keys are sensitive as a whole, once normalised |
| Sanitizer.SensitiveWords | app/services/audit_service.py:137-141 | a key that contains one of the fifteen sensitive words, once normalised, is sensitive |
| Sanitizer.ServiceKeepsCleanDetails | app/services/audit_service.py:163-236 | details with nothing to remove, redact or cut are stored as they are given |
| Sanitizer.CleanValuesAreKept | app/services/audit_service.py:163-222 | the sanitiser changes nothing it need not: a clean value is returned unchanged at every depth |
| Sanitizer.MappingsKeepTheirValues | app/services/audit_service.py:181-205 | a mapping of up to fifty items under short keys keeps exactly the keys that are not sensitive, each with its last value, sanitised |
| Sanitizer.ListsKeepTheirPlaces | app/services/audit_service.py:207-217 | the first fifty elements keep their places, sanitised, and one mark stands for the others |
| Sanitizer.ScalarsAreKept | app/services/audit_service.py:163-222 | numbers, flags and null are kept, identifiers and instants become their text, other texts are redacted, and what nests too deep is cut |
| Sanitizer.ServiceRedacts | app/services/audit_service.py:129-161 | what the sanitiser's results rest on holds of the service's own sensitive keys, given only the redactor's properties: neither the truncation mark's key nor the key of scalar details is sensitive |
| Messages.MessagesAreInjective | app/security/device_auth.py:9-31 | messages joined from fields without line feeds are equal only when all fields are |
| Messages.BuildersAgree | app/security/device_auth.py:9-31 | the server's message with its nested extra data and the firmware's field by field concatenation are one text |
| Messages.NextMessagesAgree | app/api/device_signature_requests.py:259-267 | server and firmware authenticate the same bytes on the queue poll |
| Messages.ChallengeMessagesAgree | app/api/auth.py:405-423 | server and firmware authenticate the same bytes on the challenge, for every assignment the firmware accepts |
| Messages.CompleteMessagesAgree | app/api/auth.py:963-984 | server and firmware authenticate the same bytes on the completion |
| Messages.SignMessagesAgree | app/api/signing.py:403-421 | server and firmware authenticate the same bytes on the signing call |
| Messages.ReportMessagesAgree | app/api/device_signature_requests.py:340-356 | server and firmware authenticate the same bytes on the failure report |
| Messages.NextLines | app/api/device_signature_requests.py:232-267 | the lines of the poll message |
| Messages.ChallengeLines | app/api/auth.py:388-423 | the lines of the challenge message |
| Messages.CompleteLines | app/api/auth.py:940-984 | the lines of the completion message |
| Messages.SignLines | app/api/signing.py:385-421 | the lines of the signing message |
| Messages.ReportLines | app/api/device_signature_requests.py:330-356 | the lines of the failure report |
| Messages.AcceptedAssignmentIsKept | firmware/remotesign_lab/remotesign_lab.ino:253-270 | an assignment the firmware accepts is in the form the server normalises to |
| Messages.UuidRoundTrip | app/api/auth.py:284-310 | parsing and printing an identifier gives the firmware's lower-case text back |
| Messages.OneMessageOneCall | app/security/device_auth.py:9-31 | two calls with one message go to one endpoint at one timestamp with one nonce and the same fields |
| Messages.IsUuidString | firmware/remotesign_lab/remotesign_lab.ino:224-244 | the loop accepts exactly 36 characters with dashes at four places and hexadecimal digits elsewhere |
| Messages.IsHexString | firmware/remotesign_lab/remotesign_lab.ino:210-222 | the loop accepts exactly hexadecimal texts of the given length |
| Messages.ValidateSignatureRequest | firmware/remotesign_lab/remotesign_lab.ino:253-270 | keeps the trimmed and folded fields and accepts exactly two identifiers, a 64-digit hash and APPROVE |
| Messages.NormalizeFailureCode | firmware/remotesign_lab/remotesign_lab.ino:272-302 | accepts exactly 3 to 64 characters of A-Z, 0-9 and underscore after trimming and folding |
| Messages.HexToBytes | firmware/remotesign_lab/remotesign_lab.ino:352-378 | succeeds exactly on hexadecimal text of twice the buffer's length, and fills the buffer with the bytes it spells |
| Messages.BytesPrintBack | firmware/remotesign_lab/remotesign_lab.ino:385-401 | printing the decoded bytes gives the text back in lower case |
| Nonces.NonceTable.ConsumeNonce | app/security/nonce_store.py:57-152 | cleans up, then inserts; a duplicate key undoes the insert alone; malformed nonces change nothing |
| Nonces.SecondConsumptionFails | app/security/nonce_store.py:80-152 | the same nonce again is refused for 720 s after its row was inserted |
| Nonces.FreshNoncesAreAccepted | app/security/nonce_store.py:80-152 | a nonce of 32 hexadecimal digits that the device has no row for is accepted and remembered for 120 s; others keep their rows unless these ended over 600 s before the cleanup; malformed nonces change nothing |
| Nonces.CommittedUsesAreFarApart | app/security/nonce_store.py:28-152 | whatever the cleanup schedule, the waits and the interleaving, a nonce is inserted again only more than 720 s after the clock reading of its last committed use |
| Nonces.NoMessageIsAcceptedTwice | app/security/device_auth.py:48-61 | no message is accepted by two committed transactions when each one's nonce insert succeeds within 479 s of its timestamp check |
| Nonces.DelayBoundIsTight | app/security/device_auth.py:48-61 | with two microseconds more a message can be accepted twice: a concrete run |
| Nonces.WindowBounds | app/security/device_auth.py:48-61 | a timestamp is acceptable exactly from 120 s before it to the end of the 120th second after it |
| RateLimit.AtMostTenAdmittedFailures | app/security/rate_limit.py:23-72 | over all sequential runs, any 300 s window holds at most ten failures of requests the limiter admitted, per source and device |
| RateLimit.SpacedFailuresBlock | app/security/rate_limit.py:23-72 | ten counted rows at most 30 s apart block any attempt within 30 s of the last |
| RateLimit.AttemptsStayBlocked | app/api/device_signature_requests.py:115-134 | blocked attempts count, so attempts stay blocked for as long as they keep coming at that spacing |
| RateLimit.BlockedAttemptsCount | app/services/audit_service.py:351-365 | a blocked attempt is recorded with an outcome the limiter counts |
| RateLimit.StoredEventsCount | app/services/audit_service.py:347-370 | log and limiter agree: a stored event counts exactly when its type is a denial or the outcome given was not SUCCESS |
| RateLimit.WhatCounts | app/security/rate_limit.py:33-56 | a row counts exactly when its outcome is FAILED, FAILURE or DENIED, it is of the source, of the device if one is given, and at most 300 s old |
| RateLimit.LimitedExactlyAfterTen | app/security/rate_limit.py:23-72 | a caller is limited exactly when ten different rows count against it, and never without a source address |
| Publication.PublicationIsCrashConsistent | app/api/signing.py:928-1205 | with a failure or crash at any step of any interleaved calls, every committed signature row names an existing file that validated under the row's profile |
| Publication.HandledErrorsLeaveNoFiles | app/api/signing.py:940-1039 | an error handled before the commit leaves no row and no final file, and leaves the temporary file exactly when closing it is what failed |
| Publication.EndingsKeepTheirPromise | app/api/signing.py:928-1215 | in every run, a call that answers success has its row and the validated file it names, and no temporary file; one whose commit raised keeps its file |
| Publication.FirstFaultDecides | app/api/signing.py:928-1205 | how a call ends by the first thing that goes wrong, and the files and rows it leaves |
| Publication.CloseFailureLeavesAFile | app/api/signing.py:940-965 | counterexample: a run in which the temporary file stays behind |
| Publication.HandlerIsItsSteps | app/api/signing.py:928-1205 | the handler run alone leaves what its steps leave |
| Publication.Storage.Publish | app/api/signing.py:928-1205 | the files, the rows and the ending, for each combination of failures |
| Publication.Storage.SignPdf | app/services/pades_service.py:657-794 | the output holds the validated document, or is removed on any failure |
| PageBox.PageBoxValue | app/services/pades_service.py:371-398 | the loop returns the box of the nearest node that has the key, which decides alone |
| PageBox.VisibleSignatureBox | app/services/pades_service.py:401-459 | the crop box decides, or the media box; every page box at least 4 by 4 gets a field, so the second too-small rejection is unreachable |
| PageBox.PlaceIn | app/services/pades_service.py:416-459 | the field is not empty, at most 250 by 110, inside the page by the margin, bottom right, and smaller only where the margins leave no more room |
| PageBox.FieldIsUnique | app/services/pades_service.py:416-459 | those demands determine the field |
| PageBox.CornersInAnyOrder | app/services/pades_service.py:418-424 | the corners of the page box may come in any order |
| PageBox.FieldOnA4 | app/services/pades_service.py:416-459 | on an A4 page the field is 250 by 110, 18 points from the bottom right corner |
| PageBox.TooSmallPagesAreRefused | app/services/pades_service.py:418-425 | a page is refused exactly when one of its sides is under four points |
| PageBox.BoxesAreInherited | app/services/pades_service.py:371-398 | a node's own entry decides even when it is no list of four numbers, otherwise its parent, and without a parent there is no box |
| PageBox.FieldOnASmallPage | app/services/pades_service.py:416-459 | on a small page the field takes what the margins leave |
| SignatureCheck.ValidExactlyWhenAcceptable | app/services/pades_service.py:550-628 | a file validates exactly when its signature is intact, trusted, whole and by the certificate, with a valid trusted timestamp for B-T and none at all for B-B |
| SignatureCheck.SignedRowsSatisfyTheConstraints | app/models.py:604-639 | signing succeeds exactly for an acceptable file; its row satisfies the CHECK constraints, has the configured profile with no fallback, and is B-T exactly when all timestamp columns are present |
| SignatureCheck.SignThenVerify | app/api/signatures.py:440-614 | a row that signing built re-verifies as valid while its files and certificate are unchanged, whatever profile is configured by then |
| SignatureCheck.TamperingIsFound | app/api/signatures.py:440-614 | altering the document, its file, the recorded hash, the detached signature, the signed file, its signer, its timestamp, the certificate or what the row says of them makes a valid signature invalid |
| SignatureCheck.FaultsThatCannotBeDecided | app/api/signatures.py:114-640 | an unknown algorithm, an unreadable document, a missing key, a file without a readable signature or an unsupported profile leaves a valid signature undecided; no alteration does |
| SignatureCheck.RowsKeepTheirProfile | app/api/signatures.py:440-520 | a row without a profile is verified under the configured one, any other under its own |
| SignatureCheck.SignedRowsCopyTheFile | app/api/signing.py:1045-1069 | the row names the file, the signer and, for B-T, the timestamp found in the file |
| SignatureCheck.VerifySignature | app/api/signatures.py:114-670 | valid exactly when everything a valid answer vouches for holds; an error exactly when nothing was found wrong before a check that could not be made: 400 for an unknown algorithm, 500 for an unreadable document, 503 otherwise |
| SignatureCheck.StoredDigest | app/api/signing.py:750-785 | the chunked loop digests the whole file |
| Firmware.IntervalTestIsRightExactlyWhen | firmware/remotesign_lab/remotesign_lab.ino:314-322 | across the 32-bit wrap of millis() the interval test is right exactly when what remains after whole wraps says the same, in particular for intervals under 2^32 ms |
| Firmware.DeadlineTestIsRight | firmware/remotesign_lab/remotesign_lab.ino:324-329 | the deadline test is right within 2^31 ms of the deadline |
| Firmware.RetryIsDueAfterItsDelay | firmware/remotesign_lab/remotesign_lab.ino:1436-1438 | a retry scheduled across the wrap is due exactly from its delay on |
| Firmware.TemporaryErrorsAreRetried | firmware/remotesign_lab/remotesign_lab.ino:1407-1537 | no network, a negative code, 408, 425, 429 or a server error keeps the device's state, assignment and session and makes the next call due 3000 ms later |
| Firmware.DefinitiveErrorsAreReported | firmware/remotesign_lab/remotesign_lab.ino:1407-1537 | any other code but 200 sends the device to report the failure code of that call |
| Firmware.RepliesMustSayWhatTheyMust | firmware/remotesign_lab/remotesign_lab.ino:1407-1537 | a 200 moves the device on only with a session and a challenge for its document, `authenticated`, or `signed`; otherwise it is a failure |
| Firmware.ReportsEndTheWorkflow | firmware/remotesign_lab/remotesign_lab.ino:1539-1556 | a failure report is repeated every 3000 ms while its error is temporary; any other end leaves the device idle and empty |
| Firmware.RetriesComeAfterThreeSeconds | firmware/remotesign_lab/remotesign_lab.ino:324-329 | across any wrap of the clock a retry is made exactly from three seconds on, not before |
| Firmware.WaitsEndInAMinute | firmware/remotesign_lab/remotesign_lab.ino:1399-1482 | a card or a finger is waited for 60 s and then reported as a timeout; one read in time starts the next call |
| Firmware.PollsStartWorkflows | firmware/remotesign_lab/remotesign_lab.ino:1376-1397 | the queue is polled every 3000 ms, and only a 200 with a valid assignment starts a workflow |
| Firmware.SuccessEndsTheWorkflow | firmware/remotesign_lab/remotesign_lab.ino:1558-1577 | after success the device is idle and empty |
| Firmware.NothingHappensBeforeItIsDue | firmware/remotesign_lab/remotesign_lab.ino:1374-1556 | a pass before a retry, poll or reading is due changes nothing |
| Firmware.Controller.ProcessWorkflow | firmware/remotesign_lab/remotesign_lab.ino:1374-1578 | one pass of the loop updates every variable as the workflow says; in particular a temporary error keeps state, assignment and session with the next call due 3000 ms later, and a definitive one enters the failure report with the code of its state |
| Firmware.Controller.ClearWorkflow | firmware/remotesign_lab/remotesign_lab.ino:1329-1341 | clears every workflow variable and returns to idle |
| Composition.BeliefsAreAlwaysTrue | firmware/remotesign_lab/remotesign_lab.ino:1374-1578 | over any loss, delay and duplication: waiting for a finger implies a committed session bound to the device and assignment, signing implies that session is verified, success implies a committed SIGNED request for device, document, hash and session |
| Composition.KnowledgeSurvives | app/services/signature_request_service.py:491-568 | what a device learned stays true after any further transactions, late retries and failure reports included |
| Composition.SignedIsStable | app/services/signature_request_service.py:519-529 | no transaction undoes a signed request |
| Composition.ReceivedAuthentication | firmware/remotesign_lab/remotesign_lab.ino:1483-1512 | an accepted completion reply means the device's own session is verified |
| Composition.ReceivedSignature | firmware/remotesign_lab/remotesign_lab.ino:1514-1537 | an accepted signing reply means a SIGNED request for the device's own session and assignment |
| Composition.GrantsAreByCardAndFinger | app/api/auth.py:1200-1228 | when a device's completion is accepted, the card and the finger it sent are enrolled together on it for the user whose request becomes AUTHENTICATED |
| Composition.PassReaches | firmware/remotesign_lab/remotesign_lab.ino:1374-1578 | the states that carry a belief are entered only on a successful reply, with assignment and session kept |

## Left out

- SHA-256, HMAC, RSA, PKCS#11, X.509 and PDF validation, the timestamp authority: parameters or uninterpreted functions; collision-freedom of SHA-256, and that it never yields the genesis text, are assumed only where a lemma requires them.
- UTF-8 encoding of canonical texts: taken as part of the hash function; case folding and blanks are ASCII.
- Regular-expression redaction of texts: an abstract function, assumed idempotent, at most 512 characters long, and the identity on the texts the sanitiser itself produces.
- AuditLog.Log.WriteAuditEvent: the draft comes with the caller's category, actor, texts and request data or their defaults (`_taxonomy`, `_category_for`), truncated; normalising category, actor type, outcome and failure code, and refusing unsupported ones, is modelled.
- Timestamps as text: an injective function of the instant; the calendar is not modelled.
- READ COMMITTED snapshots: a statement is evaluated when its locks are granted, so it may also find a row its snapshot would have missed. This only adds executions; in both executions of `late_stamps.dfy` the statement starts after the row it finds is committed.
- The order in which an in-flight request is chosen for locking, and the order of the expiry loop: any order is allowed, the results do not depend on it.
- Attach by session when several requests would match: any of them may be taken; the invariant leaves at most one.
- Deletion of rows, changes of document owners, device enrolment, user administration: documents and owners are fixed, no row is removed except nonces.
- Missing tables and the database test doubles: only the migrated schema and real sessions are modelled.
- Web sessions, cookies, CSRF, headers, JSON responses other than status codes and claimed rows, listings, downloads and pages.
- uuid.UUID spellings other than hexadecimal digits with dashes (braces, urn prefix), and int() spellings other than plain digits: rejected by the model, accepted by Python; the firmware sends neither.
- Floating-point rounding in the page box: exact rationals; a cyclic page tree is not representable.
- Directory durability of renamed files after a power loss: a crash loses no completed file operation; failing unlinks are not modelled.
- Lost updates of last_seen columns and of device rows: not modelled.
- Wi-Fi, time synchronisation and the sensors' drivers: inputs of a pass of the loop; one reading of millis() stands for the two that entering a state takes.
- Handlers.Server.SignDocument: what reading the stored file gives and how the cryptographic services end are parameters; that a readable file's digest is computed correctly is `SignatureCheck.StoredDigest`, and what publication does with its files is the module Publication.
- Handlers.Server.CompleteAuthentication: HMAC, rate limit and nonce freshness are parameters, as in the other endpoints; their own rules are in the modules Messages, RateLimit and Nonces.
- Handlers.Server.FailTerminally: a database error in this second transaction, which the service logs and swallows, is not modelled; nothing is changed then.
- Clock readings of the class Server are parameters; one taken after a row lock is required not to precede the instants in the rows, as a server clock that does not run backwards gives. The module Transactions proves it of its own clock.
- Fresh identifiers: a new session, request, signature or event identifier is required to be unused, as random UUIDs are.
- HTTP header values reach the server as sent; each accepted reply answers its own call.
- Publication.Storage.SignPdf: whether signing and validation succeed, and under which profile, is a parameter of the call.
- SignatureCheck.SignThenVerify: the validator is taken to find the same facts in the unchanged file at both times; certificate expiry or revocation between the two is not modelled.
- Publication.Storage.Publish: a failing constructor of the PAdES service, outside the handler's error handling, is not modelled.
- RequestService.RequestTable.SelectFirst: the database's ordering is a choice of the least row, not a sort.
