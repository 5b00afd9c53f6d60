/** The decisions around a signed document: when a produced PAdES file is accepted, what its
    row then holds, and when re-verification accepts it. */
module SignatureCheck {
  import opened Records
  import opened Texts

  const B_B := "PAdES-B-B"
  const B_T := "PAdES-B-T"
  const SUPPORTED := {B_B, B_T}
  const ALGORITHM := "RSASSA-PKCS1-v1_5-SHA256"

  // ---------------------------------------------------------------- stored bytes

  type Bytes = seq<nat>

  const CHUNK: nat := 64 * 1024

  /** The digest of a file, fed chunk by chunk. */
  method StoredDigest(content: Bytes, sha: Bytes -> string) returns (digest: string)
    ensures digest == sha(content)
  {
    var fed: Bytes := [];
    var position := 0;
    while true
      invariant position <= |content| && fed == content[..position]
      decreases |content| - position
    {
      var end := if position + CHUNK <= |content| then position + CHUNK else |content|;
      var chunk := content[position..end];
      if chunk == [] {
        break;
      }
      fed := fed + chunk;
      position := end;
    }
    assert content[..position] == content;
    return sha(fed);
  }

  // ---------------------------------------------------------------- what a file says

  /** What validating an embedded timestamp says. */
  datatype Stamp = Stamp(intact: bool, valid: bool, trusted: bool, time: Time, subject: string, fingerprint: string)

  /** What the PDF library reports about the last embedded signature of a file. */
  datatype Facts = Facts(
    signatures: nat, pades: bool, valid: bool, trusted: bool, intact: bool, wholeFile: bool,
    fingerprint: string, subject: string, signingTime: Option<Time>, stamp: Option<Stamp>)

  datatype Verification = Verification(
    valid: bool, intact: bool, trusted: bool, profile: string, fingerprint: string, subject: string,
    signingTime: Option<Time>, timestampValid: Option<bool>, timestampTrusted: Option<bool>,
    timestampTime: Option<Time>, tsaSubject: Option<string>, tsaFingerprint: Option<string>)

  datatype Result<T> = Ok(value: T) | PadesError

  /** The service's verification with the configured certificate. */
  function VerifyWithMaterial(f: Facts, certificate: string, expected: string): Result<Verification> {
    if f.signatures == 0 || !f.pades then PadesError
    else
      var stampValid := if f.stamp.Some? then Some(f.stamp.value.intact && f.stamp.value.valid) else None;
      var stampTrusted := if f.stamp.Some? then Some(f.stamp.value.trusted) else None;
      var actual := if f.stamp.Some? then B_T else B_B;
      var whole := f.intact && f.wholeFile;
      var requirement :=
        (expected == B_B && f.stamp.None?)
        || (expected == B_T && stampValid == Some(true) && stampTrusted == Some(true));
      Ok(Verification(
        f.valid && f.trusted && whole && f.fingerprint == certificate && actual == expected && requirement,
        whole, f.trusted, actual, f.fingerprint, f.subject, f.signingTime, stampValid, stampTrusted,
        if f.stamp.Some? then Some(f.stamp.value.time) else None,
        if f.stamp.Some? then Some(f.stamp.value.subject) else None,
        if f.stamp.Some? then Some(f.stamp.value.fingerprint) else None))
  }

  /** What acceptance under a profile demands of the file: for B-T a valid trusted timestamp,
      for B-B none at all. */
  predicate Acceptable(f: Facts, certificate: string, expected: string) {
    && f.signatures > 0 && f.pades && f.valid && f.trusted && f.intact && f.wholeFile && f.fingerprint == certificate
    && match f.stamp
       case None => expected == B_B
       case Some(s) => expected == B_T && s.intact && s.valid && s.trusted
  }

  lemma ValidExactlyWhenAcceptable(f: Facts, certificate: string, expected: string)
    ensures var v := VerifyWithMaterial(f, certificate, expected);
      (v.Ok? && v.value.valid) <==> Acceptable(f, certificate, expected)
  {
  }

  /** verify_pdf: an unsupported expected profile is an error. */
  function VerifyPdf(f: Facts, certificate: string, expected: string): Result<Verification> {
    if expected !in SUPPORTED then PadesError else VerifyWithMaterial(f, certificate, expected)
  }

  // ---------------------------------------------------------------- what signing stores

  /** What signing returns for the row. */
  datatype SignedPdf = SignedPdf(
    profile: string, fingerprint: string, subject: string, signingTime: Time,
    timestampTime: Option<Time>, tsaSubject: Option<string>, tsaFingerprint: Option<string>)

  /** The contract of sign_pdf over the file it wrote; `now` replaces a missing signing time. */
  function SignPdf(f: Facts, certificate: string, configured: string, now: Time): Result<SignedPdf> {
    if configured !in SUPPORTED then PadesError
    else
      var v := VerifyWithMaterial(f, certificate, configured);
      if v.PadesError? || !v.value.valid || !v.value.intact || !v.value.trusted then PadesError
      else
        Ok(SignedPdf(v.value.profile, v.value.fingerprint, v.value.subject,
                  if v.value.signingTime.Some? then v.value.signingTime.value else now,
                  v.value.timestampTime, v.value.tsaSubject, v.value.tsaFingerprint))
  }

  /** The signature row's columns that describe the signed document. */
  datatype Row = Row(
    documentHash: string, algorithm: string, path: Option<string>, profile: Option<string>,
    fingerprint: Option<string>, subject: Option<string>, signingTime: Option<Time>,
    timestampTime: Option<Time>, tsaSubject: Option<string>, tsaFingerprint: Option<string>)

  function RowOf(hash: string, path: string, s: SignedPdf): Row {
    Row(hash, ALGORITHM, Some(path), Some(s.profile), Some(s.fingerprint), Some(s.subject), Some(s.signingTime),
        s.timestampTime, s.tsaSubject, s.tsaFingerprint)
  }

  /** The table's CHECK constraints. */
  predicate ConstraintsHold(r: Row) {
    && (r.fingerprint.Some? ==> |r.fingerprint.value| == 64)
    && ((r.path.None? && r.profile.None? && r.fingerprint.None? && r.subject.None? && r.signingTime.None?)
        || (r.path.Some? && r.profile.Some? && r.fingerprint.Some? && r.subject.Some? && r.signingTime.Some?))
    && (r.tsaFingerprint.Some? ==> |r.tsaFingerprint.value| == 64)
    && ((r.timestampTime.None? && r.tsaSubject.None? && r.tsaFingerprint.None?)
        || (r.timestampTime.Some? && r.tsaSubject.Some? && r.tsaFingerprint.Some? && r.profile == Some(B_T)))
  }

  /** Fingerprints are SHA-256 in hexadecimal. */
  predicate FingerprintsAreDigests(f: Facts) {
    |f.fingerprint| == 64 && (f.stamp.Some? ==> |f.stamp.value.fingerprint| == 64)
  }

  /** Signing succeeds exactly for a file acceptable under the configured profile, and the
      row it then builds satisfies every constraint, has the configured profile with no
      fallback, and is B-T exactly when all timestamp columns are present. */
  lemma SignedRowsSatisfyTheConstraints(
    f: Facts, certificate: string, configured: string, now: Time, hash: string, path: string)
    requires FingerprintsAreDigests(f)
    ensures var s := SignPdf(f, certificate, configured, now);
      && (s.Ok? <==> Acceptable(f, certificate, configured))
      && (s.Ok? ==>
            var r := RowOf(hash, path, s.value);
            && ConstraintsHold(r) && r.profile == Some(configured)
            && (configured == B_T <==> r.timestampTime.Some? && r.tsaSubject.Some? && r.tsaFingerprint.Some?)
            && (configured == B_B <==> r.timestampTime.None? && r.tsaSubject.None? && r.tsaFingerprint.None?))
  {
    ValidExactlyWhenAcceptable(f, certificate, configured);
  }

  // ---------------------------------------------------------------- GET /signatures/{id}/verify

  /** What the endpoint finds: the row, the document's hash in the table, its file's digest,
      whether the detached signature decodes and verifies, and the signed file. */
  datatype Evidence = Evidence(
    row: Row, documentHash: string, digest: Option<string>, decodes: bool, keyAvailable: bool, detachedValid: bool,
    file: Option<Facts>, certificate: string)

  datatype Answer = Valid | Invalid(reason: string) | Unavailable(code: nat)

  function TimestampMatches(r: Row, v: Verification): bool {
    r.profile == Some(B_T) ==>
      && r.timestampTime == v.timestampTime && r.tsaSubject == v.tsaSubject
      && r.tsaFingerprint.Some? && r.tsaFingerprint == v.tsaFingerprint
  }

  /** The endpoint's checks, in its order. A row without a profile is verified under
      `configured`, the profile of the service. */
  method VerifySignature(e: Evidence, configured: string) returns (a: Answer)
    ensures a == Valid <==> Genuine(e, configured)
    ensures a.Unavailable? <==> Undecided(e, configured)
    ensures a == Unavailable(400) <==> e.row.algorithm != "RSASSA-PKCS1-v1_5-SHA256"
    ensures a == Unavailable(500) <==> e.row.algorithm == "RSASSA-PKCS1-v1_5-SHA256" && e.digest.None?
    ensures a.Unavailable? ==> a.code in {400, 500, 503}
  {
    if e.row.algorithm != ALGORITHM {
      return Unavailable(400);
    }
    if e.digest.None? {
      return Unavailable(500);
    }
    if e.digest.value != e.documentHash {
      return Invalid("Stored document has been modified");
    }
    if e.digest.value != e.row.documentHash {
      return Invalid("Signed document hash mismatch");
    }
    if !e.decodes {
      return Invalid("Invalid stored signature encoding");
    }
    if !e.keyAvailable {
      return Unavailable(503);
    }
    if !e.detachedValid {
      return Invalid("Cryptographic signature verification failed");
    }
    if e.row.path.None? || e.row.path.value == "" {
      return Valid;
    }
    if e.file.None? {
      return Invalid("Signed PAdES document file not found");
    }
    var verification := VerifyPdf(e.file.value, e.certificate, ExpectedProfile(e.row, configured));
    if verification.PadesError? {
      return Unavailable(503);
    }
    var v := verification.value;
    if !(v.valid && v.intact && v.trusted && e.row.fingerprint == Some(v.fingerprint) && TimestampMatches(e.row, v)) {
      return Invalid("PAdES signature validation failed");
    }
    return Valid;
  }

  function ExpectedProfile(r: Row, configured: string): string {
    if r.profile.Some? && r.profile.value != "" then r.profile.value else configured
  }

  predicate Readable(e: Evidence, configured: string)
    requires e.file.Some?
  {
    ExpectedProfile(e.row, configured) in SUPPORTED && e.file.value.signatures > 0 && e.file.value.pades
  }

  /** Nothing was found wrong before the first check that could not be made. */
  predicate Undecided(e: Evidence, configured: string) {
    || e.row.algorithm != ALGORITHM
    || e.digest.None?
    || (e.digest.value == e.documentHash == e.row.documentHash && e.decodes
        && (!e.keyAvailable
            || (e.detachedValid && e.row.path.Some? && e.row.path.value != ""
                && e.file.Some? && !Readable(e, configured))))
  }

  /** Everything a valid answer vouches for. */
  predicate Genuine(e: Evidence, configured: string) {
    && e.row.algorithm == ALGORITHM
    && e.digest == Some(e.documentHash) && e.row.documentHash == e.documentHash
    && e.decodes && e.keyAvailable && e.detachedValid
    && (e.row.path.Some? && e.row.path.value != "" ==>
          && e.file.Some?
          && var f, profile := e.file.value, ExpectedProfile(e.row, configured);
          && Acceptable(f, e.certificate, profile) && e.row.fingerprint == Some(f.fingerprint)
          && (e.row.profile == Some(B_T) ==>
                f.stamp.Some? && e.row.timestampTime == Some(f.stamp.value.time)
                && e.row.tsaSubject == Some(f.stamp.value.subject)
                && e.row.tsaFingerprint == Some(f.stamp.value.fingerprint)))
  }

  /** Sign, then verify: whatever the configured profile is by then, a row that signing built
      is genuine as long as its files and the certificate are unchanged. */
  lemma SignThenVerify(
    f: Facts, certificate: string, configured: string, later: string, now: Time, hash: string, path: string)
    requires SignPdf(f, certificate, configured, now).Ok?
    ensures Genuine(
      Evidence(RowOf(hash, path, SignPdf(f, certificate, configured, now).value), hash, Some(hash), true, true, true,
               Some(f), certificate), later)
  {
    ValidExactlyWhenAcceptable(f, certificate, configured);
  }

  /** Whatever is altered afterwards, the signature is no longer found valid: the document or its
      file, the hash the row recorded, the detached signature, the signed file's content, signer or
      timestamp, the certificate, or what the row says of them. */
  lemma TamperingIsFound(e: Evidence, configured: string, f: Facts, text: string, when: Time)
    requires Genuine(e, configured) && e.row.path.Some? && e.row.path.value != "" && e.file == Some(f)
    requires e.row.profile == Some("PAdES-B-B") || e.row.profile == Some("PAdES-B-T")
    ensures text != e.documentHash ==>
      && !Genuine(e.(digest := Some(text)), configured) && !Genuine(e.(documentHash := text), configured)
      && !Genuine(e.(row := e.row.(documentHash := text)), configured)
    ensures !Genuine(e.(digest := None), configured) && !Genuine(e.(file := None), configured)
    ensures !Genuine(e.(decodes := false), configured) && !Genuine(e.(detachedValid := false), configured)
    ensures !Genuine(e.(keyAvailable := false), configured)
    ensures !Genuine(e.(file := Some(f.(intact := false))), configured)
    ensures !Genuine(e.(file := Some(f.(wholeFile := false))), configured)
    ensures !Genuine(e.(file := Some(f.(valid := false))), configured)
    ensures !Genuine(e.(file := Some(f.(trusted := false))), configured)
    ensures !Genuine(e.(file := Some(f.(signatures := 0))), configured)
    ensures text != f.fingerprint ==>
      && !Genuine(e.(file := Some(f.(fingerprint := text))), configured)
      && !Genuine(e.(certificate := text), configured)
      && !Genuine(e.(row := e.row.(fingerprint := Some(text))), configured)
    ensures e.row.profile == Some("PAdES-B-T") ==>
      && f.stamp.Some? && !Genuine(e.(file := Some(f.(stamp := None))), configured)
      && !Genuine(e.(file := Some(f.(stamp := Some(f.stamp.value.(valid := false))))), configured)
      && !Genuine(e.(file := Some(f.(stamp := Some(f.stamp.value.(intact := false))))), configured)
      && !Genuine(e.(file := Some(f.(stamp := Some(f.stamp.value.(trusted := false))))), configured)
      && (when != f.stamp.value.time ==> !Genuine(e.(row := e.row.(timestampTime := Some(when))), configured))
      && (text != f.stamp.value.subject ==> !Genuine(e.(row := e.row.(tsaSubject := Some(text))), configured))
      && (text != f.stamp.value.fingerprint ==> !Genuine(e.(row := e.row.(tsaFingerprint := Some(text))), configured))
    ensures e.row.profile == Some("PAdES-B-B") ==> f.stamp.None?
  {
  }

  /** A signed row names the file, the signer and, for B-T, the timestamp found in the file. */
  lemma SignedRowsCopyTheFile(f: Facts, certificate: string, configured: string, now: Time, hash: string, path: string)
    requires SignPdf(f, certificate, configured, now).Ok?
    ensures var r := RowOf(hash, path, SignPdf(f, certificate, configured, now).value);
      && r.documentHash == hash && r.path == Some(path) && r.algorithm == "RSASSA-PKCS1-v1_5-SHA256"
      && r.profile == Some(configured) && configured in {"PAdES-B-B", "PAdES-B-T"}
      && r.fingerprint == Some(f.fingerprint) == Some(certificate) && r.subject == Some(f.subject)
      && r.signingTime == Some(if f.signingTime.Some? then f.signingTime.value else now)
      && (configured == "PAdES-B-T" ==>
            && f.stamp.Some? && r.timestampTime == Some(f.stamp.value.time)
            && r.tsaSubject == Some(f.stamp.value.subject) && r.tsaFingerprint == Some(f.stamp.value.fingerprint))
      && (configured == "PAdES-B-B" ==> r.timestampTime.None? && r.tsaSubject.None? && r.tsaFingerprint.None?)
  {
  }

  /** What cannot be decided about a valid signature: an unknown algorithm, an unreadable document, a
      missing key, a signed file without a readable signature, an unsupported profile. What was
      altered, by contrast, is decided. */
  lemma FaultsThatCannotBeDecided(e: Evidence, configured: string, f: Facts, text: string)
    requires Genuine(e, configured) && e.row.path.Some? && e.row.path.value != "" && e.file == Some(f)
    ensures text != e.row.algorithm ==> Undecided(e.(row := e.row.(algorithm := text)), configured)
    ensures Undecided(e.(digest := None), configured) && Undecided(e.(keyAvailable := false), configured)
    ensures Undecided(e.(file := Some(f.(signatures := 0))), configured)
    ensures Undecided(e.(file := Some(f.(pades := false))), configured)
    ensures Undecided(e.(row := e.row.(profile := Some("PAdES-B-LT"))), configured)
    ensures text != e.documentHash ==>
      && !Undecided(e.(digest := Some(text)), configured) && !Undecided(e.(documentHash := text), configured)
      && !Undecided(e.(row := e.row.(documentHash := text)), configured)
    ensures !Undecided(e.(decodes := false), configured) && !Undecided(e.(detachedValid := false), configured)
    ensures !Undecided(e.(file := None), configured) && !Undecided(e.(file := Some(f.(intact := false))), configured)
    ensures !Undecided(e.(certificate := text), configured) && !Undecided(e, configured)
  {
  }

  /** A row without a profile is verified under the configured one, any other under its own. */
  lemma RowsKeepTheirProfile(r: Row, configured: string)
    ensures r.profile.None? || r.profile == Some("") ==> ExpectedProfile(r, configured) == configured
    ensures r.profile.Some? && r.profile.value != "" ==> Some(ExpectedProfile(r, configured)) == r.profile
  {
  }
}
