/** Integrity reports: validation, signing, verification, and the digest chain that links the
    reports of one session. */
module Reports {
  import opened Bytes
  import opened Wire
  import opened Canonical
  import opened Messages
  import opened Protocol

  function ValidateReport(r: Report): Result<(), ProtocolError> {
    if r.protocolVersion != PROTOCOL_VERSION then Err(InvalidField("protocol_version"))
    else if r.agentSessionId == [] || |r.agentSessionId| > 128 then Err(InvalidField("agent_session_id"))
    else if r.sequence == 0 then Err(InvalidField("sequence"))
    else if |r.challengeNonce| < 16 || |r.challengeNonce| > 256 then Err(InvalidField("challenge_nonce"))
    else if r.buildId == [] || |r.buildId| > 128 then Err(InvalidField("build_id"))
    else if |r.executableSha256| != 32 then Err(InvalidField("executable_sha256"))
    else if r.previousReportDigest != [] && |r.previousReportDigest| != 32 then
      Err(InvalidField("previous_report_digest"))
    else if |r.observations| > 1024 then Err(InvalidField("observations"))
    else Ok(())
  }

  function EncodeReport(r: Report): bytes {
    EncodeToVec(ReportCodec(), r)
  }

  function SigningBytes(d: Domain, encoded: bytes): Result<bytes, ProtocolError> {
    if |encoded| > MAX_MESSAGE_BYTES then Err(TooLarge) else Ok(DomainBytes(d) + encoded)
  }

  function Unsigned(r: Report): Report {
    r.(signature := [])
  }

  function SignReport(c: Crypto, key: bytes, report: Report): Result<Report, ProtocolError> {
    var r := Unsigned(report);
    var _ :- ValidateReport(r);
    var message :- SigningBytes(ReportDomain, EncodeReport(r));
    Ok(r.(signature := c.sign(key, message)))
  }

  function VerifyReport(c: Crypto, key: bytes, r: Report): Result<(), ProtocolError> {
    var _ :- ValidateReport(r);
    if |r.signature| != 64 then Err(InvalidSignature)
    else
      var message :- SigningBytes(ReportDomain, EncodeReport(Unsigned(r)));
      if c.verify(key, message, r.signature) then Ok(()) else Err(InvalidSignature)
  }

  function ReportDigest(c: Crypto, r: Report): digest {
    c.hash(EncodeReport(r))
  }

  /** Signing changes nothing but the signature, and signs no more than 64 KiB. */
  lemma {:induction false} SigningKeepsReport(c: Crypto, key: bytes, report: Report)
    requires SignReport(c, key, report).Ok?
    ensures
      var r := SignReport(c, key, report).value;
      && r == report.(signature := r.signature) && |r.signature| == 64
      && |EncodeReport(Unsigned(r))| <= MAX_MESSAGE_BYTES
  {
    hide EncodeReport, ValidateReport, DomainBytes;
    assert Unsigned(SignReport(c, key, report).value) == Unsigned(report);
  }

  /** A report that was signed verifies under the signer's public key. */
  lemma {:induction false} SignedReportVerifies(c: Crypto, key: bytes, report: Report)
    requires Correct(c) && SignReport(c, key, report).Ok?
    ensures VerifyReport(c, c.publicKey(key), SignReport(c, key, report).value).Ok?
    ensures Unsigned(SignReport(c, key, report).value) == Unsigned(report)
  {
    hide EncodeReport, DomainBytes;
  }

  /** Two reports that verify with one signature differ in nothing, or that signature is shared by
      two different messages: no field can be changed under a signature. */
  lemma {:induction false} SignatureCoversReport(c: Crypto, key: bytes, r: Report, r': Report)
    requires VerifyReport(c, key, r).Ok? && VerifyReport(c, key, r').Ok?
    requires r.signature == r'.signature
    ensures r == r' || SharedSignature(c, key, DomainBytes(ReportDomain) + EncodeReport(Unsigned(r)),
                                       DomainBytes(ReportDomain) + EncodeReport(Unsigned(r')), r.signature)
  {
    hide EncodeReport, DomainBytes, ValidateReport;
    var e, e' := EncodeReport(Unsigned(r)), EncodeReport(Unsigned(r'));
    var d := DomainBytes(ReportDomain);
    assert |e| <= MAX_MESSAGE_BYTES;
    if d + e == d + e' {
      assert e == (d + e)[|d|..] && e' == (d + e')[|d|..];
      SameEncodingSameReport(Unsigned(r), Unsigned(r'));
      assert r == Unsigned(r).(signature := r.signature);
    }
  }

  lemma {:induction false} SameEncodingSameReport(r: Report, r': Report)
    requires EncodeReport(r) == EncodeReport(r') && |EncodeReport(r)| < U64
    ensures r == r'
  {
    hide EncodeToVec;
    ReportFaithful();
    EncodingDeterminesMessage(ReportCodec(), r, r');
  }

  // ---------------------------------------------------------------- the chain

  function NoDigest(): digest {
    seq<byte>(32, i => 0)
  }

  /** The digest the report after `reports` has to carry. */
  function LastDigest(c: Crypto, reports: seq<Report>): digest {
    if reports == [] then NoDigest() else ReportDigest(c, reports[|reports| - 1])
  }

  /** The reports are numbered from 1 and each carries the digest of the one before it. */
  ghost predicate Chained(c: Crypto, reports: seq<Report>) {
    forall i :: 0 <= i < |reports| ==>
      && reports[i].sequence == i + 1
      && reports[i].previousReportDigest == LastDigest(c, reports[..i])
      && |EncodeReport(reports[i])| < U64
  }

  ghost predicate ChainCollision(c: Crypto, a: seq<Report>, b: seq<Report>) {
    exists i :: 0 <= i < |a| && i < |b| && Collision(c.hash, EncodeReport(a[i]), EncodeReport(b[i]))
  }

  lemma {:induction false} ChainLinks(c: Crypto, reports: seq<Report>, i: nat)
    requires Chained(c, reports) && 0 < i < |reports|
    ensures reports[i].previousReportDigest == ReportDigest(c, reports[i - 1])
  {
    hide EncodeReport, ReportDigest;
    assert reports[..i][i - 1] == reports[i - 1];
  }

  /** Equal reports carry the digest of equal reports, unless two encodings collide. */
  lemma {:induction false} LinkPinsPredecessor(c: Crypto, a: seq<Report>, b: seq<Report>, i: nat)
    requires Chained(c, a) && Chained(c, b)
    requires 0 < i < |a| && i < |b| && a[i] == b[i]
    ensures a[i - 1] == b[i - 1] || Collision(c.hash, EncodeReport(a[i - 1]), EncodeReport(b[i - 1]))
  {
    hide EncodeReport;
    ChainLinks(c, a, i);
    ChainLinks(c, b, i);
    if EncodeReport(a[i - 1]) == EncodeReport(b[i - 1]) {
      SameEncodingSameReport(a[i - 1], b[i - 1]);
    }
  }

  /** A report pins the whole history before it: if two chains have a report in common then it is at
      the same position in both, and all earlier reports agree too, or the chains exhibit a hash
      collision. */
  lemma {:induction false} ReportPinsHistory(c: Crypto, a: seq<Report>, b: seq<Report>, i: nat, j: nat)
    requires Chained(c, a) && Chained(c, b)
    requires i < |a| && j < |b| && a[i] == b[j]
    ensures i == j
    ensures (forall k :: 0 <= k <= i ==> a[k] == b[k]) || ChainCollision(c, a, b)
    decreases i
  {
    hide EncodeReport, LastDigest, Collision;
    assert a[i].sequence == i + 1 && b[j].sequence == j + 1;
    if i > 0 {
      LinkPinsPredecessor(c, a, b, i);
      if a[i - 1] == b[i - 1] {
        ReportPinsHistory(c, a, b, i - 1, i - 1);
      }
    }
  }

  /** The chain grows by a report that carries the next number and the last digest. */
  lemma {:induction false} ChainExtends(c: Crypto, reports: seq<Report>, r: Report)
    requires Chained(c, reports)
    requires r.sequence == |reports| + 1 && r.previousReportDigest == LastDigest(c, reports)
    requires |EncodeReport(r)| < U64
    ensures Chained(c, reports + [r])
  {
    hide EncodeReport;
    var all := reports + [r];
    forall i | 0 <= i < |all|
      ensures all[i].sequence == i + 1 && all[i].previousReportDigest == LastDigest(c, all[..i]) &&
              |EncodeReport(all[i])| < U64
    {
      assert all[..i] == reports[..i];
    }
  }
}
