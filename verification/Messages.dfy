/** The messages of the Agent protocol with their schemas. For each message type `X` there is a
    schema, a conversion `XTo` to field values and its inverse `XFrom`, and an `XCodec` of the two. */
module Messages {
  import opened Bytes
  import opened Wire
  import opened Canonical

  /** Every signed object: claim octets, a signature and the name of the signing key. */
  datatype Envelope = Envelope(claims: bytes, signature: bytes, keyId: text)

  const ENVELOPE := Schema([Blob, Blob, Text])

  function EnvelopeTo(x: Envelope): (m: Message)
    ensures WellTyped(ENVELOPE, m)
  {
    Message([Octets(x.claims), Octets(x.signature), Octets(x.keyId)])
  }

  function EnvelopeFrom(m: Message): (x: Envelope)
    requires WellTyped(ENVELOPE, m)
    ensures EnvelopeTo(x) == m
  {
    var a := m.values;
    assert AllKinds(ENVELOPE.kinds, a);
    Envelope(a[0].b, a[1].b, a[2].b)
  }

  function EnvelopeCodec(): Codec<Envelope> {
    Codec(ENVELOPE, (x: Envelope) => EnvelopeTo(x), m requires WellTyped(ENVELOPE, m) => EnvelopeFrom(m))
  }

  lemma {:induction false} EnvelopeFaithful()
    ensures Faithful(EnvelopeCodec())
  {
    forall x: Envelope
      ensures EnvelopeFrom(EnvelopeTo(x)) == x
    {
    }
  }

  /** The encoded signed policy, launch grant and build manifest of one launch. */
  datatype LaunchBundle = LaunchBundle(signedPolicy: bytes, signedLaunchGrant: bytes, signedBuildManifest: bytes)

  const LAUNCH_BUNDLE := Schema([Blob, Blob, Blob])

  function LaunchBundleTo(x: LaunchBundle): (m: Message)
    ensures WellTyped(LAUNCH_BUNDLE, m)
  {
    Message([Octets(x.signedPolicy), Octets(x.signedLaunchGrant), Octets(x.signedBuildManifest)])
  }

  function LaunchBundleFrom(m: Message): (x: LaunchBundle)
    requires WellTyped(LAUNCH_BUNDLE, m)
    ensures LaunchBundleTo(x) == m
  {
    var a := m.values;
    assert AllKinds(LAUNCH_BUNDLE.kinds, a);
    LaunchBundle(a[0].b, a[1].b, a[2].b)
  }

  function LaunchBundleCodec(): Codec<LaunchBundle> {
    Codec(LAUNCH_BUNDLE,
          (x: LaunchBundle) => LaunchBundleTo(x),
          m requires WellTyped(LAUNCH_BUNDLE, m) => LaunchBundleFrom(m))
  }

  lemma {:induction false} LaunchBundleFaithful()
    ensures Faithful(LaunchBundleCodec())
  {
    forall x: LaunchBundle
      ensures LaunchBundleFrom(LaunchBundleTo(x)) == x
    {
    }
  }

  datatype PolicyClaims = PolicyClaims(
    protocolVersion: uint32,
    policyId: text,
    gameId: text,
    environmentId: text,
    requirementMode: int32,
    heartbeatSeconds: uint32,
    reportSeconds: uint32,
    disconnectGraceSeconds: uint32,
    minimumAgentVersion: text,
    expiresAtUnix: int64,
    tenantId: text)

  const POLICY_CLAIMS_A := [Uint32, Text, Text, Text, Int32, Uint32]
  const POLICY_CLAIMS_B := [Uint32, Uint32, Text, Int64, Text]
  const POLICY_CLAIMS := Schema(POLICY_CLAIMS_A + POLICY_CLAIMS_B)

  function PolicyClaimsTo(x: PolicyClaims): (m: Message)
    ensures WellTyped(POLICY_CLAIMS, m)
  {
    var a := [
      Number(x.protocolVersion), Octets(x.policyId), Octets(x.gameId), Octets(x.environmentId),
      Number(x.requirementMode), Number(x.heartbeatSeconds)];
    var b := [
      Number(x.reportSeconds), Number(x.disconnectGraceSeconds), Octets(x.minimumAgentVersion),
      Number(x.expiresAtUnix), Octets(x.tenantId)];
    assert AllKinds(POLICY_CLAIMS_A, a) && AllKinds(POLICY_CLAIMS_B, b);
    JoinKinds(POLICY_CLAIMS_A, a, POLICY_CLAIMS_B, b);
    Message(a + b)
  }

  function PolicyClaimsFrom(m: Message): (x: PolicyClaims)
    requires WellTyped(POLICY_CLAIMS, m)
  {
    SplitKinds(POLICY_CLAIMS_A, POLICY_CLAIMS_B, m);
    var a, b := m.values[..6], m.values[6..];
    PolicyClaims(a[0].n, a[1].b, a[2].b, a[3].b, a[4].n, a[5].n, b[0].n, b[1].n, b[2].b, b[3].n, b[4].b)
  }

  lemma {:induction false} PolicyClaimsToFrom(m: Message)
    requires WellTyped(POLICY_CLAIMS, m)
    ensures PolicyClaimsTo(PolicyClaimsFrom(m)) == m
  {
    SplitKinds(POLICY_CLAIMS_A, POLICY_CLAIMS_B, m);
    var a, b := m.values[..6], m.values[6..];
    assert a == [Number(a[0].n), Octets(a[1].b), Octets(a[2].b), Octets(a[3].b), Number(a[4].n), Number(a[5].n)];
    assert b == [Number(b[0].n), Number(b[1].n), Octets(b[2].b), Number(b[3].n), Octets(b[4].b)];
    assert m.values == a + b;
  }

  function PolicyClaimsCodec(): Codec<PolicyClaims> {
    Codec(POLICY_CLAIMS,
          (x: PolicyClaims) => PolicyClaimsTo(x),
          m requires WellTyped(POLICY_CLAIMS, m) => PolicyClaimsFrom(m))
  }

  lemma {:induction false} PolicyClaimsFaithful()
    ensures Faithful(PolicyClaimsCodec())
  {
    forall m | WellTyped(POLICY_CLAIMS, m)
      ensures PolicyClaimsTo(PolicyClaimsFrom(m)) == m
    {
      PolicyClaimsToFrom(m);
    }
    forall x: PolicyClaims
      ensures PolicyClaimsFrom(PolicyClaimsTo(x)) == x
    {
    }
  }

  datatype LaunchGrantClaims = LaunchGrantClaims(
    protocolVersion: uint32,
    grantId: text,
    tenantId: text,
    gameId: text,
    environmentId: text,
    playerSubject: text,
    matchId: text,
    buildId: text,
    agentPublicKey: bytes,
    issuedAtUnix: int64,
    expiresAtUnix: int64,
    policyDigest: bytes,
    authoritativeServerId: text,
    buildManifestDigest: bytes)

  const LAUNCH_GRANT_CLAIMS_A := [Uint32, Text, Text, Text, Text, Text]
  const LAUNCH_GRANT_CLAIMS_B := [Text, Text, Blob, Int64, Int64]
  const LAUNCH_GRANT_CLAIMS_C := [Blob, Text, Blob]
  const LAUNCH_GRANT_CLAIMS := Schema(LAUNCH_GRANT_CLAIMS_A + LAUNCH_GRANT_CLAIMS_B + LAUNCH_GRANT_CLAIMS_C)

  function LaunchGrantClaimsTo(x: LaunchGrantClaims): (m: Message)
    ensures WellTyped(LAUNCH_GRANT_CLAIMS, m)
  {
    var a := [
      Number(x.protocolVersion), Octets(x.grantId), Octets(x.tenantId), Octets(x.gameId),
      Octets(x.environmentId), Octets(x.playerSubject)];
    var b := [
      Octets(x.matchId), Octets(x.buildId), Octets(x.agentPublicKey), Number(x.issuedAtUnix),
      Number(x.expiresAtUnix)];
    var c := [
      Octets(x.policyDigest), Octets(x.authoritativeServerId), Octets(x.buildManifestDigest)];
    assert AllKinds(LAUNCH_GRANT_CLAIMS_A, a) && AllKinds(LAUNCH_GRANT_CLAIMS_B, b) && AllKinds(LAUNCH_GRANT_CLAIMS_C, c);
    JoinKinds(LAUNCH_GRANT_CLAIMS_A, a, LAUNCH_GRANT_CLAIMS_B, b);
    JoinKinds(LAUNCH_GRANT_CLAIMS_A + LAUNCH_GRANT_CLAIMS_B, a + b, LAUNCH_GRANT_CLAIMS_C, c);
    Message(a + b + c)
  }

  function LaunchGrantClaimsFrom(m: Message): (x: LaunchGrantClaims)
    requires WellTyped(LAUNCH_GRANT_CLAIMS, m)
  {
    SplitKinds(LAUNCH_GRANT_CLAIMS_A + LAUNCH_GRANT_CLAIMS_B, LAUNCH_GRANT_CLAIMS_C, m);
    SplitKinds(LAUNCH_GRANT_CLAIMS_A, LAUNCH_GRANT_CLAIMS_B, Message(m.values[..11]));
    var a, b, c := m.values[..6], m.values[6..11], m.values[11..];
    LaunchGrantClaims(a[0].n, a[1].b, a[2].b, a[3].b, a[4].b, a[5].b, b[0].b, b[1].b, b[2].b, b[3].n, b[4].n,
                      c[0].b, c[1].b, c[2].b)
  }

  lemma {:induction false} LaunchGrantClaimsToFrom(m: Message)
    requires WellTyped(LAUNCH_GRANT_CLAIMS, m)
    ensures LaunchGrantClaimsTo(LaunchGrantClaimsFrom(m)) == m
  {
    SplitKinds(LAUNCH_GRANT_CLAIMS_A + LAUNCH_GRANT_CLAIMS_B, LAUNCH_GRANT_CLAIMS_C, m);
    SplitKinds(LAUNCH_GRANT_CLAIMS_A, LAUNCH_GRANT_CLAIMS_B, Message(m.values[..11]));
    var a, b, c := m.values[..6], m.values[6..11], m.values[11..];
    assert a == [Number(a[0].n), Octets(a[1].b), Octets(a[2].b), Octets(a[3].b), Octets(a[4].b), Octets(a[5].b)];
    assert b == [Octets(b[0].b), Octets(b[1].b), Octets(b[2].b), Number(b[3].n), Number(b[4].n)];
    assert c == [Octets(c[0].b), Octets(c[1].b), Octets(c[2].b)];
    assert m.values == a + b + c;
  }

  function LaunchGrantClaimsCodec(): Codec<LaunchGrantClaims> {
    Codec(LAUNCH_GRANT_CLAIMS,
          (x: LaunchGrantClaims) => LaunchGrantClaimsTo(x),
          m requires WellTyped(LAUNCH_GRANT_CLAIMS, m) => LaunchGrantClaimsFrom(m))
  }

  lemma {:induction false} LaunchGrantClaimsFaithful()
    ensures Faithful(LaunchGrantClaimsCodec())
  {
    forall m | WellTyped(LAUNCH_GRANT_CLAIMS, m)
      ensures LaunchGrantClaimsTo(LaunchGrantClaimsFrom(m)) == m
    {
      LaunchGrantClaimsToFrom(m);
    }
    forall x: LaunchGrantClaims
      ensures LaunchGrantClaimsFrom(LaunchGrantClaimsTo(x)) == x
    {
    }
  }

  datatype ProtectedFile = ProtectedFile(path: text, size: uint64, sha256: bytes)

  const PROTECTED_FILE := Schema([Text, Uint64, Blob])

  function ProtectedFileTo(x: ProtectedFile): (m: Message)
    ensures WellTyped(PROTECTED_FILE, m)
  {
    Message([Octets(x.path), Number(x.size), Octets(x.sha256)])
  }

  function ProtectedFileFrom(m: Message): (x: ProtectedFile)
    requires WellTyped(PROTECTED_FILE, m)
    ensures ProtectedFileTo(x) == m
  {
    var a := m.values;
    assert AllKinds(PROTECTED_FILE.kinds, a);
    ProtectedFile(a[0].b, a[1].n, a[2].b)
  }

  function ProtectedFileList(xs: seq<ProtectedFile>): (ms: seq<Message>)
    ensures HasKind(MessageList(PROTECTED_FILE), Messages(ms))
    ensures |ms| == |xs| && forall i :: 0 <= i < |xs| ==> ms[i] == ProtectedFileTo(xs[i])
  {
    seq(|xs|, i requires 0 <= i < |xs| => ProtectedFileTo(xs[i]))
  }

  function ProtectedFileListFrom(ms: seq<Message>): (xs: seq<ProtectedFile>)
    requires HasKind(MessageList(PROTECTED_FILE), Messages(ms))
    ensures ProtectedFileList(xs) == ms
  {
    seq(|ms|, i requires 0 <= i < |ms| => ProtectedFileFrom(ms[i]))
  }

  datatype ManifestClaims = ManifestClaims(
    protocolVersion: uint32,
    manifestId: text,
    tenantId: text,
    gameId: text,
    environmentId: text,
    buildId: text,
    files: seq<ProtectedFile>,
    notBeforeUnix: int64,
    expiresAtUnix: int64,
    coreSdkVersion: text,
    engineAdapter: text,
    engineAdapterVersion: text,
    coreCAbiVersion: uint32,
    actionProtocolVersion: uint32,
    agentProtocolVersion: uint32,
    agentProbeAbiVersion: uint32)

  const MANIFEST_CLAIMS_A := [Uint32, Text, Text, Text, Text, Text]
  const MANIFEST_CLAIMS_B := [MessageList(PROTECTED_FILE), Int64, Int64, Text, Text]
  const MANIFEST_CLAIMS_C := [Text, Uint32, Uint32, Uint32, Uint32]
  const MANIFEST_CLAIMS := Schema(MANIFEST_CLAIMS_A + MANIFEST_CLAIMS_B + MANIFEST_CLAIMS_C)

  function ManifestClaimsTo(x: ManifestClaims): (m: Message)
    ensures WellTyped(MANIFEST_CLAIMS, m)
  {
    var a := [
      Number(x.protocolVersion), Octets(x.manifestId), Octets(x.tenantId), Octets(x.gameId),
      Octets(x.environmentId), Octets(x.buildId)];
    var b := [
      Messages(ProtectedFileList(x.files)), Number(x.notBeforeUnix), Number(x.expiresAtUnix),
      Octets(x.coreSdkVersion), Octets(x.engineAdapter)];
    var c := [
      Octets(x.engineAdapterVersion), Number(x.coreCAbiVersion), Number(x.actionProtocolVersion),
      Number(x.agentProtocolVersion), Number(x.agentProbeAbiVersion)];
    assert AllKinds(MANIFEST_CLAIMS_A, a) && AllKinds(MANIFEST_CLAIMS_B, b) && AllKinds(MANIFEST_CLAIMS_C, c);
    JoinKinds(MANIFEST_CLAIMS_A, a, MANIFEST_CLAIMS_B, b);
    JoinKinds(MANIFEST_CLAIMS_A + MANIFEST_CLAIMS_B, a + b, MANIFEST_CLAIMS_C, c);
    Message(a + b + c)
  }

  function ManifestClaimsFrom(m: Message): (x: ManifestClaims)
    requires WellTyped(MANIFEST_CLAIMS, m)
  {
    SplitKinds(MANIFEST_CLAIMS_A + MANIFEST_CLAIMS_B, MANIFEST_CLAIMS_C, m);
    SplitKinds(MANIFEST_CLAIMS_A, MANIFEST_CLAIMS_B, Message(m.values[..11]));
    var a, b, c := m.values[..6], m.values[6..11], m.values[11..];
    ManifestClaims(a[0].n, a[1].b, a[2].b, a[3].b, a[4].b, a[5].b, ProtectedFileListFrom(b[0].ms), b[1].n,
                   b[2].n, b[3].b, b[4].b, c[0].b, c[1].n, c[2].n, c[3].n, c[4].n)
  }

  lemma {:induction false} ManifestClaimsToFrom(m: Message)
    requires WellTyped(MANIFEST_CLAIMS, m)
    ensures ManifestClaimsTo(ManifestClaimsFrom(m)) == m
  {
    SplitKinds(MANIFEST_CLAIMS_A + MANIFEST_CLAIMS_B, MANIFEST_CLAIMS_C, m);
    SplitKinds(MANIFEST_CLAIMS_A, MANIFEST_CLAIMS_B, Message(m.values[..11]));
    var a, b, c := m.values[..6], m.values[6..11], m.values[11..];
    assert a == [Number(a[0].n), Octets(a[1].b), Octets(a[2].b), Octets(a[3].b), Octets(a[4].b), Octets(a[5].b)];
    assert b == [Messages(b[0].ms), Number(b[1].n), Number(b[2].n), Octets(b[3].b), Octets(b[4].b)];
    assert c == [Octets(c[0].b), Number(c[1].n), Number(c[2].n), Number(c[3].n), Number(c[4].n)];
    assert m.values == a + b + c;
  }

  function ManifestClaimsCodec(): Codec<ManifestClaims> {
    Codec(MANIFEST_CLAIMS,
          (x: ManifestClaims) => ManifestClaimsTo(x),
          m requires WellTyped(MANIFEST_CLAIMS, m) => ManifestClaimsFrom(m))
  }

  lemma {:induction false} ManifestClaimsFaithful()
    ensures Faithful(ManifestClaimsCodec())
  {
    forall m | WellTyped(MANIFEST_CLAIMS, m)
      ensures ManifestClaimsTo(ManifestClaimsFrom(m)) == m
    {
      ManifestClaimsToFrom(m);
    }
    forall x: ManifestClaims
      ensures ManifestClaimsFrom(ManifestClaimsTo(x)) == x
    {
      assert ProtectedFileListFrom(ProtectedFileList(x.files)) == x.files;
    }
  }

  datatype Challenge = Challenge(agentSessionId: text, nonce: bytes, expiresAtUnix: int64)

  const CHALLENGE := Schema([Text, Blob, Int64])

  function ChallengeTo(x: Challenge): (m: Message)
    ensures WellTyped(CHALLENGE, m)
  {
    Message([Octets(x.agentSessionId), Octets(x.nonce), Number(x.expiresAtUnix)])
  }

  function ChallengeFrom(m: Message): (x: Challenge)
    requires WellTyped(CHALLENGE, m)
    ensures ChallengeTo(x) == m
  {
    var a := m.values;
    assert AllKinds(CHALLENGE.kinds, a);
    Challenge(a[0].b, a[1].b, a[2].n)
  }

  function ChallengeCodec(): Codec<Challenge> {
    Codec(CHALLENGE, (x: Challenge) => ChallengeTo(x), m requires WellTyped(CHALLENGE, m) => ChallengeFrom(m))
  }

  lemma {:induction false} ChallengeFaithful()
    ensures Faithful(ChallengeCodec())
  {
    forall x: Challenge
      ensures ChallengeFrom(ChallengeTo(x)) == x
    {
    }
  }

  datatype Observation = Observation(code: text, value: text)

  const OBSERVATION := Schema([Text, Text])

  function ObservationTo(x: Observation): (m: Message)
    ensures WellTyped(OBSERVATION, m)
  {
    Message([Octets(x.code), Octets(x.value)])
  }

  function ObservationFrom(m: Message): (x: Observation)
    requires WellTyped(OBSERVATION, m)
    ensures ObservationTo(x) == m
  {
    var a := m.values;
    assert AllKinds(OBSERVATION.kinds, a);
    Observation(a[0].b, a[1].b)
  }

  function ObservationList(xs: seq<Observation>): (ms: seq<Message>)
    ensures HasKind(MessageList(OBSERVATION), Messages(ms))
    ensures |ms| == |xs| && forall i :: 0 <= i < |xs| ==> ms[i] == ObservationTo(xs[i])
  {
    seq(|xs|, i requires 0 <= i < |xs| => ObservationTo(xs[i]))
  }

  function ObservationListFrom(ms: seq<Message>): (xs: seq<Observation>)
    requires HasKind(MessageList(OBSERVATION), Messages(ms))
    ensures ObservationList(xs) == ms
  {
    seq(|ms|, i requires 0 <= i < |ms| => ObservationFrom(ms[i]))
  }

  datatype Report = Report(
    protocolVersion: uint32,
    agentSessionId: text,
    sequence: uint64,
    challengeNonce: bytes,
    observedAtUnix: int64,
    buildId: text,
    executableSha256: bytes,
    observations: seq<Observation>,
    previousReportDigest: bytes,
    signature: bytes)

  const REPORT_A := [Uint32, Text, Uint64, Blob, Int64]
  const REPORT_B := [Text, Blob, MessageList(OBSERVATION), Blob, Blob]
  const REPORT := Schema(REPORT_A + REPORT_B)

  function ReportTo(x: Report): (m: Message)
    ensures WellTyped(REPORT, m)
  {
    var a := [
      Number(x.protocolVersion), Octets(x.agentSessionId), Number(x.sequence), Octets(x.challengeNonce),
      Number(x.observedAtUnix)];
    var b := [
      Octets(x.buildId), Octets(x.executableSha256), Messages(ObservationList(x.observations)),
      Octets(x.previousReportDigest), Octets(x.signature)];
    assert AllKinds(REPORT_A, a) && AllKinds(REPORT_B, b);
    JoinKinds(REPORT_A, a, REPORT_B, b);
    Message(a + b)
  }

  function ReportFrom(m: Message): (x: Report)
    requires WellTyped(REPORT, m)
  {
    SplitKinds(REPORT_A, REPORT_B, m);
    var a, b := m.values[..5], m.values[5..];
    Report(a[0].n, a[1].b, a[2].n, a[3].b, a[4].n, b[0].b, b[1].b, ObservationListFrom(b[2].ms), b[3].b, b[4].b)
  }

  lemma {:induction false} ReportToFrom(m: Message)
    requires WellTyped(REPORT, m)
    ensures ReportTo(ReportFrom(m)) == m
  {
    SplitKinds(REPORT_A, REPORT_B, m);
    var a, b := m.values[..5], m.values[5..];
    assert a == [Number(a[0].n), Octets(a[1].b), Number(a[2].n), Octets(a[3].b), Number(a[4].n)];
    assert b == [Octets(b[0].b), Octets(b[1].b), Messages(b[2].ms), Octets(b[3].b), Octets(b[4].b)];
    assert m.values == a + b;
  }

  function ReportCodec(): Codec<Report> {
    Codec(REPORT, (x: Report) => ReportTo(x), m requires WellTyped(REPORT, m) => ReportFrom(m))
  }

  lemma {:induction false} ReportFaithful()
    ensures Faithful(ReportCodec())
  {
    forall m | WellTyped(REPORT, m)
      ensures ReportTo(ReportFrom(m)) == m
    {
      ReportToFrom(m);
    }
    forall x: Report
      ensures ReportFrom(ReportTo(x)) == x
    {
      assert ObservationListFrom(ObservationList(x.observations)) == x.observations;
    }
  }

  datatype Health = Health(
    agentSessionId: text,
    state: text,
    lastReportAtUnix: int64,
    publicReasons: seq<text>)

  const HEALTH := Schema([Text, Text, Int64, TextList])

  function HealthTo(x: Health): (m: Message)
    ensures WellTyped(HEALTH, m)
  {
    Message([Octets(x.agentSessionId), Octets(x.state), Number(x.lastReportAtUnix), OctetsList(x.publicReasons)])
  }

  function HealthFrom(m: Message): (x: Health)
    requires WellTyped(HEALTH, m)
    ensures HealthTo(x) == m
  {
    var a := m.values;
    assert AllKinds(HEALTH.kinds, a);
    Health(a[0].b, a[1].b, a[2].n, a[3].bs)
  }

  function HealthCodec(): Codec<Health> {
    Codec(HEALTH, (x: Health) => HealthTo(x), m requires WellTyped(HEALTH, m) => HealthFrom(m))
  }

  lemma {:induction false} HealthFaithful()
    ensures Faithful(HealthCodec())
  {
    forall x: Health
      ensures HealthFrom(HealthTo(x)) == x
    {
    }
  }

  datatype Hello = Hello(
    protocolVersion: uint32,
    agentVersion: text,
    agentPublicKey: bytes,
    buildId: text,
    executableSha256: bytes)

  const HELLO := Schema([Uint32, Text, Blob, Text, Blob])

  function HelloTo(x: Hello): (m: Message)
    ensures WellTyped(HELLO, m)
  {
    Message([Number(x.protocolVersion), Octets(x.agentVersion), Octets(x.agentPublicKey), Octets(x.buildId),
             Octets(x.executableSha256)])
  }

  function HelloFrom(m: Message): (x: Hello)
    requires WellTyped(HELLO, m)
    ensures HelloTo(x) == m
  {
    var a := m.values;
    assert AllKinds(HELLO.kinds, a);
    Hello(a[0].n, a[1].b, a[2].b, a[3].b, a[4].b)
  }

  function HelloCodec(): Codec<Hello> {
    Codec(HELLO, (x: Hello) => HelloTo(x), m requires WellTyped(HELLO, m) => HelloFrom(m))
  }

  lemma {:induction false} HelloFaithful()
    ensures Faithful(HelloCodec())
  {
    forall x: Hello
      ensures HelloFrom(HelloTo(x)) == x
    {
    }
  }

  datatype RevocationClaims = RevocationClaims(
    protocolVersion: uint32,
    tenantId: text,
    gameId: text,
    environmentId: text,
    agentSessionId: text,
    reason: text,
    revokedAtUnix: int64,
    expiresAtUnix: int64)

  const REVOCATION_CLAIMS_A := [Uint32, Text, Text, Text]
  const REVOCATION_CLAIMS_B := [Text, Text, Int64, Int64]
  const REVOCATION_CLAIMS := Schema(REVOCATION_CLAIMS_A + REVOCATION_CLAIMS_B)

  function RevocationClaimsTo(x: RevocationClaims): (m: Message)
    ensures WellTyped(REVOCATION_CLAIMS, m)
  {
    var a := [
      Number(x.protocolVersion), Octets(x.tenantId), Octets(x.gameId), Octets(x.environmentId)];
    var b := [
      Octets(x.agentSessionId), Octets(x.reason), Number(x.revokedAtUnix), Number(x.expiresAtUnix)];
    assert AllKinds(REVOCATION_CLAIMS_A, a) && AllKinds(REVOCATION_CLAIMS_B, b);
    JoinKinds(REVOCATION_CLAIMS_A, a, REVOCATION_CLAIMS_B, b);
    Message(a + b)
  }

  function RevocationClaimsFrom(m: Message): (x: RevocationClaims)
    requires WellTyped(REVOCATION_CLAIMS, m)
  {
    SplitKinds(REVOCATION_CLAIMS_A, REVOCATION_CLAIMS_B, m);
    var a, b := m.values[..4], m.values[4..];
    RevocationClaims(a[0].n, a[1].b, a[2].b, a[3].b, b[0].b, b[1].b, b[2].n, b[3].n)
  }

  lemma {:induction false} RevocationClaimsToFrom(m: Message)
    requires WellTyped(REVOCATION_CLAIMS, m)
    ensures RevocationClaimsTo(RevocationClaimsFrom(m)) == m
  {
    SplitKinds(REVOCATION_CLAIMS_A, REVOCATION_CLAIMS_B, m);
    var a, b := m.values[..4], m.values[4..];
    assert a == [Number(a[0].n), Octets(a[1].b), Octets(a[2].b), Octets(a[3].b)];
    assert b == [Octets(b[0].b), Octets(b[1].b), Number(b[2].n), Number(b[3].n)];
    assert m.values == a + b;
  }

  function RevocationClaimsCodec(): Codec<RevocationClaims> {
    Codec(REVOCATION_CLAIMS,
          (x: RevocationClaims) => RevocationClaimsTo(x),
          m requires WellTyped(REVOCATION_CLAIMS, m) => RevocationClaimsFrom(m))
  }

  lemma {:induction false} RevocationClaimsFaithful()
    ensures Faithful(RevocationClaimsCodec())
  {
    forall m | WellTyped(REVOCATION_CLAIMS, m)
      ensures RevocationClaimsTo(RevocationClaimsFrom(m)) == m
    {
      RevocationClaimsToFrom(m);
    }
    forall x: RevocationClaims
      ensures RevocationClaimsFrom(RevocationClaimsTo(x)) == x
    {
    }
  }

  /** Every message type is laid out without loss: its values and the well-typed messages of its schema
      are the same, back and forth. */
  lemma {:induction false} EveryMessageIsFaithful()
    ensures Faithful(EnvelopeCodec()) && Faithful(LaunchBundleCodec()) && Faithful(PolicyClaimsCodec())
    ensures Faithful(LaunchGrantClaimsCodec()) && Faithful(ManifestClaimsCodec()) && Faithful(ChallengeCodec())
    ensures Faithful(ReportCodec()) && Faithful(HealthCodec()) && Faithful(HelloCodec())
    ensures Faithful(RevocationClaimsCodec())
  {
    hide Faithful;
    EnvelopeFaithful();
    LaunchBundleFaithful();
    PolicyClaimsFaithful();
    LaunchGrantClaimsFaithful();
    ManifestClaimsFaithful();
    ChallengeFaithful();
    ReportFaithful();
    HealthFaithful();
    HelloFaithful();
    RevocationClaimsFaithful();
  }
}
