/** What the verification of signed objects accepts, exactly: the claims that are acceptable, whose
    signature counts, when a launch bundle is accepted, and what of it ends up in the launch. */
module Acceptance {
  import opened Bytes
  import opened Wire
  import opened Canonical
  import opened Messages
  import opened Protocol
  import opened Reports

  // ---------------------------------------------------------------- names and paths

  predicate LetterOrDigit(b: byte) {
    || 'A' as int <= b <= 'Z' as int
    || 'a' as int <= b <= 'z' as int
    || '0' as int <= b <= '9' as int
  }

  /** One to 128 letters, digits, dots, underscores and hyphens. */
  lemma {:induction false} WhatIdentifiersAre(value: bytes)
    ensures Identifier(value) <==>
              && 1 <= |value| <= 128
              && forall b <- value :: LetterOrDigit(b) || b == '.' as int || b == '_' as int || b == '-' as int
  {
    assert forall b: byte :: Alphanumeric(b) <==> LetterOrDigit(b);
    hide Alphanumeric, LetterOrDigit;
  }

  /** One to 64 letters, digits, dots, plus signs and hyphens. */
  lemma {:induction false} WhatVersionsAre(value: bytes)
    ensures VersionIdentifier(value) <==>
              && 1 <= |value| <= 64
              && forall b <- value :: LetterOrDigit(b) || b == '.' as int || b == '+' as int || b == '-' as int
  {
    assert forall b: byte :: Alphanumeric(b) <==> LetterOrDigit(b);
    hide Alphanumeric, LetterOrDigit;
  }

  predicate Slash(b: byte) {
    b == '/' as int || b == '\\' as int
  }

  /** The parts of a path between its slashes and backslashes. */
  function PathParts(path: bytes): (parts: seq<bytes>)
    ensures parts != []
  {
    if path == [] then [[]]
    else
      var parts := PathParts(path[1..]);
      if Slash(path[0]) then [[]] + parts else [[path[0]] + parts[0]] + parts[1..]
  }

  predicate PlainPart(part: bytes) {
    part != [] && part != ['.' as int] && part != ['.' as int, '.' as int]
  }

  lemma {:induction false} SafePartsAreParts(value: bytes, part: bytes)
    ensures SafeParts(value, part) <==>
              PlainPart(part + PathParts(value)[0]) && forall p <- PathParts(value)[1..] :: PlainPart(p)
    decreases |value|
  {
    if value == [] {
      assert part + [] == part;
    } else if Slash(value[0]) {
      SafePartsAreParts(value[1..], []);
      var parts := PathParts(value[1..]);
      assert PathParts(value)[1..] == parts && part + [] == part && [] + parts[0] == parts[0];
      assert parts == [parts[0]] + parts[1..];
    } else {
      SafePartsAreParts(value[1..], part + [value[0]]);
      assert part + ([value[0]] + PathParts(value[1..])[0]) == part + [value[0]] + PathParts(value[1..])[0];
    }
  }

  /** A safe path is relative, names no drive, and has no empty part and none that is one or two dots. */
  lemma {:induction false} WhatSafePathsAre(value: bytes)
    ensures SafeRelativePath(value) <==>
              && 1 <= |value| <= 512
              && !Slash(value[0])
              && !(|value| >= 2 && value[1] == ':' as int)
              && forall part <- PathParts(value) :: PlainPart(part)
  {
    SafePartsAreParts(value, []);
    var parts := PathParts(value);
    assert [] + parts[0] == parts[0] && parts == [parts[0]] + parts[1..];
    hide SafeParts, PathParts, PlainPart;
  }

  predicate SameLetter(a: byte, b: byte) {
    || a == b
    || ('A' as int <= a <= 'Z' as int && b == a + 32)
    || ('A' as int <= b <= 'Z' as int && a == b + 32)
  }

  /** Two paths of a manifest count as one if they differ in the case of letters only. */
  lemma {:induction false} WhatPathsCoincide(a: bytes, b: bytes)
    ensures LowerAscii(a) == LowerAscii(b) <==>
              |a| == |b| && forall i :: 0 <= i < |a| ==> SameLetter(a[i], b[i])
  {
    assert |LowerAscii(a)| == |a| && |LowerAscii(b)| == |b|;
    if |a| == |b| {
      forall i | 0 <= i < |a| ensures LowerAscii(a)[i] == LowerAscii(b)[i] <==> SameLetter(a[i], b[i]) {
      }
    }
  }

  // ---------------------------------------------------------------- claims

  predicate GoodPolicy(p: PolicyClaims) {
    && p.protocolVersion == 1
    && Identifier(p.policyId) && Identifier(p.tenantId) && Identifier(p.gameId) && Identifier(p.environmentId)
    && p.requirementMode in {0, 1, 2}
    && 5 <= p.heartbeatSeconds <= 300
    && 15 <= p.reportSeconds <= 3600
    && p.heartbeatSeconds <= p.reportSeconds
    && p.disconnectGraceSeconds <= 300
    && VersionIdentifier(p.minimumAgentVersion)
  }

  predicate GoodGrant(g: LaunchGrantClaims, now: int64) {
    && g.protocolVersion == 1
    && Identifier(g.grantId) && Identifier(g.tenantId) && Identifier(g.gameId) && Identifier(g.environmentId)
    && Identifier(g.playerSubject) && Identifier(g.matchId) && Identifier(g.buildId)
    && Identifier(g.authoritativeServerId)
    && |g.agentPublicKey| == |g.policyDigest| == |g.buildManifestDigest| == 32
    && g.issuedAtUnix <= now + 30
    && g.issuedAtUnix < g.expiresAtUnix
    && !(120 < g.expiresAtUnix - g.issuedAtUnix < 0x8000_0000_0000_0000)
  }

  predicate GoodManifest(m: ManifestClaims, now: int64) {
    && m.protocolVersion == m.agentProtocolVersion == 1
    && Identifier(m.manifestId) && Identifier(m.tenantId) && Identifier(m.gameId) && Identifier(m.environmentId)
    && Identifier(m.buildId) && Identifier(m.engineAdapter)
    && VersionIdentifier(m.coreSdkVersion) && VersionIdentifier(m.engineAdapterVersion)
    && 1 <= |m.files| <= 16384
    && m.notBeforeUnix <= now + 30
    && now < m.expiresAtUnix && m.notBeforeUnix < m.expiresAtUnix
    && m.coreCAbiVersion == m.actionProtocolVersion == m.agentProbeAbiVersion == 1
  }

  predicate GoodRevocation(r: RevocationClaims, now: int64) {
    && r.protocolVersion == 1
    && Identifier(r.tenantId) && Identifier(r.gameId) && Identifier(r.environmentId)
    && Identifier(r.agentSessionId) && Identifier(r.reason)
    && r.revokedAtUnix <= now + 30
    && now < r.expiresAtUnix
    && !(300 < r.expiresAtUnix - r.revokedAtUnix < 0x8000_0000_0000_0000)
  }

  /** A policy is refused for its fields, or else for having expired, or else it is accepted; a grant and a
      manifest likewise. */
  lemma {:induction false} WhatClaimsAreAccepted(p: PolicyClaims, g: LaunchGrantClaims, m: ManifestClaims, now: int64)
    ensures ValidatePolicy(p, now) ==
              if !GoodPolicy(p) then Err(InvalidField("policy"))
              else if p.expiresAtUnix <= now then Err(Expired) else Ok(())
    ensures ValidateLaunchGrant(g, now) ==
              if !GoodGrant(g, now) then Err(InvalidField("launch_grant"))
              else if g.expiresAtUnix <= now then Err(Expired) else Ok(())
    ensures ValidateBuildManifest(m, now) ==
              if !GoodManifest(m, now) then Err(InvalidField("build_manifest"))
              else if !ManifestFilesValid(m.files) then Err(InvalidField("build_manifest_file")) else Ok(())
  {
    hide Identifier, VersionIdentifier, ManifestFilesValid;
    PolicyAccepted(p, now);
    GrantAccepted(g, now);
    ManifestAccepted(m, now);
    hide ValidatePolicy, ValidateLaunchGrant, ValidateBuildManifest, GoodPolicy, GoodGrant, GoodManifest;
  }

  lemma {:induction false} PolicyAccepted(p: PolicyClaims, now: int64)
    ensures ValidatePolicy(p, now) ==
              if !GoodPolicy(p) then Err(InvalidField("policy"))
              else if p.expiresAtUnix <= now then Err(Expired) else Ok(())
  {
    hide Identifier, VersionIdentifier;
  }

  lemma {:induction false} GrantAccepted(g: LaunchGrantClaims, now: int64)
    ensures ValidateLaunchGrant(g, now) ==
              if !GoodGrant(g, now) then Err(InvalidField("launch_grant"))
              else if g.expiresAtUnix <= now then Err(Expired) else Ok(())
  {
    hide Identifier;
  }

  lemma {:induction false} ManifestAccepted(m: ManifestClaims, now: int64)
    ensures ValidateBuildManifest(m, now) ==
              if !GoodManifest(m, now) then Err(InvalidField("build_manifest"))
              else if !ManifestFilesValid(m.files) then Err(InvalidField("build_manifest_file")) else Ok(())
  {
    hide Identifier, VersionIdentifier, ManifestFilesValid;
  }

  // ---------------------------------------------------------------- signed claims

  lemma {:induction false} ReportDomainOctets()
    ensures DomainBytes(ReportDomain) == Ascii("certael.agent.report.v1") + [0]
  {
    assert DomainName(ReportDomain) == "certael.agent.report.v1";
    hide DomainName, Ascii;
  }

  lemma {:induction false} LaunchDomainOctets()
    ensures DomainBytes(LaunchDomain) == Ascii("certael.agent.launch.v1") + [0]
  {
    assert DomainName(LaunchDomain) == "certael.agent.launch.v1";
    hide DomainName, Ascii;
  }

  lemma {:induction false} PolicyDomainOctets()
    ensures DomainBytes(PolicyDomain) == Ascii("certael.agent.policy.v1") + [0]
  {
    assert DomainName(PolicyDomain) == "certael.agent.policy.v1";
    hide DomainName, Ascii;
  }

  lemma {:induction false} BuildManifestDomainOctets()
    ensures DomainBytes(BuildManifestDomain) == Ascii("certael.agent.build-manifest.v1") + [0]
  {
    assert DomainName(BuildManifestDomain) == "certael.agent.build-manifest.v1";
    hide DomainName, Ascii;
  }

  lemma {:induction false} RegistrationDomainOctets()
    ensures DomainBytes(RegistrationDomain) == Ascii("certael.agent.registration.v1") + [0]
  {
    assert DomainName(RegistrationDomain) == "certael.agent.registration.v1";
    hide DomainName, Ascii;
  }

  lemma {:induction false} BrandingDomainOctets()
    ensures DomainBytes(BrandingDomain) == Ascii("certael.agent.branding.v1") + [0]
  {
    assert DomainName(BrandingDomain) == "certael.agent.branding.v1";
    hide DomainName, Ascii;
  }

  lemma {:induction false} RevocationDomainOctets()
    ensures DomainBytes(RevocationDomain) == Ascii("certael.agent.revocation.v1") + [0]
  {
    assert DomainName(RevocationDomain) == "certael.agent.revocation.v1";
    hide DomainName, Ascii;
  }

  lemma {:induction false} CompatibilityDomainOctets()
    ensures DomainBytes(CompatibilityDomain) == Ascii("certael.compatibility.v1") + [0]
  {
    assert DomainName(CompatibilityDomain) == "certael.compatibility.v1";
    hide DomainName, Ascii;
  }

  /** What is signed for each kind of object begins with these octets. */
  lemma {:induction false} DomainStrings()
    ensures DomainBytes(ReportDomain) == Ascii("certael.agent.report.v1") + [0]
    ensures DomainBytes(LaunchDomain) == Ascii("certael.agent.launch.v1") + [0]
    ensures DomainBytes(PolicyDomain) == Ascii("certael.agent.policy.v1") + [0]
    ensures DomainBytes(BuildManifestDomain) == Ascii("certael.agent.build-manifest.v1") + [0]
    ensures DomainBytes(RegistrationDomain) == Ascii("certael.agent.registration.v1") + [0]
    ensures DomainBytes(BrandingDomain) == Ascii("certael.agent.branding.v1") + [0]
    ensures DomainBytes(RevocationDomain) == Ascii("certael.agent.revocation.v1") + [0]
    ensures DomainBytes(CompatibilityDomain) == Ascii("certael.compatibility.v1") + [0]
  {
    hide DomainBytes, Ascii;
    ReportDomainOctets();
    LaunchDomainOctets();
    PolicyDomainOctets();
    BuildManifestDomainOctets();
    RegistrationDomainOctets();
    BrandingDomainOctets();
    RevocationDomainOctets();
    CompatibilityDomainOctets();
  }

  /** A usable key of the ring, under the name the envelope gives, verifies its 64-octet signature over the
      domain and the claims. */
  ghost predicate Vouched(c: Crypto, keys: seq<VerificationKey>, domain: string, e: Envelope, now: int64) {
    exists key ::
      Resolve(keys, e.keyId, now) == Ok(key) && |e.signature| == 64 && c.verify(key, Ascii(domain) + [0] + e.claims, e.signature)
  }

  /** The octets are the message's encoding, and of a size that is accepted. */
  predicate Encodes<T(!new)>(c: Codec<T>, input: bytes, value: T) {
    input == EncodeToVec(c, value) && 0 < |input| <= MAX_MESSAGE_BYTES
  }

  lemma {:induction false} SignatureDecides(
      c: Crypto, keys: seq<VerificationKey>, d: Domain, domain: string, e: Envelope, now: int64)
    requires DomainBytes(d) == Ascii(domain) + [0]
    ensures Vouched(c, keys, domain, e, now) <==>
              Resolve(keys, e.keyId, now).Ok? &&
              VerifySignedBytes(c, d, e.claims, e.signature, Resolve(keys, e.keyId, now).value).Ok?
  {
    hide Resolve, DomainBytes, Ascii;
  }

  lemma {:induction false} PolicyVerifiesIff(
      c: Crypto, e: Envelope, keys: seq<VerificationKey>, now: int64, p: PolicyClaims)
    ensures VerifyPolicy(c, e, keys, now) == Ok(p) <==>
              && Encodes(PolicyClaimsCodec(), e.claims, p) && GoodPolicy(p) && now < p.expiresAtUnix
              && Vouched(c, keys, "certael.agent.policy.v1", e, now)
  {
    hide DecodeCanonical, EncodeToVec, Resolve, VerifySignedBytes, GoodPolicy, ValidatePolicy, Vouched, DomainBytes;
    DomainStrings();
    SignatureDecides(c, keys, PolicyDomain, "certael.agent.policy.v1", e, now);
    PolicyClaimsFaithful();
    AcceptsExactlyEncodings(PolicyClaimsCodec(), e.claims, p);
    PolicyAccepted(p, now);
  }

  lemma {:induction false} GrantVerifiesIff(
      c: Crypto, e: Envelope, keys: seq<VerificationKey>, now: int64, g: LaunchGrantClaims)
    ensures VerifyLaunchGrant(c, e, keys, now) == Ok(g) <==>
              && Encodes(LaunchGrantClaimsCodec(), e.claims, g) && GoodGrant(g, now) && now < g.expiresAtUnix
              && Vouched(c, keys, "certael.agent.launch.v1", e, now)
  {
    hide DecodeCanonical, EncodeToVec, Resolve, VerifySignedBytes, GoodGrant, ValidateLaunchGrant, Vouched, DomainBytes;
    DomainStrings();
    SignatureDecides(c, keys, LaunchDomain, "certael.agent.launch.v1", e, now);
    LaunchGrantClaimsFaithful();
    AcceptsExactlyEncodings(LaunchGrantClaimsCodec(), e.claims, g);
    GrantAccepted(g, now);
  }

  lemma {:induction false} ManifestVerifiesIff(
      c: Crypto, e: Envelope, keys: seq<VerificationKey>, now: int64, m: ManifestClaims)
    ensures VerifyBuildManifest(c, e, keys, now) == Ok(m) <==>
              && Encodes(ManifestClaimsCodec(), e.claims, m) && GoodManifest(m, now) && ManifestFilesValid(m.files)
              && Vouched(c, keys, "certael.agent.build-manifest.v1", e, now)
  {
    hide DecodeCanonical, EncodeToVec, Resolve, VerifySignedBytes, GoodManifest, ValidateBuildManifest,
      ManifestFilesValid, Vouched, DomainBytes;
    DomainStrings();
    SignatureDecides(c, keys, BuildManifestDomain, "certael.agent.build-manifest.v1", e, now);
    ManifestClaimsFaithful();
    AcceptsExactlyEncodings(ManifestClaimsCodec(), e.claims, m);
    ManifestAccepted(m, now);
  }

  lemma {:induction false} RevocationVerifiesIff(
      c: Crypto, e: Envelope, keys: seq<VerificationKey>, now: int64, r: RevocationClaims)
    ensures VerifyRevocation(c, e, keys, now) == Ok(r) <==>
              && Encodes(RevocationClaimsCodec(), e.claims, r) && GoodRevocation(r, now)
              && Vouched(c, keys, "certael.agent.revocation.v1", e, now)
  {
    hide DecodeCanonical, EncodeToVec, Resolve, VerifySignedBytes, Identifier, Vouched, DomainBytes;
    DomainStrings();
    SignatureDecides(c, keys, RevocationDomain, "certael.agent.revocation.v1", e, now);
    RevocationClaimsFaithful();
    AcceptsExactlyEncodings(RevocationClaimsCodec(), e.claims, r);
  }

  // ---------------------------------------------------------------- launch bundles

  /** The octets are the encoding of an envelope. */
  predicate Wraps(input: bytes, e: Envelope) {
    Encodes(EnvelopeCodec(), input, e)
  }

  /** The input is the encoding of a bundle whose three parts verify, and these are they. */
  ghost predicate Verified(v: Verifier, input: bytes, now: int64, p: Parts) {
    && Encodes(LaunchBundleCodec(), input, p.bundle)
    && (exists e :: Wraps(p.bundle.signedPolicy, e) && VerifyPolicy(v.crypto, e, v.keys, now) == Ok(p.policy))
    && (exists e :: Wraps(p.bundle.signedLaunchGrant, e) && VerifyLaunchGrant(v.crypto, e, v.keys, now) == Ok(p.grant))
    && (exists e :: Wraps(p.bundle.signedBuildManifest, e) &&
                    VerifyBuildManifest(v.crypto, e, v.keys, now) == Ok(p.manifest))
  }

  lemma {:induction false} EnvelopeDecodesIff(input: bytes, e: Envelope)
    ensures DecodeEnvelope(input) == Ok(e) <==> Wraps(input, e)
  {
    EnvelopeFaithful();
    AcceptsExactlyEncodings(EnvelopeCodec(), input, e);
    hide DecodeCanonical, EncodeToVec;
  }

  lemma {:induction false} PartsVerifyIff(v: Verifier, input: bytes, now: int64, p: Parts)
    ensures VerifyParts(v, input, now) == Ok(p) <==> Verified(v, input, now, p)
  {
    hide DecodeCanonical, EncodeToVec, DecodeEnvelope, VerifyPolicy, VerifyLaunchGrant, VerifyBuildManifest, Wraps;
    LaunchBundleFaithful();
    AcceptsExactlyEncodings(LaunchBundleCodec(), input, p.bundle);
    forall part: bytes, e ensures DecodeEnvelope(part) == Ok(e) <==> Wraps(part, e) {
      EnvelopeDecodesIff(part, e);
    }
  }

  /** The parts are for this agent and this build, and for one tenant, game, environment and build; and
      the grant names the very policy and manifest of the bundle. */
  predicate Agree(v: Verifier, p: Parts) {
    && p.grant.agentPublicKey == v.agentPublicKey
    && p.grant.buildId == p.manifest.buildId == v.buildId
    && p.grant.tenantId == p.policy.tenantId == p.manifest.tenantId
    && p.grant.gameId == p.policy.gameId == p.manifest.gameId
    && p.grant.environmentId == p.policy.environmentId == p.manifest.environmentId
    && p.grant.policyDigest == v.crypto.hash(p.bundle.signedPolicy)
    && p.grant.buildManifestDigest == v.crypto.hash(p.bundle.signedBuildManifest)
  }

  predicate VersionsParse(v: Verifier, p: Parts) {
    v.semver.parses(p.policy.minimumAgentVersion) && v.semver.parses(v.agentVersion)
  }

  predicate TooOld(v: Verifier, p: Parts) {
    v.semver.older(v.agentVersion, p.policy.minimumAgentVersion)
  }

  /** Which claim becomes which part of the launch. */
  predicate Carries(v: Verifier, p: Parts, l: BoundLaunch) {
    && l.sessionId == p.grant.grantId
    && l.tenantId == p.grant.tenantId
    && l.gameId == p.grant.gameId
    && l.environmentId == p.grant.environmentId
    && l.playerSubject == p.grant.playerSubject
    && l.matchId == p.grant.matchId
    && l.buildId == p.grant.buildId
    && l.authoritativeServerId == p.grant.authoritativeServerId
    && l.grantExpiresAtUnix == p.grant.expiresAtUnix
    && l.heartbeatSeconds == p.policy.heartbeatSeconds
    && l.reportSeconds == p.policy.reportSeconds
    && l.disconnectGraceSeconds == p.policy.disconnectGraceSeconds
    && l.policyExpiresAtUnix == p.policy.expiresAtUnix
    && l.buildManifest == p.manifest
    && l.buildManifestDigest == v.crypto.hash(p.bundle.signedBuildManifest)
  }

  const UPDATE_REQUIRED := InvalidField("agent_update_required")

  lemma {:induction false} BindingDecides(v: Verifier, p: Parts)
    ensures Bind(v, p).Ok? <==> VersionsParse(v, p) && Agree(v, p) && !TooOld(v, p)
    ensures Bind(v, p) == Err(UPDATE_REQUIRED) <==> VersionsParse(v, p) && Agree(v, p) && TooOld(v, p)
    ensures Bind(v, p).Ok? ==> Carries(v, p, Bind(v, p).value)
  {
  }

  /** A part that does not verify is never taken for a request to update. */
  lemma {:induction false} PartsAskForNoUpdate(v: Verifier, input: bytes, now: int64)
    ensures VerifyParts(v, input, now) != Err(UPDATE_REQUIRED)
  {
    hide DecodeCanonical, DecodeEnvelope, VerifyPolicy, VerifyLaunchGrant, VerifyBuildManifest, InComponent;
    BundlesAskForNoUpdate(input);
    InAnyComponent<Envelope>();
    InAnyComponent<PolicyClaims>();
    InAnyComponent<LaunchGrantClaims>();
    InAnyComponent<ManifestClaims>();
  }

  lemma {:induction false} BundlesAskForNoUpdate(input: bytes)
    ensures Faithful(LaunchBundleCodec()) && DecodeCanonical(LaunchBundleCodec(), input) != Err(UPDATE_REQUIRED)
  {
    hide DecodeCanonical, Faithful, Decode, LaunchBundleCodec;
    LaunchBundleFaithful();
    DecodingErrors(LaunchBundleCodec(), input);
  }

  lemma {:induction false} InAnyComponent<T(!new)>()
    ensures forall component: string, r: Result<T, ProtocolError> ::
              InComponent(component, r).Err? ==> InComponent(component, r).error.LaunchBundleComponent?
  {
  }

  /** A bundle is accepted exactly if it is the encoding of parts that verify and agree, and the agent is
      not older than the policy asks for; then the launch carries their claims. It is refused as needing
      an update exactly if all this holds but the agent is older. */
  lemma {:induction false} BundleIsAcceptedIff(v: Verifier, input: bytes, now: int64)
    ensures VerifyLaunchBundle(v, input, now).Ok? <==>
              exists p :: Verified(v, input, now, p) && VersionsParse(v, p) && Agree(v, p) && !TooOld(v, p)
    ensures VerifyLaunchBundle(v, input, now) == Err(UPDATE_REQUIRED) <==>
              exists p :: Verified(v, input, now, p) && VersionsParse(v, p) && Agree(v, p) && TooOld(v, p)
    ensures forall p :: VerifyLaunchBundle(v, input, now).Ok? && Verified(v, input, now, p) ==>
              Carries(v, p, VerifyLaunchBundle(v, input, now).value)
    ensures VerifyLaunchBundle(v, input, now).Ok? ==>
              Verified(v, input, now, VerifyParts(v, input, now).value)
  {
    hide VerifyParts, Bind, Verified, VersionsParse, Agree, TooOld, Carries;
    PartsAskForNoUpdate(v, input, now);
    forall p ensures VerifyParts(v, input, now) == Ok(p) <==> Verified(v, input, now, p) {
      PartsVerifyIff(v, input, now, p);
    }
    if VerifyParts(v, input, now).Ok? {
      BindingDecides(v, VerifyParts(v, input, now).value);
    }
  }

  // ---------------------------------------------------------------- reports

  /** What a report must be like, whether it is to be signed or was received. */
  lemma {:induction false} WhatReportsAreValid(r: Report)
    ensures ValidateReport(r).Ok? <==>
              && r.protocolVersion == 1
              && 1 <= |r.agentSessionId| <= 128
              && r.sequence != 0
              && 16 <= |r.challengeNonce| <= 256
              && 1 <= |r.buildId| <= 128
              && |r.executableSha256| == 32
              && |r.previousReportDigest| in {0, 32}
              && |r.observations| <= 1024
  {
  }

  /** A report is accepted exactly if it is valid, takes at most 64 KiB without its signature, and its 64
      octets of signature verify over the domain of reports and the report without them. */
  lemma {:induction false} ReportVerifiesIff(c: Crypto, key: bytes, r: Report)
    ensures VerifyReport(c, key, r).Ok? <==>
              && ValidateReport(r).Ok?
              && |r.signature| == 64
              && |EncodeReport(r.(signature := []))| <= 65536
              && c.verify(key, Ascii("certael.agent.report.v1") + [0] + EncodeReport(r.(signature := [])), r.signature)
  {
    DomainStrings();
    hide EncodeReport, ValidateReport, DomainBytes, Ascii;
  }
}
