/** Verification of signed protocol objects: key ring, domain-separated signatures, claim checks,
    the binding of a launch bundle, challenges, and signed reports. SHA-256, Ed25519 and version
    ordering are uninterpreted: they are parameters about which nothing is assumed, and a result
    that rests on their strength names the collision or the shared signature that would break it. */
module Protocol {
  import opened Bytes
  import opened Wire
  import opened Canonical
  import opened Messages

  const PROTOCOL_VERSION := 1

  datatype Crypto = Crypto(
    hash: bytes -> digest,
    sign: (bytes, bytes) -> signature,      // secret key, message
    publicKey: bytes -> bytes,              // secret key
    verify: (bytes, bytes, bytes) -> bool)  // public key, message, signature

  /** Two different inputs with one digest. */
  ghost predicate Collision(hash: bytes -> digest, a: bytes, b: bytes) {
    a != b && hash(a) == hash(b)
  }

  /** One signature that verifies for two different messages. */
  ghost predicate SharedSignature(c: Crypto, key: bytes, a: bytes, b: bytes, signature: bytes) {
    a != b && c.verify(key, a, signature) && c.verify(key, b, signature)
  }

  /** The signature scheme verifies what it signed. */
  ghost predicate Correct(c: Crypto) {
    forall k, m :: c.verify(c.publicKey(k), m, c.sign(k, m))
  }

  datatype Semver = Semver(parses: text -> bool, older: (text, text) -> bool)

  /** Signed 64-bit subtraction as the machine performs it. */
  function Subtract64(a: int64, b: int64): int64 {
    var d := a - b;
    if d >= 0x8000_0000_0000_0000 then d - U64
    else if d < -0x8000_0000_0000_0000 then d + U64
    else d
  }

  // ---------------------------------------------------------------- signature domains

  datatype Domain =
    | ReportDomain | LaunchDomain | PolicyDomain | BuildManifestDomain
    | RegistrationDomain | BrandingDomain | RevocationDomain | CompatibilityDomain

  /** The octets of an ASCII string; a character outside ASCII would become a question mark. */
  function Ascii(s: string): (b: bytes)
    ensures |b| == |s|
    ensures forall i :: 0 <= i < |s| ==> b[i] == (if s[i] as int < 128 then s[i] as int else 0x3F)
  {
    seq<byte>(|s|, i requires 0 <= i < |s| => if s[i] as int < 128 then s[i] as int else 0x3F)
  }

  /** The part of a domain string between "certael." and ".v1". */
  function Stem(d: Domain): (s: string)
    ensures forall i :: 0 <= i < |s| ==> 0 < s[i] as int < 128
  {
    match d
    case ReportDomain => "agent.report"
    case LaunchDomain => "agent.launch"
    case PolicyDomain => "agent.policy"
    case BuildManifestDomain => "agent.build-manifest"
    case RegistrationDomain => "agent.registration"
    case BrandingDomain => "agent.branding"
    case RevocationDomain => "agent.revocation"
    case CompatibilityDomain => "compatibility"
  }

  function DomainName(d: Domain): (s: string)
    ensures forall i :: 0 <= i < |s| ==> 0 < s[i] as int < 128
  {
    "certael." + Stem(d) + ".v1"
  }

  function DomainBytes(d: Domain): bytes {
    Ascii(DomainName(d)) + [0]
  }

  lemma {:induction false} StemsDiffer(d: Domain, d': Domain)
    requires Stem(d) == Stem(d')
    ensures d == d'
  {
    assert |Stem(ReportDomain)| == |Stem(LaunchDomain)| == |Stem(PolicyDomain)| == 12;
    assert Stem(ReportDomain)[6] == 'r' && Stem(LaunchDomain)[6] == 'l' && Stem(PolicyDomain)[6] == 'p';
    assert |Stem(BuildManifestDomain)| == 20 && |Stem(RegistrationDomain)| == 18;
    assert |Stem(BrandingDomain)| == 14 && |Stem(RevocationDomain)| == 16;
    assert |Stem(CompatibilityDomain)| == 13;
  }

  /** A string without NULs that is ended by one is determined by anything that starts with it. */
  lemma {:induction false} TerminatedPrefix(a: bytes, rest: bytes, b: bytes, rest': bytes)
    requires a + [0] + rest == b + [0] + rest'
    requires 0 !in a && 0 !in b
    ensures a == b && rest == rest'
  {
    var m := a + [0] + rest;
    assert m[|a|] == 0 && m[|b|] == 0;
    assert forall i :: 0 <= i < |a| ==> m[i] == a[i] && a[i] in a;
    assert forall i :: 0 <= i < |b| ==> m[i] == b[i] && b[i] in b;
    assert a == m[..|a|] && b == m[..|b|];
    assert rest == m[|a| + 1..] && rest' == m[|b| + 1..];
  }

  /** A domain's octets are not a prefix of anything another domain starts: a signed message
      determines both its domain and its claims. */
  lemma {:induction false} DomainDeterminesMessage(d: Domain, claims: bytes, d': Domain, claims': bytes)
    requires DomainBytes(d) + claims == DomainBytes(d') + claims'
    ensures d == d' && claims == claims'
  {
    var name, name' := DomainName(d), DomainName(d');
    TerminatedPrefix(Ascii(name), claims, Ascii(name'), claims');
    forall i | 0 <= i < |name|
      ensures name[i] == name'[i]
    {
      assert Ascii(name)[i] == Ascii(name')[i];
    }
    assert Stem(d) == name[8..|name| - 3] && Stem(d') == name'[8..|name'| - 3];
    StemsDiffer(d, d');
  }

  // ---------------------------------------------------------------- key ring

  datatype VerificationKey = VerificationKey(
    keyId: text, key: bytes, notBeforeUnix: int64, notAfterUnix: int64, revoked: bool)

  predicate AcceptableKey(k: VerificationKey) {
    0 < |k.keyId| <= 128 && k.notBeforeUnix < k.notAfterUnix
  }

  predicate DistinctIds(keys: seq<VerificationKey>) {
    forall i, j :: 0 <= i < j < |keys| ==> keys[i].keyId != keys[j].keyId
  }

  /** A key ring is made exactly from a non-empty list of acceptable keys with distinct names. */
  method NewKeyRing(keys: seq<VerificationKey>) returns (r: Result<seq<VerificationKey>, ProtocolError>)
    ensures r.Ok? <==> keys != [] && (forall k <- keys :: AcceptableKey(k)) && DistinctIds(keys)
    ensures r.Ok? ==> r.value == keys
    ensures r.Err? ==>
              r.error == if keys == [] || exists k <- keys :: !AcceptableKey(k)
                         then InvalidField("verification_keys") else InvalidField("duplicate_key_id")
  {
    if keys == [] || exists k <- keys :: !AcceptableKey(k) {
      return Err(InvalidField("verification_keys"));
    }
    for index := 0 to |keys|
      invariant DistinctIds(keys[..index])
    {
      var before := keys[..index];
      if exists candidate <- before :: candidate.keyId == keys[index].keyId {
        var i :| 0 <= i < index && before[i].keyId == keys[index].keyId;
        assert keys[i].keyId == keys[index].keyId;
        return Err(InvalidField("duplicate_key_id"));
      }
      assert forall i :: 0 <= i < index ==> before[i] in before && keys[i] == before[i];
    }
    assert keys[..|keys|] == keys;
    return Ok(keys);
  }

  /** The key of the first entry with the given name, if it is in its time window and not revoked. */
  function Resolve(keys: seq<VerificationKey>, keyId: text, now: int64): Result<bytes, ProtocolError> {
    if keys == [] then Err(UnknownKey)
    else if keys[0].keyId == keyId then
      if keys[0].revoked || now < keys[0].notBeforeUnix || now >= keys[0].notAfterUnix then Err(UnknownKey)
      else Ok(keys[0].key)
    else Resolve(keys[1..], keyId, now)
  }

  predicate Usable(k: VerificationKey, keyId: text, now: int64) {
    k.keyId == keyId && !k.revoked && k.notBeforeUnix <= now < k.notAfterUnix
  }

  /** In a ring with distinct names a key is found exactly when some entry is usable, and then it
      is that entry's. */
  lemma {:induction false} ResolveFindsUsable(keys: seq<VerificationKey>, keyId: text, now: int64, key: bytes)
    requires DistinctIds(keys)
    ensures Resolve(keys, keyId, now) == Ok(key) <==>
            exists i :: 0 <= i < |keys| && Usable(keys[i], keyId, now) && keys[i].key == key
  {
    if keys != [] {
      ResolveFindsUsable(keys[1..], keyId, now, key);
      if exists i :: 0 <= i < |keys| && Usable(keys[i], keyId, now) && keys[i].key == key {
        var i :| 0 <= i < |keys| && Usable(keys[i], keyId, now) && keys[i].key == key;
        assert i > 0 ==> Usable(keys[1..][i - 1], keyId, now);
      }
      if keys[0].keyId != keyId && Resolve(keys, keyId, now) == Ok(key) {
        var i :| 0 <= i < |keys[1..]| && Usable(keys[1..][i], keyId, now) && keys[1..][i].key == key;
        assert Usable(keys[i + 1], keyId, now);
      }
    }
  }

  // ---------------------------------------------------------------- signed claims

  function VerifySignedBytes(c: Crypto, d: Domain, claims: bytes, signature: bytes, key: bytes)
    : (r: Result<(), ProtocolError>)
    ensures r.Ok? ==> c.verify(key, DomainBytes(d) + claims, signature)
  {
    if |signature| != 64 then Err(InvalidSignature)
    else if c.verify(key, DomainBytes(d) + claims, signature) then Ok(())
    else Err(InvalidSignature)
  }

  /** A signature accepted for two kinds of message, or for two claims of one kind, is a signature
      shared by two different messages. */
  lemma {:induction false} SignatureBindsKindAndClaims(
      c: Crypto, key: bytes, signature: bytes, d: Domain, claims: bytes, d': Domain, claims': bytes)
    requires VerifySignedBytes(c, d, claims, signature, key).Ok?
    requires VerifySignedBytes(c, d', claims', signature, key).Ok?
    ensures (d == d' && claims == claims') ||
            SharedSignature(c, key, DomainBytes(d) + claims, DomainBytes(d') + claims', signature)
  {
    if DomainBytes(d) + claims == DomainBytes(d') + claims' {
      DomainDeterminesMessage(d, claims, d', claims');
    }
  }

  predicate Alphanumeric(b: byte) {
    0x30 <= b <= 0x39 || 0x41 <= b <= 0x5A || 0x61 <= b <= 0x7A
  }

  predicate Identifier(value: bytes) {
    0 < |value| <= 128 && forall b <- value :: Alphanumeric(b) || b == 0x2E || b == 0x5F || b == 0x2D
  }

  predicate VersionIdentifier(value: bytes) {
    0 < |value| <= 64 && forall b <- value :: Alphanumeric(b) || b == 0x2E || b == 0x2B || b == 0x2D
  }

  function ValidatePolicy(p: PolicyClaims, now: int64): (r: Result<(), ProtocolError>) {
    if p.protocolVersion != PROTOCOL_VERSION
       || !Identifier(p.policyId)
       || !Identifier(p.tenantId)
       || !Identifier(p.gameId)
       || !Identifier(p.environmentId)
       || !(0 <= p.requirementMode <= 2)
       || !(5 <= p.heartbeatSeconds <= 300)
       || !(15 <= p.reportSeconds <= 3600)
       || p.reportSeconds < p.heartbeatSeconds
       || p.disconnectGraceSeconds > 300
       || !VersionIdentifier(p.minimumAgentVersion)
    then Err(InvalidField("policy"))
    else if p.expiresAtUnix <= now then Err(Expired)
    else Ok(())
  }

  function ValidateLaunchGrant(g: LaunchGrantClaims, now: int64): Result<(), ProtocolError> {
    if g.protocolVersion != PROTOCOL_VERSION
       || !Identifier(g.grantId)
       || !Identifier(g.tenantId)
       || !Identifier(g.gameId)
       || !Identifier(g.environmentId)
       || !Identifier(g.playerSubject)
       || !Identifier(g.matchId)
       || !Identifier(g.buildId)
       || !Identifier(g.authoritativeServerId)
       || |g.agentPublicKey| != 32
       || |g.policyDigest| != 32
       || |g.buildManifestDigest| != 32
       || g.issuedAtUnix > now + 30
       || g.expiresAtUnix <= g.issuedAtUnix
       || Subtract64(g.expiresAtUnix, g.issuedAtUnix) > 120
    then Err(InvalidField("launch_grant"))
    else if g.expiresAtUnix <= now then Err(Expired)
    else Ok(())
  }

  /** An accepted grant lives at most two minutes, unless its lifetime does not fit in 63 bits:
      the subtraction that checks it then wraps around to a negative number. */
  lemma {:induction false} GrantIsShortLived(g: LaunchGrantClaims, now: int64)
    requires ValidateLaunchGrant(g, now).Ok?
    ensures now < g.expiresAtUnix
    ensures g.expiresAtUnix - g.issuedAtUnix <= 120 <==> g.expiresAtUnix - g.issuedAtUnix < 0x8000_0000_0000_0000
    ensures g.issuedAtUnix >= 0 ==> g.expiresAtUnix <= now + 150
  {
  }

  /** A grant that does outlive them: every accepted grant stays accepted when its lifetime is
      stretched to 2^63 seconds around the present. */
  lemma {:induction false} LongGrantIsAccepted(g: LaunchGrantClaims, now: int64)
    requires ValidateLaunchGrant(g, now).Ok? && -0x4000_0000_0000_0000 <= now < 0x4000_0000_0000_0000
    ensures
      var long := g.(issuedAtUnix := -0x4000_0000_0000_0000, expiresAtUnix := 0x4000_0000_0000_0000);
      ValidateLaunchGrant(long, now).Ok? && long.expiresAtUnix - long.issuedAtUnix > 120
  {
    hide Identifier;
  }

  predicate SafeRelativePath(value: bytes) {
    && 0 < |value| <= 512
    && value[0] != 0x2F
    && value[0] != 0x5C
    && !(|value| >= 2 && value[1] == 0x3A)
    && SafeParts(value, [])
  }

  predicate SafePart(part: bytes) {
    part != [] && part != [0x2E] && part != [0x2E, 0x2E]
  }

  predicate SafeParts(value: bytes, part: bytes)
    decreases |value|
  {
    if value == [] then SafePart(part)
    else if value[0] == 0x2F || value[0] == 0x5C then SafePart(part) && SafeParts(value[1..], [])
    else SafeParts(value[1..], part + [value[0]])
  }

  function LowerAscii(value: bytes): bytes {
    seq(|value|, i requires 0 <= i < |value| =>
      if 0x41 <= value[i] <= 0x5A then value[i] + 32 else value[i])
  }

  /** Every listed file is a safe relative path with a digest, and no two are equal ignoring case. */
  method ValidateManifestFiles(files: seq<ProtectedFile>) returns (ok: bool)
    ensures ok <==> ManifestFilesValid(files)
  {
    var paths: set<bytes> := {};
    for i := 0 to |files|
      invariant paths == set j | 0 <= j < i :: LowerAscii(files[j].path)
      invariant ManifestFilesValid(files[..i])
    {
      var lower := LowerAscii(files[i].path);
      if !SafeRelativePath(files[i].path) || |files[i].sha256| != 32 || lower in paths {
        return false;
      }
      paths := paths + {lower};
    }
    assert files[..|files|] == files;
    return true;
  }

  predicate ManifestFilesValid(files: seq<ProtectedFile>) {
    && (forall f <- files :: SafeRelativePath(f.path) && |f.sha256| == 32)
    && (forall i, j :: 0 <= i < j < |files| ==> LowerAscii(files[i].path) != LowerAscii(files[j].path))
  }

  function ValidateBuildManifest(m: ManifestClaims, now: int64): Result<(), ProtocolError> {
    if m.protocolVersion != PROTOCOL_VERSION
       || !Identifier(m.manifestId)
       || !Identifier(m.tenantId)
       || !Identifier(m.gameId)
       || !Identifier(m.environmentId)
       || !Identifier(m.buildId)
       || m.files == []
       || |m.files| > 16384
       || m.notBeforeUnix > now + 30
       || m.expiresAtUnix <= now
       || m.expiresAtUnix <= m.notBeforeUnix
       || !VersionIdentifier(m.coreSdkVersion)
       || !Identifier(m.engineAdapter)
       || !VersionIdentifier(m.engineAdapterVersion)
       || m.coreCAbiVersion != 1
       || m.actionProtocolVersion != 1
       || m.agentProtocolVersion != PROTOCOL_VERSION
       || m.agentProbeAbiVersion != 1
    then Err(InvalidField("build_manifest"))
    else if !ManifestFilesValid(m.files) then Err(InvalidField("build_manifest_file"))
    else Ok(())
  }

  function DecodeEnvelope(input: bytes): Result<Envelope, ProtocolError> {
    EnvelopeFaithful();
    DecodeCanonical(EnvelopeCodec(), input)
  }

  function VerifyPolicy(c: Crypto, e: Envelope, keys: seq<VerificationKey>, now: int64)
    : Result<PolicyClaims, ProtocolError>
  {
    PolicyClaimsFaithful();
    var claims :- DecodeCanonical(PolicyClaimsCodec(), e.claims);
    var _ :- ValidatePolicy(claims, now);
    var key :- Resolve(keys, e.keyId, now);
    var _ :- VerifySignedBytes(c, PolicyDomain, e.claims, e.signature, key);
    Ok(claims)
  }

  function VerifyLaunchGrant(c: Crypto, e: Envelope, keys: seq<VerificationKey>, now: int64)
    : Result<LaunchGrantClaims, ProtocolError>
  {
    LaunchGrantClaimsFaithful();
    var claims :- DecodeCanonical(LaunchGrantClaimsCodec(), e.claims);
    var _ :- ValidateLaunchGrant(claims, now);
    var key :- Resolve(keys, e.keyId, now);
    var _ :- VerifySignedBytes(c, LaunchDomain, e.claims, e.signature, key);
    Ok(claims)
  }

  function VerifyBuildManifest(c: Crypto, e: Envelope, keys: seq<VerificationKey>, now: int64)
    : Result<ManifestClaims, ProtocolError>
  {
    ManifestClaimsFaithful();
    var claims :- DecodeCanonical(ManifestClaimsCodec(), e.claims);
    var _ :- ValidateBuildManifest(claims, now);
    var key :- Resolve(keys, e.keyId, now);
    var _ :- VerifySignedBytes(c, BuildManifestDomain, e.claims, e.signature, key);
    Ok(claims)
  }

  function VerifyRevocation(c: Crypto, e: Envelope, keys: seq<VerificationKey>, now: int64)
    : Result<RevocationClaims, ProtocolError>
  {
    RevocationClaimsFaithful();
    var claims :- DecodeCanonical(RevocationClaimsCodec(), e.claims);
    if claims.protocolVersion != PROTOCOL_VERSION
       || !Identifier(claims.tenantId)
       || !Identifier(claims.gameId)
       || !Identifier(claims.environmentId)
       || !Identifier(claims.agentSessionId)
       || !Identifier(claims.reason)
       || claims.revokedAtUnix > now + 30
       || claims.expiresAtUnix <= now
       || Subtract64(claims.expiresAtUnix, claims.revokedAtUnix) > 300
    then Err(InvalidField("revocation"))
    else
      var key :- Resolve(keys, e.keyId, now);
      var _ :- VerifySignedBytes(c, RevocationDomain, e.claims, e.signature, key);
      Ok(claims)
  }

  // ---------------------------------------------------------------- launch bundles

  datatype BoundLaunch = BoundLaunch(
    sessionId: text,
    tenantId: text,
    gameId: text,
    environmentId: text,
    playerSubject: text,
    matchId: text,
    buildId: text,
    authoritativeServerId: text,
    buildManifest: ManifestClaims,
    buildManifestDigest: digest,
    heartbeatSeconds: uint32,
    reportSeconds: uint32,
    disconnectGraceSeconds: uint32,
    policyExpiresAtUnix: int64,
    grantExpiresAtUnix: int64)

  function InComponent<T>(component: string, r: Result<T, ProtocolError>): Result<T, ProtocolError> {
    match r
    case Ok(_) => r
    case Err(source) => Err(LaunchBundleComponent(component, source))
  }

  /** What the verifier of a launch bundle is configured with. */
  datatype Verifier = Verifier(
    crypto: Crypto,
    semver: Semver,
    keys: seq<VerificationKey>,
    agentPublicKey: bytes,
    buildId: text,
    agentVersion: text)

  /** The components of a launch bundle, each verified on its own. */
  datatype Parts = Parts(bundle: LaunchBundle, policy: PolicyClaims, grant: LaunchGrantClaims, manifest: ManifestClaims)

  function VerifyParts(v: Verifier, input: bytes, now: int64): Result<Parts, ProtocolError> {
    LaunchBundleFaithful();
    var bundle :- DecodeCanonical(LaunchBundleCodec(), input);
    var policyEnvelope :- InComponent("signed_policy", DecodeEnvelope(bundle.signedPolicy));
    var grantEnvelope :- InComponent("signed_launch_grant", DecodeEnvelope(bundle.signedLaunchGrant));
    var manifestEnvelope :- InComponent("signed_build_manifest", DecodeEnvelope(bundle.signedBuildManifest));
    var policy :- InComponent("policy_claims", VerifyPolicy(v.crypto, policyEnvelope, v.keys, now));
    var grant :- InComponent("launch_grant_claims", VerifyLaunchGrant(v.crypto, grantEnvelope, v.keys, now));
    var manifest :- InComponent("build_manifest_claims", VerifyBuildManifest(v.crypto, manifestEnvelope, v.keys, now));
    Ok(Parts(bundle, policy, grant, manifest))
  }

  function VerifyLaunchBundle(v: Verifier, input: bytes, now: int64): Result<BoundLaunch, ProtocolError> {
    var parts :- VerifyParts(v, input, now);
    Bind(v, parts)
  }

  function Bind(v: Verifier, parts: Parts): Result<BoundLaunch, ProtocolError> {
    var Parts(bundle, policy, grant, manifest) := parts;
    var manifestDigest := v.crypto.hash(bundle.signedBuildManifest);
    if !v.semver.parses(policy.minimumAgentVersion) then Err(InvalidField("minimum_agent_version"))
    else if !v.semver.parses(v.agentVersion) then Err(InvalidField("current_agent_version"))
    else if grant.agentPublicKey != v.agentPublicKey
       || grant.buildId != v.buildId
       || policy.tenantId != grant.tenantId
       || policy.gameId != grant.gameId
       || policy.environmentId != grant.environmentId
       || grant.policyDigest != v.crypto.hash(bundle.signedPolicy)
       || grant.buildManifestDigest != manifestDigest
       || manifest.tenantId != grant.tenantId
       || manifest.gameId != grant.gameId
       || manifest.environmentId != grant.environmentId
       || manifest.buildId != grant.buildId
    then Err(InvalidField("launch_binding"))
    else if v.semver.older(v.agentVersion, policy.minimumAgentVersion) then
      Err(InvalidField("agent_update_required"))
    else
      Ok(BoundLaunch(
        grant.grantId, grant.tenantId, grant.gameId, grant.environmentId, grant.playerSubject, grant.matchId,
        grant.buildId, grant.authoritativeServerId, manifest, manifestDigest, policy.heartbeatSeconds,
        policy.reportSeconds, policy.disconnectGraceSeconds, policy.expiresAtUnix, grant.expiresAtUnix))
  }

  lemma {:induction false} PartsOf(v: Verifier, input: bytes, now: int64)
    requires VerifyParts(v, input, now).Ok?
    ensures
      var p := VerifyParts(v, input, now).value;
      && Faithful(LaunchBundleCodec())
      && DecodeCanonical(LaunchBundleCodec(), input) == Ok(p.bundle)
      && DecodeEnvelope(p.bundle.signedPolicy).Ok?
      && DecodeEnvelope(p.bundle.signedLaunchGrant).Ok?
      && DecodeEnvelope(p.bundle.signedBuildManifest).Ok?
      && VerifyPolicy(v.crypto, DecodeEnvelope(p.bundle.signedPolicy).value, v.keys, now) == Ok(p.policy)
      && VerifyLaunchGrant(v.crypto, DecodeEnvelope(p.bundle.signedLaunchGrant).value, v.keys, now) == Ok(p.grant)
      && VerifyBuildManifest(v.crypto, DecodeEnvelope(p.bundle.signedBuildManifest).value, v.keys, now) == Ok(p.manifest)
  {
    hide DecodeCanonical, DecodeEnvelope, VerifyPolicy, VerifyLaunchGrant, VerifyBuildManifest;
    LaunchBundleFaithful();
  }

  lemma {:induction false} VerifiedGrant(c: Crypto, e: Envelope, keys: seq<VerificationKey>, now: int64)
    requires VerifyLaunchGrant(c, e, keys, now).Ok?
    ensures Faithful(LaunchGrantClaimsCodec())
    ensures DecodeCanonical(LaunchGrantClaimsCodec(), e.claims) == VerifyLaunchGrant(c, e, keys, now)
    ensures ValidateLaunchGrant(VerifyLaunchGrant(c, e, keys, now).value, now).Ok?
  {
    hide DecodeCanonical, ValidateLaunchGrant, Resolve, VerifySignedBytes;
    LaunchGrantClaimsFaithful();
  }

  lemma {:induction false} BoundParts(v: Verifier, p: Parts)
    requires Bind(v, p).Ok?
    ensures
      && p.grant.policyDigest == v.crypto.hash(p.bundle.signedPolicy)
      && p.grant.buildManifestDigest == v.crypto.hash(p.bundle.signedBuildManifest)
      && p.grant.agentPublicKey == v.agentPublicKey
      && p.grant.buildId == p.manifest.buildId == v.buildId
      && p.policy.tenantId == p.grant.tenantId == p.manifest.tenantId
      && p.policy.gameId == p.grant.gameId == p.manifest.gameId
      && p.policy.environmentId == p.grant.environmentId == p.manifest.environmentId
      && !v.semver.older(v.agentVersion, p.policy.minimumAgentVersion)
  {
  }

  /** Two accepted launch bundles that carry the same signed grant are the same octet string, or
      they exhibit a hash collision. They may be verified at different times by differently
      configured verifiers, as long as those share the hash function. */
  lemma {:induction false} GrantDeterminesBundle(
      v: Verifier, input: bytes, now: int64, v': Verifier, input': bytes, now': int64)
    requires v.crypto.hash == v'.crypto.hash
    requires VerifyLaunchBundle(v, input, now).Ok? && VerifyLaunchBundle(v', input', now').Ok?
    requires VerifyParts(v, input, now).value.bundle.signedLaunchGrant ==
             VerifyParts(v', input', now').value.bundle.signedLaunchGrant
    ensures
      var b, b' := VerifyParts(v, input, now).value.bundle, VerifyParts(v', input', now').value.bundle;
      input == input'
      || Collision(v.crypto.hash, b.signedPolicy, b'.signedPolicy)
      || Collision(v.crypto.hash, b.signedBuildManifest, b'.signedBuildManifest)
  {
    hide Bind, VerifyParts, DecodeCanonical, DecodeEnvelope, VerifyLaunchGrant;
    var p, p' := VerifyParts(v, input, now).value, VerifyParts(v', input', now').value;
    PartsOf(v, input, now);
    PartsOf(v', input', now');
    VerifiedGrant(v.crypto, DecodeEnvelope(p.bundle.signedLaunchGrant).value, v.keys, now);
    VerifiedGrant(v'.crypto, DecodeEnvelope(p'.bundle.signedLaunchGrant).value, v'.keys, now');
    assert p.grant == p'.grant;
    BoundParts(v, p);
    BoundParts(v', p');
    if p.bundle.signedPolicy == p'.bundle.signedPolicy
       && p.bundle.signedBuildManifest == p'.bundle.signedBuildManifest
    {
      assert p.bundle == p'.bundle;
      OneEncodingPerMessage(LaunchBundleCodec(), input, input');
    }
  }

  /** What a launch that passed verification is known to satisfy. */
  ghost predicate Bounded(l: BoundLaunch, now: int64) {
    && Identifier(l.sessionId)
    && Identifier(l.buildId)
    && 5 <= l.heartbeatSeconds <= 300
    && 15 <= l.reportSeconds <= 3600
    && l.heartbeatSeconds <= l.reportSeconds
    && l.disconnectGraceSeconds <= 300
    && now < l.policyExpiresAtUnix
    && now < l.grantExpiresAtUnix
  }

  lemma {:induction false} VerifiedPolicy(c: Crypto, e: Envelope, keys: seq<VerificationKey>, now: int64)
    requires VerifyPolicy(c, e, keys, now).Ok?
    ensures ValidatePolicy(VerifyPolicy(c, e, keys, now).value, now).Ok?
  {
    hide DecodeCanonical, ValidatePolicy, Resolve, VerifySignedBytes;
    PolicyClaimsFaithful();
  }

  lemma {:induction false} VerifiedManifest(c: Crypto, e: Envelope, keys: seq<VerificationKey>, now: int64)
    requires VerifyBuildManifest(c, e, keys, now).Ok?
    ensures ValidateBuildManifest(VerifyBuildManifest(c, e, keys, now).value, now).Ok?
  {
    hide DecodeCanonical, ValidateBuildManifest, Resolve, VerifySignedBytes;
    ManifestClaimsFaithful();
  }

  /** An accepted bundle names one tenant, game, environment and build throughout, is granted to the
      expected key, and stays within the timing limits of its policy. */
  lemma {:induction false} AcceptedBundleIsBound(v: Verifier, input: bytes, now: int64)
    requires VerifyLaunchBundle(v, input, now).Ok?
    ensures
      var l := VerifyLaunchBundle(v, input, now).value;
      && Bounded(l, now)
      && l.buildId == v.buildId == l.buildManifest.buildId
      && l.tenantId == l.buildManifest.tenantId
      && l.gameId == l.buildManifest.gameId
      && l.environmentId == l.buildManifest.environmentId
      && ManifestFilesValid(l.buildManifest.files) && l.buildManifest.files != []
      && VerifyParts(v, input, now).value.grant.agentPublicKey == v.agentPublicKey
      && !v.semver.older(v.agentVersion, VerifyParts(v, input, now).value.policy.minimumAgentVersion)
  {
    hide VerifyParts, DecodeCanonical, DecodeEnvelope, VerifyPolicy, VerifyLaunchGrant, VerifyBuildManifest,
      ManifestFilesValid;
    var p := VerifyParts(v, input, now).value;
    PartsOf(v, input, now);
    VerifiedPolicy(v.crypto, DecodeEnvelope(p.bundle.signedPolicy).value, v.keys, now);
    VerifiedGrant(v.crypto, DecodeEnvelope(p.bundle.signedLaunchGrant).value, v.keys, now);
    VerifiedManifest(v.crypto, DecodeEnvelope(p.bundle.signedBuildManifest).value, v.keys, now);
    BoundParts(v, p);
  }

  /** The envelope carries a signature over its claims, for this kind of object, by a key of the ring
      that is usable now under the name the envelope gives. */
  ghost predicate SignedAs(c: Crypto, keys: seq<VerificationKey>, d: Domain, e: Envelope, now: int64) {
    exists key :: Resolve(keys, e.keyId, now) == Ok(key) && c.verify(key, DomainBytes(d) + e.claims, e.signature)
  }

  lemma {:induction false} AcceptedSignature(
      c: Crypto, keys: seq<VerificationKey>, d: Domain, e: Envelope, now: int64, key: bytes)
    requires Resolve(keys, e.keyId, now) == Ok(key) && VerifySignedBytes(c, d, e.claims, e.signature, key).Ok?
    ensures SignedAs(c, keys, d, e, now)
  {
    hide DomainBytes, Resolve;
    assert c.verify(key, DomainBytes(d) + e.claims, e.signature);
  }

  lemma {:induction false} PolicyIsSigned(c: Crypto, e: Envelope, keys: seq<VerificationKey>, now: int64)
    requires VerifyPolicy(c, e, keys, now).Ok?
    ensures SignedAs(c, keys, PolicyDomain, e, now)
  {
    hide DecodeCanonical, ValidatePolicy, Resolve, VerifySignedBytes, SignedAs;
    AcceptedSignature(c, keys, PolicyDomain, e, now, Resolve(keys, e.keyId, now).value);
  }

  lemma {:induction false} GrantIsSigned(c: Crypto, e: Envelope, keys: seq<VerificationKey>, now: int64)
    requires VerifyLaunchGrant(c, e, keys, now).Ok?
    ensures SignedAs(c, keys, LaunchDomain, e, now)
  {
    hide DecodeCanonical, ValidateLaunchGrant, Resolve, VerifySignedBytes, SignedAs;
    AcceptedSignature(c, keys, LaunchDomain, e, now, Resolve(keys, e.keyId, now).value);
  }

  lemma {:induction false} ManifestIsSigned(c: Crypto, e: Envelope, keys: seq<VerificationKey>, now: int64)
    requires VerifyBuildManifest(c, e, keys, now).Ok?
    ensures SignedAs(c, keys, BuildManifestDomain, e, now)
  {
    hide DecodeCanonical, ValidateBuildManifest, Resolve, VerifySignedBytes, SignedAs;
    AcceptedSignature(c, keys, BuildManifestDomain, e, now, Resolve(keys, e.keyId, now).value);
  }

  /** A revocation that verifies is signed as one and current, and lives at most five minutes, unless its
      lifetime does not fit in 63 bits. */
  lemma {:induction false} RevocationIsSigned(c: Crypto, e: Envelope, keys: seq<VerificationKey>, now: int64)
    requires VerifyRevocation(c, e, keys, now).Ok?
    ensures SignedAs(c, keys, RevocationDomain, e, now)
    ensures Faithful(RevocationClaimsCodec())
    ensures DecodeCanonical(RevocationClaimsCodec(), e.claims) == VerifyRevocation(c, e, keys, now)
    ensures
      var r := VerifyRevocation(c, e, keys, now).value;
      && r.revokedAtUnix <= now + 30 && now < r.expiresAtUnix
      && (r.expiresAtUnix - r.revokedAtUnix <= 300 <==> r.expiresAtUnix - r.revokedAtUnix < 0x8000_0000_0000_0000)
  {
    hide DecodeCanonical, Resolve, VerifySignedBytes, SignedAs, Identifier;
    RevocationClaimsFaithful();
    AcceptedSignature(c, keys, RevocationDomain, e, now, Resolve(keys, e.keyId, now).value);
  }

  /** Each part of an accepted bundle was signed as what it is used for, by a key usable then. */
  lemma {:induction false} AcceptedBundleIsSigned(v: Verifier, input: bytes, now: int64)
    requires VerifyLaunchBundle(v, input, now).Ok?
    ensures
      var b := VerifyParts(v, input, now).value.bundle;
      && DecodeEnvelope(b.signedPolicy).Ok?
      && SignedAs(v.crypto, v.keys, PolicyDomain, DecodeEnvelope(b.signedPolicy).value, now)
      && DecodeEnvelope(b.signedLaunchGrant).Ok?
      && SignedAs(v.crypto, v.keys, LaunchDomain, DecodeEnvelope(b.signedLaunchGrant).value, now)
      && DecodeEnvelope(b.signedBuildManifest).Ok?
      && SignedAs(v.crypto, v.keys, BuildManifestDomain, DecodeEnvelope(b.signedBuildManifest).value, now)
  {
    hide VerifyParts, DecodeCanonical, DecodeEnvelope, VerifyPolicy, VerifyLaunchGrant, VerifyBuildManifest, SignedAs,
      Bind;
    PartsOf(v, input, now);
    var b := VerifyParts(v, input, now).value.bundle;
    PolicyIsSigned(v.crypto, DecodeEnvelope(b.signedPolicy).value, v.keys, now);
    GrantIsSigned(v.crypto, DecodeEnvelope(b.signedLaunchGrant).value, v.keys, now);
    ManifestIsSigned(v.crypto, DecodeEnvelope(b.signedBuildManifest).value, v.keys, now);
  }

  // ---------------------------------------------------------------- challenges

  function DecodeChallenge(input: bytes, now: int64): Result<Challenge, ProtocolError> {
    ChallengeFaithful();
    var c :- DecodeCanonical(ChallengeCodec(), input);
    if !Identifier(c.agentSessionId)
       || |c.nonce| < 16
       || |c.nonce| > 256
       || c.expiresAtUnix <= now
       || c.expiresAtUnix > now + 120
    then Err(InvalidField("challenge"))
    else Ok(c)
  }
}
