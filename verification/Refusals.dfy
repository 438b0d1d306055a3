/** How verification refuses: which error each refused object gets, when several things are wrong with it. */
module Refusals {
  import opened Bytes
  import opened Canonical
  import opened Messages
  import opened Protocol
  import opened Reports
  import opened Acceptance

  // ---------------------------------------------------------------- signed claims

  /** Faults are looked for in this order: in the encoding, in the claims, with the key, in the signature. */
  function InOrder<T>(
      claims: Result<T, ProtocolError>, valid: Result<(), ProtocolError>, usable: bool, signed: bool)
    : Result<T, ProtocolError>
  {
    if claims.Err? then claims
    else if valid.Err? then Err(valid.error)
    else if !usable then Err(UnknownKey)
    else if !signed then Err(InvalidSignature)
    else claims
  }

  lemma {:induction false} SignatureRefusals(
      c: Crypto, keys: seq<VerificationKey>, d: Domain, domain: string, e: Envelope, now: int64)
    requires DomainBytes(d) == Ascii(domain) + [0]
    ensures Resolve(keys, e.keyId, now).Err? ==> Resolve(keys, e.keyId, now).error == UnknownKey
    ensures Resolve(keys, e.keyId, now).Ok? ==>
              VerifySignedBytes(c, d, e.claims, e.signature, Resolve(keys, e.keyId, now).value) ==
                if Vouched(c, keys, domain, e, now) then Ok(()) else Err(InvalidSignature)
  {
    SignatureDecides(c, keys, d, domain, e, now);
    ResolveRefusal(keys, e.keyId, now);
    hide Resolve, DomainBytes, Ascii, Vouched;
  }

  lemma {:induction false} ResolveRefusal(keys: seq<VerificationKey>, keyId: text, now: int64)
    ensures Resolve(keys, keyId, now).Err? ==> Resolve(keys, keyId, now).error == UnknownKey
    decreases |keys|
  {
    if keys != [] {
      ResolveRefusal(keys[1..], keyId, now);
    }
  }

  lemma {:induction false} PolicyRefusals(c: Crypto, e: Envelope, keys: seq<VerificationKey>, now: int64)
    ensures Faithful(PolicyClaimsCodec())
    ensures
      var claims := DecodeCanonical(PolicyClaimsCodec(), e.claims);
      VerifyPolicy(c, e, keys, now) ==
        InOrder(claims, if claims.Ok? then ValidatePolicy(claims.value, now) else Ok(()),
                Resolve(keys, e.keyId, now).Ok?, Vouched(c, keys, "certael.agent.policy.v1", e, now))
  {
    hide DecodeCanonical, Resolve, VerifySignedBytes, ValidatePolicy, Vouched, DomainBytes, Faithful, Ascii;
    PolicyClaimsFaithful();
    DomainStrings();
    SignatureRefusals(c, keys, PolicyDomain, "certael.agent.policy.v1", e, now);
  }

  lemma {:induction false} GrantRefusals(c: Crypto, e: Envelope, keys: seq<VerificationKey>, now: int64)
    ensures Faithful(LaunchGrantClaimsCodec())
    ensures
      var claims := DecodeCanonical(LaunchGrantClaimsCodec(), e.claims);
      VerifyLaunchGrant(c, e, keys, now) ==
        InOrder(claims, if claims.Ok? then ValidateLaunchGrant(claims.value, now) else Ok(()),
                Resolve(keys, e.keyId, now).Ok?, Vouched(c, keys, "certael.agent.launch.v1", e, now))
  {
    hide DecodeCanonical, Resolve, VerifySignedBytes, ValidateLaunchGrant, Vouched, DomainBytes, Faithful, Ascii;
    LaunchGrantClaimsFaithful();
    DomainStrings();
    SignatureRefusals(c, keys, LaunchDomain, "certael.agent.launch.v1", e, now);
  }

  lemma {:induction false} ManifestRefusals(c: Crypto, e: Envelope, keys: seq<VerificationKey>, now: int64)
    ensures Faithful(ManifestClaimsCodec())
    ensures
      var claims := DecodeCanonical(ManifestClaimsCodec(), e.claims);
      VerifyBuildManifest(c, e, keys, now) ==
        InOrder(claims, if claims.Ok? then ValidateBuildManifest(claims.value, now) else Ok(()),
                Resolve(keys, e.keyId, now).Ok?, Vouched(c, keys, "certael.agent.build-manifest.v1", e, now))
  {
    hide DecodeCanonical, Resolve, VerifySignedBytes, ValidateBuildManifest, Vouched, DomainBytes, Faithful, Ascii;
    ManifestClaimsFaithful();
    DomainStrings();
    SignatureRefusals(c, keys, BuildManifestDomain, "certael.agent.build-manifest.v1", e, now);
  }

  lemma {:induction false} RevocationRefusals(c: Crypto, e: Envelope, keys: seq<VerificationKey>, now: int64)
    ensures Faithful(RevocationClaimsCodec())
    ensures
      var claims := DecodeCanonical(RevocationClaimsCodec(), e.claims);
      VerifyRevocation(c, e, keys, now) ==
        InOrder(claims, if claims.Ok? && !GoodRevocation(claims.value, now) then Err(InvalidField("revocation")) else Ok(()),
                Resolve(keys, e.keyId, now).Ok?, Vouched(c, keys, "certael.agent.revocation.v1", e, now))
  {
    hide DecodeCanonical, Resolve, VerifySignedBytes, Identifier, Vouched, DomainBytes, Faithful, Ascii;
    RevocationClaimsFaithful();
    DomainStrings();
    SignatureRefusals(c, keys, RevocationDomain, "certael.agent.revocation.v1", e, now);
  }

  // ---------------------------------------------------------------- launch bundles

  /** The component of a bundle that is blamed, and why: first the envelopes in their order, then the claims. */
  predicate Blames<T>(r: Result<T, ProtocolError>, component: string, source: ProtocolError) {
    r == Err(LaunchBundleComponent(component, source))
  }

  lemma {:induction false} BundleRefusals(v: Verifier, input: bytes, now: int64)
    ensures Faithful(LaunchBundleCodec())
    ensures
      var bundle := DecodeCanonical(LaunchBundleCodec(), input);
      var r := VerifyParts(v, input, now);
      if bundle.Err? then r == Err(bundle.error)
      else
        var p := DecodeEnvelope(bundle.value.signedPolicy);
        var g := DecodeEnvelope(bundle.value.signedLaunchGrant);
        var m := DecodeEnvelope(bundle.value.signedBuildManifest);
        if p.Err? then Blames(r, "signed_policy", p.error)
        else if g.Err? then Blames(r, "signed_launch_grant", g.error)
        else if m.Err? then Blames(r, "signed_build_manifest", m.error)
        else
          var policy := VerifyPolicy(v.crypto, p.value, v.keys, now);
          var grant := VerifyLaunchGrant(v.crypto, g.value, v.keys, now);
          var manifest := VerifyBuildManifest(v.crypto, m.value, v.keys, now);
          if policy.Err? then Blames(r, "policy_claims", policy.error)
          else if grant.Err? then Blames(r, "launch_grant_claims", grant.error)
          else if manifest.Err? then Blames(r, "build_manifest_claims", manifest.error)
          else r == Ok(Parts(bundle.value, policy.value, grant.value, manifest.value))
  {
    hide DecodeCanonical, DecodeEnvelope, VerifyPolicy, VerifyLaunchGrant, VerifyBuildManifest, Faithful;
    LaunchBundleFaithful();
  }

  /** Parts that verify are refused for a version that cannot be read, for not belonging together, or for the
      agent's age, in this order. */
  lemma {:induction false} BindingRefusals(v: Verifier, p: Parts)
    ensures Bind(v, p).Err? ==>
              Bind(v, p).error ==
                InvalidField(if !v.semver.parses(p.policy.minimumAgentVersion) then "minimum_agent_version"
                             else if !v.semver.parses(v.agentVersion) then "current_agent_version"
                             else if !Agree(v, p) then "launch_binding" else "agent_update_required")
  {
  }

  // ---------------------------------------------------------------- challenges and reports

  /** A challenge is refused for its encoding, or else for what it asks. */
  lemma {:induction false} ChallengeRefusals(input: bytes, now: int64)
    ensures Faithful(ChallengeCodec())
    ensures
      var c := DecodeCanonical(ChallengeCodec(), input);
      DecodeChallenge(input, now) ==
        if c.Err? then c
        else if Identifier(c.value.agentSessionId) && 16 <= |c.value.nonce| <= 256
                && now < c.value.expiresAtUnix <= now + 120 then c
        else Err(InvalidField("challenge"))
  {
    hide DecodeCanonical, Identifier, Faithful;
    ChallengeFaithful();
  }

  /** The first field of a report that is not as it should be is the one that is named. */
  lemma {:induction false} FieldRefusals(r: Report)
    ensures ValidateReport(r).Err? ==>
              ValidateReport(r).error ==
                InvalidField(if r.protocolVersion != 1 then "protocol_version"
                             else if !(1 <= |r.agentSessionId| <= 128) then "agent_session_id"
                             else if r.sequence == 0 then "sequence"
                             else if !(16 <= |r.challengeNonce| <= 256) then "challenge_nonce"
                             else if !(1 <= |r.buildId| <= 128) then "build_id"
                             else if |r.executableSha256| != 32 then "executable_sha256"
                             else if |r.previousReportDigest| !in {0, 32} then "previous_report_digest"
                             else "observations")
  {
  }

  /** A report is refused, when it is signed and when it is verified, for a field first, then for its length;
      a received one for the length of its signature before, and for a wrong signature at last. */
  lemma {:induction false} ReportRefusals(c: Crypto, key: bytes, r: Report)
    ensures
      var unsigned := r.(signature := []);
      SignReport(c, key, r) ==
        if ValidateReport(unsigned).Err? then Err(ValidateReport(unsigned).error)
        else if |EncodeReport(unsigned)| > 65536 then Err(TooLarge)
        else
          Ok(r.(signature := c.sign(key, Ascii("certael.agent.report.v1") + [0] + EncodeReport(unsigned))))
    ensures VerifyReport(c, key, r).Err? ==>
              VerifyReport(c, key, r).error ==
                if ValidateReport(r).Err? then ValidateReport(r).error
                else if |r.signature| != 64 then InvalidSignature
                else if |EncodeReport(r.(signature := []))| > 65536 then TooLarge
                else InvalidSignature
  {
    DomainStrings();
    hide EncodeReport, ValidateReport, DomainBytes, Ascii;
  }
}
