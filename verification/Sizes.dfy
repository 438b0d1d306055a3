/** How many octets encoded fields and reports take. */
module Sizes {
  import opened Bytes
  import opened Wire
  import opened Canonical
  import opened Messages
  import opened Protocol
  import opened Reports

  function Power128(k: nat): nat {
    if k == 0 then 1 else 128 * Power128(k - 1)
  }

  lemma {:induction false} VarintLength(n: nat, k: nat)
    requires k >= 1 && n < Power128(k)
    ensures |EncodeVarint(n)| <= k
    decreases k
  {
    if n >= 128 {
      assert k > 1 by {
        assert Power128(1) == 128;
      }
      VarintLength(n / 128, k - 1);
    }
  }

  lemma {:induction false} U64BelowPower()
    ensures U64 < Power128(10)
  {
    assert Power128(2) == 16384;
    assert Power128(4) == 16384 * Power128(2);
    assert Power128(6) == 16384 * Power128(4);
    assert Power128(8) == 16384 * Power128(6);
    assert Power128(10) == 16384 * Power128(8);
  }

  lemma {:induction false} NumberFieldSize(tag: nat, k: Kind, n: int)
    requires 1 <= tag < 16 && IsNumber(k) && HasKind(k, Number(n))
    ensures |EncodeField(tag, k, Number(n))| <= 11
  {
    BitsRoundTrip(k, n);
    U64BelowPower();
    VarintLength(ToBits(n), 10);
    assert Power128(1) == 128;
    VarintLength(tag * 8, 1);
  }

  lemma {:induction false} DelimitedSize(tag: nat, b: bytes)
    requires 1 <= tag < 16 && |b| < 16384
    ensures |Delimited(tag, b)| <= |b| + 3
    ensures |b| < 128 ==> |Delimited(tag, b)| <= |b| + 2
  {
    assert Power128(1) == 128 && Power128(2) == 16384;
    VarintLength(|b|, if |b| < 128 then 1 else 2);
    VarintLength(tag * 8 + 2, 1);
  }

  lemma {:induction false} OctetsFieldSize(tag: nat, k: Kind, b: bytes)
    requires 1 <= tag < 16 && (k.Text? || k.Blob?) && |b| < 16384
    ensures |EncodeField(tag, k, Octets(b))| <= |b| + 3
    ensures |b| < 128 ==> |EncodeField(tag, k, Octets(b))| <= |b| + 2
    ensures |EncodeField(tag, k, Octets(b))| >= |b|
  {
    DelimitedSize(tag, b);
  }

  function EncodedObservations(obs: seq<Observation>): bytes {
    DelimitedAll(8, EncodeEach(OBSERVATION, ObservationList(obs)))
  }

  /** The octets of a report are those of its ten fields. */
  lemma {:induction false} ReportFields(r: Report)
    ensures |EncodeReport(r)| ==
      |EncodeField(1, Uint32, Number(r.protocolVersion))| + |EncodeField(2, Text, Octets(r.agentSessionId))|
      + |EncodeField(3, Uint64, Number(r.sequence))| + |EncodeField(4, Blob, Octets(r.challengeNonce))|
      + |EncodeField(5, Int64, Number(r.observedAtUnix))| + |EncodeField(6, Text, Octets(r.buildId))|
      + |EncodeField(7, Blob, Octets(r.executableSha256))| + |EncodedObservations(r.observations)|
      + |EncodeField(9, Blob, Octets(r.previousReportDigest))| + |EncodeField(10, Blob, Octets(r.signature))|
  {
    var m := ReportTo(r);
    assert EncodeField(8, MessageList(OBSERVATION), Messages(ObservationList(r.observations))) ==
           EncodedObservations(r.observations);
    hide EncodeField;
    assert EncodeFrom(REPORT, m, 10) == [];
    assert |EncodeFrom(REPORT, m, 9)| == |EncodeField(10, Blob, Octets(r.signature))|;
    assert |EncodeFrom(REPORT, m, 8)| == |EncodeField(9, Blob, Octets(r.previousReportDigest))| + |EncodeFrom(REPORT, m, 9)|;
    assert |EncodeFrom(REPORT, m, 7)| ==
      |EncodeField(8, MessageList(OBSERVATION), Messages(ObservationList(r.observations)))| + |EncodeFrom(REPORT, m, 8)|;
    assert |EncodeFrom(REPORT, m, 6)| == |EncodeField(7, Blob, Octets(r.executableSha256))| + |EncodeFrom(REPORT, m, 7)|;
    assert |EncodeFrom(REPORT, m, 5)| == |EncodeField(6, Text, Octets(r.buildId))| + |EncodeFrom(REPORT, m, 6)|;
    assert |EncodeFrom(REPORT, m, 4)| == |EncodeField(5, Int64, Number(r.observedAtUnix))| + |EncodeFrom(REPORT, m, 5)|;
    assert |EncodeFrom(REPORT, m, 3)| == |EncodeField(4, Blob, Octets(r.challengeNonce))| + |EncodeFrom(REPORT, m, 4)|;
    assert |EncodeFrom(REPORT, m, 2)| == |EncodeField(3, Uint64, Number(r.sequence))| + |EncodeFrom(REPORT, m, 3)|;
    assert |EncodeFrom(REPORT, m, 1)| == |EncodeField(2, Text, Octets(r.agentSessionId))| + |EncodeFrom(REPORT, m, 2)|;
    assert |EncodeFrom(REPORT, m, 0)| == |EncodeField(1, Uint32, Number(r.protocolVersion))| + |EncodeFrom(REPORT, m, 1)|;
  }

  // ---------------------------------------------------------------- exact sizes

  function VarintOctets(n: nat): nat {
    if n < 128 then 1 else 1 + VarintOctets(n / 128)
  }

  /** The length of a field that holds `n` octets, and is left out if that is none. */
  function OctetsLength(n: nat): nat {
    if n == 0 then 0 else 1 + VarintOctets(n) + n
  }

  function NumberLength(n: int): nat
    requires -U64 <= n
  {
    if n == 0 then 0 else 1 + VarintOctets(ToBits(n))
  }

  function ObservationLength(o: Observation): nat {
    OctetsLength(|o.code|) + OctetsLength(|o.value|)
  }

  function EvidenceLength(obs: seq<Observation>): nat {
    if obs == [] then 0
    else 1 + VarintOctets(ObservationLength(obs[0])) + ObservationLength(obs[0]) + EvidenceLength(obs[1..])
  }

  /** The length of an encoded report, from the lengths of its texts and octets and the size of its
      numbers. */
  function ReportLength(r: Report): nat {
    NumberLength(r.protocolVersion) + OctetsLength(|r.agentSessionId|) + NumberLength(r.sequence)
    + OctetsLength(|r.challengeNonce|) + NumberLength(r.observedAtUnix) + OctetsLength(|r.buildId|)
    + OctetsLength(|r.executableSha256|) + EvidenceLength(r.observations)
    + OctetsLength(|r.previousReportDigest|) + OctetsLength(|r.signature|)
  }

  lemma {:induction false} VarintOctetsExact(n: nat)
    ensures |EncodeVarint(n)| == VarintOctets(n)
    decreases n
  {
    if n >= 128 {
      VarintOctetsExact(n / 128);
    }
  }

  lemma {:induction false} OctetsFieldLength(tag: nat, k: Kind, b: bytes)
    requires 1 <= tag < 16 && (k.Text? || k.Blob?)
    ensures |EncodeField(tag, k, Octets(b))| == OctetsLength(|b|)
  {
    VarintOctetsExact(|b|);
    VarintOctetsExact(tag * 8 + 2);
  }

  lemma {:induction false} NumberFieldLength(tag: nat, k: Kind, n: int)
    requires 1 <= tag < 16 && IsNumber(k) && HasKind(k, Number(n))
    ensures -U64 <= n && |EncodeField(tag, k, Number(n))| == NumberLength(n)
  {
    BitsRoundTrip(k, n);
    VarintOctetsExact(ToBits(n));
    VarintOctetsExact(tag * 8);
  }

  lemma {:induction false} ObservationLengthIsExact(o: Observation)
    ensures |Encode(OBSERVATION, ObservationTo(o))| == ObservationLength(o)
  {
    var m := ObservationTo(o);
    OctetsFieldLength(1, Text, o.code);
    OctetsFieldLength(2, Text, o.value);
    hide EncodeField;
    assert EncodeFrom(OBSERVATION, m, 2) == [];
    assert |EncodeFrom(OBSERVATION, m, 1)| == |EncodeField(2, Text, Octets(o.value))|;
    assert |EncodeFrom(OBSERVATION, m, 0)| == |EncodeField(1, Text, Octets(o.code))| + |EncodeFrom(OBSERVATION, m, 1)|;
  }

  /** An encoded list of observations, one by one. */
  lemma {:induction false} FirstObservation(obs: seq<Observation>)
    requires obs != []
    ensures EncodedObservations(obs) ==
            Delimited(8, Encode(OBSERVATION, ObservationTo(obs[0]))) + EncodedObservations(obs[1..])
  {
    var ms, first := ObservationList(obs), Encode(OBSERVATION, ObservationTo(obs[0]));
    assert ms[1..] == ObservationList(obs[1..]);
    assert EncodeEach(OBSERVATION, ms) == [first] + EncodeEach(OBSERVATION, ms[1..]);
    assert EncodeEach(OBSERVATION, ms)[1..] == EncodeEach(OBSERVATION, ms[1..]);
  }

  lemma {:induction false} EvidenceLengthIsExact(obs: seq<Observation>)
    ensures |EncodedObservations(obs)| == EvidenceLength(obs)
    decreases |obs|
  {
    if obs != [] {
      FirstObservation(obs);
      ObservationLengthIsExact(obs[0]);
      VarintOctetsExact(ObservationLength(obs[0]));
      VarintOctetsExact(8 * 8 + 2);
      EvidenceLengthIsExact(obs[1..]);
    }
  }

  /** An encoded report has exactly that length. */
  lemma {:induction false} ReportLengthIsExact(r: Report)
    ensures |EncodeReport(r)| == ReportLength(r)
  {
    ReportFields(r);
    NumberFieldLength(1, Uint32, r.protocolVersion);
    OctetsFieldLength(2, Text, r.agentSessionId);
    NumberFieldLength(3, Uint64, r.sequence);
    OctetsFieldLength(4, Blob, r.challengeNonce);
    NumberFieldLength(5, Int64, r.observedAtUnix);
    OctetsFieldLength(6, Text, r.buildId);
    OctetsFieldLength(7, Blob, r.executableSha256);
    EvidenceLengthIsExact(r.observations);
    OctetsFieldLength(9, Blob, r.previousReportDigest);
    OctetsFieldLength(10, Blob, r.signature);
    hide EncodeReport, EncodeField, EncodedObservations;
  }

  /** A report is signed exactly if it is valid and takes at most 64 KiB before it is signed; then its
      signature adds 66 octets. */
  lemma {:induction false} SignedIffSmall(c: Crypto, key: bytes, r: Report)
    ensures SignReport(c, key, r).Ok? <==>
              ValidateReport(Unsigned(r)).Ok? && ReportLength(Unsigned(r)) <= MAX_MESSAGE_BYTES
    ensures ValidateReport(Unsigned(r)).Ok? && ReportLength(Unsigned(r)) > MAX_MESSAGE_BYTES ==>
              SignReport(c, key, r) == Err(TooLarge)
    ensures SignReport(c, key, r).Ok? ==>
              |EncodeReport(SignReport(c, key, r).value)| == ReportLength(Unsigned(r)) + 66
  {
    hide EncodeReport, ValidateReport, DomainBytes, EvidenceLength, NumberLength;
    ReportLengthIsExact(Unsigned(r));
    if SignReport(c, key, r).Ok? {
      ReportLengthIsExact(SignReport(c, key, r).value);
    }
  }

  // ---------------------------------------------------------------- bounds

  /** A signature adds at most 66 octets to a report. */
  lemma {:induction false} SignatureSize(r: Report)
    requires |r.signature| <= 64
    ensures |EncodeReport(r)| <= |EncodeReport(Unsigned(r))| + 66
  {
    hide EncodeReport, EncodedObservations, EncodeField;
    ReportFields(r);
    ReportFields(Unsigned(r));
    OctetsFieldSize(10, Blob, r.signature);
  }

  /** A challenge takes its text and nonce and at most 17 octets more. */
  lemma {:induction false} ChallengeSize(c: Challenge)
    requires |c.agentSessionId| <= 128 && |c.nonce| <= 256
    ensures |EncodeToVec(ChallengeCodec(), c)| <= 401
    ensures c.nonce != [] ==> EncodeToVec(ChallengeCodec(), c) != []
  {
    var m := ChallengeTo(c);
    OctetsFieldSize(1, Text, c.agentSessionId);
    OctetsFieldSize(2, Blob, c.nonce);
    NumberFieldSize(3, Int64, c.expiresAtUnix);
    hide EncodeField;
    assert EncodeFrom(CHALLENGE, m, 3) == [];
    assert |EncodeFrom(CHALLENGE, m, 2)| == |EncodeField(3, Int64, Number(c.expiresAtUnix))|;
    assert |EncodeFrom(CHALLENGE, m, 1)| == |EncodeField(2, Blob, Octets(c.nonce))| + |EncodeFrom(CHALLENGE, m, 2)|;
    assert |EncodeFrom(CHALLENGE, m, 0)| == |EncodeField(1, Text, Octets(c.agentSessionId))| + |EncodeFrom(CHALLENGE, m, 1)|;
  }

  lemma {:induction false} OneReasonSize(reasons: seq<text>)
    requires |reasons| <= 1 && forall r <- reasons :: |r| <= 64
    ensures |EncodeField(4, TextList, OctetsList(reasons))| <= 67
  {
    var bs: seq<bytes> := reasons;
    if bs != [] {
      DelimitedSize(4, bs[0]);
      assert bs[0] in reasons && bs[1..] == [];
      assert DelimitedAll(4, bs) == Delimited(4, bs[0]) + DelimitedAll(4, []);
    }
  }

  /** A health message with at most one reason is short. */
  lemma {:induction false} HealthSize(h: Health)
    requires |h.agentSessionId| <= 128 && |h.state| <= 64
    requires |h.publicReasons| <= 1 && forall r <- h.publicReasons :: |r| <= 64
    ensures |EncodeToVec(HealthCodec(), h)| <= 276
  {
    var m := HealthTo(h);
    OctetsFieldSize(1, Text, h.agentSessionId);
    OctetsFieldSize(2, Text, h.state);
    NumberFieldSize(3, Int64, h.lastReportAtUnix);
    OneReasonSize(h.publicReasons);
    hide EncodeField;
    assert EncodeFrom(HEALTH, m, 4) == [];
    assert |EncodeFrom(HEALTH, m, 3)| <= 67;
    assert |EncodeFrom(HEALTH, m, 2)| <= 78;
    assert |EncodeFrom(HEALTH, m, 1)| <= 145;
    assert |EncodeFrom(HEALTH, m, 0)| <= 276;
  }

  lemma {:induction false} RevocationSize(r: RevocationClaims)
    requires |r.tenantId| <= 128 && |r.gameId| <= 128 && |r.environmentId| <= 128
    requires |r.agentSessionId| <= 128 && 0 < |r.reason| <= 128
    ensures 0 < |EncodeToVec(RevocationClaimsCodec(), r)| <= 688
  {
    var m := RevocationClaimsTo(r);
    NumberFieldSize(1, Uint32, r.protocolVersion);
    OctetsFieldSize(2, Text, r.tenantId);
    OctetsFieldSize(3, Text, r.gameId);
    OctetsFieldSize(4, Text, r.environmentId);
    OctetsFieldSize(5, Text, r.agentSessionId);
    OctetsFieldSize(6, Text, r.reason);
    NumberFieldSize(7, Int64, r.revokedAtUnix);
    NumberFieldSize(8, Int64, r.expiresAtUnix);
    hide EncodeField;
    assert EncodeFrom(REVOCATION_CLAIMS, m, 8) == [];
    assert |EncodeFrom(REVOCATION_CLAIMS, m, 7)| <= 11;
    assert |EncodeFrom(REVOCATION_CLAIMS, m, 6)| <= 22;
    assert |r.reason| <= |EncodeFrom(REVOCATION_CLAIMS, m, 5)| <= 153;
    assert |r.reason| <= |EncodeFrom(REVOCATION_CLAIMS, m, 4)| <= 284;
    assert |r.reason| <= |EncodeFrom(REVOCATION_CLAIMS, m, 3)| <= 415;
    assert |r.reason| <= |EncodeFrom(REVOCATION_CLAIMS, m, 2)| <= 546;
    assert |r.reason| <= |EncodeFrom(REVOCATION_CLAIMS, m, 1)| <= 677;
    assert |r.reason| <= |EncodeFrom(REVOCATION_CLAIMS, m, 0)| <= 688;
  }

  /** A revocation that outlives five minutes and is accepted: anyone who can sign may stretch its
      lifetime to 2^63 seconds around the present. */
  lemma {:induction false} LongRevocationIsAccepted(
      c: Crypto, secret: bytes, keys: seq<VerificationKey>, keyId: text, r: RevocationClaims, now: int64)
    requires Correct(c) && Resolve(keys, keyId, now) == Ok(c.publicKey(secret))
    requires -0x4000_0000_0000_0000 <= now < 0x4000_0000_0000_0000
    requires r.protocolVersion == PROTOCOL_VERSION
    requires Identifier(r.tenantId) && Identifier(r.gameId) && Identifier(r.environmentId)
    requires Identifier(r.agentSessionId) && Identifier(r.reason)
    requires r.revokedAtUnix == -0x4000_0000_0000_0000 && r.expiresAtUnix == 0x4000_0000_0000_0000
    ensures
      var claims := EncodeToVec(RevocationClaimsCodec(), r);
      var e := Envelope(claims, c.sign(secret, DomainBytes(RevocationDomain) + claims), keyId);
      VerifyRevocation(c, e, keys, now) == Ok(r) && r.expiresAtUnix - r.revokedAtUnix > 300
  {
    hide DecodeCanonical, EncodeToVec, Resolve, DomainBytes;
    RevocationClaimsFaithful();
    DecodesWhatWasEncoded(RevocationClaimsCodec(), r);
    RevocationSize(r);
    hide Identifier, Faithful, RevocationClaimsCodec;
  }
}
