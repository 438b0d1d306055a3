/** The fixed encodings that pin field numbers, field order and the omission of nothing but defaults,
    and the over-long varint that must be refused. */
module Vectors {
  import opened Bytes
  import opened Wire
  import opened Canonical
  import opened Messages
  import opened Evidence

  function GoldenPolicy(): PolicyClaims {
    PolicyClaims(1, AsciiText("competitive"), AsciiText("game"), AsciiText("prod"), 2, 15, 60, 30,
                 AsciiText("1.0.0"), 1_800_000_000, AsciiText("tenant"))
  }

  function Competitive(): bytes {
    [0x63, 0x6f, 0x6d, 0x70, 0x65, 0x74, 0x69, 0x74, 0x69, 0x76, 0x65]
  }

  function GoldenFirst(): bytes {
    [0x08, 0x01]
    + ([0x12, 0x0b] + Competitive())
    + ([0x1a, 0x04] + [0x67, 0x61, 0x6d, 0x65])
  }

  function GoldenMiddle(): bytes {
    ([0x22, 0x04] + [0x70, 0x72, 0x6f, 0x64])
    + [0x28, 0x02]
    + [0x30, 0x0f]
  }

  function GoldenLater(): bytes {
    [0x38, 0x3c]
    + [0x40, 0x1e]
    + ([0x4a, 0x05] + [0x31, 0x2e, 0x30, 0x2e, 0x30])
    + [0x50, 0x80, 0xa4, 0xa7, 0xda, 0x06]
    + ([0x5a, 0x06] + [0x74, 0x65, 0x6e, 0x61, 0x6e, 0x74])
  }

  function GoldenPolicyOctets(): bytes {
    GoldenFirst() + (GoldenMiddle() + GoldenLater())
  }

  lemma {:induction false} SmallNumberField(tag: nat, k: Kind, n: nat)
    requires 1 <= tag < 16 && IsNumber(k) && 0 < n < 128
    ensures EncodeField(tag, k, Number(n)) == [tag * 8, n]
  {
    assert EncodeVarint(tag * 8) == [tag * 8] && EncodeVarint(n) == [n];
  }

  lemma {:induction false} ShortTextField(tag: nat, b: bytes)
    requires 1 <= tag < 16 && 0 < |b| < 128
    ensures EncodeField(tag, Text, Octets(b)) == [tag * 8 + 2, |b|] + b
  {
    assert EncodeVarint(tag * 8 + 2) == [tag * 8 + 2] && EncodeVarint(|b|) == [|b|];
  }

  lemma {:induction false} TimeField()
    ensures EncodeField(10, Int64, Number(1_800_000_000)) == [0x50, 0x80, 0xa4, 0xa7, 0xda, 0x06]
  {
    assert EncodeVarint(80) == [0x50];
    assert EncodeVarint(6) == [6];
    assert EncodeVarint(858) == [0xda] + EncodeVarint(6);
    assert EncodeVarint(109_863) == [0xa7] + EncodeVarint(858);
    assert EncodeVarint(14_062_500) == [0xa4] + EncodeVarint(109_863);
    assert EncodeVarint(1_800_000_000) == [0x80] + EncodeVarint(14_062_500);
  }

  /** The fields of a policy from the seventh on. */
  function LaterFields(x: PolicyClaims): bytes {
    EncodeField(7, Uint32, Number(x.reportSeconds)) + EncodeField(8, Uint32, Number(x.disconnectGraceSeconds))
    + EncodeField(9, Text, Octets(x.minimumAgentVersion)) + EncodeField(10, Int64, Number(x.expiresAtUnix))
    + EncodeField(11, Text, Octets(x.tenantId))
  }

  lemma {:induction false} LaterPolicyFields(x: PolicyClaims)
    ensures EncodeFrom(POLICY_CLAIMS, PolicyClaimsTo(x), 6) == LaterFields(x)
  {
    var m := PolicyClaimsTo(x);
    var s := POLICY_CLAIMS;
    hide EncodeField;
    assert EncodeFrom(s, m, 11) == [];
    assert EncodeFrom(s, m, 10) == EncodeField(11, Text, Octets(x.tenantId)) + [];
    assert EncodeFrom(s, m, 9) == EncodeField(10, Int64, Number(x.expiresAtUnix)) + EncodeFrom(s, m, 10);
    assert EncodeFrom(s, m, 8) == EncodeField(9, Text, Octets(x.minimumAgentVersion)) + EncodeFrom(s, m, 9);
    assert EncodeFrom(s, m, 7) == EncodeField(8, Uint32, Number(x.disconnectGraceSeconds)) + EncodeFrom(s, m, 8);
    assert EncodeFrom(s, m, 6) == EncodeField(7, Uint32, Number(x.reportSeconds)) + EncodeFrom(s, m, 7);
  }

  function MiddleFields(x: PolicyClaims): bytes {
    EncodeField(4, Text, Octets(x.environmentId)) + EncodeField(5, Int32, Number(x.requirementMode))
    + EncodeField(6, Uint32, Number(x.heartbeatSeconds))
  }

  lemma {:induction false} MiddlePolicyFields(x: PolicyClaims)
    ensures EncodeFrom(POLICY_CLAIMS, PolicyClaimsTo(x), 3) == MiddleFields(x) + LaterFields(x)
  {
    var m := PolicyClaimsTo(x);
    var s := POLICY_CLAIMS;
    LaterPolicyFields(x);
    hide EncodeField, LaterFields;
    assert EncodeFrom(s, m, 5) == EncodeField(6, Uint32, Number(x.heartbeatSeconds)) + EncodeFrom(s, m, 6);
    assert EncodeFrom(s, m, 4) == EncodeField(5, Int32, Number(x.requirementMode)) + EncodeFrom(s, m, 5);
    assert EncodeFrom(s, m, 3) == EncodeField(4, Text, Octets(x.environmentId)) + EncodeFrom(s, m, 4);
  }

  function FirstFields(x: PolicyClaims): bytes {
    EncodeField(1, Uint32, Number(x.protocolVersion)) + EncodeField(2, Text, Octets(x.policyId))
    + EncodeField(3, Text, Octets(x.gameId))
  }

  lemma {:induction false} FirstPolicyFields(x: PolicyClaims)
    ensures EncodeFrom(POLICY_CLAIMS, PolicyClaimsTo(x), 0) ==
            FirstFields(x) + EncodeFrom(POLICY_CLAIMS, PolicyClaimsTo(x), 3)
  {
    var m := PolicyClaimsTo(x);
    var s := POLICY_CLAIMS;
    hide EncodeField;
    assert EncodeFrom(s, m, 2) == EncodeField(3, Text, Octets(x.gameId)) + EncodeFrom(s, m, 3);
    assert EncodeFrom(s, m, 1) == EncodeField(2, Text, Octets(x.policyId)) + EncodeFrom(s, m, 2);
    assert EncodeFrom(s, m, 0) == EncodeField(1, Uint32, Number(x.protocolVersion)) + EncodeFrom(s, m, 1);
  }

  lemma {:induction false} PolicyFields(x: PolicyClaims)
    ensures EncodeToVec(PolicyClaimsCodec(), x) == FirstFields(x) + (MiddleFields(x) + LaterFields(x))
  {
    FirstPolicyFields(x);
    MiddlePolicyFields(x);
    hide EncodeField, EncodeFrom, FirstFields, MiddleFields, LaterFields;
  }

  lemma {:induction false} Spelled(s: string, b: bytes)
    requires |s| == |b| && forall i :: 0 <= i < |s| ==> s[i] as int == b[i] < 128
    ensures AsciiText(s) == b
  {
    hide ValidUtf8;
  }

  lemma {:induction false} GoldenTexts()
    ensures AsciiText("competitive") == Competitive()
    ensures AsciiText("game") == [0x67, 0x61, 0x6d, 0x65]
    ensures AsciiText("prod") == [0x70, 0x72, 0x6f, 0x64]
    ensures AsciiText("1.0.0") == [0x31, 0x2e, 0x30, 0x2e, 0x30]
    ensures AsciiText("tenant") == [0x74, 0x65, 0x6e, 0x61, 0x6e, 0x74]
  {
    hide AsciiText, ValidUtf8;
    Spelled("competitive", Competitive());
    Spelled("game", [0x67, 0x61, 0x6d, 0x65]);
    Spelled("prod", [0x70, 0x72, 0x6f, 0x64]);
    Spelled("1.0.0", [0x31, 0x2e, 0x30, 0x2e, 0x30]);
    Spelled("tenant", [0x74, 0x65, 0x6e, 0x61, 0x6e, 0x74]);
  }

  lemma {:induction false} CompetitiveLength()
    ensures |Competitive()| == 11
  {
  }

  lemma {:induction false} GoldenFirstFields()
    ensures FirstFields(GoldenPolicy()) == GoldenFirst()
  {
    var x := GoldenPolicy();
    hide EncodeField, EncodeVarint, AsciiText, ValidUtf8, Competitive;
    GoldenTexts();
    CompetitiveLength();
    SmallNumberField(1, Uint32, 1);
    ShortTextField(2, x.policyId);
    ShortTextField(3, x.gameId);
  }

  lemma {:induction false} GoldenMiddleFields()
    ensures MiddleFields(GoldenPolicy()) == GoldenMiddle()
  {
    hide EncodeField, EncodeVarint, AsciiText, ValidUtf8;
    GoldenTexts();
    ShortTextField(4, GoldenPolicy().environmentId);
    SmallNumberField(5, Int32, 2);
    SmallNumberField(6, Uint32, 15);
  }

  lemma {:induction false} GoldenLaterFields()
    ensures LaterFields(GoldenPolicy()) == GoldenLater()
  {
    var x := GoldenPolicy();
    hide EncodeField, EncodeVarint, AsciiText, ValidUtf8;
    GoldenTexts();
    SmallNumberField(7, Uint32, 60);
    SmallNumberField(8, Uint32, 30);
    ShortTextField(9, x.minimumAgentVersion);
    TimeField();
    ShortTextField(11, x.tenantId);
  }

  lemma {:induction false} GoldenFields()
    ensures EncodeToVec(PolicyClaimsCodec(), GoldenPolicy()) == GoldenPolicyOctets()
  {
    hide EncodeToVec, FirstFields, MiddleFields, LaterFields, GoldenFirst, GoldenMiddle, GoldenLater, GoldenPolicy;
    PolicyFields(GoldenPolicy());
    GoldenFirstFields();
    GoldenMiddleFields();
    GoldenLaterFields();
  }

  /** The golden policy has exactly the pinned encoding, and is what that decodes to. */
  lemma {:induction false} GoldenPolicyEncoding()
    ensures Faithful(PolicyClaimsCodec())
    ensures EncodeToVec(PolicyClaimsCodec(), GoldenPolicy()) == GoldenPolicyOctets()
    ensures DecodeCanonical(PolicyClaimsCodec(), GoldenPolicyOctets()) == Ok(GoldenPolicy())
  {
    PolicyClaimsFaithful();
    GoldenFields();
    hide EncodeToVec, DecodeCanonical, GoldenPolicy;
    AcceptsExactlyEncodings(PolicyClaimsCodec(), GoldenPolicyOctets(), GoldenPolicy());
  }

  /** Field 1 written as an over-long varint is read, but refused as not canonical. */
  lemma {:induction false} OverlongClaimsAreRefused()
    ensures Faithful(PolicyClaimsCodec())
    ensures DecodeCanonical(PolicyClaimsCodec(), [0x08, 0x81, 0x00]) == Err(NonCanonical)
  {
    PolicyClaimsFaithful();
    var m := Store(POLICY_CLAIMS, Default(POLICY_CLAIMS), 0, Number(1));
    MergeOverlongFirst(m);
    StartsWithMinimalVarint(m);
    hide EncodeToVec, Decode, Default, Store;
  }

  lemma {:induction false} StartsWithMinimalVarint(m: Message)
    requires WellTyped(POLICY_CLAIMS, m) && m.values[0] == Number(1)
    ensures EncodeToVec(PolicyClaimsCodec(), PolicyClaimsFrom(m)) != [0x08, 0x81, 0x00]
  {
    var x := PolicyClaimsFrom(m);
    assert x.protocolVersion == 1;
    hide EncodeField, EncodeToVec;
    PolicyFields(x);
    SmallNumberField(1, Uint32, 1);
    assert EncodeToVec(PolicyClaimsCodec(), x)[1] == EncodeField(1, Uint32, Number(1))[1];
  }

  lemma {:induction false} OverlongOne()
    ensures Key(1, 0) == [0x08]
    ensures MergeField(Uint32, 0, Number(0), [0x81, 0x00]) == Some((Number(1), []))
  {
    assert OverlongVarint(1) == [0x81, 0x00];
    assert Capacity(1) > 1;
    OverlongIsRead(1, 0);
  }

  lemma {:induction false} MergeOverlongFirst(m: Message)
    requires m == Store(POLICY_CLAIMS, Default(POLICY_CLAIMS), 0, Number(1))
    ensures Decode(POLICY_CLAIMS, [0x08, 0x81, 0x00]) == Some(m)
  {
    hide Key, MergeField, ReadVarint, ReadKey, Skip, Store, Default;
    assert Sound(POLICY_CLAIMS);
    OverlongOne();
    var rest: bytes := [0x81, 0x00];
    assert [0x08, 0x81, 0x00] == [0x08] + rest;
    MergeKnown(POLICY_CLAIMS, 0, 0, rest, Default(POLICY_CLAIMS));
  }
}
