/** The layout of every message: which octets stand for which field, for all values. A message is its
    fields one after the other; a field begins with its key, which is its number and its wire type
    (section "Message Structure" of the Protocol Buffers Encoding specification), and a field that has
    its default value is left out. */
module Layouts {
  import opened Bytes
  import opened Wire
  import opened Canonical
  import opened Messages

  /** A text or octets: the key, how many octets, and the octets. */
  function OctetsField(key: bytes, b: bytes): bytes {
    if b == [] then [] else key + EncodeVarint(|b|) + b
  }

  /** A number: the key, and the number as a varint; a negative one counts from 2^64. */
  function NumberField(key: bytes, n: int): bytes
    requires -0x8000_0000_0000_0000 <= n
  {
    if n == 0 then [] else key + EncodeVarint(if n < 0 then n + 0x1_0000_0000_0000_0000 else n)
  }

  /** The entries of a list, each like a field of its own, and written even if it is empty. */
  function ListField(key: bytes, entries: seq<bytes>): bytes {
    if entries == [] then [] else key + EncodeVarint(|entries[0]|) + entries[0] + ListField(key, entries[1..])
  }

  lemma {:induction false} OctetsWritten(tag: nat, k: Kind, b: bytes, key: bytes)
    requires (k.Text? || k.Blob?) && key == Key(tag, 2)
    ensures EncodeField(tag, k, Octets(b)) == OctetsField(key, b)
  {
  }

  lemma {:induction false} NumberWritten(tag: nat, k: Kind, n: int, key: bytes)
    requires IsNumber(k) && HasKind(k, Number(n)) && key == Key(tag, 0)
    ensures -0x8000_0000_0000_0000 <= n && EncodeField(tag, k, Number(n)) == NumberField(key, n)
  {
  }

  lemma {:induction false} ListWritten(tag: nat, entries: seq<bytes>, key: bytes)
    requires key == Key(tag, 2)
    ensures DelimitedAll(tag, entries) == ListField(key, entries)
  {
    if entries != [] {
      ListWritten(tag, entries[1..], key);
    }
  }

  lemma {:induction false} KeyOctets(tag: nat)
    requires 1 <= tag <= 16
    ensures tag < 16 ==> Key(tag, 0) == [8 * tag] && Key(tag, 2) == [8 * tag + 2]
    ensures tag == 16 ==> Key(tag, 0) == [0x80, 0x01] && Key(tag, 2) == [0x82, 0x01]
  {
    if tag == 16 {
      assert EncodeVarint(1) == [1];
    }
  }

  /** The octets of a message are those of its fields. */
  lemma {:induction false} FieldsAreJoined(s: Schema, m: Message, fields: seq<bytes>, i: nat)
    requires |fields| == |s.kinds| == |m.values| && i <= |fields|
    requires forall j :: 0 <= j < |fields| ==> fields[j] == EncodeField(j + 1, s.kinds[j], m.values[j])
    ensures EncodeFrom(s, m, i) == Joined(fields[i..])
    decreases |fields| - i
  {
    hide EncodeField;
    if i < |fields| {
      FieldsAreJoined(s, m, fields, i + 1);
      assert fields[i..][0] == fields[i] && fields[i..][1..] == fields[i + 1..];
    }
  }

  lemma {:induction false} MessageIsJoined(s: Schema, m: Message, fields: seq<bytes>)
    requires |fields| == |s.kinds| == |m.values|
    requires forall j :: 0 <= j < |fields| ==> fields[j] == EncodeField(j + 1, s.kinds[j], m.values[j])
    ensures Encode(s, m) == Joined(fields)
  {
    FieldsAreJoined(s, m, fields, 0);
    assert fields[0..] == fields;
  }

  // ---------------------------------------------------------------- nested messages

  function FileWritten(x: ProtectedFile): bytes {
    Joined([OctetsField([0x0A], x.path), NumberField([0x10], x.size), OctetsField([0x1A], x.sha256)])
  }

  function FilesWritten(xs: seq<ProtectedFile>): (r: seq<bytes>)
    ensures |r| == |xs| && forall i :: 0 <= i < |xs| ==> r[i] == FileWritten(xs[i])
  {
    seq(|xs|, i requires 0 <= i < |xs| => FileWritten(xs[i]))
  }

  function ObservationWritten(x: Observation): bytes {
    Joined([OctetsField([0x0A], x.code), OctetsField([0x12], x.value)])
  }

  function ObservationsWritten(xs: seq<Observation>): (r: seq<bytes>)
    ensures |r| == |xs| && forall i :: 0 <= i < |xs| ==> r[i] == ObservationWritten(xs[i])
  {
    seq(|xs|, i requires 0 <= i < |xs| => ObservationWritten(xs[i]))
  }

  lemma {:induction false} FileLayout(x: ProtectedFile)
    ensures Encode(PROTECTED_FILE, ProtectedFileTo(x)) == FileWritten(x)
  {
    KeyOctets(1);
    KeyOctets(2);
    KeyOctets(3);
    OctetsWritten(1, Text, x.path, [0x0A]);
    NumberWritten(2, Uint64, x.size, [0x10]);
    OctetsWritten(3, Blob, x.sha256, [0x1A]);
    hide EncodeField, OctetsField, NumberField;
    MessageIsJoined(PROTECTED_FILE, ProtectedFileTo(x),
                    [OctetsField([0x0A], x.path), NumberField([0x10], x.size), OctetsField([0x1A], x.sha256)]);
  }

  lemma {:induction false} ObservationLayout(x: Observation)
    ensures Encode(OBSERVATION, ObservationTo(x)) == ObservationWritten(x)
  {
    KeyOctets(1);
    KeyOctets(2);
    OctetsWritten(1, Text, x.code, [0x0A]);
    OctetsWritten(2, Text, x.value, [0x12]);
    hide EncodeField, OctetsField;
    MessageIsJoined(OBSERVATION, ObservationTo(x), [OctetsField([0x0A], x.code), OctetsField([0x12], x.value)]);
  }

  lemma {:induction false} EachWritten(s: Schema, ms: seq<Message>, written: seq<bytes>)
    requires |written| == |ms| && forall i :: 0 <= i < |ms| ==> Encode(s, ms[i]) == written[i]
    ensures EncodeEach(s, ms) == written
    decreases |ms|
  {
    hide Encode;
    if ms != [] {
      EachWritten(s, ms[1..], written[1..]);
      assert written == [written[0]] + written[1..];
    }
  }

  lemma {:induction false} FilesLayout(tag: nat, xs: seq<ProtectedFile>, key: bytes)
    requires key == Key(tag, 2)
    ensures EncodeField(tag, MessageList(PROTECTED_FILE), Messages(ProtectedFileList(xs))) == ListField(key, FilesWritten(xs))
  {
    hide Encode, FileWritten;
    forall i | 0 <= i < |xs| ensures Encode(PROTECTED_FILE, ProtectedFileList(xs)[i]) == FilesWritten(xs)[i] {
      FileLayout(xs[i]);
    }
    EachWritten(PROTECTED_FILE, ProtectedFileList(xs), FilesWritten(xs));
    ListWritten(tag, FilesWritten(xs), key);
  }

  lemma {:induction false} ObservationsLayout(tag: nat, xs: seq<Observation>, key: bytes)
    requires key == Key(tag, 2)
    ensures EncodeField(tag, MessageList(OBSERVATION), Messages(ObservationList(xs))) == ListField(key, ObservationsWritten(xs))
  {
    hide Encode, ObservationWritten;
    forall i | 0 <= i < |xs| ensures Encode(OBSERVATION, ObservationList(xs)[i]) == ObservationsWritten(xs)[i] {
      ObservationLayout(xs[i]);
    }
    EachWritten(OBSERVATION, ObservationList(xs), ObservationsWritten(xs));
    ListWritten(tag, ObservationsWritten(xs), key);
  }

  // ---------------------------------------------------------------- messages

  function EnvelopeFields(x: Envelope): (fields: seq<bytes>)
    ensures |fields| == 3
  {
    [ OctetsField([0x0A], x.claims), OctetsField([0x12], x.signature), OctetsField([0x1A], x.keyId) ]
  }

  lemma {:induction false} EnvelopeValues(x: Envelope)
    ensures ENVELOPE.kinds == [Blob, Blob, Text]
    ensures EnvelopeTo(x).values == [Octets(x.claims), Octets(x.signature), Octets(x.keyId)]
  {
  }

  lemma {:induction false} EnvelopeLayout(x: Envelope)
    ensures EncodeToVec(EnvelopeCodec(), x) == Joined(EnvelopeFields(x))
  {
    EnvelopeValues(x);
    hide Key, EncodeField, OctetsField, NumberField, ListField, EnvelopeTo;
    KeyOctets(1);
    OctetsWritten(1, Blob, x.claims, [0x0A]);
    KeyOctets(2);
    OctetsWritten(2, Blob, x.signature, [0x12]);
    KeyOctets(3);
    OctetsWritten(3, Text, x.keyId, [0x1A]);
    MessageIsJoined(ENVELOPE, EnvelopeTo(x), EnvelopeFields(x));
  }

  function LaunchBundleFields(x: LaunchBundle): (fields: seq<bytes>)
    ensures |fields| == 3
  {
    [ OctetsField([0x0A], x.signedPolicy), OctetsField([0x12], x.signedLaunchGrant),
      OctetsField([0x1A], x.signedBuildManifest) ]
  }

  lemma {:induction false} LaunchBundleValues(x: LaunchBundle)
    ensures LAUNCH_BUNDLE.kinds == [Blob, Blob, Blob]
    ensures LaunchBundleTo(x).values == [Octets(x.signedPolicy), Octets(x.signedLaunchGrant),
        Octets(x.signedBuildManifest)]
  {
  }

  lemma {:induction false} LaunchBundleLayout(x: LaunchBundle)
    ensures EncodeToVec(LaunchBundleCodec(), x) == Joined(LaunchBundleFields(x))
  {
    LaunchBundleValues(x);
    hide Key, EncodeField, OctetsField, NumberField, ListField, LaunchBundleTo;
    KeyOctets(1);
    OctetsWritten(1, Blob, x.signedPolicy, [0x0A]);
    KeyOctets(2);
    OctetsWritten(2, Blob, x.signedLaunchGrant, [0x12]);
    KeyOctets(3);
    OctetsWritten(3, Blob, x.signedBuildManifest, [0x1A]);
    MessageIsJoined(LAUNCH_BUNDLE, LaunchBundleTo(x), LaunchBundleFields(x));
  }

  function PolicyClaimsFields(x: PolicyClaims): (fields: seq<bytes>)
    ensures |fields| == 11
  {
    [ NumberField([0x08], x.protocolVersion), OctetsField([0x12], x.policyId), OctetsField([0x1A], x.gameId),
      OctetsField([0x22], x.environmentId), NumberField([0x28], x.requirementMode),
      NumberField([0x30], x.heartbeatSeconds), NumberField([0x38], x.reportSeconds),
      NumberField([0x40], x.disconnectGraceSeconds), OctetsField([0x4A], x.minimumAgentVersion),
      NumberField([0x50], x.expiresAtUnix), OctetsField([0x5A], x.tenantId) ]
  }

  lemma {:induction false} PolicyClaimsValues(x: PolicyClaims)
    ensures POLICY_CLAIMS.kinds == [Uint32, Text, Text, Text, Int32, Uint32, Uint32, Uint32, Text, Int64, Text]
    ensures PolicyClaimsTo(x).values == [Number(x.protocolVersion), Octets(x.policyId), Octets(x.gameId),
        Octets(x.environmentId), Number(x.requirementMode), Number(x.heartbeatSeconds), Number(x.reportSeconds),
        Number(x.disconnectGraceSeconds), Octets(x.minimumAgentVersion), Number(x.expiresAtUnix),
        Octets(x.tenantId)]
  {
  }

  lemma {:induction false} FirstPolicyClaimsFields(x: PolicyClaims)
    ensures |POLICY_CLAIMS.kinds| == |PolicyClaimsTo(x).values| == 11
    ensures forall j :: 0 <= j < 5 ==>
              PolicyClaimsFields(x)[j] == EncodeField(j + 1, POLICY_CLAIMS.kinds[j], PolicyClaimsTo(x).values[j])
  {
    PolicyClaimsValues(x);
    hide Key, EncodeField, OctetsField, NumberField, ListField, PolicyClaimsTo;
    KeyOctets(1);
    NumberWritten(1, Uint32, x.protocolVersion, [0x08]);
    KeyOctets(2);
    OctetsWritten(2, Text, x.policyId, [0x12]);
    KeyOctets(3);
    OctetsWritten(3, Text, x.gameId, [0x1A]);
    KeyOctets(4);
    OctetsWritten(4, Text, x.environmentId, [0x22]);
    KeyOctets(5);
    NumberWritten(5, Int32, x.requirementMode, [0x28]);
  }

  lemma {:induction false} LaterPolicyClaimsFields(x: PolicyClaims)
    ensures |POLICY_CLAIMS.kinds| == |PolicyClaimsTo(x).values| == 11
    ensures forall j :: 5 <= j < 11 ==>
              PolicyClaimsFields(x)[j] == EncodeField(j + 1, POLICY_CLAIMS.kinds[j], PolicyClaimsTo(x).values[j])
  {
    PolicyClaimsValues(x);
    hide Key, EncodeField, OctetsField, NumberField, ListField, PolicyClaimsTo;
    KeyOctets(6);
    NumberWritten(6, Uint32, x.heartbeatSeconds, [0x30]);
    KeyOctets(7);
    NumberWritten(7, Uint32, x.reportSeconds, [0x38]);
    KeyOctets(8);
    NumberWritten(8, Uint32, x.disconnectGraceSeconds, [0x40]);
    KeyOctets(9);
    OctetsWritten(9, Text, x.minimumAgentVersion, [0x4A]);
    KeyOctets(10);
    NumberWritten(10, Int64, x.expiresAtUnix, [0x50]);
    KeyOctets(11);
    OctetsWritten(11, Text, x.tenantId, [0x5A]);
  }

  lemma {:induction false} PolicyClaimsLayout(x: PolicyClaims)
    ensures EncodeToVec(PolicyClaimsCodec(), x) == Joined(PolicyClaimsFields(x))
  {
    hide EncodeField, PolicyClaimsFields, PolicyClaimsTo;
    FirstPolicyClaimsFields(x);
    LaterPolicyClaimsFields(x);
    MessageIsJoined(POLICY_CLAIMS, PolicyClaimsTo(x), PolicyClaimsFields(x));
  }

  function LaunchGrantClaimsFields(x: LaunchGrantClaims): (fields: seq<bytes>)
    ensures |fields| == 14
  {
    [ NumberField([0x08], x.protocolVersion), OctetsField([0x12], x.grantId), OctetsField([0x1A], x.tenantId),
      OctetsField([0x22], x.gameId), OctetsField([0x2A], x.environmentId), OctetsField([0x32], x.playerSubject),
      OctetsField([0x3A], x.matchId), OctetsField([0x42], x.buildId), OctetsField([0x4A], x.agentPublicKey),
      NumberField([0x50], x.issuedAtUnix), NumberField([0x58], x.expiresAtUnix),
      OctetsField([0x62], x.policyDigest), OctetsField([0x6A], x.authoritativeServerId),
      OctetsField([0x72], x.buildManifestDigest) ]
  }

  lemma {:induction false} LaunchGrantClaimsValues(x: LaunchGrantClaims)
    ensures LAUNCH_GRANT_CLAIMS.kinds == [Uint32, Text, Text, Text, Text, Text, Text, Text, Blob, Int64, Int64,
        Blob, Text, Blob]
    ensures LaunchGrantClaimsTo(x).values == [Number(x.protocolVersion), Octets(x.grantId), Octets(x.tenantId),
        Octets(x.gameId), Octets(x.environmentId), Octets(x.playerSubject), Octets(x.matchId), Octets(x.buildId),
        Octets(x.agentPublicKey), Number(x.issuedAtUnix), Number(x.expiresAtUnix), Octets(x.policyDigest),
        Octets(x.authoritativeServerId), Octets(x.buildManifestDigest)]
  {
  }

  lemma {:induction false} FirstLaunchGrantClaimsFields(x: LaunchGrantClaims)
    ensures |LAUNCH_GRANT_CLAIMS.kinds| == |LaunchGrantClaimsTo(x).values| == 14
    ensures forall j :: 0 <= j < 5 ==>
              LaunchGrantClaimsFields(x)[j] == EncodeField(j + 1, LAUNCH_GRANT_CLAIMS.kinds[j], LaunchGrantClaimsTo(x).values[j])
  {
    LaunchGrantClaimsValues(x);
    hide Key, EncodeField, OctetsField, NumberField, ListField, LaunchGrantClaimsTo;
    KeyOctets(1);
    NumberWritten(1, Uint32, x.protocolVersion, [0x08]);
    KeyOctets(2);
    OctetsWritten(2, Text, x.grantId, [0x12]);
    KeyOctets(3);
    OctetsWritten(3, Text, x.tenantId, [0x1A]);
    KeyOctets(4);
    OctetsWritten(4, Text, x.gameId, [0x22]);
    KeyOctets(5);
    OctetsWritten(5, Text, x.environmentId, [0x2A]);
  }

  lemma {:induction false} MiddleLaunchGrantClaimsFields(x: LaunchGrantClaims)
    ensures |LAUNCH_GRANT_CLAIMS.kinds| == |LaunchGrantClaimsTo(x).values| == 14
    ensures forall j :: 5 <= j < 10 ==>
              LaunchGrantClaimsFields(x)[j] == EncodeField(j + 1, LAUNCH_GRANT_CLAIMS.kinds[j], LaunchGrantClaimsTo(x).values[j])
  {
    LaunchGrantClaimsValues(x);
    hide Key, EncodeField, OctetsField, NumberField, ListField, LaunchGrantClaimsTo;
    KeyOctets(6);
    OctetsWritten(6, Text, x.playerSubject, [0x32]);
    KeyOctets(7);
    OctetsWritten(7, Text, x.matchId, [0x3A]);
    KeyOctets(8);
    OctetsWritten(8, Text, x.buildId, [0x42]);
    KeyOctets(9);
    OctetsWritten(9, Blob, x.agentPublicKey, [0x4A]);
    KeyOctets(10);
    NumberWritten(10, Int64, x.issuedAtUnix, [0x50]);
  }

  lemma {:induction false} LastLaunchGrantClaimsFields(x: LaunchGrantClaims)
    ensures |LAUNCH_GRANT_CLAIMS.kinds| == |LaunchGrantClaimsTo(x).values| == 14
    ensures forall j :: 10 <= j < 14 ==>
              LaunchGrantClaimsFields(x)[j] == EncodeField(j + 1, LAUNCH_GRANT_CLAIMS.kinds[j], LaunchGrantClaimsTo(x).values[j])
  {
    LaunchGrantClaimsValues(x);
    hide Key, EncodeField, OctetsField, NumberField, ListField, LaunchGrantClaimsTo;
    KeyOctets(11);
    NumberWritten(11, Int64, x.expiresAtUnix, [0x58]);
    KeyOctets(12);
    OctetsWritten(12, Blob, x.policyDigest, [0x62]);
    KeyOctets(13);
    OctetsWritten(13, Text, x.authoritativeServerId, [0x6A]);
    KeyOctets(14);
    OctetsWritten(14, Blob, x.buildManifestDigest, [0x72]);
  }

  lemma {:induction false} LaunchGrantClaimsLayout(x: LaunchGrantClaims)
    ensures EncodeToVec(LaunchGrantClaimsCodec(), x) == Joined(LaunchGrantClaimsFields(x))
  {
    hide EncodeField, LaunchGrantClaimsFields, LaunchGrantClaimsTo;
    FirstLaunchGrantClaimsFields(x);
    MiddleLaunchGrantClaimsFields(x);
    LastLaunchGrantClaimsFields(x);
    MessageIsJoined(LAUNCH_GRANT_CLAIMS, LaunchGrantClaimsTo(x), LaunchGrantClaimsFields(x));
  }

  function ManifestClaimsFields(x: ManifestClaims): (fields: seq<bytes>)
    ensures |fields| == 16
  {
    [ NumberField([0x08], x.protocolVersion), OctetsField([0x12], x.manifestId), OctetsField([0x1A], x.tenantId),
      OctetsField([0x22], x.gameId), OctetsField([0x2A], x.environmentId), OctetsField([0x32], x.buildId),
      ListField([0x3A], FilesWritten(x.files)), NumberField([0x40], x.notBeforeUnix),
      NumberField([0x48], x.expiresAtUnix), OctetsField([0x52], x.coreSdkVersion),
      OctetsField([0x5A], x.engineAdapter), OctetsField([0x62], x.engineAdapterVersion),
      NumberField([0x68], x.coreCAbiVersion), NumberField([0x70], x.actionProtocolVersion),
      NumberField([0x78], x.agentProtocolVersion), NumberField([0x80, 0x01], x.agentProbeAbiVersion) ]
  }

  lemma {:induction false} ManifestClaimsValues(x: ManifestClaims)
    ensures MANIFEST_CLAIMS.kinds == [Uint32, Text, Text, Text, Text, Text, MessageList(PROTECTED_FILE), Int64,
        Int64, Text, Text, Text, Uint32, Uint32, Uint32, Uint32]
    ensures ManifestClaimsTo(x).values == [Number(x.protocolVersion), Octets(x.manifestId), Octets(x.tenantId),
        Octets(x.gameId), Octets(x.environmentId), Octets(x.buildId), Messages(ProtectedFileList(x.files)),
        Number(x.notBeforeUnix), Number(x.expiresAtUnix), Octets(x.coreSdkVersion), Octets(x.engineAdapter),
        Octets(x.engineAdapterVersion), Number(x.coreCAbiVersion), Number(x.actionProtocolVersion),
        Number(x.agentProtocolVersion), Number(x.agentProbeAbiVersion)]
  {
  }

  lemma {:induction false} FirstManifestClaimsFields(x: ManifestClaims)
    ensures |MANIFEST_CLAIMS.kinds| == |ManifestClaimsTo(x).values| == 16
    ensures forall j :: 0 <= j < 5 ==>
              ManifestClaimsFields(x)[j] == EncodeField(j + 1, MANIFEST_CLAIMS.kinds[j], ManifestClaimsTo(x).values[j])
  {
    ManifestClaimsValues(x);
    hide Key, EncodeField, OctetsField, NumberField, ListField, ManifestClaimsTo;
    KeyOctets(1);
    NumberWritten(1, Uint32, x.protocolVersion, [0x08]);
    KeyOctets(2);
    OctetsWritten(2, Text, x.manifestId, [0x12]);
    KeyOctets(3);
    OctetsWritten(3, Text, x.tenantId, [0x1A]);
    KeyOctets(4);
    OctetsWritten(4, Text, x.gameId, [0x22]);
    KeyOctets(5);
    OctetsWritten(5, Text, x.environmentId, [0x2A]);
  }

  lemma {:induction false} MiddleManifestClaimsFields(x: ManifestClaims)
    ensures |MANIFEST_CLAIMS.kinds| == |ManifestClaimsTo(x).values| == 16
    ensures forall j :: 5 <= j < 10 ==>
              ManifestClaimsFields(x)[j] == EncodeField(j + 1, MANIFEST_CLAIMS.kinds[j], ManifestClaimsTo(x).values[j])
  {
    ManifestClaimsValues(x);
    hide Key, EncodeField, OctetsField, NumberField, ListField, ManifestClaimsTo;
    KeyOctets(6);
    OctetsWritten(6, Text, x.buildId, [0x32]);
    KeyOctets(7);
    FilesLayout(7, x.files, [0x3A]);
    KeyOctets(8);
    NumberWritten(8, Int64, x.notBeforeUnix, [0x40]);
    KeyOctets(9);
    NumberWritten(9, Int64, x.expiresAtUnix, [0x48]);
    KeyOctets(10);
    OctetsWritten(10, Text, x.coreSdkVersion, [0x52]);
  }

  lemma {:induction false} LastManifestClaimsFields(x: ManifestClaims)
    ensures |MANIFEST_CLAIMS.kinds| == |ManifestClaimsTo(x).values| == 16
    ensures forall j :: 10 <= j < 16 ==>
              ManifestClaimsFields(x)[j] == EncodeField(j + 1, MANIFEST_CLAIMS.kinds[j], ManifestClaimsTo(x).values[j])
  {
    ManifestClaimsValues(x);
    hide Key, EncodeField, OctetsField, NumberField, ListField, ManifestClaimsTo;
    KeyOctets(11);
    OctetsWritten(11, Text, x.engineAdapter, [0x5A]);
    KeyOctets(12);
    OctetsWritten(12, Text, x.engineAdapterVersion, [0x62]);
    KeyOctets(13);
    NumberWritten(13, Uint32, x.coreCAbiVersion, [0x68]);
    KeyOctets(14);
    NumberWritten(14, Uint32, x.actionProtocolVersion, [0x70]);
    KeyOctets(15);
    NumberWritten(15, Uint32, x.agentProtocolVersion, [0x78]);
    KeyOctets(16);
    NumberWritten(16, Uint32, x.agentProbeAbiVersion, [0x80, 0x01]);
  }

  lemma {:induction false} ManifestClaimsLayout(x: ManifestClaims)
    ensures EncodeToVec(ManifestClaimsCodec(), x) == Joined(ManifestClaimsFields(x))
  {
    hide EncodeField, ManifestClaimsFields, ManifestClaimsTo;
    FirstManifestClaimsFields(x);
    MiddleManifestClaimsFields(x);
    LastManifestClaimsFields(x);
    MessageIsJoined(MANIFEST_CLAIMS, ManifestClaimsTo(x), ManifestClaimsFields(x));
  }

  function ChallengeFields(x: Challenge): (fields: seq<bytes>)
    ensures |fields| == 3
  {
    [ OctetsField([0x0A], x.agentSessionId), OctetsField([0x12], x.nonce), NumberField([0x18], x.expiresAtUnix) ]
  }

  lemma {:induction false} ChallengeValues(x: Challenge)
    ensures CHALLENGE.kinds == [Text, Blob, Int64]
    ensures ChallengeTo(x).values == [Octets(x.agentSessionId), Octets(x.nonce), Number(x.expiresAtUnix)]
  {
  }

  lemma {:induction false} ChallengeLayout(x: Challenge)
    ensures EncodeToVec(ChallengeCodec(), x) == Joined(ChallengeFields(x))
  {
    ChallengeValues(x);
    hide Key, EncodeField, OctetsField, NumberField, ListField, ChallengeTo;
    KeyOctets(1);
    OctetsWritten(1, Text, x.agentSessionId, [0x0A]);
    KeyOctets(2);
    OctetsWritten(2, Blob, x.nonce, [0x12]);
    KeyOctets(3);
    NumberWritten(3, Int64, x.expiresAtUnix, [0x18]);
    MessageIsJoined(CHALLENGE, ChallengeTo(x), ChallengeFields(x));
  }

  function ReportFields(x: Report): (fields: seq<bytes>)
    ensures |fields| == 10
  {
    [ NumberField([0x08], x.protocolVersion), OctetsField([0x12], x.agentSessionId),
      NumberField([0x18], x.sequence), OctetsField([0x22], x.challengeNonce), NumberField([0x28], x.observedAtUnix),
      OctetsField([0x32], x.buildId), OctetsField([0x3A], x.executableSha256),
      ListField([0x42], ObservationsWritten(x.observations)), OctetsField([0x4A], x.previousReportDigest),
      OctetsField([0x52], x.signature) ]
  }

  lemma {:induction false} ReportValues(x: Report)
    ensures REPORT.kinds == [Uint32, Text, Uint64, Blob, Int64, Text, Blob, MessageList(OBSERVATION), Blob, Blob]
    ensures ReportTo(x).values == [Number(x.protocolVersion), Octets(x.agentSessionId), Number(x.sequence),
        Octets(x.challengeNonce), Number(x.observedAtUnix), Octets(x.buildId), Octets(x.executableSha256),
        Messages(ObservationList(x.observations)), Octets(x.previousReportDigest), Octets(x.signature)]
  {
  }

  lemma {:induction false} ReportLayout(x: Report)
    ensures EncodeToVec(ReportCodec(), x) == Joined(ReportFields(x))
  {
    ReportValues(x);
    hide Key, EncodeField, OctetsField, NumberField, ListField, ReportTo;
    KeyOctets(1);
    NumberWritten(1, Uint32, x.protocolVersion, [0x08]);
    KeyOctets(2);
    OctetsWritten(2, Text, x.agentSessionId, [0x12]);
    KeyOctets(3);
    NumberWritten(3, Uint64, x.sequence, [0x18]);
    KeyOctets(4);
    OctetsWritten(4, Blob, x.challengeNonce, [0x22]);
    KeyOctets(5);
    NumberWritten(5, Int64, x.observedAtUnix, [0x28]);
    KeyOctets(6);
    OctetsWritten(6, Text, x.buildId, [0x32]);
    KeyOctets(7);
    OctetsWritten(7, Blob, x.executableSha256, [0x3A]);
    KeyOctets(8);
    ObservationsLayout(8, x.observations, [0x42]);
    KeyOctets(9);
    OctetsWritten(9, Blob, x.previousReportDigest, [0x4A]);
    KeyOctets(10);
    OctetsWritten(10, Blob, x.signature, [0x52]);
    MessageIsJoined(REPORT, ReportTo(x), ReportFields(x));
  }

  function HealthFields(x: Health): (fields: seq<bytes>)
    ensures |fields| == 4
  {
    [ OctetsField([0x0A], x.agentSessionId), OctetsField([0x12], x.state), NumberField([0x18], x.lastReportAtUnix),
      ListField([0x22], x.publicReasons) ]
  }

  lemma {:induction false} HealthValues(x: Health)
    ensures HEALTH.kinds == [Text, Text, Int64, TextList]
    ensures HealthTo(x).values == [Octets(x.agentSessionId), Octets(x.state), Number(x.lastReportAtUnix),
        OctetsList(x.publicReasons)]
  {
  }

  lemma {:induction false} HealthLayout(x: Health)
    ensures EncodeToVec(HealthCodec(), x) == Joined(HealthFields(x))
  {
    HealthValues(x);
    hide Key, EncodeField, OctetsField, NumberField, ListField, HealthTo;
    KeyOctets(1);
    OctetsWritten(1, Text, x.agentSessionId, [0x0A]);
    KeyOctets(2);
    OctetsWritten(2, Text, x.state, [0x12]);
    KeyOctets(3);
    NumberWritten(3, Int64, x.lastReportAtUnix, [0x18]);
    KeyOctets(4);
    TextsWritten(4, x.publicReasons, [0x22]);
    MessageIsJoined(HEALTH, HealthTo(x), HealthFields(x));
  }

  function HelloFields(x: Hello): (fields: seq<bytes>)
    ensures |fields| == 5
  {
    [ NumberField([0x08], x.protocolVersion), OctetsField([0x12], x.agentVersion),
      OctetsField([0x1A], x.agentPublicKey), OctetsField([0x22], x.buildId),
      OctetsField([0x2A], x.executableSha256) ]
  }

  lemma {:induction false} HelloValues(x: Hello)
    ensures HELLO.kinds == [Uint32, Text, Blob, Text, Blob]
    ensures HelloTo(x).values == [Number(x.protocolVersion), Octets(x.agentVersion), Octets(x.agentPublicKey),
        Octets(x.buildId), Octets(x.executableSha256)]
  {
  }

  lemma {:induction false} HelloLayout(x: Hello)
    ensures EncodeToVec(HelloCodec(), x) == Joined(HelloFields(x))
  {
    HelloValues(x);
    hide Key, EncodeField, OctetsField, NumberField, ListField, HelloTo;
    KeyOctets(1);
    NumberWritten(1, Uint32, x.protocolVersion, [0x08]);
    KeyOctets(2);
    OctetsWritten(2, Text, x.agentVersion, [0x12]);
    KeyOctets(3);
    OctetsWritten(3, Blob, x.agentPublicKey, [0x1A]);
    KeyOctets(4);
    OctetsWritten(4, Text, x.buildId, [0x22]);
    KeyOctets(5);
    OctetsWritten(5, Blob, x.executableSha256, [0x2A]);
    MessageIsJoined(HELLO, HelloTo(x), HelloFields(x));
  }

  function RevocationClaimsFields(x: RevocationClaims): (fields: seq<bytes>)
    ensures |fields| == 8
  {
    [ NumberField([0x08], x.protocolVersion), OctetsField([0x12], x.tenantId), OctetsField([0x1A], x.gameId),
      OctetsField([0x22], x.environmentId), OctetsField([0x2A], x.agentSessionId), OctetsField([0x32], x.reason),
      NumberField([0x38], x.revokedAtUnix), NumberField([0x40], x.expiresAtUnix) ]
  }

  lemma {:induction false} RevocationClaimsValues(x: RevocationClaims)
    ensures REVOCATION_CLAIMS.kinds == [Uint32, Text, Text, Text, Text, Text, Int64, Int64]
    ensures RevocationClaimsTo(x).values == [Number(x.protocolVersion), Octets(x.tenantId), Octets(x.gameId),
        Octets(x.environmentId), Octets(x.agentSessionId), Octets(x.reason), Number(x.revokedAtUnix),
        Number(x.expiresAtUnix)]
  {
  }

  lemma {:induction false} RevocationClaimsLayout(x: RevocationClaims)
    ensures EncodeToVec(RevocationClaimsCodec(), x) == Joined(RevocationClaimsFields(x))
  {
    RevocationClaimsValues(x);
    hide Key, EncodeField, OctetsField, NumberField, ListField, RevocationClaimsTo;
    KeyOctets(1);
    NumberWritten(1, Uint32, x.protocolVersion, [0x08]);
    KeyOctets(2);
    OctetsWritten(2, Text, x.tenantId, [0x12]);
    KeyOctets(3);
    OctetsWritten(3, Text, x.gameId, [0x1A]);
    KeyOctets(4);
    OctetsWritten(4, Text, x.environmentId, [0x22]);
    KeyOctets(5);
    OctetsWritten(5, Text, x.agentSessionId, [0x2A]);
    KeyOctets(6);
    OctetsWritten(6, Text, x.reason, [0x32]);
    KeyOctets(7);
    NumberWritten(7, Int64, x.revokedAtUnix, [0x38]);
    KeyOctets(8);
    NumberWritten(8, Int64, x.expiresAtUnix, [0x40]);
    MessageIsJoined(REVOCATION_CLAIMS, RevocationClaimsTo(x), RevocationClaimsFields(x));
  }

  lemma {:induction false} TextsWritten(tag: nat, bs: seq<text>, key: bytes)
    requires key == Key(tag, 2)
    ensures EncodeField(tag, TextList, OctetsList(bs)) == ListField(key, bs)
  {
    ListWritten(tag, bs, key);
  }
}
