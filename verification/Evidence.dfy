/** The evidence of one report, as the session loop collects it, and how large the report it goes
    into can become. */
module Evidence {
  import opened Bytes
  import opened Wire
  import opened Canonical
  import opened Messages
  import opened Protocol
  import opened Reports
  import opened Sizes

  datatype Snapshot = Snapshot(
    platform: text,
    executableDigest: digest,
    debuggerObserved: bool,
    executableBuildId: Option<text>,
    moduleBasenames: seq<text>)

  datatype GameProcess = GameProcess(
    running: bool,
    executableMatches: bool,
    parentIsAgent: Option<bool>,
    moduleBasenames: seq<text>,
    identityStable: Option<bool>)

  const MAX_MODULES := 96

  function AsciiText(s: string): (t: text)
    ensures t == Ascii(s)
  {
    AsciiIsText(Ascii(s));
    Ascii(s)
  }

  function DecimalDigits(n: nat): (b: bytes)
    ensures forall i :: 0 <= i < |b| ==> 0x30 <= b[i] <= 0x39
  {
    if n < 10 then [0x30 + n] else DecimalDigits(n / 10) + [0x30 + n % 10]
  }

  function Decimal(n: nat): text {
    AsciiIsText(DecimalDigits(n));
    DecimalDigits(n)
  }

  function HexDigit(n: nat): byte
    requires n < 16
  {
    if n < 10 then 0x30 + n else 0x57 + n
  }

  function HexDigits(b: bytes): (h: bytes)
    ensures forall i :: 0 <= i < |h| ==> h[i] < 0x80
  {
    if b == [] then [] else [HexDigit(b[0] / 16), HexDigit(b[0] % 16)] + HexDigits(b[1..])
  }

  function Hex(b: bytes): text {
    AsciiIsText(HexDigits(b));
    HexDigits(b)
  }

  /** The characters U+0000 to U+001F and U+007F to U+009F, as they appear in UTF-8. */
  predicate HasControl(value: bytes) {
    exists i :: 0 <= i < |value| &&
      (value[i] < 0x20 || value[i] == 0x7F || (value[i] == 0xC2 && i + 1 < |value| && value[i + 1] <= 0x9F))
  }

  predicate SafeValue(value: bytes) {
    value != [] && |value| <= 512 && !HasControl(value)
  }

  function BoolValue(b: bool): text {
    if b then AsciiText("true") else AsciiText("false")
  }

  function TristateValue(b: Option<bool>): text {
    match b
    case Some(v) => BoolValue(v)
    case None => AsciiText("unknown")
  }

  function Observe(code: string, value: text): (o: Observation)
    ensures |o.code| == |code| && o.value == value
  {
    Observation(AsciiText(code), value)
  }

  function SafeModules(modules: seq<text>): (r: seq<text>)
    ensures forall m <- r :: m in modules && SafeValue(m)
  {
    if modules == [] then []
    else if SafeValue(modules[0]) then [modules[0]] + SafeModules(modules[1..])
    else SafeModules(modules[1..])
  }

  /** The module names that are reported. */
  function ReportedModules(modules: seq<text>): (r: seq<text>)
    ensures |r| <= MAX_MODULES
    ensures forall m <- r :: m in modules && SafeValue(m)
  {
    var safe := SafeModules(modules);
    if |safe| <= MAX_MODULES then safe else safe[..MAX_MODULES]
  }

  function ModuleObservations(code: string, modules: seq<text>): (r: seq<Observation>)
    ensures |r| <= MAX_MODULES
    ensures forall o <- r :: |o.code| == |code| && o.value in modules && SafeValue(o.value)
  {
    var kept := ReportedModules(modules);
    seq(|kept|, i requires 0 <= i < |kept| => Observe(code, kept[i]))
  }

  function ProcessObservations(agentPid: uint32, gamePid: uint32, s: Snapshot, g: GameProcess): (r: seq<Observation>)
    ensures |r| == 4
  {
    [ Observe("agent.platform", s.platform),
      Observe("agent.process_id", Decimal(agentPid)),
      Observe("game.process_id", Decimal(gamePid)),
      Observe("game.process_running", BoolValue(g.running))
    ]
  }

  function IntegrityObservations(s: Snapshot, g: GameProcess): (r: seq<Observation>)
    ensures |r| == 4
  {
    [ Observe("game.executable_matches", BoolValue(g.executableMatches)),
      Observe("game.parent_is_agent", TristateValue(g.parentIsAgent)),
      Observe("agent.debugger_observed", BoolValue(s.debuggerObserved)),
      Observe("agent.probe_health", AsciiText("connected"))
    ]
  }

  function BuildIdObservation(buildId: Option<text>): (r: seq<Observation>)
    ensures |r| <= 1
  {
    if buildId.Some? && SafeValue(buildId.value) then [Observe("game.elf_build_id", buildId.value)] else []
  }

  function SingleObservations(agentPid: uint32, gamePid: uint32, s: Snapshot, g: GameProcess): (r: seq<Observation>)
    ensures |r| <= 10
  {
    ProcessObservations(agentPid, gamePid, s, g)
    + IntegrityObservations(s, g)
    + BuildIdObservation(s.executableBuildId)
    + [Observe("game.process_identity_stable", TristateValue(g.identityStable))]
  }

  function Observations(agentPid: uint32, gamePid: uint32, s: Snapshot, g: GameProcess): (r: seq<Observation>)
    ensures |r| <= 202
  {
    SingleObservations(agentPid, gamePid, s, g)
    + ModuleObservations("agent.module", s.moduleBasenames)
    + ModuleObservations("game.module", g.moduleBasenames)
  }

  // ---------------------------------------------------------------- what observations tell

  lemma {:induction false} DecimalIsInjective(a: nat, b: nat)
    requires DecimalDigits(a) == DecimalDigits(b)
    ensures a == b
    decreases a
  {
    var s, t := DecimalDigits(a), DecimalDigits(b);
    DecimalIsNotEmpty(a / 10);
    DecimalIsNotEmpty(b / 10);
    assert s[|s| - 1] == 0x30 + a % 10 && t[|t| - 1] == 0x30 + b % 10;
    if a >= 10 && b >= 10 {
      assert s[..|s| - 1] == DecimalDigits(a / 10) && t[..|t| - 1] == DecimalDigits(b / 10);
      DecimalIsInjective(a / 10, b / 10);
    }
  }

  lemma {:induction false} DecimalIsNotEmpty(n: nat)
    ensures DecimalDigits(n) != []
  {
  }

  lemma {:induction false} FlagsAreTold(a: bool, b: bool, t: Option<bool>, u: Option<bool>)
    ensures BoolValue(a) == BoolValue(b) ==> a == b
    ensures TristateValue(t) == TristateValue(u) ==> t == u
  {
    assert |AsciiText("true")| == 4 && |AsciiText("false")| == 5 && |AsciiText("unknown")| == 7;
  }

  lemma {:induction false} ProcessObservationsTell(agentPid: uint32, gamePid: uint32, s: Snapshot, g: GameProcess)
    ensures
      var o := ProcessObservations(agentPid, gamePid, s, g);
      && o[0].value == s.platform && o[1].value == Decimal(agentPid) && o[2].value == Decimal(gamePid)
      && o[3].value == BoolValue(g.running)
  {
    hide Decimal, BoolValue, Observe;
  }

  lemma {:induction false} IntegrityObservationsTell(s: Snapshot, g: GameProcess)
    ensures
      var o := IntegrityObservations(s, g);
      && o[0].value == BoolValue(g.executableMatches) && o[1].value == TristateValue(g.parentIsAgent)
      && o[2].value == BoolValue(s.debuggerObserved)
  {
    hide BoolValue, TristateValue, Observe;
  }

  lemma {:induction false} BuildIdTells(b: seq<Observation>, buildId: Option<text>)
    requires b == BuildIdObservation(buildId)
    ensures b != [] ==> |b[0].code| == 17
  {
    hide Observe, SafeValue;
  }

  /** Where each single observation stands. */
  lemma {:induction false} SingleObservationsTell(agentPid: uint32, gamePid: uint32, s: Snapshot, g: GameProcess)
    ensures
      var o := SingleObservations(agentPid, gamePid, s, g);
      var b := BuildIdObservation(s.executableBuildId);
      && |o| == 9 + |b|
      && o[0].value == s.platform && o[1].value == Decimal(agentPid) && o[2].value == Decimal(gamePid)
      && o[3].value == BoolValue(g.running) && o[4].value == BoolValue(g.executableMatches)
      && o[5].value == TristateValue(g.parentIsAgent) && o[6].value == BoolValue(s.debuggerObserved)
      && (b == [] ==> |o[8].code| == 28)
      && (b != [] ==> |o[8].code| == 17 && [o[8]] == b)
      && o[8 + |b|].value == TristateValue(g.identityStable)
  {
    hide ProcessObservations, IntegrityObservations, BuildIdObservation, Decimal, BoolValue, TristateValue, Observe;
    ProcessObservationsTell(agentPid, gamePid, s, g);
    IntegrityObservationsTell(s, g);
    BuildIdTells(BuildIdObservation(s.executableBuildId), s.executableBuildId);
  }

  lemma {:induction false} RowIsNotLonger(
      a: seq<Observation>, b: seq<Observation>, a': seq<Observation>, b': seq<Observation>, n: nat, m: nat)
    requires n != m && a + b == a' + b'
    requires (forall o <- a' :: |o.code| == n) && (forall o <- b :: |o.code| == m)
    ensures |a'| <= |a|
  {
    var all := a + b;
    assert forall i :: 0 <= i < |a'| ==> all[i] == a'[i] && a'[i] in a';
    assert |all| > |a| ==> all[|a|] == b[0] && b[0] in b;
  }

  /** Lists of observations with codes of different lengths can be told apart in a row. */
  lemma {:induction false} RowsAreToldApart(
      a: seq<Observation>, b: seq<Observation>, a': seq<Observation>, b': seq<Observation>, n: nat, m: nat)
    requires n != m && a + b == a' + b'
    requires (forall o <- a + a' :: |o.code| == n) && (forall o <- b + b' :: |o.code| == m)
    ensures a == a' && b == b'
  {
    var all := a + b;
    RowIsNotLonger(a, b, a', b', n, m);
    RowIsNotLonger(a', b', a, b, n, m);
    assert a == all[..|a|] && a' == all[..|a'|] && b == all[|a|..] && b' == all[|a'|..];
  }

  lemma {:induction false} ModulesAreTold(code: string, a: seq<text>, b: seq<text>)
    requires ModuleObservations(code, a) == ModuleObservations(code, b)
    ensures ReportedModules(a) == ReportedModules(b)
  {
    hide ReportedModules, AsciiText;
    var o, a', b' := ModuleObservations(code, a), ReportedModules(a), ReportedModules(b);
    assert |o| == |a'| == |b'|;
    assert forall i :: 0 <= i < |o| ==> o[i].value == a'[i] && o[i].value == b'[i];
  }

  /** The observations determine the evidence: whatever differs in it, except module names past the
      limit or not fit to be reported, shows in them. */
  lemma {:induction false} ObservationsDetermineEvidence(
      agentPid: uint32, gamePid: uint32, s: Snapshot, g: GameProcess,
      agentPid': uint32, gamePid': uint32, s': Snapshot, g': GameProcess)
    requires Observations(agentPid, gamePid, s, g) == Observations(agentPid', gamePid', s', g')
    ensures agentPid == agentPid' && gamePid == gamePid'
    ensures s.platform == s'.platform && s.debuggerObserved == s'.debuggerObserved
    ensures g.running == g'.running && g.executableMatches == g'.executableMatches
    ensures g.parentIsAgent == g'.parentIsAgent && g.identityStable == g'.identityStable
    ensures BuildIdObservation(s.executableBuildId) == BuildIdObservation(s'.executableBuildId)
    ensures ReportedModules(s.moduleBasenames) == ReportedModules(s'.moduleBasenames)
    ensures ReportedModules(g.moduleBasenames) == ReportedModules(g'.moduleBasenames)
  {
    hide Observations, SingleObservations, ModuleObservations, ReportedModules, BuildIdObservation, Decimal, BoolValue,
      TristateValue;
    PartsAreToldApart(agentPid, gamePid, s, g, agentPid', gamePid', s', g');
    SingleObservationsTell(agentPid, gamePid, s, g);
    SingleObservationsTell(agentPid', gamePid', s', g');
    ModulesAreTold("agent.module", s.moduleBasenames, s'.moduleBasenames);
    ModulesAreTold("game.module", g.moduleBasenames, g'.moduleBasenames);
    NumbersAreTold(agentPid, agentPid');
    NumbersAreTold(gamePid, gamePid');
    FlagsAreTold(g.running, g'.running, g.parentIsAgent, g'.parentIsAgent);
    FlagsAreTold(g.executableMatches, g'.executableMatches, g.identityStable, g'.identityStable);
    FlagsAreTold(s.debuggerObserved, s'.debuggerObserved, None, None);
  }

  lemma {:induction false} PartsAreToldApart(
      agentPid: uint32, gamePid: uint32, s: Snapshot, g: GameProcess,
      agentPid': uint32, gamePid': uint32, s': Snapshot, g': GameProcess)
    requires Observations(agentPid, gamePid, s, g) == Observations(agentPid', gamePid', s', g')
    ensures SingleObservations(agentPid, gamePid, s, g) == SingleObservations(agentPid', gamePid', s', g')
    ensures ModuleObservations("agent.module", s.moduleBasenames) == ModuleObservations("agent.module", s'.moduleBasenames)
    ensures ModuleObservations("game.module", g.moduleBasenames) == ModuleObservations("game.module", g'.moduleBasenames)
  {
    hide SingleObservations, ModuleObservations, BuildIdObservation, Decimal, BoolValue, TristateValue;
    SingleObservationsTell(agentPid, gamePid, s, g);
    SingleObservationsTell(agentPid', gamePid', s', g');
    var o, o' := SingleObservations(agentPid, gamePid, s, g), SingleObservations(agentPid', gamePid', s', g');
    var a, b := ModuleObservations("agent.module", s.moduleBasenames), ModuleObservations("game.module", g.moduleBasenames);
    var a', b' := ModuleObservations("agent.module", s'.moduleBasenames), ModuleObservations("game.module", g'.moduleBasenames);
    assert o + a + b == o + (a + b) && o' + a' + b' == o' + (a' + b');
    SplitAtNine(o, a + b, o', a' + b');
    RowsAreToldApart(a, b, a', b', 12, 11);
  }

  lemma {:induction false} SplitAtNine(
      o: seq<Observation>, a: seq<Observation>, o': seq<Observation>, a': seq<Observation>)
    requires o + a == o' + a'
    requires 9 <= |o| <= 10 && 9 <= |o'| <= 10
    requires |o[8].code| == if |o| == 9 then 28 else 17
    requires |o'[8].code| == if |o'| == 9 then 28 else 17
    ensures o == o' && a == a'
  {
    var all := o + a;
    assert o[8] == all[8] == o'[8];
    assert o == all[..|o|] && o' == all[..|o'|] && a == all[|o|..] && a' == all[|o'|..];
  }

  lemma {:induction false} NumbersAreTold(a: uint32, b: uint32)
    ensures Decimal(a) == Decimal(b) ==> a == b
  {
    if Decimal(a) == Decimal(b) {
      DecimalIsInjective(a, b);
    }
  }

  // ---------------------------------------------------------------- sizes of observations

  function Weight(obs: seq<Observation>): nat {
    if obs == [] then 0 else |obs[0].code| + |obs[0].value| + 8 + Weight(obs[1..])
  }

  function TextLength(obs: seq<Observation>): nat {
    if obs == [] then 0 else |obs[0].code| + |obs[0].value| + TextLength(obs[1..])
  }

  predicate Small(o: Observation) {
    |o.code| <= 28 && |o.value| <= 512
  }

  lemma {:induction false} ObservationSize(o: Observation)
    requires Small(o)
    ensures |o.code| + |o.value| <= |Encode(OBSERVATION, ObservationTo(o))| <= |o.code| + |o.value| + 5
  {
    var m := ObservationTo(o);
    OctetsFieldSize(1, Text, o.code);
    OctetsFieldSize(2, Text, o.value);
    assert EncodeFrom(OBSERVATION, m, 2) == [];
    assert EncodeFrom(OBSERVATION, m, 1) == EncodeField(2, Text, Octets(o.value)) + [];
    assert EncodeFrom(OBSERVATION, m, 0) == EncodeField(1, Text, Octets(o.code)) + EncodeFrom(OBSERVATION, m, 1);
  }

  /** Encoding a list of small observations adds at most 8 octets to the text of each. */
  lemma {:induction false} ObservationsSize(obs: seq<Observation>)
    requires forall o <- obs :: Small(o)
    ensures TextLength(obs) <= |EncodedObservations(obs)| <= Weight(obs)
    decreases |obs|
  {
    if obs != [] {
      FirstObservation(obs);
      ObservationSize(obs[0]);
      DelimitedSize(8, Encode(OBSERVATION, ObservationTo(obs[0])));
      ObservationsSize(obs[1..]);
    }
  }

  lemma {:induction false} WeightOfConcat(a: seq<Observation>, b: seq<Observation>)
    ensures Weight(a + b) == Weight(a) + Weight(b)
    decreases |a|
  {
    if a == [] {
      assert a + b == b;
    } else {
      assert (a + b)[1..] == a[1..] + b;
      WeightOfConcat(a[1..], b);
    }
  }

  lemma {:induction false} WeightAtMost(obs: seq<Observation>, k: nat)
    requires forall o <- obs :: |o.code| + |o.value| + 8 <= k
    ensures Weight(obs) <= k * |obs|
    decreases |obs|
  {
    if obs != [] {
      WeightAtMost(obs[1..], k);
      Distribute(k, |obs[1..]|);
      assert obs[0] in obs;
    }
  }

  lemma {:induction false} Distribute(k: nat, n: nat)
    ensures k * (n + 1) == k * n + k
  {
  }

  // ---------------------------------------------------------------- sizes of reports

  /** A valid report takes at most 691 octets besides its observations, its signature included. */
  lemma {:induction false} ReportSize(r: Report)
    requires ValidateReport(r).Ok? && |r.signature| <= 64
    requires forall o <- r.observations :: Small(o)
    ensures TextLength(r.observations) <= |EncodeReport(r)| <= 691 + Weight(r.observations)
  {
    hide EncodeReport, EncodedObservations, Weight, TextLength;
    ReportFields(r);
    NumberFieldSize(1, Uint32, r.protocolVersion);
    OctetsFieldSize(2, Text, r.agentSessionId);
    NumberFieldSize(3, Uint64, r.sequence);
    OctetsFieldSize(4, Blob, r.challengeNonce);
    NumberFieldSize(5, Int64, r.observedAtUnix);
    OctetsFieldSize(6, Text, r.buildId);
    OctetsFieldSize(7, Blob, r.executableSha256);
    ObservationsSize(r.observations);
    OctetsFieldSize(9, Blob, r.previousReportDigest);
    OctetsFieldSize(10, Blob, r.signature);
  }

  function Power10(k: nat): nat {
    if k == 0 then 1 else 10 * Power10(k - 1)
  }

  lemma {:induction false} DecimalLength(n: nat, k: nat)
    requires k >= 1 && n < Power10(k)
    ensures |DecimalDigits(n)| <= k
    decreases k
  {
    if n >= 10 {
      assert k > 1 by {
        assert Power10(1) == 10;
      }
      DecimalLength(n / 10, k - 1);
    }
  }

  lemma {:induction false} ProcessIdLength(n: uint32)
    ensures |Decimal(n)| <= 10
  {
    assert Power10(4) == 10_000 by {
      assert Power10(2) == 100;
    }
    assert Power10(8) == 100_000_000 by {
      assert Power10(6) == 100 * Power10(4);
    }
    assert Power10(10) == 100 * Power10(8);
    DecimalLength(n, 10);
  }

  lemma {:induction false} ObserveSmall(code: string, value: text)
    requires |code| <= 28 && |value| <= 512
    ensures Small(Observe(code, value))
  {
  }

  lemma {:induction false} FlagsAreSmall(b: bool, t: Option<bool>)
    ensures |BoolValue(b)| <= 512 && |TristateValue(t)| <= 512
  {
  }

  lemma {:induction false} ProcessObservationsAreSmall(agentPid: uint32, gamePid: uint32, s: Snapshot, g: GameProcess)
    requires |s.platform| <= 512
    ensures forall o <- ProcessObservations(agentPid, gamePid, s, g) :: Small(o)
  {
    hide Observe, Decimal, BoolValue, Small;
    ProcessIdLength(agentPid);
    ProcessIdLength(gamePid);
    FlagsAreSmall(g.running, None);
    ObserveSmall("agent.platform", s.platform);
    ObserveSmall("agent.process_id", Decimal(agentPid));
    ObserveSmall("game.process_id", Decimal(gamePid));
    ObserveSmall("game.process_running", BoolValue(g.running));
  }

  lemma {:induction false} IntegrityObservationsAreSmall(s: Snapshot, g: GameProcess)
    ensures forall o <- IntegrityObservations(s, g) :: Small(o)
  {
    hide Observe, BoolValue, TristateValue, Small;
    FlagsAreSmall(g.executableMatches, g.parentIsAgent);
    FlagsAreSmall(s.debuggerObserved, None);
    ObserveSmall("game.executable_matches", BoolValue(g.executableMatches));
    ObserveSmall("game.parent_is_agent", TristateValue(g.parentIsAgent));
    ObserveSmall("agent.debugger_observed", BoolValue(s.debuggerObserved));
    ObserveSmall("agent.probe_health", AsciiText("connected"));
  }

  lemma {:induction false} BuildIdIsSmall(buildId: Option<text>)
    ensures forall o <- BuildIdObservation(buildId) :: Small(o)
  {
    hide Observe, Small;
    if buildId.Some? && SafeValue(buildId.value) {
      ObserveSmall("game.elf_build_id", buildId.value);
    }
  }

  lemma {:induction false} SingleObservationsAreSmall(agentPid: uint32, gamePid: uint32, s: Snapshot, g: GameProcess)
    requires |s.platform| <= 512
    ensures forall o <- SingleObservations(agentPid, gamePid, s, g) :: Small(o)
  {
    hide ProcessObservations, IntegrityObservations, BuildIdObservation, Observe, Small, TristateValue;
    ProcessObservationsAreSmall(agentPid, gamePid, s, g);
    IntegrityObservationsAreSmall(s, g);
    BuildIdIsSmall(s.executableBuildId);
    FlagsAreSmall(true, g.identityStable);
    ObserveSmall("game.process_identity_stable", TristateValue(g.identityStable));
  }

  /** The names the Linux collector keeps: at most 255 octets. */
  predicate ShortNames(modules: seq<text>) {
    forall m <- modules :: |m| <= 255
  }

  lemma {:induction false} ModulesWeigh(code: string, modules: seq<text>)
    requires |code| <= 12 && ShortNames(modules)
    ensures Weight(ModuleObservations(code, modules)) <= 275 * MAX_MODULES
    ensures forall o <- ModuleObservations(code, modules) :: Small(o)
  {
    var obs := ModuleObservations(code, modules);
    WeightAtMost(obs, 275);
    assert 275 * |obs| <= 275 * MAX_MODULES;
  }

  /** With short module names, the observations weigh less than 58,281 octets. */
  lemma {:induction false} ObservationsWeigh(agentPid: uint32, gamePid: uint32, s: Snapshot, g: GameProcess)
    requires |s.platform| <= 512 && ShortNames(s.moduleBasenames) && ShortNames(g.moduleBasenames)
    ensures Weight(Observations(agentPid, gamePid, s, g)) <= 58280
    ensures forall o <- Observations(agentPid, gamePid, s, g) :: Small(o)
  {
    var single := SingleObservations(agentPid, gamePid, s, g);
    var agentModules := ModuleObservations("agent.module", s.moduleBasenames);
    var gameModules := ModuleObservations("game.module", g.moduleBasenames);
    SingleObservationsAreSmall(agentPid, gamePid, s, g);
    ModulesWeigh("agent.module", s.moduleBasenames);
    ModulesWeigh("game.module", g.moduleBasenames);
    assert forall o <- single :: |o.code| + |o.value| + 8 <= 548;
    hide SingleObservations, ModuleObservations, Small, Weight;
    WeightAtMost(single, 548);
    WeightOfConcat(single, agentModules);
    WeightOfConcat(single + agentModules, gameModules);
  }

  lemma {:induction false} ValidityIgnoresSignature(r: Report, signature: bytes)
    ensures ValidateReport(r.(signature := signature)) == ValidateReport(r)
  {
  }

  /** A valid report whose observations weigh that little is signed, and fits into one message and
      one frame together with its signature. */
  lemma {:induction false} LightReportIsSigned(c: Crypto, key: bytes, r: Report)
    requires ValidateReport(r).Ok?
    requires Weight(r.observations) <= 58280 && forall o <- r.observations :: Small(o)
    ensures SignReport(c, key, r).Ok?
    ensures |EncodeReport(SignReport(c, key, r).value)| <= 58971
  {
    hide EncodeReport, Weight, Small, DomainBytes, TextLength, ValidateReport;
    ValidityIgnoresSignature(r, []);
    ReportSize(Unsigned(r));
    var message := DomainBytes(ReportDomain) + EncodeReport(Unsigned(r));
    var signature := c.sign(key, message);
    ValidityIgnoresSignature(r, signature);
    ReportSize(r.(signature := signature));
    assert SignReport(c, key, r) == Ok(r.(signature := signature));
  }

  lemma {:induction false} ReportIsValid(r: Report)
    requires r.protocolVersion == PROTOCOL_VERSION && r.sequence > 0
    requires Identifier(r.agentSessionId) && Identifier(r.buildId)
    requires 16 <= |r.challengeNonce| <= 256
    requires |r.executableSha256| == 32 && |r.previousReportDigest| == 32
    requires |r.observations| <= 1024
    ensures ValidateReport(r).Ok?
  {
  }

  /** A report that carries a session's evidence with short module names is valid, is signed, and
      fits into one message and one frame together with its signature. */
  lemma {:induction false} EvidenceFits(
      c: Crypto, key: bytes, r: Report, agentPid: uint32, gamePid: uint32, s: Snapshot, g: GameProcess)
    requires r.protocolVersion == PROTOCOL_VERSION && r.sequence > 0
    requires Identifier(r.agentSessionId) && Identifier(r.buildId)
    requires 16 <= |r.challengeNonce| <= 256
    requires |r.executableSha256| == 32 && |r.previousReportDigest| == 32
    requires r.observations == Observations(agentPid, gamePid, s, g)
    requires |s.platform| <= 512 && ShortNames(s.moduleBasenames) && ShortNames(g.moduleBasenames)
    ensures |r.observations| <= 202 && ValidateReport(r).Ok?
    ensures SignReport(c, key, r).Ok?
    ensures |EncodeReport(SignReport(c, key, r).value)| <= 58971 < MAX_MESSAGE_BYTES
  {
    hide SignReport, Observations, Weight, Small, ValidateReport, ShortNames, Identifier, EncodeReport;
    ObservationsWeigh(agentPid, gamePid, s, g);
    ReportIsValid(r);
    LightReportIsSigned(c, key, r);
  }

  lemma {:induction false} TextIsCounted(obs: seq<Observation>)
    ensures EvidenceLength(obs) >= TextLength(obs)
    decreases |obs|
  {
    if obs != [] {
      TextIsCounted(obs[1..]);
    }
  }

  lemma {:induction false} TextOfConcat(a: seq<Observation>, b: seq<Observation>)
    ensures TextLength(a + b) == TextLength(a) + TextLength(b)
    decreases |a|
  {
    if a == [] {
      assert a + b == b;
    } else {
      assert (a + b)[1..] == a[1..] + b;
      TextOfConcat(a[1..], b);
    }
  }

  /** Without that bound on names the claim fails: a report whose observation text alone exceeds
      64 KiB is refused as too large. */
  lemma {:induction false} LongEvidenceIsRefused(c: Crypto, key: bytes, r: Report)
    requires ValidateReport(Unsigned(r)).Ok?
    requires TextLength(r.observations) > MAX_MESSAGE_BYTES
    ensures SignReport(c, key, r) == Err(TooLarge)
  {
    hide SignReport, TextLength, EvidenceLength, ValidateReport;
    TextIsCounted(r.observations);
    SignedIffSmall(c, key, r);
  }

  /** How many UTF-16 code units a text takes: two for a character that takes four octets, otherwise one. */
  function Utf16Units(t: bytes): nat
    requires ValidUtf8(t)
    decreases |t|
  {
    if t == [] then 0 else (if Utf8Step(t) == 4 then 2 else 1) + Utf16Units(t[Utf8Step(t)..])
  }

  /** In the order of octets. */
  ghost predicate Before(a: bytes, b: bytes) {
    exists k :: 0 <= k <= |a| && k < |b| && a[..k] == b[..k] && (k == |a| || a[k] < b[k])
  }

  /** What the Windows collector delivers: names of at most 255 UTF-16 code units, sorted, none twice. */
  ghost predicate CollectedOnWindows(modules: seq<text>) {
    && (forall m <- modules :: 0 < Utf16Units(m) <= 255)
    && forall i, j :: 0 <= i < j < |modules| ==> Before(modules[i], modules[j])
  }

  /** The character U+4E2D, so many times. */
  function Characters(n: nat): (b: bytes)
    ensures |b| == 3 * n
    ensures forall i :: 0 <= i < |b| ==> b[i] in [0xE4, 0xB8, 0xAD]
  {
    if n == 0 then [] else [0xE4, 0xB8, 0xAD] + Characters(n - 1)
  }

  lemma {:induction false} OneCharacter(rest: bytes)
    ensures Utf8Step([0xE4, 0xB8, 0xAD] + rest) == 3 && ([0xE4, 0xB8, 0xAD] + rest)[3..] == rest
  {
  }

  lemma {:induction false} CharactersAreText(n: nat, tail: bytes)
    requires ValidUtf8(tail)
    ensures ValidUtf8(Characters(n) + tail) && Utf16Units(Characters(n) + tail) == n + Utf16Units(tail)
  {
    var b := Characters(n) + tail;
    if n == 0 {
      assert b == tail;
    } else {
      CharactersAreText(n - 1, tail);
      OneCharacter(Characters(n - 1) + tail);
      assert b == [0xE4, 0xB8, 0xAD] + (Characters(n - 1) + tail);
      hide Utf8Step, Characters;
    }
  }

  function TwoDigits(i: nat): (b: bytes)
    requires i < 100
    ensures |b| == 2
  {
    [0x30 + i / 10, 0x30 + i % 10]
  }

  lemma {:induction false} TwoDigitsAreText(i: nat)
    requires i < 100
    ensures ValidUtf8(TwoDigits(i)) && Utf16Units(TwoDigits(i)) == 2
  {
    var b := TwoDigits(i);
    AsciiIsText(b);
    assert b[1..][1..] == [];
    assert Utf16Units(b[1..]) == 1 + Utf16Units([]);
  }

  /** A module name of 512 octets: 170 characters of three octets each, and two digits. */
  function LongName(i: nat): (t: text)
    requires i < 100
    ensures |t| == 512 && SafeValue(t)
  {
    hide ValidUtf8, Utf16Units, Characters;
    TwoDigitsAreText(i);
    CharactersAreText(170, TwoDigits(i));
    Characters(170) + TwoDigits(i)
  }

  lemma {:induction false} LongNamesInOrder(i: nat, j: nat)
    requires i < j < 100
    ensures Before(LongName(i), LongName(j))
  {
    hide ValidUtf8, Characters;
    var a, b := LongName(i), LongName(j);
    var k := if i / 10 == j / 10 then 511 else 510;
    assert a[..510] == Characters(170) == b[..510];
    assert a[..k] == b[..k];
  }

  lemma {:induction false} TextLengthAtLeast(obs: seq<Observation>, k: nat)
    requires forall o <- obs :: |o.code| + |o.value| >= k
    ensures TextLength(obs) >= k * |obs|
    decreases |obs|
  {
    if obs != [] {
      TextLengthAtLeast(obs[1..], k);
      Distribute(k, |obs[1..]|);
      assert obs[0] in obs;
    }
  }

  lemma {:induction false} SafeModulesKeepsSafe(modules: seq<text>)
    requires forall m <- modules :: SafeValue(m)
    ensures SafeModules(modules) == modules
    decreases |modules|
  {
    if modules != [] {
      SafeModulesKeepsSafe(modules[1..]);
    }
  }

  /** 96 such names. */
  function LongNames(): (r: seq<text>)
    ensures |r| == MAX_MODULES && forall i :: 0 <= i < |r| ==> r[i] == LongName(i)
    ensures forall m <- r :: |m| == 512 && SafeValue(m)
  {
    seq(MAX_MODULES, i requires 0 <= i < MAX_MODULES => LongName(i))
  }

  /** The Windows collector can deliver them. */
  lemma {:induction false} LongNamesAreCollected()
    ensures CollectedOnWindows(LongNames())
  {
    hide LongName, Before;
    var names := LongNames();
    forall m | m in names ensures 0 < Utf16Units(m) <= 255 {
      var i :| 0 <= i < |names| && names[i] == m;
      LongNameUnits(i);
    }
    forall i, j | 0 <= i < j < |names| ensures Before(names[i], names[j]) {
      LongNamesInOrder(i, j);
    }
  }

  lemma {:induction false} LongNameUnits(i: nat)
    requires i < 100
    ensures Utf16Units(LongName(i)) == 172
  {
    TwoDigitsAreText(i);
    CharactersAreText(170, TwoDigits(i));
    hide ValidUtf8, Characters, Utf16Units;
  }

  lemma {:induction false} LongNamesObserved(code: string)
    ensures TextLength(ModuleObservations(code, LongNames())) >= 512 * MAX_MODULES
  {
    hide LongName, LongNames, SafeValue, Observe, TextLength;
    SafeModulesKeepsSafe(LongNames());
    var obs := ModuleObservations(code, LongNames());
    assert |obs| == MAX_MODULES;
    assert forall o <- obs :: |o.value| == 512;
    TextLengthAtLeast(obs, 512);
  }

  /** Such evidence exists: a game and an agent with such names, which the Windows collector can deliver
      and the session's own filter lets through, already exceed 64 KiB, whatever else is observed. */
  lemma {:induction false} LongNamesOverflow(agentPid: uint32, gamePid: uint32, s: Snapshot, g: GameProcess)
    requires s.moduleBasenames == g.moduleBasenames == LongNames()
    ensures CollectedOnWindows(LongNames()) && forall m <- LongNames() :: SafeValue(m)
    ensures TextLength(Observations(agentPid, gamePid, s, g)) > MAX_MESSAGE_BYTES
  {
    hide SingleObservations, ModuleObservations, TextLength, LongName, CollectedOnWindows;
    LongNamesAreCollected();
    var single := SingleObservations(agentPid, gamePid, s, g);
    var agentModules := ModuleObservations("agent.module", LongNames());
    var gameModules := ModuleObservations("game.module", LongNames());
    LongNamesObserved("agent.module");
    LongNamesObserved("game.module");
    TextOfConcat(single, agentModules);
    TextOfConcat(single + agentModules, gameModules);
  }
}
