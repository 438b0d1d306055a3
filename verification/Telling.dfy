/** What a report tells, octet for octet: which codes stand in it, in which order, and what the value under
    each of them means. */
module Telling {
  import opened Bytes
  import opened Messages
  import opened Protocol
  import opened Evidence

  function True(): bytes {
    [0x74, 0x72, 0x75, 0x65]
  }

  function False(): bytes {
    [0x66, 0x61, 0x6C, 0x73, 0x65]
  }

  function Unknown(): bytes {
    [0x75, 0x6E, 0x6B, 0x6E, 0x6F, 0x77, 0x6E]
  }

  function Connected(): bytes {
    [0x63, 0x6F, 0x6E, 0x6E, 0x65, 0x63, 0x74, 0x65, 0x64]
  }

  lemma {:induction false} AsciiIs(s: string, b: bytes)
    requires |s| == |b| && forall i :: 0 <= i < |s| ==> s[i] as int < 128 && b[i] == s[i] as int
    ensures Ascii(s) == b
  {
  }

  lemma {:induction false} FlagsInOctets(b: bool, t: Option<bool>)
    ensures BoolValue(b) == if b then True() else False()
    ensures TristateValue(t) == match t case Some(v) => (if v then True() else False()) case None => Unknown()
  {
    AsciiIs("true", True());
    AsciiIs("false", False());
    AsciiIs("unknown", Unknown());
    hide Ascii;
  }

  lemma {:induction false} ProbeInOctets()
    ensures AsciiText("connected") == Connected()
  {
    AsciiIs("connected", Connected());
    hide Ascii;
  }

  /** The number that decimal digits stand for. */
  function DigitsValue(digits: bytes): int {
    if digits == [] then 0
    else DigitsValue(digits[..|digits| - 1]) * 10 + (digits[|digits| - 1] - '0' as int)
  }

  /** The digits of the number, and no more of them than it needs. */
  predicate Spells(digits: bytes, n: nat) {
    && digits != []
    && (forall i :: 0 <= i < |digits| ==> '0' as int <= digits[i] <= '9' as int)
    && (|digits| > 1 ==> digits[0] != '0' as int)
    && DigitsValue(digits) == n
  }

  lemma {:induction false} DecimalSpells(n: nat)
    ensures Spells(DecimalDigits(n), n)
    ensures n > 0 ==> DecimalDigits(n)[0] != '0' as int
    decreases n
  {
    var d := DecimalDigits(n);
    if n < 10 {
      assert d[..0] == [];
    } else {
      DecimalSpells(n / 10);
      assert d[..|d| - 1] == DecimalDigits(n / 10);
    }
  }

  function Told(code: string, value: text): (o: Observation)
    ensures o.code == Ascii(code) && o.value == value
  {
    Observe(code, value)
  }

  function Listed(code: string, names: seq<text>): (r: seq<Observation>)
    ensures |r| == |names| && forall i :: 0 <= i < |r| ==> r[i].code == Ascii(code) && r[i].value == names[i]
  {
    seq(|names|, i requires 0 <= i < |names| => Told(code, names[i]))
  }

  lemma {:induction false} CodesAreAscii(code: string, value: text)
    ensures Observe(code, value).code == Ascii(code) && Observe(code, value).value == value
  {
  }

  function Flag(b: bool): bytes {
    if b then True() else False()
  }

  function Tristate(t: Option<bool>): bytes {
    match t
    case Some(b) => Flag(b)
    case None => Unknown()
  }

  /** The platform, both process numbers, and whether the game runs. */
  predicate TellsProcess(o: seq<Observation>, agentPid: uint32, gamePid: uint32, s: Snapshot, g: GameProcess) {
    && |o| == 4
    && o[0].code == Ascii("agent.platform") && o[0].value == s.platform
    && o[1].code == Ascii("agent.process_id") && Spells(o[1].value, agentPid)
    && o[2].code == Ascii("game.process_id") && Spells(o[2].value, gamePid)
    && o[3].code == Ascii("game.process_running") && o[3].value == Flag(g.running)
  }

  lemma {:induction false} ProcessIsTold(agentPid: uint32, gamePid: uint32, s: Snapshot, g: GameProcess)
    ensures TellsProcess(ProcessObservations(agentPid, gamePid, s, g), agentPid, gamePid, s, g)
  {
    DecimalSpells(agentPid);
    DecimalSpells(gamePid);
    FlagsInOctets(g.running, None);
    hide Ascii, DecimalDigits, BoolValue, Spells, True, False;
  }

  /** Whether the game is the right one and the Agent's child, and what else is observed of either. */
  predicate TellsIntegrity(o: seq<Observation>, s: Snapshot, g: GameProcess) {
    && |o| == 4
    && o[0].code == Ascii("game.executable_matches") && o[0].value == Flag(g.executableMatches)
    && o[1].code == Ascii("game.parent_is_agent") && o[1].value == Tristate(g.parentIsAgent)
    && o[2].code == Ascii("agent.debugger_observed") && o[2].value == Flag(s.debuggerObserved)
    && o[3].code == Ascii("agent.probe_health") && o[3].value == Connected()
  }

  lemma {:induction false} IntegrityIsTold(s: Snapshot, g: GameProcess)
    ensures TellsIntegrity(IntegrityObservations(s, g), s, g)
  {
    FlagsInOctets(g.executableMatches, g.parentIsAgent);
    FlagsInOctets(s.debuggerObserved, None);
    ProbeInOctets();
    CodesAreAscii("game.executable_matches", BoolValue(g.executableMatches));
    CodesAreAscii("game.parent_is_agent", TristateValue(g.parentIsAgent));
    CodesAreAscii("agent.debugger_observed", BoolValue(s.debuggerObserved));
    CodesAreAscii("agent.probe_health", AsciiText("connected"));
    hide Ascii, AsciiText, Observe, BoolValue, TristateValue, True, False, Unknown, Connected;
  }

  /** The build identifier, if there is one fit to be reported, the stability of the game's identity, and
      the modules of each process under a code of their own. */
  predicate TellsRest(o: seq<Observation>, s: Snapshot, g: GameProcess) {
    var buildId := if s.executableBuildId.Some? && SafeValue(s.executableBuildId.value)
                   then [Told("game.elf_build_id", s.executableBuildId.value)] else [];
    && |o| > |buildId|
    && o[|buildId|].code == Ascii("game.process_identity_stable") && o[|buildId|].value == Tristate(g.identityStable)
    && o == buildId + [o[|buildId|]] + Listed("agent.module", ReportedModules(s.moduleBasenames))
            + Listed("game.module", ReportedModules(g.moduleBasenames))
  }

  lemma {:induction false} RestIsTold(s: Snapshot, g: GameProcess)
    ensures TellsRest(BuildIdObservation(s.executableBuildId)
                      + [Observe("game.process_identity_stable", TristateValue(g.identityStable))]
                      + ModuleObservations("agent.module", s.moduleBasenames)
                      + ModuleObservations("game.module", g.moduleBasenames), s, g)
  {
    BuildIdIsTold(s.executableBuildId);
    StabilityIsTold(g.identityStable);
    ModulesAreListed("agent.module", s.moduleBasenames);
    ModulesAreListed("game.module", g.moduleBasenames);
    hide Ascii, SafeValue, TristateValue, Tristate, ModuleObservations, ReportedModules, Listed, Observe, Told,
      BuildIdObservation;
    var buildId := BuildIdObservation(s.executableBuildId);
    var stable := Observe("game.process_identity_stable", TristateValue(g.identityStable));
    assert (buildId + [stable] + Listed("agent.module", ReportedModules(s.moduleBasenames))
            + Listed("game.module", ReportedModules(g.moduleBasenames)))[|buildId|] == stable;
  }

  lemma {:induction false} BuildIdIsTold(buildId: Option<text>)
    ensures BuildIdObservation(buildId) ==
              if buildId.Some? && SafeValue(buildId.value) then [Told("game.elf_build_id", buildId.value)] else []
  {
    hide Ascii, SafeValue;
  }

  lemma {:induction false} StabilityIsTold(stable: Option<bool>)
    ensures
      var o := Observe("game.process_identity_stable", TristateValue(stable));
      o.code == Ascii("game.process_identity_stable") && o.value == Tristate(stable)
  {
    FlagsInOctets(true, stable);
    CodesAreAscii("game.process_identity_stable", TristateValue(stable));
    hide Ascii, TristateValue, Observe, True, False, Unknown;
  }

  lemma {:induction false} ModulesAreListed(code: string, modules: seq<text>)
    ensures ModuleObservations(code, modules) == Listed(code, ReportedModules(modules))
  {
    hide Ascii, ReportedModules;
  }

  /** What is told by a list of observations: these values under these codes, and nothing else. */
  predicate Tells(o: seq<Observation>, agentPid: uint32, gamePid: uint32, s: Snapshot, g: GameProcess) {
    && |o| >= 8
    && TellsProcess(o[..4], agentPid, gamePid, s, g)
    && TellsIntegrity(o[4..8], s, g)
    && TellsRest(o[8..], s, g)
  }

  /** A report tells every flag as it is, every number in digits, and every module that is to be reported
      under the code of its process. */
  lemma {:induction false} EvidenceIsTold(agentPid: uint32, gamePid: uint32, s: Snapshot, g: GameProcess)
    ensures Tells(Observations(agentPid, gamePid, s, g), agentPid, gamePid, s, g)
  {
    hide ProcessObservations, IntegrityObservations, BuildIdObservation, ModuleObservations, TellsProcess,
      TellsIntegrity, TellsRest, TristateValue, Observe;
    ProcessIsTold(agentPid, gamePid, s, g);
    IntegrityIsTold(s, g);
    RestIsTold(s, g);
    var first, second := ProcessObservations(agentPid, gamePid, s, g), IntegrityObservations(s, g);
    var buildId, stable := BuildIdObservation(s.executableBuildId),
      [Observe("game.process_identity_stable", TristateValue(g.identityStable))];
    var agentModules := ModuleObservations("agent.module", s.moduleBasenames);
    var gameModules := ModuleObservations("game.module", g.moduleBasenames);
    var rest := buildId + stable + agentModules + gameModules;
    var o := Observations(agentPid, gamePid, s, g);
    assert o == first + second + rest;
    assert o[..4] == first && o[4..8] == second && o[8..] == rest;
  }

  // ---------------------------------------------------------------- which modules are reported

  /** The positions of the names fit to be reported, in order. */
  function SafePositions(modules: seq<text>, from: nat := 0): (r: seq<nat>)
    requires from <= |modules|
    ensures forall k :: 0 <= k < |r| ==> from <= r[k] < |modules|
    decreases |modules| - from
  {
    if from == |modules| then []
    else (if SafeValue(modules[from]) then [from] else []) + SafePositions(modules, from + 1)
  }

  lemma {:induction false} SafePositionsAreAll(modules: seq<text>, from: nat)
    requires from <= |modules|
    ensures
      var r := SafePositions(modules, from);
      && (forall i, j :: 0 <= i < j < |r| ==> r[i] < r[j])
      && (forall k :: from <= k < |modules| ==> (SafeValue(modules[k]) <==> k in r))
    decreases |modules| - from
  {
    hide SafeValue;
    if from < |modules| {
      SafePositionsAreAll(modules, from + 1);
    }
  }

  lemma {:induction false} SafeModulesStand(modules: seq<text>, from: nat)
    requires from <= |modules|
    ensures
      var r := SafePositions(modules, from);
      |SafeModules(modules[from..])| == |r| && forall k :: 0 <= k < |r| ==> SafeModules(modules[from..])[k] == modules[r[k]]
    decreases |modules| - from
  {
    hide SafeValue;
    if from < |modules| {
      SafeModulesStand(modules, from + 1);
      assert modules[from..][0] == modules[from] && modules[from..][1..] == modules[from + 1..];
    }
  }

  /** The names reported are those fit for it, in their order, up to the 96th. */
  lemma {:induction false} FirstSafeModules(modules: seq<text>)
    ensures
      var r := SafePositions(modules, 0);
      && |ReportedModules(modules)| == (if |r| <= 96 then |r| else 96)
      && forall k :: 0 <= k < |ReportedModules(modules)| ==> ReportedModules(modules)[k] == modules[r[k]]
  {
    hide SafeValue, SafePositions, SafeModules;
    SafeModulesStand(modules, 0);
    assert modules[0..] == modules;
  }

  // ---------------------------------------------------------------- hexadecimal

  /** Two digits for every octet, the higher half first. */
  lemma {:induction false} HexInOctets(b: bytes, i: nat)
    requires i < |b|
    ensures |Hex(b)| == 2 * |b|
    ensures Hex(b)[2 * i] == Ascii("0123456789abcdef")[b[i] / 16]
    ensures Hex(b)[2 * i + 1] == Ascii("0123456789abcdef")[b[i] % 16]
    decreases |b|
  {
    HexLength(b);
    if i == 0 {
      HexDigitInOctets(b[0] / 16);
      HexDigitInOctets(b[0] % 16);
      hide Ascii;
    } else {
      HexInOctets(b[1..], i - 1);
      assert HexDigits(b)[2..] == HexDigits(b[1..]);
      hide Ascii;
    }
  }

  lemma {:induction false} HexLength(b: bytes)
    ensures |HexDigits(b)| == 2 * |b|
    decreases |b|
  {
    if b != [] {
      HexLength(b[1..]);
    }
  }

  lemma {:induction false} HexDigitInOctets(n: nat)
    requires n < 16
    ensures HexDigit(n) == Ascii("0123456789abcdef")[n]
  {
    var digits := "0123456789abcdef";
    assert digits[0] == '0' && digits[1] == '1' && digits[2] == '2' && digits[3] == '3' && digits[4] == '4';
    assert digits[5] == '5' && digits[6] == '6' && digits[7] == '7' && digits[8] == '8' && digits[9] == '9';
    assert digits[10] == 'a' && digits[11] == 'b' && digits[12] == 'c' && digits[13] == 'd' && digits[14] == 'e';
    assert digits[15] == 'f';
  }
}
