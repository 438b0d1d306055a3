/** The protected session: hello, admission, and the timed loop that answers challenges, sends
    heartbeats and ends the session. Everything the session cannot decide itself is an input: what
    the reader thread delivers, clock readings, file checks, collected evidence, and whether each
    write succeeds. A run is determined by these inputs, and the results hold for all of them. */
module Runtime {
  import opened Bytes
  import opened Wire
  import opened Canonical
  import opened Messages
  import opened Protocol
  import opened Reports
  import opened Ipc
  import opened Evidence
  import opened Session

  datatype Registration = Registration(tenantId: text, gameId: text, environmentId: text)

  datatype Config = Config(
    verifier: Verifier,
    key: bytes,
    hello: Hello,
    registration: Option<Registration>,
    agentPid: uint32,
    gamePid: uint32)

  /** What taking an item from the channel, with a time limit, yields. */
  datatype Received = Item(item: Result<Frame, IpcError>) | TimedOut | Disconnected

  datatype FileCheck = Checked(mismatches: nat) | CheckFailed

  /** The inputs of the part before the loop. */
  datatype Opening = Opening(
    helloWritten: bool,
    bootstrap: Received,
    now: int64,
    files: FileCheck,
    verdictWritten: bool,
    heartbeatBase: int64,
    deadlineBase: int64)

  /** The inputs of one pass of the loop: the clock at its start, what was received, the clock when
      that is handled, the evidence collected, and whether a write succeeds. */
  datatype Tick = Tick(now: int64, received: Received, later: int64, snapshot: Option<Snapshot>, game: GameProcess, written: bool)

  datatype HealthState = Rejected | UpdateRequired | Ready | Protected | PolicyExpired | Lost | Revoked

  datatype Sent =
    | SentHello(hello: Hello)
    | SentHealth(sessionId: text, state: HealthState, lastReportAt: int64)
    | SentReport(report: Report)

  datatype Outcome = Running | EndedNormally | EndedWithError

  // ---------------------------------------------------------------- admission

  /** What the opening decides: a launch to protect, or the health message that refuses it. */
  datatype Verdict = Admitted(launch: BoundLaunch) | Refusal(sessionId: text, state: HealthState)

  function Unbound(): text {
    AsciiText("unbound")
  }

  function Admit(cfg: Config, o: Opening): Verdict {
    match o.bootstrap
    case Item(Err(_)) => Refusal(Unbound(), Rejected)
    case TimedOut => Refusal(Unbound(), Rejected)
    case Disconnected => Refusal(Unbound(), Rejected)
    case Item(Ok(frame)) =>
      if frame.messageType != LaunchGrant then Refusal(Unbound(), Rejected)
      else
        match VerifyLaunchBundle(cfg.verifier, frame.payload, o.now)
        case Err(e) =>
          if e == InvalidField("agent_update_required") then Refusal(Unbound(), UpdateRequired)
          else Refusal(Unbound(), Rejected)
        case Ok(launch) =>
          if cfg.registration.Some? && cfg.registration.value !=
               Registration(launch.tenantId, launch.gameId, launch.environmentId) then
            Refusal(launch.sessionId, Rejected)
          else if o.files != Checked(0) then Refusal(launch.sessionId, Rejected)
          else Admitted(launch)
  }

  // ---------------------------------------------------------------- the loop

  /** The variables of the loop. */
  datatype Live = Live(
    sequence: uint64,
    previousDigest: digest,
    lastReportAt: int64,
    nextHeartbeat: int,
    reportDeadline: int)

  datatype StepResult = Continue(live: Live, sent: seq<Sent>) | Stop(sent: seq<Sent>, outcome: Outcome)

  function Grace(l: BoundLaunch): nat {
    l.reportSeconds + l.disconnectGraceSeconds
  }

  function FirstLive(l: BoundLaunch, o: Opening): Live {
    Live(1, NoDigest(), 0, o.heartbeatBase + l.heartbeatSeconds, o.deadlineBase + Grace(l))
  }

  function Min(a: int, b: int): int {
    if a <= b then a else b
  }

  /** How many seconds the loop waits for an item. */
  function Wait(l: BoundLaunch, s: Live, now: int): int {
    var wakeAt := Min(Min(s.nextHeartbeat, s.reportDeadline), l.policyExpiresAtUnix);
    if wakeAt - now >= 1 then wakeAt - now else 1
  }

  function Who(cfg: Config, l: BoundLaunch): Identity {
    Identity(cfg.verifier.crypto, cfg.key, l.sessionId, l.buildId)
  }

  /** The signed report a challenge is answered with, or nothing when the session fails instead. */
  function ReportFor(cfg: Config, l: BoundLaunch, s: Live, t: Tick, payload: bytes): Option<Report> {
    match DecodeChallenge(payload, t.later)
    case Err(_) => None
    case Ok(challenge) =>
      if challenge.agentSessionId != l.sessionId then None
      else if t.snapshot.None? || Hex(t.snapshot.value.executableDigest) != cfg.hello.buildId then None
      else
        var observations := Observations(cfg.agentPid, cfg.gamePid, t.snapshot.value, t.game);
        var draft := Draft(Who(cfg, l), s.sequence, s.previousDigest, challenge.nonce, t.later,
                           t.snapshot.value.executableDigest, observations);
        match SignReport(cfg.verifier.crypto, cfg.key, draft)
        case Err(_) => None
        case Ok(report) => Some(report)
  }

  function AfterReport(cfg: Config, l: BoundLaunch, s: Live, report: Report, now: int64): Live
    requires s.sequence + 1 < U64
  {
    s.(sequence := s.sequence + 1,
       previousDigest := ReportDigest(cfg.verifier.crypto, report),
       lastReportAt := now,
       reportDeadline := now + Grace(l))
  }

  function AnswerChallenge(cfg: Config, l: BoundLaunch, s: Live, t: Tick, payload: bytes): (r: StepResult)
    ensures r.Stop? ==> r.outcome != Running && r.sent == []
    ensures r.Continue? ==> |r.sent| == 1 && r.sent[0].SentReport? && s.sequence + 1 < U64
    ensures r.Continue? ==> r.live == AfterReport(cfg, l, s, r.sent[0].report, t.later)
  {
    match ReportFor(cfg, l, s, t, payload)
    case None => Stop([], EndedWithError)
    case Some(report) =>
      if s.sequence + 1 == U64 then Stop([], EndedWithError)
      else if |EncodeReport(report)| > MAX_FRAME_PAYLOAD || !t.written then Stop([], EndedWithError)
      else Continue(AfterReport(cfg, l, s, report, t.later), [SentReport(report)])
  }

  function Finish(l: BoundLaunch, s: Live, state: HealthState, written: bool): (r: StepResult)
    ensures r.Stop? && r.outcome == EndedWithError && |r.sent| <= 1
    ensures forall m <- r.sent :: m.SentHealth? && m.state == state
  {
    Stop(if written then [SentHealth(l.sessionId, state, s.lastReportAt)] else [], EndedWithError)
  }

  /** A revocation ends the session only when it is exactly encoded, verifies, and names it. */
  predicate RevokesSession(cfg: Config, l: BoundLaunch, payload: bytes, now: int64) {
    match Decode(ENVELOPE, payload)
    case None => false
    case Some(m) =>
      Encode(ENVELOPE, m) == payload &&
      match VerifyRevocation(cfg.verifier.crypto, EnvelopeFrom(m), cfg.verifier.keys, now)
      case Err(_) => false
      case Ok(r) =>
        r.agentSessionId == l.sessionId && r.tenantId == l.tenantId && r.gameId == l.gameId &&
        r.environmentId == l.environmentId
  }

  function Handle(cfg: Config, l: BoundLaunch, s: Live, t: Tick, f: Frame): (r: StepResult)
    ensures r.Stop? ==> r.outcome != Running
  {
    match f.messageType
    case ChallengeMessage => AnswerChallenge(cfg, l, s, t, f.payload)
    case RevocationMessage =>
      if RevokesSession(cfg, l, f.payload, t.later) then Finish(l, s, Revoked, t.written)
      else Stop([], EndedWithError)
    case Shutdown => Stop([], if f.payload == [] then EndedNormally else EndedWithError)
    case _ => Stop([], EndedWithError)
  }

  function OnTimeout(l: BoundLaunch, s: Live, t: Tick): (r: StepResult)
    ensures r.Stop? ==> r.outcome != Running
  {
    if t.later >= s.nextHeartbeat && t.later < s.reportDeadline then
      if !t.written then Stop([], EndedWithError)
      else
        Continue(s.(nextHeartbeat := t.later + l.heartbeatSeconds),
                 [SentHealth(l.sessionId, Protected, s.lastReportAt)])
    else Continue(s, [])
  }

  /** One pass of the loop. */
  function LoopStep(cfg: Config, l: BoundLaunch, s: Live, t: Tick): (r: StepResult)
    ensures r.Stop? ==> r.outcome != Running
  {
    if t.now >= l.policyExpiresAtUnix then Finish(l, s, PolicyExpired, t.written)
    else if t.now >= s.reportDeadline then Finish(l, s, Lost, t.written)
    else
      match t.received
      case Item(Ok(f)) => Handle(cfg, l, s, t, f)
      case Item(Err(e)) => Stop([], if e == Io then EndedNormally else EndedWithError)
      case TimedOut => OnTimeout(l, s, t)
      case Disconnected => Stop([], EndedNormally)
  }

  /** What a run has sent, how it stands, and the loop variables and number of passes completed
      when it ended or its inputs ran out. */
  datatype RunResult = RunResult(sent: seq<Sent>, outcome: Outcome, live: Live, passes: nat)

  function Loop(cfg: Config, l: BoundLaunch, s: Live, ticks: seq<Tick>): (r: RunResult)
    ensures r.passes <= |ticks| && (r.outcome == Running <==> r.passes == |ticks|)
    decreases |ticks|
  {
    if ticks == [] then RunResult([], Running, s, 0)
    else
      match LoopStep(cfg, l, s, ticks[0])
      case Stop(sent, outcome) => RunResult(sent, outcome, s, 0)
      case Continue(s', sent) =>
        var r := Loop(cfg, l, s', ticks[1..]);
        r.(sent := sent + r.sent, passes := r.passes + 1)
  }

  /** The hello message fits into a frame; otherwise it cannot be written. */
  predicate HelloFits(cfg: Config) {
    |EncodeToVec(HelloCodec(), cfg.hello)| <= MAX_FRAME_PAYLOAD
  }

  function Opened(cfg: Config, o: Opening): (r: (seq<Sent>, Option<BoundLaunch>)) {
    if !HelloFits(cfg) || !o.helloWritten then ([], None)
    else
      var hello := [SentHello(cfg.hello)];
      match Admit(cfg, o)
      case Refusal(sessionId, state) =>
        (hello + (if o.verdictWritten then [SentHealth(sessionId, state, 0)] else []), None)
      case Admitted(launch) =>
        if o.verdictWritten then (hello + [SentHealth(launch.sessionId, Ready, 0)], Some(launch))
        else (hello, None)
  }

  /** A whole run. */
  function ServeRun(cfg: Config, o: Opening, ticks: seq<Tick>): (seq<Sent>, Outcome) {
    match Opened(cfg, o)
    case (sent, None) => (sent, EndedWithError)
    case (sent, Some(launch)) =>
      var r := Loop(cfg, launch, FirstLive(launch, o), ticks);
      (sent + r.sent, r.outcome)
  }

  /** The opening as the program runs it: hello, admission, and the verdict. */
  method Open(cfg: Config, o: Opening) returns (sent: seq<Sent>, launch: Option<BoundLaunch>)
    ensures (sent, launch) == Opened(cfg, o)
  {
    hide Admit, HelloFits;
    sent := [];
    if !HelloFits(cfg) || !o.helloWritten {
      return sent, None;
    }
    sent := sent + [SentHello(cfg.hello)];
    assert sent == [SentHello(cfg.hello)] == sent + [];
    var verdict := Admit(cfg, o);
    if verdict.Refusal? {
      if o.verdictWritten {
        sent := sent + [SentHealth(verdict.sessionId, verdict.state, 0)];
      }
      return sent, None;
    }
    if !o.verdictWritten {
      return sent, None;
    }
    sent := sent + [SentHealth(verdict.launch.sessionId, Ready, 0)];
    return sent, Some(verdict.launch);
  }

  /** The loop as the program runs it: variables updated in place and messages written as it goes. */
  class ProtectedLoop {
    const cfg: Config
    const launch: BoundLaunch
    var sequence: uint64
    var previousDigest: digest
    var lastReportAt: int64
    var nextHeartbeat: int
    var reportDeadline: int
    var sent: seq<Sent>

    constructor (cfg: Config, launch: BoundLaunch, o: Opening)
      ensures this.cfg == cfg && this.launch == launch
      ensures State() == FirstLive(launch, o) && sent == []
    {
      this.cfg := cfg;
      this.launch := launch;
      sequence := 1;
      previousDigest := NoDigest();
      lastReportAt := 0;
      nextHeartbeat := o.heartbeatBase + launch.heartbeatSeconds;
      reportDeadline := o.deadlineBase + Grace(launch);
      sent := [];
    }

    function State(): Live
      reads this
    {
      Live(sequence, previousDigest, lastReportAt, nextHeartbeat, reportDeadline)
    }

    method WriteHealth(state: HealthState, written: bool)
      modifies this`sent
      ensures sent == old(sent) + (if written then [SentHealth(launch.sessionId, state, lastReportAt)] else [])
    {
      if written {
        sent := sent + [SentHealth(launch.sessionId, state, lastReportAt)];
      }
    }

    method AnswerFrame(t: Tick, frame: Frame) returns (outcome: Outcome)
      modifies this
      ensures match Handle(cfg, launch, old(State()), t, frame)
              case Continue(s, messages) => outcome == Running && State() == s && sent == old(sent) + messages
              case Stop(messages, end) => outcome == end && sent == old(sent) + messages
      ensures outcome != Running ==> State() == old(State())
    {
      hide ReportFor, RevokesSession, EncodeReport, ReportDigest;
      match frame.messageType {
        case ChallengeMessage =>
          var report := ReportFor(cfg, launch, State(), t, frame.payload);
          if report.None? || sequence + 1 == U64 || |EncodeReport(report.value)| > MAX_FRAME_PAYLOAD || !t.written {
            return EndedWithError;
          }
          previousDigest := ReportDigest(cfg.verifier.crypto, report.value);
          lastReportAt := t.later;
          reportDeadline := t.later + Grace(launch);
          sequence := sequence + 1;
          sent := sent + [SentReport(report.value)];
          return Running;
        case RevocationMessage =>
          if RevokesSession(cfg, launch, frame.payload, t.later) {
            WriteHealth(Revoked, t.written);
          }
          return EndedWithError;
        case Shutdown =>
          return if frame.payload == [] then EndedNormally else EndedWithError;
        case _ =>
          return EndedWithError;
      }
    }

    /** One pass of the loop. */
    method Pass(t: Tick) returns (outcome: Outcome)
      modifies this
      ensures match LoopStep(cfg, launch, old(State()), t)
              case Continue(s, messages) => outcome == Running && State() == s && sent == old(sent) + messages
              case Stop(messages, end) => outcome == end && sent == old(sent) + messages
      ensures outcome != Running ==> State() == old(State())
    {
      hide Handle;
      if t.now >= launch.policyExpiresAtUnix {
        WriteHealth(PolicyExpired, t.written);
        return EndedWithError;
      }
      if t.now >= reportDeadline {
        WriteHealth(Lost, t.written);
        return EndedWithError;
      }
      match t.received {
        case Item(Ok(frame)) =>
          outcome := AnswerFrame(t, frame);
          return outcome;
        case Item(Err(e)) =>
          return if e == Io then EndedNormally else EndedWithError;
        case TimedOut =>
          if t.later >= nextHeartbeat && t.later < reportDeadline {
            WriteHealth(Protected, t.written);
            if !t.written {
              return EndedWithError;
            }
            nextHeartbeat := t.later + launch.heartbeatSeconds;
          }
          return Running;
        case Disconnected =>
          return EndedNormally;
      }
    }

    method RunAll(ticks: seq<Tick>) returns (outcome: Outcome)
      modifies this
      ensures var r := Loop(cfg, launch, old(State()), ticks);
              sent == old(sent) + r.sent && outcome == r.outcome && State() == r.live
    {
      hide LoopStep;
      outcome := Running;
      ghost var total := Loop(cfg, launch, State(), ticks);
      ghost var rest := total;
      var i := 0;
      while i < |ticks| && outcome == Running
        invariant 0 <= i <= |ticks|
        invariant outcome == Running ==> rest == Loop(cfg, launch, State(), ticks[i..])
        invariant outcome != Running ==> rest.sent == [] && rest.outcome == outcome && rest.live == State()
        invariant old(sent) + total.sent == sent + rest.sent
        invariant total.outcome == rest.outcome && total.live == rest.live
        decreases |ticks| - i
      {
        ghost var before, step := sent, LoopStep(cfg, launch, State(), ticks[i]);
        assert ticks[i..][0] == ticks[i] && ticks[i..][1..] == ticks[i + 1..];
        outcome := Pass(ticks[i]);
        rest := if outcome == Running then Loop(cfg, launch, State(), ticks[i + 1..])
                else RunResult([], outcome, State(), 0);
        assert before + (step.sent + rest.sent) == sent + rest.sent;
        i := i + 1;
      }
      assert ticks[|ticks|..] == [];
    }
  }

  /** The session as the program runs it. */
  method Serve(cfg: Config, o: Opening, ticks: seq<Tick>) returns (sent: seq<Sent>, outcome: Outcome)
    ensures (sent, outcome) == ServeRun(cfg, o, ticks)
  {
    hide Opened, Loop;
    var launch;
    sent, launch := Open(cfg, o);
    if launch.None? {
      return sent, EndedWithError;
    }
    var protected := new ProtectedLoop(cfg, launch.value, o);
    outcome := protected.RunAll(ticks);
    ghost var r := Loop(cfg, launch.value, FirstLive(launch.value, o), ticks);
    assert [] + r.sent == r.sent;
    sent := sent + protected.sent;
  }
}
