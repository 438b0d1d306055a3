/** What every run of the protected session satisfies. */
module SessionProperties {
  import opened Bytes
  import opened Wire
  import opened Canonical
  import opened Messages
  import opened Protocol
  import opened Reports
  import opened Sizes
  import opened Ipc
  import opened Evidence
  import opened Session
  import opened Runtime

  // ---------------------------------------------------------------- the order of messages

  predicate Ongoing(m: Sent) {
    m.SentReport? || (m.SentHealth? && m.state.Protected?)
  }

  predicate Final(m: Sent) {
    m.SentHealth? && (m.state.PolicyExpired? || m.state.Lost? || m.state.Revoked?)
  }

  /** Heartbeats and reports in any mix, and after them at most one message that ends the session. */
  predicate LoopTrace(sent: seq<Sent>) {
    forall i :: 0 <= i < |sent| ==> Ongoing(sent[i]) || (i == |sent| - 1 && Final(sent[i]))
  }

  /** Every trace a run can leave behind, whole or cut short by a failing write. */
  predicate ServeTrace(sent: seq<Sent>) {
    || sent == []
    || (|sent| == 1 && sent[0].SentHello?)
    || (|sent| == 2 && sent[0].SentHello? && sent[1].SentHealth? && (sent[1].state.Rejected? || sent[1].state.UpdateRequired?))
    || (|sent| >= 2 && sent[0].SentHello? && sent[1].SentHealth? && sent[1].state.Ready? && LoopTrace(sent[2..]))
  }

  lemma {:induction false} StepTrace(cfg: Config, l: BoundLaunch, s: Live, t: Tick)
    ensures match LoopStep(cfg, l, s, t)
            case Continue(_, sent) => |sent| <= 1 && (forall m <- sent :: Ongoing(m))
            case Stop(sent, outcome) => |sent| <= 1 && (forall m <- sent :: Final(m) && outcome == EndedWithError)
  {
    hide AnswerChallenge, Handle, Finish;
    if t.received.Item? && t.received.item.Ok? {
      FrameTrace(cfg, l, s, t, t.received.item.value);
    }
  }

  lemma {:induction false} FrameTrace(cfg: Config, l: BoundLaunch, s: Live, t: Tick, f: Frame)
    ensures match Handle(cfg, l, s, t, f)
            case Continue(_, sent) => |sent| <= 1 && (forall m <- sent :: Ongoing(m))
            case Stop(sent, outcome) => |sent| <= 1 && (forall m <- sent :: Final(m) && outcome == EndedWithError)
  {
    hide AnswerChallenge, RevokesSession, Finish, AfterReport, Final, Ongoing;
    match f.messageType {
      case ChallengeMessage =>
        var r := AnswerChallenge(cfg, l, s, t, f.payload);
        if r.Continue? {
          ReportIsOngoing(r.sent[0]);
        }
      case RevocationMessage =>
        FinishIsFinal(l, s, Revoked, t.written);
      case _ =>
    }
  }

  lemma {:induction false} ReportIsOngoing(m: Sent)
    requires m.SentReport?
    ensures Ongoing(m)
  {
  }

  lemma {:induction false} FinishIsFinal(l: BoundLaunch, s: Live, state: HealthState, written: bool)
    requires state.PolicyExpired? || state.Lost? || state.Revoked?
    ensures forall m <- Finish(l, s, state, written).sent :: Final(m)
  {
  }

  lemma {:induction false} LoopTraceOfRun(cfg: Config, l: BoundLaunch, s: Live, ticks: seq<Tick>)
    ensures
      var r := Loop(cfg, l, s, ticks);
      && LoopTrace(r.sent)
      && ((exists m <- r.sent :: Final(m)) ==> r.outcome == EndedWithError)
    decreases |ticks|
  {
    hide LoopStep, Final, Ongoing;
    if ticks != [] {
      StepTrace(cfg, l, s, ticks[0]);
      var step := LoopStep(cfg, l, s, ticks[0]);
      if step.Continue? {
        LoopTraceOfRun(cfg, l, step.live, ticks[1..]);
        assert forall m <- step.sent :: Ongoing(m) && !Final(m) by {
          OngoingIsNotFinal(step.sent);
        }
      }
    }
  }

  lemma {:induction false} OngoingIsNotFinal(sent: seq<Sent>)
    requires forall m <- sent :: Ongoing(m)
    ensures forall m <- sent :: !Final(m)
  {
  }

  /** Every run says hello, then either refuses admission with one message, or reports that it is
      ready and from then on sends heartbeats and reports until at most one closing message. */
  lemma {:induction false} TraceOfServe(cfg: Config, o: Opening, ticks: seq<Tick>)
    ensures ServeTrace(ServeRun(cfg, o, ticks).0)
  {
    hide Admit, Loop, LoopTrace;
    var (sent, launch) := Opened(cfg, o);
    if launch.Some? {
      var r := Loop(cfg, launch.value, FirstLive(launch.value, o), ticks);
      LoopTraceOfRun(cfg, launch.value, FirstLive(launch.value, o), ticks);
      assert (sent + r.sent)[2..] == r.sent;
    } else {
      RefusalKinds(cfg, o);
    }
  }

  lemma {:induction false} RefusalKinds(cfg: Config, o: Opening)
    ensures Admit(cfg, o).Refusal? ==> Admit(cfg, o).state.Rejected? || Admit(cfg, o).state.UpdateRequired?
  {
    hide VerifyLaunchBundle, Unbound;
  }

  /** A run that got as far as saying it is ready received a launch bundle, verified it, matched it
      with its registration, and found no mismatching file; and the session it names is that of the
      bundle's grant. */
  lemma {:induction false} ReadyIsEarned(cfg: Config, o: Opening, ticks: seq<Tick>)
    requires |ServeRun(cfg, o, ticks).0| >= 2
    requires ServeRun(cfg, o, ticks).0[1].SentHealth? && ServeRun(cfg, o, ticks).0[1].state.Ready?
    ensures o.bootstrap.Item? && o.bootstrap.item.Ok? && o.bootstrap.item.value.messageType == LaunchGrant
    ensures
      var v := VerifyLaunchBundle(cfg.verifier, o.bootstrap.item.value.payload, o.now);
      && v.Ok? && Bounded(v.value, o.now)
      && o.files == Checked(0)
      && (cfg.registration.Some? ==>
            cfg.registration.value == Registration(v.value.tenantId, v.value.gameId, v.value.environmentId))
      && ServeRun(cfg, o, ticks).0[1].sessionId == v.value.sessionId
      && v.value.buildId == cfg.verifier.buildId
  {
    assert Admit(cfg, o).Admitted? && ServeRun(cfg, o, ticks).0[1].sessionId == Admit(cfg, o).launch.sessionId by {
      hide Admit, Loop;
      RefusalKinds(cfg, o);
    }
    hide ServeRun, Loop, VerifyLaunchBundle, Bounded, Unbound;
    AcceptedBundleIsBound(cfg.verifier, o.bootstrap.item.value.payload, o.now);
  }

  /** A revocation of this session, canonically encoded and signed as one by a usable key. */
  ghost predicate RevokedBy(cfg: Config, l: BoundLaunch, payload: bytes, now: int64) {
    exists e: Envelope, r: RevocationClaims ::
      && payload == EncodeToVec(EnvelopeCodec(), e)
      && SignedAs(cfg.verifier.crypto, cfg.verifier.keys, RevocationDomain, e, now)
      && e.claims == EncodeToVec(RevocationClaimsCodec(), r)
      && r.agentSessionId == l.sessionId && r.tenantId == l.tenantId && r.gameId == l.gameId
      && r.environmentId == l.environmentId && now < r.expiresAtUnix
  }

  lemma {:induction false} RevocationIsEarned(cfg: Config, l: BoundLaunch, payload: bytes, now: int64)
    requires RevokesSession(cfg, l, payload, now)
    ensures RevokedBy(cfg, l, payload, now)
  {
    var m := Decode(ENVELOPE, payload).value;
    var e := EnvelopeFrom(m);
    assert payload == EncodeToVec(EnvelopeCodec(), e);
    hide Decode, Encode, EncodeToVec, VerifyRevocation, SignedAs, DecodeCanonical;
    var r := VerifyRevocation(cfg.verifier.crypto, e, cfg.verifier.keys, now).value;
    RevocationIsSigned(cfg.verifier.crypto, e, cfg.verifier.keys, now);
    AcceptsExactlyEncodings(RevocationClaimsCodec(), e.claims, r);
  }

  /** A closing message is sent only for its reason: expiry when the policy has expired, loss when the
      report deadline has passed before that, and revocation when this very session was revoked. */
  lemma {:induction false} ClosingIsEarned(cfg: Config, l: BoundLaunch, s: Live, t: Tick, m: Sent)
    requires m in LoopStep(cfg, l, s, t).sent && Final(m)
    ensures m.sessionId == l.sessionId && m.lastReportAt == s.lastReportAt
    ensures m.state.PolicyExpired? <==> l.policyExpiresAtUnix <= t.now
    ensures m.state.Lost? <==> s.reportDeadline <= t.now < l.policyExpiresAtUnix
    ensures m.state.Revoked? ==>
              && t.received.Item? && t.received.item.Ok? && t.received.item.value.messageType == RevocationMessage
              && RevokedBy(cfg, l, t.received.item.value.payload, t.later)
  {
    hide Handle, RevokedBy;
    if t.now < l.policyExpiresAtUnix && t.now < s.reportDeadline {
      if t.received.Item? && t.received.item.Ok? {
        FrameClosing(cfg, l, s, t, t.received.item.value, m);
      }
    }
  }

  lemma {:induction false} FrameClosing(cfg: Config, l: BoundLaunch, s: Live, t: Tick, f: Frame, m: Sent)
    requires m in Handle(cfg, l, s, t, f).sent && Final(m)
    ensures m.state.Revoked? && m.sessionId == l.sessionId && m.lastReportAt == s.lastReportAt
    ensures f.messageType == RevocationMessage && RevokedBy(cfg, l, f.payload, t.later)
  {
    AnswersCloseNothing(cfg, l, s, t, f.payload);
    hide AnswerChallenge, RevokesSession, RevokedBy;
    if f.messageType == RevocationMessage && RevokesSession(cfg, l, f.payload, t.later) {
      RevocationIsEarned(cfg, l, f.payload, t.later);
    }
  }

  lemma {:induction false} AnswersCloseNothing(cfg: Config, l: BoundLaunch, s: Live, t: Tick, payload: bytes)
    ensures forall m <- AnswerChallenge(cfg, l, s, t, payload).sent :: !Final(m)
  {
    hide AnswerChallenge, AfterReport;
  }

  // ---------------------------------------------------------------- reports form one chain

  function ReportsOf(sent: seq<Sent>): seq<Report> {
    if sent == [] then []
    else (if sent[0].SentReport? then [sent[0].report] else []) + ReportsOf(sent[1..])
  }

  lemma {:induction false} ReportsOfConcat(a: seq<Sent>, b: seq<Sent>)
    ensures ReportsOf(a + b) == ReportsOf(a) + ReportsOf(b)
    decreases |a|
  {
    if a == [] {
      assert a + b == b;
    } else {
      var first, more := if a[0].SentReport? then [a[0].report] else [], a[1..];
      assert (a + b)[0] == a[0] && (a + b)[1..] == more + b;
      ReportsOfConcat(more, b);
      assert ReportsOf(a) == first + ReportsOf(more) && ReportsOf(a + b) == first + ReportsOf(more + b);
      hide ReportsOf;
      assert first + (ReportsOf(more) + ReportsOf(b)) == first + ReportsOf(more) + ReportsOf(b);
    }
  }

  lemma {:induction false} ReportOfOne(m: Sent)
    ensures ReportsOf([m]) == if m.SentReport? then [m.report] else []
  {
    assert [m][1..] == [];
  }

  /** The loop variables continue the chain of the reports sent before. */
  ghost predicate Continues(cfg: Config, s: Live, reports: seq<Report>) {
    && Chained(cfg.verifier.crypto, reports)
    && s.sequence == |reports| + 1
    && s.previousDigest == LastDigest(cfg.verifier.crypto, reports)
  }

  lemma {:induction false} ReportForSignsDraft(cfg: Config, l: BoundLaunch, s: Live, t: Tick, payload: bytes)
    returns (draft: Report)
    requires ReportFor(cfg, l, s, t, payload).Some?
    ensures draft.sequence == s.sequence && draft.previousReportDigest == s.previousDigest
    ensures SignReport(cfg.verifier.crypto, cfg.key, draft) == Ok(ReportFor(cfg, l, s, t, payload).value)
    ensures DecodeChallenge(payload, t.later).Ok? && draft.challengeNonce == DecodeChallenge(payload, t.later).value.nonce
    ensures draft.observedAtUnix == t.later && draft.agentSessionId == l.sessionId && draft.buildId == l.buildId
    ensures draft.protocolVersion == 1 && t.snapshot.Some?
    ensures draft.executableSha256 == t.snapshot.value.executableDigest
    ensures draft.observations == Observations(cfg.agentPid, cfg.gamePid, t.snapshot.value, t.game)
  {
    hide DecodeChallenge, SignReport, Observations, Hex;
    var observations := Observations(cfg.agentPid, cfg.gamePid, t.snapshot.value, t.game);
    draft := Draft(Who(cfg, l), s.sequence, s.previousDigest, DecodeChallenge(payload, t.later).value.nonce, t.later,
                   t.snapshot.value.executableDigest, observations);
  }

  lemma {:induction false} StepContinuesChain(cfg: Config, l: BoundLaunch, s: Live, t: Tick, reports: seq<Report>)
    requires Continues(cfg, s, reports)
    ensures
      var step := LoopStep(cfg, l, s, t);
      && Chained(cfg.verifier.crypto, reports + ReportsOf(step.sent))
      && (step.Continue? ==> Continues(cfg, step.live, reports + ReportsOf(step.sent)))
  {
    hide ReportFor, RevokesSession, EncodeReport, SignReport, Chained, LastDigest, ReportDigest;
    var step := LoopStep(cfg, l, s, t);
    if step.sent != [] {
      assert step.sent == [step.sent[0]];
      ReportOfOne(step.sent[0]);
    }
    if step.Continue? && t.received.Item? {
      var payload := t.received.item.value.payload;
      var report := ReportFor(cfg, l, s, t, payload).value;
      var draft := ReportForSignsDraft(cfg, l, s, t, payload);
      SignedReportJoinsChain(cfg.verifier.crypto, cfg.key, reports, draft);
      assert ReportsOf(step.sent) == [report];
    } else {
      assert reports + [] == reports;
    }
  }

  lemma {:induction false} LoopContinuesChain(
      cfg: Config, l: BoundLaunch, s: Live, ticks: seq<Tick>, reports: seq<Report>)
    requires Continues(cfg, s, reports)
    ensures Chained(cfg.verifier.crypto, reports + ReportsOf(Loop(cfg, l, s, ticks).sent))
    ensures Continues(cfg, Loop(cfg, l, s, ticks).live, reports + ReportsOf(Loop(cfg, l, s, ticks).sent))
            || Loop(cfg, l, s, ticks).outcome != Running
    decreases |ticks|
  {
    hide LoopStep, Chained, LastDigest;
    if ticks == [] {
      assert reports + ReportsOf([]) == reports;
    } else {
      var step := LoopStep(cfg, l, s, ticks[0]);
      StepContinuesChain(cfg, l, s, ticks[0], reports);
      if step.Continue? {
        var r := Loop(cfg, l, step.live, ticks[1..]);
        LoopContinuesChain(cfg, l, step.live, ticks[1..], reports + ReportsOf(step.sent));
        ReportsOfConcat(step.sent, r.sent);
        assert reports + ReportsOf(step.sent) + ReportsOf(r.sent) == reports + (ReportsOf(step.sent) + ReportsOf(r.sent));
      }
    }
  }

  /** In every run the reports are numbered 1, 2, 3, ... and each carries the digest of the signed
      report before it, the first one 32 zero octets. */
  lemma {:induction false} ServeReportsAreChained(cfg: Config, o: Opening, ticks: seq<Tick>)
    ensures Chained(cfg.verifier.crypto, ReportsOf(ServeRun(cfg, o, ticks).0))
  {
    hide Admit, Chained, Loop;
    var (sent, launch) := Opened(cfg, o);
    assert ReportsOf(sent) == [] by {
      if |sent| == 2 {
        assert sent == [sent[0]] + [sent[1]];
        ReportsOfConcat([sent[0]], [sent[1]]);
        ReportOfOne(sent[0]);
        ReportOfOne(sent[1]);
      } else if |sent| == 1 {
        assert sent == [sent[0]];
        ReportOfOne(sent[0]);
      }
    }
    assert Chained(cfg.verifier.crypto, []) by {
      EmptyChain(cfg.verifier.crypto);
    }
    if launch.Some? {
      var r := Loop(cfg, launch.value, FirstLive(launch.value, o), ticks);
      LoopContinuesChain(cfg, launch.value, FirstLive(launch.value, o), ticks, []);
      ReportsOfConcat(sent, r.sent);
      assert [] + ReportsOf(r.sent) == ReportsOf(r.sent);
    }
  }

  lemma {:induction false} EmptyChain(c: Crypto)
    ensures Chained(c, [])
  {
  }

  /** Two runs, whatever their sessions and inputs, that have a report in common sent it at the same
      position and agree on every report before it, or they exhibit a hash collision. */
  lemma {:induction false} CommonReportPinsBothRuns(
      cfg: Config, o: Opening, ticks: seq<Tick>, cfg': Config, o': Opening, ticks': seq<Tick>, i: nat, j: nat)
    requires cfg.verifier.crypto == cfg'.verifier.crypto
    requires i < |ReportsOf(ServeRun(cfg, o, ticks).0)| && j < |ReportsOf(ServeRun(cfg', o', ticks').0)|
    requires ReportsOf(ServeRun(cfg, o, ticks).0)[i] == ReportsOf(ServeRun(cfg', o', ticks').0)[j]
    ensures
      var a, b := ReportsOf(ServeRun(cfg, o, ticks).0), ReportsOf(ServeRun(cfg', o', ticks').0);
      i == j && ((forall k :: 0 <= k <= i ==> a[k] == b[k]) || ChainCollision(cfg.verifier.crypto, a, b))
  {
    hide ServeRun, ReportsOf, Chained, ChainCollision;
    ServeReportsAreChained(cfg, o, ticks);
    ServeReportsAreChained(cfg', o', ticks');
    ReportPinsHistory(cfg.verifier.crypto, ReportsOf(ServeRun(cfg, o, ticks).0), ReportsOf(ServeRun(cfg', o', ticks').0), i, j);
  }

  // ---------------------------------------------------------------- reports answer challenges

  predicate IsChallenge(t: Tick) {
    t.received.Item? && t.received.item.Ok? && t.received.item.value.messageType == ChallengeMessage
  }

  /** The passes that were completed and took a challenge from the channel. */
  function Asked(ticks: seq<Tick>, passes: nat): seq<Tick>
    requires passes <= |ticks|
    decreases passes
  {
    if passes == 0 then []
    else (if IsChallenge(ticks[0]) then [ticks[0]] else []) + Asked(ticks[1..], passes - 1)
  }

  /** The report answers the challenge that the pass took: with its nonce, at its time, for this session and
      build, and with the evidence that was collected then. */
  predicate Answers(cfg: Config, l: BoundLaunch, r: Report, t: Tick) {
    && IsChallenge(t)
    && (var c := DecodeChallenge(t.received.item.value.payload, t.later);
        c.Ok? && c.value.agentSessionId == l.sessionId && r.challengeNonce == c.value.nonce)
    && r.protocolVersion == 1
    && r.observedAtUnix == t.later
    && r.agentSessionId == l.sessionId
    && r.buildId == l.buildId
    && t.snapshot.Some?
    && r.executableSha256 == t.snapshot.value.executableDigest
    && r.observations == Observations(cfg.agentPid, cfg.gamePid, t.snapshot.value, t.game)
  }

  lemma {:induction false} StepSends(cfg: Config, l: BoundLaunch, s: Live, t: Tick)
    requires LoopStep(cfg, l, s, t).Continue?
    ensures
      var sent := LoopStep(cfg, l, s, t).sent;
      if IsChallenge(t) then
        var report := ReportFor(cfg, l, s, t, t.received.item.value.payload);
        report.Some? && sent == [SentReport(report.value)]
      else |sent| <= 1 && forall m <- sent :: !m.SentReport?
  {
    hide ReportFor, RevokesSession, EncodeReport, AfterReport;
  }

  lemma {:induction false} StepAnswers(cfg: Config, l: BoundLaunch, s: Live, t: Tick)
    requires LoopStep(cfg, l, s, t).Continue?
    ensures
      var reports := ReportsOf(LoopStep(cfg, l, s, t).sent);
      if IsChallenge(t) then |reports| == 1 && Answers(cfg, l, reports[0], t) else reports == []
  {
    var sent := LoopStep(cfg, l, s, t).sent;
    StepSends(cfg, l, s, t);
    if sent != [] {
      assert sent == [sent[0]];
      ReportOfOne(sent[0]);
    }
    hide LoopStep, DecodeChallenge, SignReport, ReportsOf, ReportFor;
    if IsChallenge(t) {
      var draft := ReportForSignsDraft(cfg, l, s, t, t.received.item.value.payload);
      SigningKeepsReport(cfg.verifier.crypto, cfg.key, draft);
    }
  }

  lemma {:induction false} StopSendsNoReport(cfg: Config, l: BoundLaunch, s: Live, t: Tick)
    requires LoopStep(cfg, l, s, t).Stop?
    ensures ReportsOf(LoopStep(cfg, l, s, t).sent) == []
  {
    StepTrace(cfg, l, s, t);
    var sent := LoopStep(cfg, l, s, t).sent;
    hide LoopStep;
    if sent != [] {
      assert sent == [sent[0]] && Final(sent[0]);
      ReportOfOne(sent[0]);
    }
  }

  /** Reports answer the consumed challenges one for one and in order, each at its own time. */
  lemma {:induction false} ReportsAnswerChallenges(cfg: Config, l: BoundLaunch, s: Live, ticks: seq<Tick>)
    ensures
      var r := Loop(cfg, l, s, ticks);
      var reports, asked := ReportsOf(r.sent), Asked(ticks, r.passes);
      |reports| == |asked| && forall i :: 0 <= i < |reports| ==> Answers(cfg, l, reports[i], asked[i])
    decreases |ticks|
  {
    hide LoopStep, Answers, IsChallenge;
    if ticks != [] {
      var step := LoopStep(cfg, l, s, ticks[0]);
      if step.Continue? {
        var r := Loop(cfg, l, step.live, ticks[1..]);
        StepAnswers(cfg, l, s, ticks[0]);
        ReportsAnswerChallenges(cfg, l, step.live, ticks[1..]);
        ReportsOfConcat(step.sent, r.sent);
      } else {
        StopSendsNoReport(cfg, l, s, ticks[0]);
      }
    }
  }
}
