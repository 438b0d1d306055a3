/** What exactly a session does: which verdict a launch gets, what each pass of the loop sends and how it
    ends, and how its times are set. */
module SessionOutcomes {
  import opened Bytes
  import opened Wire
  import opened Canonical
  import opened Messages
  import opened Protocol
  import opened Reports
  import opened Ipc
  import opened Evidence
  import opened Session
  import opened Runtime
  import opened SessionProperties
  import opened Acceptance

  // ---------------------------------------------------------------- admission

  predicate BundleArrived(o: Opening) {
    o.bootstrap.Item? && o.bootstrap.item.Ok? && o.bootstrap.item.value.messageType == LaunchGrant
  }

  /** The bundle that arrived is accepted. */
  predicate BundleAccepted(cfg: Config, o: Opening) {
    BundleArrived(o) && VerifyLaunchBundle(cfg.verifier, o.bootstrap.item.value.payload, o.now).Ok?
  }

  function AcceptedLaunch(cfg: Config, o: Opening): BoundLaunch
    requires BundleAccepted(cfg, o)
  {
    VerifyLaunchBundle(cfg.verifier, o.bootstrap.item.value.payload, o.now).value
  }

  /** The parts of the bundle that arrived verify and agree, but the agent is older than they ask for. */
  ghost predicate UpdateNeeded(cfg: Config, o: Opening) {
    BundleArrived(o) && exists p ::
      && Verified(cfg.verifier, o.bootstrap.item.value.payload, o.now, p)
      && VersionsParse(cfg.verifier, p) && Agree(cfg.verifier, p) && TooOld(cfg.verifier, p)
  }

  /** The launch is the registered one, if there is a registration, and no file was found to differ. */
  predicate GameMatches(cfg: Config, o: Opening, l: BoundLaunch) {
    && (cfg.registration.Some? ==>
          && cfg.registration.value.tenantId == l.tenantId
          && cfg.registration.value.gameId == l.gameId
          && cfg.registration.value.environmentId == l.environmentId)
    && o.files == Checked(0)
  }

  lemma {:induction false} NotBoundYet()
    ensures Unbound() == Ascii("unbound")
  {
  }

  /** A launch is admitted exactly if its bundle is accepted and the game matches. It is asked to update
      exactly if only its age keeps the bundle from being accepted. Otherwise it is rejected, under the
      session's name once the bundle is accepted. */
  lemma {:induction false} AdmissionDecides(cfg: Config, o: Opening)
    ensures Admit(cfg, o).Admitted? <==> BundleAccepted(cfg, o) && GameMatches(cfg, o, AcceptedLaunch(cfg, o))
    ensures Admit(cfg, o).Admitted? ==> Admit(cfg, o).launch == AcceptedLaunch(cfg, o)
    ensures Admit(cfg, o) == Refusal(Unbound(), UpdateRequired) <==> UpdateNeeded(cfg, o)
    ensures !Admit(cfg, o).Admitted? && !UpdateNeeded(cfg, o) ==>
              Admit(cfg, o) == Refusal(if BundleAccepted(cfg, o) then AcceptedLaunch(cfg, o).sessionId else Unbound(), Rejected)
  {
    hide VerifyLaunchBundle, Unbound, Verified, VersionsParse, Agree, TooOld;
    if BundleArrived(o) {
      BundleIsAcceptedIff(cfg.verifier, o.bootstrap.item.value.payload, o.now);
    }
  }

  /** Both messages of the opening can be written. */
  predicate OpeningWritten(cfg: Config, o: Opening) {
    HelloFits(cfg) && o.helloWritten && o.verdictWritten
  }

  /** The verdict that a run sends after its hello, and that a refused run ends with it, as an error. */
  lemma {:induction false} VerdictIsSent(cfg: Config, o: Opening, ticks: seq<Tick>)
    requires OpeningWritten(cfg, o)
    ensures
      var (sent, outcome) := ServeRun(cfg, o, ticks);
      && |sent| >= 2 && sent[0] == SentHello(cfg.hello)
      && (if BundleAccepted(cfg, o) && GameMatches(cfg, o, AcceptedLaunch(cfg, o)) then
            sent[1] == SentHealth(AcceptedLaunch(cfg, o).sessionId, Ready, 0)
          else
            && |sent| == 2 && outcome == EndedWithError
            && sent[1] == if UpdateNeeded(cfg, o) then SentHealth(Unbound(), UpdateRequired, 0)
                          else if BundleAccepted(cfg, o) then SentHealth(AcceptedLaunch(cfg, o).sessionId, Rejected, 0)
                          else SentHealth(Unbound(), Rejected, 0))
  {
    hide Admit, BundleAccepted, GameMatches, AcceptedLaunch, UpdateNeeded, Loop, FirstLive, HelloFits;
    AdmissionDecides(cfg, o);
  }

  /** Without a hello nothing else is sent, and without a verdict nothing but the hello. */
  lemma {:induction false} OpeningNotWritten(cfg: Config, o: Opening, ticks: seq<Tick>)
    requires !OpeningWritten(cfg, o)
    ensures ServeRun(cfg, o, ticks) ==
              (if HelloFits(cfg) && o.helloWritten then [SentHello(cfg.hello)] else [], EndedWithError)
  {
    hide Admit, HelloFits;
    assert [SentHello(cfg.hello)] + [] == [SentHello(cfg.hello)];
  }

  /** The session that a run is ready for is that of the grant in its bundle, with the grant's claims and
      the policy's periods. */
  lemma {:induction false} LaunchIsThatOfTheGrant(cfg: Config, o: Opening, p: Parts)
    requires BundleAccepted(cfg, o) && Verified(cfg.verifier, o.bootstrap.item.value.payload, o.now, p)
    ensures Carries(cfg.verifier, p, AcceptedLaunch(cfg, o))
  {
    hide VerifyLaunchBundle, Verified, Carries, VersionsParse, Agree, TooOld;
    BundleIsAcceptedIff(cfg.verifier, o.bootstrap.item.value.payload, o.now);
  }

  // ---------------------------------------------------------------- passes

  /** The payload is an encoded envelope of a revocation that verifies and names this session. */
  ghost predicate Revokes(cfg: Config, l: BoundLaunch, payload: bytes, now: int64) {
    exists e: Envelope, r: RevocationClaims ::
      && payload == EncodeToVec(EnvelopeCodec(), e) && |payload| < U64
      && VerifyRevocation(cfg.verifier.crypto, e, cfg.verifier.keys, now) == Ok(r)
      && r.agentSessionId == l.sessionId && r.tenantId == l.tenantId && r.gameId == l.gameId
      && r.environmentId == l.environmentId
  }

  lemma {:induction false} RevocationDecides(cfg: Config, l: BoundLaunch, payload: bytes, now: int64)
    requires |payload| <= MAX_FRAME_PAYLOAD
    ensures RevokesSession(cfg, l, payload, now) <==> Revokes(cfg, l, payload, now)
  {
    hide Decode, Encode, VerifyRevocation;
    EnvelopeFaithful();
    if RevokesSession(cfg, l, payload, now) {
      assert payload == EncodeToVec(EnvelopeCodec(), EnvelopeFrom(Decode(ENVELOPE, payload).value));
    }
    if Revokes(cfg, l, payload, now) {
      var e: Envelope, r: RevocationClaims :|
        && payload == EncodeToVec(EnvelopeCodec(), e) && |payload| < U64
        && VerifyRevocation(cfg.verifier.crypto, e, cfg.verifier.keys, now) == Ok(r)
        && r.agentSessionId == l.sessionId && r.tenantId == l.tenantId && r.gameId == l.gameId
        && r.environmentId == l.environmentId;
      DecodeEncode(ENVELOPE, EnvelopeTo(e));
      assert Decode(ENVELOPE, payload) == Some(EnvelopeTo(e)) && EnvelopeFrom(EnvelopeTo(e)) == e;
    }
  }

  /** A closing message, if it can be written, and the end with an error. */
  function Closing(l: BoundLaunch, s: Live, state: HealthState, t: Tick): StepResult {
    if t.written then Stop([SentHealth(l.sessionId, state, s.lastReportAt)], EndedWithError) else Stop([], EndedWithError)
  }

  /** The policy's expiry comes first, and the report deadline second, whatever was received. */
  lemma {:induction false} LimitsComeFirst(cfg: Config, l: BoundLaunch, s: Live, t: Tick)
    ensures l.policyExpiresAtUnix <= t.now ==> LoopStep(cfg, l, s, t) == Closing(l, s, PolicyExpired, t)
    ensures s.reportDeadline <= t.now < l.policyExpiresAtUnix ==> LoopStep(cfg, l, s, t) == Closing(l, s, Lost, t)
  {
  }

  /** A pass before both limits that waited in vain sends a heartbeat exactly if one is due and the report
      deadline has not come meanwhile, and then the next one is due an interval later. */
  lemma {:induction false} HeartbeatIsDue(cfg: Config, l: BoundLaunch, s: Live, t: Tick)
    requires t.now < l.policyExpiresAtUnix && t.now < s.reportDeadline && t.received.TimedOut?
    ensures LoopStep(cfg, l, s, t) ==
              if s.nextHeartbeat <= t.later < s.reportDeadline then
                if t.written then
                  Continue(Live(s.sequence, s.previousDigest, s.lastReportAt, t.later + l.heartbeatSeconds, s.reportDeadline),
                           [SentHealth(l.sessionId, Protected, s.lastReportAt)])
                else Stop([], EndedWithError)
              else Continue(s, [])
  {
  }

  /** A closed channel ends the session in order, any other fault of the channel as an error. */
  lemma {:induction false} EndOfChannel(cfg: Config, l: BoundLaunch, s: Live, t: Tick)
    requires t.now < l.policyExpiresAtUnix && t.now < s.reportDeadline
    ensures t.received.Disconnected? || t.received == Item(Err(Io)) ==> LoopStep(cfg, l, s, t) == Stop([], EndedNormally)
    ensures t.received.Item? && t.received.item.Err? && t.received.item.error != Io ==>
              LoopStep(cfg, l, s, t) == Stop([], EndedWithError)
  {
  }

  /** A frame other than a challenge ends the session: an empty shutdown in order, everything else as an
      error; and a revocation of this session is told. */
  lemma {:induction false} FrameEndsSession(cfg: Config, l: BoundLaunch, s: Live, t: Tick, f: Frame)
    requires t.now < l.policyExpiresAtUnix && t.now < s.reportDeadline
    requires t.received == Item(Ok(f)) && f.messageType != ChallengeMessage && |f.payload| <= MAX_FRAME_PAYLOAD
    ensures LoopStep(cfg, l, s, t) ==
              if f == Frame(Shutdown, []) then Stop([], EndedNormally)
              else if f.messageType == RevocationMessage && Revokes(cfg, l, f.payload, t.later) then Closing(l, s, Revoked, t)
              else Stop([], EndedWithError)
  {
    hide RevokesSession, Revokes, AnswerChallenge;
    RevocationDecides(cfg, l, f.payload, t.later);
  }

  /** The loop after sending a report: the next number, the report's digest, and a new deadline. */
  function Reported(cfg: Config, l: BoundLaunch, s: Live, report: Report, now: int64): StepResult
    requires s.sequence + 1 < U64
  {
    Continue(Live(s.sequence + 1, cfg.verifier.crypto.hash(EncodeReport(report)), now, s.nextHeartbeat,
                  now + l.reportSeconds + l.disconnectGraceSeconds),
             [SentReport(report)])
  }

  /** A challenge is answered with one report, or it ends the session as an error. */
  lemma {:induction false} ChallengeIsAnsweredOrEnds(cfg: Config, l: BoundLaunch, s: Live, t: Tick, payload: bytes)
    requires t.now < l.policyExpiresAtUnix && t.now < s.reportDeadline
    requires t.received == Item(Ok(Frame(ChallengeMessage, payload)))
    ensures LoopStep(cfg, l, s, t) ==
              match ReportFor(cfg, l, s, t, payload)
              case None => Stop([], EndedWithError)
              case Some(report) =>
                if |EncodeReport(report)| <= MAX_FRAME_PAYLOAD && t.written && s.sequence + 1 < U64
                then Reported(cfg, l, s, report, t.later)
                else Stop([], EndedWithError)
  {
    hide ReportFor, EncodeReport;
  }

  // ---------------------------------------------------------------- times

  /** How a session begins: with number 1, 32 zero octets for a digest, and its periods from now. */
  lemma {:induction false} SessionBegins(l: BoundLaunch, o: Opening)
    ensures
      var s := FirstLive(l, o);
      && s.sequence == 1 && s.lastReportAt == 0
      && |s.previousDigest| == 32 && (forall i :: 0 <= i < 32 ==> s.previousDigest[i] == 0)
      && s.nextHeartbeat == o.heartbeatBase + l.heartbeatSeconds
      && s.reportDeadline == o.deadlineBase + l.reportSeconds + l.disconnectGraceSeconds
  {
  }

  /** A pass waits until the first of its three times comes, but at least a second. */
  lemma {:induction false} WaitIsExact(l: BoundLaunch, s: Live, now: int)
    ensures
      var times := [s.nextHeartbeat, s.reportDeadline, l.policyExpiresAtUnix];
      var wait := Wait(l, s, now);
      if exists t <- times :: t <= now + 1 then wait == 1
      else now + wait in times && forall t <- times :: now + wait <= t
  {
    var times := [s.nextHeartbeat, s.reportDeadline, l.policyExpiresAtUnix];
    assert times[0] in times && times[1] in times && times[2] in times;
  }
}
