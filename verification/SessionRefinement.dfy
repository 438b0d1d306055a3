/** The session loop and the session object build the same chain of reports. */
module SessionRefinement {
  import opened Bytes
  import opened Wire
  import opened Canonical
  import opened Messages
  import opened Protocol
  import opened Reports
  import opened Sizes
  import opened Ipc
  import opened Evidence
  import opened Session
  import opened Runtime
  import opened SessionProperties

  /** The loop's counter names the next report, the object's the last one. */
  predicate Related(s: ChainState, live: Live) {
    s.sequence + 1 == live.sequence && s.previousDigest == live.previousDigest
  }

  predicate ExecutableUnchanged(cfg: Config, t: Tick) {
    t.snapshot.Some? && Hex(t.snapshot.value.executableDigest) == cfg.hello.buildId
  }

  function EvidenceOf(cfg: Config, t: Tick): seq<Observation>
    requires t.snapshot.Some?
  {
    Observations(cfg.agentPid, cfg.gamePid, t.snapshot.value, t.game)
  }

  function SessionAnswer(cfg: Config, l: BoundLaunch, s: ChainState, t: Tick, c: Challenge)
    : Result<(Report, ChainState), SessionError>
    requires t.snapshot.Some?
  {
    Answer(Who(cfg, l), s, c, t.later, t.snapshot.value.executableDigest, EvidenceOf(cfg, t))
  }

  /** What the object asks of a challenge besides that it is not a repetition. */
  predicate Acceptable(l: BoundLaunch, c: Challenge, now: int64) {
    c.agentSessionId == l.sessionId && 16 <= |c.nonce| <= 256 && now < c.expiresAtUnix <= now + 120
  }

  /** For a session named by an identifier, the loop's decoder accepts the encoding of a challenge for
      that session exactly when the object's own checks would. */
  lemma {:induction false} DecoderAgrees(l: BoundLaunch, c: Challenge, now: int64)
    requires Identifier(l.sessionId)
    ensures DecodeChallenge(EncodeChallenge(c), now) == Ok(c) && c.agentSessionId == l.sessionId <==>
            Acceptable(l, c, now)
    ensures DecodeChallenge(EncodeChallenge(c), now).Ok? ==> DecodeChallenge(EncodeChallenge(c), now) == Ok(c)
  {
    ChallengeFaithful();
    DecodesWhatWasEncoded(ChallengeCodec(), c);
    if Acceptable(l, c, now) {
      ChallengeSize(c);
    }
    hide DecodeCanonical, EncodeToVec;
  }

  /** A challenge that the loop's decoder accepts is the encoding of what it decodes to. */
  lemma {:induction false} AcceptedChallengeIsEncoded(payload: bytes, now: int64)
    requires DecodeChallenge(payload, now).Ok?
    ensures payload == EncodeChallenge(DecodeChallenge(payload, now).value)
  {
    ChallengeFaithful();
    AcceptsExactlyEncodings(ChallengeCodec(), payload, DecodeChallenge(payload, now).value);
    hide DecodeCanonical;
  }

  /** The object's check, which subtracts, and the loop's, which adds, agree on clock readings. */
  lemma {:induction false} WindowsAgree(l: BoundLaunch, c: Challenge, now: int64)
    requires 0 <= now < 0x4000_0000_0000_0000
    ensures ChallengeFits(l.sessionId, c, now) <==> Acceptable(l, c, now)
  {
  }

  /** The unsigned report both programs build for a challenge. */
  function DraftFor(cfg: Config, l: BoundLaunch, sequence: uint64, previous: digest, t: Tick, nonce: bytes): Report
    requires t.snapshot.Some?
  {
    Draft(Who(cfg, l), sequence, previous, nonce, t.later, t.snapshot.value.executableDigest, EvidenceOf(cfg, t))
  }

  /** What comes of a challenge in the loop, which sends a signed report or gives up ... */
  function ToSend(acceptable: bool, signed: Result<Report, ProtocolError>): Option<Report> {
    if acceptable && signed.Ok? then Some(signed.value) else None
  }

  /** ... and in the object, which returns a report or the reason why not. */
  function ToReturn(acceptable: bool, advanced: Result<(Report, ChainState), SessionError>)
    : Result<(Report, ChainState), SessionError>
  {
    if acceptable then advanced else Err(ChallengeRejected)
  }

  lemma {:induction false} LoopAnswer(cfg: Config, l: BoundLaunch, live: Live, t: Tick, c: Challenge)
    requires Identifier(l.sessionId) && ExecutableUnchanged(cfg, t)
    ensures ReportFor(cfg, l, live, t, EncodeChallenge(c)) ==
              ToSend(Acceptable(l, c, t.later),
                     SignReport(cfg.verifier.crypto, cfg.key,
                                DraftFor(cfg, l, live.sequence, live.previousDigest, t, c.nonce)))
  {
    DecoderAgrees(l, c, t.later);
    hide DecodeChallenge, EncodeChallenge, SignReport, Hex, Observations, Acceptable, Identifier, Draft;
  }

  lemma {:induction false} RelatedDraftsAgree(
      cfg: Config, l: BoundLaunch, live: Live, s: ChainState, t: Tick, nonce: bytes)
    requires Related(s, live) && t.snapshot.Some?
    ensures DraftFor(cfg, l, live.sequence, live.previousDigest, t, nonce) ==
            Draft(Who(cfg, l), s.sequence + 1, s.previousDigest, nonce, t.later,
                  t.snapshot.value.executableDigest, EvidenceOf(cfg, t))
    ensures s.sequence + 1 < U64
  {
    hide EvidenceOf;
  }

  lemma {:induction false} ObjectAnswer(cfg: Config, l: BoundLaunch, live: Live, s: ChainState, t: Tick, c: Challenge)
    requires Related(s, live)
    requires 0 <= t.later < 0x4000_0000_0000_0000 && t.snapshot.Some?
    requires s.lastChallenge != Some(cfg.verifier.crypto.hash(EncodeChallenge(c)))
    ensures SessionAnswer(cfg, l, s, t, c) ==
              ToReturn(Acceptable(l, c, t.later),
                       Advance(Who(cfg, l), cfg.verifier.crypto.hash(EncodeChallenge(c)),
                               DraftFor(cfg, l, live.sequence, live.previousDigest, t, c.nonce)))
  {
    WindowsAgree(l, c, t.later);
    FreshChallengeAdvances(Who(cfg, l), s, c, t.later, t.snapshot.value.executableDigest, EvidenceOf(cfg, t));
    RelatedDraftsAgree(cfg, l, live, s, t, c.nonce);
    hide EncodeChallenge, Answer, Advance, EvidenceOf, ChallengeFits, Acceptable, Draft, Related;
  }

  lemma {:induction false} DraftSequence(cfg: Config, l: BoundLaunch, live: Live, t: Tick, nonce: bytes)
    requires t.snapshot.Some?
    ensures DraftFor(cfg, l, live.sequence, live.previousDigest, t, nonce).sequence == live.sequence
  {
  }

  /** Advancing the object's chain succeeds when signing does, and does to it what the loop does to its
      variables. */
  lemma {:induction false} AdvanceMatchesLoop(
      cfg: Config, l: BoundLaunch, live: Live, t: Tick, challengeDigest: digest, draft: Report)
    ensures
      var signed := SignReport(cfg.verifier.crypto, cfg.key, draft);
      var a := Advance(Who(cfg, l), challengeDigest, draft);
      && (signed.Ok? <==> a.Ok?)
      && (a.Err? ==> a.error.Refused?)
      && (a.Ok? ==> a.value.0 == signed.value && a.value.1.lastChallenge == Some(challengeDigest))
      && (a.Ok? && draft.sequence == live.sequence && live.sequence + 1 < U64 ==>
            Related(a.value.1, AfterReport(cfg, l, live, signed.value, t.later)))
  {
    hide SignReport, ReportDigest, Grace;
  }

  /** Both answer or neither does; with the same report, after which the two are related again unless the
      loop's counter has no successor. */
  predicate SameAnswer(cfg: Config, l: BoundLaunch, live: Live, t: Tick, challengeDigest: digest,
                       inLoop: Option<Report>, inObject: Result<(Report, ChainState), SessionError>)
  {
    && (inLoop.Some? <==> inObject.Ok?)
    && (inLoop.Some? ==>
          && inObject.value.0 == inLoop.value
          && inObject.value.1.lastChallenge == Some(challengeDigest)
          && (live.sequence + 1 < U64 ==>
                Related(inObject.value.1, AfterReport(cfg, l, live, inLoop.value, t.later))))
    && (inObject.Err? ==> inObject.error != SequenceExhausted)
  }

  lemma {:induction false} SameDraftSameAnswer(
      cfg: Config, l: BoundLaunch, live: Live, t: Tick, challengeDigest: digest, draft: Report, acceptable: bool,
      inLoop: Option<Report>, inObject: Result<(Report, ChainState), SessionError>)
    requires draft.sequence == live.sequence
    requires inLoop == ToSend(acceptable, SignReport(cfg.verifier.crypto, cfg.key, draft))
    requires inObject == ToReturn(acceptable, Advance(Who(cfg, l), challengeDigest, draft))
    ensures SameAnswer(cfg, l, live, t, challengeDigest, inLoop, inObject)
  {
    hide SignReport, Advance, AfterReport, Related;
    AdvanceMatchesLoop(cfg, l, live, t, challengeDigest, draft);
  }

  /** On the encoding of any challenge that does not repeat the last one, the loop answers exactly when
      the object does, with the same report; and the two stay related, unless the loop's counter has
      no successor, where the loop stops and the object sends this one report more. */
  lemma {:induction false} AnswersAgree(cfg: Config, l: BoundLaunch, live: Live, s: ChainState, t: Tick, c: Challenge)
    requires Related(s, live)
    requires Identifier(l.sessionId) && 0 <= t.later < 0x4000_0000_0000_0000
    requires ExecutableUnchanged(cfg, t)
    requires s.lastChallenge != Some(cfg.verifier.crypto.hash(EncodeChallenge(c)))
    ensures SameAnswer(cfg, l, live, t, cfg.verifier.crypto.hash(EncodeChallenge(c)),
                       ReportFor(cfg, l, live, t, EncodeChallenge(c)), SessionAnswer(cfg, l, s, t, c))
  {
    assert t.snapshot.Some?;
    hide *;
    var digest := cfg.verifier.crypto.hash(EncodeChallenge(c));
    var draft := DraftFor(cfg, l, live.sequence, live.previousDigest, t, c.nonce);
    var acceptable := Acceptable(l, c, t.later);
    assert ReportFor(cfg, l, live, t, EncodeChallenge(c)) ==
           ToSend(acceptable, SignReport(cfg.verifier.crypto, cfg.key, draft)) by {
      LoopAnswer(cfg, l, live, t, c);
    }
    assert SessionAnswer(cfg, l, s, t, c) == ToReturn(acceptable, Advance(Who(cfg, l), digest, draft)) by {
      ObjectAnswer(cfg, l, live, s, t, c);
    }
    DraftSequence(cfg, l, live, t, c.nonce);
    SameDraftSameAnswer(cfg, l, live, t, digest, draft, acceptable,
                        ReportFor(cfg, l, live, t, EncodeChallenge(c)), SessionAnswer(cfg, l, s, t, c));
  }

  lemma {:induction false} SigningDecides(who: Identity, draft: Report)
    requires draft.signature == []
    ensures
      var signed := SignReport(who.crypto, who.key, draft);
      && (signed.Ok? <==> ValidateReport(draft).Ok? && ReportLength(draft) <= MAX_MESSAGE_BYTES)
      && (signed.Ok? ==> signed.value == draft.(signature := signed.value.signature))
  {
    hide SignReport, ValidateReport, ReportLength;
    assert Unsigned(draft) == draft;
    SignedIffSmall(who.crypto, who.key, draft);
    if SignReport(who.crypto, who.key, draft).Ok? {
      SigningKeepsReport(who.crypto, who.key, draft);
    }
  }

  /** The object refuses a challenge exactly if it does not fit or repeats the last one; otherwise it is
      exhausted exactly at the largest number; otherwise it answers exactly if the report is valid and
      takes at most 64 KiB, and passes the signing error on if not. An answer advances number and digest
      by this one report. */
  lemma {:induction false} ObjectErrors(
      who: Identity, s: ChainState, c: Challenge, now: int64, executable: digest, obs: seq<Observation>)
    ensures
      var refused := !ChallengeFits(who.agentSessionId, c, now) || s.lastChallenge == Some(who.crypto.hash(EncodeChallenge(c)));
      var exhausted := s.sequence == U64 - 1;
      var a := Answer(who, s, c, now, executable, obs);
      && (a == Err(ChallengeRejected) <==> refused)
      && (a == Err(SequenceExhausted) <==> !refused && exhausted)
      && (!refused && !exhausted ==>
            var draft := Draft(who, s.sequence + 1, s.previousDigest, c.nonce, now, executable, obs);
            && (a.Ok? <==> ValidateReport(draft).Ok? && ReportLength(draft) <= MAX_MESSAGE_BYTES)
            && (a.Err? ==> a.error.Refused? && Err(a.error.source) == SignReport(who.crypto, who.key, draft)))
    ensures Answer(who, s, c, now, executable, obs).Ok? ==>
              var (report, s') := Answer(who, s, c, now, executable, obs).value;
              && s'.sequence == s.sequence + 1 == report.sequence
              && report.previousReportDigest == s.previousDigest
              && s'.previousDigest == ReportDigest(who.crypto, report)
              && report.challengeNonce == c.nonce
              && report.protocolVersion == 1 && report.observedAtUnix == now
              && report.agentSessionId == who.agentSessionId && report.buildId == who.buildId
              && report.executableSha256 == executable && report.observations == obs
              && s'.lastChallenge == Some(who.crypto.hash(EncodeChallenge(c)))
  {
    hide ChallengeFits, EncodeChallenge, SignReport, ReportDigest, ValidateReport, ReportLength;
    if s.sequence + 1 < U64 {
      SigningDecides(who, Draft(who, s.sequence + 1, s.previousDigest, c.nonce, now, executable, obs));
    }
  }

  /** The object answers exactly those challenges for which the loop makes a report and that are no
      repetition. As long as the message can be written, loop and object differ exactly when the loop
      makes a report and either the challenge repeats the last one, which the loop answers, or the loop's
      counter is at its end, where the loop stops, but not both. */
  lemma {:induction false} WhereTheyDiffer(cfg: Config, l: BoundLaunch, live: Live, s: ChainState, t: Tick, c: Challenge)
    requires Related(s, live)
    requires Identifier(l.sessionId) && 0 <= t.later < 0x4000_0000_0000_0000
    requires ExecutableUnchanged(cfg, t)
    ensures
      var inLoop := ReportFor(cfg, l, live, t, EncodeChallenge(c));
      var inObject := SessionAnswer(cfg, l, s, t, c);
      var repeated := s.lastChallenge == Some(cfg.verifier.crypto.hash(EncodeChallenge(c)));
      && (inObject.Ok? <==> inLoop.Some? && !repeated)
      && (repeated ==> inObject == Err(ChallengeRejected))
      && (t.written && (inLoop.Some? ==> |EncodeReport(inLoop.value)| <= MAX_FRAME_PAYLOAD) ==>
            (AnswerChallenge(cfg, l, live, t, EncodeChallenge(c)).Continue? != inObject.Ok? <==>
               inLoop.Some? && repeated != (live.sequence + 1 == U64)))
  {
    SentIffFramed(cfg, l, live, t, EncodeChallenge(c));
    if s.lastChallenge == Some(cfg.verifier.crypto.hash(EncodeChallenge(c))) {
      RepetitionIsRefused(cfg, l, s, t, c);
    } else {
      AnswersAgree(cfg, l, live, s, t, c);
    }
    hide ReportFor, SessionAnswer, EncodeChallenge, EncodeReport, AnswerChallenge, ExecutableUnchanged, Related,
      Identifier, AfterReport;
  }

  lemma {:induction false} RepetitionIsRefused(cfg: Config, l: BoundLaunch, s: ChainState, t: Tick, c: Challenge)
    requires t.snapshot.Some?
    requires s.lastChallenge == Some(cfg.verifier.crypto.hash(EncodeChallenge(c)))
    ensures SessionAnswer(cfg, l, s, t, c) == Err(ChallengeRejected)
  {
    hide EncodeChallenge, ChallengeFits, Observations;
  }

  // ---------------------------------------------------------------- whole runs

  function PayloadOf(t: Tick): bytes
    requires IsChallenge(t)
  {
    t.received.item.value.payload
  }

  /** No challenge repeats the one before it. */
  predicate NoRepeats(cfg: Config, last: Option<digest>, asked: seq<Tick>)
    requires forall t <- asked :: IsChallenge(t)
    decreases |asked|
  {
    asked == [] ||
    (last != Some(cfg.verifier.crypto.hash(PayloadOf(asked[0]))) &&
     NoRepeats(cfg, Some(cfg.verifier.crypto.hash(PayloadOf(asked[0]))), asked[1..]))
  }

  /** The reports the object creates for the same challenges and evidence, if it accepts them all. */
  function ObjectRun(cfg: Config, l: BoundLaunch, s: ChainState, asked: seq<Tick>): Option<seq<Report>>
    requires forall t <- asked :: IsChallenge(t)
    decreases |asked|
  {
    if asked == [] then Some([])
    else
      var t := asked[0];
      match DecodeChallenge(PayloadOf(t), t.later)
      case Err(_) => None
      case Ok(c) =>
        if t.snapshot.None? then None
        else
          match SessionAnswer(cfg, l, s, t, c)
          case Err(_) => None
          case Ok((report, s')) =>
            var more :- ObjectRun(cfg, l, s', asked[1..]);
            Some([report] + more)
  }

  lemma {:induction false} AskedAreChallenges(ticks: seq<Tick>, passes: nat)
    requires passes <= |ticks|
    ensures forall t <- Asked(ticks, passes) :: IsChallenge(t)
    decreases passes
  {
    if passes > 0 {
      AskedAreChallenges(ticks[1..], passes - 1);
    }
  }

  lemma {:induction false} ChallengeStep(cfg: Config, l: BoundLaunch, live: Live, t: Tick)
    requires LoopStep(cfg, l, live, t).Continue?
    ensures
      var step := LoopStep(cfg, l, live, t);
      if IsChallenge(t) then
        var report := ReportFor(cfg, l, live, t, PayloadOf(t));
        report.Some? && live.sequence + 1 < U64 && step.live == AfterReport(cfg, l, live, report.value, t.later)
        && step.sent == [SentReport(report.value)]
      else step.live.sequence == live.sequence && step.live.previousDigest == live.previousDigest
           && ReportsOf(step.sent) == []
  {
    if IsChallenge(t) {
      hide ReportFor, EncodeReport, AfterReport;
    } else {
      StepAnswers(cfg, l, live, t);
      hide ReportFor, RevokesSession, AnswerChallenge, ReportsOf;
    }
  }

  lemma {:induction false} AnsweredChallenge(cfg: Config, l: BoundLaunch, live: Live, t: Tick, payload: bytes)
    requires ReportFor(cfg, l, live, t, payload).Some?
    ensures DecodeChallenge(payload, t.later).Ok? && t.snapshot.Some? && ExecutableUnchanged(cfg, t)
  {
    hide DecodeChallenge, SignReport, Observations, Hex;
  }

  /** The object's answer to a challenge that the loop answered in one pass. */
  function AnswerIn(cfg: Config, l: BoundLaunch, s: ChainState, t: Tick): Result<(Report, ChainState), SessionError>
    requires IsChallenge(t) && t.snapshot.Some? && DecodeChallenge(PayloadOf(t), t.later).Ok?
  {
    SessionAnswer(cfg, l, s, t, DecodeChallenge(PayloadOf(t), t.later).value)
  }

  lemma {:induction false} AnsweredPassAgrees(cfg: Config, l: BoundLaunch, live: Live, s: ChainState, t: Tick)
    requires Related(s, live) && Identifier(l.sessionId) && 0 <= t.later < 0x4000_0000_0000_0000
    requires IsChallenge(t) && LoopStep(cfg, l, live, t).Continue?
    requires s.lastChallenge != Some(cfg.verifier.crypto.hash(PayloadOf(t)))
    ensures t.snapshot.Some? && DecodeChallenge(PayloadOf(t), t.later).Ok?
    ensures
      var a := AnswerIn(cfg, l, s, t);
      var step := LoopStep(cfg, l, live, t);
      && a.Ok? && ReportsOf(step.sent) == [a.value.0] && Related(a.value.1, step.live)
      && a.value.1.lastChallenge == Some(cfg.verifier.crypto.hash(PayloadOf(t)))
  {
    hide LoopStep, DecodeChallenge, ReportFor, SessionAnswer, AfterReport, Related, EncodeChallenge, Identifier;
    ChallengeStep(cfg, l, live, t);
    AnsweredChallenge(cfg, l, live, t, PayloadOf(t));
    AcceptedChallengeIsEncoded(PayloadOf(t), t.later);
    AnswersAgree(cfg, l, live, s, t, DecodeChallenge(PayloadOf(t), t.later).value);
    ReportOfOne(LoopStep(cfg, l, live, t).sent[0]);
  }

  lemma {:induction false} OtherPassAgrees(cfg: Config, l: BoundLaunch, live: Live, s: ChainState, t: Tick)
    requires Related(s, live) && !IsChallenge(t) && LoopStep(cfg, l, live, t).Continue?
    ensures ReportsOf(LoopStep(cfg, l, live, t).sent) == [] && Related(s, LoopStep(cfg, l, live, t).live)
  {
    hide LoopStep, IsChallenge, ReportsOf;
    ChallengeStep(cfg, l, live, t);
  }

  lemma {:induction false} NothingAsked(cfg: Config, l: BoundLaunch, s: ChainState)
    ensures ObjectRun(cfg, l, s, []) == Some([]) && ReportsOf([]) == []
  {
  }

  /** What one more challenge in front means for both definitions. */
  lemma {:induction false} OneMoreAsked(cfg: Config, l: BoundLaunch, s: ChainState, t: Tick, later: seq<Tick>)
    requires IsChallenge(t) && forall u <- later :: IsChallenge(u)
    ensures forall u <- [t] + later :: IsChallenge(u)
    ensures NoRepeats(cfg, s.lastChallenge, [t] + later) <==>
            s.lastChallenge != Some(cfg.verifier.crypto.hash(PayloadOf(t))) &&
            NoRepeats(cfg, Some(cfg.verifier.crypto.hash(PayloadOf(t))), later)
    ensures t.snapshot.Some? && DecodeChallenge(PayloadOf(t), t.later).Ok? && AnswerIn(cfg, l, s, t).Ok? ==>
              var (report, s') := AnswerIn(cfg, l, s, t).value;
              var more := ObjectRun(cfg, l, s', later);
              more.Some? ==> ObjectRun(cfg, l, s, [t] + later) == Some([report] + more.value)
  {
    hide DecodeChallenge, SessionAnswer, IsChallenge;
    var asked := [t] + later;
    assert asked[0] == t && asked[1..] == later;
  }

  /** Over whole runs: whatever the loop is given, the object given the challenges that the loop
      answered creates the very reports that the loop sent, provided none repeats its predecessor. */
  lemma {:induction false} RunsAgree(cfg: Config, l: BoundLaunch, live: Live, s: ChainState, ticks: seq<Tick>)
    requires Related(s, live) && Identifier(l.sessionId)
    requires forall t <- ticks :: 0 <= t.later < 0x4000_0000_0000_0000
    requires
      var asked := Asked(ticks, Loop(cfg, l, live, ticks).passes);
      (forall t <- asked :: IsChallenge(t)) && NoRepeats(cfg, s.lastChallenge, asked)
    ensures
      var r := Loop(cfg, l, live, ticks);
      ObjectRun(cfg, l, s, Asked(ticks, r.passes)) == Some(ReportsOf(r.sent))
    decreases |ticks|
  {
    hide LoopStep, IsChallenge, DecodeChallenge, AnswerIn, Related, Identifier, ObjectRun, NoRepeats, ReportsOf;
    if ticks != [] {
      var t := ticks[0];
      var step := LoopStep(cfg, l, live, t);
      if step.Continue? {
        var r := Loop(cfg, l, step.live, ticks[1..]);
        var later := Asked(ticks[1..], r.passes);
        ReportsOfConcat(step.sent, r.sent);
        if IsChallenge(t) {
          assert Asked(ticks, r.passes + 1) == [t] + later;
          AskedAreChallenges(ticks[1..], r.passes);
          OneMoreAsked(cfg, l, s, t, later);
          AnsweredPassAgrees(cfg, l, live, s, t);
          RunsAgree(cfg, l, step.live, AnswerIn(cfg, l, s, t).value.1, ticks[1..]);
        } else {
          assert Asked(ticks, r.passes + 1) == later;
          OtherPassAgrees(cfg, l, live, s, t);
          RunsAgree(cfg, l, step.live, s, ticks[1..]);
          assert [] + ReportsOf(r.sent) == ReportsOf(r.sent);
        }
      } else {
        StopSendsNoReport(cfg, l, live, t);
        NothingAsked(cfg, l, s);
      }
    } else {
      NothingAsked(cfg, l, s);
    }
  }

  // ---------------------------------------------------------------- no report is too large

  /** The evidence of a pass stays within what the Linux collector delivers. */
  predicate CollectedOnLinux(t: Tick) {
    t.snapshot.Some? && |t.snapshot.value.platform| <= 512
    && ShortNames(t.snapshot.value.moduleBasenames) && ShortNames(t.game.moduleBasenames)
  }

  /** With such evidence, every challenge that passes its checks gets a report that is sent: none is
      refused as invalid or too large, neither when it is signed nor when it is framed. */
  lemma {:induction false} AcceptedChallengeIsAnswered(
      cfg: Config, l: BoundLaunch, live: Live, t: Tick, c: Challenge, now: int64)
    requires Bounded(l, now) && live.sequence >= 1
    requires CollectedOnLinux(t) && ExecutableUnchanged(cfg, t)
    requires Acceptable(l, c, t.later)
    ensures
      var report := ReportFor(cfg, l, live, t, EncodeChallenge(c));
      && report.Some? && |EncodeReport(report.value)| <= 58971 < MAX_FRAME_PAYLOAD
      && (AnswerChallenge(cfg, l, live, t, EncodeChallenge(c)).Continue? <==> t.written && live.sequence + 1 < U64)
  {
    LoopAnswer(cfg, l, live, t, c);
    DraftFits(cfg, l, live, t, c.nonce);
    SentIffFramed(cfg, l, live, t, EncodeChallenge(c));
    hide AnswerChallenge, ReportFor, EncodeChallenge, EncodeReport, SignReport, DraftFor, Identifier, ShortNames;
  }

  /** The draft that answers a challenge is valid, whatever was observed. */
  lemma {:induction false} DraftIsValid(cfg: Config, l: BoundLaunch, live: Live, t: Tick, nonce: bytes)
    requires Identifier(l.sessionId) && Identifier(l.buildId) && live.sequence >= 1
    requires t.snapshot.Some? && 16 <= |nonce| <= 256
    ensures
      var draft := DraftFor(cfg, l, live.sequence, live.previousDigest, t, nonce);
      Unsigned(draft) == draft && ValidateReport(draft).Ok?
  {
    hide Observations, Identifier, ValidateReport;
    ReportIsValid(DraftFor(cfg, l, live.sequence, live.previousDigest, t, nonce));
  }

  /** Whatever was observed, a challenge that passes its checks gets a report exactly if the report takes
      at most 64 KiB unsigned; and it is sent exactly if it still does with its signature, the write
      succeeds, and the counter has a successor. */
  lemma {:induction false} ChallengeIsAnsweredIff(
      cfg: Config, l: BoundLaunch, live: Live, t: Tick, c: Challenge, now: int64)
    requires Bounded(l, now) && live.sequence >= 1
    requires ExecutableUnchanged(cfg, t) && Acceptable(l, c, t.later)
    ensures
      var length := ReportLength(DraftFor(cfg, l, live.sequence, live.previousDigest, t, c.nonce));
      && (ReportFor(cfg, l, live, t, EncodeChallenge(c)).Some? <==> length <= MAX_MESSAGE_BYTES)
      && (AnswerChallenge(cfg, l, live, t, EncodeChallenge(c)).Continue? <==>
            length + 66 <= MAX_FRAME_PAYLOAD && t.written && live.sequence + 1 < U64)
  {
    LoopAnswer(cfg, l, live, t, c);
    DraftIsValid(cfg, l, live, t, c.nonce);
    SignedIffSmall(cfg.verifier.crypto, cfg.key, DraftFor(cfg, l, live.sequence, live.previousDigest, t, c.nonce));
    SentIffFramed(cfg, l, live, t, EncodeChallenge(c));
    hide AnswerChallenge, ReportFor, EncodeChallenge, EncodeReport, SignReport, DraftFor, Identifier, ValidateReport,
      ReportLength;
  }

  /** A session that collects such long names answers no challenge: it ends. */
  lemma {:induction false} LongNamesEndTheSession(
      cfg: Config, l: BoundLaunch, live: Live, t: Tick, c: Challenge, now: int64)
    requires Bounded(l, now) && live.sequence >= 1
    requires ExecutableUnchanged(cfg, t) && Acceptable(l, c, t.later)
    requires t.snapshot.value.moduleBasenames == t.game.moduleBasenames == LongNames()
    requires t.now < l.policyExpiresAtUnix && t.now < live.reportDeadline
    requires t.received == Item(Ok(Frame(ChallengeMessage, EncodeChallenge(c))))
    ensures CollectedOnWindows(t.game.moduleBasenames)
    ensures LoopStep(cfg, l, live, t) == Stop([], EndedWithError)
  {
    hide EncodeChallenge, ReportFor, DraftFor, Identifier, TextLength, EvidenceLength, Observations, LongNames,
      CollectedOnWindows;
    DraftObserves(cfg, l, live, t, c.nonce);
    LongNamesOverflow(cfg.agentPid, cfg.gamePid, t.snapshot.value, t.game);
    TextIsCounted(EvidenceOf(cfg, t));
    ChallengeIsAnsweredIff(cfg, l, live, t, c, now);
  }

  lemma {:induction false} DraftObserves(cfg: Config, l: BoundLaunch, live: Live, t: Tick, nonce: bytes)
    requires t.snapshot.Some?
    ensures DraftFor(cfg, l, live.sequence, live.previousDigest, t, nonce).observations ==
            EvidenceOf(cfg, t) == Observations(cfg.agentPid, cfg.gamePid, t.snapshot.value, t.game)
  {
    hide Observations;
  }

  lemma {:induction false} SentIffFramed(cfg: Config, l: BoundLaunch, live: Live, t: Tick, payload: bytes)
    ensures
      var report := ReportFor(cfg, l, live, t, payload);
      AnswerChallenge(cfg, l, live, t, payload).Continue? <==>
        report.Some? && |EncodeReport(report.value)| <= MAX_FRAME_PAYLOAD && t.written && live.sequence + 1 < U64
  {
    hide ReportFor, EncodeReport, AfterReport;
  }

  lemma {:induction false} DraftFits(cfg: Config, l: BoundLaunch, live: Live, t: Tick, nonce: bytes)
    requires Identifier(l.sessionId) && Identifier(l.buildId) && live.sequence >= 1
    requires CollectedOnLinux(t) && 16 <= |nonce| <= 256
    ensures
      var signed := SignReport(cfg.verifier.crypto, cfg.key, DraftFor(cfg, l, live.sequence, live.previousDigest, t, nonce));
      signed.Ok? && |EncodeReport(signed.value)| <= 58971
  {
    hide SignReport, Observations, EncodeReport, ShortNames, Identifier, ValidateReport;
    EvidenceFits(cfg.verifier.crypto, cfg.key, DraftFor(cfg, l, live.sequence, live.previousDigest, t, nonce),
                 cfg.agentPid, cfg.gamePid, t.snapshot.value, t.game);
  }
}
