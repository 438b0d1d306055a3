/** A whole session between two octet streams: the one that the game sends, which reaches the session
    through the reader thread, and the one that the game reads back. */
module SessionStreams {
  import opened Bytes
  import opened Wire
  import opened Canonical
  import opened Messages
  import opened Protocol
  import opened Reports
  import opened Sizes
  import opened Ipc
  import opened Evidence
  import opened Session
  import opened Runtime
  import opened SessionProperties
  import opened SessionRefinement

  // ---------------------------------------------------------------- what comes in

  /** The items that the passes took from the channel, in order. */
  function Taken(ticks: seq<Tick>): seq<Item> {
    if ticks == [] then [] else TakenBy(ticks[0]) + Taken(ticks[1..])
  }

  function TakenBy(t: Tick): seq<Item> {
    if t.received.Item? then [t.received.item] else []
  }

  lemma {:induction false} Associate(a: seq<Item>, b: seq<Item>, c: seq<Item>)
    ensures a + (b + c) == a + b + c
  {
  }

  /** What the session received is what the reader thread delivered of the stream under some schedule. */
  ghost predicate Fed(stream: bytes, o: Opening, ticks: seq<Tick>) {
    exists moves: seq<Move> ::
      Run(Start(stream), moves).received == (if o.bootstrap.Item? then [o.bootstrap.item] else []) + Taken(ticks)
  }

  lemma {:induction false} TakenConcat(a: seq<Tick>, b: seq<Tick>)
    ensures Taken(a + b) == Taken(a) + Taken(b)
    decreases |a|
  {
    if a == [] {
      assert a + b == b && [] + Taken(b) == Taken(b);
    } else {
      assert (a + b)[0] == a[0] && (a + b)[1..] == a[1..] + b;
      TakenConcat(a[1..], b);
      Associate(TakenBy(a[0]), Taken(a[1..]), Taken(b));
      hide TakenBy;
    }
  }

  lemma {:induction false} OnlyChallengesGoOn(cfg: Config, l: BoundLaunch, s: Live, t: Tick)
    requires LoopStep(cfg, l, s, t).Continue? && t.received.Item?
    ensures IsChallenge(t)
  {
    hide AnswerChallenge, RevokesSession;
  }

  /** Every item that a completed pass took is a challenge that was answered. */
  lemma {:induction false} TakenAreAsked(cfg: Config, l: BoundLaunch, s: Live, ticks: seq<Tick>)
    ensures
      var passes := Loop(cfg, l, s, ticks).passes;
      var asked := Asked(ticks, passes);
      && |Taken(ticks[..passes])| == |asked|
      && forall i :: 0 <= i < |asked| ==> asked[i].received == Item(Taken(ticks[..passes])[i])
    decreases |ticks|
  {
    hide LoopStep, IsChallenge;
    var passes := Loop(cfg, l, s, ticks).passes;
    if ticks != [] && LoopStep(cfg, l, s, ticks[0]).Continue? {
      var live := LoopStep(cfg, l, s, ticks[0]).live;
      TakenAreAsked(cfg, l, live, ticks[1..]);
      assert ticks[..passes][1..] == ticks[1..][..passes - 1];
      if ticks[0].received.Item? {
        OnlyChallengesGoOn(cfg, l, s, ticks[0]);
      }
      assert IsChallenge(ticks[0]) ==> ticks[0].received.Item? by {
        ChallengeIsItem(ticks[0]);
      }
    } else {
      assert passes == 0 && ticks[..0] == [];
    }
  }

  lemma {:induction false} ChallengeIsItem(t: Tick)
    ensures IsChallenge(t) ==> t.received.Item? && t.received.item.Ok?
  {
  }

  /** The frame is a challenge of the session, exactly encoded, that the report answers in time. */
  ghost predicate AnswersFrame(r: Report, f: Frame) {
    f.messageType == ChallengeMessage &&
    exists c: Challenge ::
      && f.payload == EncodeChallenge(c)
      && c.agentSessionId == r.agentSessionId && c.nonce == r.challengeNonce && r.observedAtUnix < c.expiresAtUnix
  }

  lemma {:induction false} AnswerNamesFrame(cfg: Config, l: BoundLaunch, r: Report, t: Tick)
    requires Answers(cfg, l, r, t)
    ensures t.received.Item? && t.received.item.Ok? && AnswersFrame(r, t.received.item.value)
  {
    var payload := t.received.item.value.payload;
    AcceptedChallengeIsEncoded(payload, t.later);
    AcceptedChallengeIsCurrent(payload, t.later);
    hide DecodeChallenge, EncodeChallenge;
    var c := DecodeChallenge(payload, t.later).value;
    assert payload == EncodeChallenge(c);
  }

  lemma {:induction false} AcceptedChallengeIsCurrent(payload: bytes, now: int64)
    requires DecodeChallenge(payload, now).Ok?
    ensures now < DecodeChallenge(payload, now).value.expiresAtUnix
  {
    hide DecodeCanonical;
  }

  lemma {:induction false} FramesAmongItems(stream: bytes, i: nat)
    requires i < |Items(stream)| && Items(stream)[i].Ok?
    ensures i < |ReadAll(stream).0| && ReadAll(stream).0[i] == Items(stream)[i].value
  {
    ItemsAreFramesThenError(stream);
  }

  /** A pass that answers a challenge took its frame from the stream, after the launch bundle. */
  lemma {:induction false} AskedIsInStream(stream: bytes, first: Item, asked: seq<Tick>, taken: seq<Item>, i: nat)
    requires [first] + taken <= Items(stream)
    requires i < |asked| <= |taken| && asked[i].received == Item(taken[i]) && taken[i].Ok?
    ensures i + 1 < |ReadAll(stream).0| && ReadAll(stream).0[i + 1] == taken[i].value
  {
    hide Items, ReadAll;
    assert Items(stream)[i + 1] == ([first] + taken)[i + 1] == taken[i];
    FramesAmongItems(stream, i + 1);
  }

  lemma {:induction false} LoopAnswersStream(
      cfg: Config, l: BoundLaunch, live: Live, ticks: seq<Tick>, stream: bytes, first: Item)
    requires [first] + Taken(ticks) <= Items(stream)
    ensures
      var reports, frames := ReportsOf(Loop(cfg, l, live, ticks).sent), ReadAll(stream).0;
      && (reports != [] ==> |reports| < |frames|)
      && forall i :: 0 <= i < |reports| && i + 1 < |frames| ==> AnswersFrame(reports[i], frames[i + 1])
  {
    hide Loop, Answers, AnswersFrame, ReportsOf, Items, ReadAll, Asked;
    var r := Loop(cfg, l, live, ticks);
    var asked, reports := Asked(ticks, r.passes), ReportsOf(r.sent);
    ReportsAnswerChallenges(cfg, l, live, ticks);
    TakenAreAsked(cfg, l, live, ticks);
    assert ticks == ticks[..r.passes] + ticks[r.passes..];
    TakenConcat(ticks[..r.passes], ticks[r.passes..]);
    hide Taken;
    forall i | 0 <= i < |reports|
      ensures i + 1 < |ReadAll(stream).0| && AnswersFrame(reports[i], ReadAll(stream).0[i + 1])
    {
      AnswerNamesFrame(cfg, l, reports[i], asked[i]);
      AskedIsInStream(stream, first, asked, Taken(ticks), i);
    }
    if reports != [] {
      var last := |reports| - 1;
      AnswerNamesFrame(cfg, l, reports[last], asked[last]);
      AskedIsInStream(stream, first, asked, Taken(ticks), last);
    }
  }

  /** The first report answers the second frame of the stream, the second report the third, and so on:
      no frame after the launch bundle goes unanswered before the last report, none is answered twice,
      and none out of turn. */
  lemma {:induction false} ReportsAnswerStream(cfg: Config, o: Opening, ticks: seq<Tick>, stream: bytes)
    requires Fed(stream, o, ticks)
    ensures
      var reports, frames := ReportsOf(ServeRun(cfg, o, ticks).0), ReadAll(stream).0;
      && (reports != [] ==> |reports| < |frames| && frames[0].messageType == LaunchGrant)
      && forall i :: 0 <= i < |reports| && i + 1 < |frames| ==> AnswersFrame(reports[i], frames[i + 1])
  {
    hide Opened, Loop, AnswersFrame, ReportsOf, Items, ReadAll, Fed, Taken;
    OpeningSendsNoReport(cfg, o);
    var (opening, launch) := Opened(cfg, o);
    if launch.Some? {
      var r := Loop(cfg, launch.value, FirstLive(launch.value, o), ticks);
      ReportsOfConcat(opening, r.sent);
      assert [] + ReportsOf(r.sent) == ReportsOf(r.sent);
      LaunchedByBundle(cfg, o);
      FedInOrder(stream, o, ticks);
      assert Items(stream)[0] == ([o.bootstrap.item] + Taken(ticks))[0];
      FramesAmongItems(stream, 0);
      LoopAnswersStream(cfg, launch.value, FirstLive(launch.value, o), ticks, stream, o.bootstrap.item);
    }
  }

  lemma {:induction false} OpeningSendsNoReport(cfg: Config, o: Opening)
    ensures ReportsOf(Opened(cfg, o).0) == []
  {
    hide Admit, FirstLive;
    var sent := Opened(cfg, o).0;
    if |sent| == 2 {
      assert sent == [sent[0]] + [sent[1]];
      ReportsOfConcat([sent[0]], [sent[1]]);
      ReportOfOne(sent[0]);
      ReportOfOne(sent[1]);
    } else if |sent| == 1 {
      assert sent == [sent[0]];
      ReportOfOne(sent[0]);
    }
  }

  lemma {:induction false} LaunchedByBundle(cfg: Config, o: Opening)
    requires Opened(cfg, o).1.Some?
    ensures o.bootstrap.Item? && o.bootstrap.item.Ok? && o.bootstrap.item.value.messageType == LaunchGrant
  {
    hide VerifyLaunchBundle, Unbound;
  }

  lemma {:induction false} FedInOrder(stream: bytes, o: Opening, ticks: seq<Tick>)
    requires Fed(stream, o, ticks) && o.bootstrap.Item?
    ensures [o.bootstrap.item] + Taken(ticks) <= Items(stream)
  {
    hide Taken, Run, Items;
    var moves :| Run(Start(stream), moves).received == [o.bootstrap.item] + Taken(ticks);
    NothingIsLost(stream, moves);
  }

  // ---------------------------------------------------------------- what goes out

  function StateText(s: HealthState): text {
    match s
    case Rejected => AsciiText("rejected")
    case UpdateRequired => AsciiText("update_required")
    case Ready => AsciiText("ready")
    case Protected => AsciiText("protected")
    case PolicyExpired => AsciiText("expired")
    case Lost => AsciiText("lost")
    case Revoked => AsciiText("revoked")
  }

  /** The frame a message is written as; a health message may give reasons. */
  function FrameOf(m: Sent, reasons: seq<text>): Frame {
    match m
    case SentHello(hello) => Frame(AgentHello, EncodeToVec(HelloCodec(), hello))
    case SentHealth(sessionId, state, lastReportAt) =>
      Frame(HealthMessage, EncodeToVec(HealthCodec(), Health(sessionId, StateText(state), lastReportAt, reasons)))
    case SentReport(report) => Frame(IntegrityReport, EncodeReport(report))
  }

  /** The words for the states. */
  lemma {:induction false} StatesInWords()
    ensures StateText(Rejected) == Ascii("rejected") && StateText(UpdateRequired) == Ascii("update_required")
    ensures StateText(Ready) == Ascii("ready") && StateText(Protected) == Ascii("protected")
    ensures StateText(PolicyExpired) == Ascii("expired") && StateText(Lost) == Ascii("lost")
    ensures StateText(Revoked) == Ascii("revoked")
  {
    hide Ascii, AsciiText;
    assert AsciiText("rejected") == Ascii("rejected") && AsciiText("update_required") == Ascii("update_required");
    assert AsciiText("ready") == Ascii("ready") && AsciiText("protected") == Ascii("protected");
    assert AsciiText("expired") == Ascii("expired") && AsciiText("lost") == Ascii("lost");
    assert AsciiText("revoked") == Ascii("revoked");
  }

  /** The frame of each message: its type, and its encoding. */
  lemma {:induction false} MessagesInFrames(m: Sent, reasons: seq<text>)
    ensures m.SentHello? ==> FrameOf(m, reasons) == Frame(AgentHello, EncodeToVec(HelloCodec(), m.hello))
    ensures m.SentReport? ==> FrameOf(m, reasons) == Frame(IntegrityReport, EncodeToVec(ReportCodec(), m.report))
    ensures m.SentHealth? ==>
              FrameOf(m, reasons) ==
                Frame(HealthMessage,
                      EncodeToVec(HealthCodec(), Health(m.sessionId, StateText(m.state), m.lastReportAt, reasons)))
  {
    hide EncodeToVec, StateText, HelloCodec, ReportCodec, HealthCodec;
  }

  function FramesOf(sent: seq<Sent>, reasons: seq<seq<text>>): (frames: seq<Frame>)
    requires |reasons| == |sent|
    ensures |frames| == |sent| && forall i :: 0 <= i < |sent| ==> frames[i] == FrameOf(sent[i], reasons[i])
  {
    if sent == [] then [] else [FrameOf(sent[0], reasons[0])] + FramesOf(sent[1..], reasons[1..])
  }

  /** The reports that the game finds among the frames it reads. */
  function ReportsRead(frames: seq<Frame>): seq<Report> {
    if frames == [] then []
    else
      (if frames[0].messageType != IntegrityReport then []
       else
         ReportFaithful();
         match DecodeCanonical(ReportCodec(), frames[0].payload)
         case Ok(r) => [r]
         case Err(_) => [])
      + ReportsRead(frames[1..])
  }

  predicate Fits(r: Report) {
    0 < |EncodeReport(r)| <= MAX_FRAME_PAYLOAD
  }

  lemma {:induction false} StepReportFits(cfg: Config, l: BoundLaunch, s: Live, t: Tick)
    ensures forall r <- ReportsOf(LoopStep(cfg, l, s, t).sent) :: Fits(r)
  {
    hide LoopStep, Fits, Answers, ReportsOf;
    var step := LoopStep(cfg, l, s, t);
    if step.Stop? {
      StopSendsNoReport(cfg, l, s, t);
    } else if IsChallenge(t) {
      AnsweredReportFits(cfg, l, s, t);
      assert step.sent == [step.sent[0]];
      ReportOfOne(step.sent[0]);
    } else {
      StepAnswers(cfg, l, s, t);
    }
  }

  lemma {:induction false} AnsweredReportFits(cfg: Config, l: BoundLaunch, s: Live, t: Tick)
    requires IsChallenge(t) && LoopStep(cfg, l, s, t).Continue?
    ensures
      var sent := LoopStep(cfg, l, s, t).sent;
      |sent| == 1 && sent[0].SentReport? && Fits(sent[0].report)
  {
    hide ReportFor, EncodeReport, SignReport, ReportLength, ValidateReport, AfterReport, DecodeChallenge;
    var payload := t.received.item.value.payload;
    var draft := ReportForSignsDraft(cfg, l, s, t, payload);
    SignedIffSmall(cfg.verifier.crypto, cfg.key, draft);
  }

  lemma {:induction false} LoopReportsFit(cfg: Config, l: BoundLaunch, s: Live, ticks: seq<Tick>)
    ensures forall r <- ReportsOf(Loop(cfg, l, s, ticks).sent) :: Fits(r)
    decreases |ticks|
  {
    hide LoopStep, Fits;
    if ticks != [] {
      var step := LoopStep(cfg, l, s, ticks[0]);
      StepReportFits(cfg, l, s, ticks[0]);
      if step.Continue? {
        LoopReportsFit(cfg, l, step.live, ticks[1..]);
        ReportsOfConcat(step.sent, Loop(cfg, l, step.live, ticks[1..]).sent);
      }
    }
  }

  lemma {:induction false} ReportsAreRead(sent: seq<Sent>, reasons: seq<seq<text>>)
    requires |reasons| == |sent| && forall r <- ReportsOf(sent) :: Fits(r)
    ensures ReportsRead(FramesOf(sent, reasons)) == ReportsOf(sent)
    decreases |sent|
  {
    hide Fits, DecodeCanonical;
    if sent != [] {
      var frames := FramesOf(sent, reasons);
      assert frames[1..] == FramesOf(sent[1..], reasons[1..]);
      ReportsAreRead(sent[1..], reasons[1..]);
      if sent[0].SentReport? {
        var r := sent[0].report;
        assert ReportsOf(sent)[0] == r;
        OneReportIsRead(r);
      }
    }
  }

  lemma {:induction false} OneReportIsRead(r: Report)
    requires Fits(r)
    ensures Faithful(ReportCodec()) && DecodeCanonical(ReportCodec(), EncodeReport(r)) == Ok(r)
  {
    ReportFaithful();
    DecodesWhatWasEncoded(ReportCodec(), r);
    hide DecodeCanonical, EncodeToVec;
  }

  lemma {:induction false} StepNamesSession(cfg: Config, l: BoundLaunch, s: Live, t: Tick)
    ensures forall m <- LoopStep(cfg, l, s, t).sent :: !m.SentHello? && (m.SentHealth? ==> m.sessionId == l.sessionId)
  {
    hide ReportFor, RevokesSession, AfterReport;
  }

  lemma {:induction false} LoopNamesSession(cfg: Config, l: BoundLaunch, s: Live, ticks: seq<Tick>)
    ensures forall m <- Loop(cfg, l, s, ticks).sent :: !m.SentHello? && (m.SentHealth? ==> m.sessionId == l.sessionId)
    decreases |ticks|
  {
    hide LoopStep;
    if ticks != [] {
      StepNamesSession(cfg, l, s, ticks[0]);
      if LoopStep(cfg, l, s, ticks[0]).Continue? {
        LoopNamesSession(cfg, l, LoopStep(cfg, l, s, ticks[0]).live, ticks[1..]);
      }
    }
  }

  /** The session ID of a message is short. */
  predicate NamedShortly(m: Sent) {
    m.SentHealth? ==> |m.sessionId| <= 128
  }

  lemma {:induction false} AdmissionNamesSession(cfg: Config, o: Opening)
    ensures Admit(cfg, o).Refusal? ==> |Admit(cfg, o).sessionId| <= 128
    ensures Admit(cfg, o).Admitted? ==> |Admit(cfg, o).launch.sessionId| <= 128
  {
    hide VerifyLaunchBundle, AsciiText;
    if o.bootstrap.Item? && o.bootstrap.item.Ok? {
      BundleNamesSession(cfg.verifier, o.bootstrap.item.value.payload, o.now);
    }
  }

  lemma {:induction false} BundleNamesSession(v: Verifier, input: bytes, now: int64)
    ensures VerifyLaunchBundle(v, input, now).Ok? ==> |VerifyLaunchBundle(v, input, now).value.sessionId| <= 128
  {
    hide VerifyLaunchBundle, VerifyParts, ManifestFilesValid;
    if VerifyLaunchBundle(v, input, now).Ok? {
      AcceptedBundleIsBound(v, input, now);
    }
  }

  lemma {:induction false} OpeningFits(cfg: Config, o: Opening)
    ensures forall m <- Opened(cfg, o).0 :: NamedShortly(m) && (m.SentHello? ==> m.hello == cfg.hello && HelloFits(cfg))
    ensures Opened(cfg, o).1.Some? ==> |Opened(cfg, o).1.value.sessionId| <= 128
  {
    hide Admit, HelloFits;
    AdmissionNamesSession(cfg, o);
  }

  /** At most one reason, and a short one, as the program gives them. */
  predicate ShortReasons(reasons: seq<seq<text>>) {
    forall rs <- reasons :: |rs| <= 1 && forall r <- rs :: |r| <= 64
  }

  lemma {:induction false} StateTextIsShort(s: HealthState)
    ensures |StateText(s)| <= 64
  {
  }

  lemma {:induction false} MessageFits(cfg: Config, m: Sent, reasons: seq<text>)
    requires NamedShortly(m) && (m.SentHello? ==> m.hello == cfg.hello && HelloFits(cfg))
    requires m.SentReport? ==> Fits(m.report)
    requires |reasons| <= 1 && forall r <- reasons :: |r| <= 64
    ensures |FrameOf(m, reasons).payload| <= MAX_FRAME_PAYLOAD
  {
    hide EncodeToVec, StateText;
    if m.SentHealth? {
      StateTextIsShort(m.state);
      HealthSize(Health(m.sessionId, StateText(m.state), m.lastReportAt, reasons));
    }
  }

  /** Every message that a run sends fits into a frame. */
  lemma {:induction false} MessagesFit(cfg: Config, o: Opening, ticks: seq<Tick>, reasons: seq<seq<text>>)
    requires |reasons| == |ServeRun(cfg, o, ticks).0| && ShortReasons(reasons)
    ensures Sendable(FramesOf(ServeRun(cfg, o, ticks).0, reasons))
    ensures forall r <- ReportsOf(ServeRun(cfg, o, ticks).0) :: Fits(r)
  {
    hide Loop, Opened, Fits, HelloFits, NamedShortly, FrameOf, ReportsOf;
    OpeningFits(cfg, o);
    OpeningSendsNoReport(cfg, o);
    var (opening, launch) := Opened(cfg, o);
    var sent := ServeRun(cfg, o, ticks).0;
    if launch.Some? {
      var l, live := launch.value, FirstLive(launch.value, o);
      LoopReportsFit(cfg, l, live, ticks);
      LoopNamesSession(cfg, l, live, ticks);
      ReportsOfConcat(opening, Loop(cfg, l, live, ticks).sent);
      assert [] + ReportsOf(Loop(cfg, l, live, ticks).sent) == ReportsOf(Loop(cfg, l, live, ticks).sent);
      SameNameIsShort(Loop(cfg, l, live, ticks).sent, l.sessionId);
    }
    forall i | 0 <= i < |sent| ensures |FrameOf(sent[i], reasons[i]).payload| <= MAX_FRAME_PAYLOAD {
      assert sent[i] in sent && reasons[i] in reasons;
      if sent[i].SentReport? {
        ReportIsAmong(sent, i);
      }
      MessageFits(cfg, sent[i], reasons[i]);
    }
  }

  lemma {:induction false} SameNameIsShort(sent: seq<Sent>, sessionId: text)
    requires |sessionId| <= 128 && forall m <- sent :: !m.SentHello? && (m.SentHealth? ==> m.sessionId == sessionId)
    ensures forall m <- sent :: !m.SentHello? && NamedShortly(m)
  {
  }

  lemma {:induction false} ReportIsAmong(sent: seq<Sent>, i: nat)
    requires i < |sent| && sent[i].SentReport?
    ensures sent[i].report in ReportsOf(sent)
  {
    if i > 0 {
      ReportIsAmong(sent[1..], i - 1);
    }
  }

  /** Reading the octets that a run wrote, and those of a write that failed half way, the game gets the
      frames of the run's messages in order and then the end of the stream, and among them exactly the
      run's reports, which form one chain. */
  lemma {:induction false} OutputIsRead(
      cfg: Config, o: Opening, ticks: seq<Tick>, reasons: seq<seq<text>>, cut: bytes)
    requires |reasons| == |ServeRun(cfg, o, ticks).0| && ShortReasons(reasons) && Partial(cut)
    ensures Sendable(FramesOf(ServeRun(cfg, o, ticks).0, reasons))
    ensures
      var sent := ServeRun(cfg, o, ticks).0;
      var (frames, end) := ReadAll(EncodeFrames(FramesOf(sent, reasons)) + cut);
      && end == Io && frames == FramesOf(sent, reasons)
      && ReportsRead(frames) == ReportsOf(sent)
      && Chained(cfg.verifier.crypto, ReportsRead(frames))
  {
    hide ServeRun, Fits, Chained, Partial;
    var sent := ServeRun(cfg, o, ticks).0;
    MessagesFit(cfg, o, ticks, reasons);
    PartAfterFramesIsEnd(FramesOf(sent, reasons), cut);
    ServeReportsAreChained(cfg, o, ticks);
    ReportsAreRead(sent, reasons);
  }
}
