/** The clock of the protected session: waits, deadlines, heartbeats, and the end of a silent run. */
module SessionTiming {
  import opened Bytes
  import opened Wire
  import opened Messages
  import opened Protocol
  import opened Reports
  import opened Ipc
  import opened Session
  import opened Runtime
  import opened SessionProperties
  import opened SessionOutcomes

  /** The loop waits at least a second, and never past the report deadline or the policy's expiry,
      nor past the next heartbeat unless that is already due. */
  lemma {:induction false} WaitIsBounded(l: BoundLaunch, s: Live, now: int64)
    requires now < l.policyExpiresAtUnix && now < s.reportDeadline
    ensures
      var w := Wait(l, s, now);
      && w >= 1
      && now + w <= s.reportDeadline
      && now + w <= l.policyExpiresAtUnix
      && (now < s.nextHeartbeat ==> now + w <= s.nextHeartbeat)
      && (now + w == s.reportDeadline || now + w == l.policyExpiresAtUnix || now + w == s.nextHeartbeat
          || (s.nextHeartbeat <= now && w == 1))
  {
  }

  // ---------------------------------------------------------------- deadlines

  function LastTime(reports: seq<Report>, otherwise: int): int {
    if reports == [] then otherwise else reports[|reports| - 1].observedAtUnix
  }

  lemma {:induction false} LastTimeOfConcat(a: seq<Report>, b: seq<Report>, otherwise: int)
    ensures LastTime(a + b, otherwise) == LastTime(b, LastTime(a, otherwise))
  {
    if b == [] {
      assert a + b == a;
    }
  }

  lemma {:induction false} HealthTimes(cfg: Config, l: BoundLaunch, s: Live, t: Tick)
    ensures forall m <- LoopStep(cfg, l, s, t).sent :: m.SentHealth? ==> m.lastReportAt == s.lastReportAt
  {
    hide Handle, OnTimeout, Finish;
    FinishTimes(l, s, PolicyExpired, t.written);
    FinishTimes(l, s, Lost, t.written);
    TimeoutTimes(l, s, t);
    if t.received.Item? && t.received.item.Ok? {
      FrameHealthTimes(cfg, l, s, t, t.received.item.value);
    }
  }

  lemma {:induction false} FinishTimes(l: BoundLaunch, s: Live, state: HealthState, written: bool)
    ensures forall m <- Finish(l, s, state, written).sent :: m.SentHealth? && m.lastReportAt == s.lastReportAt
  {
  }

  lemma {:induction false} TimeoutTimes(l: BoundLaunch, s: Live, t: Tick)
    ensures forall m <- OnTimeout(l, s, t).sent :: m.SentHealth? && m.lastReportAt == s.lastReportAt
  {
  }

  lemma {:induction false} FrameHealthTimes(cfg: Config, l: BoundLaunch, s: Live, t: Tick, f: Frame)
    ensures forall m <- Handle(cfg, l, s, t, f).sent :: m.SentHealth? ==> m.lastReportAt == s.lastReportAt
  {
    hide AnswerChallenge, RevokesSession, AfterReport, Finish;
    FinishTimes(l, s, Revoked, t.written);
    match f.messageType {
      case ChallengeMessage =>
        var r := AnswerChallenge(cfg, l, s, t, f.payload);
        assert forall m <- r.sent :: m == r.sent[0];
      case _ =>
    }
  }

  lemma {:induction false} DeadlineStep(cfg: Config, l: BoundLaunch, s: Live, t: Tick)
    requires LoopStep(cfg, l, s, t).Continue?
    ensures
      var live := LoopStep(cfg, l, s, t).live;
      if IsChallenge(t) then live.lastReportAt == t.later && live.reportDeadline == t.later + Grace(l)
      else live.lastReportAt == s.lastReportAt && live.reportDeadline == s.reportDeadline
  {
    hide AnswerChallenge, RevokesSession, ReportDigest, Grace;
  }

  /** What one pass does to the times: only a report moves them, and every health message names the
      time of the last report. */
  lemma {:induction false} StepTimes(cfg: Config, l: BoundLaunch, s: Live, t: Tick)
    ensures
      var step := LoopStep(cfg, l, s, t);
      && (forall m <- step.sent :: m.SentHealth? ==> m.lastReportAt == s.lastReportAt)
      && (step.Continue? ==>
            var reports := ReportsOf(step.sent);
            && step.live.lastReportAt == LastTime(reports, s.lastReportAt)
            && step.live.reportDeadline == (if reports == [] then s.reportDeadline else LastTime(reports, 0) + Grace(l)))
  {
    hide LoopStep, IsChallenge, ReportsOf, Grace, DecodeChallenge;
    HealthTimes(cfg, l, s, t);
    if LoopStep(cfg, l, s, t).Continue? {
      StepAnswers(cfg, l, s, t);
      DeadlineStep(cfg, l, s, t);
    }
  }

  /** After any run the deadline is the admission base or the time of the last report, plus the
      report and grace periods, and the time remembered is that of the last report. */
  lemma {:induction false} DeadlineFollowsReports(cfg: Config, l: BoundLaunch, s: Live, ticks: seq<Tick>)
    ensures
      var r := Loop(cfg, l, s, ticks);
      var reports := ReportsOf(r.sent);
      && r.live.lastReportAt == LastTime(reports, s.lastReportAt)
      && r.live.reportDeadline == (if reports == [] then s.reportDeadline else LastTime(reports, 0) + Grace(l))
    decreases |ticks|
  {
    hide LoopStep, Grace;
    if ticks != [] {
      var step := LoopStep(cfg, l, s, ticks[0]);
      StepTimes(cfg, l, s, ticks[0]);
      if step.Continue? {
        var r := Loop(cfg, l, step.live, ticks[1..]);
        DeadlineFollowsReports(cfg, l, step.live, ticks[1..]);
        ReportsOfConcat(step.sent, r.sent);
        LastTimeOfConcat(ReportsOf(step.sent), ReportsOf(r.sent), s.lastReportAt);
        LastTimeOfConcat(ReportsOf(step.sent), ReportsOf(r.sent), 0);
      } else {
        StopSendsNoReport(cfg, l, s, ticks[0]);
      }
    }
  }

  /** Every health message of the loop names the time of the last report sent before it. */
  lemma {:induction false} HealthNamesLastReport(cfg: Config, l: BoundLaunch, s: Live, ticks: seq<Tick>, i: nat)
    requires i < |Loop(cfg, l, s, ticks).sent| && Loop(cfg, l, s, ticks).sent[i].SentHealth?
    ensures Loop(cfg, l, s, ticks).sent[i].lastReportAt ==
            LastTime(ReportsOf(Loop(cfg, l, s, ticks).sent[..i]), s.lastReportAt)
    decreases |ticks|
  {
    hide LoopStep, Grace;
    if ticks != [] {
      var step := LoopStep(cfg, l, s, ticks[0]);
      StepTimes(cfg, l, s, ticks[0]);
      StepTrace(cfg, l, s, ticks[0]);
      if i < |step.sent| {
        assert Loop(cfg, l, s, ticks).sent[..i] == [];
      } else {
        var r := Loop(cfg, l, step.live, ticks[1..]);
        var j := i - |step.sent|;
        HealthNamesLastReport(cfg, l, step.live, ticks[1..], j);
        assert (step.sent + r.sent)[..i] == step.sent + r.sent[..j];
        ReportsOfConcat(step.sent, r.sent[..j]);
        LastTimeOfConcat(ReportsOf(step.sent), ReportsOf(r.sent[..j]), s.lastReportAt);
      }
    }
  }

  lemma {:induction false} HeartbeatStep(cfg: Config, l: BoundLaunch, s: Live, t: Tick)
    requires LoopStep(cfg, l, s, t).Continue?
    ensures LoopStep(cfg, l, s, t).live.nextHeartbeat in [s.nextHeartbeat, t.later + l.heartbeatSeconds]
  {
    hide ReportFor, RevokesSession, ReportDigest, EncodeReport;
  }

  lemma {:induction false} HeartbeatFollowsClock(cfg: Config, l: BoundLaunch, s: Live, ticks: seq<Tick>, bound: int)
    requires s.nextHeartbeat < bound && forall t <- ticks :: t.later + l.heartbeatSeconds < bound
    ensures Loop(cfg, l, s, ticks).live.nextHeartbeat < bound
    decreases |ticks|
  {
    hide LoopStep;
    if ticks != [] && LoopStep(cfg, l, s, ticks[0]).Continue? {
      HeartbeatStep(cfg, l, s, ticks[0]);
      assert ticks[0] in ticks;
      HeartbeatFollowsClock(cfg, l, LoopStep(cfg, l, s, ticks[0]).live, ticks[1..], bound);
    }
  }

  /** With a policy that passed validation the two periods add up without overflow, and so do the report
      deadline and the time of the next heartbeat while the clock stays below 2^62. */
  lemma {:induction false} DeadlinesDoNotOverflow(cfg: Config, l: BoundLaunch, o: Opening, ticks: seq<Tick>)
    requires Bounded(l, o.now)
    requires o.deadlineBase < 0x4000_0000_0000_0000 && o.heartbeatBase < 0x4000_0000_0000_0000
    requires forall t <- ticks :: t.later < 0x4000_0000_0000_0000
    ensures Grace(l) <= 3900
    ensures Loop(cfg, l, FirstLive(l, o), ticks).live.reportDeadline < 0x8000_0000_0000_0000
    ensures Loop(cfg, l, FirstLive(l, o), ticks).live.nextHeartbeat < 0x8000_0000_0000_0000
  {
    hide Loop, Answers;
    HeartbeatFollowsClock(cfg, l, FirstLive(l, o), ticks, 0x8000_0000_0000_0000);
    var r := Loop(cfg, l, FirstLive(l, o), ticks);
    DeadlineFollowsReports(cfg, l, FirstLive(l, o), ticks);
    ReportsAnswerChallenges(cfg, l, FirstLive(l, o), ticks);
    var reports, asked := ReportsOf(r.sent), Asked(ticks, r.passes);
    if reports != [] {
      var last := |reports| - 1;
      assert reports[last].observedAtUnix == asked[last].later && asked[last] in asked by {
        AnswerTime(cfg, l, reports[last], asked[last]);
      }
      AskedAreTicks(ticks, r.passes);
    }
  }

  lemma {:induction false} AnswerTime(cfg: Config, l: BoundLaunch, r: Report, t: Tick)
    requires Answers(cfg, l, r, t)
    ensures r.observedAtUnix == t.later
  {
  }

  lemma {:induction false} AskedAreTicks(ticks: seq<Tick>, passes: nat)
    requires passes <= |ticks|
    ensures forall t <- Asked(ticks, passes) :: t in ticks
    decreases passes
  {
    if passes > 0 {
      AskedAreTicks(ticks[1..], passes - 1);
    }
  }

  // ---------------------------------------------------------------- heartbeats

  /** The clock readings at which a run sends its heartbeats. */
  function HeartbeatTimes(cfg: Config, l: BoundLaunch, s: Live, ticks: seq<Tick>): seq<int>
    decreases |ticks|
  {
    if ticks == [] then []
    else
      match LoopStep(cfg, l, s, ticks[0])
      case Stop(_, _) => []
      case Continue(s', sent) =>
        (if sent != [] && sent[0].SentHealth? then [ticks[0].later] else []) + HeartbeatTimes(cfg, l, s', ticks[1..])
  }

  lemma {:induction false} OneHeartbeat(cfg: Config, l: BoundLaunch, s: Live, t: Tick)
    requires LoopStep(cfg, l, s, t).Continue?
    ensures
      var step := LoopStep(cfg, l, s, t);
      if step.sent != [] && step.sent[0].SentHealth?
      then t.later >= s.nextHeartbeat && step.live.nextHeartbeat == t.later + l.heartbeatSeconds
      else step.live.nextHeartbeat == s.nextHeartbeat
  {
    hide ReportFor, RevokesSession, ReportDigest, EncodeReport, Finish;
  }

  /** The first heartbeat waits for its time, and later ones are at least the policy's interval apart,
      even if the clock is set back or challenges keep arriving. */
  lemma {:induction false} HeartbeatsAreSpaced(cfg: Config, l: BoundLaunch, s: Live, ticks: seq<Tick>)
    ensures
      var times := HeartbeatTimes(cfg, l, s, ticks);
      && (times != [] ==> times[0] >= s.nextHeartbeat)
      && forall i :: 0 < i < |times| ==> times[i] >= times[i - 1] + l.heartbeatSeconds
    decreases |ticks|
  {
    if ticks != [] {
      var step := LoopStep(cfg, l, s, ticks[0]);
      hide LoopStep;
      if step.Continue? {
        OneHeartbeat(cfg, l, s, ticks[0]);
        HeartbeatsAreSpaced(cfg, l, step.live, ticks[1..]);
      }
    }
  }

  // ---------------------------------------------------------------- silence

  function End(l: BoundLaunch, s: Live): int {
    Min(s.reportDeadline, l.policyExpiresAtUnix)
  }

  /** The game sends nothing: every wait runs its full length, and the clock is not set back. */
  ghost predicate Silent(l: BoundLaunch, s: Live, ticks: seq<Tick>)
    decreases |ticks|
  {
    ticks == [] ||
    (&& ticks[0].received.TimedOut?
     && ticks[0].written
     && ticks[0].later >= ticks[0].now + Wait(l, s, ticks[0].now)
     && (|ticks| > 1 ==> ticks[1].now >= ticks[0].later)
     && match OnTimeout(l, s, ticks[0])
        case Continue(s', _) => Silent(l, s', ticks[1..])
        case Stop(_, _) => true)
  }

  lemma {:induction false} SilentStep(cfg: Config, l: BoundLaunch, s: Live, t: Tick)
    requires t.received.TimedOut? && t.written
    ensures
      var step := LoopStep(cfg, l, s, t);
      if t.now < End(l, s) then
        step == OnTimeout(l, s, t) && step.Continue? && End(l, step.live) == End(l, s)
        && step.live.lastReportAt == s.lastReportAt
      else
        step == Stop([SentHealth(l.sessionId, if t.now >= l.policyExpiresAtUnix then PolicyExpired else Lost, s.lastReportAt)],
                     EndedWithError)
  {
  }

  lemma {:induction false} WaitsASecond(l: BoundLaunch, s: Live, now: int64)
    ensures Wait(l, s, now) >= 1
  {
  }

  /** The remaining time is a termination measure: a silent run ends, as lost or expired, within as
      many passes as there are seconds left. */
  lemma {:induction false} SilenceEndsTheSession(cfg: Config, l: BoundLaunch, s: Live, ticks: seq<Tick>)
    requires Silent(l, s, ticks)
    requires ticks != [] && |ticks| > End(l, s) - ticks[0].now
    ensures
      var r := Loop(cfg, l, s, ticks);
      && r.outcome == EndedWithError
      && r.sent != []
      && (var last := r.sent[|r.sent| - 1];
          last.SentHealth? && last.lastReportAt == s.lastReportAt
          && (last.state.Lost? || last.state.PolicyExpired?)
          && last.state == if ticks[r.passes].now >= l.policyExpiresAtUnix then PolicyExpired else Lost)
    decreases |ticks|
  {
    var t := ticks[0];
    hide LoopStep, OnTimeout, Wait, End, Min;
    SilentStep(cfg, l, s, t);
    if t.now < End(l, s) {
      assert Wait(l, s, t.now) >= 1 by {
        WaitsASecond(l, s, t.now);
      }
      var step := LoopStep(cfg, l, s, t);
      var r := Loop(cfg, l, step.live, ticks[1..]);
      SilenceEndsTheSession(cfg, l, step.live, ticks[1..]);
      assert (step.sent + r.sent)[|step.sent + r.sent| - 1] == r.sent[|r.sent| - 1];
      assert ticks[r.passes + 1] == ticks[1..][r.passes];
    }
  }

  // ---------------------------------------------------------------- regular heartbeats

  /** Nothing is received, every wait ends exactly when it should, and every message can be written. */
  ghost predicate Punctual(l: BoundLaunch, s: Live, ticks: seq<Tick>)
    decreases |ticks|
  {
    ticks == [] ||
    (&& ticks[0].received.TimedOut?
     && ticks[0].written
     && ticks[0].later == ticks[0].now + Wait(l, s, ticks[0].now)
     && (|ticks| > 1 ==> ticks[1].now == ticks[0].later)
     && match OnTimeout(l, s, ticks[0])
        case Continue(s', _) => Punctual(l, s', ticks[1..])
        case Stop(_, _) => true)
  }

  /** A heartbeat can still be sent at that time. */
  predicate InTime(l: BoundLaunch, s: Live, time: int) {
    time < s.reportDeadline && time <= l.policyExpiresAtUnix
  }

  lemma {:induction false} PunctualStep(cfg: Config, l: BoundLaunch, s: Live, t: Tick)
    requires Punctual(l, s, [t]) && t.now < End(l, s) && t.now < s.nextHeartbeat
    ensures
      var step := LoopStep(cfg, l, s, t);
      && step.Continue? && step.live.reportDeadline == s.reportDeadline
      && OnTimeout(l, s, t) == step
      && if InTime(l, s, s.nextHeartbeat) then
           && t.later == s.nextHeartbeat && step.live.nextHeartbeat == t.later + l.heartbeatSeconds
           && step.sent == [SentHealth(l.sessionId, Protected, s.lastReportAt)]
         else
           t.later == End(l, s) && step.live == s && step.sent == []
  {
    WaitIsExact(l, s, t.now);
    HeartbeatIsDue(cfg, l, s, t);
  }

  /** The times are the first and every multiple of the interval after it, all that are in time. */
  ghost predicate Regular(l: BoundLaunch, s: Live, times: seq<int>) {
    && (forall i :: 0 <= i < |times| ==>
          times[i] == s.nextHeartbeat + i * l.heartbeatSeconds && InTime(l, s, times[i]))
    && !InTime(l, s, s.nextHeartbeat + |times| * l.heartbeatSeconds)
  }

  lemma {:induction false} OneMultipleMore(first: int, interval: int, i: int)
    ensures first + interval + (i - 1) * interval == first + i * interval
  {
  }

  lemma {:induction false} RegularFromFirst(l: BoundLaunch, s: Live, next: Live, times: seq<int>)
    requires next.reportDeadline == s.reportDeadline && next.nextHeartbeat == s.nextHeartbeat + l.heartbeatSeconds
    requires InTime(l, s, s.nextHeartbeat) && Regular(l, next, times)
    ensures Regular(l, s, [s.nextHeartbeat] + times)
  {
    var all := [s.nextHeartbeat] + times;
    forall i | 0 <= i < |all| ensures all[i] == s.nextHeartbeat + i * l.heartbeatSeconds && InTime(l, s, all[i]) {
      if i > 0 {
        OneMultipleMore(s.nextHeartbeat, l.heartbeatSeconds, i);
        assert all[i] == times[i - 1];
      }
    }
    OneMultipleMore(s.nextHeartbeat, l.heartbeatSeconds, |all|);
  }

  lemma {:induction false} FirstHeartbeat(cfg: Config, l: BoundLaunch, s: Live, ticks: seq<Tick>)
    requires ticks != [] && LoopStep(cfg, l, s, ticks[0]).Continue?
    ensures
      var step := LoopStep(cfg, l, s, ticks[0]);
      HeartbeatTimes(cfg, l, s, ticks) ==
        (if step.sent != [] && step.sent[0].SentHealth? then [ticks[0].later] else []) +
        HeartbeatTimes(cfg, l, step.live, ticks[1..])
  {
    hide LoopStep;
  }

  lemma {:induction false} RestIsPunctual(cfg: Config, l: BoundLaunch, s: Live, ticks: seq<Tick>)
    requires Punctual(l, s, ticks) && ticks != []
    requires LoopStep(cfg, l, s, ticks[0]).Continue? && LoopStep(cfg, l, s, ticks[0]) == OnTimeout(l, s, ticks[0])
    requires Loop(cfg, l, s, ticks).outcome != Running
    ensures
      var live := LoopStep(cfg, l, s, ticks[0]).live;
      && Punctual(l, live, ticks[1..]) && Loop(cfg, l, live, ticks[1..]).outcome != Running
      && ticks[1..] != [] && ticks[1].now == ticks[0].later
  {
    hide LoopStep, OnTimeout, Wait;
  }

  /** A session that is left alone sends its heartbeats regularly: at the time of the first and at every
      multiple of the interval after it, as long as neither the report deadline nor the policy's expiry
      has passed, and at no other time. */
  lemma {:induction false} HeartbeatsAreRegular(cfg: Config, l: BoundLaunch, s: Live, ticks: seq<Tick>)
    requires Punctual(l, s, ticks) && l.heartbeatSeconds >= 1
    requires ticks != [] && (ticks[0].now < s.nextHeartbeat || !InTime(l, s, s.nextHeartbeat))
    requires Loop(cfg, l, s, ticks).outcome != Running
    ensures Regular(l, s, HeartbeatTimes(cfg, l, s, ticks))
    decreases |ticks|
  {
    var t := ticks[0];
    hide LoopStep, OnTimeout, Wait, HeartbeatTimes, Loop, Punctual, Regular;
    assert t.received.TimedOut? && t.written && Punctual(l, s, [t]) by {
      PunctualAlone(l, s, ticks);
    }
    if t.now < End(l, s) {
      PunctualStep(cfg, l, s, t);
      RestIsPunctual(cfg, l, s, ticks);
      FirstHeartbeat(cfg, l, s, ticks);
      var live := LoopStep(cfg, l, s, t).live;
      HeartbeatsAreRegular(cfg, l, live, ticks[1..]);
      var later := HeartbeatTimes(cfg, l, live, ticks[1..]);
      if InTime(l, s, s.nextHeartbeat) {
        RegularFromFirst(l, s, live, later);
      } else {
        assert [] + later == later;
      }
    } else {
      NoHeartbeatAtEnd(cfg, l, s, ticks);
    }
  }

  lemma {:induction false} NoHeartbeatAtEnd(cfg: Config, l: BoundLaunch, s: Live, ticks: seq<Tick>)
    requires ticks != [] && ticks[0].received.TimedOut? && ticks[0].written && End(l, s) <= ticks[0].now
    requires ticks[0].now < s.nextHeartbeat || !InTime(l, s, s.nextHeartbeat)
    ensures Regular(l, s, HeartbeatTimes(cfg, l, s, ticks))
  {
    hide LoopStep;
    SilentStep(cfg, l, s, ticks[0]);
    assert HeartbeatTimes(cfg, l, s, ticks) == [];
  }

  lemma {:induction false} PunctualAlone(l: BoundLaunch, s: Live, ticks: seq<Tick>)
    requires Punctual(l, s, ticks) && ticks != []
    ensures Punctual(l, s, [ticks[0]]) && ticks[0].received.TimedOut? && ticks[0].written
  {
    hide OnTimeout, Wait;
    assert [ticks[0]][1..] == [];
  }
}
