/** The session object that answers challenges with chained reports. */
module Session {
  import opened Bytes
  import opened Wire
  import opened Canonical
  import opened Messages
  import opened Protocol
  import opened Reports
  import opened Sizes

  datatype SessionError =
    | KeyBinding | PolicyBinding | ChallengeRejected | SequenceExhausted | Refused(source: ProtocolError)

  /** What stays fixed for the life of a session. */
  datatype Identity = Identity(crypto: Crypto, key: bytes, agentSessionId: text, buildId: text)

  /** What a session remembers between reports. */
  datatype ChainState = ChainState(sequence: uint64, previousDigest: digest, lastChallenge: Option<digest>)

  function EncodeChallenge(c: Challenge): bytes {
    EncodeToVec(ChallengeCodec(), c)
  }

  function Draft(
      who: Identity, sequence: uint64, previous: digest, nonce: bytes, now: int64, executable: digest,
      observations: seq<Observation>): Report
  {
    Report(PROTOCOL_VERSION, who.agentSessionId, sequence, nonce, now, who.buildId, executable, observations, previous, [])
  }

  /** A challenge of this session with a usable nonce that expires within the next two minutes. */
  predicate ChallengeFits(sessionId: text, c: Challenge, now: int64) {
    && c.agentSessionId == sessionId
    && 16 <= |c.nonce| <= 256
    && c.expiresAtUnix > now
    && Subtract64(c.expiresAtUnix, now) <= 120
  }

  /** The report a session answers a challenge with, and its state afterwards. */
  function Answer(
      who: Identity, s: ChainState, c: Challenge, now: int64, executable: digest, observations: seq<Observation>)
    : Result<(Report, ChainState), SessionError>
  {
    if !ChallengeFits(who.agentSessionId, c, now) then Err(ChallengeRejected)
    else
      var challengeDigest := who.crypto.hash(EncodeChallenge(c));
      if s.lastChallenge == Some(challengeDigest) then Err(ChallengeRejected)
      else if s.sequence + 1 == U64 then Err(SequenceExhausted)
      else Advance(who, challengeDigest, Draft(who, s.sequence + 1, s.previousDigest, c.nonce, now, executable, observations))
  }

  /** Signs the next report and moves the chain on to it. */
  function Advance(who: Identity, challengeDigest: digest, draft: Report): Result<(Report, ChainState), SessionError> {
    match SignReport(who.crypto, who.key, draft)
    case Err(e) => Err(Refused(e))
    case Ok(report) => Ok((report, ChainState(draft.sequence, ReportDigest(who.crypto, report), Some(challengeDigest))))
  }

  lemma {:induction false} FreshChallengeAdvances(
      who: Identity, s: ChainState, c: Challenge, now: int64, executable: digest, observations: seq<Observation>)
    requires s.sequence + 1 < U64 && s.lastChallenge != Some(who.crypto.hash(EncodeChallenge(c)))
    ensures Answer(who, s, c, now, executable, observations) ==
              if !ChallengeFits(who.agentSessionId, c, now) then Err(ChallengeRejected)
              else Advance(who, who.crypto.hash(EncodeChallenge(c)),
                           Draft(who, s.sequence + 1, s.previousDigest, c.nonce, now, executable, observations))
  {
    hide EncodeChallenge, ChallengeFits, Advance, Draft;
  }

  class AgentSession {
    const crypto: Crypto
    const signingKey: bytes
    const grant: LaunchGrantClaims
    const policy: PolicyClaims
    const agentSessionId: text
    var sequence: uint64
    var previousDigest: digest
    var lastChallengeDigest: Option<digest>
    ghost var history: seq<Report>  // every report created so far

    constructor (crypto: Crypto, signingKey: bytes, grant: LaunchGrantClaims, policy: PolicyClaims, agentSessionId: text)
      ensures this.crypto == crypto && this.signingKey == signingKey && this.grant == grant
      ensures this.policy == policy && this.agentSessionId == agentSessionId
      ensures State() == ChainState(0, NoDigest(), None) && history == []
      ensures Valid()
    {
      this.crypto := crypto;
      this.signingKey := signingKey;
      this.grant := grant;
      this.policy := policy;
      this.agentSessionId := agentSessionId;
      sequence := 0;
      previousDigest := NoDigest();
      lastChallengeDigest := None;
      history := [];
    }

    /** A session starts only for the key, game, environment and policy that its grant names. */
    static method Activate(
        crypto: Crypto, signingKey: bytes, grant: LaunchGrantClaims, policy: PolicyClaims, signedPolicy: Envelope,
        agentSessionId: text) returns (r: Result<AgentSession, SessionError>)
      ensures r.Ok? <==>
                && grant.agentPublicKey == crypto.publicKey(signingKey)
                && grant.gameId == policy.gameId
                && grant.environmentId == policy.environmentId
                && grant.policyDigest == crypto.hash(EncodeToVec(EnvelopeCodec(), signedPolicy))
                && 0 < |agentSessionId| <= 128
      ensures r.Ok? ==> fresh(r.value) && r.value.Valid() && r.value.history == []
      ensures r.Ok? ==> r.value.State() == ChainState(0, NoDigest(), None)
      ensures r.Ok? ==> r.value.Who() == Identity(crypto, signingKey, agentSessionId, grant.buildId)
      ensures r.Err? ==>
                r.error == if grant.agentPublicKey != crypto.publicKey(signingKey) then KeyBinding
                           else if 0 < |agentSessionId| <= 128 then PolicyBinding
                           else if grant.gameId == policy.gameId && grant.environmentId == policy.environmentId
                                   && grant.policyDigest == crypto.hash(EncodeToVec(EnvelopeCodec(), signedPolicy))
                           then ChallengeRejected else PolicyBinding
    {
      if grant.agentPublicKey != crypto.publicKey(signingKey) {
        return Err(KeyBinding);
      }
      if grant.gameId != policy.gameId || grant.environmentId != policy.environmentId {
        return Err(PolicyBinding);
      }
      var policyDigest := crypto.hash(EncodeToVec(EnvelopeCodec(), signedPolicy));
      if grant.policyDigest != policyDigest {
        return Err(PolicyBinding);
      }
      if agentSessionId == [] || |agentSessionId| > 128 {
        return Err(ChallengeRejected);
      }
      var session := new AgentSession(crypto, signingKey, grant, policy, agentSessionId);
      return Ok(session);
    }

    function Who(): Identity {
      Identity(crypto, signingKey, agentSessionId, grant.buildId)
    }

    function State(): ChainState
      reads this
    {
      ChainState(sequence, previousDigest, lastChallengeDigest)
    }

    /** The counter and the digest are those of the reports created so far, which form a chain. */
    ghost predicate Valid()
      reads this
    {
      && Chained(crypto, history)
      && sequence == |history|
      && previousDigest == LastDigest(crypto, history)
    }

    /** Answers a challenge. The report joins the chain; an error leaves the session as it was. */
    method CreateReport(challenge: Challenge, now: int64, executable: digest, observations: seq<Observation>)
      returns (r: Result<Report, SessionError>)
      requires Valid()
      modifies this
      ensures Valid()
      ensures var a := Answer(Who(), old(State()), challenge, now, executable, observations);
              match a
              case Ok((report, s)) => r == Ok(report) && State() == s && history == old(history) + [report]
              case Err(e) => r == Err(e) && State() == old(State()) && history == old(history)
    {
      hide EncodeReport, EncodeChallenge, SignReport, Chained, LastDigest, ReportDigest;
      if challenge.agentSessionId != agentSessionId
         || |challenge.nonce| < 16
         || |challenge.nonce| > 256
         || challenge.expiresAtUnix <= now
         || Subtract64(challenge.expiresAtUnix, now) > 120
      {
        return Err(ChallengeRejected);
      }
      var challengeDigest := crypto.hash(EncodeChallenge(challenge));
      if lastChallengeDigest == Some(challengeDigest) {
        return Err(ChallengeRejected);
      }
      if sequence + 1 == U64 {
        return Err(SequenceExhausted);
      }
      var draft := Report(PROTOCOL_VERSION, agentSessionId, sequence + 1, challenge.nonce, now, grant.buildId,
                          executable, observations, previousDigest, []);
      var signed := SignReport(crypto, signingKey, draft);
      if signed.Err? {
        return Err(Refused(signed.error));
      }
      var report := signed.value;
      SignedReportJoinsChain(crypto, signingKey, history, draft);
      sequence := sequence + 1;
      previousDigest := ReportDigest(crypto, report);
      lastChallengeDigest := Some(challengeDigest);
      history := history + [report];
      return Ok(report);
    }
  }

  /** Signing a draft that carries the next number and the last digest extends the chain. */
  lemma {:induction false} SignedReportJoinsChain(c: Crypto, key: bytes, reports: seq<Report>, draft: Report)
    requires Chained(c, reports) && SignReport(c, key, draft).Ok?
    requires draft.sequence == |reports| + 1 && draft.previousReportDigest == LastDigest(c, reports)
    ensures
      var report := SignReport(c, key, draft).value;
      && Chained(c, reports + [report])
      && LastDigest(c, reports + [report]) == ReportDigest(c, report)
      && report.sequence == draft.sequence
  {
    hide EncodeReport, SignReport, Chained, LastDigest, ReportDigest, Unsigned;
    var report := SignReport(c, key, draft).value;
    SigningKeepsReport(c, key, draft);
    SignatureSize(report);
    ChainExtends(c, reports, report);
    LastOfExtended(c, reports, report);
  }

  lemma {:induction false} LastOfExtended(c: Crypto, reports: seq<Report>, r: Report)
    ensures LastDigest(c, reports + [r]) == ReportDigest(c, r)
  {
    hide ReportDigest;
  }
}
