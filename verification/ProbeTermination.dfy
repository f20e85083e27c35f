/** When a probing session ends: how long it may run if the network acknowledges what
    cannot be improved any more, and from which parameters it may run forever. */
module ProbeTermination {
  import opened Common
  import opened Probe
  import opened ProbeProperties

  // ---- how far failed rounds move the parameters ----

  predicate InRange(p: Params) {
    0 <= p.sigma <= MAX_INT && 0 <= p.tau <= HOUR
  }

  /** A failed round changes nothing any more. */
  predicate Settled(lim: Limits, p: Params) {
    Increase(lim, p) == p
  }

  function TauDoublings(tau: int): nat {
    if tau <= 0 then 0 else Doublings(tau, HOUR)
  }

  /** The number of failed rounds after which the parameters are settled. */
  function Climb(lim: Limits, p: Params): nat {
    if p.sigma <= 0 then 0
    else if p.sigma <= lim.cap then Doublings(p.sigma, lim.cap) + TauDoublings(p.tau)
    else if lim.members > 4 then 1 + Doublings(1, lim.cap) + TauDoublings(DoubleTau(p.tau))
    else 0
  }

  lemma ClimbStep(lim: Limits, p: Params)
    requires ValidLimits(lim) && InRange(p)
    ensures InRange(Increase(lim, p))
    ensures Settled(lim, p) <==> Climb(lim, p) == 0
    ensures Climb(lim, Increase(lim, p)) == Max(0, Climb(lim, p) - 1)
  {
    if 0 < p.sigma < lim.cap {
      DoublingsCapped(p.sigma, lim.cap);
    } else if p.sigma == lim.cap && 0 < p.tau < HOUR {
      DoublingsCapped(p.tau, HOUR);
    }
  }

  /** Exactly after Climb failed rounds, not earlier, the parameters are settled. */
  lemma {:induction false} SettledExactlyAfter(lim: Limits, p: Params, k: nat)
    requires ValidLimits(lim) && InRange(p)
    ensures InRange(AfterFailures(lim, p, k))
    ensures Climb(lim, AfterFailures(lim, p, k)) == Max(0, Climb(lim, p) - k)
    ensures Settled(lim, AfterFailures(lim, p, k)) <==> k >= Climb(lim, p)
  {
    if k > 0 {
      SettledExactlyAfter(lim, p, k - 1);
      ClimbStep(lim, AfterFailures(lim, p, k - 1));
    }
    ClimbStep(lim, AfterFailures(lim, p, k));
  }

  /** From where failed rounds lead to saturated parameters. */
  predicate CanSaturate(lim: Limits, p: Params) {
    p.sigma > 0 && p.tau > 0 && (p.sigma <= lim.cap || lim.members > 4)
  }

  lemma SaturationStep(lim: Limits, p: Params)
    requires ValidLimits(lim) && InRange(p)
    ensures CanSaturate(lim, Increase(lim, p)) <==> CanSaturate(lim, p)
    ensures Saturated(lim, p) <==> Settled(lim, p) && CanSaturate(lim, p)
  {
  }

  lemma {:induction false} CanSaturateStays(lim: Limits, p: Params, k: nat)
    requires ValidLimits(lim) && InRange(p)
    ensures InRange(AfterFailures(lim, p, k))
    ensures CanSaturate(lim, AfterFailures(lim, p, k)) <==> CanSaturate(lim, p)
  {
    if k > 0 {
      CanSaturateStays(lim, p, k - 1);
      ClimbStep(lim, AfterFailures(lim, p, k - 1));
      SaturationStep(lim, AfterFailures(lim, p, k - 1));
    }
  }

  // ---- an upper bound ----

  /** The network acknowledges every round whose parameters cannot be increased. */
  predicate SettledRoundsAccepted(lim: Limits, rs: seq<AckRound>) {
    forall i :: 0 <= i < |rs| && Settled(lim, rs[i].params) ==> Accepted(lim, rs[i])
  }

  lemma {:induction false} FailuresAtMostClimb(lim: Limits, p: Params, rs: seq<AckRound>)
    requires ValidLimits(lim) && InRange(p)
    requires SessionTrace(lim, p, rs) && SettledRoundsAccepted(lim, rs)
    ensures Failures(lim, rs) <= Climb(lim, p)
  {
    if rs != [] {
      var k := |rs| - 1;
      TracePrefix(lim, p, rs, k);
      FailuresAtMostClimb(lim, p, rs[..k]);
      if !Accepted(lim, rs[k]) {
        ParamsOfRound(lim, p, rs, k);
        SettledExactlyAfter(lim, p, Failures(lim, rs[..k]));
      }
    }
  }

  /** A session over the events env from parameters p, its rounds and its result. */
  ghost predicate Session(config: SessionConfig, p: Params, env: seq<RoundEvent>, rs: seq<AckRound>, r: SessionResult) {
    SessionTrace(LimitsOf(config), p, rs) && SessionOutcome(config, LimitsOf(config), LruMembers, env, rs, r)
  }

  /** From any parameters, the session is over after three rounds for each step of the
      climb and three more: with that many timer events it does not keep running. */
  lemma SettledSessionTerminates(config: SessionConfig, p: Params, env: seq<RoundEvent>, rs: seq<AckRound>, r: SessionResult)
    requires ValidLevel(config.phi, config.numMembers) && InRange(p)
    requires Session(config, p, env, rs, r) && SettledRoundsAccepted(LimitsOf(config), rs)
    ensures |rs| <= 3 * Climb(LimitsOf(config), p) + 3
    ensures |env| >= 3 * Climb(LimitsOf(config), p) + 3 ==> !r.Running?
  {
    var lim := LimitsOf(config);
    LimitsAreValid(config);
    FailuresAtMostClimb(lim, p, rs);
    RoundsPerFailure(lim, p, rs);
    if r.Running? && rs != [] {
      assert Streak(lim, rs) <= 2;
    }
  }

  // ---- sessions that run as long as that ----

  function Sender(i: nat): string {
    Repeat('n', i)
  }

  /** Acknowledgments of one round by n senders. */
  function AcksBy(config: SessionConfig, order: nat, n: nat): seq<Ack> {
    if n == 0 then [] else AcksBy(config, order, n - 1) + [Ack(Sender(n - 1), ProbeId(order, config.sessionId))]
  }

  lemma {:induction false} AcksAreCounted(config: SessionConfig, order: nat, n: nat)
    ensures |Collect(config, order, AcksBy(config, order, n))| == n
    ensures forall s :: s in Collect(config, order, AcksBy(config, order, n)) ==> |s| < n
  {
    if n > 0 {
      var front := AcksBy(config, order, n - 1);
      AcksAreCounted(config, order, n - 1);
      assert AcksBy(config, order, n)[..n - 1 + |front| - (n - 1)] == front;
      assert Sender(n - 1) !in Collect(config, order, front);
    }
  }

  /** A round after rs whose acknowledgments make it accepted, or not. */
  lemma NewRound(config: SessionConfig, p: Params, rs: seq<AckRound>, accepted: bool) returns (acks: seq<Ack>, round: AckRound)
    requires ValidLevel(config.phi, config.numMembers)
    ensures round.order == (|rs| + 1) % 0x1_0000_0000 && round.acks == Collect(config, round.order, acks)
    ensures round.params == if rs == [] then p else Next(LimitsOf(config), Last(rs))
    ensures Accepted(LimitsOf(config), round) <==> accepted
  {
    LimitsAreValid(config);
    var n, order := if accepted then LimitsOf(config).need else 0, (|rs| + 1) % 0x1_0000_0000;
    acks := AcksBy(config, order, n);
    AcksAreCounted(config, order, n);
    round := AckRound(if rs == [] then p else Next(LimitsOf(config), Last(rs)), order, Collect(config, order, acks));
  }

  /** The session over env has not ended yet. */
  ghost predicate StillRunning(config: SessionConfig, p: Params, env: seq<RoundEvent>, rs: seq<AckRound>) {
    match p
    case Params(_, _) => |env| == |rs| && Session(config, p, env, rs, Running) && Streak(LimitsOf(config), rs) <= 2
  }

  /** The session over env has ended with its third accepted round in a row. */
  ghost predicate JustFinished(config: SessionConfig, p: Params, env: seq<RoundEvent>, rs: seq<AckRound>) {
    match p
    case Params(_, _) => exists r: SessionResult :: r.Finished? && Session(config, p, env, rs, r)
  }

  lemma OneMoreRound(config: SessionConfig, p: Params, env: seq<RoundEvent>, rs: seq<AckRound>, accepted: bool)
    returns (env': seq<RoundEvent>, round: AckRound)
    requires ValidLevel(config.phi, config.numMembers) && StillRunning(config, p, env, rs)
    ensures round.params == if rs == [] then p else Next(LimitsOf(config), Last(rs))
    ensures Accepted(LimitsOf(config), round) <==> accepted
    ensures Streak(LimitsOf(config), rs + [round]) == if accepted then Streak(LimitsOf(config), rs) + 1 else 0
    ensures if Streak(LimitsOf(config), rs + [round]) <= 2 then StillRunning(config, p, env', rs + [round])
            else JustFinished(config, p, env', rs + [round])
  {
    var acks;
    acks, round := NewRound(config, p, rs, accepted);
    ExtendTrace(LimitsOf(config), p, rs, round);
    env' := env + [Expired(acks)];
    ExtendSession(config, env, rs, acks, round);
  }

  lemma ExtendSession(config: SessionConfig, env: seq<RoundEvent>, rs: seq<AckRound>, acks: seq<Ack>, round: AckRound)
    requires |env| == |rs| && SessionOutcome(config, LimitsOf(config), LruMembers, env, rs, Running)
    requires round.acks == Collect(config, round.order, acks) && config.numMembers != 0
    ensures SessionOutcome(config, LimitsOf(config), LruMembers, env + [Expired(acks)], rs + [round],
                           Judged(LimitsOf(config), rs + [round], Expired(acks)))
  {
    var env' := env + [Expired(acks)];
    assert env'[..|rs|] == env && env'[..|rs| + 1] == env';
    ExtendEvents(config, LimitsOf(config), LruMembers, env', rs, round);
  }

  lemma FailuresSnoc(lim: Limits, rs: seq<AckRound>, r: AckRound)
    ensures Failures(lim, rs + [r]) == Failures(lim, rs) + if Accepted(lim, r) then 0 else 1
  {
    assert (rs + [r])[..|rs|] == rs;
  }

  lemma NotStarted(config: SessionConfig, p: Params)
    ensures StillRunning(config, p, [], [])
  {
  }

  /** One more failed round comes with the parameters after the failed rounds so far. */
  lemma OneMoreFailure(config: SessionConfig, p: Params, env: seq<RoundEvent>, rs: seq<AckRound>)
    returns (env': seq<RoundEvent>, round: AckRound)
    requires ValidLevel(config.phi, config.numMembers) && StillRunning(config, p, env, rs)
    ensures !Accepted(LimitsOf(config), round) && StillRunning(config, p, env', rs + [round])
    ensures round.params == AfterFailures(LimitsOf(config), p, Failures(LimitsOf(config), rs))
    ensures Failures(LimitsOf(config), rs + [round]) == Failures(LimitsOf(config), rs) + 1
    ensures Streak(LimitsOf(config), rs + [round]) == 0
  {
    env', round := OneMoreRound(config, p, env, rs, false);
    ParamsOfRound(LimitsOf(config), p, rs + [round], |rs|);
    assert (rs + [round])[..|rs|] == rs;
    FailuresSnoc(LimitsOf(config), rs, round);
  }

  /** k rounds that all fail. */
  lemma {:induction false} EndlessSession(config: SessionConfig, p: Params, k: nat) returns (env: seq<RoundEvent>, rs: seq<AckRound>)
    requires ValidLevel(config.phi, config.numMembers)
    ensures |rs| == k == Failures(LimitsOf(config), rs) && StillRunning(config, p, env, rs)
    ensures forall i :: 0 <= i < k ==> rs[i].params == AfterFailures(LimitsOf(config), p, i)
  {
    if k == 0 {
      env, rs := [], [];
      NotStarted(config, p);
    } else {
      env, rs := EndlessSession(config, p, k - 1);
      var round;
      env, round := OneMoreFailure(config, p, env, rs);
      rs := rs + [round];
    }
  }

  /** A running session of which each third round failed, the others not. */
  ghost predicate Slow(config: SessionConfig, p: Params, env: seq<RoundEvent>, rs: seq<AckRound>, k: nat) {
    match p
    case Params(_, _) =>
      && StillRunning(config, p, env, rs)
      && |rs| == 3 * k && Failures(LimitsOf(config), rs) == k && Streak(LimitsOf(config), rs) == 0
      && SettledRoundsAccepted(LimitsOf(config), rs)
  }

  /** Two accepted rounds more. */
  lemma TwoMoreRounds(config: SessionConfig, p: Params, env: seq<RoundEvent>, rs: seq<AckRound>)
    returns (env': seq<RoundEvent>, rs': seq<AckRound>)
    requires ValidLevel(config.phi, config.numMembers) && StillRunning(config, p, env, rs)
    requires Streak(LimitsOf(config), rs) == 0 && SettledRoundsAccepted(LimitsOf(config), rs)
    ensures |rs'| == |rs| + 2 && Failures(LimitsOf(config), rs') == Failures(LimitsOf(config), rs)
    ensures StillRunning(config, p, env', rs') && Streak(LimitsOf(config), rs') == 2
    ensures SettledRoundsAccepted(LimitsOf(config), rs')
  {
    var r1, r2;
    env', r1 := OneMoreRound(config, p, env, rs, true);
    FailuresSnoc(LimitsOf(config), rs, r1);
    env', r2 := OneMoreRound(config, p, env', rs + [r1], true);
    FailuresSnoc(LimitsOf(config), rs + [r1], r2);
    rs' := rs + [r1] + [r2];
  }

  /** Such a session for every number of steps of the climb. */
  lemma {:induction false} SlowSession(config: SessionConfig, p: Params, k: nat) returns (env: seq<RoundEvent>, rs: seq<AckRound>)
    requires ValidLevel(config.phi, config.numMembers) && InRange(p) && k <= Climb(LimitsOf(config), p)
    ensures Slow(config, p, env, rs, k)
  {
    if k == 0 {
      env, rs := [], [];
      NotStarted(config, p);
    } else {
      env, rs := SlowSession(config, p, k - 1);
      env, rs := TwoMoreRounds(config, p, env, rs);
      var round;
      env, round := OneMoreFailure(config, p, env, rs);
      LimitsAreValid(config);
      SettledExactlyAfter(LimitsOf(config), p, k - 1);
      rs := rs + [round];
    }
  }

  /** The bound is attained by a session that finishes. */
  lemma SlowestSession(config: SessionConfig, p: Params) returns (env: seq<RoundEvent>, rs: seq<AckRound>)
    requires ValidLevel(config.phi, config.numMembers) && InRange(p)
    ensures |rs| == 3 * Climb(LimitsOf(config), p) + 3
    ensures JustFinished(config, p, env, rs) && SettledRoundsAccepted(LimitsOf(config), rs)
  {
    env, rs := SlowSession(config, p, Climb(LimitsOf(config), p));
    env, rs := TwoMoreRounds(config, p, env, rs);
    var round;
    env, round := OneMoreRound(config, p, env, rs, true);
    rs := rs + [round];
  }

  // ---- exactly how long, and exactly when ----

  /** No session from p has more than b rounds if settled rounds are acknowledged. */
  ghost predicate SettledBound(config: SessionConfig, p: Params, b: nat) {
    forall env, rs, r :: Session(config, p, env, rs, r) && SettledRoundsAccepted(LimitsOf(config), rs) ==> |rs| <= b
  }

  /** The least such bound, from all parameters. */
  lemma SettledBoundExactly(config: SessionConfig, p: Params, b: nat)
    requires ValidLevel(config.phi, config.numMembers) && InRange(p)
    ensures SettledBound(config, p, b) <==> b >= 3 * Climb(LimitsOf(config), p) + 3
  {
    if b >= 3 * Climb(LimitsOf(config), p) + 3 {
      forall env, rs, r | Session(config, p, env, rs, r) && SettledRoundsAccepted(LimitsOf(config), rs)
        ensures |rs| <= b
      {
        SettledSessionTerminates(config, p, env, rs, r);
      }
    } else {
      var env, rs := SlowestSession(config, p);
      var r: SessionResult :| r.Finished? && Session(config, p, env, rs, r);
    }
  }

  /** No session from p has more than b rounds if rounds with saturated parameters are
      acknowledged. */
  ghost predicate Bounded(config: SessionConfig, p: Params, b: nat) {
    forall env, rs, r :: Session(config, p, env, rs, r) && SaturatedRoundsAccepted(LimitsOf(config), rs) ==> |rs| <= b
  }

  /** A session that needs no acknowledgment: its level or its network is empty. */
  predicate NeedsNothing(config: SessionConfig) {
    config.phi == 0.0 || config.numMembers <= 0
  }

  /** Sessions are certain to end, in a network that acknowledges saturated rounds, if and
      only if they need nothing, or both parameters are positive and sigma is not above
      its cap in a network of four members or fewer. */
  lemma TerminatesExactlyWhen(config: SessionConfig, p: Params)
    requires 0.0 <= config.phi <= 1.0 && -1 <= config.numMembers <= MAX_INT && InRange(p)
    ensures (exists b: nat :: Bounded(config, p, b)) <==> NeedsNothing(config) || CanSaturate(LimitsOf(config), p)
  {
    if NeedsNothing(config) {
      NothingNeededBound(config, p);
    } else if CanSaturate(LimitsOf(config), p) {
      SaturatedBound(config, p);
    } else {
      forall b: nat
        ensures !Bounded(config, p, b)
      {
        Unbounded(config, p, b);
      }
    }
  }

  lemma NothingNeededBound(config: SessionConfig, p: Params)
    requires 0.0 <= config.phi <= 1.0 && -1 <= config.numMembers && NeedsNothing(config)
    ensures Bounded(config, p, 3)
  {
    forall env, rs, r | Session(config, p, env, rs, r)
      ensures |rs| <= 3
    {
      if config.numMembers != 0 {
        NoneNeeded(config);
        AllAccepted(LimitsOf(config), rs);
        RoundsPerFailure(LimitsOf(config), p, rs);
      }
    }
  }

  lemma NoneNeeded(config: SessionConfig)
    requires 0.0 <= config.phi && NeedsNothing(config)
    ensures LimitsOf(config).need <= 0
  {
    var x := config.numMembers as real * config.phi;
    assert x <= 0.0;
    CeilUnique(x, Ceil(x));
  }

  /** From there, three rounds for each step of the climb and three more are enough. In the
      region the climb is log2(cap/sigma) + log2(hour/tau). */
  lemma SessionTerminates(config: SessionConfig, p: Params, mode: Mode, env: seq<RoundEvent>, rs: seq<AckRound>, r: SessionResult)
    requires ValidLevel(config.phi, config.numMembers) && InRange(p) && CanSaturate(LimitsOf(config), p)
    requires SessionTrace(LimitsOf(config), p, rs) && SessionOutcome(config, LimitsOf(config), mode, env, rs, r)
    requires SaturatedRoundsAccepted(LimitsOf(config), rs)
    ensures |rs| <= 3 * Climb(LimitsOf(config), p) + 3
    ensures |env| >= 3 * Climb(LimitsOf(config), p) + 3 ==> !r.Running?
    ensures InRegion(LimitsOf(config), p) ==> Climb(LimitsOf(config), p) == Rank(LimitsOf(config), p)
  {
    if mode == LruMembers {
      LimitsAreValid(config);
      SettledMeansSaturated(LimitsOf(config), p, rs);
      SettledSessionTerminates(config, p, env, rs, r);
    }
  }

  lemma SaturatedBound(config: SessionConfig, p: Params)
    requires ValidLevel(config.phi, config.numMembers) && InRange(p) && CanSaturate(LimitsOf(config), p)
    ensures Bounded(config, p, 3 * Climb(LimitsOf(config), p) + 3)
  {
    forall env, rs, r | Session(config, p, env, rs, r) && SaturatedRoundsAccepted(LimitsOf(config), rs)
      ensures |rs| <= 3 * Climb(LimitsOf(config), p) + 3
    {
      SessionTerminates(config, p, LruMembers, env, rs, r);
    }
  }

  lemma SettledMeansSaturated(lim: Limits, p: Params, rs: seq<AckRound>)
    requires ValidLimits(lim) && InRange(p) && CanSaturate(lim, p)
    requires SessionTrace(lim, p, rs) && SaturatedRoundsAccepted(lim, rs)
    ensures SettledRoundsAccepted(lim, rs)
  {
    forall i | 0 <= i < |rs| && Settled(lim, rs[i].params)
      ensures Accepted(lim, rs[i])
    {
      ParamsOfRound(lim, p, rs, i);
      CanSaturateStays(lim, p, Failures(lim, rs[..i]));
      SaturationStep(lim, rs[i].params);
    }
  }

  lemma Unbounded(config: SessionConfig, p: Params, b: nat)
    requires ValidLevel(config.phi, config.numMembers) && InRange(p) && !CanSaturate(LimitsOf(config), p)
    ensures !Bounded(config, p, b)
  {
    var lim := LimitsOf(config);
    LimitsAreValid(config);
    var env, rs := EndlessSession(config, p, b + 1);
    forall i | 0 <= i < |rs|
      ensures !Saturated(lim, rs[i].params)
    {
      CanSaturateStays(lim, p, i);
      SaturationStep(lim, AfterFailures(lim, p, i));
    }
    assert Session(config, p, env, rs, Running);
  }

  // ---- tau zero ----

  /** A session started with tau zero keeps it: all its rounds have it. */
  lemma {:induction false} TauZeroStays(lim: Limits, p: Params, rs: seq<AckRound>, i: nat)
    requires SessionTrace(lim, p, rs) && p.tau == 0 && i < |rs|
    ensures rs[i].params.tau == 0
  {
    if i > 0 {
      TauZeroStays(lim, p, rs, i - 1);
      assert rs[i].params == Next(lim, rs[i - 1]);
    }
  }

  /** So it can only finish with a configuration that has tau zero again. */
  lemma FinishesWithTauZero(config: SessionConfig, p: Params, mode: Mode, env: seq<RoundEvent>, rs: seq<AckRound>, r: SessionResult)
    requires SessionTrace(LimitsOf(config), p, rs) && SessionOutcome(config, LimitsOf(config), mode, env, rs, r)
    requires p.tau == 0 && r.Finished?
    ensures r.config.tau == 0
  {
    TauZeroStays(LimitsOf(config), p, rs, |rs| - 1);
  }

  /** A session of a manager, which always has tau zero, is certain to end only if it
      needs no acknowledgment. */
  lemma TauZeroTerminatesExactlyWhen(config: SessionConfig, sigma: int)
    requires 0.0 <= config.phi <= 1.0 && -1 <= config.numMembers <= MAX_INT && 0 <= sigma <= MAX_INT
    ensures (exists b: nat :: Bounded(config, Params(sigma, 0), b)) <==> NeedsNothing(config)
  {
    TerminatesExactlyWhen(config, Params(sigma, 0));
  }
}
