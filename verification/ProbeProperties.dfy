/** What a probing session guarantees: progress of the two parameters, rounds counted by
    failed rounds, and what a finished configuration has behind it. */
module ProbeProperties {
  import opened Common
  import opened Probe

  // ---- ceilings ----

  /** Halving may be done before or after rounding up. */
  lemma CeilHalf(x: real)
    ensures Ceil(x / 2.0) == Ceil(Ceil(x) as real / 2.0)
  {
    var k := Ceil(Ceil(x) as real / 2.0);
    CeilUnique(x, Ceil(x));
    CeilUnique(Ceil(x) as real / 2.0, k);
    assert Ceil(x) <= 2 * k < Ceil(x) + 2;
    CeilUnique(x / 2.0, k);
  }

  predicate ValidLevel(phi: real, n: int) {
    0.0 < phi <= 1.0 && 1 <= n <= MAX_INT
  }

  /** The cap of sigma is half of the acknowledgments needed, rounded up, and a round
      never needs more acknowledgments than there are members. */
  lemma CapIsHalfOfNeeded(phi: real, n: int)
    requires ValidLevel(phi, n)
    ensures 1 <= Needed(phi, n) <= n
    ensures Cap(phi, n) == Ceil(Needed(phi, n) as real / 2.0)
    ensures 1 <= Cap(phi, n) && 2 * Cap(phi, n) <= n + 1
  {
    Scaled(phi, n as real);
    CapAsCeil(phi, n, n as real * phi, n);
  }

  lemma CapAsCeil(phi: real, n: int, x: real, bound: int)
    requires x == n as real * phi && 0.0 < x <= bound as real
    ensures 1 <= Needed(phi, n) <= bound
    ensures Cap(phi, n) == Ceil(Needed(phi, n) as real / 2.0)
    ensures 1 <= Cap(phi, n) && 2 * Cap(phi, n) <= bound + 1
  {
    assert phi * n as real == x;
    assert Needed(phi, n) == Ceil(x) && Cap(phi, n) == Ceil(x / 2.0);
    CeilHalf(x);
    BoundedCeil(x, bound);
  }

  lemma BoundedCeil(x: real, n: int)
    requires 0.0 < x <= n as real
    ensures 1 <= Ceil(x) <= n && 1 <= Ceil(x / 2.0) && 2 * Ceil(x / 2.0) <= n + 1
  {
    CeilUnique(x, Ceil(x));
    CeilUnique(x / 2.0, Ceil(x / 2.0));
  }

  lemma Scaled(phi: real, m: real)
    requires 0.0 < phi <= 1.0 && m > 0.0
    ensures 0.0 < m * phi <= m
  {
  }

  /** A round needs an acknowledgment at all exactly when the acceptance level is positive. */
  lemma NeedsAnAckExactlyWhen(phi: real, n: int)
    requires n >= 1
    ensures Needed(phi, n) >= 1 <==> phi > 0.0
  {
    var x := n as real * phi;
    CeilUnique(x, Ceil(x));
    if phi > 0.0 {
      assert x > 0.0;
    } else {
      assert x <= 0.0;
    }
  }

  // ---- one failed round ----

  /** What the limits of a session are, seen as integers. */
  predicate ValidLimits(lim: Limits) {
    && 1 <= lim.need <= lim.members <= MAX_INT
    && 1 <= lim.cap && 2 * lim.cap <= lim.members + 1
  }

  lemma LimitsAreValid(config: SessionConfig)
    requires ValidLevel(config.phi, config.numMembers)
    ensures ValidLimits(LimitsOf(config))
  {
    CapIsHalfOfNeeded(config.phi, config.numMembers);
  }

  /** The parameters a session is meant to move in. */
  predicate InRegion(lim: Limits, p: Params) {
    1 <= p.sigma <= lim.cap && 0 < p.tau <= HOUR
  }

  predicate Saturated(lim: Limits, p: Params) {
    p == Params(lim.cap, HOUR)
  }

  predicate Below(p: Params, q: Params) {
    p.sigma < q.sigma || (p.sigma == q.sigma && p.tau < q.tau)
  }

  /** Doubling never overflows in the region. */
  lemma IncreaseInRegion(lim: Limits, p: Params)
    requires ValidLimits(lim) && InRegion(lim, p)
    ensures Increase(lim, p)
            == if p.sigma < lim.cap then p.(sigma := Min(2 * p.sigma, lim.cap)) else p.(tau := Min(2 * p.tau, HOUR))
  {
  }

  /** A failed round stays in the region and moves strictly up, sigma before tau,
      unless both are already at their bounds. */
  lemma FailedRoundProgress(lim: Limits, p: Params)
    requires ValidLimits(lim) && InRegion(lim, p)
    ensures InRegion(lim, Increase(lim, p))
    ensures if Saturated(lim, p) then Increase(lim, p) == p else Below(p, Increase(lim, p))
  {
    IncreaseInRegion(lim, p);
  }

  /** Above the region one failed round returns to it exactly when there are more than
      four members; otherwise it changes nothing. */
  lemma ReturnsToRegionExactlyWhen(lim: Limits, p: Params)
    requires ValidLimits(lim) && p.sigma > lim.cap && 0 < p.tau <= HOUR
    ensures InRegion(lim, Increase(lim, p)) <==> lim.members > 4
    ensures lim.members <= 4 ==> Increase(lim, p) == p
  {
  }

  /** What a failed round cannot leave: a sigma of zero, or a tau of zero. */
  predicate Stuck(p: Params) {
    p.sigma == 0 || p.tau == 0
  }

  /** From there no number of failed rounds reaches the region. */
  lemma {:induction false} NeverReachesRegion(lim: Limits, p: Params, k: nat)
    requires ValidLimits(lim) && Stuck(p)
    ensures Stuck(AfterFailures(lim, p, k)) && !InRegion(lim, AfterFailures(lim, p, k))
  {
    if k > 0 {
      NeverReachesRegion(lim, p, k - 1);
    }
  }

  // ---- many failed rounds ----

  function AfterFailures(lim: Limits, p: Params, k: nat): Params {
    if k == 0 then p else Increase(lim, AfterFailures(lim, p, k - 1))
  }

  /** How often a must be doubled to reach cap. */
  function Doublings(a: int, cap: int): nat
    requires a >= 1
    decreases cap - a
  {
    if a >= cap then 0 else 1 + Doublings(2 * a, cap)
  }

  function Pow2(k: nat): nat {
    if k == 0 then 1 else 2 * Pow2(k - 1)
  }

  /** Doublings(a, cap) is the binary logarithm of cap / a, rounded up. */
  lemma {:induction false} DoublingsIsLog2(a: int, cap: int, k: nat)
    requires a >= 1
    ensures a * Pow2(k) >= cap <==> k >= Doublings(a, cap)
    decreases k
  {
    if k > 0 {
      DoublingsIsLog2(2 * a, cap, k - 1);
      DoubleOnce(a, Pow2(k - 1));
      PowPositive(k);
      AtLeast(a, Pow2(k));
    }
  }

  lemma DoubleOnce(a: int, m: int)
    ensures 2 * a * m == a * (2 * m)
  {
  }

  lemma AtLeast(a: int, m: int)
    requires a >= 1 && m >= 1
    ensures a * m >= a
  {
  }

  lemma {:induction false} PowPositive(k: nat)
    ensures Pow2(k) >= 1
  {
    if k > 0 {
      PowPositive(k - 1);
    }
  }

  lemma DoublingsCapped(a: int, cap: int)
    requires 1 <= a < cap
    ensures Doublings(a, cap) == 1 + Doublings(Min(2 * a, cap), cap)
  {
  }

  /** The number of failed rounds that separate p from saturation. */
  function Rank(lim: Limits, p: Params): nat
    requires p.sigma >= 1 && p.tau >= 1
  {
    Doublings(p.sigma, lim.cap) + Doublings(p.tau, HOUR)
  }

  lemma RankStep(lim: Limits, p: Params)
    requires ValidLimits(lim) && InRegion(lim, p)
    ensures InRegion(lim, Increase(lim, p))
    ensures Saturated(lim, p) <==> Rank(lim, p) == 0
    ensures Rank(lim, Increase(lim, p)) == Max(0, Rank(lim, p) - 1)
  {
    IncreaseInRegion(lim, p);
    FailedRoundProgress(lim, p);
    if p.sigma < lim.cap {
      DoublingsCapped(p.sigma, lim.cap);
    } else if p.tau < HOUR {
      DoublingsCapped(p.tau, HOUR);
    }
  }

  /** Exactly after Rank failed rounds, not earlier, both parameters are at their bounds. */
  lemma {:induction false} SaturationExactlyAfter(lim: Limits, p: Params, k: nat)
    requires ValidLimits(lim) && InRegion(lim, p)
    ensures InRegion(lim, AfterFailures(lim, p, k))
    ensures Rank(lim, AfterFailures(lim, p, k)) == Max(0, Rank(lim, p) - k)
    ensures Saturated(lim, AfterFailures(lim, p, k)) <==> k >= Rank(lim, p)
  {
    if k == 0 {
      RankStep(lim, p);
    } else {
      SaturationExactlyAfter(lim, p, k - 1);
      RankStep(lim, AfterFailures(lim, p, k - 1));
      RankStep(lim, AfterFailures(lim, p, k));
    }
  }

  // ---- whole sessions ----

  lemma TracePrefix(lim: Limits, p: Params, rs: seq<AckRound>, k: nat)
    requires SessionTrace(lim, p, rs) && k <= |rs|
    ensures SessionTrace(lim, p, rs[..k])
  {
    forall i | 0 <= i < k
      ensures Streak(lim, rs[..k][..i]) <= 2
    {
      assert rs[..k][..i] == rs[..i];
    }
  }

  /** A session with F failed rounds has at most 3F rounds and its final streak, which
      is at most three. */
  lemma {:induction false} RoundsPerFailure(lim: Limits, p: Params, rs: seq<AckRound>)
    requires SessionTrace(lim, p, rs)
    ensures Streak(lim, rs) <= 3
    ensures |rs| <= 3 * Failures(lim, rs) + Streak(lim, rs) <= 3 * Failures(lim, rs) + 3
  {
    if rs != [] {
      TracePrefix(lim, p, rs, |rs| - 1);
      RoundsPerFailure(lim, p, rs[..|rs| - 1]);
      assert Streak(lim, rs[..|rs| - 1]) <= 2;
    }
  }

  /** The parameters of a round are those after as many failed rounds as came before it. */
  lemma {:induction false} ParamsOfRound(lim: Limits, p: Params, rs: seq<AckRound>, i: nat)
    requires SessionTrace(lim, p, rs) && i < |rs|
    ensures rs[i].params == AfterFailures(lim, p, Failures(lim, rs[..i]))
  {
    if i > 0 {
      ParamsOfRound(lim, p, rs, i - 1);
      assert rs[..i][..i - 1] == rs[..i - 1];
      assert Last(rs[..i]) == rs[i - 1];
      assert rs[i].params == Next(lim, rs[i - 1]);
    }
  }

  /** The network acknowledges every round sent with saturated parameters. */
  predicate SaturatedRoundsAccepted(lim: Limits, rs: seq<AckRound>) {
    forall i :: 0 <= i < |rs| && Saturated(lim, rs[i].params) ==>
      Accepted(lim, rs[i])
  }

  /** A finished session's configuration was used unchanged in its three last rounds,
      and each of them was acknowledged, as that round of that session, by at least the
      required number of distinct senders. */
  lemma FinishedIsConfirmed(config: SessionConfig, p: Params, mode: Mode, env: seq<RoundEvent>, rs: seq<AckRound>, r: SessionResult)
    requires SessionTrace(LimitsOf(config), p, rs)
    requires SessionOutcome(config, LimitsOf(config), mode, env, rs, r) && r.Finished?
    ensures |rs| >= 3
    ensures forall i :: |rs| - 3 <= i < |rs| ==>
              && rs[i].params == Params(r.config.sigma, r.config.tau)
              && |rs[i].acks| as real >= Share(config)
              && env[i].Expired?
              && (forall s :: s in rs[i].acks ==> Ack(s, ProbeId(rs[i].order, config.sessionId)) in env[i].acks)
  {
    LastThree(LimitsOf(config), p, rs);
    forall i | |rs| - 3 <= i < |rs|
      ensures |rs[i].acks| as real >= Share(config)
    {
      AcceptedShare(config, rs[i]);
    }
    forall i, s | |rs| - 3 <= i < |rs| && s in rs[i].acks
      ensures Ack(s, ProbeId(rs[i].order, config.sessionId)) in env[i].acks
    {
      CollectMeaning(config, rs[i].order, env[i].acks, s);
    }
  }

  /** The acceptance level's share of the members. */
  function Share(config: SessionConfig): real {
    config.numMembers as real * config.phi
  }

  lemma AcceptedShare(config: SessionConfig, r: AckRound)
    ensures Accepted(LimitsOf(config), r) <==> |r.acks| as real >= Share(config)
  {
    NeededIsLeast(config.phi, config.numMembers, |r.acks|);
  }

  lemma LastThree(lim: Limits, p: Params, rs: seq<AckRound>)
    requires SessionTrace(lim, p, rs) && Streak(lim, rs) == 3
    ensures |rs| >= 3
    ensures forall i :: |rs| - 3 <= i < |rs| ==> rs[i].params == Last(rs).params && Accepted(lim, rs[i])
  {
    var n := |rs|;
    var r1, r2 := rs[..n - 1], rs[..n - 1][..n - 2];
    assert Streak(lim, r1) == 2;
    assert Streak(lim, r2) == 1;
    assert Last(r1) == rs[n - 2] && Last(r2) == rs[n - 3];
    assert rs[n - 1].params == Next(lim, rs[n - 2]);
    assert rs[n - 2].params == Next(lim, rs[n - 3]);
  }

  /** A finished configuration carries acceptance level zero. A session started from it
      in a network with members accepts every round: it ends after three rounds with
      the parameters it began with, whoever acknowledged. */
  lemma SessionWithoutLevelIsVacuous(config: SessionConfig, p: Params, env: seq<RoundEvent>, rs: seq<AckRound>, r: SessionResult)
    requires config.phi == 0.0 && config.numMembers >= 1
    requires |env| >= 3 && (forall i :: 0 <= i < |env| ==> env[i].Expired?)
    requires SessionTrace(LimitsOf(config), p, rs)
    requires SessionOutcome(config, LimitsOf(config), LruMembers, env, rs, r)
    ensures |rs| == 3 && r == Finished(MulticastConfig(p.sigma, p.tau, 0.0))
  {
    var lim := LimitsOf(config);
    assert lim.need == 0;
    AllAccepted(lim, rs);
    RoundsPerFailure(lim, p, rs);
    if |rs| == 3 {
      assert rs[1].params == Next(lim, rs[0]) && rs[2].params == Next(lim, rs[1]);
    }
  }

  lemma {:induction false} AllAccepted(lim: Limits, rs: seq<AckRound>)
    requires lim.need <= 0
    ensures Streak(lim, rs) == |rs|
  {
    if rs != [] {
      AllAccepted(lim, rs[..|rs| - 1]);
    }
  }
}
