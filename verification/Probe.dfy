/** The probing session: the loop that tunes sigma (direct recipients) and tau (the
    multicast interval, in nanoseconds) until three rounds in a row are acknowledged
    (core/policystore/multicast/probe.go and round.go). */
module Probe {
  import opened Common

  const HOUR := 3_600_000_000_000
  const MAX_INT := 0x7fff_ffff_ffff_ffff

  datatype Mode = LruMembers | RandomMembers | OtherMode

  datatype MulticastConfig = MulticastConfig(sigma: int, tau: int, phi: real)

  datatype SessionConfig = SessionConfig(phi: real, sessionId: nat, numMembers: int)

  datatype ProbeId = ProbeId(order: nat, session: nat)

  datatype Ack = Ack(sender: string, probe: ProbeId)

  datatype Params = Params(sigma: int, tau: int)

  datatype AckRound = AckRound(params: Params, order: nat, acks: map<string, ProbeId>)

  // ---- the arithmetic ----

  function Ceil(x: real): int {
    if x == x.Floor as real then x.Floor else x.Floor + 1
  }

  /** The number of acknowledgments a round needs. */
  function Needed(phi: real, n: int): int {
    Ceil(n as real * phi)
  }

  lemma CeilUnique(x: real, k: int)
    ensures Ceil(x) == k <==> x <= k as real < x + 1.0
  {
    assert x.Floor as real <= x < (x.Floor + 1) as real;
  }

  /** The acknowledgments a round needs are the least whole number that is at least the
      acceptance level's share of the members: k of them are enough exactly if k is. */
  lemma NeededIsLeast(phi: real, n: int, k: int)
    ensures n as real * phi <= Needed(phi, n) as real < n as real * phi + 1.0
    ensures k >= Needed(phi, n) <==> k as real >= n as real * phi
  {
    CeilUnique(n as real * phi, Needed(phi, n));
  }

  /** The upper bound of sigma. */
  function Cap(phi: real, n: int): int {
    Ceil(phi * n as real / 2.0)
  }

  function DoubleTau(tau: int): int {
    var d := ToInt64(2 * tau);
    if d >= HOUR then HOUR else d
  }

  /** What a session derives from its configuration: the acknowledgments a round needs,
      the cap of sigma, and the number of members. */
  datatype Limits = Limits(need: int, cap: int, members: int)

  function LimitsOf(config: SessionConfig): Limits {
    Limits(Needed(config.phi, config.numMembers), Cap(config.phi, config.numMembers), config.numMembers)
  }

  /** What a failed round does to the parameters. */
  function Increase(lim: Limits, p: Params): Params {
    if p.sigma < lim.cap then
      var d := ToInt64(2 * p.sigma);
      p.(sigma := if d > lim.cap then lim.cap else d)
    else if p.sigma == lim.cap then p.(tau := DoubleTau(p.tau))
    else if lim.members > 4 then Params(1, DoubleTau(p.tau))
    else p
  }

  function IsValidAcknowledgment(probe: ProbeId, config: SessionConfig, order: nat): bool {
    probe.order == order && probe.session == config.sessionId
  }

  /** The ack table after the acknowledger has handled these messages in this order. */
  function Collect(config: SessionConfig, order: nat, acks: seq<Ack>): map<string, ProbeId> {
    if acks == [] then map[]
    else
      var table := Collect(config, order, acks[..|acks| - 1]);
      var a := Last(acks);
      if IsValidAcknowledgment(a.probe, config, order) then table[a.sender := a.probe] else table
  }

  /** The table counts each sender once, and a sender is in it exactly when it
      acknowledged this round of this session. */
  lemma {:induction false} CollectMeaning(config: SessionConfig, order: nat, acks: seq<Ack>, sender: string)
    ensures sender in Collect(config, order, acks) <==> Ack(sender, ProbeId(order, config.sessionId)) in acks
    ensures sender in Collect(config, order, acks) ==>
              Collect(config, order, acks)[sender] == ProbeId(order, config.sessionId)
  {
    if acks != [] {
      CollectMeaning(config, order, acks[..|acks| - 1], sender);
      assert acks == acks[..|acks| - 1] + [Last(acks)];
    }
  }

  // ---- a session's rounds ----

  predicate Accepted(lim: Limits, r: AckRound) {
    |r.acks| >= lim.need
  }

  /** The number of accepted rounds at the end of rs. */
  function Streak(lim: Limits, rs: seq<AckRound>): nat {
    if rs == [] || !Accepted(lim, Last(rs)) then 0 else 1 + Streak(lim, rs[..|rs| - 1])
  }

  function Failures(lim: Limits, rs: seq<AckRound>): nat {
    if rs == [] then 0
    else Failures(lim, rs[..|rs| - 1]) + if Accepted(lim, Last(rs)) then 0 else 1
  }

  /** The parameters of the round after r. */
  function Next(lim: Limits, r: AckRound): Params {
    if Accepted(lim, r) then r.params else Increase(lim, r.params)
  }

  /** The rounds of one session started with parameters p: numbered from one, each
      round's parameters follow from the previous round, and no round comes after
      three accepted ones in a row. */
  ghost predicate SessionTrace(lim: Limits, p: Params, rs: seq<AckRound>) {
    match p
    case Params(sigma, tau) =>
      && (rs != [] ==> rs[0].params == Params(sigma, tau))
      && (forall i :: 0 <= i < |rs| ==> rs[i].order == (i + 1) % 0x1_0000_0000)
      && (forall i :: 0 < i < |rs| ==> rs[i].params == Next(lim, rs[i - 1]))
      && (forall i :: 0 <= i < |rs| ==> Streak(lim, rs[..i]) <= 2)
  }

  lemma ExtendStreak(lim: Limits, rs: seq<AckRound>, r: AckRound)
    ensures Streak(lim, rs + [r]) == if Accepted(lim, r) then 1 + Streak(lim, rs) else 0
  {
    assert (rs + [r])[..|rs|] == rs;
  }

  lemma ExtendShortStreaks(lim: Limits, rs: seq<AckRound>, r: AckRound)
    requires Streak(lim, rs) <= 2 && forall i :: 0 <= i < |rs| ==> Streak(lim, rs[..i]) <= 2
    ensures forall i :: 0 <= i < |rs + [r]| ==> Streak(lim, (rs + [r])[..i]) <= 2
  {
    forall i | 0 <= i < |rs + [r]|
      ensures Streak(lim, (rs + [r])[..i]) <= 2
    {
      assert (rs + [r])[..i] == rs[..i];
      assert i == |rs| ==> rs[..i] == rs;
    }
  }

  lemma ExtendTrace(lim: Limits, p: Params, rs: seq<AckRound>, r: AckRound)
    requires SessionTrace(lim, p, rs) && Streak(lim, rs) <= 2
    requires r.order == (|rs| + 1) % 0x1_0000_0000
    requires r.params == if rs == [] then p else Next(lim, Last(rs))
    ensures SessionTrace(lim, p, rs + [r])
    ensures Streak(lim, rs + [r]) == if Accepted(lim, r) then 1 + Streak(lim, rs) else 0
  {
    ExtendStreak(lim, rs, r);
    ExtendShortStreaks(lim, rs, r);
  }

  /** What ends a round's wait: the timer, after which acknowledgments were handled;
      a stop signal; or an error while the probes were being sent. */
  datatype RoundEvent = Expired(acks: seq<Ack>) | StopSignal | SendFailed

  datatype SessionResult = Finished(config: MulticastConfig) | Stopped | Failed(error: Error) | Running

  /** Each round of the session waited for its event of env. */
  ghost predicate FollowsEvents(config: SessionConfig, env: seq<RoundEvent>, rs: seq<AckRound>) {
    && |rs| <= |env|
    && (forall i :: 0 <= i < |rs| && env[i].Expired? ==> rs[i].acks == Collect(config, rs[i].order, env[i].acks))
    && (forall i :: 0 <= i < |rs| - 1 ==> env[i].Expired?)
  }

  /** What the judgement of a round, ended by event, makes of the session: rs are its
      rounds so far. */
  ghost function Judged(lim: Limits, rs: seq<AckRound>, event: RoundEvent): SessionResult
    requires rs != []
  {
    match event
    case SendFailed => Failed(RequestFailed)
    case StopSignal => Stopped
    case Expired(_) =>
      if Streak(lim, rs) == 3
      then Finished(MulticastConfig(Last(rs).params.sigma, Last(rs).params.tau, 0.0))
      else Running
  }

  /** How a session over env ended: its rounds rs and its result r. */
  ghost predicate SessionOutcome(config: SessionConfig, lim: Limits, mode: Mode, env: seq<RoundEvent>, rs: seq<AckRound>, r: SessionResult) {
    match mode
    case LruMembers =>
      if env == [] then rs == [] && r == Running
      else if config.numMembers == 0 then |rs| == 1 && r == Failed(NoNetworkNode)
      else
        && rs != [] && FollowsEvents(config, env, rs)
        && r == Judged(lim, rs, env[|rs| - 1])
        && (r.Running? ==> |rs| == |env|)
    case _ => rs == [] && r == if env == [] then Running else Failed(UnknownMode)
  }

  /** A session that is still running over the first |rs| events: its rounds rs, the
      parameters of the next round and the count of successes. */
  ghost predicate Going(config: SessionConfig, lim: Limits, p: Params, mode: Mode, env: seq<RoundEvent>, rs: seq<AckRound>, next: Params, successes: nat) {
    match next
    case Params(sigma, tau) =>
      && |rs| <= |env|
      && SessionTrace(lim, p, rs)
      && successes == Streak(lim, rs) <= 2
      && Params(sigma, tau) == (if rs == [] then p else Next(lim, Last(rs)))
      && SessionOutcome(config, lim, mode, env[..|rs|], rs, Running)
  }

  class ProbeManager {
    var isProbing: bool
    var config: SessionConfig
    var rounds: seq<AckRound>
    var currentRound: Option<AckRound>

    constructor ()
      ensures !isProbing && rounds == [] && currentRound == None
    {
      isProbing := false;
      config := SessionConfig(0.0, 0, 0);
      rounds := [];
      currentRound := None;
    }

    method IncreaseProbeParameters(tau: int, sigma: int) returns (tau': int, sigma': int)
      ensures Params(sigma', tau') == Increase(LimitsOf(config), Params(sigma, tau))
    {
      tau', sigma' := tau, sigma;
      var cap := Cap(config.phi, config.numMembers);
      if sigma' < cap {
        sigma' := ToInt64(sigma' * 2);
        if sigma' > cap {
          sigma' := cap;
        }
      } else if sigma' == cap {
        tau' := ToInt64(tau' * 2);
        if tau' >= HOUR {
          tau' := HOUR;
        }
      } else if config.numMembers > 4 {
        sigma' := 1;
        tau' := ToInt64(tau' * 2);
        if tau' >= HOUR {
          tau' := HOUR;
        }
      }
    }

    /** One round: it is recorded and made current, its probes go out, and `event` ends
        the wait. Acknowledgments enter the round's table while the prober waits. */
    method RunRound(params: Params, order: nat, event: RoundEvent) returns (round: AckRound)
      modifies this
      ensures isProbing == old(isProbing) && config == old(config)
      ensures rounds == old(rounds) + [round] && currentRound == Some(round)
      ensures round.params == params && round.order == order % 0x1_0000_0000
      ensures config.numMembers != 0 && event.Expired? ==> round.acks == Collect(config, round.order, event.acks)
    {
      round := AckRound(params, order % 0x1_0000_0000, map[]);
      if config.numMembers != 0 && event.Expired? {
        round := round.(acks := Collect(config, round.order, event.acks));
      }
      rounds := rounds + [round];
      currentRound := Some(round);
    }

    /** The body of the session loop. `lim` is LimitsOf(config). */
    method OneRound(ghost lim: Limits, ghost p: Params, mode: Mode, env: seq<RoundEvent>, ghost rs: seq<AckRound>,
                    order: nat, tau: int, sigma: int, successes: nat)
      returns (r: SessionResult, tau': int, sigma': int, successes': nat, ghost rs': seq<AckRound>)
      requires order == |rs| + 1 <= |env| && lim == LimitsOf(config)
      requires Going(config, lim, p, mode, env, rs, Params(sigma, tau), successes)
      modifies this
      ensures isProbing == old(isProbing) && config == old(config)
      ensures (rs' == rs && rounds == old(rounds) && currentRound == old(currentRound))
              || (rs' != [] && rs' == rs + [Last(rs')] && rounds == old(rounds) + [Last(rs')] && currentRound == Some(Last(rs')))
      ensures r.Running? ==> |rs'| == order && Going(config, lim, p, mode, env, rs', Params(sigma', tau'), successes')
      ensures !r.Running? ==> SessionTrace(lim, p, rs') && SessionOutcome(config, lim, mode, env, rs', r)
    {
      tau', sigma', successes', rs' := tau, sigma, successes, rs;
      if mode != LruMembers {
        return Failed(UnknownMode), tau', sigma', successes', rs';
      }
      var event := env[order - 1];
      var round := RunRound(Params(sigma, tau), order, event);
      ExtendTrace(lim, p, rs, round);
      ExtendEvents(config, lim, mode, env, rs, round);
      rs' := rs + [round];
      if config.numMembers == 0 {
        return Failed(NoNetworkNode), tau', sigma', successes', rs';
      }
      r, tau', sigma', successes' := JudgeRound(lim, round, event, tau, sigma, successes);
      assert r == Judged(lim, rs', event);
    }

    /** Runs a session over the given round events; the result is Running when they
        end before the session does. `sessionId` is the random session identifier and
        `members` the length of the membership list. */
    method ProbeNetwork(mc: MulticastConfig, mode: Mode, members: nat, sessionId: nat, env: seq<RoundEvent>)
      returns (r: SessionResult, ghost rs: seq<AckRound>)
      modifies this
      ensures config == SessionConfig(mc.phi, sessionId, members - 1)
      ensures isProbing <==> r.Running?
      ensures rounds == old(rounds) + rs
      ensures rs != [] ==> currentRound == Some(Last(rs))
      ensures SessionTrace(LimitsOf(config), Params(mc.sigma, mc.tau), rs)
      ensures SessionOutcome(config, LimitsOf(config), mode, env, rs, r)
    {
      isProbing := true;
      config := SessionConfig(mc.phi, sessionId, members - 1);
      ghost var lim := LimitsOf(config);
      var order := 1;
      var successes := 0;
      var sigma, tau := mc.sigma, mc.tau;
      rs := [];
      r := Running;
      while order <= |env|
        invariant 1 <= order <= |env| + 1 && |rs| == order - 1 && r == Running
        invariant isProbing && config == SessionConfig(mc.phi, sessionId, members - 1)
        invariant rounds == old(rounds) + rs && (rs != [] ==> currentRound == Some(Last(rs)))
        invariant Going(config, lim, Params(mc.sigma, mc.tau), mode, env, rs, Params(sigma, tau), successes)
        decreases |env| - order
      {
        ghost var rs0 := rs;
        ghost var before := old(rounds);
        r, tau, sigma, successes, rs :=
          OneRound(lim, Params(mc.sigma, mc.tau), mode, env, rs, order, tau, sigma, successes);
        assert rs != rs0 ==> before + (rs0 + [Last(rs)]) == (before + rs0) + [Last(rs)];
        if !r.Running? {
          break;
        }
        order := order + 1;
      }
      assert env[..|env|] == env;
      isProbing := r.Running?;
    }

    /** The wait of a round is over: stop, or count the round and adjust the parameters. */
    method JudgeRound(ghost lim: Limits, round: AckRound, event: RoundEvent, tau: int, sigma: int, successes: nat)
      returns (r: SessionResult, tau': int, sigma': int, successes': nat)
      requires Params(sigma, tau) == round.params && lim == LimitsOf(config)
      ensures event == SendFailed ==> r == Failed(RequestFailed)
      ensures event == StopSignal ==> r == Stopped
      ensures event.Expired? ==>
                && Params(sigma', tau') == Next(lim, round)
                && successes' == (if Accepted(lim, round) then successes + 1 else 0)
                && r == if successes' > 2 then Finished(MulticastConfig(round.params.sigma, round.params.tau, 0.0)) else Running
    {
      tau', sigma', successes' := tau, sigma, successes;
      match event {
        case SendFailed =>
          return Failed(RequestFailed), tau', sigma', successes';
        case StopSignal =>
          return Stopped, tau', sigma', successes';
        case Expired(_) =>
          var inTime := AcknowledgmentsArrivedInTime(round);
          if inTime {
            successes' := successes + 1;
          } else {
            tau', sigma' := IncreaseProbeParameters(tau, sigma);
            successes' := 0;
          }
      }
      if successes' > 2 {
        return Finished(MulticastConfig(round.params.sigma, round.params.tau, 0.0)), tau', sigma', successes';
      }
      r := Running;
    }

    method AcknowledgmentsArrivedInTime(round: AckRound) returns (r: bool)
      ensures r <==> Accepted(LimitsOf(config), round)
      ensures r <==> |round.acks| as real >= config.numMembers as real * config.phi
    {
      r := |round.acks| >= Needed(config.phi, config.numMembers);
      NeededIsLeast(config.phi, config.numMembers, |round.acks|);
    }
  }

  /** A session still running over the events so far goes on with the next round. */
  lemma ExtendEvents(config: SessionConfig, lim: Limits, mode: Mode, env: seq<RoundEvent>, rs: seq<AckRound>, r: AckRound)
    requires |rs| < |env| && mode == LruMembers
    requires SessionOutcome(config, lim, mode, env[..|rs|], rs, Running)
    requires config.numMembers != 0 && env[|rs|].Expired? ==> r.acks == Collect(config, r.order, env[|rs|].acks)
    ensures config.numMembers == 0 ==> SessionOutcome(config, lim, mode, env, rs + [r], Failed(NoNetworkNode))
    ensures config.numMembers != 0 ==>
              var j := Judged(lim, rs + [r], env[|rs|]);
              SessionOutcome(config, lim, mode, if j.Running? then env[..|rs| + 1] else env, rs + [r], j)
  {
    if config.numMembers != 0 {
      var rs', seen := rs + [r], env[..|rs| + 1];
      forall i | 0 <= i < |rs'|
        ensures i < |rs| ==> env[i].Expired?
        ensures env[i].Expired? ==> rs'[i].acks == Collect(config, rs'[i].order, env[i].acks)
      {
        if i < |rs| {
          assert env[..|rs|][i] == env[i] && rs'[i] == rs[i];
        }
      }
      assert FollowsEvents(config, env, rs');
      assert FollowsEvents(config, seen, rs');
    }
  }
}
