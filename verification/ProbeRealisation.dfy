/** Every sequential session happens: the prober and the acknowledger have an interleaving,
    with acknowledgments of probes that were sent, whose judged rounds are its rounds. */
module ProbeRealisation {
  import opened Common
  import opened Probe
  import opened ProbeProperties
  import opened ProbeAcknowledger
  import opened ProbeInterleaving

  /** The acknowledger has nothing to do, and the session is configured. */
  predicate Calm(s: State) {
    && s.acker == Listening && s.channel == [] && s.isProbing
    && s.sessions > 0 && s.config == Some(s.sessions - 1)
    && s.session.config.sessionId == s.sessions - 1 && s.session.config.numMembers != 0
  }

  /** The round with this identity is current and its probes are sent. */
  predicate Probed(s: State, probe: ProbeId) {
    && Calm(s) && s.prober.Waiting? && s.current.Some? && s.current.value < |s.rounds|
    && probe == ProbeId(s.rounds[s.current.value].order, s.sessions - 1) && probe in s.sent
  }

  function WithAcks(s: State, table: map<string, ProbeId>): State
    requires s.current.Some? && s.current.value < |s.rounds|
  {
    var i := s.current.value;
    s.(rounds := s.rounds[i := s.rounds[i].(acks := s.rounds[i].acks + table)])
  }

  /** A sender acknowledges, and the acknowledger handles it. */
  lemma OneAck(steps: seq<Step>, s: State, a: Ack) returns (steps': seq<Step>, s': State)
    requires Run(steps) == Some(s) && Honest(steps) && Probed(s, a.probe)
    ensures Run(steps') == Some(s') && Honest(steps') && s' == WithAcks(s, map[a.sender := a.probe])
  {
    steps', s' := AckTaken(steps, s, a);
    steps', s' := AckExamined(steps', s', s, a);
    steps', s' := ThenHonestly(steps', s', Insert);
    var acks := s.rounds[s.current.value].acks;
    assert acks[a.sender := a.probe] == acks + map[a.sender := a.probe];
  }

  lemma AckExamined(steps: seq<Step>, taken: State, s: State, a: Ack) returns (steps': seq<Step>, s': State)
    requires Run(steps) == Some(taken) && Honest(steps) && Probed(s, a.probe) && taken == s.(acker := SawProbing(a))
    ensures Run(steps') == Some(s') && Honest(steps')
    ensures s' == s.(acker := HasConfig(a, s.current.value, Some(s.sessions - 1)))
  {
    steps', s' := ThenHonestly(steps, taken, ReadRound);
    steps', s' := ThenHonestly(steps', s', ReadConfig);
  }

  lemma AckTaken(steps: seq<Step>, s: State, a: Ack) returns (steps': seq<Step>, s': State)
    requires Run(steps) == Some(s) && Honest(steps) && Probed(s, a.probe)
    ensures Run(steps') == Some(s') && Honest(steps') && s' == s.(acker := SawProbing(a))
  {
    steps', s' := ThenHonestly(steps, s, Acknowledge(a));
    steps', s' := ThenHonestly(steps', s', Receive);
    assert s' == s.(acker := Received(a));
    steps', s' := ThenHonestly(steps', s', ReadFlag);
  }

  lemma {:induction false} AllAcks(steps: seq<Step>, s: State, probe: ProbeId, table: map<string, ProbeId>)
    returns (steps': seq<Step>, s': State)
    requires Run(steps) == Some(s) && Honest(steps) && Probed(s, probe)
    requires forall sender :: sender in table ==> table[sender] == probe
    ensures Run(steps') == Some(s') && Honest(steps') && s' == WithAcks(s, table)
    decreases table.Keys
  {
    if table.Keys == {} {
      steps', s' := steps, s;
      assert table == map[] && s.rounds[s.current.value].acks + table == s.rounds[s.current.value].acks;
    } else {
      var sender :| sender in table;
      var rest := table - {sender};
      steps', s' := AllAcks(steps, s, probe, rest);
      var before := s';
      steps', s' := OneAck(steps', s', Ack(sender, probe));
      assert rest + map[sender := probe] == table;
      AcksAdded(s, rest, map[sender := probe]);
    }
  }

  lemma AcksAdded(s: State, first: map<string, ProbeId>, second: map<string, ProbeId>)
    requires s.current.Some? && s.current.value < |s.rounds|
    ensures WithAcks(WithAcks(s, first), second) == WithAcks(s, first + second)
  {
    var acks := s.rounds[s.current.value].acks;
    assert acks + first + second == acks + (first + second);
  }

  /** A round of the loop that ends with the judgement of r. */
  lemma WholeRound(steps: seq<Step>, s: State, r: AckRound) returns (steps': seq<Step>, s': State)
    requires Run(steps) == Some(s) && Honest(steps) && Calm(s) && s.prober.Looping?
    requires r.order == s.prober.order % 0x1_0000_0000 && r.params == s.session.params
    requires forall sender :: sender in r.acks ==> r.acks[sender] == ProbeId(r.order, s.sessions - 1)
    ensures Run(steps') == Some(s') && Honest(steps') && Calm(s')
    ensures s'.session == AfterJudging(s.session, r) && s'.sessions == s.sessions
    ensures s'.prober == if s'.session.successes > 2 then Leaving else Looping(s.prober.order + 1)
  {
    steps', s' := ProbesSent(steps, s);
    var sent := s';
    steps', s' := AllAcks(steps', s', ProbeId(r.order, s.sessions - 1), r.acks);
    assert sent.rounds[sent.current.value].acks + r.acks == r.acks;
    assert JudgedRound(s') == r;
    steps', s' := ThenHonestly(steps', s', Judge);
  }

  lemma ProbesSent(steps: seq<Step>, s: State) returns (steps': seq<Step>, s': State)
    requires Run(steps) == Some(s) && Honest(steps) && Calm(s) && s.prober.Looping?
    ensures Run(steps') == Some(s') && Honest(steps')
    ensures Probed(s', ProbeId(s.prober.order % 0x1_0000_0000, s.sessions - 1))
    ensures s'.prober == Waiting(s.prober.order) && s'.session == s.session && s'.sessions == s.sessions
    ensures s'.rounds[s'.current.value].acks == map[] && s'.rounds[s'.current.value].order == s.prober.order % 0x1_0000_0000
  {
    steps', s' := ThenHonestly(steps, s, AppendRound);
    steps', s' := ThenHonestly(steps', s', SetCurrent);
    steps', s' := ThenHonestly(steps', s', SendProbes);
  }

  /** The rounds of a sequential session whose tables have acknowledgments of this session. */
  ghost predicate SequentialRounds(config: SessionConfig, start: Params, rs: seq<AckRound>) {
    && SessionTrace(LimitsOf(config), start, rs)
    && forall i, sender :: 0 <= i < |rs| && sender in rs[i].acks ==> rs[i].acks[sender] == ProbeId(rs[i].order, config.sessionId)
  }

  /** The other direction of the refinement: after any honest run that is idle, with
      nothing left in the channel, there is an honest interleaving whose next session has
      the given configuration and judges exactly these rounds. */
  lemma {:induction false} SequentialIsInterleaved(before: seq<Step>, idle: State, config: SessionConfig, start: Params, rs: seq<AckRound>)
    returns (steps: seq<Step>, s: State)
    requires Run(before) == Some(idle) && Honest(before)
    requires idle.prober == Idle && idle.acker == Listening && idle.channel == []
    requires config.sessionId == idle.sessions && config.numMembers != 0 && SequentialRounds(config, start, rs)
    ensures Run(steps) == Some(s) && Honest(steps) && Calm(s)
    ensures s.sessions == idle.sessions + 1 && s.session.config == config && s.session.start == start && s.session.judged == rs
    ensures s.prober == if s.session.successes > 2 then Leaving else Looping(|rs| + 1)
  {
    if rs == [] {
      steps, s := SessionStarted(before, idle, config, start);
    } else {
      var k := |rs| - 1;
      TracePrefix(LimitsOf(config), start, rs, k);
      steps, s := SequentialIsInterleaved(before, idle, config, start, rs[..k]);
      SessionsAreTraced(steps);
      NextRoundFits(s.session, rs);
      steps, s := WholeRound(steps, s, rs[k]);
      assert rs == rs[..k] + [rs[k]];
    }
  }

  lemma SessionStarted(before: seq<Step>, idle: State, config: SessionConfig, start: Params) returns (steps: seq<Step>, s: State)
    requires Run(before) == Some(idle) && Honest(before)
    requires idle.prober == Idle && idle.acker == Listening && idle.channel == []
    requires config.sessionId == idle.sessions && config.numMembers != 0
    ensures Run(steps) == Some(s) && Honest(steps) && Calm(s) && s.prober == Looping(1)
    ensures s.sessions == idle.sessions + 1 && s.session == NewSession(config, start)
  {
    steps, s := ThenHonestly(before, idle, SetFlag);
    steps, s := ThenHonestly(steps, s, InitializeSession(config.phi, config.numMembers, start));
  }

  lemma NextRoundFits(x: Session, rs: seq<AckRound>)
    requires rs != [] && SessionTrace(LimitsOf(x.config), x.start, rs)
    requires Traced(x) && x.judged == rs[..|rs| - 1]
    ensures x.successes <= 2 && Last(rs).params == x.params && Last(rs).order == |rs| % 0x1_0000_0000
  {
  }
}
