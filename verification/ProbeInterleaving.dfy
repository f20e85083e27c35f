/** The judged rounds of an interleaved session are a sequential session: what is proved
    of ProbeNetwork holds in every interleaving of the prober with the acknowledger. */
module ProbeInterleaving {
  import opened Common
  import opened Probe
  import opened ProbeProperties
  import opened ProbeAcknowledger

  // ---- the judged rounds are a trace ----

  ghost predicate Traced(x: Session) {
    match x
    case Session(config, start, judged, params, successes) =>
      && SessionTrace(LimitsOf(config), start, judged)
      && successes == Streak(LimitsOf(config), judged)
      && params == if judged == [] then start else Next(LimitsOf(config), Last(judged))
  }

  /** The order of the round that the prober is about to judge. */
  function NextOrder(p: Prober): Option<nat> {
    match p
    case Looping(order) => Some(order)
    case Appended(order) => Some(order)
    case Current(order) => Some(order)
    case Waiting(order) => Some(order)
    case _ => None
  }

  predicate InStep(s: State) {
    && (NextOrder(s.prober).Some? ==> NextOrder(s.prober).value == |s.session.judged| + 1 && s.session.successes <= 2)
    && (s.prober.Waiting? || s.session.judged != [] ==> s.session.config.numMembers != 0)
  }

  lemma JudgingKeepsTrace(x: Session, r: AckRound)
    requires Traced(x) && x.successes <= 2
    requires r.params == x.params && r.order == (|x.judged| + 1) % 0x1_0000_0000
    ensures Traced(AfterJudging(x, r))
  {
    ExtendTrace(LimitsOf(x.config), x.start, x.judged, r);
  }

  lemma TraceKept(s: State, step: Step)
    requires ProberInv(s) && Traced(s.session) && InStep(s) && Enabled(s, step)
    ensures Traced(Do(s, step).session)
  {
    if step.Judge? {
      JudgingKeepsTrace(s.session, JudgedRound(s));
    }
  }

  lemma StepKept(s: State, step: Step)
    requires InStep(s) && Enabled(s, step)
    ensures InStep(Do(s, step))
  {
  }

  // ---- the judged entries are genuine ----

  /** Every entry of r answers that round of this session, and a probe that was sent. */
  predicate GenuineRound(config: SessionConfig, r: AckRound, sent: set<ProbeId>) {
    forall sender :: sender in r.acks ==> r.acks[sender] == ProbeId(r.order, config.sessionId) && r.acks[sender] in sent
  }

  predicate JudgedGenuine(s: State) {
    forall i :: 0 <= i < |s.session.judged| ==> GenuineRound(s.session.config, s.session.judged[i], s.sent)
  }

  lemma JudgedGenuineKept(s: State, step: Step)
    requires ProberInv(s) && TablesGenuine(s) && InsertedWereSent(s) && JudgedGenuine(s) && Enabled(s, step)
    ensures JudgedGenuine(Do(s, step))
  {
    var s' := Do(s, step);
    forall i | 0 <= i < |s'.session.judged|
      ensures GenuineRound(s'.session.config, s'.session.judged[i], s'.sent)
    {
      if i < |s.session.judged| {
        assert GenuineRound(s.session.config, s.session.judged[i], s.sent);
      }
    }
  }

  /** In every honest interleaving. */
  lemma {:induction false} SessionsAreTraced(steps: seq<Step>)
    requires Run(steps).Some? && Honest(steps)
    ensures var s := Run(steps).value; Traced(s.session) && InStep(s) && JudgedGenuine(s)
  {
    if steps != [] {
      var front := steps[..|steps| - 1];
      assert forall step :: step in front ==> step in steps;
      SessionsAreTraced(front);
      RunsAreGenuine(front);
      AllInsertedWereSent(front);
      TraceKept(Run(front).value, Last(steps));
      StepKept(Run(front).value, Last(steps));
      JudgedGenuineKept(Run(front).value, Last(steps));
    }
  }

  // ---- and have a sequential session behind them ----

  /** Acknowledgments whose handling gives a table. */
  lemma {:induction false} AcksFor(config: SessionConfig, order: nat, table: map<string, ProbeId>) returns (acks: seq<Ack>)
    requires forall sender :: sender in table ==> table[sender] == ProbeId(order, config.sessionId)
    ensures Collect(config, order, acks) == table
    decreases table.Keys
  {
    if table.Keys == {} {
      acks := [];
      assert table == map[];
    } else {
      var sender :| sender in table;
      var rest := table - {sender};
      var others := AcksFor(config, order, rest);
      acks := others + [Ack(sender, table[sender])];
      assert acks[..|acks| - 1] == others;
      assert rest[sender := table[sender]] == table;
    }
  }

  /** Timer events that explain the tables of rs. */
  lemma {:induction false} EventsFor(config: SessionConfig, rs: seq<AckRound>, sent: set<ProbeId>) returns (env: seq<RoundEvent>)
    requires forall i :: 0 <= i < |rs| ==> GenuineRound(config, rs[i], sent)
    ensures |env| == |rs| && FollowsEvents(config, env, rs)
    ensures forall i :: 0 <= i < |env| ==> env[i].Expired?
  {
    if rs == [] {
      env := [];
    } else {
      var k := |rs| - 1;
      var front := EventsFor(config, rs[..k], sent);
      var acks := AcksFor(config, rs[k].order, rs[k].acks);
      env := front + [Expired(acks)];
      assert forall i :: 0 <= i < k ==> env[i] == front[i] && rs[..k][i] == rs[i];
    }
  }

  /** The last step of the run judges a third accepted round in a row. */
  predicate Finishes(steps: seq<Step>)
    requires Run(steps).Some?
  {
    steps != [] && Last(steps).Judge? && Run(steps).value.prober.Leaving?
  }

  /** Refinement: in every honest interleaving the judged rounds of the session are those
      of the sequential session with the same configuration over some timer events; each
      counted acknowledgment answers a probe that was sent in its round; and the session
      leaves the loop by itself exactly when the sequential one finishes. */
  lemma InterleavedIsSequential(steps: seq<Step>) returns (env: seq<RoundEvent>)
    requires Run(steps).Some? && Honest(steps)
    ensures var s := Run(steps).value;
            var x := s.session;
            && JudgedGenuine(s) && |env| == |x.judged| && (forall i :: 0 <= i < |env| ==> env[i].Expired?)
            && SessionTrace(LimitsOf(x.config), x.start, x.judged)
            && (x.judged != [] ==>
                  SessionOutcome(x.config, LimitsOf(x.config), LruMembers, env, x.judged, Judged(LimitsOf(x.config), x.judged, Last(env))))
            && (steps != [] && Last(steps).Judge? ==>
                  x.judged != [] && (Finishes(steps) <==> Judged(LimitsOf(x.config), x.judged, Last(env)).Finished?))
  {
    SessionsAreTraced(steps);
    var s := Run(steps).value;
    env := EventsFor(s.session.config, s.session.judged, s.sent);
    if steps != [] && Last(steps).Judge? {
      LastJudged(steps);
    }
  }

  lemma LastJudged(steps: seq<Step>)
    requires Run(steps).Some? && Honest(steps) && steps != [] && Last(steps).Judge?
    ensures var x := Run(steps).value.session;
            x.judged != [] && (Finishes(steps) <==> Streak(LimitsOf(x.config), x.judged) == 3)
  {
    var front := steps[..|steps| - 1];
    assert forall step :: step in front ==> step in steps;
    SessionsAreTraced(front);
    SessionsAreTraced(steps);
  }

  /** A session that finishes in an honest interleaving has used the parameters it ends
      with in its three last rounds, and each had enough acknowledgments when it was
      judged, from distinct senders, each of a probe that was sent in that round. */
  lemma InterleavedFinishIsConfirmed(steps: seq<Step>)
    requires Run(steps).Some? && Honest(steps) && Finishes(steps)
    ensures var s := Run(steps).value;
            var x, n := s.session, |s.session.judged|;
            && n >= 3
            && forall i :: n - 3 <= i < n ==>
                 && x.judged[i].params == Last(x.judged).params
                 && x.judged[i].order == (i + 1) % 0x1_0000_0000
                 && |x.judged[i].acks| as real >= Share(x.config)
                 && GenuineRound(x.config, x.judged[i], s.sent)
  {
    SessionsAreTraced(steps);
    var front := steps[..|steps| - 1];
    assert forall step :: step in front ==> step in steps;
    SessionsAreTraced(front);
    var x := Run(steps).value.session;
    assert x.successes == 3;
    LastThree(LimitsOf(x.config), x.start, x.judged);
    forall i | |x.judged| - 3 <= i < |x.judged|
      ensures |x.judged[i].acks| as real >= Share(x.config)
    {
      AcceptedShare(x.config, x.judged[i]);
    }
  }
}
