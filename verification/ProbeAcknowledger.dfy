/** The prober and the acknowledger run concurrently and share the probing flag, the
    current round, the session configuration and the rounds' ack tables
    (core/policystore/multicast/probe.go). Every statement that takes a lock is one
    step here, and any interleaving of the two threads' steps is a run.

    A session is named by the number of sessions started before it: fresh session
    identifiers are assumed, and with them the two names are interchangeable. */
module ProbeAcknowledger {
  import opened Common
  import opened Probe

  const CHANNEL_CAPACITY := 1000

  datatype Round = Round(order: nat, session: nat, acks: map<string, ProbeId>)

  /** Where the prober is in probeNetwork. */
  datatype Prober =
    | Idle
    | Flagged                     // the probing flag is set, the session not yet configured
    | Looping(order: nat)         // about to create the round with this order
    | Appended(order: nat)        // the round is recorded but not yet current
    | Current(order: nat)         // the round is current, its probes not yet sent
    | Waiting(order: nat)         // its probes are sent
    | Leaving                     // about to clear the probing flag

  /** Where the acknowledger is with the message it is handling. */
  datatype Acknowledger =
    | Listening
    | Received(ack: Ack)
    | SawProbing(ack: Ack)
    | HasRound(ack: Ack, round: nat)
    | HasConfig(ack: Ack, round: nat, session: Option<nat>)
    | Crashed

  /** The prober's own variables of a session. `judged` are its judged rounds, with the
      tables as they were when they were judged. */
  datatype Session = Session(config: SessionConfig, start: Params, judged: seq<AckRound>, params: Params, successes: nat)

  /** The session with these parameters before its first round. */
  function NewSession(config: SessionConfig, start: Params): Session {
    Session(config, start, [], start, 0)
  }

  /** The session after its current round was judged. */
  function AfterJudging(x: Session, r: AckRound): Session {
    var lim := LimitsOf(x.config);
    x.(judged := x.judged + [r], params := Next(lim, r), successes := if Accepted(lim, r) then x.successes + 1 else 0)
  }

  datatype State = State(
    prober: Prober, acker: Acknowledger, isProbing: bool, sessions: nat, config: Option<nat>,
    rounds: seq<Round>, current: Option<nat>, sent: set<ProbeId>, channel: seq<Ack>, session: Session)

  const INIT := State(Idle, Listening, false, 0, None, [], None, {}, [], NewSession(SessionConfig(0.0, 0, 0), Params(0, 0)))

  datatype Step =
    | SetFlag | InitializeSession(phi: real, members: int, start: Params) | AppendRound | SetCurrent | SendProbes
    | Judge                       // the timer of the round expires
    | Leave                       // a stop signal or an error ends the session
    | ClearFlag
    | Acknowledge(ack: Ack)       // a node acknowledges a probe that was sent
    | Forge(ack: Ack)             // any other acknowledgment message
    | Receive | ReadFlag | ReadRound | ReadConfig | Insert

  /** Conditions on sessions, config, rounds and current hold whenever the first condition
      of their case does, in every run (AlwaysInRange). Probes cannot be sent to nobody. */
  predicate Enabled(s: State, step: Step) {
    match step
    case SetFlag => s.prober.Idle?
    case InitializeSession(_, _, _) => s.prober.Flagged?
    case AppendRound => s.prober.Looping? && s.sessions > 0
    case SetCurrent => s.prober.Appended? && s.rounds != []
    case SendProbes => s.prober.Current? && s.config.Some? && s.session.config.numMembers != 0
    case Judge => s.prober.Waiting? && s.current.Some? && s.current.value < |s.rounds|
    case Leave => s.prober.Looping? || s.prober.Current? || s.prober.Waiting?
    case ClearFlag => s.prober.Leaving?
    case Acknowledge(a) => a.probe in s.sent && |s.channel| < CHANNEL_CAPACITY
    case Forge(a) => |s.channel| < CHANNEL_CAPACITY
    case Receive => s.acker.Listening? && s.channel != []
    case ReadFlag => s.acker.Received?
    case ReadRound => s.acker.SawProbing?
    case ReadConfig => s.acker.HasRound?
    case Insert => s.acker.HasConfig? && s.acker.round < |s.rounds|
  }

  /** The current round as it is judged. */
  function JudgedRound(s: State): AckRound
    requires s.current.Some? && s.current.value < |s.rounds|
  {
    AckRound(s.session.params, s.rounds[s.current.value].order, s.rounds[s.current.value].acks)
  }

  function Do(s: State, step: Step): State
    requires Enabled(s, step)
  {
    match step
    case SetFlag => s.(prober := Flagged, isProbing := true)
    case InitializeSession(phi, members, start) =>
      s.(prober := Looping(1), config := Some(s.sessions), sessions := s.sessions + 1,
         session := NewSession(SessionConfig(phi, s.sessions, members), start))
    case AppendRound =>
      s.(prober := Appended(s.prober.order),
         rounds := s.rounds + [Round(s.prober.order % 0x1_0000_0000, s.sessions - 1, map[])])
    case SetCurrent => s.(prober := Current(s.prober.order), current := Some(|s.rounds| - 1))
    case SendProbes =>
      s.(prober := Waiting(s.prober.order),
         sent := s.sent + {ProbeId(s.prober.order % 0x1_0000_0000, s.config.value)})
    case Judge =>
      var session := AfterJudging(s.session, JudgedRound(s));
      s.(prober := if session.successes > 2 then Leaving else Looping(s.prober.order + 1), session := session)
    case Leave => s.(prober := Leaving)
    case ClearFlag => s.(prober := Idle, isProbing := false)
    case Acknowledge(a) => s.(channel := s.channel + [a])
    case Forge(a) => s.(channel := s.channel + [a])
    case Receive => s.(acker := Received(s.channel[0]), channel := s.channel[1..])
    case ReadFlag => s.(acker := if s.isProbing then SawProbing(s.acker.ack) else Listening)
    case ReadRound =>
      s.(acker := if s.current.Some? then HasRound(s.acker.ack, s.current.value) else Crashed)
    case ReadConfig => s.(acker := HasConfig(s.acker.ack, s.acker.round, s.config))
    case Insert =>
      var a, i := s.acker.ack, s.acker.round;
      var r := s.rounds[i];
      if s.acker.session == Some(a.probe.session) && a.probe.order == r.order
      then s.(acker := Listening, rounds := s.rounds[i := r.(acks := r.acks[a.sender := a.probe])])
      else s.(acker := Listening)
  }

  function Run(steps: seq<Step>): Option<State> {
    if steps == [] then Some(INIT)
    else
      var s := Run(steps[..|steps| - 1]);
      if s.Some? && Enabled(s.value, Last(steps)) then Some(Do(s.value, Last(steps))) else None
  }

  /** Messages come from nodes that were probed. */
  predicate Honest(steps: seq<Step>) {
    forall step :: step in steps ==> !step.Forge?
  }

  /** One more step of a run. */
  lemma Then(steps: seq<Step>, s: State, step: Step) returns (steps': seq<Step>, s': State)
    requires Run(steps) == Some(s) && Enabled(s, step)
    ensures steps' == steps + [step] && s' == Do(s, step) && Run(steps') == Some(s')
  {
    steps', s' := steps + [step], Do(s, step);
    assert steps'[..|steps|] == steps;
  }

  /** One more step of an honest run. */
  lemma ThenHonestly(steps: seq<Step>, s: State, step: Step) returns (steps': seq<Step>, s': State)
    requires Run(steps) == Some(s) && Honest(steps) && Enabled(s, step) && !step.Forge?
    ensures s' == Do(s, step) && Run(steps') == Some(s') && Honest(steps')
  {
    steps', s' := Then(steps, s, step);
  }

  // ---- what an insertion and a judgement do ----

  /** An acknowledgment gets into the table of the round that was read exactly if it has
      the order of that round and the session of the configuration that was read; and
      nothing else changes there. */
  lemma InsertedExactlyWhen(s: State, i: nat, sender: string)
    requires Enabled(s, Insert) && i < |s.rounds|
    ensures var s', a := Do(s, Insert), s.acker.ack;
            && |s'.rounds| == |s.rounds| && s'.rounds[i].order == s.rounds[i].order && s'.rounds[i].session == s.rounds[i].session
            && (sender in s'.rounds[i].acks <==>
                  || sender in s.rounds[i].acks
                  || (i == s.acker.round && sender == a.sender && a.probe.order == s.rounds[i].order && Some(a.probe.session) == s.acker.session))
            && s'.acker == Listening && s'.channel == s.channel
  {
  }

  /** What is judged is the current round, with the acknowledgments in its table then; the
      third one in a row that has enough of them ends the session. */
  lemma JudgedAsItIs(s: State)
    requires Enabled(s, Judge)
    ensures var x, x', r := s.session, Do(s, Judge).session, s.rounds[s.current.value];
            && x'.judged == x.judged + [AckRound(x.params, r.order, r.acks)]
            && x'.successes == (if |r.acks| >= LimitsOf(x.config).need then x.successes + 1 else 0)
            && x'.params == (if |r.acks| >= LimitsOf(x.config).need then x.params else Increase(LimitsOf(x.config), x.params))
            && (Do(s, Judge).prober == Leaving <==> x'.successes >= 3)
  {
  }

  /** A message is examined only while a session runs and dropped otherwise, without any
      other effect; the round examined is the current one and the configuration read is
      that of the last session. */
  lemma ExaminedExactlyWhen(s: State)
    requires ProberInv(s)
    ensures s.acker.Received? ==>
              Do(s, ReadFlag) == s.(acker := if s.prober.Idle? then Listening else SawProbing(s.acker.ack))
    ensures s.acker.SawProbing? ==>
              Do(s, ReadRound) == s.(acker := if s.current.None? then Crashed else HasRound(s.acker.ack, s.current.value))
    ensures s.acker.HasRound? && s.sessions > 0 ==>
              Do(s, ReadConfig) == s.(acker := HasConfig(s.acker.ack, s.acker.round, Some(s.sessions - 1)))
  {
  }

  /** Wherever the prober is in a session, it can end it: directly, or after making the
      round it has recorded the current one. */
  lemma SessionCanEnd(s: State) returns (s': State)
    requires ProberInv(s) && !s.prober.Idle? && !s.prober.Flagged?
    ensures s' == if s.prober.Appended? then Do(s, SetCurrent) else s
    ensures s'.prober.Leaving? || Enabled(s', Leave)
    ensures var s'' := if s'.prober.Leaving? then s' else Do(s', Leave);
            Enabled(s'', ClearFlag) && Do(s'', ClearFlag) == s'.(prober := Idle, isProbing := false)
  {
    s' := if s.prober.Appended? then Do(s, SetCurrent) else s;
  }

  // ---- what every step keeps ----

  /** The prober's own bookkeeping. */
  predicate ProberInv(s: State) {
    && (s.isProbing <==> !s.prober.Idle?)
    && (s.config == if s.sessions == 0 then None else Some(s.sessions - 1))
    && (!s.prober.Idle? && !s.prober.Flagged? ==> s.sessions > 0)
    && (s.sessions > 0 ==> s.session.config.sessionId == s.sessions - 1)
    && (forall i :: 0 <= i < |s.rounds| ==> s.rounds[i].session < s.sessions)
    && (s.prober.Appended? ==> s.rounds != [] && Last(s.rounds).session == s.sessions - 1
                               && Last(s.rounds).order == s.prober.order % 0x1_0000_0000)
    && (s.prober.Current? || s.prober.Waiting? ==>
          && s.current.Some? && s.current.value < |s.rounds|
          && s.rounds[s.current.value].session == s.sessions - 1
          && s.rounds[s.current.value].order == s.prober.order % 0x1_0000_0000)
    && (s.current.Some? ==> s.current.value < |s.rounds|)
  }

  /** The current round belongs to the last session that sent a probe, or a later one. */
  predicate NotAhead(s: State, probe: ProbeId) {
    s.current.Some? && s.current.value < |s.rounds| && probe.session <= s.rounds[s.current.value].session
  }

  predicate AckerInv(s: State) {
    && (forall p :: p in s.sent ==> NotAhead(s, p))
    && (forall a :: a in s.channel ==> a.probe in s.sent)
    && match s.acker
       case Listening => true
       case Received(a) => a.probe in s.sent
       case SawProbing(a) => a.probe in s.sent
       case HasRound(a, i) => i < |s.rounds| && a.probe.session <= s.rounds[i].session
       case HasConfig(a, i, c) =>
         && i < |s.rounds| && a.probe.session <= s.rounds[i].session
         && c.Some? && s.rounds[i].session <= c.value
       case Crashed => false
  }

  /** Every entry of every ack table answers that round of that session. */
  predicate TablesGenuine(s: State) {
    forall i, sender :: 0 <= i < |s.rounds| && sender in s.rounds[i].acks ==>
      s.rounds[i].acks[sender] == ProbeId(s.rounds[i].order, s.rounds[i].session)
  }

  lemma ProberInvKept(s: State, step: Step)
    requires ProberInv(s) && Enabled(s, step)
    ensures ProberInv(Do(s, step))
  {
  }

  lemma AckerInvKept(s: State, step: Step)
    requires ProberInv(s) && AckerInv(s) && Enabled(s, step) && !step.Forge?
    ensures AckerInv(Do(s, step))
  {
    var s' := Do(s, step);
    if step.SetCurrent? {
      forall p | p in s'.sent
        ensures NotAhead(s', p)
      {
        assert NotAhead(s, p);
      }
    }
  }

  /** The insertion puts an acknowledgment of the session whose configuration was read
      into the table of a round of another session. */
  predicate Misfiles(s: State, step: Step)
    requires Enabled(s, step)
  {
    step.Insert? &&
    var a, r := s.acker.ack, s.rounds[s.acker.round];
    s.acker.session == Some(a.probe.session) && a.probe.order == r.order && a.probe.session != r.session
  }

  lemma TablesGenuineKeptExactlyWhen(s: State, step: Step)
    requires TablesGenuine(s) && Enabled(s, step)
    ensures TablesGenuine(Do(s, step)) <==> !Misfiles(s, step)
  {
    var s' := Do(s, step);
    if Misfiles(s, step) {
      var a, i := s.acker.ack, s.acker.round;
      assert a.sender in s'.rounds[i].acks && s'.rounds[i].acks[a.sender] == a.probe;
    }
  }

  lemma HonestNeverMisfiles(s: State, step: Step)
    requires AckerInv(s) && Enabled(s, step)
    ensures !Misfiles(s, step)
  {
  }

  /** In every honest interleaving, whatever sessions follow each other: each ack table
      entry answers exactly its round's order and session; an acknowledgment is never
      examined before a round is current; and the flag is down whenever no session runs. */
  lemma {:induction false} RunsAreGenuine(steps: seq<Step>)
    requires Run(steps).Some? && Honest(steps)
    ensures var s := Run(steps).value;
            && TablesGenuine(s) && s.acker != Crashed
            && (s.isProbing <==> s.prober != Idle)
            && ProberInv(s) && AckerInv(s)
  {
    if steps != [] {
      var front := steps[..|steps| - 1];
      RunsAreGenuine(front);
      var s := Run(front).value;
      assert Last(steps) in steps;
      ProberInvKept(s, Last(steps));
      AckerInvKept(s, Last(steps));
      HonestNeverMisfiles(s, Last(steps));
      TablesGenuineKeptExactlyWhen(s, Last(steps));
    }
  }

  /** So the prober, counting a round's table, counts acknowledgments of probes that
      were really sent in that round. */
  lemma {:induction false} EntriesWereProbed(steps: seq<Step>, i: nat, sender: string)
    requires Run(steps).Some? && Honest(steps)
    requires i < |Run(steps).value.rounds| && sender in Run(steps).value.rounds[i].acks
    ensures Run(steps).value.rounds[i].acks[sender] in Run(steps).value.sent
  {
    RunsAreGenuine(steps);
    AllInsertedWereSent(steps);
  }

  predicate InsertedWereSent(s: State) {
    && (forall i, sender :: 0 <= i < |s.rounds| && sender in s.rounds[i].acks ==> s.rounds[i].acks[sender] in s.sent)
    && (s.acker.HasRound? || s.acker.HasConfig? ==> s.acker.ack.probe in s.sent)
  }

  lemma {:induction false} AllInsertedWereSent(steps: seq<Step>)
    requires Run(steps).Some? && Honest(steps)
    ensures InsertedWereSent(Run(steps).value)
  {
    if steps != [] {
      var front := steps[..|steps| - 1];
      AllInsertedWereSent(front);
      RunsAreGenuine(front);
      assert Last(steps) in steps;
    }
  }

  /** In every run, honest or not, rounds are read where they are. */
  lemma {:induction false} AlwaysInRange(steps: seq<Step>)
    requires Run(steps).Some?
    ensures ProberInv(Run(steps).value) && AckerInRange(Run(steps).value)
  {
    if steps != [] {
      AlwaysInRange(steps[..|steps| - 1]);
      ProberInvKept(Run(steps[..|steps| - 1]).value, Last(steps));
    }
  }

  predicate AckerInRange(s: State) {
    s.acker.HasRound? || s.acker.HasConfig? ==> s.acker.round < |s.rounds|
  }
}
