/** What acknowledgments can do that no probe caused: exactly when the acknowledger fails
    and when an acknowledgment is counted for a round of another session, told from the
    steps of a run alone (core/policystore/multicast/probe.go). */
module ProbeForgery {
  import opened Common
  import opened Probe
  import opened ProbeAcknowledger

  /** The acknowledger read the current round before any round was current. */
  predicate ReadTooEarly(steps: seq<Step>, k: nat) {
    k < |steps| && steps[k] == ReadRound && SetCurrent !in steps[..k]
  }

  lemma OnlySetCurrentSets(s: State, step: Step)
    requires Enabled(s, step)
    ensures Do(s, step).current.None? <==> s.current.None? && !step.SetCurrent?
  {
  }

  lemma {:induction false} NoRoundExactlyWhen(steps: seq<Step>)
    requires Run(steps).Some?
    ensures Run(steps).value.current.None? <==> SetCurrent !in steps
  {
    if steps != [] {
      NoRoundExactlyWhen(steps[..|steps| - 1]);
      OnlySetCurrentSets(Run(steps[..|steps| - 1]).value, Last(steps));
      assert steps == steps[..|steps| - 1] + [Last(steps)];
    }
  }

  /** In every run, honest or not, the acknowledger reads a nil round exactly if it comes
      to read one before the first round is current. */
  lemma {:induction false} CrashesExactlyWhen(steps: seq<Step>)
    requires Run(steps).Some?
    ensures Run(steps).value.acker == Crashed <==> exists k :: ReadTooEarly(steps, k)
  {
    if steps != [] {
      var front := steps[..|steps| - 1];
      var s, step := Run(front).value, Last(steps);
      CrashesExactlyWhen(front);
      NoRoundExactlyWhen(front);
      forall k: nat | k < |front|
        ensures ReadTooEarly(front, k) <==> ReadTooEarly(steps, k)
      {
        assert front[..k] == steps[..k];
      }
      if s.acker == Crashed {
        var k :| ReadTooEarly(front, k);
        assert ReadTooEarly(steps, k);
      } else {
        assert ReadTooEarly(steps, |front|) <==> step == ReadRound && s.current.None?;
        assert forall k: nat :: ReadTooEarly(steps, k) ==> k == |front|;
      }
    }
  }

  // ---- what the steps tell ----

  /** How many sessions the steps started. */
  function Sessions(steps: seq<Step>): nat {
    if steps == [] then 0
    else Sessions(steps[..|steps| - 1]) + if Last(steps).InitializeSession? then 1 else 0
  }

  /** How many rounds the last of them recorded. */
  function Recorded(steps: seq<Step>): nat {
    if steps == [] || Last(steps).InitializeSession? then 0
    else Recorded(steps[..|steps| - 1]) + if Last(steps).AppendRound? then 1 else 0
  }

  /** Order and session of the current round. */
  function CurrentId(steps: seq<Step>): Option<ProbeId> {
    if steps == [] then None
    else if Last(steps).SetCurrent? && Sessions(steps) > 0 then Some(ProbeId(Recorded(steps) % 0x1_0000_0000, Sessions(steps) - 1))
    else CurrentId(steps[..|steps| - 1])
  }

  /** All messages, in the order in which they were sent. */
  function Messages(steps: seq<Step>): seq<Ack> {
    if steps == [] then []
    else
      match Last(steps)
      case Acknowledge(a) => Messages(steps[..|steps| - 1]) + [a]
      case Forge(a) => Messages(steps[..|steps| - 1]) + [a]
      case _ => Messages(steps[..|steps| - 1])
  }

  function Receives(steps: seq<Step>): nat {
    if steps == [] then 0 else Receives(steps[..|steps| - 1]) + if Last(steps).Receive? then 1 else 0
  }

  /** Order and session of the round the acknowledger read last. */
  function Examined(steps: seq<Step>): Option<ProbeId> {
    if steps == [] then None
    else if Last(steps).ReadRound? then CurrentId(steps[..|steps| - 1])
    else Examined(steps[..|steps| - 1])
  }

  /** The session whose configuration the acknowledger read last. */
  function ConfigRead(steps: seq<Step>): Option<nat> {
    if steps == [] then None
    else if Last(steps).ReadConfig? then
      if Sessions(steps) == 0 then None else Some(Sessions(steps) - 1)
    else ConfigRead(steps[..|steps| - 1])
  }

  predicate ProberTold(s: State, steps: seq<Step>) {
    && s.sessions == Sessions(steps)
    && (match s.prober
        case Looping(order) => order == Recorded(steps) + 1
        case Appended(order) => order == Recorded(steps)
        case Current(order) => order == Recorded(steps)
        case Waiting(order) => order == Recorded(steps)
        case _ => true)
    && CurrentId(steps) == if s.current.Some? && s.current.value < |s.rounds| then Some(IdOf(s.rounds[s.current.value])) else None
  }

  function IdOf(r: Round): ProbeId {
    ProbeId(r.order, r.session)
  }

  predicate ChannelTold(s: State, steps: seq<Step>) {
    && Receives(steps) <= |Messages(steps)| && s.channel == Messages(steps)[Receives(steps)..]
    && (!s.acker.Listening? && !s.acker.Crashed? ==> Receives(steps) > 0 && s.acker.ack == Messages(steps)[Receives(steps) - 1])
  }

  predicate ReadsTold(s: State, steps: seq<Step>) {
    && (s.acker.HasRound? || s.acker.HasConfig? ==>
          s.acker.round < |s.rounds| && Examined(steps) == Some(IdOf(s.rounds[s.acker.round])))
    && (s.acker.HasConfig? ==>
          && ConfigRead(steps) == s.acker.session && s.acker.session.Some?
          && s.rounds[s.acker.round].session <= s.acker.session.value)
  }

  lemma ProberTells(s: State, front: seq<Step>, step: Step)
    requires ProberInv(s) && ProberTold(s, front) && Enabled(s, step)
    ensures ProberTold(Do(s, step), front + [step])
  {
    assert (front + [step])[..|front|] == front;
  }

  lemma ChannelTells(s: State, front: seq<Step>, step: Step)
    requires ChannelTold(s, front) && Enabled(s, step)
    ensures ChannelTold(Do(s, step), front + [step])
  {
    assert (front + [step])[..|front|] == front;
  }

  lemma ReadsTell(s: State, front: seq<Step>, step: Step)
    requires ProberInv(s) && ProberTold(s, front) && ReadsTold(s, front) && Enabled(s, step)
    ensures ReadsTold(Do(s, step), front + [step])
  {
    assert (front + [step])[..|front|] == front;
  }

  /** In every run, honest or not. */
  lemma {:induction false} StepsTell(steps: seq<Step>)
    requires Run(steps).Some?
    ensures ProberTold(Run(steps).value, steps) && ChannelTold(Run(steps).value, steps) && ReadsTold(Run(steps).value, steps)
  {
    if steps != [] {
      var front := steps[..|steps| - 1];
      StepsTell(front);
      AlwaysInRange(front);
      assert steps == front + [Last(steps)];
      ProberTells(Run(front).value, front, Last(steps));
      ChannelTells(Run(front).value, front, Last(steps));
      ReadsTell(Run(front).value, front, Last(steps));
    }
  }

  // ---- misfiled acknowledgments ----

  /** After these steps the acknowledger is about to insert an acknowledgment of the
      session whose configuration it read, into the table of a round, with the same
      order, of an earlier session. */
  predicate AboutToMisfile(steps: seq<Step>) {
    && 0 < Receives(steps) <= |Messages(steps)|
    && var probe := Messages(steps)[Receives(steps) - 1].probe;
       && ConfigRead(steps) == Some(probe.session)
       && Examined(steps).Some? && Examined(steps).value.order == probe.order
       && Examined(steps).value.session < probe.session
  }

  lemma MisfilesExactlyWhen(steps: seq<Step>)
    requires Run(steps).Some? && Enabled(Run(steps).value, Insert)
    ensures Misfiles(Run(steps).value, Insert) <==> AboutToMisfile(steps)
  {
    StepsTell(steps);
  }

  /** The tables are genuine after every step of the run. */
  predicate AlwaysGenuine(steps: seq<Step>)
    requires Run(steps).Some?
  {
    TablesGenuine(Run(steps).value) && (steps == [] || AlwaysGenuine(steps[..|steps| - 1]))
  }

  predicate NeverMisfiles(steps: seq<Step>) {
    steps == [] || (NeverMisfiles(steps[..|steps| - 1]) && (Last(steps).Insert? ==> !AboutToMisfile(steps[..|steps| - 1])))
  }

  /** In every run, honest or not, the tables stay genuine exactly if no acknowledgment is
      misfiled. */
  lemma {:induction false} GenuineExactlyWhen(steps: seq<Step>)
    requires Run(steps).Some?
    ensures AlwaysGenuine(steps) <==> NeverMisfiles(steps)
  {
    if steps != [] {
      var front := steps[..|steps| - 1];
      GenuineExactlyWhen(front);
      if AlwaysGenuine(front) {
        TablesGenuineKeptExactlyWhen(Run(front).value, Last(steps));
        if Last(steps).Insert? {
          MisfilesExactlyWhen(front);
        }
      }
    }
  }

  /** A message forged before the first round makes the acknowledger read a nil round. */
  lemma ForgedAckCrashes(a: Ack) returns (steps: seq<Step>)
    ensures steps == [SetFlag, Forge(a), Receive, ReadFlag, ReadRound]
    ensures Run(steps).Some? && Run(steps).value.acker == Crashed
  {
    var s;
    steps, s := Then([], INIT, SetFlag);
    steps, s := Then(steps, s, Forge(a));
    steps, s := Then(steps, s, Receive);
    steps, s := Then(steps, s, ReadFlag);
    steps, s := Then(steps, s, ReadRound);
  }

  /** A session in its first round, to which a message comes. */
  lemma ForgedAckArrives(a: Ack) returns (steps: seq<Step>, s: State)
    ensures Run(steps) == Some(s)
    ensures s == State(Current(1), Listening, true, 1, Some(0), [Round(1, 0, map[])], Some(0), {}, [a],
                       NewSession(SessionConfig(1.0, 0, 5), Params(1, 1)))
  {
    steps, s := Then([], INIT, SetFlag);
    steps, s := Then(steps, s, InitializeSession(1.0, 5, Params(1, 1)));
    steps, s := Then(steps, s, AppendRound);
    steps, s := Then(steps, s, SetCurrent);
    steps, s := Then(steps, s, Forge(a));
  }

  /** It is forged for the second session, and examined in the first one's first round. */
  lemma ForgedAckExamined(a: Ack) returns (steps: seq<Step>, s: State)
    ensures Run(steps) == Some(s)
    ensures s == State(Current(1), HasRound(a, 0), true, 1, Some(0), [Round(1, 0, map[])], Some(0), {}, [],
                       NewSession(SessionConfig(1.0, 0, 5), Params(1, 1)))
  {
    steps, s := ForgedAckArrives(a);
    steps, s := Then(steps, s, Receive);
    steps, s := Then(steps, s, ReadFlag);
    steps, s := Then(steps, s, ReadRound);
  }

  /** It is entered into the table of that round if the second session has begun when the
      acknowledger reads the configuration. */
  lemma ForgedAckMisfiled(sender: string) returns (steps: seq<Step>)
    ensures Run(steps).Some? && Run(steps).value.acker != Crashed && !TablesGenuine(Run(steps).value)
  {
    var a, s := Ack(sender, ProbeId(1, 1)), INIT;
    steps, s := ForgedAckExamined(a);
    steps, s := Then(steps, s, Leave);
    steps, s := Then(steps, s, ClearFlag);
    steps, s := Then(steps, s, SetFlag);
    steps, s := Then(steps, s, InitializeSession(1.0, 5, Params(1, 1)));
    steps, s := Then(steps, s, ReadConfig);
    TablesGenuineKeptExactlyWhen(s, Insert);
    steps, s := Then(steps, s, Insert);
  }
}
