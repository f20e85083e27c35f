/** Concurrent revocation updates at the directory server. A handler checks whether the
    dataset is flagged and then adds or removes the flag under a lock taken only for
    that; any number of handlers overlap (core/directoryserver/directoryservercore.go). */
module Revocation {
  import opened Common

  /** A handled message, by its handler: the dataset and the policy content it carries. */
  datatype Update = Update(handler: nat, dataset: string, allowed: bool)

  /** `deciding` are the handlers between check and act; `log` lists the updates in the
      order in which they take effect; `started` are all handlers seen so far. */
  datatype State = State(invalidated: set<string>, deciding: set<Update>, log: seq<Update>, started: set<nat>)

  const INIT := State({}, {}, [], {})

  datatype Step = Check(u: Update) | Act(u: Update)

  predicate Enabled(s: State, step: Step) {
    match step
    case Check(u) => u.handler !in s.started
    case Act(u) => u in s.deciding
  }

  /** What the check decides: the flag must change. */
  predicate MustAct(invalidated: set<string>, u: Update) {
    if u.dataset in invalidated then u.allowed else !u.allowed
  }

  /** The effect of one update alone, as UpdateRevocationState has it. */
  function Register(invalidated: set<string>, u: Update): set<string> {
    if u.allowed then invalidated - {u.dataset} else invalidated + {u.dataset}
  }

  /** A handler that decided to act removes the flag if its message allows the dataset,
      else it adds it, whatever the flag has become meanwhile. A handler that need not
      act is done with its check. */
  function Do(s: State, step: Step): State
    requires Enabled(s, step)
  {
    match step
    case Check(u) =>
      var s1 := s.(started := s.started + {u.handler});
      if MustAct(s.invalidated, u) then s1.(deciding := s.deciding + {u}) else s1.(log := s.log + [u])
    case Act(u) =>
      s.(invalidated := if u.allowed then s.invalidated - {u.dataset} else s.invalidated + {u.dataset},
         deciding := s.deciding - {u}, log := s.log + [u])
  }

  function Run(steps: seq<Step>): Option<State> {
    if steps == [] then Some(INIT)
    else
      var s := Run(steps[..|steps| - 1]);
      if s.Some? && Enabled(s.value, Last(steps)) then Some(Do(s.value, Last(steps))) else None
  }

  /** The updates applied one after the other. */
  function Replay(log: seq<Update>): set<string> {
    if log == [] then {} else Register(Replay(log[..|log| - 1]), Last(log))
  }

  /** The last update for a dataset. */
  function LastFor(log: seq<Update>, dataset: string): Option<Update> {
    if log == [] then None
    else if Last(log).dataset == dataset then Some(Last(log))
    else LastFor(log[..|log| - 1], dataset)
  }

  lemma {:induction false} ReplayIsLastWriter(log: seq<Update>, dataset: string)
    ensures dataset in Replay(log) <==> LastFor(log, dataset).Some? && !LastFor(log, dataset).value.allowed
  {
    if log != [] {
      ReplayIsLastWriter(log[..|log| - 1], dataset);
    }
  }

  /** Handlers in the log, each once, have started and are done. */
  ghost predicate LogInv(s: State) {
    && s.invalidated == Replay(s.log)
    && (forall u :: u in s.log || u in s.deciding ==> u.handler in s.started)
    && (forall i, u :: 0 <= i < |s.log| && u in s.deciding ==> s.log[i].handler != u.handler)
    && (forall u, v :: u in s.deciding && v in s.deciding && u.handler == v.handler ==> u == v)
    && (forall i, j :: 0 <= i < j < |s.log| ==> s.log[i].handler != s.log[j].handler)
  }

  lemma ReplaySnoc(log: seq<Update>, u: Update)
    ensures Replay(log + [u]) == Register(Replay(log), u)
  {
    assert (log + [u])[..|log|] == log;
  }

  lemma StepKeepsLog(s: State, step: Step)
    requires LogInv(s) && Enabled(s, step)
    ensures LogInv(Do(s, step))
  {
    ReplaySnoc(s.log, step.u);
    var s' := Do(s, step);
    forall i, j | 0 <= i < j < |s'.log|
      ensures s'.log[i].handler != s'.log[j].handler
    {
      if j == |s.log| {
        assert s.log[i] in s.log;
      }
    }
    forall i, u | 0 <= i < |s'.log| && u in s'.deciding
      ensures s'.log[i].handler != u.handler
    {
      if i < |s.log| {
        assert s.log[i] in s.log;
      }
    }
  }

  lemma {:induction false} RunsKeepLog(steps: seq<Step>)
    requires Run(steps).Some?
    ensures LogInv(Run(steps).value)
  {
    if steps != [] {
      RunsKeepLog(steps[..|steps| - 1]);
      StepKeepsLog(Run(steps[..|steps| - 1]).value, Last(steps));
    }
  }

  /** Every interleaving linearises to one register per dataset: the flags are those of
      the logged updates applied in order, so a dataset is flagged exactly when the
      last update for it carried false; and each handler is logged at most once. */
  lemma Linearises(steps: seq<Step>, dataset: string)
    requires Run(steps).Some?
    ensures var s := Run(steps).value;
            && s.invalidated == Replay(s.log)
            && (dataset in s.invalidated <==> LastFor(s.log, dataset).Some? && !LastFor(s.log, dataset).value.allowed)
            && forall i, j :: 0 <= i < j < |s.log| ==> s.log[i].handler != s.log[j].handler
  {
    RunsKeepLog(steps);
    ReplayIsLastWriter(Run(steps).value.log, dataset);
  }

  /** A started handler is either between check and act, or logged: none gets lost. */
  lemma {:induction false} EveryHandlerTakesEffect(steps: seq<Step>, h: nat)
    requires Run(steps).Some?
    ensures var s := Run(steps).value;
            h in s.started <==> (exists u :: u in s.deciding && u.handler == h) || (exists u :: u in s.log && u.handler == h)
  {
    if steps != [] {
      var s, step := Run(steps[..|steps| - 1]).value, Last(steps);
      EveryHandlerTakesEffect(steps[..|steps| - 1], h);
      RunsKeepLog(steps[..|steps| - 1]);
      var s' := Do(s, step);
      assert step.u in s'.deciding || step.u in s'.log;
      assert forall u :: u in s.log ==> u in s'.log;
      assert forall u :: u in s.deciding ==> u in s'.deciding || u in s'.log;
      assert forall u :: u in s'.log ==> u in s.log || u == step.u;
    }
  }

  lemma {:induction false} LogGrows(steps: seq<Step>, more: seq<Step>)
    requires Run(steps).Some? && Run(steps + more).Some?
    ensures Run(steps).value.log <= Run(steps + more).value.log
  {
    if more == [] {
      assert steps + more == steps;
    } else {
      assert (steps + more)[..|steps + more| - 1] == steps + more[..|more| - 1];
      LogGrows(steps, more[..|more| - 1]);
    }
  }

  /** The order respects real time: an update that was done before another handler
      started comes first. */
  lemma RespectsRealTime(steps: seq<Step>, more: seq<Step>, i: nat, j: nat)
    requires Run(steps).Some? && Run(steps + more).Some?
    requires var log := Run(steps + more).value.log;
             && i < |log| && j < |log|
             && log[i] in Run(steps).value.log
             && log[j].handler !in Run(steps).value.started
    ensures i < j
  {
    var log, before := Run(steps + more).value.log, Run(steps).value.log;
    LogGrows(steps, more);
    RunsKeepLog(steps);
    RunsKeepLog(steps + more);
    var k :| 0 <= k < |before| && before[k] == log[i];
    assert log[k] == log[i] && k == i;
    assert forall x :: 0 <= x < |before| ==> before[x] == log[x] && log[x].handler in Run(steps).value.started;
  }

  /** A handler acts later exactly if it finds the flag other than its message has it; its
      act then sets the flag as the message has it, whatever it is by that time. */
  lemma ActsExactlyWhen(s: State, u: Update)
    ensures Enabled(s, Check(u)) <==> u.handler !in s.started
    ensures Enabled(s, Check(u)) && u !in s.deciding ==>
              && (u in Do(s, Check(u)).deciding <==> (u.dataset in s.invalidated <==> u.allowed))
              && Do(s, Check(u)).invalidated == s.invalidated
    ensures u in s.deciding ==>
              && Enabled(s, Act(u)) && (u.dataset in Do(s, Act(u)).invalidated <==> !u.allowed)
              && forall d :: d != u.dataset ==> (d in Do(s, Act(u)).invalidated <==> d in s.invalidated)
  {
  }

  /** A handler can always run undisturbed, and then has the effect of its update alone. */
  lemma UndisturbedHandler(steps: seq<Step>, u: Update) returns (steps': seq<Step>)
    requires Run(steps).Some? && u.handler !in Run(steps).value.started
    ensures steps <= steps' && Run(steps').Some?
    ensures var s, s' := Run(steps).value, Run(steps').value;
            && s'.invalidated == (if u.allowed then s.invalidated - {u.dataset} else s.invalidated + {u.dataset})
            && s'.log == s.log + [u] && s'.deciding == s.deciding
  {
    var s := Run(steps).value;
    RunsKeepLog(steps);
    steps' := steps + [Check(u)];
    assert steps'[..|steps|] == steps;
    if MustAct(s.invalidated, u) {
      var s1 := Do(s, Check(u));
      assert Run(steps') == Some(s1);
      steps' := steps' + [Act(u)];
      assert steps'[..|steps| + 1] == steps + [Check(u)];
      assert u !in s.deciding;
    }
  }
}
