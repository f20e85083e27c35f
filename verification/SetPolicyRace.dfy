/** Concurrent policy changes at the store. A request handler reads the dataset's version
    and writes the version plus one in two steps, without a lock, so handlers may
    overlap (core/policystore/http.go). */
module SetPolicyRace {
  import opened Common
  import opened DatasetIndexer
  import Node

  /** A handler that has read a version and not written yet. */
  datatype Handler = Handler(dataset: string, read: nat, content: bool)

  /** The stored version of each dataset, the running handlers, and the policies issued
      for each dataset in the order of the writes. */
  datatype State = State(version: map<string, nat>, running: map<nat, Handler>, issued: map<string, seq<Policy>>)

  function Init(datasets: set<string>): State {
    State(map d | d in datasets :: 0, map[], map d | d in datasets :: [])
  }

  datatype Step = Read(handler: nat, dataset: string, content: bool) | Write(handler: nat)

  ghost predicate WellFormed(s: State) {
    && s.version.Keys == s.issued.Keys
    && (forall h :: h in s.running ==> s.running[h].dataset in s.version)
    && (forall d, i :: d in s.issued && 0 <= i < |s.issued[d]| ==> s.issued[d][i].dataset == d && s.issued[d][i].version > 0)
  }

  predicate Enabled(s: State, step: Step) {
    match step
    case Read(h, d, _) => h !in s.running && d in s.version
    case Write(h) => h in s.running && s.running[h].dataset in s.version && s.running[h].dataset in s.issued
  }

  function Do(s: State, step: Step): State
    requires Enabled(s, step)
  {
    match step
    case Read(h, d, content) => s.(running := s.running[h := Handler(d, s.version[d], content)])
    case Write(h) =>
      var d, v := s.running[h].dataset, s.running[h].read + 1;
      State(s.version[d := v], s.running - {h}, s.issued[d := s.issued[d] + [Policy(d, s.running[h].content, v)]])
  }

  function Run(datasets: set<string>, steps: seq<Step>): Option<State> {
    if steps == [] then Some(Init(datasets))
    else
      var s := Run(datasets, steps[..|steps| - 1]);
      if s.Some? && Enabled(s.value, Last(steps)) then Some(Do(s.value, Last(steps))) else None
  }

  /** The write still finds the version its handler read. */
  predicate Fresh(s: State, step: Step)
    requires Enabled(s, step)
  {
    step.Write? ==> s.version[s.running[step.handler].dataset] == s.running[step.handler].read
  }

  /** No write of the run overlaps another write to the same dataset. */
  predicate AllFresh(datasets: set<string>, steps: seq<Step>)
    requires Run(datasets, steps).Some?
  {
    steps == [] || (AllFresh(datasets, steps[..|steps| - 1]) && Fresh(Run(datasets, steps[..|steps| - 1]).value, Last(steps)))
  }

  predicate VersionsDistinct(ps: seq<Policy>) {
    forall i, j :: 0 <= i < j < |ps| ==> ps[i].version != ps[j].version
  }

  /** With no overlap the versions of a dataset are issued as 1, 2, 3 and so on. */
  ghost predicate Counted(s: State) {
    && WellFormed(s)
    && (forall d :: d in s.version ==>
          |s.issued[d]| == s.version[d] && forall i :: 0 <= i < |s.issued[d]| ==> s.issued[d][i].version == i + 1)
    && (forall h :: h in s.running ==> s.running[h].read <= s.version[s.running[h].dataset])
  }

  lemma {:induction false} FreshRunsCount(datasets: set<string>, steps: seq<Step>)
    requires Run(datasets, steps).Some? && AllFresh(datasets, steps)
    ensures Counted(Run(datasets, steps).value)
  {
    if steps != [] {
      FreshRunsCount(datasets, steps[..|steps| - 1]);
    }
  }

  /** The first overlapping write repeats a version. It does not raise the store's, and
      takes it back if more than one other write came after its read. */
  lemma StaleWriteRepeats(s: State, h: nat)
    requires Counted(s) && Enabled(s, Write(h)) && !Fresh(s, Write(h))
    ensures var d := s.running[h].dataset;
            && Do(s, Write(h)).version[d] <= s.version[d] && !VersionsDistinct(Do(s, Write(h)).issued[d])
            && (Do(s, Write(h)).version[d] < s.version[d] <==> s.running[h].read + 1 < s.version[d])
  {
    var d, r := s.running[h].dataset, s.running[h].read;
    var ps := Do(s, Write(h)).issued[d];
    assert ps[r].version == r + 1 && ps[|ps| - 1].version == r + 1;
  }

  lemma {:induction false} RunIsWellFormed(datasets: set<string>, steps: seq<Step>)
    requires Run(datasets, steps).Some?
    ensures WellFormed(Run(datasets, steps).value) && Run(datasets, steps).value.issued.Keys == datasets
  {
    if steps != [] {
      RunIsWellFormed(datasets, steps[..|steps| - 1]);
    }
  }

  /** In every run: each dataset is issued every version at most once if and only if
      no two handlers of one dataset overlapped in a write. */
  lemma {:induction false} VersionsDistinctExactlyWhen(datasets: set<string>, steps: seq<Step>)
    requires Run(datasets, steps).Some?
    ensures (forall d :: d in Run(datasets, steps).value.issued ==> VersionsDistinct(Run(datasets, steps).value.issued[d]))
            <==> AllFresh(datasets, steps)
  {
    if AllFresh(datasets, steps) {
      FreshRunsCount(datasets, steps);
    } else {
      var d := SomeRepeat(datasets, steps);
    }
  }

  lemma {:induction false} SomeRepeat(datasets: set<string>, steps: seq<Step>) returns (d: string)
    requires Run(datasets, steps).Some? && !AllFresh(datasets, steps)
    ensures d in Run(datasets, steps).value.issued && !VersionsDistinct(Run(datasets, steps).value.issued[d])
  {
    var front := steps[..|steps| - 1];
    var s := Run(datasets, front).value;
    if AllFresh(datasets, front) {
      FreshRunsCount(datasets, front);
      d := s.running[Last(steps).handler].dataset;
      StaleWriteRepeats(s, Last(steps).handler);
    } else {
      d := SomeRepeat(datasets, front);
      var i, j :| 0 <= i < j < |s.issued[d]| && s.issued[d][i].version == s.issued[d][j].version;
      var ps := Run(datasets, steps).value.issued[d];
      assert s.issued[d] <= ps;
      assert ps[i].version == ps[j].version;
    }
  }

  // ---- what nodes make of it ----

  /** Everything that was issued. */
  function AllIssued(s: State): set<Policy> {
    set d, p | d in s.issued && p in s.issued[d] :: p
  }

  ghost predicate OrderMatters(p: Policy, q: Policy) {
    exists t: Table :: Node.Fold(t, [p, q]) != Node.Fold(t, [q, p])
  }

  lemma PairOrderMatters(p: Policy, q: Policy)
    requires p.dataset != "" && p.version > 0
    ensures OrderMatters(p, q) <==> !Node.Coherent({p, q})
  {
    if Node.Coherent({p, q}) {
      forall t: Table
        ensures Node.Fold(t, [p, q]) == Node.Fold(t, [q, p])
      {
        Node.SwapInvisible(t, p, q);
      }
    } else {
      Node.SwapVisible(p, q);
    }
  }

  /** In every run: what some node holds depends on the order in which it receives two of
      the issued policies if and only if one version was issued with two contents. */
  lemma OrderMattersExactlyWhen(datasets: set<string>, steps: seq<Step>)
    requires Run(datasets, steps).Some? && "" !in datasets
    ensures var issued := AllIssued(Run(datasets, steps).value);
            (exists p, q :: p in issued && q in issued && OrderMatters(p, q)) <==> !Node.Coherent(issued)
  {
    RunIsWellFormed(datasets, steps);
    var issued := AllIssued(Run(datasets, steps).value);
    forall p, q | p in issued && q in issued
      ensures OrderMatters(p, q) <==> !Node.Coherent({p, q})
    {
      PairOrderMatters(p, q);
    }
    if !Node.Coherent(issued) {
      var p, q :| p in issued && q in issued && p.dataset == q.dataset && p.version == q.version && p.content != q.content;
      assert !Node.Coherent({p, q});
      assert OrderMatters(p, q);
    }
  }

  /** Without overlap that never happens. */
  lemma FreshRunsAreCoherent(datasets: set<string>, steps: seq<Step>)
    requires Run(datasets, steps).Some? && AllFresh(datasets, steps)
    ensures Node.Coherent(AllIssued(Run(datasets, steps).value))
  {
    FreshRunsCount(datasets, steps);
    var s := Run(datasets, steps).value;
    forall p, q | p in AllIssued(s) && q in AllIssued(s) && p.dataset == q.dataset && p.version == q.version
      ensures p == q
    {
      var i :| 0 <= i < |s.issued[p.dataset]| && s.issued[p.dataset][i] == p;
      var j :| 0 <= j < |s.issued[p.dataset]| && s.issued[p.dataset][j] == q;
      assert i + 1 == p.version == j + 1;
    }
  }

  // ---- runs with overlap ----

  lemma Then(datasets: set<string>, steps: seq<Step>, s: State, step: Step) returns (steps': seq<Step>, s': State)
    requires Run(datasets, steps) == Some(s) && Enabled(s, step)
    ensures steps' == steps + [step] && s' == Do(s, step) && Run(datasets, steps') == Some(s')
    ensures AllFresh(datasets, steps') <==> AllFresh(datasets, steps) && Fresh(s, step)
  {
    steps', s' := steps + [step], Do(s, step);
    assert steps'[..|steps|] == steps;
  }

  /** A handler can always run undisturbed, and then issues the next version. */
  lemma UndisturbedChange(datasets: set<string>, steps: seq<Step>, h: nat, d: string, content: bool) returns (steps': seq<Step>)
    requires Run(datasets, steps).Some? && d in datasets && h !in Run(datasets, steps).value.running
    ensures steps' == steps + [Read(h, d, content), Write(h)] && Run(datasets, steps').Some?
    ensures var s, s' := Run(datasets, steps).value, Run(datasets, steps').value;
            && d in s.version && d in s.issued && d in s'.issued
            && s'.version == s.version[d := s.version[d] + 1]
            && s'.issued[d] == s.issued[d] + [Policy(d, content, s.version[d] + 1)]
            && s'.running == s.running
  {
    RunIsWellFormed(datasets, steps);
    var s := Run(datasets, steps).value;
    var s1;
    steps', s1 := Then(datasets, steps, s, Read(h, d, content));
    steps', s1 := Then(datasets, steps', s1, Write(h));
    assert s.running[h := Handler(d, s.version[d], content)] - {h} == s.running;
  }

  /** Two changes that overlap: version one is issued with two contents, and a node's
      policy depends on which of them it receives first. */
  lemma OverlapIssuesTwoContents() returns (steps: seq<Step>)
    ensures steps == [Read(0, "d", true), Read(1, "d", false), Write(0), Write(1)]
    ensures Run({"d"}, steps).Some? && !AllFresh({"d"}, steps)
    ensures var issued := Run({"d"}, steps).value.issued;
            "d" in issued && issued["d"] == [Policy("d", true, 1), Policy("d", false, 1)]
    ensures OrderMatters(Policy("d", true, 1), Policy("d", false, 1))
  {
    var s;
    steps, s := Then({"d"}, [], Init({"d"}), Read(0, "d", true));
    steps, s := Then({"d"}, steps, s, Read(1, "d", false));
    steps, s := Then({"d"}, steps, s, Write(0));
    steps, s := Then({"d"}, steps, s, Write(1));
    PairOrderMatters(Policy("d", true, 1), Policy("d", false, 1));
  }

  /** A third change in between: the store goes back from version two to version one. */
  lemma OverlapTakesStoreBack() returns (steps: seq<Step>)
    ensures steps == [Read(0, "d", true), Read(1, "d", false), Write(0), Read(0, "d", true), Write(0), Write(1)]
    ensures Run({"d"}, steps[..5]).Some? && Run({"d"}, steps[..5]).value.version == map["d" := 2]
    ensures Run({"d"}, steps).Some? && Run({"d"}, steps).value.version == map["d" := 1]
  {
    var s;
    steps, s := Then({"d"}, [], Init({"d"}), Read(0, "d", true));
    steps, s := Then({"d"}, steps, s, Read(1, "d", false));
    steps, s := Then({"d"}, steps, s, Write(0));
    steps, s := Then({"d"}, steps, s, Read(0, "d", true));
    steps, s := Then({"d"}, steps, s, Write(0));
    var before := steps;
    steps, s := Then({"d"}, steps, s, Write(1));
    assert steps[..5] == before;
  }
}
