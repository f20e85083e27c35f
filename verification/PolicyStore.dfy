/** The policy store: changing policies, answering policy requests, and reconciling with
    the datasets a node reports (core/policystore/http.go, policy.go). */
module PolicyStore {
  import opened Common
  import opened DatasetIndexer
  import opened LookupService
  import opened GitFiles

  // ---- changing a policy, answering a request ----

  datatype State = State(index: Index, lookup: Lookup, files: Files, submitting: multiset<Policy>)

  function InitialPolicy(id: string): Policy {
    Policy(id, false, 0)
  }

  /** A policy change with a well-formed body. */
  function AfterSet(s: State, id: string, content: bool, commitOk: bool): (State, Outcome) {
    var current := ReadPolicy(s.index, id);
    if current.None? then (s, Err(NoSuchDataset))
    else
      var p := Policy(id, content, current.value.version + 1);
      var s1 := s.(index := SetPolicy(s.index, id, p, true));
      if !DatasetIndexer.Exists(s.index, id) then (s1, Err(NoSuchDataset))
      else
        var node := Get(s.lookup, id);
        if node.None? then (s1, Err(NoNetworkNode))
        else
          var s2 := s1.(files := Written(s.files, node.value.name, p));
          var r := WriteOutcome(node.value.name, p, commitOk);
          if r != Ok then (s2, r) else (s2.(submitting := s.submitting + multiset{p}), Ok)
  }

  /** A change succeeds exactly if Dataset shows a policy, the dataset's node is known and
      both have names, and the commit succeeds. Only then it is submitted; and a dataset
      that shows no policy is refused before anything changes. */
  lemma SetSucceedsExactlyWhen(s: State, id: string, content: bool, commitOk: bool)
    ensures var (s', r) := AfterSet(s, id, content, commitOk);
            && (r == Ok <==> && ReadPolicy(s.index, id).Some? && Get(s.lookup, id).Some?
                             && id != "" && Get(s.lookup, id).value.name != "" && commitOk)
            && (ReadPolicy(s.index, id).None? ==> r == Err(NoSuchDataset) && s' == s)
            && (ReadPolicy(s.index, id).Some? && Get(s.lookup, id).None? ==> r == Err(NoNetworkNode) && s'.files == s.files)
            && s'.submitting - s.submitting == (if r == Ok then multiset{Policy(id, content, ReadPolicy(s.index, id).value.version + 1)} else multiset{})
            && s.submitting <= s'.submitting
  {
  }

  /** The dataset a request restores or creates when the store does not have it. */
  function RestoredPolicy(files: Files, node: string, id: string): Result<Policy> {
    if !HasFile(files, node, id) then Success(InitialPolicy(id))
    else match ReadContent(files, node, id)
         case Success(b) => Success(Policy(id, b, 0))
         case Failure(e) => Failure(e)
  }

  /** A policy request by a node. A dataset unknown to store and Git is first written
      to Git; a dataset unknown to the store only is restored from there. */
  function AfterRequest(s: State, sender: Node, id: string, commitOk: bool): (State, Result<Policy>) {
    if DatasetIndexer.Exists(s.index, id) then Locate(s.(index := DatasetIndexer.AfterExists(s.index, id, true)), sender, id)
    else
      match RestoredPolicy(s.files, sender.name, id)
      case Failure(e) => (s, Failure(e))
      case Success(p) =>
        var isNew := !HasFile(s.files, sender.name, id);
        var s1 := if isNew then s.(files := Written(s.files, sender.name, p)) else s;
        if isNew && WriteOutcome(sender.name, p, commitOk) != Ok
        then (s1, Failure(WriteOutcome(sender.name, p, commitOk).error))
        else Locate(s1.(index := DatasetIndexer.Insert(s.index, id, Dataset(id, Some(p), false), true)), sender, id)
  }

  /** Records the sender as the dataset's node and answers with the dataset's policy. */
  function Locate(s: State, sender: Node, id: string): (State, Result<Policy>) {
    var s1 := s.(lookup := LookupService.Insert(s.lookup, id, sender, true));
    var p := ReadPolicy(s.index, id);
    (s1, if p.Some? then Success(p.value) else Failure(NoSuchDataset))
  }

  // ---- reconciling with reported datasets ----

  const DEFAULT_ROW := Row(false, 0, false, true)

  /** The map of all datasets that the dataset manager promises. */
  function DatasetsOf(t: Table): map<string, Dataset> {
    map id | id in t :: Dataset(id, if t[id].dated then Some(Policy(id, t[id].content, t[id].version)) else None, t[id].allowMultiple)
  }

  function Reported(incoming: map<string, Dataset>): set<string> {
    set key | key in incoming :: incoming[key].identifier
  }

  /** The keys of the reported map are the datasets' identifiers. */
  predicate WellKeyed(incoming: map<string, Dataset>) {
    forall key :: key in incoming ==> incoming[key].identifier == key
  }

  /** The store's table with the reported datasets: those that exist nowhere are added. */
  function WithDefaults(s: Index, ids: set<string>): Table {
    map id | id in s.table.Keys + ids && (id in s.table || !DatasetIndexer.Exists(s, id)) :: if id in s.table then s.table[id] else DEFAULT_ROW
  }

  /** The store's table after reconciling, when `listed` was listed as its datasets: of
      those, only the reported ones are kept (the empty one cannot be removed). */
  function Reconciled(s: Index, listed: set<string>, ids: set<string>): Table {
    map id | id in WithDefaults(s, ids) && (id in ids || id !in listed || id == "") :: WithDefaults(s, ids)[id]
  }

  /** A reported dataset is returned if it is new to the store or older than the store's. */
  predicate InDelta(s: Index, id: string, incoming: Dataset) {
    !DatasetIndexer.Exists(s, id) || VersionOf(incoming.policy) < VersionOf(ReadPolicy(s, id))
  }

  function DeltaEntry(s: Index, id: string): Dataset {
    var d := ReadDataset(s, id);
    if d.Some? then d.value else Dataset(id, Some(InitialPolicy(id)), false)
  }

  function Delta(s: Index, incoming: map<string, Dataset>): map<string, Dataset> {
    map id | id in incoming && InDelta(s, id, incoming[id]) :: DeltaEntry(s, id)
  }

  /** One iteration of the first loop. */
  function AfterAdd(s: Index, key: string, incoming: Dataset): Index {
    var id := incoming.identifier;
    if DatasetIndexer.Exists(s, id) then DatasetIndexer.AfterExists(s, id, true)
    else DatasetIndexer.Insert(s, id, Dataset(key, Some(InitialPolicy(id)), false), true)
  }

  /** The first loop, started in s0 and come to s, has seen the reported identifiers ids. */
  ghost predicate Midway(s0: Index, s: Index, ids: set<string>) {
    match s
    case Index(redis, _, table) =>
      && redis == s0.redis && table == WithDefaults(s0, ids)
      && (forall id :: id !in ids ==>
            DatasetIndexer.Exists(s, id) == DatasetIndexer.Exists(s0, id) && ReadDataset(s, id) == ReadDataset(s0, id))
      && (forall id :: id in ids ==> DatasetIndexer.Exists(s, id) || id in table)
  }

  /** And of the datasets it has seen it has collected those of the answer. */
  ghost predicate Added(s0: Index, s: Index, seen: map<string, Dataset>, deltaSet: map<string, Dataset>) {
    match s
    case Index(_, _, _) => Midway(s0, s, Reported(seen)) && (WellKeyed(seen) ==> deltaSet == Delta(s0, seen))
  }

  class PolicyStoreCore {
    const dsManager: DatasetIndexerUnit
    const dsLookupService: DatasetLookupService
    var files: Files
    /** The policies of goroutines that were started to submit them to the queue. */
    var submitting: multiset<Policy>

    constructor (dsManager: DatasetIndexerUnit, dsLookupService: DatasetLookupService)
      ensures this.dsManager == dsManager && this.dsLookupService == dsLookupService
      ensures files == map[] && submitting == multiset{}
    {
      this.dsManager, this.dsLookupService := dsManager, dsLookupService;
      files, submitting := map[], multiset{};
    }

    function AsState(): State
      reads this, dsManager, dsLookupService
    {
      State(dsManager.State(), dsLookupService.State(), files, submitting)
    }

    /** `body` is the requested content, None if the request body is malformed. */
    method SetObjectPolicy(id: string, body: Option<bool>, commitOk: bool) returns (r: Outcome)
      modifies this, dsManager
      ensures body.None? ==>
                && AsState() == old(AsState())
                && r == if ReadDataset(old(dsManager.State()), id).None? then Err(NoSuchDataset) else Err(BadText)
      ensures body.Some? ==> (AsState(), r) == AfterSet(old(AsState()), id, body.value, commitOk)
    {
      var dataset := dsManager.Dataset(id);
      if dataset.None? {
        return Err(NoSuchDataset);
      }
      if body.None? {
        return Err(BadText);
      }
      var oldPolicy := dataset.value.policy;
      if oldPolicy.None? {
        return Err(NoSuchDataset);
      }
      var newPolicy := Policy(id, body.value, oldPolicy.value.version + 1);
      r := dsManager.SetDatasetPolicy(id, Some(newPolicy), true);
      if r != Ok {
        return;
      }
      var node := dsLookupService.DatasetNode(id);
      if node.None? {
        return Err(NoNetworkNode);
      }
      r := GitStorePolicy(node.value.name, newPolicy, commitOk);
      if r != Ok {
        return;
      }
      submitting := submitting + multiset{newPolicy};
    }

    method GitStorePolicy(node: string, p: Policy, commitOk: bool) returns (r: Outcome)
      modifies this`files
      ensures files == Written(old(files), node, p) && r == WriteOutcome(node, p, commitOk)
    {
      if node == "" || p.dataset == "" {
        return Err(EmptyIdentifier);
      }
      files := files[Path(node, p.dataset) := FormatBool(p.content)];
      if !commitOk {
        return Err(GitFailure);
      }
      r := Ok;
    }

    method ProcessStorageNodePolicyRequest(sender: Node, id: string, commitOk: bool) returns (r: Result<Policy>)
      modifies this, dsManager, dsLookupService
      ensures (AsState(), r) == AfterRequest(old(AsState()), sender, id, commitOk)
    {
      var known := dsManager.DatasetExists(id, true);
      if !known {
        var policy: Policy;
        if !HasFile(files, sender.name, id) {
          policy := InitialPolicy(id);
          var stored := GitStorePolicy(sender.name, policy, commitOk);
          if stored != Ok {
            return Failure(stored.error);
          }
          stored := GitStorePolicy(sender.name, policy, commitOk);
          assert files == Written(old(files), sender.name, policy);
        } else {
          var content := ReadContent(files, sender.name, id);
          if content.Failure? {
            return Failure(content.error);
          }
          policy := Policy(id, content.value, 0);
        }
        var _ := dsManager.InsertDataset(id, Some(Dataset(id, Some(policy), false)), true);
      }
      var _ := dsLookupService.InsertDatasetNode(id, Some(sender), true);
      var d := dsManager.Dataset(id);
      if d.None? || d.value.policy.None? {
        return Failure(NoSuchDataset);
      }
      r := Success(d.value.policy.value);
    }

    /** `listed` is what the dataset manager answers when it is asked for all datasets.
        Map iteration may take any order. */
    method ResolveDatasetDeltas(incoming: Option<map<string, Dataset>>, listed: map<string, Dataset>) returns (r: Result<map<string, Dataset>>)
      modifies dsManager
      ensures incoming.None? ==> r == Failure(NilArgument) && dsManager.State() == old(dsManager.State())
      ensures incoming.Some? ==>
                r.Success? && dsManager.table == Reconciled(old(dsManager.State()), Reported(listed), Reported(incoming.value))
      ensures incoming.Some? && WellKeyed(incoming.value) ==> r.value == Delta(old(dsManager.State()), incoming.value)
    {
      if incoming.None? {
        return Failure(NilArgument);
      }
      ghost var s := dsManager.State();
      var deltaSet := AddMissing(incoming.value);
      var superfluous := Superfluous(listed, incoming.value);
      RemoveAll(superfluous);
      ReconcileSteps(s, Reported(listed), Reported(incoming.value), superfluous);
      r := Success(deltaSet);
    }

    /** The first loop: insert what is missing, collect what is new or stale. */
    method AddMissing(incoming: map<string, Dataset>) returns (deltaSet: map<string, Dataset>)
      modifies dsManager
      ensures dsManager.table == WithDefaults(old(dsManager.State()), Reported(incoming))
      ensures WellKeyed(incoming) ==> deltaSet == Delta(old(dsManager.State()), incoming)
    {
      deltaSet := map[];
      var rest := incoming.Keys;
      while rest != {}
        invariant rest <= incoming.Keys
        invariant Added(old(dsManager.State()), dsManager.State(), incoming - rest, deltaSet)
        decreases rest
      {
        var key :| key in rest;
        ghost var s, seen, before := dsManager.State(), incoming - rest, deltaSet;
        rest := rest - {key};
        deltaSet := AddOne(key, incoming[key], deltaSet);
        assert incoming - rest == seen[key := incoming[key]];
        StillAdded(old(dsManager.State()), s, seen, before, key, incoming[key], deltaSet);
      }
      assert incoming - {} == incoming;
    }

    method AddOne(key: string, incoming: Dataset, deltaSet: map<string, Dataset>) returns (deltaSet': map<string, Dataset>)
      modifies dsManager
      ensures dsManager.State() == AfterAdd(old(dsManager.State()), key, incoming)
      ensures incoming.identifier == key ==>
                deltaSet' == if InDelta(old(dsManager.State()), key, incoming)
                             then deltaSet[key := DeltaEntry(old(dsManager.State()), key)] else deltaSet
    {
      deltaSet' := deltaSet;
      var known := dsManager.DatasetExists(incoming.identifier, true);
      if !known {
        var newDataset := Dataset(key, Some(InitialPolicy(incoming.identifier)), false);
        var _ := dsManager.InsertDataset(incoming.identifier, Some(newDataset), true);
        deltaSet' := deltaSet'[incoming.identifier := newDataset];
      }
      var current := dsManager.Dataset(key);
      var version := if current.Some? then VersionOf(current.value.policy) else 0;
      if VersionOf(incoming.policy) < version {
        deltaSet' := deltaSet'[key := current.value];
      }
    }

    static method Superfluous(current: map<string, Dataset>, incoming: map<string, Dataset>) returns (superfluous: seq<string>)
      ensures Elements(superfluous) == Reported(current) - Reported(incoming)
    {
      superfluous := [];
      var rest := current.Keys;
      while rest != {}
        invariant rest <= current.Keys
        invariant Elements(superfluous) == Reported(current - rest) - Reported(incoming)
        decreases rest
      {
        var key :| key in rest;
        var found := IsReported(incoming, current[key].identifier);
        ReportedGrows(current - rest, key, current[key]);
        assert current - (rest - {key}) == (current - rest)[key := current[key]];
        rest := rest - {key};
        if !found {
          ElementsSnoc(superfluous, current[key].identifier);
          superfluous := superfluous + [current[key].identifier];
        }
      }
      assert current - {} == current;
    }

    static method IsReported(incoming: map<string, Dataset>, id: string) returns (found: bool)
      ensures found <==> id in Reported(incoming)
    {
      found := false;
      var rest := incoming.Keys;
      while rest != {}
        invariant rest <= incoming.Keys && !found
        invariant forall key :: key in incoming && key !in rest ==> incoming[key].identifier != id
        decreases rest
      {
        var key :| key in rest;
        if incoming[key].identifier == id {
          found := true;
          return;
        }
        rest := rest - {key};
      }
    }

    method RemoveAll(superfluous: seq<string>)
      modifies dsManager
      ensures dsManager.table == map id | id in old(dsManager.table) && (id !in superfluous || id == "") :: old(dsManager.table)[id]
    {
      for i := 0 to |superfluous|
        invariant dsManager.table == map id | id in old(dsManager.table) && (id !in superfluous[..i] || id == "") :: old(dsManager.table)[id]
      {
        assert superfluous[..i + 1] == superfluous[..i] + [superfluous[i]];
        var _ := dsManager.RemoveDataset(superfluous[i], true);
      }
      assert superfluous[..|superfluous|] == superfluous;
    }
  }

  /** All datasets are listed as they are read one by one. */
  lemma ListedAsRead(t: Table, id: string)
    requires Readable(t, id)
    ensures id in DatasetsOf(t) && SelectDataset(t, id) == Some(DatasetsOf(t)[id])
  {
  }

  lemma AllReported(t: Table)
    ensures Reported(DatasetsOf(t)) == t.Keys
  {
    forall id | id in t
      ensures id in Reported(DatasetsOf(t))
    {
      assert DatasetsOf(t)[id].identifier == id;
    }
  }

  /** Adding the reported datasets and removing the superfluous ones. */
  lemma ReconcileSteps(s: Index, listed: set<string>, ids: set<string>, superfluous: seq<string>)
    requires Elements(superfluous) == listed - ids
    ensures (map id | id in WithDefaults(s, ids) && (id !in superfluous || id == "") :: WithDefaults(s, ids)[id])
            == Reconciled(s, listed, ids)
  {
    forall id
      ensures id in superfluous <==> id in listed && id !in ids
    {
      assert id in superfluous <==> id in Elements(superfluous);
    }
  }

  lemma StillMidway(s0: Index, s: Index, ids: set<string>, key: string, incoming: Dataset)
    requires Midway(s0, s, ids)
    ensures Midway(s0, AfterAdd(s, key, incoming), ids + {incoming.identifier})
  {
    var added, s' := incoming.identifier, AfterAdd(s, key, incoming);
    forall id | id !in ids + {added}
      ensures DatasetIndexer.Exists(s', id) == DatasetIndexer.Exists(s0, id) && ReadDataset(s', id) == ReadDataset(s0, id)
    {
      assert id !in ids && id != added;
    }
    assert s'.table == WithDefaults(s0, ids + {added});
  }

  lemma EntryUnseen(s0: Index, s: Index, ids: set<string>, key: string, incoming: Dataset)
    requires Midway(s0, s, ids) && key !in ids
    ensures InDelta(s, key, incoming) == InDelta(s0, key, incoming) && DeltaEntry(s, key) == DeltaEntry(s0, key)
  {
  }

  lemma StillAdded(s0: Index, s: Index, seen: map<string, Dataset>, deltaSet: map<string, Dataset>,
                   key: string, incoming: Dataset, deltaSet': map<string, Dataset>)
    requires Added(s0, s, seen, deltaSet) && key !in seen
    requires incoming.identifier == key ==>
               deltaSet' == if InDelta(s, key, incoming) then deltaSet[key := DeltaEntry(s, key)] else deltaSet
    ensures Added(s0, AfterAdd(s, key, incoming), seen[key := incoming], deltaSet')
  {
    var seen' := seen[key := incoming];
    StillMidway(s0, s, Reported(seen), key, incoming);
    ReportedGrows(seen, key, incoming);
    if WellKeyed(seen') {
      assert forall k :: k in seen ==> k in seen' && seen'[k] == seen[k];
      assert seen'[key].identifier == key && key !in Reported(seen);
      EntryUnseen(s0, s, Reported(seen), key, incoming);
      DeltaStep(s0, seen, key, incoming);
    }
  }

  lemma DeltaStep(s: Index, seen: map<string, Dataset>, key: string, incoming: Dataset)
    requires key !in seen
    ensures Delta(s, seen[key := incoming])
            == if InDelta(s, key, incoming) then Delta(s, seen)[key := DeltaEntry(s, key)] else Delta(s, seen)
  {
    var seen' := seen[key := incoming];
    assert forall id :: id in seen' <==> id in seen || id == key;
    assert forall id :: id in seen ==> seen'[id] == seen[id];
  }

  lemma ReportedGrows(m: map<string, Dataset>, key: string, d: Dataset)
    requires key !in m
    ensures Reported(m[key := d]) == Reported(m) + {d.identifier}
  {
    var m' := m[key := d];
    assert forall k :: k in m ==> m'[k] == m[k];
    forall id | id in Reported(m) + {d.identifier}
      ensures id in Reported(m')
    {
      if id in Reported(m) {
        var k :| k in m && m[k].identifier == id;
        assert m'[k].identifier == id;
      } else {
        assert m'[key].identifier == id;
      }
    }
  }
}
