/** Synchronising a node's datasets with the policy store: the node reports its datasets,
    the store reconciles, and the node sets the policies of the answer
    (core/policystore/policy.go, core/node/node.go). */
module StateSync {
  import opened Common
  import opened DatasetIndexer
  import opened PolicyStore

  /** The node's table after it set the policy of every entry of the answer. */
  function AfterDelta(s: Index, delta: map<string, Dataset>): Table {
    map id | id in s.table ::
      if Exists(s, id) && id in delta && delta[id].policy.Some?
      then s.table[id].(content := delta[id].policy.value.content, version := delta[id].policy.value.version) else s.table[id]
  }

  /** The node's loop over the answer, in any order. Entries without a policy fail. */
  method SetPolicies(dsManager: DatasetIndexerUnit, delta: map<string, Dataset>)
    modifies dsManager
    ensures dsManager.table == AfterDelta(old(dsManager.State()), delta)
  {
    ghost var done: map<string, Dataset> := map[];
    var rest := delta.Keys;
    while rest != {}
      invariant rest <= delta.Keys && done == delta - rest
      invariant dsManager.table == AfterDelta(old(dsManager.State()), done)
      invariant forall id :: Exists(dsManager.State(), id) == old(Exists(dsManager.State(), id))
      decreases rest
    {
      var id :| id in rest;
      rest := rest - {id};
      ghost var s := dsManager.State();
      var _ := dsManager.SetDatasetPolicy(id, delta[id].policy, true);
      SetOne(old(dsManager.State()), s, done, id, delta[id]);
      done := done[id := delta[id]];
    }
    assert done == delta;
  }

  /** One iteration, of a loop that started in s0 and has come to s. */
  lemma SetOne(s0: Index, s: Index, done: map<string, Dataset>, id: string, d: Dataset)
    requires s.table == AfterDelta(s0, done) && id !in done
    requires forall x :: Exists(s, x) == Exists(s0, x)
    ensures var s' := if d.policy.Some? then SetPolicy(s, id, d.policy.value, true) else s;
            s'.table == AfterDelta(s0, done[id := d]) && forall x :: Exists(s', x) == Exists(s0, x)
  {
  }

  /** One round without Redis: the tables of store and node, and the answer. */
  datatype Round = Round(store: Table, node: Table, delta: map<string, Dataset>)

  function Sync(store: Table, node: Table): Round {
    var delta := Delta(Uncached(store), DatasetsOf(node));
    Round(Reconciled(Uncached(store), Reported(DatasetsOf(store)), Reported(DatasetsOf(node))), AfterDelta(Uncached(node), delta), delta)
  }

  /** The store ends with exactly the reported datasets, those it had unchanged and new
      ones at the default, exactly if every other row was listed and has a name, and
      every reported dataset without a row is not hidden by a cached copy. */
  lemma StoreHoldsExactlyReported(s: Index, listed: set<string>, ids: set<string>)
    ensures Reconciled(s, listed, ids).Keys == ids <==>
              && (forall id :: id in s.table && id !in ids ==> id in listed && id != "")
              && (forall id :: id in ids && id !in s.table ==> !Exists(s, id))
    ensures forall id :: id in ids && id in Reconciled(s, listed, ids) ==>
              Reconciled(s, listed, ids)[id] == if id in s.table then s.table[id] else DEFAULT_ROW
  {
    var t' := Reconciled(s, listed, ids);
    if t'.Keys == ids {
      forall id | id in s.table && id !in ids
        ensures id in listed && id != ""
      {
        assert id !in t'.Keys;
      }
      forall id | id in ids && id !in s.table
        ensures !Exists(s, id)
      {
        assert id in t'.Keys;
      }
    }
  }

  function KeptOrDefault(t: Table, ids: set<string>): Table {
    map id | id in t.Keys + ids && (id in ids || id == "") :: if id in t then t[id] else DEFAULT_ROW
  }

  /** So without Redis and with a complete listing only the empty identifier can be left. */
  lemma UncachedStoreHoldsReported(store: Table, node: Table)
    ensures Sync(store, node).store == KeptOrDefault(store, node.Keys)
  {
    AllReported(store);
    AllReported(node);
    CompleteListing(store, node.Keys);
  }

  lemma CompleteListing(t: Table, ids: set<string>)
    ensures Reconciled(Uncached(t), t.Keys, ids) == KeptOrDefault(t, ids)
  {
    forall id
      ensures id in WithDefaults(Uncached(t), ids) <==> id in t.Keys + ids
    {
    }
  }

  /** The answer has exactly the datasets new to the store and those whose reported
      version is older than the store's, with the policies the store now has. */
  lemma DeltaIsNewOrStale(store: Table, node: Table, id: string)
    requires id != ""
    ensures id in Sync(store, node).delta <==>
              id in node && (id !in store || VersionOf(SelectPolicy(node, id)) < VersionOf(SelectPolicy(store, id)))
    ensures id in Sync(store, node).delta ==>
              Sync(store, node).delta[id].policy == SelectPolicy(Sync(store, node).store, id)
  {
    AllReported(node);
    UncachedStoreHoldsReported(store, node);
  }

  /** A dataset the store knew ends at the newer of the two versions, at the node. */
  lemma NodeTakesMaximum(store: Table, node: Table, id: string)
    requires Readable(store, id) && Readable(node, id)
    ensures var node' := Sync(store, node).node;
            && Readable(node', id)
            && node'[id].version == Max(node[id].version, store[id].version)
            && (node[id].version < store[id].version ==> node'[id].content == store[id].content)
            && (node[id].version >= store[id].version ==> node'[id] == node[id])
  {
    DeltaIsNewOrStale(store, node, id);
    AllReported(node);
  }

  lemma SecondStore(store: Table, node: Table, node': Table)
    requires node'.Keys == node.Keys
    ensures Sync(Sync(store, node).store, node').store == Sync(store, node).store
  {
    UncachedStoreHoldsReported(store, node);
    UncachedStoreHoldsReported(KeptOrDefault(store, node.Keys), node');
    KeptTwice(store, node.Keys);
  }

  lemma KeptTwice(t: Table, ids: set<string>)
    ensures KeptOrDefault(KeptOrDefault(t, ids), ids) == KeptOrDefault(t, ids)
  {
  }

  /** The second round changes nothing at the store, and its answer has exactly the rows
      a report cannot describe: the empty identifier, and rows without dates while the
      store has a policy newer than version zero. */
  lemma SecondRoundExactly(store: Table, node: Table)
    ensures var first := Sync(store, node);
            && Sync(first.store, first.node).store == first.store
            && forall id :: id in Sync(first.store, first.node).delta <==>
                 id in node && (id == "" || (!node[id].dated && VersionOf(SelectPolicy(first.store, id)) > 0))
  {
    var first := Sync(store, node);
    AllReported(node);
    AllReported(first.node);
    assert first.node.Keys == node.Keys;
    SecondStore(store, node, first.node);
    forall id
      ensures id in Sync(first.store, first.node).delta <==>
                id in node && (id == "" || (!node[id].dated && VersionOf(SelectPolicy(first.store, id)) > 0))
    {
      if id in node {
        SecondAnswer(store, node, id);
      }
    }
  }

  /** Whether the second answer has a dataset. */
  lemma SecondAnswer(store: Table, node: Table, id: string)
    requires id in node
    ensures var first := Sync(store, node);
            && id in first.node
            && (InDelta(Uncached(first.store), id, DatasetsOf(first.node)[id])
                <==> id == "" || (!node[id].dated && VersionOf(SelectPolicy(first.store, id)) > 0))
  {
    var first := Sync(store, node);
    AllReported(node);
    UncachedStoreHoldsReported(store, node);
    if id != "" {
      DeltaIsNewOrStale(store, node, id);
    }
  }

  /** So with named, dated rows a second round is idle: empty answer, nothing changed. */
  lemma SyncIsIdempotent(store: Table, node: Table)
    requires "" !in node && forall id :: id in node ==> node[id].dated
    ensures var first := Sync(store, node);
            Sync(first.store, first.node) == Round(first.store, first.node, map[])
  {
    SecondRoundExactly(store, node);
    var first := Sync(store, node);
    EmptyDelta(first.node, Sync(first.store, first.node).delta);
  }

  lemma EmptyDelta(node: Table, delta: map<string, Dataset>)
    requires forall id :: id !in delta
    ensures delta == map[] && AfterDelta(Uncached(node), delta) == node
  {
  }
}
