/** The storage node: folding policy batches into its dataset index under a version
    check, indexing datasets, and serving downloads (core/node). */
module Node {
  import opened Common
  import opened DatasetIndexer

  // ---- what one policy, and a batch, does to an index ----

  function Apply(s: Index, p: Policy): Index {
    var s1 := AfterExists(s, p.dataset, true);
    if !Exists(s, p.dataset) || ReadDataset(s1, p.dataset).None? then s1
    else if VersionOf(ReadPolicy(s1, p.dataset)) >= p.version then s1
    else SetPolicy(s1, p.dataset, p, true)
  }

  function ApplyOutcome(s: Index, p: Policy): Outcome {
    if !Exists(s, p.dataset) then Err(NoSuchDataset)
    else if ReadDataset(AfterExists(s, p.dataset, true), p.dataset).None? then Err(UnreadableDataset)
    else Ok
  }

  function ApplyAll(s: Index, batch: seq<Policy>): Index {
    if batch == [] then s else Apply(ApplyAll(s, batch[..|batch| - 1]), Last(batch))
  }

  // The same on the table alone, which is what an index without Redis does.

  function ApplyRow(t: Table, p: Policy): Table {
    if Readable(t, p.dataset) && t[p.dataset].version < p.version then UpdateRow(t, p.dataset, p) else t
  }

  function Fold(t: Table, batch: seq<Policy>): Table {
    if batch == [] then t else ApplyRow(Fold(t, batch[..|batch| - 1]), Last(batch))
  }

  datatype Checkout = Checkout(dataset: string, client: string)

  class NodeCore {
    const dsManager: DatasetIndexerUnit
    var checkouts: seq<Checkout>

    constructor (dsManager: DatasetIndexerUnit)
      ensures this.dsManager == dsManager && checkouts == []
    {
      this.dsManager := dsManager;
      checkouts := [];
    }

    method ApplyPolicy(p: Policy) returns (r: Outcome)
      modifies dsManager
      ensures dsManager.State() == Apply(old(dsManager.State()), p)
      ensures r == ApplyOutcome(old(dsManager.State()), p)
    {
      var found := dsManager.DatasetExists(p.dataset, true);
      if !found {
        return Err(NoSuchDataset);
      }
      var d := dsManager.Dataset(p.dataset);
      if d.None? {
        return Err(UnreadableDataset);
      }
      if VersionOf(d.value.policy) >= p.version {
        return Ok;
      }
      r := dsManager.SetDatasetPolicy(p.dataset, Some(p), true);
    }

    /** `body` is the batch of the gossip message; None when the message carries none.
        An empty repeated field arrives as a nil body. */
    method ProcessPolicyBatch(body: Option<seq<Policy>>) returns (r: Outcome)
      modifies dsManager
      ensures body.None? || body.value == [] ==> r == Err(NilArgument) && dsManager.State() == old(dsManager.State())
      ensures body.Some? && body.value != [] ==> r == Ok
      ensures body.Some? ==> dsManager.State() == ApplyAll(old(dsManager.State()), body.value)
    {
      if body.None? || body.value == [] {
        return Err(NilArgument);
      }
      var batch := body.value;
      for i := 0 to |batch|
        invariant dsManager.State() == ApplyAll(old(dsManager.State()), batch[..i])
      {
        var _ := ApplyPolicy(batch[i]);
        assert batch[..i + 1][..i] == batch[..i];
      }
      assert batch[..|batch|] == batch;
      r := Ok;
    }

    /** `reply` is the policy store's answer: None if the request failed, Some(None) if
        the answer carried no policy. `notified` says whether the directory server takes
        the notification that follows the insertion. */
    method IndexDataset(id: string, allowMultiple: bool, reply: Option<Option<Policy>>, notified: bool) returns (r: Outcome)
      modifies dsManager
      ensures reply.None? ==>
                r == Err(RequestFailed) && dsManager.State() == AfterExists(old(dsManager.State()), id, true)
      ensures reply.Some? ==>
                && r == (if notified then Ok else Err(NotificationFailed))
                && dsManager.State() == Insert(AfterExists(old(dsManager.State()), id, true), id, Dataset(id, reply.value, allowMultiple), true)
    {
      var _ := dsManager.DatasetExists(id, true);
      if reply.None? {
        return Err(RequestFailed);
      }
      r := dsManager.InsertDataset(id, Some(Dataset.Dataset(id, reply.value, allowMultiple)), true);
      if r != Ok {
        return;
      }
      if !notified {
        return Err(NotificationFailed);
      }
    }

    method RemoveDataset(id: string)
      modifies dsManager
      ensures dsManager.State() == Remove(old(dsManager.State()), id, true)
    {
      var _ := dsManager.RemoveDataset(id, true);
    }

    /** A download request. `client` is None when no client can be read from the token,
        `recorded` says whether the checkout can be stored. `served` tells that the
        handler was called, which is before the checkout is recorded. */
    method GetDataset(client: Option<string>, id: string, hasHandler: bool, recorded: bool) returns (served: bool, r: Outcome)
      modifies dsManager, this
      ensures client.Some? ==> dsManager.State() == AfterExists(old(dsManager.State()), id, true)
      ensures client.None? ==> dsManager.State() == old(dsManager.State())
      ensures var s := old(dsManager.State());
              && r == (if client.None? then Err(BadText)
                       else if !Exists(s, id) then Err(NoSuchDataset)
                       else if !ContentOf(SelectPolicy(s.table, id)) then Err(NoAccess)
                       else if !hasHandler then Err(NotImplemented)
                       else if !recorded then Err(RecordFailed)
                       else Ok)
              && (served <==> client.Some? && Exists(s, id) && ContentOf(SelectPolicy(s.table, id)) && hasHandler)
      ensures checkouts == if served && recorded then old(checkouts) + [Checkout(id, client.value)] else old(checkouts)
    {
      if client.None? {
        return false, Err(BadText);
      }
      var found := dsManager.DatasetExists(id, true);
      if !found {
        return false, Err(NoSuchDataset);
      }
      var policy := dsManager.GetDatasetPolicy(id);
      if !ContentOf(policy) {
        return false, Err(NoAccess);
      }
      if !hasHandler {
        return false, Err(NotImplemented);
      }
      served := true;
      if !recorded {
        return served, Err(RecordFailed);
      }
      checkouts := checkouts + [Checkout(id, client.value)];
      r := Ok;
    }
  }

  // ---- without Redis: the highest version wins ----

  /** Without Redis the index behaves as its table. */
  lemma {:induction false} UncachedIsFold(s: Index, batch: seq<Policy>)
    requires !s.redis
    ensures ApplyAll(s, batch) == s.(table := Fold(s.table, batch))
  {
    if batch != [] {
      UncachedIsFold(s, batch[..|batch| - 1]);
    }
  }

  /** How a readable row may change: to a newer policy of the batch, leaving no policy
      of the batch for this dataset newer than the row. */
  predicate Settled(id: string, before: Row, after: Row, batch: set<Policy>) {
    && after.dated == before.dated && after.allowMultiple == before.allowMultiple
    && before.version <= after.version
    && (forall p :: p in batch && p.dataset == id ==> p.version <= after.version)
    && (after == before || (before.version < after.version && Policy(id, after.content, after.version) in batch))
  }

  /** The fold keeps the rows it found, leaves unreadable ones alone and settles
      each readable one at the highest version of the batch. */
  lemma {:induction false} FoldSettles(t: Table, batch: seq<Policy>, id: string)
    ensures Fold(t, batch).Keys == t.Keys
    ensures id in t && !Readable(t, id) ==> Fold(t, batch)[id] == t[id]
    ensures Readable(t, id) ==> Settled(id, t[id], Fold(t, batch)[id], Elements(batch))
  {
    if batch != [] {
      var front := batch[..|batch| - 1];
      FoldSettles(t, front, id);
      assert batch == front + [Last(batch)];
    }
  }

  /** One content per (dataset, version): what a single policy store issues. */
  predicate Coherent(batch: set<Policy>) {
    forall p, q :: p in batch && q in batch && p.dataset == q.dataset && p.version == q.version ==> p.content == q.content
  }

  /** Any order and any repetition of coherent policies folds to the same table. */
  lemma FoldOrderInsensitive(t: Table, a: seq<Policy>, b: seq<Policy>)
    requires Elements(a) == Elements(b) && Coherent(Elements(a))
    ensures Fold(t, a) == Fold(t, b)
  {
    FoldSettles(t, a, "");
    FoldSettles(t, b, "");
    forall id | id in t
      ensures Fold(t, a)[id] == Fold(t, b)[id]
    {
      FoldSettles(t, a, id);
      FoldSettles(t, b, id);
    }
  }

  function FoldBatches(t: Table, batches: seq<seq<Policy>>): Table {
    if batches == [] then t else Fold(FoldBatches(t, batches[..|batches| - 1]), Last(batches))
  }

  lemma {:induction false} FoldConcat(t: Table, a: seq<Policy>, b: seq<Policy>)
    ensures Fold(t, a + b) == Fold(Fold(t, a), b)
  {
    if b == [] {
      assert a + b == a;
    } else {
      FoldConcat(t, a, b[..|b| - 1]);
      assert (a + b)[..|a + b| - 1] == a + b[..|b| - 1];
    }
  }

  lemma {:induction false} FoldBatchesFlat(t: Table, batches: seq<seq<Policy>>)
    ensures FoldBatches(t, batches) == Fold(t, Flatten(batches))
  {
    if batches != [] {
      FoldBatchesFlat(t, batches[..|batches| - 1]);
      FoldConcat(t, Flatten(batches[..|batches| - 1]), Last(batches));
    }
  }

  /** Batches may be delivered in any order and any number of times. */
  lemma BatchesOrderInsensitive(t: Table, a: seq<seq<Policy>>, b: seq<seq<Policy>>)
    requires Elements(a) == Elements(b) && Coherent(Elements(Flatten(a)))
    ensures FoldBatches(t, a) == FoldBatches(t, b)
  {
    SameBatchesSamePolicies(a, b);
    SameBatchesSamePolicies(b, a);
    FoldBatchesFlat(t, a);
    FoldBatchesFlat(t, b);
    FoldOrderInsensitive(t, Flatten(a), Flatten(b));
  }

  lemma SameBatchesSamePolicies(a: seq<seq<Policy>>, b: seq<seq<Policy>>)
    requires Elements(a) <= Elements(b)
    ensures Elements(Flatten(a)) <= Elements(Flatten(b))
  {
    forall p | p in Flatten(a)
      ensures p in Flatten(b)
    {
      FlattenMember(a, p);
      var i :| 0 <= i < |a| && p in a[i];
      assert a[i] in Elements(a);
      var j :| 0 <= j < |b| && b[j] == a[i];
      FlattenMember(b, p);
    }
  }

  /** Two policies may be swapped on every table exactly when they do not give one
      version of one dataset two contents (version 0 is never applied). */
  lemma SwapExactlyWhen(p: Policy, q: Policy)
    ensures (forall t: Table :: Fold(t, [p, q]) == Fold(t, [q, p]))
            <==> (p.dataset == "" || p.version == 0 || Coherent({p, q}))
  {
    if p.dataset != "" && p.version != 0 && !Coherent({p, q}) {
      SwapVisible(p, q);
    } else {
      forall t: Table
        ensures Fold(t, [p, q]) == Fold(t, [q, p])
      {
        SwapInvisible(t, p, q);
      }
    }
  }

  lemma SwapVisible(p: Policy, q: Policy)
    requires p.dataset != "" && p.version != 0 && !Coherent({p, q})
    ensures exists t: Table :: Fold(t, [p, q]) != Fold(t, [q, p])
  {
    var t: Table := map[p.dataset := Row(false, 0, false, true)];
    FoldPair(t, p, q);
    FoldPair(t, q, p);
    assert Fold(t, [p, q])[p.dataset].content == p.content;
    assert Fold(t, [q, p])[p.dataset].content == q.content;
  }

  lemma SwapInvisible(t: Table, p: Policy, q: Policy)
    requires p.dataset == "" || p.version == 0 || Coherent({p, q})
    ensures Fold(t, [p, q]) == Fold(t, [q, p])
  {
    if Coherent({p, q}) {
      assert Elements([p, q]) == {p, q} == Elements([q, p]);
      FoldOrderInsensitive(t, [p, q], [q, p]);
    } else {
      FoldPair(t, p, q);
      FoldPair(t, q, p);
    }
  }

  lemma FoldPair(t: Table, p: Policy, q: Policy)
    ensures Fold(t, [p, q]) == ApplyRow(ApplyRow(t, p), q)
  {
    assert [p, q][..1] == [p];
    assert [p][..0] == [];
    assert Fold(t, [p]) == ApplyRow(Fold(t, []), p);
  }

  function OnlyIndexed(t: Table, batch: seq<Policy>): seq<Policy> {
    if batch == [] then []
    else
      var front := OnlyIndexed(t, batch[..|batch| - 1]);
      if Last(batch).dataset in t then front + [Last(batch)] else front
  }

  /** Entries for datasets the node has not indexed change nothing. */
  lemma {:induction false} UnindexedEntriesIgnored(t: Table, batch: seq<Policy>)
    ensures Fold(t, OnlyIndexed(t, batch)) == Fold(t, batch)
    ensures forall p :: p in OnlyIndexed(t, batch) <==> p in batch && p.dataset in t
  {
    if batch != [] {
      var front := batch[..|batch| - 1];
      assert batch == front + [Last(batch)];
      UnindexedEntriesIgnored(t, front);
      FoldSettles(t, front, "");
      if Last(batch).dataset in t {
        assert OnlyIndexed(t, batch)[..|OnlyIndexed(t, batch)| - 1] == OnlyIndexed(t, front);
      }
    }
  }

  // ---- with Redis: the last newer entry wins ----

  /** The last entry for id whose version exceeds v. */
  function LastAbove(batch: seq<Policy>, id: string, v: nat): Option<Policy> {
    if batch == [] then None
    else if Last(batch).dataset == id && Last(batch).version > v then Some(Last(batch))
    else LastAbove(batch[..|batch| - 1], id, v)
  }

  function Updated(r: Row, p: Option<Policy>): Row {
    if p.Some? then r.(content := p.value.content, version := p.value.version) else r
  }

  lemma CachedStep(s: Index, p: Policy, id: string)
    requires s.redis && Readable(s.table, id)
    ensures var s' := Apply(s, p);
            && s'.redis && Readable(s'.table, id) && ReadPolicy(s', id) == ReadPolicy(s, id)
            && s'.table[id] == (if p.dataset == id && p.version > VersionOf(ReadPolicy(s, id))
                                then Updated(s.table[id], Some(p)) else s.table[id])
  {
    if p.dataset != id {
      var s1 := AfterExists(s, p.dataset, true);
      assert s1.table == s.table;
    }
  }

  /** With Redis the version check reads a copy that no set refreshes, so the row ends
      at the last entry newer than that copy, not at the newest. */
  lemma {:induction false} CachedLastWins(s: Index, batch: seq<Policy>, id: string)
    requires s.redis && Readable(s.table, id)
    ensures var s' := ApplyAll(s, batch);
            && s'.redis && Readable(s'.table, id) && ReadPolicy(s', id) == ReadPolicy(s, id)
            && s'.table[id] == Updated(s.table[id], LastAbove(batch, id, VersionOf(ReadPolicy(s, id))))
  {
    if batch != [] {
      var front := batch[..|batch| - 1];
      CachedLastWins(s, front, id);
      CachedStep(ApplyAll(s, front), Last(batch), id);
    }
  }

  /** Starting from a fresh copy, the cached node ends at the version the uncached one
      reaches exactly when the last newer entry of the batch is also its newest. */
  lemma CachedAgreesExactlyWhen(s: Index, batch: seq<Policy>, id: string)
    requires s.redis && Readable(s.table, id) && VersionOf(ReadPolicy(s, id)) == s.table[id].version
    ensures id in ApplyAll(s, batch).table && id in Fold(s.table, batch)
    ensures var last := LastAbove(batch, id, s.table[id].version);
            ApplyAll(s, batch).table[id].version == Fold(s.table, batch)[id].version
            <==> (last.None? || forall q :: q in batch && q.dataset == id ==> q.version <= last.value.version)
  {
    CachedLastWins(s, batch, id);
    FoldSettles(s.table, batch, id);
    LastAboveMeaning(batch, id, s.table[id].version);
  }

  lemma {:induction false} LastAboveMeaning(batch: seq<Policy>, id: string, v: nat)
    ensures var last := LastAbove(batch, id, v);
            if last.None? then forall q :: q in batch && q.dataset == id ==> q.version <= v
            else last.value in batch && last.value.dataset == id && last.value.version > v
  {
    if batch != [] {
      LastAboveMeaning(batch[..|batch| - 1], id, v);
      assert batch == batch[..|batch| - 1] + [Last(batch)];
    }
  }

  /** A node with Redis that receives version 2 and then version 1 goes back to version 1. */
  lemma CachedNodeRegresses()
    ensures var t: Table := map["d" := Row(false, 0, false, true)];
            var batch := [Policy("d", false, 2), Policy("d", true, 1)];
            && Fold(t, batch) == map["d" := Row(false, 2, false, true)]
            && ApplyAll(Index(true, map[], t), batch).table == map["d" := Row(true, 1, false, true)]
  {
    var batch := [Policy("d", false, 2), Policy("d", true, 1)];
    assert batch[..1] == [Policy("d", false, 2)];
    assert batch[..1][..0] == [];
  }
}
