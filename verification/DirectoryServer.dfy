/** The directory server: reconciling a node's dataset identifiers with the lookup
    service, and the set of revoked datasets (core/directoryserver). */
module DirectoryServer {
  import opened Common
  import opened LookupService

  /** The table after a node reported ids: its identifiers lead to it, and of the others
      those that were `known` are gone (the empty one cannot be removed). */
  function Reconciled(t: Nodes, known: set<string>, ids: set<string>, node: Node): Nodes {
    map id | id in t.Keys + ids && (id in ids || id !in known || id == "") :: if id in ids then node else t[id]
  }

  function WithInserted(t: Nodes, ids: set<string>, node: Node): Nodes {
    map id | id in t.Keys + ids :: if id in ids then node else t[id]
  }

  function WithRemoved(t: Nodes, ids: set<string>): Nodes {
    map id | id in t && (id !in ids || id == "") :: t[id]
  }

  class DirectoryServerCore {
    const lookup: DatasetLookupService
    var invalidated: set<string>

    constructor (lookup: DatasetLookupService)
      ensures this.lookup == lookup && invalidated == {}
    {
      this.lookup := lookup;
      invalidated := {};
    }

    /** `scan` is what a scan of the cache returns, `written` says which insertions reach
        the cache, and `undeleted` are the identifiers whose removal does not: the table
        does not depend on the latter two. */
    method ResolveDatasetIdentifiersDeltas(newIdentifiers: Option<seq<string>>, node: Option<Node>,
                                           scan: seq<string>, written: seq<bool>, undeleted: set<string>)
      returns (r: Outcome)
      requires lookup.redis ==> Elements(scan) == lookup.cache.Keys
      requires newIdentifiers.Some? ==> |written| == |newIdentifiers.value|
      modifies lookup
      ensures newIdentifiers.None? || node.None? ==> r == Err(NilArgument) && lookup.State() == old(lookup.State())
      ensures newIdentifiers.Some? && node.Some? ==>
                && r == Ok
                && lookup.table == Reconciled(old(lookup.table), Identifiers(old(lookup.State())), Elements(newIdentifiers.value), node.value)
      ensures old(Coherent(lookup.State())) && false !in written && undeleted == {} ==> Coherent(lookup.State())
    {
      if newIdentifiers.None? || node.None? {
        return Err(NilArgument);
      }
      var ids := newIdentifiers.value;
      var current := lookup.DatasetIdentifiers(scan);
      InsertAll(ids, node.value, written);
      var superfluous := Superfluous(current, ids);
      RemoveAll(superfluous, undeleted);
      r := Ok;
    }

    method InsertAll(ids: seq<string>, node: Node, written: seq<bool>)
      requires |written| == |ids|
      modifies lookup
      ensures lookup.table == WithInserted(old(lookup.table), Elements(ids), node)
      ensures old(Coherent(lookup.State())) && false !in written ==> Coherent(lookup.State())
    {
      for i := 0 to |ids|
        invariant lookup.table == WithInserted(old(lookup.table), Elements(ids[..i]), node)
        invariant old(Coherent(lookup.State())) && false !in written ==> Coherent(lookup.State())
      {
        ElementsUpTo(ids, i);
        KeepsCoherentIfOk(lookup.State(), ids[i], node);
        var _ := lookup.InsertDatasetNode(ids[i], Some(node), written[i]);
      }
      assert ids[..|ids|] == ids;
    }

    method RemoveAll(superfluous: seq<string>, undeleted: set<string>)
      modifies lookup
      ensures lookup.table == WithRemoved(old(lookup.table), Elements(superfluous))
      ensures old(Coherent(lookup.State())) && undeleted == {} ==> Coherent(lookup.State())
    {
      for i := 0 to |superfluous|
        invariant lookup.table == WithRemoved(old(lookup.table), Elements(superfluous[..i]))
        invariant old(Coherent(lookup.State())) && undeleted == {} ==> Coherent(lookup.State())
      {
        ElementsUpTo(superfluous, i);
        KeepsCoherentIfOk(lookup.State(), superfluous[i], Node("", "", true));
        var _ := lookup.RemoveDatasetNode(superfluous[i], superfluous[i] !in undeleted);
      }
      assert superfluous[..|superfluous|] == superfluous;
    }

    /** The nested loops: the current identifiers that are not among the new ones. */
    static method Superfluous(current: seq<string>, ids: seq<string>) returns (superfluous: seq<string>)
      ensures Elements(superfluous) == Elements(current) - Elements(ids)
    {
      superfluous := [];
      for i := 0 to |current|
        invariant Elements(superfluous) == Elements(current[..i]) - Elements(ids)
      {
        var found := false;
        for j := 0 to |ids|
          invariant found <==> current[i] in ids[..j]
        {
          if current[i] == ids[j] {
            found := true;
            assert current[i] in ids;
            break;
          }
        }
        assert ids[..|ids|] == ids;
        assert found <==> current[i] in ids;
        ElementsUpTo(current, i);
        if !found {
          ElementsSnoc(superfluous, current[i]);
          superfluous := superfluous + [current[i]];
        }
      }
      assert current[..|current|] == current;
    }

    /** `allowed` is the policy content that the revocation message carries. */
    method UpdateRevocationState(dataset: string, allowed: bool)
      modifies this`invalidated
      ensures invalidated == if allowed then old(invalidated) - {dataset} else old(invalidated) + {dataset}
    {
      if dataset in invalidated {
        if allowed {
          invalidated := invalidated - {dataset};
        }
      } else {
        if !allowed {
          invalidated := invalidated + {dataset};
        }
      }
    }
  }

  lemma KeepsCoherentIfOk(s: Lookup, id: string, node: Node)
    ensures Coherent(s) ==> Coherent(Insert(s, id, node, true)) && Coherent(Remove(s, id, true))
  {
  }

  /** Every listed identifier leads to the sender, and nothing else is left exactly when
      every other row was listed by the lookup service and has a name. */
  lemma ListedExactlyWhen(t: Nodes, known: set<string>, ids: set<string>, node: Node)
    ensures var t' := Reconciled(t, known, ids, node);
            && (forall id :: id in ids ==> id in t' && t'[id] == node)
            && (t'.Keys == ids <==> forall id :: id in t && id !in ids ==> id in known && id != "")
  {
    var t' := Reconciled(t, known, ids, node);
    if t'.Keys == ids {
      forall id | id in t && id !in ids
        ensures id in known && id != ""
      {
        assert id !in t'.Keys;
      }
    }
  }

  /** With a complete listing, reconciling leaves exactly the listed identifiers, all
      mapped to the sender, and doing it again changes nothing. */
  lemma ReconcileComplete(t: Nodes, ids: set<string>, node: Node)
    requires "" in t ==> "" in ids
    ensures Reconciled(t, t.Keys, ids, node) == map id | id in ids :: node
    ensures Reconciled(Reconciled(t, t.Keys, ids, node), ids, ids, node) == Reconciled(t, t.Keys, ids, node)
  {
  }

  /** A lookup service whose cache misses a row keeps that row, whoever reports. */
  lemma MissedRowSurvives(s: Lookup, ids: set<string>, node: Node, id: string)
    requires s.redis && id in s.table && id !in s.cache && id !in ids
    ensures var t' := Reconciled(s.table, Identifiers(s), ids, node); id in t' && t'[id] == s.table[id]
  {
  }
}
