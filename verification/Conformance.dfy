/** The steps of the distribution protocol are what the components' operations do on
    uncached tables. */
module Conformance {
  import opened Common
  import opened DatasetIndexer
  import Issuing
  import Holdings
  import GitFiles
  import LookupService
  import Node
  import PolicyStore

  /** The protocol's store is the component's: same table, and the datasets whose node
      it can look up. */
  predicate SameStore(st: PolicyStore.State, store: Issuing.Store) {
    && !st.index.redis && !st.lookup.redis
    && st.index.table == store.table
    && store.located == st.lookup.table.Keys - {""}
  }

  /** Git takes a policy of this dataset. */
  predicate GitTakes(st: PolicyStore.State, id: string, commitOk: bool) {
    id in st.lookup.table && st.lookup.table[id].booted && st.lookup.table[id].name != "" && commitOk
  }

  /** A policy change at the component is the protocol's step, and it starts a submitting
      goroutine exactly when the protocol's step submits. */
  lemma SetConforms(st: PolicyStore.State, store: Issuing.Store, id: string, content: bool, commitOk: bool)
    requires SameStore(st, store) && Issuing.TableInv(store) && Issuing.CanSet(store, id)
    ensures var (st', r) := PolicyStore.AfterSet(st, id, content, commitOk);
            var gitOk := GitTakes(st, id, commitOk);
            var store' := Issuing.AfterSet(store, id, content, gitOk);
            && SameStore(st', store')
            && (r == Ok <==> Issuing.Submits(store, id, gitOk))
            && st'.submitting == (if r == Ok then st.submitting + multiset{Issuing.NextPolicy(store, id, content)} else st.submitting)
  {
  }

  /** For a dataset that the table does not have, Git has nothing either, or what a first
      request left there whose commit failed. */
  predicate NothingLost(st: PolicyStore.State, node: string, id: string) {
    id !in st.index.table && GitFiles.HasFile(st.files, node, id) ==> GitFiles.ReadContent(st.files, node, id) == Success(false)
  }

  /** A policy request that can be answered is the protocol's step at the component, and
      answered with the same policy, when Git has nothing that the table has lost. It
      fails exactly without names or when a first commit fails, and then it changes the
      working copy only: no protocol step is needed, and a retry is answered. */
  lemma RequestConforms(st: PolicyStore.State, store: Issuing.Store, sender: LookupService.Node, id: string, commitOk: bool)
    requires SameStore(st, store) && Issuing.TableInv(store) && NothingLost(st, sender.name, id)
    ensures var (st', r) := PolicyStore.AfterRequest(st, sender, id, commitOk);
            && (r.Success? <==> id in st.index.table || (id != "" && sender.name != ""
                                                         && (commitOk || GitFiles.HasFile(st.files, sender.name, id))))
            && (r.Success? ==> SameStore(st', Issuing.AfterRequest(store, id)) && r.value == Issuing.Answer(store, id))
            && (r.Failure? ==> st' == st.(files := GitFiles.Written(st.files, sender.name, PolicyStore.InitialPolicy(id)))
                               && SameStore(st', store))
            && NothingLost(st', sender.name, id)
  {
  }

  /** A batch, a response and a removal at a node are the protocol's steps. */
  lemma NodeConforms(n: Holdings.NodeState, body: seq<Policy>, p: Policy, id: string)
    ensures var index := Index(false, map[], n.table);
            && Node.ApplyAll(index, body).table == Holdings.AfterBatch(n, body).table
            && Insert(index, p.dataset, Dataset(p.dataset, Some(p), false), true).table == Holdings.AfterIndex(n, p).table
            && Insert(index, id, Dataset(id, None, false), true).table == Holdings.AfterAddUndated(n, id).table
            && Remove(index, id, true).table == Holdings.AfterRemove(n, id).table
            && (Holdings.GateOpen(n, id) <==> ContentOf(SelectPolicy(index.table, id)))
  {
    Node.UncachedIsFold(Index(false, map[], n.table), body);
  }
}
