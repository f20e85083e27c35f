/** What each step of the distribution protocol is for: when it can happen, what it makes
    true, and what it leaves as it was. */
module Effects {
  import opened Common
  import opened DatasetIndexer
  import opened Multicast
  import opened Issuing
  import opened BatchQueue
  import opened Holdings
  import opened Distribution

  /** A policy change is possible for every dataset of the store, and makes the next
      version current. */
  lemma ChangeTakesEffect(packing: Packing, s: System, id: string, content: bool, gitOk: bool)
    requires Inv(packing, s)
    ensures Enabled(s, SetObjectPolicy(id, content, gitOk)) <==> Current(s, id).Some?
    ensures Current(s, id).Some? ==>
              var s' := Do(packing, s, SetObjectPolicy(id, content, gitOk));
              && Current(s', id) == Some(Policy(id, content, Current(s, id).value.version + 1))
              && (forall other :: other != id ==> Current(s', other) == Current(s, other))
              && s'.nodes == s.nodes && s'.responses == s.responses
  {
    ChangeAtStore(s.store, id, content, gitOk);
  }

  lemma ChangeAtStore(x: Store, id: string, content: bool, gitOk: bool)
    requires TableInv(x)
    ensures CanSet(x, id) <==> SelectPolicy(x.table, id).Some?
    ensures CanSet(x, id) ==>
              var x' := AfterSet(x, id, content, gitOk);
              && NextPolicy(x, id, content) == Policy(id, content, SelectPolicy(x.table, id).value.version + 1)
              && SelectPolicy(x'.table, id) == Some(NextPolicy(x, id, content))
              && (forall other :: other != id ==> SelectPolicy(x'.table, other) == SelectPolicy(x.table, other))
  {
    if id in x.table {
      TableIsNewest(x, id);
    }
  }

  /** The new policy waits for the queue, or it is skipped if the dataset's node is not
      known or Git fails; nothing else happens to the batcher. */
  lemma ChangeIsSubmitted(packing: Packing, s: System, id: string, content: bool, gitOk: bool)
    requires Inv(packing, s) && Current(s, id).Some?
    ensures Enabled(s, SetObjectPolicy(id, content, gitOk))
    ensures var s', p := Do(packing, s, SetObjectPolicy(id, content, gitOk)), Policy(id, content, Current(s, id).value.version + 1);
            if id in s.store.located && gitOk
            then s'.batcher == s.batcher.(pending := s.batcher.pending + multiset{p}) && s'.store.skipped == s.store.skipped
            else s'.batcher == s.batcher && s'.store.skipped == s.store.skipped + {p}
  {
    ChangeAtStore(s.store, id, content, gitOk);
  }

  /** A response can reach its node at any time. The node then has its policy, unless it
      has the dataset already. */
  lemma ResponseTakesEffect(packing: Packing, s: System, n: string, p: Policy)
    requires Inv(packing, s) && n in s.nodes && Response(n, p) in s.responses
    ensures Enabled(s, Step.Index(n, p))
    ensures var s', node := Do(packing, s, Step.Index(n, p)), s.nodes[n];
            && s'.store == s.store && s'.batcher == s.batcher && s'.responses == s.responses
            && OthersSame(s, s', n)
            && if p.dataset in node.table then s'.nodes[n] == node else NewlyIndexed(node, s'.nodes[n], p)
  {
    assert p.dataset != "";
    IndexedAtNode(s.nodes[n], p);
  }

  /** The node has this policy of a dataset that it did not have, and nothing received. */
  predicate NewlyIndexed(node: NodeState, node': NodeState, p: Policy) {
    && SelectPolicy(node'.table, p.dataset) == Some(p) && node'.table - {p.dataset} == node.table
    && node'.tracks == node.tracks[p.dataset := Track(p, {})]
    && node'.passed == node.passed && node'.checkouts == node.checkouts
  }

  lemma IndexedAtNode(node: NodeState, p: Policy)
    requires p.dataset != ""
    ensures if p.dataset in node.table then AfterIndex(node, p) == node else NewlyIndexed(node, AfterIndex(node, p), p)
  {
  }

  /** All nodes but one are as they were. */
  predicate OthersSame(s: System, s': System, n: string) {
    s'.nodes.Keys == s.nodes.Keys && n in s.nodes
    && (forall m :: m in s.nodes && m != n ==> s'.nodes[m] == s.nodes[m])
  }

  /** Any message can reach any node at any time. The node then has received its policies
      of every dataset that it has from a response, and nothing else. */
  lemma MessageTakesEffect(packing: Packing, s: System, n: string, k: nat)
    requires Inv(packing, s) && n in s.nodes && k < |s.batcher.sent|
    ensures Enabled(s, Deliver(n, k))
    ensures var s', node := Do(packing, s, Deliver(n, k)), s.nodes[n];
            && s'.store == s.store && s'.batcher == s.batcher && s'.responses == s.responses && OthersSame(s, s', n)
            && s'.nodes[n].tracks.Keys == node.tracks.Keys
            && (forall id, p :: id in node.tracks ==>
                  (p in s'.nodes[n].tracks[id].received <==>
                     p in node.tracks[id].received || (p in s.batcher.sent[k].body && p.dataset == id)))
            && (forall id :: id in node.tracks ==> s'.nodes[n].tracks[id].base == node.tracks[id].base)
            && s'.nodes[n].passed == node.passed && s'.nodes[n].checkouts == node.checkouts
  {
  }

  /** A node can remove a dataset at any time, and forgets it and nothing else. */
  lemma RemovalTakesEffect(packing: Packing, s: System, n: string, id: string)
    requires Inv(packing, s) && n in s.nodes && id != ""
    ensures Enabled(s, RemoveDataset(n, id))
    ensures var s', node := Do(packing, s, RemoveDataset(n, id)), s.nodes[n];
            && s'.store == s.store && s'.batcher == s.batcher && s'.responses == s.responses && OthersSame(s, s', n)
            && id !in s'.nodes[n].table && id !in s'.nodes[n].tracks
            && s'.nodes[n].table == node.table - {id} && s'.nodes[n].tracks == node.tracks - {id}
            && s'.nodes[n].passed == node.passed && s'.nodes[n].checkouts == node.checkouts
  {
  }

  /** A response without a policy makes a row that cannot be read, where there is none. */
  lemma UndatedTakesEffect(packing: Packing, s: System, n: string, id: string)
    requires Inv(packing, s) && n in s.nodes
    ensures Enabled(s, AddUndated(n, id))
    ensures var s', node := Do(packing, s, AddUndated(n, id)), s.nodes[n];
            && s'.store == s.store && s'.batcher == s.batcher && s'.responses == s.responses && OthersSame(s, s', n)
            && id in s'.nodes[n].table && s'.nodes[n].tracks == node.tracks
            && (id in node.table ==> s'.nodes[n] == node)
            && (id !in node.table ==> !Readable(s'.nodes[n].table, id) && s'.nodes[n].table - {id} == node.table)
  {
  }

  /** A download passes the gate exactly if the node's readable policy allows it; then it
      can be recorded, once, whatever happens to the policy. */
  lemma DownloadTakesEffect(packing: Packing, s: System, n: string, id: string, client: string)
    requires n in s.nodes
    ensures Enabled(s, PassGate(n, id, client)) <==>
              SelectPolicy(s.nodes[n].table, id).Some? && SelectPolicy(s.nodes[n].table, id).value.content
    ensures Enabled(s, PassGate(n, id, client)) ==>
              var s', d := Do(packing, s, PassGate(n, id, client)), Download(client, SelectPolicy(s.nodes[n].table, id).value);
              && s'.store == s.store && s'.batcher == s.batcher && s'.responses == s.responses && OthersSame(s, s', n)
              && s'.nodes[n].table == s.nodes[n].table && s'.nodes[n].checkouts == s.nodes[n].checkouts
              && Enabled(s', RecordCheckout(n, d))
              && var s'' := Do(packing, s', RecordCheckout(n, d));
                 && s''.store == s.store && s''.batcher == s.batcher && OthersSame(s, s'', n)
                 && s''.nodes[n] == s.nodes[n].(checkouts := s.nodes[n].checkouts + [d])
  {
  }

  /** And what may be recorded is exactly what passed a gate and was not. */
  lemma RecordTakesEffect(packing: Packing, s: System, n: string, d: Download)
    requires n in s.nodes
    ensures Enabled(s, RecordCheckout(n, d)) <==> d in s.nodes[n].passed
    ensures d in s.nodes[n].passed ==>
              var node, node' := s.nodes[n], Do(packing, s, RecordCheckout(n, d)).nodes[n];
              && node'.checkouts == node.checkouts + [d] && node'.passed == node.passed - multiset{d}
              && node'.table == node.table && node'.tracks == node.tracks
  {
  }

  /** Submitters and batcher can do what they can do alone, but new policies come from
      changes only. */
  lemma QueueTakesEffect(packing: Packing, s: System, q: QueueStep)
    ensures Enabled(s, OfQueue(q)) <==> CanQueue(s.batcher, q) && !q.Submit?
    ensures Enabled(s, OfQueue(q)) ==>
              Do(packing, s, OfQueue(q)) == s.(batcher := Queue(packing, s.batcher, q))
  {
  }
}
