/** A node's side of distribution: what it holds for its datasets, given what it has
    received, and the downloads it lets through (core/node). */
module Holdings {
  import opened Common
  import opened DatasetIndexer
  import opened Issuing
  import opened Node

  /** What a node has received for a dataset since it inserted it: the policy of the
      indexing response and the policies of the batches handled since. */
  datatype Track = Track(base: Policy, received: set<Policy>)

  /** A download that passed the policy gate with this policy. */
  datatype Download = Download(client: string, policy: Policy)

  /** `passed` are the requests that passed the gate and are not recorded; one client may
      have several. A request whose record fails stays there. */
  datatype NodeState = NodeState(
    table: Table, tracks: map<string, Track>, passed: multiset<Download>, checkouts: seq<Download>)

  const NEW_NODE := NodeState(map[], map[], multiset{}, [])

  function Receive(tracks: map<string, Track>, body: seq<Policy>): map<string, Track> {
    map id | id in tracks :: tracks[id].(received := tracks[id].received + set p | p in body && p.dataset == id)
  }

  function AfterBatch(n: NodeState, body: seq<Policy>): NodeState {
    n.(table := Fold(n.table, body), tracks := Receive(n.tracks, body))
  }

  /** A response reaches the node; a dataset that is already indexed is left as it is. */
  function AfterIndex(n: NodeState, p: Policy): NodeState {
    if p.dataset in n.table then n
    else n.(table := InsertRow(n.table, p.dataset, Dataset(p.dataset, Some(p), false)),
            tracks := n.tracks[p.dataset := Track(p, {})])
  }

  /** The dataset is inserted with an empty policy. */
  function AfterAddUndated(n: NodeState, id: string): NodeState {
    n.(table := InsertRow(n.table, id, Dataset(id, None, false)))
  }

  function AfterRemove(n: NodeState, id: string): NodeState {
    if id == "" then n else n.(table := DeleteRow(n.table, id), tracks := n.tracks - {id})
  }

  predicate GateOpen(n: NodeState, id: string) {
    ContentOf(SelectPolicy(n.table, id))
  }

  function AfterGate(n: NodeState, id: string, client: string): NodeState
    requires GateOpen(n, id)
  {
    n.(passed := n.passed + multiset{Download(client, SelectPolicy(n.table, id).value)})
  }

  function AfterRecord(n: NodeState, d: Download): NodeState {
    n.(passed := n.passed - multiset{d}, checkouts := n.checkouts + [d])
  }

  /** The row is the newest of what the node received for the dataset. */
  ghost predicate Newest(h: History, id: string, row: Row, t: Track) {
    && row.dated && t.base.dataset == id && t.base.version <= row.version
    && Issued(h, t.base) && Issued(h, Policy(id, row.content, row.version))
    && (forall p :: p in t.received ==> p.dataset == id && p.version <= row.version)
    && (Policy(id, row.content, row.version) == t.base || Policy(id, row.content, row.version) in t.received)
  }

  /** Exactly the readable rows are tracked, and each is the newest received. */
  ghost predicate TracksInv(h: History, n: NodeState) {
    && "" !in n.tracks
    && (forall id :: id in n.tracks ==> id in n.table && Newest(h, id, n.table[id], n.tracks[id]))
    && (forall id :: Readable(n.table, id) ==> id in n.tracks)
  }

  /** Every download, recorded or not, was allowed by an issued policy. */
  ghost predicate DownloadsInv(h: History, n: NodeState) {
    forall d :: d in n.passed || d in n.checkouts ==> d.policy.content && Issued(h, d.policy)
  }

  lemma HistoryGrows(h: History, h': History, n: NodeState)
    requires Extends(h, h') && TracksInv(h, n) && DownloadsInv(h, n)
    ensures TracksInv(h', n) && DownloadsInv(h', n)
  {
  }

  lemma BatchKeeps(h: History, n: NodeState, body: seq<Policy>)
    requires TracksInv(h, n) && forall p :: p in body ==> Issued(h, p)
    ensures TracksInv(h, AfterBatch(n, body))
  {
    var n' := AfterBatch(n, body);
    FoldSettles(n.table, body, "");
    forall id | id in n.table
      ensures n'.table[id].dated == n.table[id].dated
      ensures id in n.tracks ==> Newest(h, id, n'.table[id], n'.tracks[id])
    {
      FoldSettles(n.table, body, id);
      if id in n.tracks {
        BatchKeepsNewest(h, id, n.table[id], n'.table[id], n.tracks[id], body);
      }
    }
  }

  lemma BatchKeepsNewest(h: History, id: string, row: Row, row': Row, t: Track, body: seq<Policy>)
    requires Newest(h, id, row, t) && Settled(id, row, row', Elements(body))
    requires forall p :: p in body ==> Issued(h, p)
    ensures Newest(h, id, row', t.(received := t.received + set p | p in body && p.dataset == id))
  {
    if row' != row {
      assert Policy(id, row'.content, row'.version) in body;
    }
  }

  lemma IndexKeeps(h: History, n: NodeState, p: Policy)
    requires TracksInv(h, n) && Issued(h, p) && p.dataset != ""
    ensures TracksInv(h, AfterIndex(n, p))
  {
  }

  lemma AddUndatedKeeps(h: History, n: NodeState, id: string)
    requires TracksInv(h, n)
    ensures TracksInv(h, AfterAddUndated(n, id))
  {
  }

  lemma RemoveKeeps(h: History, n: NodeState, id: string)
    requires TracksInv(h, n)
    ensures TracksInv(h, AfterRemove(n, id))
  {
  }

  lemma GateKeeps(h: History, n: NodeState, id: string, client: string)
    requires TracksInv(h, n) && DownloadsInv(h, n) && GateOpen(n, id)
    ensures DownloadsInv(h, AfterGate(n, id, client))
  {
    assert id in n.tracks && Newest(h, id, n.table[id], n.tracks[id]);
  }

  lemma RecordKeeps(h: History, n: NodeState, d: Download)
    requires DownloadsInv(h, n) && d in n.passed
    ensures DownloadsInv(h, AfterRecord(n, d))
  {
  }

  /** A batch never takes a readable row back to an older version and forgets nothing
      that was received. */
  lemma BatchKeepsVersion(n: NodeState, body: seq<Policy>, id: string)
    requires Readable(n.table, id) && id in n.tracks
    ensures KeepsDataset(n, AfterBatch(n, body), id)
  {
    FoldSettles(n.table, body, id);
  }

  /** Nor does anything else but the removal of the dataset. */
  lemma OthersKeepVersion(n: NodeState, id: string, p: Policy, other: string, d: Download, client: string)
    requires Readable(n.table, id) && id in n.tracks
    ensures KeepsDataset(n, AfterIndex(n, p), id) && KeepsDataset(n, AfterAddUndated(n, other), id)
    ensures KeepsDataset(n, AfterRecord(n, d), id)
    ensures other != id ==> KeepsDataset(n, AfterRemove(n, other), id)
    ensures GateOpen(n, other) ==> KeepsDataset(n, AfterGate(n, other, client), id)
  {
  }

  /** The dataset stays readable at the same or a newer version, indexed by the same response. */
  predicate KeepsDataset(n: NodeState, n': NodeState, id: string)
    requires Readable(n.table, id) && id in n.tracks
  {
    && Readable(n'.table, id) && id in n'.tracks && n'.table[id].version >= n.table[id].version
    && n'.tracks[id].base == n.tracks[id].base && n.tracks[id].received <= n'.tracks[id].received
  }

  /** How many requests for d have passed the gate, recorded or not. */
  function Requests(n: NodeState, d: Download): nat {
    multiset(n.checkouts)[d] + n.passed[d]
  }

  lemma GateCounts(n: NodeState, id: string, client: string, d: Download)
    requires GateOpen(n, id)
    ensures Requests(AfterGate(n, id, client), d)
            == Requests(n, d) + if Download(client, SelectPolicy(n.table, id).value) == d then 1 else 0
  {
  }

  lemma RecordCounts(n: NodeState, e: Download, d: Download)
    requires e in n.passed
    ensures Requests(AfterRecord(n, e), d) == Requests(n, d)
  {
    assert multiset(n.checkouts + [e]) == multiset(n.checkouts) + multiset{e};
  }

  /** The gate and the record are two steps: a policy that revokes access in between does
      not stop the checkout from being recorded. */
  lemma RevocationInBetween(n: NodeState, id: string, client: string)
    requires GateOpen(n, id)
    ensures var d := Download(client, SelectPolicy(n.table, id).value);
            var n1 := AfterGate(n, id, client);
            var n2 := AfterBatch(n1, [Policy(id, false, n.table[id].version + 1)]);
            var n3 := AfterRecord(n2, d);
            d in n2.passed && !GateOpen(n2, id) && !GateOpen(n3, id) && n3.checkouts == n.checkouts + [d]
  {
    var q := Policy(id, false, n.table[id].version + 1);
    assert [q][..0] == [];
    assert Fold(n.table, [q]) == ApplyRow(Fold(n.table, []), q);
  }
}
