/** Policy distribution as one protocol: the policy store issues policies, goroutines race
    to put them into the queue, the batcher drains it into messages, and a network that
    may lose, repeat and reorder messages brings them to nodes that index and remove
    datasets and serve downloads. A run is any sequence of enabled steps.

    Tables are uncached (DatasetIndexer with Redis off), and changing a policy at the
    store is one step. */
module Distribution {
  import opened Common
  import opened DatasetIndexer
  import opened Multicast
  import opened Issuing
  import opened BatchQueue
  import opened Holdings

  datatype Response = Response(node: string, policy: Policy)

  datatype System = System(store: Store, batcher: Batcher, responses: set<Response>, nodes: map<string, NodeState>)

  function Init(names: set<string>): System {
    System(NEW_STORE, NEW_BATCHER, {}, map n | n in names :: NEW_NODE)
  }

  datatype Step =
    | Request(node: string, id: string)                     // a node asks for a dataset's policy
    | SetObjectPolicy(id: string, content: bool, gitOk: bool)
    | OfQueue(step: QueueStep)                              // Accept, Begin, Take or Send
    | Deliver(node: string, k: nat)                         // any message, any number of times
    | Index(node: string, policy: Policy)                   // a response reaches its node
    | AddUndated(node: string, id: string)
    | RemoveDataset(node: string, id: string)
    | PassGate(node: string, id: string, client: string)
    | RecordCheckout(node: string, download: Download)

  predicate Enabled(s: System, step: Step) {
    match step
    case Request(n, id) => n in s.nodes
    case SetObjectPolicy(id, _, _) => CanSet(s.store, id)
    case OfQueue(q) => !q.Submit? && CanQueue(s.batcher, q)
    case Deliver(n, k) => n in s.nodes && k < |s.batcher.sent|
    case Index(n, p) => n in s.nodes && Response(n, p) in s.responses
    case AddUndated(n, id) => n in s.nodes
    case RemoveDataset(n, id) => n in s.nodes
    case PassGate(n, id, _) => n in s.nodes && GateOpen(s.nodes[n], id)
    case RecordCheckout(n, d) => n in s.nodes && d in s.nodes[n].passed
  }

  predicate OfNode(step: Step) {
    !step.Request? && !step.SetObjectPolicy? && !step.OfQueue?
  }

  function DoNode(s: System, step: Step): NodeState
    requires Enabled(s, step) && OfNode(step)
  {
    var n := s.nodes[step.node];
    match step
    case Deliver(_, k) => AfterBatch(n, s.batcher.sent[k].body)
    case Index(_, p) => AfterIndex(n, p)
    case AddUndated(_, id) => AfterAddUndated(n, id)
    case RemoveDataset(_, id) => AfterRemove(n, id)
    case PassGate(_, id, client) => AfterGate(n, id, client)
    case RecordCheckout(_, d) => AfterRecord(n, d)
  }

  function Do(packing: Packing, s: System, step: Step): System
    requires Enabled(s, step)
  {
    match step
    case Request(n, id) =>
      s.(store := AfterRequest(s.store, id),
         responses := if id == "" then s.responses else s.responses + {Response(n, Answer(s.store, id))})
    case SetObjectPolicy(id, content, gitOk) =>
      s.(store := AfterSet(s.store, id, content, gitOk),
         batcher := if Submits(s.store, id, gitOk)
                    then Queue(packing, s.batcher, QueueStep.Submit(NextPolicy(s.store, id, content))) else s.batcher)
    case OfQueue(q) => s.(batcher := Queue(packing, s.batcher, q))
    case _ => s.(nodes := s.nodes[step.node := DoNode(s, step)])
  }

  function Run(packing: Packing, names: set<string>, steps: seq<Step>): Option<System> {
    if steps == [] then Some(Init(names))
    else
      var s := Run(packing, names, steps[..|steps| - 1]);
      if s.Some? && Enabled(s.value, Last(steps)) then Some(Do(packing, s.value, Last(steps))) else None
  }

  /** The nodes of a run are those it started with, and it started with nothing. */
  lemma {:induction false} NodesStay(packing: Packing, names: set<string>, steps: seq<Step>)
    ensures Run(packing, names, []).Some? && Run(packing, names, []).value.nodes.Keys == names
    ensures forall n :: n in names ==> Run(packing, names, []).value.nodes[n] == NEW_NODE
    ensures Run(packing, names, steps).Some? ==> Run(packing, names, steps).value.nodes.Keys == names
  {
    if steps != [] {
      NodesStay(packing, names, steps[..|steps| - 1]);
    }
  }

  // ---- the invariant ----

  ghost predicate StoreInv(s: System) {
    TableInv(s.store) && SubmitInv(s.store)
  }

  ghost predicate QueueInv(packing: Packing, s: System) {
    Conserves(s.batcher) && Numbers(packing, s.batcher) && Submitted(s.batcher) == s.store.submitted
  }

  ghost predicate ResponsesInv(s: System) {
    forall r :: r in s.responses ==> Issued(s.store.history, r.policy) && r.policy.dataset != ""
  }

  ghost predicate NodesInv(s: System) {
    forall n :: n in s.nodes ==> TracksInv(s.store.history, s.nodes[n]) && DownloadsInv(s.store.history, s.nodes[n])
  }

  ghost predicate Inv(packing: Packing, s: System) {
    StoreInv(s) && QueueInv(packing, s) && ResponsesInv(s) && NodesInv(s)
  }

  /** Every policy of every message was issued. */
  lemma MessagesWereIssued(packing: Packing, s: System)
    requires StoreInv(s) && QueueInv(packing, s)
    ensures forall k, p :: 0 <= k < |s.batcher.sent| && p in s.batcher.sent[k].body ==> Issued(s.store.history, p)
    ensures forall p :: p in s.batcher.queue || p in Drained(s.batcher) || p in s.batcher.pending ==> Issued(s.store.history, p)
  {
    forall p
      ensures p in s.batcher.queue || p in Drained(s.batcher) || p in s.batcher.pending ==> Issued(s.store.history, p)
      ensures forall k :: 0 <= k < |s.batcher.sent| && p in s.batcher.sent[k].body ==> Issued(s.store.history, p)
    {
      InFlightWasSubmitted(packing, s.batcher, p);
    }
  }

  lemma NodesGrow(s: System, h': History)
    requires NodesInv(s) && Extends(s.store.history, h')
    ensures forall n :: n in s.nodes ==> TracksInv(h', s.nodes[n]) && DownloadsInv(h', s.nodes[n])
  {
    forall n | n in s.nodes
      ensures TracksInv(h', s.nodes[n]) && DownloadsInv(h', s.nodes[n])
    {
      HistoryGrows(s.store.history, h', s.nodes[n]);
    }
  }

  lemma RequestStepKeeps(packing: Packing, s: System, n: string, id: string)
    requires Inv(packing, s) && Enabled(s, Request(n, id))
    ensures Inv(packing, Do(packing, s, Request(n, id)))
  {
    RequestKeeps(s.store, id);
    NodesGrow(s, AfterRequest(s.store, id).history);
    RequestKeepsResponses(packing, s, n, id);
  }

  lemma RequestKeepsResponses(packing: Packing, s: System, n: string, id: string)
    requires ResponsesInv(s) && Enabled(s, Request(n, id)) && Extends(s.store.history, AfterRequest(s.store, id).history)
    requires id != "" ==> Issued(AfterRequest(s.store, id).history, Answer(s.store, id))
    ensures ResponsesInv(Do(packing, s, Request(n, id)))
  {
  }

  lemma SetStepKeeps(packing: Packing, s: System, id: string, content: bool, gitOk: bool)
    requires Inv(packing, s) && Enabled(s, SetObjectPolicy(id, content, gitOk))
    ensures Inv(packing, Do(packing, s, SetObjectPolicy(id, content, gitOk)))
  {
    SetKeeps(s.store, id, content, gitOk);
    NodesGrow(s, AfterSet(s.store, id, content, gitOk).history);
    if Submits(s.store, id, gitOk) {
      var q := QueueStep.Submit(NextPolicy(s.store, id, content));
      QueueConserves(packing, s.batcher, q);
      QueueNumbers(packing, s.batcher, q);
      QueueSubmitted(packing, s.batcher, q);
    }
  }

  lemma QueueStepKeeps(packing: Packing, s: System, q: QueueStep)
    requires Inv(packing, s) && Enabled(s, OfQueue(q))
    ensures Inv(packing, Do(packing, s, OfQueue(q)))
  {
    QueueConserves(packing, s.batcher, q);
    QueueNumbers(packing, s.batcher, q);
    QueueSubmitted(packing, s.batcher, q);
  }

  lemma NodeStepKeeps(packing: Packing, s: System, step: Step)
    requires Inv(packing, s) && Enabled(s, step) && OfNode(step)
    ensures TracksInv(s.store.history, DoNode(s, step)) && DownloadsInv(s.store.history, DoNode(s, step))
  {
    var h, n := s.store.history, s.nodes[step.node];
    assert TracksInv(h, n) && DownloadsInv(h, n);
    match step
    case Deliver(_, k) =>
      MessagesWereIssued(packing, s);
      BatchKeeps(h, n, s.batcher.sent[k].body);
    case Index(_, p) => IndexKeeps(h, n, p);
    case AddUndated(_, id) => AddUndatedKeeps(h, n, id);
    case RemoveDataset(_, id) => RemoveKeeps(h, n, id);
    case PassGate(_, id, client) => GateKeeps(h, n, id, client);
    case RecordCheckout(_, d) => RecordKeeps(h, n, d);
  }

  lemma StepKeeps(packing: Packing, s: System, step: Step)
    requires Inv(packing, s) && Enabled(s, step)
    ensures Inv(packing, Do(packing, s, step))
  {
    if OfNode(step) {
      NodeStepKeeps(packing, s, step);
    } else if step.OfQueue? {
      QueueStepKeeps(packing, s, step.step);
    } else {
      match step
      case Request(n, id) => RequestStepKeeps(packing, s, n, id);
      case SetObjectPolicy(id, content, gitOk) => SetStepKeeps(packing, s, id, content, gitOk);
    }
  }

  lemma {:induction false} RunsKeepInv(packing: Packing, names: set<string>, steps: seq<Step>)
    requires Run(packing, names, steps).Some?
    ensures Inv(packing, Run(packing, names, steps).value)
  {
    if steps != [] {
      RunsKeepInv(packing, names, steps[..|steps| - 1]);
      StepKeeps(packing, Run(packing, names, steps[..|steps| - 1]).value, Last(steps));
    }
  }

  // ---- safety ----

  /** A node's readable policy was issued and is not newer than the store's. */
  lemma HeldWasIssued(packing: Packing, s: System, n: string, id: string)
    requires Inv(packing, s) && n in s.nodes && Readable(s.nodes[n].table, id)
    ensures Issued(s.store.history, SelectPolicy(s.nodes[n].table, id).value)
    ensures id in s.store.table && s.nodes[n].table[id].version <= s.store.table[id].version
  {
    var h, node := s.store.history, s.nodes[n];
    assert TracksInv(h, node);
    assert Newest(h, id, node.table[id], node.tracks[id]);
  }

  /** Safety: in every run, whatever waits, is queued, being drained, in a message or
      readable at a node is a policy the store issued for that dataset and version, and
      no node is ahead of the store. */
  lemma Safety(packing: Packing, names: set<string>, steps: seq<Step>)
    requires Run(packing, names, steps).Some?
    ensures var s := Run(packing, names, steps).value;
            && (forall p :: p in s.batcher.pending || p in s.batcher.queue || p in Drained(s.batcher) ==> Issued(s.store.history, p))
            && (forall k, p :: 0 <= k < |s.batcher.sent| && p in s.batcher.sent[k].body ==> Issued(s.store.history, p))
            && (forall n, id :: n in s.nodes && Readable(s.nodes[n].table, id) ==>
                  && Issued(s.store.history, SelectPolicy(s.nodes[n].table, id).value)
                  && id in s.store.table && s.nodes[n].table[id].version <= s.store.table[id].version)
  {
    RunsKeepInv(packing, names, steps);
    var s := Run(packing, names, steps).value;
    MessagesWereIssued(packing, s);
    forall n, id | n in s.nodes && Readable(s.nodes[n].table, id)
      ensures Issued(s.store.history, SelectPolicy(s.nodes[n].table, id).value)
      ensures id in s.store.table && s.nodes[n].table[id].version <= s.store.table[id].version
    {
      HeldWasIssued(packing, s, n, id);
    }
  }

  /** Conservation in every run: groups, batch in progress and queue make up what the queue
      accepted, in order, and the messages too if batches are copied; accepted and waiting
      policies are those submitted. */
  lemma Conservation(packing: Packing, names: set<string>, steps: seq<Step>)
    requires Run(packing, names, steps).Some?
    ensures var b := Run(packing, names, steps).value.batcher;
            && |b.queue| <= CAPACITY
            && Flatten(b.groups) + Drained(b) + b.queue == b.accepted
            && multiset(b.accepted) + b.pending == Run(packing, names, steps).value.store.submitted
            && |b.sent| == |b.groups|
            && forall i :: 0 <= i < |b.sent| ==>
                 b.sent[i].body == Pack(packing, b.groups[i]) && b.sent[i].sequenceNumber == ToInt32(i + 1)
    ensures packing == Copied ==>
              var b := Run(packing, names, steps).value.batcher;
              Flatten(Bodies(b.sent)) + Drained(b) + b.queue == b.accepted
  {
    RunsKeepInv(packing, names, steps);
    if packing == Copied {
      CopiedBodiesAreGroups(Run(packing, names, steps).value.batcher);
    }
  }

  /** In every run each policy is accepted at most once and is in at most one message,
      and no policy that still waits in the queue or in the batch in progress was sent. */
  lemma NoPolicyInTwoMessages(packing: Packing, names: set<string>, steps: seq<Step>)
    requires Run(packing, names, steps).Some?
    ensures var b := Run(packing, names, steps).value.batcher;
            && Distinct(b.accepted) && Distinct(Drained(b) + b.queue)
            && (forall i, j :: 0 <= i < j < |b.sent| ==> Elements(b.sent[i].body) !! Elements(b.sent[j].body))
            && (forall i :: 0 <= i < |b.sent| ==> Elements(b.sent[i].body) !! Elements(Drained(b) + b.queue))
            && (packing == Copied ==> forall i :: 0 <= i < |b.sent| ==> Distinct(b.sent[i].body))
  {
    RunsKeepInv(packing, names, steps);
    var s := Run(packing, names, steps).value;
    AcceptedOnce(packing, s);
    GroupsApart(packing, s.batcher);
  }

  lemma AcceptedOnce(packing: Packing, s: System)
    requires StoreInv(s) && QueueInv(packing, s)
    ensures Distinct(s.batcher.accepted)
  {
    var b := s.batcher;
    forall p
      ensures multiset(b.accepted)[p] <= 1
    {
      assert Submitted(b)[p] == multiset(b.accepted)[p] + b.pending[p];
    }
    CountedOnce(b.accepted);
  }

  lemma GroupsApart(packing: Packing, b: Batcher)
    requires Conserves(b) && Numbers(packing, b) && Distinct(b.accepted)
    ensures Distinct(Drained(b) + b.queue)
    ensures forall i, j :: 0 <= i < j < |b.sent| ==> Elements(b.sent[i].body) !! Elements(b.sent[j].body)
    ensures forall i :: 0 <= i < |b.sent| ==> Elements(b.sent[i].body) !! Elements(Drained(b) + b.queue)
    ensures packing == Copied ==> forall i :: 0 <= i < |b.sent| ==> Distinct(b.sent[i].body)
  {
    var waiting := Drained(b) + b.queue;
    assert Flatten(b.groups) + waiting == b.accepted;
    NothingSentTwice(b.groups, waiting);
    DistinctParts(Flatten(b.groups), waiting);
    forall i | 0 <= i < |b.sent|
      ensures Elements(b.sent[i].body) <= Elements(b.groups[i])
    {
      assert Last(b.groups[i]) in b.groups[i];
    }
  }

  lemma NodeStepKeepsVersion(s: System, step: Step, id: string)
    requires Enabled(s, step) && OfNode(step) && step != RemoveDataset(step.node, id)
    requires Readable(s.nodes[step.node].table, id) && id in s.nodes[step.node].tracks
    ensures KeepsDataset(s.nodes[step.node], DoNode(s, step), id)
  {
    var node := s.nodes[step.node];
    var d, p := Download("", Policy("", false, 0)), Policy("", false, 0);
    match step
    case Deliver(_, k) => BatchKeepsVersion(node, s.batcher.sent[k].body, id);
    case Index(_, q) => OthersKeepVersion(node, id, q, "", d, "");
    case AddUndated(_, other) => OthersKeepVersion(node, id, p, other, d, "");
    case RemoveDataset(_, other) => OthersKeepVersion(node, id, p, other, d, "");
    case PassGate(_, other, client) => OthersKeepVersion(node, id, p, other, d, client);
    case RecordCheckout(_, e) => OthersKeepVersion(node, id, p, "", e, "");
  }

  lemma StepKeepsVersion(packing: Packing, s: System, step: Step, n: string, id: string)
    requires Enabled(s, step) && n in s.nodes && Readable(s.nodes[n].table, id) && id in s.nodes[n].tracks
    requires step != RemoveDataset(n, id)
    ensures KeepsDataset(s.nodes[n], Do(packing, s, step).nodes[n], id)
  {
    if OfNode(step) && step.node == n {
      NodeStepKeepsVersion(s, step, id);
    } else {
      OtherStepsKeepNode(packing, s, step, n);
    }
  }

  lemma OtherStepsKeepNode(packing: Packing, s: System, step: Step, n: string)
    requires Enabled(s, step) && n in s.nodes && !(OfNode(step) && step.node == n)
    ensures n in Do(packing, s, step).nodes && Do(packing, s, step).nodes[n] == s.nodes[n]
  {
  }

  /** While a dataset stays indexed at a node its version never decreases. */
  lemma {:induction false} VersionNeverDecreases(packing: Packing, names: set<string>, steps: seq<Step>, more: seq<Step>, n: string, id: string)
    requires Run(packing, names, steps).Some? && Run(packing, names, steps + more).Some?
    requires n in Run(packing, names, steps).value.nodes && Readable(Run(packing, names, steps).value.nodes[n].table, id)
    requires RemoveDataset(n, id) !in more
    ensures n in Run(packing, names, steps + more).value.nodes
    ensures var a, b := Run(packing, names, steps).value.nodes[n].table, Run(packing, names, steps + more).value.nodes[n].table;
            Readable(b, id) && a[id].version <= b[id].version
  {
    if more == [] {
      assert steps + more == steps;
    } else {
      var front := more[..|more| - 1];
      assert (steps + more)[..|steps + more| - 1] == steps + front;
      assert Last(steps + more) == Last(more);
      VersionNeverDecreases(packing, names, steps, front, n, id);
      RunsKeepInv(packing, names, steps + front);
      assert TracksInv(Run(packing, names, steps + front).value.store.history, Run(packing, names, steps + front).value.nodes[n]);
      StepKeepsVersion(packing, Run(packing, names, steps + front).value, Last(more), n, id);
    }
  }

  // ---- answers ----

  /** A request is answered with the policy the store has then, and changes nothing else. */
  lemma RequestIsAnswered(packing: Packing, s: System, n: string, id: string)
    requires Inv(packing, s) && n in s.nodes && id != ""
    ensures Enabled(s, Request(n, id))
    ensures var s' := Do(packing, s, Request(n, id));
            && Current(s', id).Some? && s'.responses == s.responses + {Response(n, Current(s', id).value)}
            && (Current(s, id).Some? ==> Current(s', id) == Current(s, id))
            && (Current(s, id).None? ==> Current(s', id) == Some(Policy(id, false, 0)))
            && (forall other :: other != id ==> Current(s', other) == Current(s, other))
            && s'.batcher == s.batcher && s'.nodes == s.nodes
  {
    AnswerIsCurrent(s.store, id);
  }

  lemma AnswerIsCurrent(x: Store, id: string)
    requires TableInv(x) && id != ""
    ensures var x', before := AfterRequest(x, id), SelectPolicy(x.table, id);
            && Answer(x, id) == (if before.Some? then before.value else Policy(id, false, 0))
            && SelectPolicy(x'.table, id) == Some(Answer(x, id))
            && (forall other :: other != id ==> SelectPolicy(x'.table, other) == SelectPolicy(x.table, other))
  {
  }

  /** Step k of the run is the node's request, after which the store had this policy. */
  predicate AnsweredAt(packing: Packing, names: set<string>, steps: seq<Step>, r: Response, k: nat) {
    && k < |steps| && steps[k] == Request(r.node, r.policy.dataset)
    && Run(packing, names, steps[..k + 1]).Some?
    && Current(Run(packing, names, steps[..k + 1]).value, r.policy.dataset) == Some(r.policy)
  }

  /** In every run each response answers a request of its node with the policy that the
      store had at that time. */
  lemma {:induction false} ResponseWasCurrent(packing: Packing, names: set<string>, steps: seq<Step>, r: Response) returns (k: nat)
    requires Run(packing, names, steps).Some? && r in Run(packing, names, steps).value.responses
    ensures AnsweredAt(packing, names, steps, r, k)
  {
    var front := steps[..|steps| - 1];
    var s := Run(packing, names, front).value;
    if r in s.responses {
      k := ResponseWasCurrent(packing, names, front, r);
      assert front[..k + 1] == steps[..k + 1];
    } else {
      RunsKeepInv(packing, names, front);
      k := |front|;
      assert steps[..k + 1] == steps;
      RequestIsAnswered(packing, s, Last(steps).node, Last(steps).id);
    }
  }

  // ---- convergence ----

  /** The store's current policy of a dataset. */
  function Current(s: System, id: string): Option<Policy> {
    SelectPolicy(s.store.table, id)
  }

  predicate Tracks(s: System, n: string, id: string) {
    n in s.nodes && id in s.nodes[n].tracks
  }

  lemma HoldsNewestReceived(packing: Packing, s: System, n: string, id: string)
    requires Inv(packing, s) && Tracks(s, n, id)
    ensures id in s.store.table && Current(s, id).Some?
    ensures var t, p := s.nodes[n].tracks[id], Current(s, id).value;
            SelectPolicy(s.nodes[n].table, id) == Some(p) <==> t.base == p || p in t.received
  {
    var h, node := s.store.history, s.nodes[n];
    assert TracksInv(h, node);
    assert Newest(h, id, node.table[id], node.tracks[id]);
    HeldWasIssued(packing, s, n, id);
    TableIsNewest(s.store, id);
    var p, t := Current(s, id).value, node.tracks[id];
    if t.base == p || p in t.received {
      assert p.version <= node.table[id].version;
      assert Issued(h, Policy(id, node.table[id].content, node.table[id].version));
    }
  }

  /** Convergence, exactly: a node that holds a dataset from a response holds the store's
      current policy if and only if that was the response or is among the policies it
      received since, in whatever order and however often it received them. */
  lemma ConvergedExactlyWhen(packing: Packing, names: set<string>, steps: seq<Step>, n: string, id: string)
    requires Run(packing, names, steps).Some? && Tracks(Run(packing, names, steps).value, n, id)
    ensures var s := Run(packing, names, steps).value;
            && Current(s, id).Some?
            && (SelectPolicy(s.nodes[n].table, id) == Current(s, id)
                <==> s.nodes[n].tracks[id].base == Current(s, id).value || Current(s, id).value in s.nodes[n].tracks[id].received)
  {
    RunsKeepInv(packing, names, steps);
    HoldsNewestReceived(packing, Run(packing, names, steps).value, n, id);
  }

  /** In particular: once it has received every policy issued after its response. */
  lemma Convergence(packing: Packing, names: set<string>, steps: seq<Step>, n: string, id: string)
    requires Run(packing, names, steps).Some? && Tracks(Run(packing, names, steps).value, n, id)
    requires var s := Run(packing, names, steps).value;
             forall p :: Issued(s.store.history, p) && p.dataset == id && p.version > s.nodes[n].tracks[id].base.version ==>
               p in s.nodes[n].tracks[id].received
    ensures var s := Run(packing, names, steps).value;
            SelectPolicy(s.nodes[n].table, id) == Current(s, id)
  {
    RunsKeepInv(packing, names, steps);
    var s := Run(packing, names, steps).value;
    HoldsNewestReceived(packing, s, n, id);
    TableIsNewest(s.store, id);
    assert Newest(s.store.history, id, s.nodes[n].table[id], s.nodes[n].tracks[id]);
  }

  // ---- end to end ----

  /** Nothing is waiting, queued or being drained. */
  predicate Quiet(b: Batcher) {
    b.pending == multiset{} && b.queue == [] && b.draining.None?
  }

  predicate InSomeMessage(b: Batcher, p: Policy) {
    exists k :: 0 <= k < |b.sent| && p in b.sent[k].body
  }

  /** The node handled every message while it had the dataset indexed. */
  ghost predicate AllDelivered(s: System, n: string, id: string)
    requires Tracks(s, n, id)
  {
    forall p: Policy :: p.dataset == id && InSomeMessage(s.batcher, p) ==> p in s.nodes[n].tracks[id].received
  }

  /** End to end: in a quiet system, a node that handled every message holds the store's
      current policy exactly when its response was that policy or some message carries
      it. With copied batches a message does, unless the store failed to submit it after
      storing it; with aliased batches, exactly if it was the last of the group it was
      drained in. */
  lemma DeliveredExactlyWhen(packing: Packing, names: set<string>, steps: seq<Step>, n: string, id: string)
    requires Run(packing, names, steps).Some? && Tracks(Run(packing, names, steps).value, n, id)
    requires Quiet(Run(packing, names, steps).value.batcher) && AllDelivered(Run(packing, names, steps).value, n, id)
    ensures var s := Run(packing, names, steps).value;
            && Current(s, id).Some?
            && var p := Current(s, id).value;
               SelectPolicy(s.nodes[n].table, id) == Some(p) <==>
                 || s.nodes[n].tracks[id].base == p
                 || (packing == Copied && p.version > 0 && p !in s.store.skipped)
                 || (packing == Aliased && exists i :: 0 <= i < |s.batcher.groups| && s.batcher.groups[i] != [] && p == Last(s.batcher.groups[i]))
  {
    RunsKeepInv(packing, names, steps);
    var s := Run(packing, names, steps).value;
    HoldsNewestReceived(packing, s, n, id);
    var p := Current(s, id).value;
    if p in s.nodes[n].tracks[id].received {
      ReceivedWasSent(packing, names, steps, n, id, p);
    }
    QuietMessages(packing, s, id);
  }

  lemma QuietMessages(packing: Packing, s: System, id: string)
    requires Inv(packing, s) && id in s.store.table && Quiet(s.batcher)
    ensures Current(s, id).Some?
    ensures var p := Current(s, id).value;
            InSomeMessage(s.batcher, p) <==>
              || (packing == Copied && p.version > 0 && p !in s.store.skipped)
              || (packing == Aliased && exists i :: 0 <= i < |s.batcher.groups| && s.batcher.groups[i] != [] && p == Last(s.batcher.groups[i]))
  {
    TableIsNewest(s.store, id);
    QuietSentExactlyWhen(packing, s.batcher, Current(s, id).value);
  }

  /** What a node received was in some message. */
  lemma {:induction false} ReceivedWasSent(packing: Packing, names: set<string>, steps: seq<Step>, n: string, id: string, p: Policy)
    requires Run(packing, names, steps).Some? && Tracks(Run(packing, names, steps).value, n, id)
    requires p in Run(packing, names, steps).value.nodes[n].tracks[id].received
    ensures InSomeMessage(Run(packing, names, steps).value.batcher, p)
  {
    if steps != [] {
      var s := Run(packing, names, steps[..|steps| - 1]).value;
      var s' := Run(packing, names, steps).value;
      if Tracks(s, n, id) && p in s.nodes[n].tracks[id].received {
        ReceivedWasSent(packing, names, steps[..|steps| - 1], n, id, p);
        MessagesRemain(packing, s, Last(steps), p);
      } else {
        assert p in s'.batcher.sent[Last(steps).k].body;
      }
    }
  }

  lemma MessagesRemain(packing: Packing, s: System, step: Step, p: Policy)
    requires Enabled(s, step) && InSomeMessage(s.batcher, p)
    ensures InSomeMessage(Do(packing, s, step).batcher, p)
  {
    var k :| 0 <= k < |s.batcher.sent| && p in s.batcher.sent[k].body;
    assert Do(packing, s, step).batcher.sent[k] == s.batcher.sent[k];
  }

  // ---- checkouts ----

  /** Step k of the run lets the client of d through the gate, with the policy of d,
      which the node holds then. */
  predicate GateAt(packing: Packing, names: set<string>, steps: seq<Step>, n: string, d: Download, k: nat) {
    && k < |steps| && steps[k] == PassGate(n, d.policy.dataset, d.client)
    && Holds(Run(packing, names, steps[..k]), n, d.policy)
  }

  predicate Holds(s: Option<System>, n: string, p: Policy) {
    s.Some? && n in s.value.nodes && SelectPolicy(s.value.nodes[n].table, p.dataset) == Some(p)
  }

  /** Every checkout was recorded in a request of its client that had passed the gate
      before, when the node held that policy; the policy was issued and allows access. */
  lemma CheckoutsWereAllowed(packing: Packing, names: set<string>, steps: seq<Step>, n: string, d: Download)
    requires Run(packing, names, steps).Some? && n in Run(packing, names, steps).value.nodes
    requires d in Run(packing, names, steps).value.nodes[n].checkouts
    ensures d.policy.content && Issued(Run(packing, names, steps).value.store.history, d.policy)
    ensures exists k, j :: 0 <= k < j < |steps| && GateAt(packing, names, steps, n, d, k) && steps[j] == RecordCheckout(n, d)
  {
    RunsKeepInv(packing, names, steps);
    assert DownloadsInv(Run(packing, names, steps).value.store.history, Run(packing, names, steps).value.nodes[n]);
    var k, j := RecordedAt(packing, names, steps, n, d);
  }

  lemma {:induction false} RecordedAt(packing: Packing, names: set<string>, steps: seq<Step>, n: string, d: Download) returns (k: nat, j: nat)
    requires Run(packing, names, steps).Some? && n in Run(packing, names, steps).value.nodes
    requires d in Run(packing, names, steps).value.nodes[n].checkouts
    ensures k < j < |steps| && GateAt(packing, names, steps, n, d, k) && steps[j] == RecordCheckout(n, d)
  {
    var front := steps[..|steps| - 1];
    var s := Run(packing, names, front).value;
    if d in s.nodes[n].checkouts {
      k, j := RecordedAt(packing, names, front, n, d);
    } else {
      k := PassedAt(packing, names, front, n, d);
      j := |front|;
    }
    assert front[..k] == steps[..k];
  }

  lemma {:induction false} PassedAt(packing: Packing, names: set<string>, steps: seq<Step>, n: string, d: Download) returns (k: nat)
    requires Run(packing, names, steps).Some? && n in Run(packing, names, steps).value.nodes
    requires d in Run(packing, names, steps).value.nodes[n].passed
    ensures GateAt(packing, names, steps, n, d, k)
  {
    var front := steps[..|steps| - 1];
    var s := Run(packing, names, front).value;
    if d in s.nodes[n].passed {
      k := PassedAt(packing, names, front, n, d);
      assert front[..k] == steps[..k];
    } else {
      NewPassage(packing, s, Last(steps), n, d);
      k := |front|;
    }
  }

  lemma NewPassage(packing: Packing, s: System, step: Step, n: string, d: Download)
    requires Enabled(s, step) && n in s.nodes && d !in s.nodes[n].passed && d in Do(packing, s, step).nodes[n].passed
    ensures step == PassGate(n, d.policy.dataset, d.client) && Holds(Some(s), n, d.policy)
  {
  }

  /** How many steps of the run let a request for d through the gate. */
  function GatesPassed(packing: Packing, names: set<string>, steps: seq<Step>, n: string, d: Download): nat {
    if steps == [] then 0
    else GatesPassed(packing, names, steps[..|steps| - 1], n, d) + if GateAt(packing, names, steps, n, d, |steps| - 1) then 1 else 0
  }

  /** No request is recorded twice and none without its own gate: the checkouts and the
      requests still between gate and record are as many as the gates passed. */
  lemma {:induction false} OneRecordPerGate(packing: Packing, names: set<string>, steps: seq<Step>, n: string, d: Download)
    requires Run(packing, names, steps).Some? && n in Run(packing, names, steps).value.nodes
    ensures var node := Run(packing, names, steps).value.nodes[n];
            Requests(node, d) == GatesPassed(packing, names, steps, n, d)
  {
    if steps != [] {
      var front := steps[..|steps| - 1];
      OneRecordPerGate(packing, names, front, n, d);
      StepCounts(packing, Run(packing, names, front).value, Last(steps), n, d);
    }
  }

  lemma StepCounts(packing: Packing, s: System, step: Step, n: string, d: Download)
    requires Enabled(s, step) && n in s.nodes
    ensures Requests(Do(packing, s, step).nodes[n], d)
            == Requests(s.nodes[n], d) + if step == PassGate(n, d.policy.dataset, d.client) && Holds(Some(s), n, d.policy) then 1 else 0
  {
    if OfNode(step) && step.node == n {
      match step
      case PassGate(_, id, client) => GateCounts(s.nodes[n], id, client, d);
      case RecordCheckout(_, e) => RecordCounts(s.nodes[n], e, d);
      case _ =>
    }
  }
}
