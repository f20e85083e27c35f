/** Whether a node that is behind the store can still catch up, by steps of the batcher
    and of the network alone. */
module CatchUp {
  import opened Common
  import opened DatasetIndexer
  import opened Multicast
  import opened Probe
  import opened Issuing
  import opened BatchQueue
  import opened Holdings
  import opened Distribution

  /** Neither the store nor a node does anything; the queue and the network do. */
  predicate OnlyTransport(steps: seq<Step>) {
    forall step :: step in steps ==> step.OfQueue? || step.Deliver?
  }

  function Lift(qs: seq<QueueStep>): seq<Step> {
    if qs == [] then [] else Lift(qs[..|qs| - 1]) + [OfQueue(Last(qs))]
  }

  lemma {:induction false} QueueAllSnoc(packing: Packing, b: Batcher, qs: seq<QueueStep>, q: QueueStep)
    ensures QueueAll(packing, b, qs + [q])
            == var m := QueueAll(packing, b, qs); if m.Some? && CanQueue(m.value, q) then Some(Queue(packing, m.value, q)) else None
    decreases |qs|
  {
    if qs == [] {
      assert [] + [q] == [q] && [q][1..] == [];
    } else {
      assert (qs + [q])[1..] == qs[1..] + [q];
      if CanQueue(b, qs[0]) {
        QueueAllSnoc(packing, Queue(packing, b, qs[0]), qs[1..], q);
      }
    }
  }

  lemma RunSnoc(packing: Packing, names: set<string>, steps: seq<Step>, step: Step)
    requires Run(packing, names, steps).Some? && Enabled(Run(packing, names, steps).value, step)
    ensures Run(packing, names, steps + [step]) == Some(Do(packing, Run(packing, names, steps).value, step))
  {
    assert (steps + [step])[..|steps|] == steps;
  }

  lemma OneQueueStep(packing: Packing, names: set<string>, steps: seq<Step>, s: System, q: QueueStep)
    requires Run(packing, names, steps) == Some(s) && CanQueue(s.batcher, q) && !q.Submit?
    ensures Run(packing, names, steps + [OfQueue(q)]) == Some(s.(batcher := Queue(packing, s.batcher, q)))
  {
    RunSnoc(packing, names, steps, OfQueue(q));
  }

  /** Steps of the batcher are steps of the system. */
  lemma {:induction false} RunQueue(packing: Packing, names: set<string>, steps: seq<Step>, qs: seq<QueueStep>)
    requires Run(packing, names, steps).Some? && NoneSubmits(qs)
    requires QueueAll(packing, Run(packing, names, steps).value.batcher, qs).Some?
    ensures var s := Run(packing, names, steps).value;
            Run(packing, names, steps + Lift(qs)) == Some(s.(batcher := QueueAll(packing, s.batcher, qs).value))
    ensures OnlyTransport(Lift(qs))
  {
    var s := Run(packing, names, steps).value;
    if qs == [] {
      assert steps + Lift(qs) == steps;
    } else {
      var front, q := qs[..|qs| - 1], Last(qs);
      assert qs == front + [q];
      QueueAllSnoc(packing, s.batcher, front, q);
      RunQueue(packing, names, steps, front);
      OneQueueStep(packing, names, steps + Lift(front), s.(batcher := QueueAll(packing, s.batcher, front).value), q);
      assert steps + Lift(qs) == steps + Lift(front) + [OfQueue(q)];
    }
  }

  /** Sends what is queued or being drained; what waits goes on waiting. */
  lemma Flushed(b: Batcher) returns (qs: seq<QueueStep>)
    requires Conserves(b)
    ensures NoneSubmits(qs) && QueueAll(Copied, b, qs).Some?
    ensures var b' := QueueAll(Copied, b, qs).value;
            && b'.queue == [] && b'.draining.None? && b'.pending == b.pending
            && forall p :: InSomeMessage(b, p) || p in Drained(b) || p in b.queue ==> InSomeMessage(b', p)
  {
    if b.draining.None? && b.queue == [] {
      qs := [];
    } else {
      if b.draining.Some? {
        qs := DrainConforms(Copied, b, []);
      } else {
        qs := BatchConforms(Copied, b, ["n"], RandomMembers, 1, []);
      }
      var b', group := QueueAll(Copied, b, qs).value, Drained(b) + b.queue;
      assert Drained(b) + Coming(b.queue, []) == group;
      assert b'.sent == b.sent + [Last(b'.sent)] && Last(b'.sent).body == group;
      assert b'.pending == b.pending - multiset([]) == b.pending;
      forall p | InSomeMessage(b, p) || p in Drained(b) || p in b.queue
        ensures InSomeMessage(b', p)
      {
        MessageAdded(b, b', p);
      }
    }
  }

  lemma MessageAdded(b: Batcher, b': Batcher, p: Policy)
    requires b'.sent != [] && b'.sent == b.sent + [Last(b'.sent)]
    requires InSomeMessage(b, p) || p in Last(b'.sent).body
    ensures InSomeMessage(b', p)
  {
    if InSomeMessage(b, p) {
      var k :| 0 <= k < |b.sent| && p in b.sent[k].body;
      assert b'.sent[k] == b.sent[k];
    } else {
      assert p in b'.sent[|b'.sent| - 1].body;
    }
  }

  /** A waiting policy gets in and is sent alone. */
  lemma SentAlone(b: Batcher, p: Policy) returns (qs: seq<QueueStep>)
    requires b.queue == [] && b.draining.None? && p in b.pending
    ensures NoneSubmits(qs) && QueueAll(Copied, b, qs).Some? && InSomeMessage(QueueAll(Copied, b, qs).value, p)
  {
    var b1 := Queue(Copied, b, QueueStep.Accept(p));
    var rest := BatchConforms(Copied, b1, ["n"], RandomMembers, 1, []);
    qs := [QueueStep.Accept(p)] + rest;
    FirstStep(Copied, b, QueueStep.Accept(p), rest);
    var b' := QueueAll(Copied, b, qs).value;
    assert Coming(b1.queue, []) == [p];
    assert p in b'.sent[|b'.sent| - 1].body;
  }

  lemma {:induction false} QueueAllJoin(packing: Packing, b: Batcher, first: seq<QueueStep>, more: seq<QueueStep>)
    requires QueueAll(packing, b, first).Some?
    ensures QueueAll(packing, b, first + more) == QueueAll(packing, QueueAll(packing, b, first).value, more)
    decreases |first|
  {
    if first == [] {
      assert first + more == more;
    } else {
      assert (first + more)[1..] == first[1..] + more;
      QueueAllJoin(packing, Queue(packing, b, first[0]), first[1..], more);
    }
  }

  /** A submitted policy can be brought into a message. */
  lemma BroughtIntoMessage(b: Batcher, p: Policy) returns (qs: seq<QueueStep>)
    requires Conserves(b) && Numbers(Copied, b) && p in Submitted(b)
    ensures NoneSubmits(qs) && QueueAll(Copied, b, qs).Some? && InSomeMessage(QueueAll(Copied, b, qs).value, p)
  {
    qs := Flushed(b);
    SubmittedIsSomewhere(b, p);
    var b' := QueueAll(Copied, b, qs).value;
    if !InSomeMessage(b', p) {
      var rest := SentAlone(b', p);
      QueueAllJoin(Copied, b, qs, rest);
      qs := qs + rest;
    }
  }

  lemma CanBeSent(names: set<string>, steps: seq<Step>, p: Policy) returns (more: seq<Step>)
    requires Run(Copied, names, steps).Some? && p in Run(Copied, names, steps).value.store.submitted
    ensures OnlyTransport(more) && Run(Copied, names, steps + more).Some?
    ensures var s, s' := Run(Copied, names, steps).value, Run(Copied, names, steps + more).value;
            s'.store == s.store && s'.nodes == s.nodes && InSomeMessage(s'.batcher, p)
  {
    RunsKeepInv(Copied, names, steps);
    var qs := BroughtIntoMessage(Run(Copied, names, steps).value.batcher, p);
    RunQueue(Copied, names, steps, qs);
    more := Lift(qs);
  }

  lemma SubmittedIsSomewhere(b: Batcher, p: Policy)
    requires Conserves(b) && Numbers(Copied, b) && p in Submitted(b)
    ensures p in b.pending || p in b.queue || p in Drained(b) || InSomeMessage(b, p)
  {
    if p in b.accepted {
      assert p in Flatten(b.groups) + Drained(b) + b.queue;
      SentExactlyWhen(b.groups, p);
      if p in Flatten(b.groups) {
        var i :| 0 <= i < |b.groups| && p in Pack(Copied, b.groups[i]);
        assert p in b.sent[i].body;
      }
    }
  }

  /** The node has the store's current policy after these further steps. */
  predicate HasCurrent(names: set<string>, steps: seq<Step>, more: seq<Step>, n: string, id: string) {
    && OnlyTransport(more) && Run(Copied, names, steps + more).Some?
    && var s := Run(Copied, names, steps + more).value;
       n in s.nodes && Current(s, id).Some? && SelectPolicy(s.nodes[n].table, id) == Current(s, id)
  }

  /** Liveness, exactly: in every run with copied batches, a node that has a dataset
      indexed can catch up by transport alone if and only if the store's current policy
      was its response, or was submitted. */
  lemma CanCatchUpExactlyWhen(names: set<string>, steps: seq<Step>, n: string, id: string)
    requires Run(Copied, names, steps).Some? && Tracks(Run(Copied, names, steps).value, n, id)
    ensures Current(Run(Copied, names, steps).value, id).Some?
    ensures var s := Run(Copied, names, steps).value;
            var p := Current(s, id).value;
            (exists more :: HasCurrent(names, steps, more, n, id))
            <==> s.nodes[n].tracks[id].base == p || (p.version > 0 && p !in s.store.skipped)
  {
    var s := Run(Copied, names, steps).value;
    ConvergedExactlyWhen(Copied, names, steps, n, id);
    var p := Current(s, id).value;
    RunsKeepInv(Copied, names, steps);
    TableIsNewest(s.store, id);
    if s.nodes[n].tracks[id].base == p {
      assert steps + [] == steps;
      assert HasCurrent(names, steps, [], n, id);
    } else if p.version > 0 && p !in s.store.skipped {
      var more := CatchesUp(names, steps, n, id, p);
    } else if more :| HasCurrent(names, steps, more, n, id) {
      NeverCatchesUp(names, steps, more, n, id, p);
    }
  }

  lemma CatchesUp(names: set<string>, steps: seq<Step>, n: string, id: string, p: Policy) returns (more: seq<Step>)
    requires Run(Copied, names, steps).Some? && Tracks(Run(Copied, names, steps).value, n, id)
    requires Current(Run(Copied, names, steps).value, id) == Some(p) && p in Run(Copied, names, steps).value.store.submitted
    ensures HasCurrent(names, steps, more, n, id)
  {
    var sending := CanBeSent(names, steps, p);
    var s := Run(Copied, names, steps + sending).value;
    var k :| 0 <= k < |s.batcher.sent| && p in s.batcher.sent[k].body;
    RunSnoc(Copied, names, steps + sending, Deliver(n, k));
    more := sending + [Deliver(n, k)];
    assert steps + more == steps + sending + [Deliver(n, k)];
    ConvergedExactlyWhen(Copied, names, steps + more, n, id);
    assert p in Run(Copied, names, steps + more).value.nodes[n].tracks[id].received;
  }

  /** Transport leaves the store, and what a node indexed, as they are. */
  lemma {:induction false} TransportKeeps(names: set<string>, steps: seq<Step>, more: seq<Step>, n: string, id: string)
    requires Run(Copied, names, steps).Some? && Tracks(Run(Copied, names, steps).value, n, id)
    requires OnlyTransport(more) && Run(Copied, names, steps + more).Some?
    ensures var s, s' := Run(Copied, names, steps).value, Run(Copied, names, steps + more).value;
            s'.store == s.store && Tracks(s', n, id) && s'.nodes[n].tracks[id].base == s.nodes[n].tracks[id].base
  {
    if more == [] {
      assert steps + more == steps;
    } else {
      var front := more[..|more| - 1];
      assert (steps + more)[..|steps + more| - 1] == steps + front;
      assert Last(steps + more) == Last(more) && Last(more) in more;
      assert forall step :: step in front ==> step in more;
      TransportKeeps(names, steps, front, n, id);
    }
  }

  lemma NeverCatchesUp(names: set<string>, steps: seq<Step>, more: seq<Step>, n: string, id: string, p: Policy)
    requires Run(Copied, names, steps).Some? && Tracks(Run(Copied, names, steps).value, n, id)
    requires Current(Run(Copied, names, steps).value, id) == Some(p) && HasCurrent(names, steps, more, n, id)
    ensures Run(Copied, names, steps).value.nodes[n].tracks[id].base == p || p in Run(Copied, names, steps).value.store.submitted
  {
    var s' := Run(Copied, names, steps + more).value;
    TransportKeeps(names, steps, more, n, id);
    ConvergedExactlyWhen(Copied, names, steps + more, n, id);
    if p in s'.nodes[n].tracks[id].received {
      ReceivedWasSent(Copied, names, steps + more, n, id, p);
      RunsKeepInv(Copied, names, steps + more);
      InFlightWasSubmitted(Copied, s'.batcher, p);
    }
  }
}
