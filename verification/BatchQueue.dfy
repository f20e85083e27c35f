/** The queue and the batcher, step by step: any number of goroutines wait to submit, the
    batcher receives one policy at a time, and submitters may get in between its
    receives (core/policystore/multicast/manager.go, core/policystore/policy.go). */
module BatchQueue {
  import opened Common
  import opened DatasetIndexer
  import opened Multicast
  import opened Probe

  /** `pending` are the waiting goroutines' policies, `draining` what the batcher has
      received for its current batch; `accepted` and `groups` record what the queue
      took, in order, and what each sent batch was made of. */
  datatype Batcher = Batcher(
    pending: multiset<Policy>, queue: seq<Policy>, draining: Option<seq<Policy>>, recipients: seq<string>,
    sent: seq<Message>, accepted: seq<Policy>, groups: seq<seq<Policy>>)

  const NEW_BATCHER := Batcher(multiset{}, [], None, [], [], [], [])

  datatype QueueStep =
    | Submit(p: Policy)
    | Accept(p: Policy)
    | Begin(members: seq<string>, mode: Mode, sigma: int)
    | Take
    | Send

  predicate CanQueue(b: Batcher, step: QueueStep) {
    match step
    case Submit(p) => true
    case Accept(p) => p in b.pending && |b.queue| < CAPACITY
    case Begin(members, mode, sigma) =>
      b.draining.None? && b.queue != [] && Recipients(members, mode, sigma).Success?
    case Take => b.draining.Some? && b.queue != []
    case Send => b.draining.Some? && b.draining.value != [] && b.queue == []
  }

  function Queue(packing: Packing, b: Batcher, step: QueueStep): Batcher
    requires CanQueue(b, step)
  {
    match step
    case Submit(p) => b.(pending := b.pending + multiset{p})
    case Accept(p) => b.(pending := b.pending - multiset{p}, queue := b.queue + [p], accepted := b.accepted + [p])
    case Begin(members, mode, sigma) => b.(draining := Some([]), recipients := Recipients(members, mode, sigma).value)
    case Take => b.(draining := Some(b.draining.value + [b.queue[0]]), queue := b.queue[1..])
    case Send =>
      b.(draining := None,
         sent := b.sent + [Message(ToInt32(|b.sent| + 1), b.recipients, Pack(packing, b.draining.value))],
         groups := b.groups + [b.draining.value])
  }

  function Drained(b: Batcher): seq<Policy> {
    if b.draining.Some? then b.draining.value else []
  }

  /** The groups, the batch being drained and the queue are the accepted policies in
      their order: nothing accepted is lost, reordered or drained twice. */
  ghost predicate Conserves(b: Batcher) {
    && |b.queue| <= CAPACITY && Flatten(b.groups) + Drained(b) + b.queue == b.accepted
    && (b.draining.Some? ==> Drained(b) + b.queue != [])
  }

  /** The bodies of the messages, in order. */
  function Bodies(sent: seq<Message>): seq<seq<Policy>> {
    seq(|sent|, i requires 0 <= i < |sent| => sent[i].body)
  }

  /** Copied batches carry everything that was drained, in its order. */
  lemma CopiedBodiesAreGroups(b: Batcher)
    requires Numbers(Copied, b)
    ensures Bodies(b.sent) == b.groups
  {
  }

  /** There is one message per group, numbered from one, made of that group. */
  ghost predicate Numbers(packing: Packing, b: Batcher) {
    && |b.sent| == |b.groups|
    && forall i :: 0 <= i < |b.sent| ==>
         b.groups[i] != [] && b.sent[i].body == Pack(packing, b.groups[i]) && b.sent[i].sequenceNumber == ToInt32(i + 1)
  }

  /** Everything ever submitted. */
  function Submitted(b: Batcher): multiset<Policy> {
    multiset(b.accepted) + b.pending
  }

  lemma QueueConserves(packing: Packing, b: Batcher, step: QueueStep)
    requires Conserves(b) && CanQueue(b, step)
    ensures Conserves(Queue(packing, b, step))
  {
    match step
    case Accept(p) =>
      assert Flatten(b.groups) + Drained(b) + (b.queue + [p]) == b.accepted + [p];
    case Take =>
      assert b.queue == [b.queue[0]] + b.queue[1..];
      assert Flatten(b.groups) + (Drained(b) + [b.queue[0]]) + b.queue[1..] == Flatten(b.groups) + Drained(b) + b.queue;
    case Send =>
      FlattenSnoc(b.groups, Drained(b));
      assert Flatten(b.groups) + Drained(b) + [] + b.queue == Flatten(b.groups) + Drained(b) + b.queue;
    case _ =>
  }

  lemma QueueNumbers(packing: Packing, b: Batcher, step: QueueStep)
    requires Numbers(packing, b) && CanQueue(b, step)
    ensures Numbers(packing, Queue(packing, b, step)) && b.sent <= Queue(packing, b, step).sent
  {
  }

  lemma QueueSubmitted(packing: Packing, b: Batcher, step: QueueStep)
    requires CanQueue(b, step)
    ensures Submitted(Queue(packing, b, step))
            == if step.Submit? then Submitted(b) + multiset{step.p} else Submitted(b)
  {
  }

  /** Whatever is queued, being drained or in a message was submitted. */
  lemma InFlightWasSubmitted(packing: Packing, b: Batcher, p: Policy)
    requires Conserves(b) && Numbers(packing, b)
    ensures p in b.queue || p in Drained(b) || p in b.pending ==> p in Submitted(b)
    ensures forall k :: 0 <= k < |b.sent| && p in b.sent[k].body ==> p in Submitted(b)
  {
    forall k | 0 <= k < |b.sent| && p in b.sent[k].body
      ensures p in Submitted(b)
    {
      assert p in b.groups[k];
      FlattenMember(b.groups, p);
      assert p in Flatten(b.groups) + Drained(b) + b.queue;
    }
    assert p in b.queue || p in Drained(b) ==> p in Flatten(b.groups) + Drained(b) + b.queue;
  }

  /** When nothing waits, is queued or being drained, the submitted policies that are in
      some message are: all of them if batches are copied; the last ones of the groups
      if batches are aliased. */
  lemma QuietSentExactlyWhen(packing: Packing, b: Batcher, p: Policy)
    requires Conserves(b) && Numbers(packing, b)
    requires b.pending == multiset{} && b.queue == [] && b.draining.None?
    ensures (exists k :: 0 <= k < |b.sent| && p in b.sent[k].body) <==>
              if packing == Copied then p in Submitted(b)
              else exists i :: 0 <= i < |b.groups| && b.groups[i] != [] && p == Last(b.groups[i])
  {
    SentExactlyWhen(b.groups, p);
    assert Flatten(b.groups) + [] + [] == b.accepted;
    assert Flatten(b.groups) == b.accepted;
    assert (exists k :: 0 <= k < |b.sent| && p in b.sent[k].body)
      <==> (exists i :: 0 <= i < |b.groups| && p in Pack(packing, b.groups[i])) by {
      forall i | 0 <= i < |b.sent|
        ensures b.sent[i].body == Pack(packing, b.groups[i])
      {
      }
    }
  }

  // ---- the steps against the method ----

  function QueueAll(packing: Packing, b: Batcher, steps: seq<QueueStep>): Option<Batcher>
    decreases |steps|
  {
    if steps == [] then Some(b)
    else if CanQueue(b, steps[0]) then QueueAll(packing, Queue(packing, b, steps[0]), steps[1..])
    else None
  }

  function AcceptsThen(ps: seq<Policy>, steps: seq<QueueStep>): seq<QueueStep> {
    if ps == [] then steps else [QueueStep.Accept(ps[0])] + AcceptsThen(ps[1..], steps)
  }

  /** The steps of the batcher and of submitters that get in, without new submitters. */
  predicate NoneSubmits(steps: seq<QueueStep>) {
    match steps
    case _ => forall q :: q in steps ==> !q.Submit?
  }

  lemma {:induction false} AcceptsSubmitNone(ps: seq<Policy>, steps: seq<QueueStep>)
    requires NoneSubmits(steps)
    ensures NoneSubmits(AcceptsThen(ps, steps))
  {
    if ps != [] {
      AcceptsSubmitNone(ps[1..], steps);
    }
  }

  lemma ReceiveSubmitsNone(got: seq<Policy>, steps: seq<QueueStep>)
    requires NoneSubmits(steps)
    ensures NoneSubmits([QueueStep.Take] + AcceptsThen(got, steps))
  {
    AcceptsSubmitNone(got, steps);
  }

  function AfterAccepts(b: Batcher, got: seq<Policy>): Batcher {
    b.(pending := b.pending - multiset(got), queue := b.queue + got, accepted := b.accepted + got)
  }

  /** The batcher after the drain, in the terms of Multicast's contract. */
  function AfterDrain(packing: Packing, b: Batcher, coming: seq<Policy>, admitted: seq<Policy>): Batcher
    requires b.draining.Some?
  {
    var group := b.draining.value + coming;
    b.(pending := b.pending - multiset(admitted), draining := None, queue := [],
       sent := b.sent + [Message(ToInt32(|b.sent| + 1), b.recipients, Pack(packing, group))],
       accepted := b.accepted + admitted, groups := b.groups + [group])
  }

  lemma FirstStep(packing: Packing, b: Batcher, step: QueueStep, steps: seq<QueueStep>)
    requires CanQueue(b, step)
    ensures QueueAll(packing, b, [step] + steps) == QueueAll(packing, Queue(packing, b, step), steps)
  {
    assert ([step] + steps)[1..] == steps;
  }

  lemma AcceptedFirst(packing: Packing, b: Batcher, got: seq<Policy>)
    requires got != [] && |b.queue| < CAPACITY && multiset(got) <= b.pending
    ensures var b' := AfterAccepts(b, [got[0]]);
            CanQueue(b, QueueStep.Accept(got[0])) && Queue(packing, b, QueueStep.Accept(got[0])) == b'
            && multiset(got[1..]) <= b'.pending && AfterAccepts(b', got[1..]) == AfterAccepts(b, got)
  {
    assert got == [got[0]] + got[1..];
    assert got[0] in multiset(got);
    assert b.queue + [got[0]] + got[1..] == b.queue + got;
    assert b.accepted + [got[0]] + got[1..] == b.accepted + got;
  }

  lemma {:induction false} AcceptAll(packing: Packing, b: Batcher, got: seq<Policy>, steps: seq<QueueStep>)
    requires |b.queue| + |got| <= CAPACITY && multiset(got) <= b.pending
    ensures QueueAll(packing, b, AcceptsThen(got, steps)) == QueueAll(packing, AfterAccepts(b, got), steps)
    decreases |got|
  {
    if got == [] {
      assert AfterAccepts(b, got) == b;
    } else {
      var step := QueueStep.Accept(got[0]);
      AcceptedFirst(packing, b, got);
      FirstStep(packing, b, step, AcceptsThen(got[1..], steps));
      AcceptAll(packing, AfterAccepts(b, [got[0]]), got[1..], steps);
    }
  }

  /** The batcher after a receive and the submitters that got in after it. */
  function AfterReceive(b: Batcher, got: seq<Policy>): Batcher
    requires b.draining.Some? && b.queue != []
  {
    AfterAccepts(b.(draining := Some(b.draining.value + [b.queue[0]]), queue := b.queue[1..]), got)
  }

  lemma AfterReceiveAndRest(packing: Packing, b: Batcher, got: seq<Policy>, coming: seq<Policy>, admitted: seq<Policy>, later: seq<Policy>)
    requires b.draining.Some? && b.queue != [] && admitted == got + later
    ensures AfterDrain(packing, AfterReceive(b, got), coming, later)
            == AfterDrain(packing, b, [b.queue[0]] + coming, admitted)
  {
    assert b.draining.value + [b.queue[0]] + coming == b.draining.value + ([b.queue[0]] + coming);
    assert b.accepted + got + later == b.accepted + admitted;
    assert b.pending - multiset(got) - multiset(later) == b.pending - multiset(admitted);
  }

  lemma ReceiveSteps(packing: Packing, b: Batcher, got: seq<Policy>, steps: seq<QueueStep>)
    requires b.draining.Some? && b.queue != [] && |b.queue| - 1 + |got| <= CAPACITY && multiset(got) <= b.pending
    ensures QueueAll(packing, b, [QueueStep.Take] + AcceptsThen(got, steps)) == QueueAll(packing, AfterReceive(b, got), steps)
  {
    FirstStep(packing, b, QueueStep.Take, AcceptsThen(got, steps));
    AcceptAll(packing, Queue(packing, b, QueueStep.Take), got, steps);
  }

  lemma ReceiveThenDrain(packing: Packing, b: Batcher, got: seq<Policy>, steps: seq<QueueStep>, coming: seq<Policy>, later: seq<Policy>)
    requires b.draining.Some? && b.queue != [] && |b.queue| - 1 + |got| <= CAPACITY && multiset(got) <= b.pending
    requires QueueAll(packing, AfterReceive(b, got), steps) == Some(AfterDrain(packing, AfterReceive(b, got), coming, later))
    ensures QueueAll(packing, b, [QueueStep.Take] + AcceptsThen(got, steps))
            == Some(AfterDrain(packing, b, [b.queue[0]] + coming, got + later))
  {
    ReceiveSteps(packing, b, got, steps);
    AfterReceiveAndRest(packing, b, got, coming, got + later, later);
  }

  /** Whichever submitters race with the drain, the batcher has steps that end where
      Multicast's contract says that the method ends. */
  lemma {:induction false} DrainConforms(packing: Packing, b: Batcher, arrivals: seq<seq<Policy>>) returns (steps: seq<QueueStep>)
    requires b.draining.Some? && |b.queue| <= CAPACITY && b.draining.value + b.queue != []
    requires multiset(Admitted(|b.queue|, arrivals)) <= b.pending
    ensures QueueAll(packing, b, steps) == Some(AfterDrain(packing, b, Coming(b.queue, arrivals), Admitted(|b.queue|, arrivals)))
    ensures NoneSubmits(steps)
    decreases |arrivals|, |b.queue|
  {
    if b.queue == [] {
      steps := [QueueStep.Send];
      SendIsAfterDrain(packing, b);
    } else {
      var got := Arriving(|b.queue|, arrivals);
      var queue := b.queue[1..] + got;
      ComingAfterReceive(b.queue, arrivals, got);
      PendingParts(got, Admitted(|queue|, Tail(arrivals)), b.pending);
      var rest := DrainConforms(packing, AfterReceive(b, got), Tail(arrivals));
      steps := [QueueStep.Take] + AcceptsThen(got, rest);
      ReceiveSubmitsNone(got, rest);
      ReceiveThenDrain(packing, b, got, rest, Coming(queue, Tail(arrivals)), Admitted(|queue|, Tail(arrivals)));
    }
  }

  lemma SendIsAfterDrain(packing: Packing, b: Batcher)
    requires b.draining.Some? && b.draining.value != [] && b.queue == []
    ensures QueueAll(packing, b, [QueueStep.Send]) == Some(AfterDrain(packing, b, [], []))
  {
    assert [QueueStep.Send] == [QueueStep.Send] + [];
    FirstStep(packing, b, QueueStep.Send, []);
    assert b.draining.value + [] == b.draining.value && b.accepted + [] == b.accepted;
    assert b.pending - multiset([]) == b.pending;
  }

  lemma PendingParts(got: seq<Policy>, later: seq<Policy>, pending: multiset<Policy>)
    requires multiset(got + later) <= pending
    ensures multiset(got) <= pending && multiset(later) <= pending - multiset(got)
  {
    assert multiset(got + later) == multiset(got) + multiset(later);
  }

  /** A whole batch: the batcher that is idle over a queue that is not empty chooses its
      recipients, drains, and sends what Multicast's contract says to them. */
  lemma BatchConforms(packing: Packing, b: Batcher, members: seq<string>, mode: Mode, sigma: int, arrivals: seq<seq<Policy>>)
    returns (steps: seq<QueueStep>)
    requires b.draining.None? && 0 < |b.queue| <= CAPACITY && Recipients(members, mode, sigma).Success?
    requires multiset(Admitted(|b.queue|, arrivals)) <= b.pending
    ensures QueueAll(packing, b, steps).Some? && NoneSubmits(steps)
    ensures var b', group, admitted := QueueAll(packing, b, steps).value, Coming(b.queue, arrivals), Admitted(|b.queue|, arrivals);
            && b'.queue == [] && b'.draining == None
            && b'.groups == b.groups + [group]
            && b'.sent == b.sent + [Message(ToInt32(|b.sent| + 1), Recipients(members, mode, sigma).value, Pack(packing, group))]
            && b'.accepted == b.accepted + admitted && b'.pending == b.pending - multiset(admitted)
  {
    steps := BatchSteps(packing, b, members, mode, sigma, arrivals);
    assert [] + Coming(b.queue, arrivals) == Coming(b.queue, arrivals);
  }

  lemma BatchSteps(packing: Packing, b: Batcher, members: seq<string>, mode: Mode, sigma: int, arrivals: seq<seq<Policy>>)
    returns (steps: seq<QueueStep>)
    requires b.draining.None? && 0 < |b.queue| <= CAPACITY && Recipients(members, mode, sigma).Success?
    requires multiset(Admitted(|b.queue|, arrivals)) <= b.pending
    ensures NoneSubmits(steps)
    ensures var b1 := b.(draining := Some([]), recipients := Recipients(members, mode, sigma).value);
            QueueAll(packing, b, steps) == Some(AfterDrain(packing, b1, Coming(b.queue, arrivals), Admitted(|b.queue|, arrivals)))
  {
    var begin := QueueStep.Begin(members, mode, sigma);
    var b1 := Queue(packing, b, begin);
    assert b1.draining.value + b1.queue == b.queue;
    var rest := DrainConforms(packing, b1, arrivals);
    steps := [begin] + rest;
    FirstStep(packing, b, begin, rest);
  }

  // ---- and conversely ----

  /** Receives and submitters that get in, and the message at the end. */
  predicate IsDrain(steps: seq<QueueStep>) {
    steps != [] && Last(steps).Send? && forall i :: 0 <= i < |steps| - 1 ==> steps[i].Accept? || steps[i].Take?
  }

  lemma AcceptsJoin(b: Batcher, first: seq<Policy>, more: seq<Policy>)
    ensures AfterAccepts(AfterAccepts(b, first), more) == AfterAccepts(b, first + more)
  {
    assert b.queue + first + more == b.queue + (first + more);
    assert b.accepted + first + more == b.accepted + (first + more);
    assert b.pending - multiset(first) - multiset(more) == b.pending - multiset(first + more);
  }

  lemma ArrivingFits(n: nat, got: seq<Policy>, more: seq<seq<Policy>>)
    requires 0 < n <= CAPACITY && n - 1 + |got| <= CAPACITY
    ensures Arriving(n, [got] + more) == got && Tail([got] + more) == more
  {
  }

  /** In every drain, however receives and submitters interleave, the batcher ends where
      Multicast's contract says that the method ends for some arrivals, after those that
      came in before the first receive. */
  lemma {:induction false} DrainWasAdmitted(packing: Packing, b: Batcher, steps: seq<QueueStep>)
    returns (first: seq<Policy>, arrivals: seq<seq<Policy>>)
    requires b.draining.Some? && |b.queue| <= CAPACITY && IsDrain(steps) && QueueAll(packing, b, steps).Some?
    ensures |b.queue + first| <= CAPACITY
    ensures QueueAll(packing, b, steps)
            == Some(AfterDrain(packing, AfterAccepts(b, first), Coming(b.queue + first, arrivals), Admitted(|b.queue + first|, arrivals)))
    decreases |steps|
  {
    var b1 := Queue(packing, b, steps[0]);
    if steps[0].Send? {
      first, arrivals := [], [];
      assert steps == [QueueStep.Send];
      SendIsAfterDrain(packing, b);
      AcceptsNone(b);
    } else {
      assert IsDrain(steps[1..]);
      var later, more := DrainWasAdmitted(packing, b1, steps[1..]);
      if steps[0].Accept? {
        first, arrivals := [steps[0].p] + later, more;
        assert b1 == AfterAccepts(b, [steps[0].p]);
        AcceptsJoin(b, [steps[0].p], later);
        assert b1.queue + later == b.queue + first;
      } else {
        first, arrivals := [], [later] + more;
        DrainAfterTake(packing, b, later, more);
        AcceptsNone(b);
        assert AfterAccepts(b1, later) == AfterReceive(b, later);
      }
    }
  }

  lemma DrainAfterTake(packing: Packing, b: Batcher, got: seq<Policy>, more: seq<seq<Policy>>)
    requires b.draining.Some? && 0 < |b.queue| <= CAPACITY && |b.queue[1..] + got| <= CAPACITY
    ensures var queue := b.queue[1..] + got;
            AfterDrain(packing, AfterReceive(b, got), Coming(queue, more), Admitted(|queue|, more))
            == AfterDrain(packing, b, Coming(b.queue, [got] + more), Admitted(|b.queue|, [got] + more))
  {
    var queue := b.queue[1..] + got;
    ArrivingFits(|b.queue|, got, more);
    ComingAfterReceive(b.queue, [got] + more, got);
    var coming, later, admitted := Coming(queue, more), Admitted(|queue|, more), Admitted(|b.queue|, [got] + more);
    AfterReceiveAndRest(packing, b, got, coming, admitted, later);
  }

  lemma AcceptsNone(b: Batcher)
    ensures AfterAccepts(b, []) == b && b.queue + [] == b.queue
  {
    assert b.accepted + [] == b.accepted && b.pending - multiset([]) == b.pending;
  }
}
