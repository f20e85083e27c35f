/** The multicast manager: a bounded queue of policies that is drained into numbered
    batches for a few members (core/policystore/multicast/manager.go, membership.go). */
module Multicast {
  import opened Common
  import opened DatasetIndexer
  import opened Probe
  import opened ProbeTermination

  const CAPACITY := 100

  datatype Message = Message(sequenceNumber: int, recipients: seq<string>, body: seq<Policy>)

  // ---- recipients ----

  function RecipientCount(members: nat, sigma: int): nat {
    if members > 4 then 1 else if sigma < 0 then 1 else Min(sigma, members)
  }

  function Recipients(members: seq<string>, mode: Mode, sigma: int): Result<seq<string>> {
    match mode
    case LruMembers => Success([])
    case RandomMembers =>
      if members == [] then Failure(NoMembers) else Success(members[..Min(RecipientCount(|members|, sigma), |members|)])
    case OtherMode => Failure(UnknownMode)
  }

  /** A permutation of the first n numbers for every n, as far as its length matters. */
  type Permutations = nat -> seq<nat>

  ghost predicate Permutes(perms: Permutations) {
    forall n: nat :: |perms(n)| == n
  }

  /** `perms` are the random permutations the source draws; it indexes with the position,
      not with the drawn value. */
  method RandomRecipients(members: seq<string>, sigma: int, perms: Permutations) returns (r: Result<seq<string>>)
    requires Permutes(perms)
    ensures r == Recipients(members, RandomMembers, sigma)
  {
    if members == [] {
      return Failure(NoMembers);
    }
    var count := sigma;
    if count < 0 {
      count := 1;
    }
    if count > |members| {
      count := |members|;
    }
    if |members| > 4 {
      count := 1;
    }
    var perm := perms(count);
    var result := [];
    for i := 0 to |perm|
      invariant result == members[..i]
    {
      result := result + [members[i]];
    }
    r := Success(result);
  }

  /** Recipients are a prefix of the members: sigma many in a network of one to four, or
      all if there are fewer; one if sigma is negative or the network has more than four. */
  lemma RecipientsArePrefix(members: seq<string>, sigma: int)
    requires members != []
    ensures Recipients(members, RandomMembers, sigma).Success?
    ensures var r := Recipients(members, RandomMembers, sigma).value;
            && IsPrefix(r, members)
            && (|members| > 4 || sigma < 0 ==> |r| == 1)
            && (|members| <= 4 && 0 <= sigma <= |members| ==> |r| == sigma)
            && (|members| <= 4 && sigma > |members| ==> r == members)
  {
  }

  /** In the other modes, and without members. */
  lemma RecipientsOtherwise(members: seq<string>, mode: Mode, sigma: int)
    ensures Recipients(members, mode, sigma).Failure? <==> mode == OtherMode || (mode == RandomMembers && members == [])
    ensures mode == LruMembers ==> Recipients(members, mode, sigma) == Success([])
  {
  }

  /** A batch is sent to nobody exactly in the LRU mode, or when a network of at most
      four members is served with sigma zero. */
  lemma NobodyReceivesExactlyWhen(members: seq<string>, mode: Mode, sigma: int)
    ensures Recipients(members, mode, sigma) == Success([])
            <==> mode == LruMembers || (mode == RandomMembers && 1 <= |members| <= 4 && sigma == 0)
  {
  }

  // ---- packing ----

  /** The loop variable of the packing loop: one cell for all iterations. */
  class PolicyCell {
    var policy: Policy

    constructor (policy: Policy)
      ensures this.policy == policy
    {
      this.policy := policy;
    }
  }

  /** What is marshalled: the policies the chunks point to at that time. */
  function Marshal(chunks: seq<PolicyCell>): seq<Policy>
    reads chunks
  {
    if chunks == [] then [] else Marshal(chunks[..|chunks| - 1]) + [Last(chunks).policy]
  }

  datatype Packing = Copied | Aliased

  /** A batch made of the drained policies: each one, as intended, or each one replaced
      by the last, as the shared loop variable has it. */
  function Pack(packing: Packing, drained: seq<Policy>): seq<Policy> {
    if packing == Copied || drained == [] then drained else Repeat(Last(drained), |drained|)
  }

  lemma {:induction false} MarshalShared(chunks: seq<PolicyCell>, cell: PolicyCell)
    requires forall c :: c in chunks ==> c == cell
    ensures Marshal(chunks) == Repeat(cell.policy, |chunks|)
  {
    if chunks != [] {
      var front := chunks[..|chunks| - 1];
      assert forall c :: c in front ==> c in chunks;
      MarshalShared(front, cell);
      assert Last(chunks) in chunks;
      assert Repeat(cell.policy, |chunks|) == Repeat(cell.policy, |front|) + [cell.policy];
    }
  }

  /** The batch is the drained queue exactly when all drained policies are the same. */
  lemma AliasedIsCopiedExactlyWhen(drained: seq<Policy>)
    ensures Pack(Aliased, drained) == Pack(Copied, drained) <==> forall p :: p in drained ==> p == Last(drained)
  {
    if Pack(Aliased, drained) == drained {
      forall p | p in drained
        ensures p == Last(drained)
      {
        var i :| 0 <= i < |drained| && drained[i] == p;
        assert Pack(Aliased, drained)[i] == Last(drained);
      }
    } else if forall p :: p in drained ==> p == Last(drained) {
      forall i | 0 <= i < |drained|
        ensures Pack(Aliased, drained)[i] == drained[i]
      {
        assert drained[i] in drained;
      }
    }
  }

  /** A drained policy is in some sent batch: always when copied; exactly when it is the
      last of some drained group when aliased. */
  lemma SentExactlyWhen(groups: seq<seq<Policy>>, p: Policy)
    ensures (exists i :: 0 <= i < |groups| && p in Pack(Copied, groups[i])) <==> p in Flatten(groups)
    ensures (exists i :: 0 <= i < |groups| && p in Pack(Aliased, groups[i]))
            <==> (exists i :: 0 <= i < |groups| && groups[i] != [] && p == Last(groups[i]))
  {
    FlattenMember(groups, p);
    forall i | 0 <= i < |groups|
      ensures p in Pack(Copied, groups[i]) <==> p in groups[i]
      ensures p in Pack(Aliased, groups[i]) <==> groups[i] != [] && p == Last(groups[i])
    {
      if groups[i] != [] && p == Last(groups[i]) {
        assert Pack(Aliased, groups[i])[0] == p;
      }
    }
  }

  /** Two policies drained together: the first one is never sent. */
  lemma AliasedLosesPolicies()
    ensures var p, q := Policy("a", true, 1), Policy("b", true, 1);
            Pack(Aliased, [p, q]) == [q, q] && p !in Pack(Aliased, [p, q])
  {
    var p, q := Policy("a", true, 1), Policy("b", true, 1);
    assert Pack(Aliased, [p, q]) == Repeat(q, 2) == [q, q];
  }

  // ---- the manager ----

  function Tail<T>(s: seq<T>): seq<T> {
    if s == [] then [] else s[1..]
  }

  /** The submitters that find room after a receive from a queue of n policies. */
  function Arriving(n: nat, arrivals: seq<seq<Policy>>): seq<Policy>
    requires 0 < n <= CAPACITY
  {
    if arrivals == [] then [] else arrivals[0][..Min(|arrivals[0]|, CAPACITY - (n - 1))]
  }

  /** What enters a queue of n policies while it is drained: after the k-th receive those
      of arrivals[k] that find room, until the queue is found empty. */
  function Admitted(n: nat, arrivals: seq<seq<Policy>>): seq<Policy>
    requires n <= CAPACITY
    decreases |arrivals|
  {
    if n == 0 || arrivals == [] then []
    else
      var got := Arriving(n, arrivals);
      got + Admitted(n - 1 + |got|, arrivals[1..])
  }

  /** The queue and all that will enter it before it is empty. */
  function Coming(queue: seq<Policy>, arrivals: seq<seq<Policy>>): seq<Policy>
    requires |queue| <= CAPACITY
  {
    queue + Admitted(|queue|, arrivals)
  }

  /** What one receive does to that: got are the submitters that find room after it. */
  lemma ComingAfterReceive(queue: seq<Policy>, arrivals: seq<seq<Policy>>, got: seq<Policy>)
    requires 0 < |queue| <= CAPACITY
    requires got == Arriving(|queue|, arrivals)
    ensures Admitted(|queue|, arrivals) == got + Admitted(|queue[1..] + got|, Tail(arrivals))
    ensures [queue[0]] + Coming(queue[1..] + got, Tail(arrivals)) == Coming(queue, arrivals)
  {
    var later := Admitted(|queue[1..] + got|, Tail(arrivals));
    assert Admitted(|queue|, arrivals) == got + later;
    assert [queue[0]] + (queue[1..] + got + later) == queue + (got + later);
  }

  lemma Regroup(a: seq<Policy>, b: seq<Policy>, c: seq<Policy>)
    ensures a + b + c == a + (b + c)
  {
  }

  class MulticastManager {
    var policyChan: seq<Policy>
    var config: MulticastConfig
    var sequenceNumber: int
    const prober: ProbeManager
    /** Every message handed to the network. */
    var sent: seq<Message>
    /** The policies the queue accepted, in order, and the groups drained from it. */
    ghost var accepted: seq<Policy>
    ghost var groups: seq<seq<Policy>>

    /** Conservation: the drained groups followed by the queue are the accepted policies
        in their order; there is one message per group, numbered from one. And tau, which
        nothing sets but a finished session, is zero. */
    ghost predicate Valid()
      reads this
    {
      && |policyChan| <= CAPACITY
      && Flatten(groups) + policyChan == accepted
      && |sent| == |groups| && sequenceNumber == ToInt32(|groups|) && config.tau == 0
      && (forall i :: 0 <= i < |sent| ==>
            groups[i] != [] && sent[i].body == Pack(Aliased, groups[i]) && sent[i].sequenceNumber == ToInt32(i + 1))
    }

    constructor (phi: real, sigma: int, prober: ProbeManager)
      ensures Valid() && accepted == [] && groups == [] && this.prober == prober
      ensures config == MulticastConfig(sigma, 0, phi)
    {
      policyChan, sent, sequenceNumber := [], [], 0;
      config := MulticastConfig(sigma, 0, phi);
      accepted, groups := [], [];
      this.prober := prober;
    }

    /** A submitter gets its policy into the queue, or keeps waiting while it is full. */
    method Submit(p: Policy) returns (done: bool)
      requires Valid()
      modifies this
      ensures Valid()
      ensures done <==> |old(policyChan)| < CAPACITY
      ensures policyChan == (if done then old(policyChan) + [p] else old(policyChan))
      ensures accepted == (if done then old(accepted) + [p] else old(accepted))
      ensures sent == old(sent) && groups == old(groups) && config == old(config)
    {
      done := |policyChan| < CAPACITY;
      if done {
        policyChan := policyChan + [p];
        accepted := accepted + [p];
      }
    }

    /** Drains the queue into one message, while submitters race with the drain. */
    method Multicast(members: Option<seq<string>>, mode: Mode, perms: Permutations, arrivals: seq<seq<Policy>>) returns (r: Outcome)
      requires Valid()
      requires Permutes(perms)
      modifies this
      ensures Valid() && config == old(config)
      ensures r == (if members.None? then Err(NilArgument)
                    else if old(policyChan) == [] then Ok
                    else match Recipients(members.value, mode, config.sigma)
                         case Failure(e) => Err(e)
                         case Success(_) => Ok)
      ensures r != Ok || old(policyChan) == [] ==>
                && policyChan == old(policyChan) && sent == old(sent) && groups == old(groups)
                && accepted == old(accepted) && sequenceNumber == old(sequenceNumber)
      ensures r == Ok && old(policyChan) != [] ==>
                && |groups| == |old(groups)| + 1 && groups[..|old(groups)|] == old(groups)
                && |sent| == |old(sent)| + 1 && sent[..|old(sent)|] == old(sent)
                && Last(sent).recipients == Recipients(members.value, mode, config.sigma).value
                && policyChan == []
                && Last(groups) == Coming(old(policyChan), arrivals)
                && accepted == old(accepted) + Admitted(|old(policyChan)|, arrivals)
    {
      if members.None? {
        return Err(NilArgument);
      }
      if |policyChan| == 0 {
        return Ok;
      }
      var recipients := GetMessageRecipients(members.value, mode, perms);
      if recipients.Failure? {
        return Err(recipients.error);
      }
      var chunks, drained := Drain(arrivals);
      assert Flatten(groups) + drained == Flatten(groups) + old(policyChan) + Admitted(|old(policyChan)|, arrivals);
      Send(recipients.value, Marshal(chunks), drained);
      r := Ok;
    }

    /** Numbers the batch and hands it to the network. */
    method Send(recipients: seq<string>, body: seq<Policy>, ghost drained: seq<Policy>)
      requires policyChan == [] && Flatten(groups) + drained == accepted
      requires |sent| == |groups| && sequenceNumber == ToInt32(|groups|) && config.tau == 0
      requires forall i :: 0 <= i < |sent| ==>
                 groups[i] != [] && sent[i].body == Pack(Aliased, groups[i]) && sent[i].sequenceNumber == ToInt32(i + 1)
      requires drained != [] && body == Pack(Aliased, drained)
      modifies this`sequenceNumber, this`groups, this`sent
      ensures Valid()
      ensures groups == old(groups) + [drained]
      ensures sent == old(sent) + [Message(ToInt32(|groups|), recipients, body)]
    {
      sequenceNumber := ToInt32(sequenceNumber + 1);
      IncrementWraps(|groups|);
      FlattenSnoc(groups, drained);
      assert Flatten(groups) + drained + [] == accepted;
      groups := groups + [drained];
      sent := sent + [Message(sequenceNumber, recipients, body)];
    }

    /** The packing loop: receive until the queue is found empty after a receive. Every
        chunk points to the one loop variable. */
    method Drain(arrivals: seq<seq<Policy>>) returns (chunks: seq<PolicyCell>, ghost drained: seq<Policy>)
      requires 0 < |policyChan| <= CAPACITY
      modifies this`policyChan, this`accepted
      ensures policyChan == [] && drained == Coming(old(policyChan), arrivals)
      ensures Marshal(chunks) == Pack(Aliased, drained)
      ensures accepted == old(accepted) + Admitted(|old(policyChan)|, arrivals)
    {
      var cell := new PolicyCell(policyChan[0]);
      chunks, drained := [], [];
      var todo := arrivals;
      while true
        invariant 0 < |policyChan| <= CAPACITY
        invariant |chunks| == |drained| && (forall c :: c in chunks ==> c == cell)
        invariant drained != [] ==> cell.policy == Last(drained)
        invariant drained + Coming(policyChan, todo) == Coming(old(policyChan), arrivals)
        invariant accepted + Admitted(|policyChan|, todo) == old(accepted) + Admitted(|old(policyChan)|, arrivals)
        decreases |todo|, |policyChan|
      {
        cell.policy := Receive(todo);
        chunks := chunks + [cell];
        todo := Tail(todo);
        Regroup(drained, [cell.policy], Coming(policyChan, todo));
        drained := drained + [cell.policy];
        if |policyChan| == 0 {
          break;
        }
      }
      assert Coming([], todo) == [] && drained + [] == drained && accepted + [] == accepted;
      MarshalShared(chunks, cell);
    }

    /** One receive, and after it the first of the waiting submitters that find room. */
    method Receive(todo: seq<seq<Policy>>) returns (p: Policy)
      requires 0 < |policyChan| <= CAPACITY
      modifies this`policyChan, this`accepted
      ensures |policyChan| <= CAPACITY && (todo == [] ==> |policyChan| < |old(policyChan)|)
      ensures p == old(policyChan)[0] && [p] + Coming(policyChan, Tail(todo)) == Coming(old(policyChan), todo)
      ensures accepted + Admitted(|policyChan|, Tail(todo)) == old(accepted) + Admitted(|old(policyChan)|, todo)
    {
      p := policyChan[0];
      policyChan := policyChan[1..];
      var got := [];
      if todo != [] {
        got := todo[0][..Min(|todo[0]|, CAPACITY - |policyChan|)];
      }
      policyChan := policyChan + got;
      accepted := accepted + got;
      ComingAfterReceive(old(policyChan), todo, got);
      Regroup(old(accepted), got, Admitted(|policyChan|, Tail(todo)));
    }

    method GetMessageRecipients(members: seq<string>, mode: Mode, perms: Permutations) returns (r: Result<seq<string>>)
      requires Permutes(perms)
      ensures r == Recipients(members, mode, config.sigma)
    {
      match mode {
        case LruMembers => r := Success([]);
        case RandomMembers => r := RandomRecipients(members, config.sigma, perms);
        case OtherMode => r := Failure(UnknownMode);
      }
    }

    /** One tick of the batcher's timer: nothing is multicast while a session probes. */
    method Tick(members: seq<string>, perms: Permutations, arrivals: seq<seq<Policy>>) returns (r: Outcome)
      requires Valid()
      requires Permutes(perms)
      modifies this
      ensures Valid() && config == old(config)
      ensures prober.isProbing || old(policyChan) == [] || members == [] ==>
                policyChan == old(policyChan) && accepted == old(accepted) && sent == old(sent) && groups == old(groups)
      ensures !prober.isProbing && old(policyChan) != [] && members != [] ==>
                && policyChan == [] && accepted == old(accepted) + Admitted(|old(policyChan)|, arrivals)
                && groups == old(groups) + [Coming(old(policyChan), arrivals)]
                && |sent| == |old(sent)| + 1 && sent[..|old(sent)|] == old(sent)
                && Last(sent).recipients == Recipients(members, RandomMembers, config.sigma).value
    {
      if prober.isProbing {
        return Ok;
      }
      r := Multicast(Some(members), RandomMembers, perms, arrivals);
    }

    /** Only a finished session replaces the configuration. */
    method ProbeNetwork(mode: Mode, members: nat, sessionId: nat, env: seq<RoundEvent>)
      returns (r: SessionResult, ghost rs: seq<AckRound>)
      requires Valid()
      modifies this, prober
      ensures Valid() && policyChan == old(policyChan) && sent == old(sent) && accepted == old(accepted)
      ensures config == if r.Finished? then r.config else old(config)
      ensures prober.isProbing <==> r.Running?
      ensures prober.config == SessionConfig(old(config.phi), sessionId, members - 1)
      ensures SessionTrace(LimitsOf(prober.config), Params(old(config.sigma), old(config.tau)), rs)
      ensures SessionOutcome(prober.config, LimitsOf(prober.config), mode, env, rs, r)
    {
      ghost var p := Params(config.sigma, config.tau);
      r, rs := prober.ProbeNetwork(config, mode, members, sessionId, env);
      if r.Finished? {
        FinishesWithTauZero(prober.config, p, mode, env, rs, r);
        config := r.config;
      }
    }
  }

  /** The number of a message is the number of batches up to it exactly until an int32
      overflows. */
  lemma SequenceNumberExactlyWhen(n: nat)
    ensures ToInt32(n) == n <==> n < 0x8000_0000
  {
  }

  lemma IncrementWraps(n: int)
    ensures ToInt32(ToInt32(n) + 1) == ToInt32(n + 1)
  {
  }

  predicate Distinct(s: seq<Policy>) {
    forall i, j :: 0 <= i < j < |s| ==> s[i] != s[j]
  }

  /** If the accepted policies are all different, none is drained twice and none that
      is still waiting was drained. */
  lemma {:induction false} NothingSentTwice(groups: seq<seq<Policy>>, waiting: seq<Policy>)
    requires Distinct(Flatten(groups) + waiting)
    ensures forall i, j :: 0 <= i < j < |groups| ==> Elements(groups[i]) !! Elements(groups[j])
    ensures forall i :: 0 <= i < |groups| ==> Distinct(groups[i]) && Elements(groups[i]) !! Elements(waiting)
  {
    if groups != [] {
      var front, later := groups[..|groups| - 1], Last(groups) + waiting;
      assert Flatten(groups) + waiting == Flatten(front) + later;
      NothingSentTwice(front, later);
      DistinctParts(Flatten(front), later);
      DistinctParts(Last(groups), waiting);
      forall i | 0 <= i < |front|
        ensures Distinct(groups[i]) && Elements(groups[i]) !! Elements(Last(groups)) && Elements(groups[i]) !! Elements(waiting)
      {
        assert groups[i] == front[i];
        assert Elements(later) == Elements(Last(groups)) + Elements(waiting);
      }
    }
  }

  lemma DistinctParts(a: seq<Policy>, b: seq<Policy>)
    requires Distinct(a + b)
    ensures Distinct(a) && Distinct(b) && Elements(a) !! Elements(b)
  {
    assert forall i :: 0 <= i < |a| ==> (a + b)[i] == a[i];
    assert forall j :: 0 <= j < |b| ==> (a + b)[|a| + j] == b[j];
  }

  lemma {:induction false} CountedOnce(s: seq<Policy>)
    requires forall p :: multiset(s)[p] <= 1
    ensures Distinct(s)
  {
    if s != [] {
      var front := s[..|s| - 1];
      assert s == front + [Last(s)];
      assert forall p :: multiset(s)[p] == multiset(front)[p] + multiset{Last(s)}[p];
      CountedOnce(front);
      assert multiset(s)[Last(s)] == multiset(front)[Last(s)] + 1;
      assert Last(s) !in multiset(front);
    }
  }
}
