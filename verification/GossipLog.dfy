/** The observer of gossip messages: a bounded first-in first-out queue of messages that
    is written to a log file each time a queue's worth of them has arrived
    (core/gossipobserver/observer.go). Messages are named by numbers. */
module GossipLog {
  import opened Common

  datatype Log = Log(queue: seq<int>, cursor: nat, logged: seq<seq<int>>)

  const EMPTY := Log([], 0, [])

  /** Inserting into a full queue evicts its least recent element. */
  function Pushed(queue: seq<int>, capacity: nat, id: int): seq<int>
    requires capacity > 0
  {
    if |queue| >= capacity then queue[1..] + [id] else queue + [id]
  }

  function Add(capacity: nat, l: Log, id: int, writeOk: bool): Log
    requires capacity > 0
  {
    var queue := Pushed(l.queue, capacity, id);
    if l.cursor + 1 == capacity && writeOk then Log(queue, 0, l.logged + [queue])
    else Log(queue, l.cursor + 1, l.logged)
  }

  class GossipObserver {
    const capacity: nat
    var queue: seq<int>
    var cursor: nat
    var logged: seq<seq<int>>

    constructor (capacity: nat)
      ensures this.capacity == capacity && State() == EMPTY
    {
      this.capacity := capacity;
      queue, cursor, logged := [], 0, [];
    }

    function State(): Log
      reads this
    {
      Log(queue, cursor, logged)
    }

    /** `id` is None for a nil message; `writeOk` tells whether a log write succeeds. */
    method AddGossip(id: Option<int>, writeOk: bool) returns (r: Outcome)
      requires capacity > 0
      modifies this
      ensures id.None? ==> State() == old(State())
      ensures id.Some? ==> State() == Add(capacity, old(State()), id.value, writeOk)
      ensures r == (if id.None? then Err(NilArgument)
                    else if old(cursor) + 1 == capacity && !writeOk then Err(LogFailure) else Ok)
    {
      if id.None? {
        return Err(NilArgument);
      }
      queue := Pushed(queue, capacity, id.value);
      cursor := cursor + 1;
      if cursor == capacity {
        if !writeOk {
          return Err(LogFailure);
        }
        logged := logged + [queue];
        cursor := 0;
      }
      r := Ok;
    }
  }

  /** A message and whether a log write would succeed when it arrives. */
  datatype Arrival = Arrival(id: int, writeOk: bool)

  function Run(capacity: nat, arrivals: seq<Arrival>): Log
    requires capacity > 0
  {
    if arrivals == [] then EMPTY
    else Add(capacity, Run(capacity, arrivals[..|arrivals| - 1]), Last(arrivals).id, Last(arrivals).writeOk)
  }

  function Ids(arrivals: seq<Arrival>): seq<int> {
    if arrivals == [] then [] else Ids(arrivals[..|arrivals| - 1]) + [Last(arrivals).id]
  }

  /** Some arrival filled the queue's worth and could not be written. */
  predicate WriteFailed(capacity: nat, arrivals: seq<Arrival>)
    requires capacity > 0
  {
    arrivals != [] &&
    (WriteFailed(capacity, arrivals[..|arrivals| - 1])
     || (Run(capacity, arrivals[..|arrivals| - 1]).cursor + 1 == capacity && !Last(arrivals).writeOk))
  }

  /** After any arrivals, the queue holds the latest of them, and the log files hold all
      but the last `cursor`, in order and each once. */
  lemma {:induction false} LogHoldsAllButCursor(capacity: nat, arrivals: seq<Arrival>)
    requires capacity > 0
    ensures var l, ids := Run(capacity, arrivals), Ids(arrivals);
            && l.queue == Latest(ids, capacity)
            && l.cursor <= |ids| && Flatten(l.logged) == ids[..|ids| - l.cursor]
  {
    if arrivals != [] {
      var front := arrivals[..|arrivals| - 1];
      LogHoldsAllButCursor(capacity, front);
      AddKeeps(capacity, Run(capacity, front), Ids(front), Last(arrivals));
    }
  }

  /** The latest messages, as many as fit. */
  function Latest(ids: seq<int>, n: nat): seq<int> {
    if |ids| <= n then ids else ids[|ids| - n..]
  }

  lemma PushedKeeps(capacity: nat, queue: seq<int>, ids: seq<int>, id: int)
    requires capacity > 0 && queue == Latest(ids, capacity)
    ensures Pushed(queue, capacity, id) == Latest(ids + [id], capacity)
  {
  }

  lemma AddKeeps(capacity: nat, l: Log, ids: seq<int>, a: Arrival)
    requires capacity > 0 && l.queue == Latest(ids, capacity)
    requires l.cursor <= |ids| && Flatten(l.logged) == ids[..|ids| - l.cursor]
    ensures var l', ids' := Add(capacity, l, a.id, a.writeOk), ids + [a.id];
            l'.queue == Latest(ids', capacity) && l'.cursor <= |ids'| && Flatten(l'.logged) == ids'[..|ids'| - l'.cursor]
  {
    PushedKeeps(capacity, l.queue, ids, a.id);
    if l.cursor + 1 == capacity && a.writeOk {
      FlattenSnoc(l.logged, Latest(ids + [a.id], capacity));
      SplitAtLatest(ids + [a.id], capacity);
      assert (ids + [a.id])[..|ids| + 1 - capacity] == ids[..|ids| - l.cursor];
    } else {
      assert (ids + [a.id])[..|ids| - l.cursor] == ids[..|ids| - l.cursor];
    }
  }

  lemma SplitAtLatest(ids: seq<int>, n: nat)
    requires n <= |ids|
    ensures ids[..|ids| - n] + Latest(ids, n) == ids == ids[..|ids|]
  {
  }

  /** Less than a queue's worth is missing from the log files exactly as long as no log
      write has failed. */
  lemma {:induction false} LagBoundedExactlyWhen(capacity: nat, arrivals: seq<Arrival>)
    requires capacity > 0
    ensures Run(capacity, arrivals).cursor < capacity <==> !WriteFailed(capacity, arrivals)
  {
    if arrivals != [] {
      LagBoundedExactlyWhen(capacity, arrivals[..|arrivals| - 1]);
    }
  }

  /** After one failed write nothing is ever logged again. */
  lemma {:induction false} NothingLoggedAfterFailure(capacity: nat, arrivals: seq<Arrival>, more: seq<Arrival>)
    requires capacity > 0 && WriteFailed(capacity, arrivals)
    ensures WriteFailed(capacity, arrivals + more)
    ensures Run(capacity, arrivals + more).logged == Run(capacity, arrivals).logged
  {
    if more == [] {
      assert arrivals + more == arrivals;
    } else {
      var front := more[..|more| - 1];
      assert (arrivals + more)[..|arrivals + more| - 1] == arrivals + front;
      NothingLoggedAfterFailure(capacity, arrivals, front);
      LagBoundedExactlyWhen(capacity, arrivals + front);
    }
  }
}
