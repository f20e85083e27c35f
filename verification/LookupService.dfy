/** The dataset lookup service: which node stores a dataset. A table, optionally fronted
    by a Redis cache whose entries may be evicted at any time and whose writes may fail
    (core/datasetmanager/datasetlookupservice.go, datasetlookupservicedb.go). */
module LookupService {
  import opened Common

  /** `booted` is false if the text of the boot time cannot be read back from the table:
      then no read of the row succeeds. The cache has the whole node. */
  datatype Node = Node(name: string, address: string, booted: bool)

  type Nodes = map<string, Node>

  datatype Lookup = Lookup(redis: bool, cache: Nodes, table: Nodes)

  // ---- the operations; `ok` says whether the cache write succeeds ----

  function Select(t: Nodes, id: string): Option<Node> {
    if id != "" && id in t && t[id].booted then Some(t[id]) else None
  }

  function Get(s: Lookup, id: string): Option<Node> {
    if s.redis && id in s.cache then Some(s.cache[id]) else Select(s.table, id)
  }

  function CacheSet(s: Lookup, id: string, node: Node, ok: bool): Lookup {
    if s.redis && ok then s.(cache := s.cache[id := node]) else s
  }

  function CacheDelete(s: Lookup, id: string, ok: bool): Lookup {
    if s.redis && ok then s.(cache := s.cache - {id}) else s
  }

  function Insert(s: Lookup, id: string, node: Node, ok: bool): Lookup {
    CacheSet(s, id, node, ok).(table := s.table[id := node])
  }

  predicate Exists(s: Lookup, id: string) {
    id != "" && ((s.redis && id in s.cache) || id in s.table)
  }

  /** A miss in the cache that hits a row that can be read fills the cache. */
  function AfterExists(s: Lookup, id: string, ok: bool): Lookup {
    if id !in s.cache && Select(s.table, id).Some? then CacheSet(s, id, s.table[id], ok) else s
  }

  function Remove(s: Lookup, id: string, ok: bool): Lookup {
    CacheDelete(s, id, ok).(table := if id == "" then s.table else s.table - {id})
  }

  function RemoveOutcome(t: Nodes, id: string): Outcome {
    if id == "" then Err(EmptyIdentifier) else if id !in t then Err(NoSuchDataset) else Ok
  }

  function Identifiers(s: Lookup): set<string> {
    if s.redis then s.cache.Keys else s.table.Keys
  }

  predicate AllBooted(t: Nodes) {
    forall id :: id in t ==> t[id].booted
  }

  /** One row that cannot be read and nothing is loaded. */
  function Reload(s: Lookup, ok: bool): Lookup {
    if ok && AllBooted(s.table) then s.(cache := s.cache + s.table) else s
  }

  class DatasetLookupService {
    const redis: bool
    var cache: Nodes
    var table: Nodes

    constructor (redis: bool, table: Nodes)
      ensures State() == Lookup(redis, map[], table)
    {
      this.redis := redis;
      this.cache := map[];
      this.table := table;
    }

    function State(): Lookup
      reads this
    {
      Lookup(redis, cache, table)
    }

    method DatasetNode(id: string) returns (node: Option<Node>)
      ensures node == Get(State(), id)
    {
      if redis {
        if id in cache {
          return Some(cache[id]);
        }
      }
      node := Select(table, id);
    }

    method InsertDatasetNode(id: string, node: Option<Node>, ok: bool) returns (r: Outcome)
      modifies this
      ensures node.None? ==> r == Err(NilArgument) && State() == old(State())
      ensures node.Some? ==> r == Ok && State() == Insert(old(State()), id, node.value, ok)
    {
      if node.None? {
        return Err(NilArgument);
      }
      if redis && ok {
        cache := cache[id := node.value];
      }
      table := table[id := node.value];
      r := Ok;
    }

    method DatasetNodeExists(id: string, ok: bool) returns (found: bool)
      modifies this
      ensures found == old(Exists(State(), id))
      ensures State() == if redis then AfterExists(old(State()), id, ok) else old(State())
    {
      if id == "" {
        return false;
      }
      if redis {
        if id in cache {
          return true;
        }
      }
      found := id in table;
      if found && redis {
        var node := Select(table, id);
        if node.Some? && ok {
          cache := cache[id := node.value];
        }
      }
    }

    method RemoveDatasetNode(id: string, ok: bool) returns (r: Outcome)
      modifies this
      ensures State() == Remove(old(State()), id, ok)
      ensures r == RemoveOutcome(old(table), id)
    {
      if redis && ok {
        cache := cache - {id};
      }
      if id == "" {
        return Err(EmptyIdentifier);
      }
      if id !in table {
        return Err(NoSuchDataset);
      }
      table := table - {id};
      r := Ok;
    }

    /** The keys of the table, each once in any order. If there is a cache, what its scan
        returns: every key, perhaps several times. */
    method DatasetIdentifiers(scan: seq<string>) returns (ids: seq<string>)
      requires redis ==> Elements(scan) == cache.Keys
      ensures Elements(ids) == Identifiers(State())
      ensures if redis then ids == scan else |ids| == |table.Keys|
    {
      if redis {
        return scan;
      }
      var rest := table.Keys;
      ids := [];
      while rest != {}
        invariant Elements(ids) !! rest && Elements(ids) + rest == table.Keys
        invariant |ids| + |rest| == |table.Keys|
        decreases rest
      {
        var id :| id in rest;
        ids, rest := ids + [id], rest - {id};
      }
    }

    method ReloadRedis(ok: bool)
      requires redis
      modifies this
      ensures State() == Reload(old(State()), ok)
    {
      var pairs: Nodes := map[];
      var rest := table.Keys;
      while rest != {}
        invariant rest <= table.Keys && pairs == table - rest && AllBooted(pairs)
        decreases rest
      {
        var id :| id in rest;
        if !table[id].booted {
          return;
        }
        pairs, rest := pairs[id := table[id]], rest - {id};
      }
      assert pairs == table;
      if ok {
        cache := cache + pairs;
      }
    }
  }

  // ---- the cache agrees with the table ----

  /** Every cached entry is the table's entry. */
  predicate Coherent(s: Lookup) {
    s.redis ==> forall id :: id in s.cache ==> id in s.table && s.cache[id] == s.table[id]
  }

  /** An insertion keeps the cache coherent exactly when the cache write succeeds or there
      was no other entry to go stale; a removal exactly when the cache delete succeeds
      or there was no entry (the empty identifier is not removed from the table). */
  lemma KeepsCoherentExactlyWhen(s: Lookup, id: string, node: Node, ok: bool)
    requires Coherent(s)
    ensures Coherent(Insert(s, id, node, ok)) <==> ok || !s.redis || id !in s.cache || s.cache[id] == node
    ensures Coherent(Remove(s, id, ok)) <==> ok || !s.redis || id !in s.cache || id == ""
    ensures Coherent(AfterExists(s, id, ok)) && Coherent(Reload(s, ok))
  {
    var s1, s2 := Insert(s, id, node, ok), Remove(s, id, ok);
    if !ok && s.redis && id in s.cache {
      assert id in s1.cache && id in s2.cache;
    }
  }

  /** The identifiers listed are the table's keys exactly when the cache misses none. A
      reload that succeeds establishes that; it does if all rows can be read. */
  lemma IdentifiersExactlyWhen(s: Lookup)
    requires Coherent(s)
    ensures Identifiers(s) == s.table.Keys <==> !s.redis || s.table.Keys <= s.cache.Keys
    ensures s.redis ==>
              (Identifiers(Reload(s, true)) == s.table.Keys <==> AllBooted(s.table) || s.table.Keys <= s.cache.Keys)
  {
  }

  /** Asking whether a dataset exists gets it listed, if it does, its row can be read and
      the cache takes it; an eviction gets it off the list until then. */
  lemma ListedAfterLookup(s: Lookup, id: string)
    requires s.redis
    ensures Select(s.table, id).Some? ==> id in Identifiers(AfterExists(s, id, true)) && Get(AfterExists(s, id, true), id) == Get(s, id)
    ensures id !in Identifiers(Serve(s, EvictOp(id)).0) && Serve(s, EvictOp(id)).0.table == s.table
    ensures Get(Serve(s, EvictOp(id)).0, id) == Select(s.table, id)
    ensures forall other :: other != id ==> (other in Identifiers(Serve(s, EvictOp(id)).0) <==> other in Identifiers(s))
  {
  }

  /** A service that starts with a flushed cache over a table lists no identifier at all. */
  lemma FlushedCacheListsNothing(table: Nodes)
    ensures Coherent(Lookup(true, map[], table)) && Identifiers(Lookup(true, map[], table)) == {}
  {
  }

  // ---- refinement of a single map ----

  datatype Op =
    | InsertOp(id: string, node: Option<Node>)
    | RemoveOp(id: string)
    | GetOp(id: string)
    | ExistsOp(id: string)
    | EvictOp(id: string)
    | ReloadOp

  datatype Answer = Done(outcome: Outcome) | Found(node: Option<Node>) | Truth(value: bool) | Nothing

  /** The service, all cache writes succeeding. */
  function Serve(s: Lookup, op: Op): (Lookup, Answer) {
    match op
    case InsertOp(id, node) => if node.None? then (s, Done(Err(NilArgument))) else (Insert(s, id, node.value, true), Done(Ok))
    case RemoveOp(id) => (Remove(s, id, true), Done(RemoveOutcome(s.table, id)))
    case GetOp(id) => (s, Found(Get(s, id)))
    case ExistsOp(id) => (AfterExists(s, id, true), Truth(Exists(s, id)))
    case EvictOp(id) => (s.(cache := s.cache - {id}), Nothing)
    case ReloadOp => (if s.redis then Reload(s, true) else s, Nothing)
  }

  /** One map, no cache. */
  function ServeMap(m: Nodes, op: Op): (Nodes, Answer) {
    match op
    case InsertOp(id, node) => if node.None? then (m, Done(Err(NilArgument))) else (m[id := node.value], Done(Ok))
    case RemoveOp(id) => if id in m then (m - {id}, Done(Ok)) else (m, Done(Err(NoSuchDataset)))
    case GetOp(id) => (m, Found(if id in m then Some(m[id]) else None))
    case ExistsOp(id) => (m, Truth(id in m))
    case EvictOp(_) => (m, Nothing)
    case ReloadOp => (m, Nothing)
  }

  function ServeAll(s: Lookup, ops: seq<Op>): (Lookup, seq<Answer>) {
    if ops == [] then (s, [])
    else
      var (s1, answers) := ServeAll(s, ops[..|ops| - 1]);
      var (s2, a) := Serve(s1, Last(ops));
      (s2, answers + [a])
  }

  function ServeAllMap(m: Nodes, ops: seq<Op>): (Nodes, seq<Answer>) {
    if ops == [] then (m, [])
    else
      var (m1, answers) := ServeAllMap(m, ops[..|ops| - 1]);
      var (m2, a) := ServeMap(m1, Last(ops));
      (m2, answers + [a])
  }

  predicate InsertsEmpty(op: Op) {
    op.InsertOp? && op.id == "" && op.node.Some?
  }

  /** The service answers otherwise than the map: it has another error for the removal of
      the empty identifier, and finds no node in a row it cannot read. */
  predicate Departs(s: Lookup, op: Op) {
    op == RemoveOp("") || (op.GetOp? && op.id in s.table && !s.table[op.id].booted && !(s.redis && op.id in s.cache))
  }

  /** One operation, exactly. */
  lemma ServeRefinesExactlyWhen(s: Lookup, op: Op)
    requires Coherent(s) && "" !in s.table
    ensures Coherent(Serve(s, op).0) && ServeMap(s.table, op).0 == Serve(s, op).0.table
    ensures ServeMap(s.table, op).1 == Serve(s, op).1 <==> !Departs(s, op)
    ensures "" in Serve(s, op).0.table <==> InsertsEmpty(op)
  {
    ServeKeepsCoherent(s, op);
    if op.RemoveOp? && op.id !in s.table {
      assert s.table - {op.id} == s.table;
    }
  }

  lemma ServeKeepsCoherent(s: Lookup, op: Op)
    requires Coherent(s)
    ensures Coherent(Serve(s, op).0)
  {
  }

  predicate NeverDeparts(s: Lookup, ops: seq<Op>) {
    ops == [] || (NeverDeparts(s, ops[..|ops| - 1]) && !Departs(ServeAll(s, ops[..|ops| - 1]).0, Last(ops)))
  }

  /** Over every sequence of operations that does not insert the empty identifier, with
      evictions anywhere in it, the service stays coherent, its table is the plain map,
      and it answers as the map does exactly if no operation departs. */
  lemma {:induction false} RefinesExactlyWhen(s: Lookup, ops: seq<Op>)
    requires Coherent(s) && "" !in s.table && forall op :: op in ops ==> !InsertsEmpty(op)
    ensures Coherent(ServeAll(s, ops).0) && "" !in ServeAll(s, ops).0.table
    ensures ServeAllMap(s.table, ops).0 == ServeAll(s, ops).0.table
    ensures ServeAllMap(s.table, ops).1 == ServeAll(s, ops).1 <==> NeverDeparts(s, ops)
    ensures |ServeAllMap(s.table, ops).1| == |ServeAll(s, ops).1|
  {
    if ops != [] {
      var front := ops[..|ops| - 1];
      assert forall op :: op in front ==> op in ops;
      RefinesExactlyWhen(s, front);
      assert Last(ops) in ops;
      ServeRefinesExactlyWhen(ServeAll(s, front).0, Last(ops));
      SnocInjective(ServeAllMap(s.table, front).1, ServeMap(ServeAll(s, front).0.table, Last(ops)).1,
                    ServeAll(s, front).1, Serve(ServeAll(s, front).0, Last(ops)).1);
    }
  }

  lemma SnocInjective(a: seq<Answer>, x: Answer, b: seq<Answer>, y: Answer)
    requires |a| == |b|
    ensures a + [x] == b + [y] <==> a == b && x == y
  {
    if a + [x] == b + [y] {
      assert a == (a + [x])[..|a|] && x == (a + [x])[|a|];
      assert b == (b + [y])[..|b|] && y == (b + [y])[|b|];
    }
  }

  /** Named datasets, and nodes that can be read back. */
  predicate Ordinary(op: Op) {
    op.ReloadOp? || (op.id != "" && (op.InsertOp? && op.node.Some? ==> op.node.value.booted))
  }

  /** So on ordinary operations the service is one plain map. */
  lemma {:induction false} RefinesOneMap(s: Lookup, ops: seq<Op>)
    requires Coherent(s) && "" !in s.table && AllBooted(s.table) && forall op :: op in ops ==> Ordinary(op)
    ensures Coherent(ServeAll(s, ops).0) && AllBooted(ServeAll(s, ops).0.table) && NeverDeparts(s, ops)
    ensures ServeAllMap(s.table, ops) == (ServeAll(s, ops).0.table, ServeAll(s, ops).1)
  {
    RefinesExactlyWhen(s, ops);
    if ops != [] {
      var front := ops[..|ops| - 1];
      assert forall op :: op in front ==> op in ops;
      RefinesOneMap(s, front);
      assert Last(ops) in ops;
    }
  }

  /** The empty identifier, once inserted: only a cache finds it again, it never exists,
      and it is never removed. */
  lemma EmptyIdentifierDepartsFromMap(redis: bool, node: Node)
    ensures var s := Insert(Lookup(redis, map[], map[]), "", node, true);
            && Get(s, "") == (if redis then Some(node) else None)
            && !Exists(s, "") && "" in Remove(s, "", true).table
  {
  }
}
