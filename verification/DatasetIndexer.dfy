/** The dataset indexer: a table of rows, optionally fronted by a Redis cache.
    The table is the database of core/datasetmanager/datasetindexerdb.go; the
    cache-first reads are those of core/datasetmanager/datasetindexer.go. */
module DatasetIndexer {
  import opened Common

  datatype Policy = Policy(dataset: string, content: bool, version: nat)

  datatype Dataset = Dataset(identifier: string, policy: Option<Policy>, allowMultiple: bool)

  /** A table row. `dated` is false when the row was inserted from a policy without
      timestamps: its date columns hold no digits and no read of the row succeeds. */
  datatype Row = Row(content: bool, version: nat, allowMultiple: bool, dated: bool)

  type Table = map<string, Row>

  // The protobuf getters answer a missing policy with the zero values.
  function ContentOf(p: Option<Policy>): bool {
    if p.Some? then p.value.content else false
  }

  function VersionOf(p: Option<Policy>): nat {
    if p.Some? then p.value.version else 0
  }

  function RowOf(d: Dataset): Row {
    Row(ContentOf(d.policy), VersionOf(d.policy), d.allowMultiple, d.policy.Some?)
  }

  // ---- the table ----

  predicate RowExists(t: Table, id: string) {
    id != "" && id in t
  }

  predicate Readable(t: Table, id: string) {
    RowExists(t, id) && t[id].dated
  }

  function SelectPolicy(t: Table, id: string): Option<Policy> {
    if Readable(t, id) then Some(Policy(id, t[id].content, t[id].version)) else None
  }

  function SelectDataset(t: Table, id: string): Option<Dataset> {
    if Readable(t, id) then Some(Dataset(id, SelectPolicy(t, id), t[id].allowMultiple)) else None
  }

  /** ON CONFLICT DO NOTHING: an existing row wins. */
  function InsertRow(t: Table, id: string, d: Dataset): Table {
    if id in t then t else t[id := RowOf(d)]
  }

  function UpdateRow(t: Table, id: string, p: Policy): Table {
    if id in t then t[id := t[id].(content := p.content, version := p.version)] else t
  }

  function DeleteRow(t: Table, id: string): Table {
    if id == "" then t else t - {id}
  }

  // ---- the unit: cache and table ----

  datatype Index = Index(redis: bool, cache: map<string, Dataset>, table: Table)

  function Uncached(t: Table): Index {
    Index(false, map[], t)
  }

  function ReadDataset(s: Index, id: string): Option<Dataset> {
    if s.redis && id in s.cache then Some(s.cache[id]) else SelectDataset(s.table, id)
  }

  /** The policy a caller of Dataset sees. */
  function ReadPolicy(s: Index, id: string): Option<Policy> {
    var d := ReadDataset(s, id);
    if d.Some? then d.value.policy else None
  }

  // A write to the cache may fail, which is logged; `ok` says whether it succeeds.

  function Insert(s: Index, id: string, d: Dataset, ok: bool): Index {
    s.(cache := if s.redis && ok then s.cache[id := d] else s.cache, table := InsertRow(s.table, id, d))
  }

  predicate Exists(s: Index, id: string) {
    (s.redis && id in s.cache) || RowExists(s.table, id)
  }

  /** Asking for existence copies a readable row into the cache on a miss. */
  function AfterExists(s: Index, id: string, ok: bool): Index {
    if s.redis && id !in s.cache && Readable(s.table, id)
    then Insert(s, id, SelectDataset(s.table, id).value, ok)
    else s
  }

  function SetPolicy(s: Index, id: string, p: Policy, ok: bool): Index {
    var s1 := AfterExists(s, id, ok);
    if Exists(s, id) then s1.(table := UpdateRow(s1.table, id, p)) else s1
  }

  function Remove(s: Index, id: string, ok: bool): Index {
    s.(cache := if s.redis && ok then s.cache - {id} else s.cache, table := DeleteRow(s.table, id))
  }

  class DatasetIndexerUnit {
    const redis: bool
    var cache: map<string, Dataset>
    var table: Table

    constructor (redis: bool, table: Table)
      ensures State() == Index(redis, map[], table)
    {
      this.redis := redis;
      this.cache := map[];
      this.table := table;
    }

    function State(): Index
      reads this
    {
      Index(redis, cache, table)
    }

    method Dataset(id: string) returns (d: Option<Dataset>)
      ensures d == ReadDataset(State(), id)
    {
      if redis {
        if id in cache {
          return Some(cache[id]);
        }
      }
      d := SelectDataset(table, id);
    }

    method DatasetExists(id: string, ok: bool) returns (found: bool)
      modifies this
      ensures found == old(Exists(State(), id))
      ensures State() == AfterExists(old(State()), id, ok)
    {
      if redis {
        if id in cache {
          return true;
        }
      }
      found := RowExists(table, id);
      if found && redis {
        var d := SelectDataset(table, id);
        if d.Some? {
          var _ := InsertDataset(id, Some(d.value), ok);
        }
      }
    }

    method InsertDataset(id: string, d: Option<Dataset>, ok: bool) returns (r: Outcome)
      modifies this
      ensures d.None? ==> r == Err(NilArgument) && State() == old(State())
      ensures d.Some? ==> r == Ok && State() == Insert(old(State()), id, d.value, ok)
    {
      if d.None? {
        return Err(NilArgument);
      }
      if redis && ok {
        cache := cache[id := d.value];
      }
      table := InsertRow(table, id, d.value);
      r := Ok;
    }

    method SetDatasetPolicy(id: string, p: Option<Policy>, ok: bool) returns (r: Outcome)
      modifies this
      ensures p.None? ==> r == Err(NilArgument) && State() == old(State())
      ensures p.Some? ==> State() == SetPolicy(old(State()), id, p.value, ok)
      ensures p.Some? ==> r == if old(Exists(State(), id)) then Ok else Err(NoSuchDataset)
    {
      if p.None? {
        return Err(NilArgument);
      }
      var found := DatasetExists(id, ok);
      if !found {
        return Err(NoSuchDataset);
      }
      table := UpdateRow(table, id, p.value);
      r := Ok;
    }

    method GetDatasetPolicy(id: string) returns (p: Option<Policy>)
      ensures p == SelectPolicy(table, id)
    {
      p := SelectPolicy(table, id);
    }

    method RemoveDataset(id: string, ok: bool) returns (r: Outcome)
      modifies this
      ensures State() == Remove(old(State()), id, ok)
      ensures r == if id == "" then Err(EmptyIdentifier) else Ok
    {
      if redis && ok {
        cache := cache - {id};
      }
      if id == "" {
        return Err(EmptyIdentifier);
      }
      table := DeleteRow(table, id);
      r := Ok;
    }
  }

  // ---- when what was written can be read back ----

  /** A dataset inserted where there was no row is read back whole from the table, or not
      at all if it came without a policy; an existing row stays as it is. The cache, if
      it took the dataset, answers with it in any case. */
  lemma InsertedIsReadBack(s: Index, id: string, d: Dataset, ok: bool)
    requires id != "" && d.identifier == id && (d.policy.Some? ==> d.policy.value.dataset == id)
    ensures var s' := Insert(s, id, d, ok);
            && (id !in s.table ==> SelectDataset(s'.table, id) == if d.policy.Some? then Some(d) else None)
            && (id in s.table ==> s'.table == s.table)
            && (s.redis && ok ==> ReadDataset(s', id) == Some(d))
            && Exists(s', id)
  {
  }

  /** A set changes content and version of a row and nothing else of it. */
  lemma SetKeepsTheRest(s: Index, id: string, p: Policy, ok: bool)
    requires Readable(s.table, id)
    ensures SelectDataset(SetPolicy(s, id, p, ok).table, id)
            == Some(Dataset(id, Some(Policy(id, p.content, p.version)), SelectDataset(s.table, id).value.allowMultiple))
  {
  }

  /** A policy set on a readable row is what the reader of the table returns. The reader
      Dataset returns it too if there is no cached copy afterwards, and else keeps
      returning what it returned before. */
  lemma SetPolicyVisibility(s: Index, id: string, p: Policy, ok: bool)
    requires Readable(s.table, id)
    ensures var s' := SetPolicy(s, id, p, ok);
            && SelectPolicy(s'.table, id) == Some(Policy(id, p.content, p.version))
            && ReadPolicy(s', id) == if s.redis && (ok || id in s.cache) then ReadPolicy(s, id) else SelectPolicy(s'.table, id)
  {
  }

  /** So the two readers agree after a set exactly when there is no cached copy or it
      already showed the policy being set. */
  lemma ReadersAgreeExactlyWhen(s: Index, id: string, p: Policy, ok: bool)
    requires Readable(s.table, id)
    ensures var s' := SetPolicy(s, id, p, ok);
            ReadPolicy(s', id) == SelectPolicy(s'.table, id)
            <==> (!s.redis || (!ok && id !in s.cache) || ReadPolicy(s, id) == Some(Policy(id, p.content, p.version)))
  {
    SetPolicyVisibility(s, id, p, ok);
  }

  /** A removed dataset stays visible exactly when its cached copy could not be deleted. */
  lemma RemovedIsGoneExactlyWhen(s: Index, id: string, ok: bool)
    requires id != ""
    ensures SelectDataset(Remove(s, id, ok).table, id) == None
    ensures ReadDataset(Remove(s, id, ok), id) == None <==> ok || !s.redis || id !in s.cache
    ensures Exists(Remove(s, id, ok), id) <==> !ok && s.redis && id in s.cache
  {
  }

  /** Every operation leaves the rows of other datasets and the cached copies of
      other datasets as they were. */
  lemma OtherDatasetsUntouched(s: Index, id: string, other: string, d: Dataset, p: Policy, ok: bool)
    requires other != id
    ensures ReadDataset(Insert(s, id, d, ok), other) == ReadDataset(s, other)
    ensures ReadDataset(SetPolicy(s, id, p, ok), other) == ReadDataset(s, other)
    ensures ReadDataset(Remove(s, id, ok), other) == ReadDataset(s, other)
    ensures SelectPolicy(SetPolicy(s, id, p, ok).table, other) == SelectPolicy(s.table, other)
  {
  }
}
