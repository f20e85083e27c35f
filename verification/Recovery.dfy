/** What survives when the policy store loses dataset rows: Git keeps the contents, the
    versions start again. A run is any sequence of policy requests by the datasets'
    owners, policy changes and losses of rows, on an uncached store
    (core/policystore/policy.go, http.go, git.go). */
module Recovery {
  import opened Common
  import opened DatasetIndexer
  import opened GitFiles
  import LookupService
  import PolicyStore
  import Node

  /** The store and, for each dataset, the content last set while the store had it. */
  datatype Store = Store(state: PolicyStore.State, last: map<string, bool>)

  const EMPTY := Store(PolicyStore.State(Index(false, map[], map[]), LookupService.Lookup(false, map[], map[]), map[], multiset{}), map[])

  /** The datasets in play and their fixed owners. */
  datatype World = World(ids: set<string>, owner: string -> string)

  /** Two datasets share a file: they have one owner, with a name, and differ only in
      slashes for underscores. */
  predicate Collide(w: World, a: string, b: string) {
    a != b && w.owner(a) == w.owner(b) != "" && SameButSlashes(a, b)
  }

  ghost predicate Separate(w: World) {
    forall a, b :: a in w.ids && b in w.ids ==> !Collide(w, a, b)
  }

  datatype Op =
    | Request(id: string, commitOk: bool)
    | Set(id: string, content: bool, commitOk: bool)
    | Lose(id: string)

  function OwnerNode(w: World, id: string): LookupService.Node {
    LookupService.Node(w.owner(id), "", true)
  }

  function Do(w: World, s: Store, op: Op): Store {
    match op
    case Request(id, commitOk) => s.(state := PolicyStore.AfterRequest(s.state, OwnerNode(w, id), id, commitOk).0)
    case Set(id, content, commitOk) =>
      Store(PolicyStore.AfterSet(s.state, id, content, commitOk).0,
            if Readable(s.state.index.table, id) then s.last[id := content] else s.last)
    case Lose(id) => s.(state := s.state.(index := s.state.index.(table := s.state.index.table - {id})))
  }

  function Run(w: World, ops: seq<Op>): Store {
    if ops == [] then EMPTY else Do(w, Run(w, ops[..|ops| - 1]), Last(ops))
  }

  /** The content last set for a dataset, false if none was. */
  function LastSet(s: Store, id: string): bool {
    id in s.last && s.last[id]
  }

  // ---- the invariant ----

  /** A row belongs to a located dataset whose owner has a file, and holds the last content. */
  predicate RowInv(w: World, s: Store, id: string)
    requires id in s.state.index.table
  {
    var row := s.state.index.table[id];
    && id in w.ids && id != "" && row.dated && row.content == LastSet(s, id)
    && id in s.state.lookup.table && s.state.lookup.table[id] == OwnerNode(w, id)
    && HasFile(s.state.files, w.owner(id), id)
  }

  /** A file holds the last content; a dataset without a file was never set. */
  predicate FileInv(w: World, s: Store, id: string) {
    if HasFile(s.state.files, w.owner(id), id)
    then ReadContent(s.state.files, w.owner(id), id) == Success(LastSet(s, id))
    else id !in s.last
  }

  ghost predicate Inv(w: World, s: Store) {
    && !s.state.index.redis && !s.state.lookup.redis
    && (forall id :: id in s.state.index.table ==> RowInv(w, s, id))
    && (forall id :: id in w.ids ==> FileInv(w, s, id))
  }

  /** Writing one dataset's file leaves the other datasets' files alone. */
  lemma OtherFiles(w: World, files: Files, p: Policy, id: string)
    requires Separate(w) && p.dataset in w.ids && id in w.ids && id != p.dataset
    requires p.dataset != "" && w.owner(p.dataset) != ""
    ensures var files' := Written(files, w.owner(p.dataset), p);
            && HasFile(files', w.owner(id), id) == HasFile(files, w.owner(id), id)
            && ReadContent(files', w.owner(id), id) == ReadContent(files, w.owner(id), id)
  {
    StoreThenRead(files, w.owner(p.dataset), p, w.owner(id), id);
  }

  /** What a policy change does to an uncached store that satisfies the invariant. */
  lemma SetEffect(w: World, s: Store, id: string, content: bool, commitOk: bool)
    requires Inv(w, s)
    ensures var s' := Do(w, s, Set(id, content, commitOk));
            if !Readable(s.state.index.table, id) then s' == s
            else
              var p := Policy(id, content, s.state.index.table[id].version + 1);
              && s'.state.index == s.state.index.(table := UpdateRow(s.state.index.table, id, p))
              && s'.state.lookup == s.state.lookup
              && s'.state.files == Written(s.state.files, w.owner(id), p)
              && s'.last == s.last[id := content]
  {
    if id in s.state.index.table {
      assert RowInv(w, s, id);
    }
  }

  lemma SetKeeps(w: World, s: Store, id: string, content: bool, commitOk: bool)
    requires Separate(w) && Inv(w, s)
    ensures Inv(w, Do(w, s, Set(id, content, commitOk)))
  {
    SetEffect(w, s, id, content, commitOk);
    if Readable(s.state.index.table, id) {
      var s' := Do(w, s, Set(id, content, commitOk));
      var p := Policy(id, content, s.state.index.table[id].version + 1);
      assert RowInv(w, s, id);
      FileWritten(w, s, s', p);
      forall d | d in s'.state.index.table
        ensures RowInv(w, s', d)
      {
        assert RowInv(w, s, d);
        if d != id {
          OtherFiles(w, s.state.files, p, d);
        }
      }
    }
  }

  /** After one dataset's file is written with its last content, files hold last contents. */
  lemma FileWritten(w: World, s: Store, s': Store, p: Policy)
    requires Separate(w) && (forall id :: id in w.ids ==> FileInv(w, s, id))
    requires p.dataset in w.ids && p.dataset != "" && w.owner(p.dataset) != ""
    requires s'.state.files == Written(s.state.files, w.owner(p.dataset), p)
    requires LastSet(s', p.dataset) == p.content && s'.last - {p.dataset} == s.last - {p.dataset}
    ensures HasFile(s'.state.files, w.owner(p.dataset), p.dataset)
    ensures forall id :: id in w.ids ==> FileInv(w, s', id)
  {
    StoreThenRead(s.state.files, w.owner(p.dataset), p, "", "");
    forall id | id in w.ids
      ensures FileInv(w, s', id)
    {
      assert FileInv(w, s, id);
      if id != p.dataset {
        OtherFiles(w, s.state.files, p, id);
        assert id in s'.last <==> id in s'.last - {p.dataset};
        assert id in s.last <==> id in s.last - {p.dataset};
        assert id in s.last ==> s'.last[id] == (s'.last - {p.dataset})[id];
      }
    }
  }

  /** What a policy request answers and does. */
  lemma RequestEffect(w: World, s: Store, id: string, commitOk: bool)
    requires Inv(w, s) && id in w.ids
    ensures var (state', r) := PolicyStore.AfterRequest(s.state, OwnerNode(w, id), id, commitOk);
            var known, filed := id in s.state.index.table, HasFile(s.state.files, w.owner(id), id);
            var named := id != "" && w.owner(id) != "";
            && (r.Success? <==> named && (known || filed || commitOk))
            && (r.Success? ==> r.value.content == LastSet(s, id) && (!known ==> r.value.version == 0))
            && state'.files == (if known || filed then s.state.files else Written(s.state.files, w.owner(id), Policy(id, false, 0)))
            && (r.Failure? ==> state'.index == s.state.index && state'.lookup == s.state.lookup)
            && (r.Success? ==>
                  && state'.lookup == s.state.lookup.(table := s.state.lookup.table[id := OwnerNode(w, id)])
                  && state'.index == (if known then s.state.index
                                      else s.state.index.(table := s.state.index.table[id := Row(LastSet(s, id), 0, false, true)])))
  {
    assert FileInv(w, s, id);
    if id in s.state.index.table {
      assert RowInv(w, s, id);
    }
  }

  lemma RequestKeeps(w: World, s: Store, id: string, commitOk: bool)
    requires Separate(w) && Inv(w, s) && id in w.ids
    ensures Inv(w, Do(w, s, Request(id, commitOk)))
  {
    RequestEffect(w, s, id, commitOk);
    var s' := Do(w, s, Request(id, commitOk));
    var p := Policy(id, false, 0);
    assert FileInv(w, s, id);
    if id in s.state.index.table {
      assert RowInv(w, s, id);
    }
    if s'.state.files != s.state.files {
      FileWritten(w, s, s', p);
    } else {
      forall d | d in w.ids
        ensures FileInv(w, s', d)
      {
        assert FileInv(w, s, d);
      }
    }
    forall d | d in s'.state.index.table
      ensures RowInv(w, s', d)
    {
      if d in s.state.index.table {
        assert RowInv(w, s, d);
        if d != id && s'.state.files != s.state.files {
          OtherFiles(w, s.state.files, p, d);
        }
      }
    }
  }

  lemma LoseKeeps(w: World, s: Store, id: string)
    requires Inv(w, s)
    ensures Inv(w, Do(w, s, Lose(id)))
  {
    var s' := Do(w, s, Lose(id));
    forall d | d in s'.state.index.table
      ensures RowInv(w, s', d)
    {
      assert RowInv(w, s, d);
    }
    forall d | d in w.ids
      ensures FileInv(w, s', d)
    {
      assert FileInv(w, s, d);
    }
  }

  predicate Within(w: World, ops: seq<Op>) {
    forall op :: op in ops ==> op.id in w.ids
  }

  lemma {:induction false} RunsKeepInv(w: World, ops: seq<Op>)
    requires Separate(w) && Within(w, ops)
    ensures Inv(w, Run(w, ops))
  {
    if ops != [] {
      var front := ops[..|ops| - 1];
      assert forall op :: op in front ==> op in ops;
      RunsKeepInv(w, front);
      assert Last(ops) in ops;
      match Last(ops)
      case Request(id, commitOk) => RequestKeeps(w, Run(w, front), id, commitOk);
      case Set(id, content, commitOk) => SetKeeps(w, Run(w, front), id, content, commitOk);
      case Lose(id) => LoseKeeps(w, Run(w, front), id);
    }
  }

  // ---- theorems ----

  /** The next request of the owner, if it succeeds, is answered with the content last
      set, or false if none was. */
  predicate AnswersLast(w: World, s: Store, id: string, commitOk: bool) {
    var r := PolicyStore.AfterRequest(s.state, OwnerNode(w, id), id, commitOk).1;
    r.Success? ==> r.value.content == LastSet(s, id)
  }

  /** Git and the dataset collection agree on a dataset, if both have it. */
  predicate GitAgrees(w: World, s: Store, id: string) {
    id in s.state.index.table && HasFile(s.state.files, w.owner(id), id) ==>
      ReadContent(s.state.files, w.owner(id), id) == Success(s.state.index.table[id].content)
  }

  /** After any run the next request is answered with the last content, whatever rows
      were lost. It fails exactly without names, or when a first commit fails. */
  lemma NextRequestRestoresLast(w: World, ops: seq<Op>, id: string, commitOk: bool)
    requires Separate(w) && Within(w, ops) && id in w.ids
    ensures AnswersLast(w, Run(w, ops), id, commitOk)
    ensures var s := Run(w, ops);
            var r := PolicyStore.AfterRequest(s.state, OwnerNode(w, id), id, commitOk).1;
            r.Success? <==> id != "" && w.owner(id) != ""
                            && (commitOk || id in s.state.index.table || HasFile(s.state.files, w.owner(id), id))
  {
    RunsKeepInv(w, ops);
    RequestEffect(w, Run(w, ops), id, commitOk);
  }

  /** A lost row is gone until the next request, which gives it the last content again, at
      version zero, and leaves the other rows as they are. */
  lemma LostIsRestored(w: World, ops: seq<Op>, id: string)
    requires Separate(w) && Within(w, ops) && id in w.ids && id in Run(w, ops).state.index.table
    ensures var s, s1, s2 := Run(w, ops), Run(w, ops + [Lose(id)]), Run(w, ops + [Lose(id), Request(id, false)]);
            && s1.state.index.table == s.state.index.table - {id}
            && LastSet(s2, id) == LastSet(s, id)
            && SelectPolicy(s2.state.index.table, id) == Some(Policy(id, LastSet(s, id), 0))
            && s2.state.index.table - {id} == s.state.index.table - {id}
  {
    RunsKeepInv(w, ops);
    var s := Run(w, ops);
    assert RowInv(w, s, id);
    RunSnoc(w, ops, Lose(id));
    assert ops + [Lose(id), Request(id, false)] == ops + [Lose(id)] + [Request(id, false)];
    RunSnoc(w, ops + [Lose(id)], Request(id, false));
    LoseKeeps(w, s, id);
    RequestEffect(w, Run(w, ops + [Lose(id)]), id, false);
  }

  /** In every run Git has each dataset of the collection, with the same content. */
  lemma GitAgreesWithStore(w: World, ops: seq<Op>, id: string)
    requires Separate(w) && Within(w, ops) && id in Run(w, ops).state.index.table
    ensures HasFile(Run(w, ops).state.files, w.owner(id), id) && GitAgrees(w, Run(w, ops), id)
  {
    RunsKeepInv(w, ops);
    assert RowInv(w, Run(w, ops), id) && FileInv(w, Run(w, ops), id);
  }

  ghost predicate AlwaysAnswersLast(w: World) {
    forall ops, id, commitOk :: Within(w, ops) && id in w.ids ==> AnswersLast(w, Run(w, ops), id, commitOk)
  }

  ghost predicate GitAlwaysAgrees(w: World) {
    forall ops, id :: Within(w, ops) && id in w.ids ==> GitAgrees(w, Run(w, ops), id)
  }

  /** Exactly the worlds without colliding datasets: there every run restores what was
      last set, and there Git always agrees with the store. */
  lemma RestoresExactlyWhen(w: World)
    ensures AlwaysAnswersLast(w) <==> Separate(w)
    ensures GitAlwaysAgrees(w) <==> Separate(w)
  {
    if Separate(w) {
      SeparateSuffices(w);
    } else {
      var a, b :| a in w.ids && b in w.ids && Collide(w, a, b);
      CollidingIdentifiersMix(w, a, b);
      GitForgetsCollidingRow(w, a, b);
      assert Within(w, [Request(a, true), Set(a, true, true)]);
      assert Within(w, [Request(a, true), Request(b, true), Set(a, true, true)]);
    }
  }

  lemma SeparateSuffices(w: World)
    requires Separate(w)
    ensures AlwaysAnswersLast(w) && GitAlwaysAgrees(w)
  {
    forall ops, id, commitOk | Within(w, ops) && id in w.ids
      ensures AnswersLast(w, Run(w, ops), id, commitOk)
    {
      NextRequestRestoresLast(w, ops, id, commitOk);
    }
    forall ops, id | Within(w, ops) && id in w.ids
      ensures GitAgrees(w, Run(w, ops), id)
    {
      if id in Run(w, ops).state.index.table {
        GitAgreesWithStore(w, ops, id);
      }
    }
  }

  lemma RunSnoc(w: World, ops: seq<Op>, op: Op)
    ensures Run(w, ops + [op]) == Do(w, Run(w, ops), op)
  {
    assert (ops + [op])[..|ops|] == ops;
  }

  /** The store after the owner's first request for a. */
  lemma FirstRequest(w: World, a: string)
    requires a != "" && w.owner(a) != ""
    ensures var s := Run(w, [Request(a, true)]);
            && s.last == map[] && s.state.files == Written(map[], w.owner(a), Policy(a, false, 0))
            && s.state.index == Index(false, map[], map[a := Row(false, 0, false, true)])
            && s.state.lookup == LookupService.Lookup(false, map[], map[a := OwnerNode(w, a)])
  {
    RunSnoc(w, [], Request(a, true));
    assert [] + [Request(a, true)] == [Request(a, true)];
  }

  lemma CollidingAreNamed(w: World, a: string, b: string)
    requires Collide(w, a, b)
    ensures a != "" && b != "" && Path(w.owner(a), a) == Path(w.owner(b), b)
  {
    PathsCollideExactlyWhen(w.owner(a), a, w.owner(b), b);
  }

  /** Of two colliding datasets one is restored with the other's content: it was never
      set, and is answered as true. */
  lemma CollidingIdentifiersMix(w: World, a: string, b: string)
    requires Collide(w, a, b)
    ensures var s := Run(w, [Request(a, true), Set(a, true, true)]);
            && !LastSet(s, b) && !AnswersLast(w, s, b, true)
            && PolicyStore.AfterRequest(s.state, OwnerNode(w, b), b, true).1 == Success(Policy(b, true, 0))
  {
    CollidingAreNamed(w, a, b);
    FirstRequest(w, a);
    RunSnoc(w, [Request(a, true)], Set(a, true, true));
    assert [Request(a, true)] + [Set(a, true, true)] == [Request(a, true), Set(a, true, true)];
    var s := Run(w, [Request(a, true), Set(a, true, true)]);
    StoreThenRead(Written(map[], w.owner(a), Policy(a, false, 0)), w.owner(a), Policy(a, true, 1), "", "");
    assert ReadContent(s.state.files, w.owner(b), b) == Success(true);
  }

  /** And a policy change of the one makes Git disagree with the store on the other. */
  lemma GitForgetsCollidingRow(w: World, a: string, b: string)
    requires Collide(w, a, b)
    ensures !GitAgrees(w, Run(w, [Request(a, true), Request(b, true), Set(a, true, true)]), b)
  {
    CollidingAreNamed(w, a, b);
    FirstRequest(w, a);
    var s1, s2 := Run(w, [Request(a, true)]), Run(w, [Request(a, true), Request(b, true)]);
    RunSnoc(w, [Request(a, true)], Request(b, true));
    assert [Request(a, true)] + [Request(b, true)] == [Request(a, true), Request(b, true)];
    assert ReadContent(s1.state.files, w.owner(b), b) == Success(false);
    assert s2.state.index.table == map[a := Row(false, 0, false, true), b := Row(false, 0, false, true)];
    RunSnoc(w, [Request(a, true), Request(b, true)], Set(a, true, true));
    assert [Request(a, true), Request(b, true)] + [Set(a, true, true)] == [Request(a, true), Request(b, true), Set(a, true, true)];
    StoreThenRead(s2.state.files, w.owner(a), Policy(a, true, 1), "", "");
  }

  /** The policies of the first j changes after a restored row, whose version is zero. */
  function ChangesAfterRestore(id: string, contents: seq<bool>): seq<Policy> {
    seq(|contents|, i requires 0 <= i < |contents| => Policy(id, contents[i], i + 1))
  }

  /** A node that already held version k ignores all changes after a restore exactly as
      long as there are no more than k of them. */
  lemma IgnoredAfterRestoreExactlyWhen(t: Table, id: string, contents: seq<bool>)
    requires Readable(t, id)
    ensures Node.Fold(t, ChangesAfterRestore(id, contents)) == t <==> |contents| <= t[id].version
  {
    var batch := ChangesAfterRestore(id, contents);
    Node.FoldSettles(t, batch, id);
    if |contents| > t[id].version {
      var p := batch[|contents| - 1];
      assert p in Elements(batch) && p.version > t[id].version;
    } else {
      forall d | d in t
        ensures Node.Fold(t, batch)[d] == t[d]
      {
        Node.FoldSettles(t, batch, d);
      }
    }
  }
}
