/** Successive policy changes at one policy store, with and without Redis in front of its
    dataset table: which versions they issue, and what a node makes of them
    (core/policystore/http.go, core/datasetmanager/datasetindexer.go). */
module StoreVersions {
  import opened Common
  import opened DatasetIndexer
  import opened PolicyStore
  import Node

  /** What one change with this content does to the store's datasets, whatever becomes of
      the lookup and of Git after it. */
  function AfterChange(x: Index, id: string, content: bool): Index {
    if ReadPolicy(x, id).None? then x else SetPolicy(x, id, Policy(id, content, Found(x, id) + 1), true)
  }

  lemma SetIsChange(s: State, id: string, content: bool, commitOk: bool)
    ensures AfterSet(s, id, content, commitOk).0.index == AfterChange(s.index, id, content)
  {
  }

  function AfterChanges(x: Index, id: string, contents: seq<bool>): Index {
    if contents == [] then x else AfterChange(AfterChanges(x, id, contents[..|contents| - 1]), id, Last(contents))
  }

  /** One request: its content, and whether its Git commit succeeds. */
  datatype Change = Change(content: bool, commitOk: bool)

  function AfterSets(s: State, id: string, changes: seq<Change>): State {
    if changes == [] then s
    else AfterSet(AfterSets(s, id, changes[..|changes| - 1]), id, Last(changes).content, Last(changes).commitOk).0
  }

  function Contents(changes: seq<Change>): seq<bool> {
    if changes == [] then [] else Contents(changes[..|changes| - 1]) + [Last(changes).content]
  }

  /** Whichever requests fail late, their changes to the datasets are these. */
  lemma {:induction false} SetsAreChanges(s: State, id: string, changes: seq<Change>)
    ensures AfterSets(s, id, changes).index == AfterChanges(s.index, id, Contents(changes))
  {
    if changes != [] {
      var front := changes[..|changes| - 1];
      SetsAreChanges(s, id, front);
      SetIsChange(AfterSets(s, id, front), id, Last(changes).content, Last(changes).commitOk);
      assert Contents(changes)[..|Contents(changes)| - 1] == Contents(front);
    }
  }

  /** The version that a change finds. */
  function Found(x: Index, id: string): nat {
    VersionOf(ReadPolicy(x, id))
  }

  /** The policies that the changes issue. */
  function IssuedBy(x: Index, id: string, contents: seq<bool>): seq<Policy> {
    if contents == [] then []
    else
      var front := contents[..|contents| - 1];
      IssuedBy(x, id, front) + [Policy(id, Last(contents), Found(AfterChanges(x, id, front), id) + 1)]
  }

  lemma OneChange(x: Index, id: string, content: bool)
    requires ReadPolicy(x, id).Some?
    ensures var x' := AfterChange(x, id, content);
            && x'.redis == x.redis && ReadPolicy(x', id).Some?
            && Found(x', id) == Found(x, id) + (if x.redis then 0 else 1)
            && (Readable(x.table, id) ==>
                  Readable(x'.table, id) && SelectPolicy(x'.table, id) == Some(Policy(id, content, Found(x, id) + 1)))
  {
  }

  lemma {:induction false} ManyChanges(x: Index, id: string, contents: seq<bool>)
    requires ReadPolicy(x, id).Some?
    ensures var x' := AfterChanges(x, id, contents);
            && x'.redis == x.redis && ReadPolicy(x', id).Some?
            && Found(x', id) == Found(x, id) + (if x.redis then 0 else |contents|)
            && (Readable(x.table, id) ==> Readable(x'.table, id))
  {
    if contents != [] {
      ManyChanges(x, id, contents[..|contents| - 1]);
      OneChange(AfterChanges(x, id, contents[..|contents| - 1]), id, Last(contents));
    }
  }

  /** The i-th change issues the version found at the start plus one and, without Redis,
      plus i. With Redis every change finds the cached copy of before the first, as long
      as the cache keeps it. */
  lemma {:induction false} IssuedVersions(x: Index, id: string, contents: seq<bool>)
    requires ReadPolicy(x, id).Some?
    ensures |IssuedBy(x, id, contents)| == |contents|
    ensures forall i :: 0 <= i < |contents| ==>
              IssuedBy(x, id, contents)[i] == Policy(id, contents[i], Found(x, id) + 1 + if x.redis then 0 else i)
  {
    if contents != [] {
      IssuedVersions(x, id, contents[..|contents| - 1]);
      ManyChanges(x, id, contents[..|contents| - 1]);
    }
  }

  predicate VersionsDistinct(ps: seq<Policy>) {
    forall i, j :: 0 <= i < j < |ps| ==> ps[i].version != ps[j].version
  }

  /** So a store issues all versions once if and only if it has no Redis, or changes the
      dataset only once. */
  lemma VersionsDistinctExactlyWhen(x: Index, id: string, contents: seq<bool>)
    requires ReadPolicy(x, id).Some?
    ensures VersionsDistinct(IssuedBy(x, id, contents)) <==> !x.redis || |contents| <= 1
  {
    IssuedVersions(x, id, contents);
    if x.redis && |contents| > 1 {
      var issued := IssuedBy(x, id, contents);
      assert issued[0].version == issued[1].version;
    }
  }

  /** And one version with two contents if and only if it has Redis and two changes differ. */
  lemma CoherentExactlyWhen(x: Index, id: string, contents: seq<bool>)
    requires ReadPolicy(x, id).Some?
    ensures Node.Coherent(Elements(IssuedBy(x, id, contents)))
            <==> !x.redis || forall i, j :: 0 <= i < j < |contents| ==> contents[i] == contents[j]
  {
    IssuedVersions(x, id, contents);
    var issued := IssuedBy(x, id, contents);
    if Node.Coherent(Elements(issued)) && x.redis {
      forall i, j | 0 <= i < j < |contents|
        ensures contents[i] == contents[j]
      {
        assert issued[i] in Elements(issued) && issued[j] in Elements(issued);
      }
    }
  }

  /** The store's own row has the last change in any case. */
  lemma StoreHasLast(x: Index, id: string, contents: seq<bool>)
    requires ReadPolicy(x, id).Some? && Readable(x.table, id) && contents != []
    ensures SelectPolicy(AfterChanges(x, id, contents).table, id) == Some(Last(IssuedBy(x, id, contents)))
  {
    ManyChanges(x, id, contents[..|contents| - 1]);
    OneChange(AfterChanges(x, id, contents[..|contents| - 1]), id, Last(contents));
  }

  /** A node without Redis that has the policy the changes started from, and receives all
      of them in order, ends with the last one if the store has no Redis, and with the
      first one if it has. */
  lemma NodeEndsWith(x: Index, id: string, contents: seq<bool>, t: Table)
    requires ReadPolicy(x, id).Some? && contents != []
    requires Readable(t, id) && t[id].version <= Found(x, id)
    ensures var issued := IssuedBy(x, id, contents);
            && issued != []
            && SelectPolicy(Node.Fold(t, issued), id) == Some(if x.redis then issued[0] else Last(issued))
  {
    var issued := IssuedBy(x, id, contents);
    IssuedVersions(x, id, contents);
    if x.redis {
      FirstOfVersionStays(t, id, issued);
    } else {
      Node.FoldSettles(t, issued, id);
      var row := Node.Fold(t, issued)[id];
      assert Last(issued) in Elements(issued);
      assert Policy(id, row.content, row.version) in Elements(issued);
    }
  }

  lemma {:induction false} FirstOfVersionStays(t: Table, id: string, ps: seq<Policy>)
    requires ps != [] && Readable(t, id)
    requires forall p :: p in ps ==> p.dataset == id && p.version == ps[0].version > t[id].version
    ensures SelectPolicy(Node.Fold(t, ps), id) == Some(ps[0])
  {
    var front := ps[..|ps| - 1];
    if front == [] {
      assert Node.Fold(t, front) == t;
      assert ps[0] in ps;
    } else {
      assert forall p :: p in front ==> p in ps;
      FirstOfVersionStays(t, id, front);
    }
  }

  /** So after all changes such a node agrees with the store if and only if the store has
      no Redis or the first and the last change have the same content. */
  lemma NodeAgreesExactlyWhen(x: Index, id: string, contents: seq<bool>, t: Table)
    requires ReadPolicy(x, id).Some? && Readable(x.table, id) && contents != []
    requires Readable(t, id) && t[id].version <= Found(x, id)
    ensures SelectPolicy(Node.Fold(t, IssuedBy(x, id, contents)), id) == SelectPolicy(AfterChanges(x, id, contents).table, id)
            <==> !x.redis || contents[0] == Last(contents)
  {
    StoreHasLast(x, id, contents);
    NodeEndsWith(x, id, contents, t);
    IssuedVersions(x, id, contents);
  }
}
