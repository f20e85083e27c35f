/** The policy store's side of distribution: which policies it has issued, and which of
    them it handed to a submitting goroutine (core/policystore/http.go, policy.go). */
module Issuing {
  import opened Common
  import opened DatasetIndexer

  /** For each dataset the contents the store has issued, by version. */
  type History = map<string, seq<bool>>

  predicate Issued(h: History, p: Policy) {
    p.dataset in h && p.version < |h[p.dataset]| && h[p.dataset][p.version] == p.content
  }

  /** `located` are the datasets whose node the store can look up; `skipped` the policies
      it stored but did not submit. */
  datatype Store = Store(table: Table, located: set<string>, history: History, submitted: multiset<Policy>, skipped: set<Policy>)

  const NEW_STORE := Store(map[], {}, map[], multiset{}, {})

  /** What a policy request for a dataset is answered with. */
  function Answer(s: Store, id: string): Policy {
    if RowExists(s.table, id) then Policy(id, s.table[id].content, s.table[id].version) else Policy(id, false, 0)
  }

  /** A policy request; the empty identifier is refused when it is stored in Git. */
  function AfterRequest(s: Store, id: string): Store {
    if id == "" then s
    else
      s.(table := InsertRow(s.table, id, Dataset(id, Some(Answer(s, id)), false)),
         history := if id in s.history then s.history else s.history[id := [false]],
         located := s.located + {id})
  }

  predicate CanSet(s: Store, id: string) {
    RowExists(s.table, id) && id in s.history
  }

  function NextPolicy(s: Store, id: string, content: bool): Policy
    requires CanSet(s, id)
  {
    Policy(id, content, s.table[id].version + 1)
  }

  /** A policy change. It is submitted only if the dataset's node is known and Git
      takes it; the table has it in any case. */
  predicate Submits(s: Store, id: string, gitOk: bool) {
    id in s.located && gitOk
  }

  function AfterSet(s: Store, id: string, content: bool, gitOk: bool): Store
    requires CanSet(s, id)
  {
    var p := NextPolicy(s, id, content);
    s.(table := UpdateRow(s.table, id, p),
       history := s.history[id := s.history[id] + [content]],
       submitted := if Submits(s, id, gitOk) then s.submitted + multiset{p} else s.submitted,
       skipped := if Submits(s, id, gitOk) then s.skipped else s.skipped + {p})
  }

  /** The table holds, for every dataset, the last policy that was issued. */
  ghost predicate TableInv(s: Store) {
    && s.table.Keys == s.history.Keys && "" !in s.table
    && forall id :: id in s.table ==>
         && s.table[id].dated && s.history[id] != []
         && s.table[id].version == |s.history[id]| - 1
         && s.table[id].content == Last(s.history[id])
  }

  /** Every changed policy was either submitted, and that once, or skipped. */
  ghost predicate SubmitInv(s: Store) {
    && (forall p :: s.submitted[p] <= 1)
    && (forall p :: p in s.submitted ==> Issued(s.history, p) && p.version > 0)
    && (forall p :: p in s.skipped ==> Issued(s.history, p) && p !in s.submitted)
    && (forall p :: Issued(s.history, p) && p.version > 0 ==> p in s.submitted || p in s.skipped)
  }

  ghost predicate Extends(h: History, h': History) {
    forall p :: Issued(h, p) ==> Issued(h', p)
  }

  lemma RequestKeeps(s: Store, id: string)
    requires TableInv(s) && SubmitInv(s)
    ensures TableInv(AfterRequest(s, id)) && SubmitInv(AfterRequest(s, id))
    ensures Extends(s.history, AfterRequest(s, id).history)
    ensures id != "" ==> Issued(AfterRequest(s, id).history, Answer(s, id))
  {
    var s' := AfterRequest(s, id);
    forall p
      ensures Issued(s'.history, p) && p.version > 0 ==> Issued(s.history, p)
      ensures Issued(s.history, p) ==> Issued(s'.history, p)
    {
    }
  }

  lemma SetKeepsTable(s: Store, id: string, content: bool, gitOk: bool)
    requires TableInv(s) && CanSet(s, id)
    ensures TableInv(AfterSet(s, id, content, gitOk))
  {
  }

  /** A policy change issues exactly one policy that was not issued before. */
  lemma SetIssuesOne(s: Store, id: string, content: bool, gitOk: bool)
    requires TableInv(s) && CanSet(s, id)
    ensures !Issued(s.history, NextPolicy(s, id, content))
    ensures forall p :: Issued(AfterSet(s, id, content, gitOk).history, p)
                        <==> Issued(s.history, p) || p == NextPolicy(s, id, content)
  {
    var h, h' := s.history, AfterSet(s, id, content, gitOk).history;
    forall p
      ensures Issued(h', p) <==> Issued(h, p) || p == NextPolicy(s, id, content)
    {
      if p.dataset == id && p.version < |h[id]| {
        assert h'[id][p.version] == h[id][p.version];
      }
    }
  }

  lemma SetKeeps(s: Store, id: string, content: bool, gitOk: bool)
    requires TableInv(s) && SubmitInv(s) && CanSet(s, id)
    ensures TableInv(AfterSet(s, id, content, gitOk)) && SubmitInv(AfterSet(s, id, content, gitOk))
    ensures Extends(s.history, AfterSet(s, id, content, gitOk).history)
  {
    SetKeepsTable(s, id, content, gitOk);
    SetIssuesOne(s, id, content, gitOk);
  }

  /** The row a reader sees is the newest issued policy of the dataset. */
  lemma TableIsNewest(s: Store, id: string)
    requires TableInv(s) && id in s.table
    ensures Readable(s.table, id) && Issued(s.history, SelectPolicy(s.table, id).value)
    ensures forall p :: Issued(s.history, p) && p.dataset == id ==>
              p.version <= s.table[id].version && (p.version == s.table[id].version ==> Some(p) == SelectPolicy(s.table, id))
  {
  }
}
