/** The Git working copy that keeps the content of every policy: one file per dataset in
    its node's directory, holding the text of a boolean (core/policystore/git.go). */
module GitFiles {
  import opened Common
  import opened DatasetIndexer

  type Files = map<string, string>

  function Replaced(id: string): string {
    if id == "" then "" else [if id[0] == '/' then '_' else id[0]] + Replaced(id[1..])
  }

  function Path(node: string, id: string): string {
    node + "/" + Replaced(id)
  }

  function FormatBool(b: bool): string {
    if b then "true" else "false"
  }

  function ParseBool(s: string): Result<bool> {
    if s in {"1", "t", "T", "true", "TRUE", "True"} then Success(true)
    else if s in {"0", "f", "F", "false", "FALSE", "False"} then Success(false)
    else Failure(BadText)
  }

  /** Stores a policy's content: the file is written before the commit is tried. */
  function Written(files: Files, node: string, p: Policy): Files {
    if node == "" || p.dataset == "" then files else files[Path(node, p.dataset) := FormatBool(p.content)]
  }

  function WriteOutcome(node: string, p: Policy, commitOk: bool): Outcome {
    if node == "" || p.dataset == "" then Err(EmptyIdentifier) else if !commitOk then Err(GitFailure) else Ok
  }

  predicate HasFile(files: Files, node: string, id: string) {
    node != "" && id != "" && Path(node, id) in files
  }

  function ReadContent(files: Files, node: string, id: string): Result<bool> {
    if node == "" || id == "" then Failure(EmptyIdentifier)
    else if Path(node, id) !in files then Failure(GitFailure)
    else ParseBool(files[Path(node, id)])
  }

  /** An underscore for each slash, and every other character as it is. */
  lemma {:induction false} ReplacedMeaning(id: string)
    ensures |Replaced(id)| == |id|
    ensures forall i :: 0 <= i < |id| ==> Replaced(id)[i] == if id[i] == '/' then '_' else id[i]
  {
    if id != "" {
      ReplacedMeaning(id[1..]);
    }
  }

  /** Equal but for slashes where the other one has underscores. */
  predicate SameButSlashes(a: string, b: string) {
    |a| == |b| && forall i :: 0 <= i < |a| ==> a[i] == b[i] || (a[i] == '/' && b[i] == '_') || (a[i] == '_' && b[i] == '/')
  }

  lemma ReplacedExactlyWhen(a: string, b: string)
    ensures Replaced(a) == Replaced(b) <==> SameButSlashes(a, b)
  {
    ReplacedMeaning(a);
    ReplacedMeaning(b);
    assert Replaced(a) == Replaced(b) ==> forall i :: 0 <= i < |a| ==> Replaced(a)[i] == Replaced(b)[i];
    assert SameButSlashes(a, b) ==> forall i :: 0 <= i < |a| ==> Replaced(a)[i] == Replaced(b)[i];
  }

  /** Two datasets share a file exactly when they belong to one node and are equal but for
      slashes where the other one has underscores. */
  lemma PathsCollideExactlyWhen(n1: string, d1: string, n2: string, d2: string)
    ensures Path(n1, d1) == Path(n2, d2) <==> n1 == n2 && SameButSlashes(d1, d2)
  {
    ReplacedMeaning(d1);
    ReplacedMeaning(d2);
    ReplacedExactlyWhen(d1, d2);
    SplitAtLastSlash(n1, Replaced(d1), n2, Replaced(d2));
  }

  /** The file of a dataset, for instance. */
  lemma PathOfNestedIdentifier()
    ensures Path("node", "study/1") == "node/study_1"
  {
    ReplacedMeaning("study/1");
    assert Replaced("study/1") == "study_1";
  }

  lemma SplitAtLastSlash(n1: string, r1: string, n2: string, r2: string)
    requires '/' !in r1 && '/' !in r2
    ensures n1 + "/" + r1 == n2 + "/" + r2 ==> n1 == n2 && r1 == r2
  {
    var p, q := n1 + "/" + r1, n2 + "/" + r2;
    if |n1| < |n2| {
      LastSlashFurther(n1, r1, n2, r2);
    } else if |n2| < |n1| {
      LastSlashFurther(n2, r2, n1, r1);
    } else {
      assert n1 == p[..|n1|] && n2 == q[..|n2|];
      assert r1 == p[|n1| + 1..] && r2 == q[|n2| + 1..];
    }
  }

  lemma LastSlashFurther(n1: string, r1: string, n2: string, r2: string)
    requires '/' !in r1 && |n1| < |n2|
    ensures n1 + "/" + r1 != n2 + "/" + r2
  {
    var p, q := n1 + "/" + r1, n2 + "/" + r2;
    if |p| == |q| {
      assert p[|n2|] == r1[|n2| - |n1| - 1] && r1[|n2| - |n1| - 1] in r1;
      assert p[|n2|] != q[|n2|];
    }
  }

  /** A stored content is read back, and other datasets' files are as they were. */
  lemma StoreThenRead(files: Files, node: string, p: Policy, otherNode: string, other: string)
    requires node != "" && p.dataset != ""
    ensures HasFile(Written(files, node, p), node, p.dataset)
    ensures ReadContent(Written(files, node, p), node, p.dataset) == Success(p.content)
    ensures !(otherNode == node && SameButSlashes(other, p.dataset)) ==>
              && HasFile(Written(files, node, p), otherNode, other) == HasFile(files, otherNode, other)
              && ReadContent(Written(files, node, p), otherNode, other) == ReadContent(files, otherNode, other)
  {
    PathsCollideExactlyWhen(otherNode, other, node, p.dataset);
  }
}
