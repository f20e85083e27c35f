/** Result types and sequence vocabulary shared by the models of Lohpi's components. */
module Common {

  datatype Option<+T> = None | Some(value: T)

  /** The error values the modelled functions return. A Go panic is `Panicked`. */
  datatype Error =
    | NilArgument
    | EmptyIdentifier
    | NoSuchDataset
    | UnreadableDataset
    | NoMembers
    | UnknownMode
    | NoNetworkNode
    | GitFailure
    | BadText
    | NoAccess
    | NotImplemented
    | RequestFailed
    | NotificationFailed
    | RecordFailed
    | LogFailure
    | Panicked

  datatype Outcome = Ok | Err(error: Error)

  datatype Result<+T> = Success(value: T) | Failure(error: Error)

  function Max(a: int, b: int): int {
    if a < b then b else a
  }

  function Min(a: int, b: int): int {
    if a < b then a else b
  }

  /** The value a Go int32 holds after n has been stored into it. */
  function ToInt32(n: int): int {
    (n + 0x8000_0000) % 0x1_0000_0000 - 0x8000_0000
  }

  /** The value a Go int64 holds after n has been stored into it. */
  function ToInt64(n: int): int {
    (n + 0x8000_0000_0000_0000) % 0x1_0000_0000_0000_0000 - 0x8000_0000_0000_0000
  }

  /** Both lie in their type's range, and differ from n by whole turns. */
  lemma WrapsAround(n: int)
    ensures -0x8000_0000 <= ToInt32(n) <= 0x7fff_ffff && (ToInt32(n) - n) % 0x1_0000_0000 == 0
    ensures -0x8000_0000_0000_0000 <= ToInt64(n) <= 0x7fff_ffff_ffff_ffff && (ToInt64(n) - n) % 0x1_0000_0000_0000_0000 == 0
  {
    assert (n + 0x8000_0000) == (n + 0x8000_0000) / 0x1_0000_0000 * 0x1_0000_0000 + (n + 0x8000_0000) % 0x1_0000_0000;
    assert (n + 0x8000_0000_0000_0000)
           == (n + 0x8000_0000_0000_0000) / 0x1_0000_0000_0000_0000 * 0x1_0000_0000_0000_0000
              + (n + 0x8000_0000_0000_0000) % 0x1_0000_0000_0000_0000;
  }

  function Elements<T>(s: seq<T>): set<T> {
    set x | x in s
  }

  lemma ElementsSnoc<T>(s: seq<T>, x: T)
    ensures Elements(s + [x]) == Elements(s) + {x}
  {
  }

  /** The first i + 1 elements are the first i and the next one. */
  lemma ElementsUpTo<T>(s: seq<T>, i: nat)
    requires i < |s|
    ensures Elements(s[..i + 1]) == Elements(s[..i]) + {s[i]}
  {
    assert s[..i + 1] == s[..i] + [s[i]];
    ElementsSnoc(s[..i], s[i]);
  }

  function Last<T>(s: seq<T>): T
    requires s != []
  {
    s[|s| - 1]
  }

  function Repeat<T>(x: T, n: nat): seq<T> {
    seq(n, i => x)
  }

  function Flatten<T>(ss: seq<seq<T>>): seq<T> {
    if ss == [] then [] else Flatten(ss[..|ss| - 1]) + Last(ss)
  }

  lemma FlattenSnoc<T>(ss: seq<seq<T>>, s: seq<T>)
    ensures Flatten(ss + [s]) == Flatten(ss) + s
  {
    assert (ss + [s])[..|ss|] == ss;
  }

  /** An element of the concatenation lies in one of the parts, and conversely. */
  lemma {:induction false} FlattenMember<T>(ss: seq<seq<T>>, x: T)
    ensures x in Flatten(ss) <==> exists i :: 0 <= i < |ss| && x in ss[i]
  {
    if ss != [] {
      var front := ss[..|ss| - 1];
      FlattenMember(front, x);
      if x in Flatten(ss) {
        if x in Flatten(front) {
          var i :| 0 <= i < |front| && x in front[i];
          assert x in ss[i];
        } else {
          assert x in ss[|ss| - 1];
        }
      }
      if i :| 0 <= i < |ss| && x in ss[i] {
        if i < |front| {
          assert x in front[i];
        }
      }
    }
  }

  /** b lists some prefix of a: what a recipient list is to a member list. */
  predicate IsPrefix<T(==)>(b: seq<T>, a: seq<T>) {
    |b| <= |a| && b == a[..|b|]
  }
}
