/** Small generic pieces: the optional value the source writes as a nullable reference (a
    platform that may be null), and the distinctness of the objects in a list. */
module Wrappers {
  datatype Option<+T> = None | Some(value: T)

  /** The `i`th and `j`th elements of `s` are different objects. */
  ghost predicate Differ<T>(s: seq<T>, i: int, j: int)
  {
    0 <= i < |s| && 0 <= j < |s| ==> s[i] != s[j]
  }

  /** No element occurs twice: the lists the level loops over hold each object once. The pairs
      are reached through `Differ`, so that the fact is used only where a proof names a pair. */
  ghost predicate Distinct<T>(s: seq<T>)
  {
    forall i, j {:trigger Differ(s, i, j)} :: 0 <= i < j < |s| ==> Differ(s, i, j)
  }

  /** In a list without repeats, an element differs from every other. */
  lemma DistinctOthers<T>(s: seq<T>, i: int)
    requires Distinct(s) && 0 <= i < |s|
    ensures forall j :: 0 <= j < |s| && j != i ==> s[j] != s[i]
  {
    forall j | 0 <= j < |s| && j != i
      ensures s[j] != s[i]
    {
      if j < i {
        assert Differ(s, j, i);
      } else {
        assert Differ(s, i, j);
      }
    }
  }

  /** Appending an element not yet present keeps a list without repeats. */
  lemma DistinctAppend<T>(s: seq<T>, x: T)
    requires Distinct(s) && x !in s
    ensures Distinct(s + [x])
  {
    forall i, j | 0 <= i < j < |s| + 1
      ensures Differ(s + [x], i, j)
    {
      if j < |s| {
        assert Differ(s, i, j);
      }
    }
  }
}
