/** Small value types and sequence facts shared by the whole model. */
module Prelude {

  datatype Option<+T> = None | Some(value: T) {
    function GetOr(default: T): T {
      match this
      case None => default
      case Some(v) => v
    }
  }

  ghost predicate NoDuplicates<T>(s: seq<T>) {
    forall i, j :: 0 <= i < j < |s| ==> s[i] != s[j]
  }

  function Elements<T>(s: seq<T>): set<T> {
    set x | x in s
  }

  /** A list without duplicates is as long as the set of its elements is large. */
  lemma {:induction false} NoDuplicatesCount<T>(s: seq<T>)
    requires NoDuplicates(s)
    ensures |Elements(s)| == |s|
  {
    if s == [] {
      assert Elements(s) == {};
    } else {
      var front, x := s[..|s| - 1], s[|s| - 1];
      NoDuplicatesCount(front);
      assert s == front + [x];
      assert Elements(s) == Elements(front) + {x};
      assert x !in Elements(front);
    }
  }

  function Image<A, B>(f: A -> B, s: set<A>): set<B> {
    set a | a in s :: f(a)
  }

  /** The image of a set under a function that is injective on it has the same size. */
  lemma {:induction false} InjectiveImageCount<A, B>(f: A -> B, s: set<A>)
    requires forall a, b :: a in s && b in s && f(a) == f(b) ==> a == b
    ensures |Image(f, s)| == |s|
  {
    if s == {} {
      assert Image(f, s) == {};
    } else {
      var x :| x in s;
      var rest := s - {x};
      InjectiveImageCount(f, rest);
      assert Image(f, s) == Image(f, rest) + {f(x)};
      assert f(x) !in Image(f, rest);
    }
  }

  lemma {:induction false} SubsetCount<T>(a: set<T>, b: set<T>)
    requires a <= b
    ensures |a| <= |b|
  {
    assert b == a + (b - a);
    assert |b| == |a| + |b - a|;
  }

  /** The first element of a list that has a property some element has. */
  lemma {:induction false} FindFirst<T>(s: seq<T>, p: T -> bool) returns (first: nat)
    requires exists i :: 0 <= i < |s| && p(s[i])
    ensures first < |s| && p(s[first])
    ensures forall j :: 0 <= j < first ==> !p(s[j])
  {
    first := 0;
    while !p(s[first])
      invariant first < |s|
      invariant forall j :: 0 <= j < first ==> !p(s[j])
      decreases |s| - first
    {
      first := first + 1;
    }
  }
}
