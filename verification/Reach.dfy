/** Reachability by steps of a relation, with an explicit path as its witness. */
module Reach {

  ghost predicate IsPath<T(!new)>(step: (T, T) -> bool, path: seq<T>) {
    |path| > 0 && forall i :: 0 <= i < |path| - 1 ==> step(path[i], path[i + 1])
  }

  ghost predicate Reaches<T(!new)>(step: (T, T) -> bool, a: T, b: T) {
    exists path: seq<T> :: IsPath(step, path) && path[0] == a && path[|path| - 1] == b
  }

  ghost predicate Symmetric<T(!new)>(step: (T, T) -> bool) {
    forall a, b :: step(a, b) ==> step(b, a)
  }

  lemma Self<T(!new)>(step: (T, T) -> bool, a: T)
    ensures Reaches(step, a, a)
  {
    assert IsPath(step, [a]);
  }

  lemma Then<T(!new)>(step: (T, T) -> bool, a: T, b: T, c: T)
    requires Reaches(step, a, b) && step(b, c)
    ensures Reaches(step, a, c)
  {
    var path: seq<T> :| IsPath(step, path) && path[0] == a && path[|path| - 1] == b;
    assert IsPath(step, path + [c]);
  }

  lemma Transitive<T(!new)>(step: (T, T) -> bool, a: T, b: T, c: T)
    requires Reaches(step, a, b) && Reaches(step, b, c)
    ensures Reaches(step, a, c)
  {
    var p: seq<T> :| IsPath(step, p) && p[0] == a && p[|p| - 1] == b;
    var q: seq<T> :| IsPath(step, q) && q[0] == b && q[|q| - 1] == c;
    var r := p + q[1..];
    assert forall i :: |p| - 1 <= i < |r| ==> r[i] == q[i - |p| + 1];
    assert IsPath(step, r);
  }

  lemma Back<T(!new)>(step: (T, T) -> bool, a: T, b: T)
    requires Symmetric(step) && Reaches(step, a, b)
    ensures Reaches(step, b, a)
  {
    var p: seq<T> :| IsPath(step, p) && p[0] == a && p[|p| - 1] == b;
    var r := seq(|p|, i requires 0 <= i < |p| => p[|p| - 1 - i]);
    forall i | 0 <= i < |r| - 1 ensures step(r[i], r[i + 1]) {
      assert step(p[|p| - 2 - i], p[|p| - 2 - i + 1]);
    }
    assert IsPath(step, r);
  }

  /** What holds at the start and is kept by every step holds at the end. */
  lemma Kept<T(!new)>(step: (T, T) -> bool, holds: T -> bool, a: T, b: T)
    requires Reaches(step, a, b) && holds(a)
    requires forall x, y :: holds(x) && step(x, y) ==> holds(y)
    ensures holds(b)
  {
    var p: seq<T> :| IsPath(step, p) && p[0] == a && p[|p| - 1] == b;
    var i := 0;
    while i < |p| - 1
      invariant 0 <= i < |p| && holds(p[i])
    {
      assert step(p[i], p[i + 1]);
      i := i + 1;
    }
  }

  /** A walk under one relation is a walk under any relation that allows its steps. */
  lemma Widen<T(!new)>(narrow: (T, T) -> bool, wide: (T, T) -> bool, a: T, b: T)
    requires Reaches(narrow, a, b)
    requires forall x, y :: narrow(x, y) ==> wide(x, y)
    ensures Reaches(wide, a, b)
  {
    var p: seq<T> :| IsPath(narrow, p) && p[0] == a && p[|p| - 1] == b;
    assert IsPath(wide, p);
  }
}
