/** Items of several groups listed one group after the other: what each item stands for, in which order,
    and that nothing is missing or there twice. */
module Listing {
  import opened Wrappers

  /** Item i stands for subjects[i], of group groups[i]. */
  ghost predicate EachStands<T, P>(stands: (T, nat, P) -> bool, items: seq<T>, groups: seq<nat>, subjects: seq<P>) {
    && |groups| == |subjects| == |items|
    && forall i :: 0 <= i < |items| ==> stands(items[i], groups[i], subjects[i])
  }

  /** Group after group, and in each what goes before first. */
  ghost predicate InGroups<P>(before: (P, P) -> bool, groups: seq<nat>, subjects: seq<P>) {
    && |groups| == |subjects|
    && forall i, j :: 0 <= i < j < |groups| ==>
         groups[i] < groups[j] || (groups[i] == groups[j] && before(subjects[i], subjects[j]))
  }

  ghost predicate IsListed<P(!new)>(groups: seq<nat>, subjects: seq<P>, k: nat, subject: P) {
    exists i :: 0 <= i < |groups| && i < |subjects| && groups[i] == k && subjects[i] == subject
  }

  /** Nothing of the first n groups is missing. */
  ghost predicate AllListed<P(!new)>(belongs: (nat, P) -> bool, n: nat, groups: seq<nat>, subjects: seq<P>) {
    forall k: nat, subject :: k < n && belongs(k, subject) ==> IsListed(groups, subjects, k, subject)
  }

  ghost predicate Lists<T, P(!new)>(stands: (T, nat, P) -> bool, before: (P, P) -> bool, belongs: (nat, P) -> bool,
                                    n: nat, items: seq<T>, groups: seq<nat>, subjects: seq<P>)
  {
    && EachStands(stands, items, groups, subjects) && InGroups(before, groups, subjects)
    && AllListed(belongs, n, groups, subjects) && forall i :: 0 <= i < |groups| ==> groups[i] < n
  }

  /** The same for one group. */
  ghost predicate ListsOne<T, P(!new)>(stands: (T, nat, P) -> bool, before: (P, P) -> bool,
                                       belongs: (nat, P) -> bool, k: nat, items: seq<T>, subjects: seq<P>)
  {
    && |subjects| == |items|
    && (forall i :: 0 <= i < |items| ==> stands(items[i], k, subjects[i]))
    && (forall i, j :: 0 <= i < j < |subjects| ==> before(subjects[i], subjects[j]))
    && forall subject :: belongs(k, subject) ==> subject in subjects
  }

  lemma ListedMore<P(!new)>(groups: seq<nat>, subjects: seq<P>, these: seq<nat>, more: seq<P>, k: nat, subject: P)
    requires |groups| == |subjects| && |these| == |more|
    requires IsListed(groups, subjects, k, subject) || IsListed(these, more, k, subject)
    ensures IsListed(groups + these, subjects + more, k, subject)
  {
    var all, both := groups + these, subjects + more;
    if i :| 0 <= i < |groups| && groups[i] == k && subjects[i] == subject {
      assert all[i] == k && both[i] == subject;
    } else {
      var i :| 0 <= i < |these| && these[i] == k && more[i] == subject;
      assert all[|groups| + i] == k && both[|groups| + i] == subject;
    }
  }

  /** One more group. */
  lemma ListsMore<T, P(!new)>(stands: (T, nat, P) -> bool, before: (P, P) -> bool, belongs: (nat, P) -> bool,
                              n: nat, items: seq<T>, groups: seq<nat>, subjects: seq<P>,
                              more: seq<T>, moreSubjects: seq<P>) returns (all: seq<nat>)
    requires Lists(stands, before, belongs, n, items, groups, subjects)
    requires ListsOne(stands, before, belongs, n, more, moreSubjects)
    ensures Lists(stands, before, belongs, n + 1, items + more, all, subjects + moreSubjects)
  {
    var these := seq(|more|, _ => n);
    all := groups + these;
    forall k: nat, subject | k < n + 1 && belongs(k, subject)
      ensures IsListed(all, subjects + moreSubjects, k, subject)
    {
      if k == n {
        var i :| 0 <= i < |moreSubjects| && moreSubjects[i] == subject;
        assert these[i] == n && IsListed(these, moreSubjects, k, subject);
      }
      ListedMore(groups, subjects, these, moreSubjects, k, subject);
    }
    var both := subjects + moreSubjects;
    forall i, j | 0 <= i < j < |all| ensures all[i] < all[j] || (all[i] == all[j] && before(both[i], both[j])) {
      if i >= |groups| {
        assert both[i] == moreSubjects[i - |groups|] && both[j] == moreSubjects[j - |groups|];
      }
    }
  }

  function Flat<T>(lists: seq<seq<T>>, n: nat): seq<T>
    requires n <= |lists|
  {
    if n == 0 then [] else Flat(lists, n - 1) + lists[n - 1]
  }

  /** Each group of itself, so all together. */
  lemma {:induction false} ListsAll<T, P(!new)>(stands: (T, nat, P) -> bool, before: (P, P) -> bool,
                                                belongs: (nat, P) -> bool, n: nat, items: seq<seq<T>>,
                                                subjects: seq<seq<P>>) returns (groups: seq<nat>)
    requires n <= |items| && n <= |subjects|
    requires forall k: nat :: k < n ==> ListsOne(stands, before, belongs, k, items[k], subjects[k])
    ensures Lists(stands, before, belongs, n, Flat(items, n), groups, Flat(subjects, n))
  {
    groups := [];
    if n > 0 {
      var front := ListsAll(stands, before, belongs, n - 1, items, subjects);
      assert ListsOne(stands, before, belongs, n - 1, items[n - 1], subjects[n - 1]);
      groups := ListsMore(stands, before, belongs, n - 1, Flat(items, n - 1), front, Flat(subjects, n - 1),
                          items[n - 1], subjects[n - 1]);
    }
  }

  /** Of the items those kept, in order: what they are kept as, and which they are. */
  ghost predicate Picks<T, U>(keeps: T -> bool, shows: (T, U) -> bool, items: seq<T>, kept: seq<U>, from: seq<nat>) {
    && |from| == |kept| && (forall i, j :: 0 <= i < j < |from| ==> from[i] < from[j])
    && (forall i: nat :: i in from <==> i < |items| && keeps(items[i]))
    && forall j :: 0 <= j < |from| ==> from[j] < |items| && shows(items[from[j]], kept[j])
  }

  lemma PicksMore<T, U>(keeps: T -> bool, shows: (T, U) -> bool, items: seq<T>, kept: seq<U>, from: seq<nat>,
                        item: T, as_: U)
    requires Picks(keeps, shows, items, kept, from) && keeps(item) && shows(item, as_)
    ensures Picks(keeps, shows, items + [item], kept + [as_], from + [|items|])
  {
    forall j | 0 <= j < |from| ensures from[j] < |items| {
      assert from[j] in from;
    }
  }

  lemma PicksStill<T, U>(keeps: T -> bool, shows: (T, U) -> bool, items: seq<T>, kept: seq<U>, from: seq<nat>, item: T)
    requires Picks(keeps, shows, items, kept, from) && !keeps(item)
    ensures Picks(keeps, shows, items + [item], kept, from)
  {
  }

  /** What some of the items are kept as, in order. */
  function Somes<U>(results: seq<Option<U>>, n: nat): seq<U>
    requires n <= |results|
  {
    if n == 0 then []
    else if results[n - 1].Some? then Somes(results, n - 1) + [results[n - 1].value]
    else Somes(results, n - 1)
  }

  lemma {:induction false} SomesPicked<T, U>(keeps: T -> bool, shows: (T, U) -> bool, items: seq<T>,
                                             results: seq<Option<U>>, n: nat) returns (from: seq<nat>)
    requires n <= |items| == |results|
    requires forall i :: 0 <= i < |items| ==> (results[i].Some? <==> keeps(items[i]))
    requires forall i :: 0 <= i < |items| && results[i].Some? ==> shows(items[i], results[i].value)
    ensures Picks(keeps, shows, items[..n], Somes(results, n), from)
  {
    from := [];
    if n > 0 {
      from := SomesPicked(keeps, shows, items, results, n - 1);
      assert items[..n] == items[..n - 1] + [items[n - 1]];
      if results[n - 1].Some? {
        PicksMore(keeps, shows, items[..n - 1], Somes(results, n - 1), from, items[n - 1], results[n - 1].value);
        from := from + [n - 1];
      } else {
        PicksStill(keeps, shows, items[..n - 1], Somes(results, n - 1), from, items[n - 1]);
      }
    }
  }

  /** How many of the first n are marked. */
  function Marked(marks: seq<bool>, n: nat): nat
    requires n <= |marks|
  {
    if n == 0 then 0 else Marked(marks, n - 1) + if marks[n - 1] then 1 else 0
  }

  lemma {:induction false} MarkedSet(marks: seq<bool>, n: nat) returns (marked: set<nat>)
    requires n <= |marks|
    ensures |marked| == Marked(marks, n) && forall i: nat :: i in marked <==> i < n && marks[i]
  {
    marked := {};
    if n > 0 {
      marked := MarkedSet(marks, n - 1);
      if marks[n - 1] { marked := marked + {n - 1}; }
    }
  }

  /** Two rising lists of the same numbers are one. */
  lemma {:induction false} RisingIsOne(a: seq<nat>, b: seq<nat>)
    requires IsRising(a) && IsRising(b) && forall n: nat :: n in a <==> n in b
    ensures a == b
  {
    if a != [] { var n := SomeOf(a); }
    if b != [] { var n := SomeOf(b); }
    if a != [] && b != [] {
      var front, rest := a[..|a| - 1], b[..|b| - 1];
      LastAtLeast(a, b);
      LastAtLeast(b, a);
      FrontsAlike(a, b, front, rest);
      RisingIsOne(front, rest);
      FrontAndLast(a);
      FrontAndLast(b);
    }
  }

  lemma FrontAndLast(a: seq<nat>)
    requires a != []
    ensures a == a[..|a| - 1] + [a[|a| - 1]]
  {
  }

  lemma FrontsAlike(a: seq<nat>, b: seq<nat>, front: seq<nat>, rest: seq<nat>)
    requires a != [] && b != [] && front == a[..|a| - 1] && rest == b[..|b| - 1] && a[|a| - 1] == b[|b| - 1]
    requires IsRising(a) && IsRising(b) && forall n: nat :: n in a <==> n in b
    ensures IsRising(front) && IsRising(rest) && forall n: nat :: n in front <==> n in rest
  {
    forall n: nat ensures n in front <==> n in rest {
      ButTheLast(a, n);
      ButTheLast(b, n);
    }
  }

  ghost predicate IsRising(a: seq<nat>) {
    forall i, j :: 0 <= i < j < |a| ==> a[i] < a[j]
  }

  lemma SomeOf(a: seq<nat>) returns (n: nat)
    requires a != []
    ensures n in a
  {
    n := a[0];
  }

  lemma LastAtLeast(a: seq<nat>, b: seq<nat>)
    requires a != [] && b != [] && IsRising(a) && forall n: nat :: n in b ==> n in a
    ensures b[|b| - 1] <= a[|a| - 1]
  {
    assert b[|b| - 1] in b;
    var i :| 0 <= i < |a| && a[i] == b[|b| - 1];
  }

  lemma ButTheLast(a: seq<nat>, n: nat)
    requires a != [] && IsRising(a)
    ensures n in a[..|a| - 1] <==> n in a && n != a[|a| - 1]
  {
    assert a == a[..|a| - 1] + [a[|a| - 1]];
  }
}
