/** Python's sort by a key of tuples, strings and numbers: in order, stable, nothing lost. */
module Ordering {

  /** Numbers compared one after the other; a prefix comes first. */
  predicate Lex(a: seq<int>, b: seq<int>) {
    a == [] || (b != [] && (a[0] < b[0] || (a[0] == b[0] && Lex(a[1..], b[1..]))))
  }

  /** The parts of a key, compared one after the other. */
  type Key = seq<seq<int>>

  predicate NotAfter(a: Key, b: Key) {
    a == [] || (b != [] && if a[0] == b[0] then NotAfter(a[1..], b[1..]) else Lex(a[0], b[0]))
  }

  function Codes(s: string): (codes: seq<int>)
    ensures |codes| == |s|
  {
    seq(|s|, i requires 0 <= i < |s| => s[i] as int)
  }

  /** The first place where they differ decides; if there is none, the shorter comes first. */
  ghost predicate FirstSmaller(a: seq<int>, b: seq<int>, n: nat) {
    n < |a| && n < |b| && a[n] < b[n] && forall i :: 0 <= i < n ==> a[i] == b[i]
  }

  lemma {:induction false} LexIs(a: seq<int>, b: seq<int>)
    ensures Lex(a, b) <==> a <= b || exists n: nat :: FirstSmaller(a, b, n)
  {
    if a != [] && b != [] {
      if a[0] == b[0] {
        LexIs(a[1..], b[1..]);
        PrefixLater(a, b);
        if n: nat :| FirstSmaller(a[1..], b[1..], n) { assert FirstSmaller(a, b, n + 1); }
        if n: nat :| FirstSmaller(a, b, n) { assert n > 0 && FirstSmaller(a[1..], b[1..], n - 1); }
      } else if a[0] < b[0] {
        assert FirstSmaller(a, b, 0);
      } else {
        assert forall n: nat :: FirstSmaller(a, b, n) ==> n == 0;
      }
    }
  }

  lemma PrefixLater(a: seq<int>, b: seq<int>)
    requires a != [] && b != [] && a[0] == b[0]
    ensures a <= b <==> a[1..] <= b[1..]
  {
    assert a == [a[0]] + a[1..] && b == [b[0]] + b[1..];
  }

  lemma {:induction false} LexTotal(a: seq<int>, b: seq<int>)
    ensures Lex(a, b) || Lex(b, a)
  {
    if a != [] && b != [] && a[0] == b[0] { LexTotal(a[1..], b[1..]); }
  }

  lemma {:induction false} LexBoth(a: seq<int>, b: seq<int>)
    requires Lex(a, b) && Lex(b, a)
    ensures a == b
  {
    if a != [] && b != [] {
      LexBoth(a[1..], b[1..]);
      assert a == [a[0]] + a[1..] && b == [b[0]] + b[1..];
    }
  }

  lemma {:induction false} LexOn(a: seq<int>, b: seq<int>, c: seq<int>)
    requires Lex(a, b) && Lex(b, c)
    ensures Lex(a, c)
  {
    if a != [] && a[0] == b[0] && b[0] == c[0] { LexOn(a[1..], b[1..], c[1..]); }
  }

  lemma {:induction false} Total(a: Key, b: Key)
    ensures NotAfter(a, b) || NotAfter(b, a)
  {
    if a != [] && b != [] {
      if a[0] == b[0] { Total(a[1..], b[1..]); } else { LexTotal(a[0], b[0]); }
    }
  }

  lemma {:induction false} Both(a: Key, b: Key)
    requires NotAfter(a, b) && NotAfter(b, a)
    ensures a == b
  {
    if a != [] && b != [] {
      if a[0] == b[0] {
        Both(a[1..], b[1..]);
        assert a == [a[0]] + a[1..] && b == [b[0]] + b[1..];
      } else {
        LexBoth(a[0], b[0]);
      }
    }
  }

  lemma {:induction false} On(a: Key, b: Key, c: Key)
    requires NotAfter(a, b) && NotAfter(b, c)
    ensures NotAfter(a, c)
  {
    if a != [] {
      if a[0] == b[0] && b[0] == c[0] {
        On(a[1..], b[1..], c[1..]);
      } else if a[0] != b[0] && b[0] != c[0] {
        LexOn(a[0], b[0], c[0]);
        if a[0] == c[0] { LexBoth(a[0], b[0]); }
      }
    }
  }

  // sorting

  ghost predicate InOrder<T(!new)>(key: T -> Key, items: seq<T>) {
    forall i, j :: 0 <= i < j < |items| ==> NotAfter(key(items[i]), key(items[j]))
  }

  /** The items with one key, in order. */
  ghost function With<T>(key: T -> Key, items: seq<T>, k: Key): seq<T> {
    if items == [] then []
    else With(key, items[..|items| - 1], k) + if key(items[|items| - 1]) == k then [items[|items| - 1]] else []
  }

  /** In order, the same items, and those with one key in the order they had. */
  ghost predicate IsSorted<T(!new)>(key: T -> Key, items: seq<T>, sorted: seq<T>) {
    && InOrder(key, sorted) && multiset(sorted) == multiset(items)
    && forall k: Key :: With(key, sorted, k) == With(key, items, k)
  }

  lemma WithThen<T>(key: T -> Key, items: seq<T>, item: T, k: Key)
    ensures With(key, items + [item], k) == With(key, items, k) + if key(item) == k then [item] else []
  {
    assert (items + [item])[..|items|] == items;
  }

  lemma {:induction false} WithParts<T>(key: T -> Key, a: seq<T>, b: seq<T>, k: Key)
    ensures With(key, a + b, k) == With(key, a, k) + With(key, b, k)
  {
    if b == [] {
      assert a + b == a;
    } else {
      var front, last := b[..|b| - 1], b[|b| - 1];
      WithParts(key, a, front, k);
      assert a + b == (a + front) + [last];
      WithThen(key, a + front, last, k);
    }
  }

  /** None of these has the key. */
  lemma {:induction false} WithNone<T>(key: T -> Key, items: seq<T>, k: Key)
    requires forall i :: 0 <= i < |items| ==> key(items[i]) != k
    ensures With(key, items, k) == []
  {
    if items != [] { WithNone(key, items[..|items| - 1], k); }
  }

  /** Where an item goes: after all that do not come after it. */
  method Place<T(!new)>(key: T -> Key, items: seq<T>, item: T) returns (n: nat)
    requires InOrder(key, items)
    ensures n <= |items| && forall i :: 0 <= i < n ==> NotAfter(key(items[i]), key(item))
    ensures forall i :: n <= i < |items| ==> !NotAfter(key(items[i]), key(item))
  {
    n := |items|;
    while n > 0 && !NotAfter(key(items[n - 1]), key(item))
      invariant 0 <= n <= |items| && forall i :: n <= i < |items| ==> !NotAfter(key(items[i]), key(item))
    {
      n := n - 1;
    }
    forall i | 0 <= i < n ensures NotAfter(key(items[i]), key(item)) {
      if i < n - 1 { On(key(items[i]), key(items[n - 1]), key(item)); }
    }
  }

  lemma InsertedInOrder<T(!new)>(key: T -> Key, items: seq<T>, item: T, n: nat)
    requires InOrder(key, items) && n <= |items|
    requires forall i :: 0 <= i < n ==> NotAfter(key(items[i]), key(item))
    requires forall i :: n <= i < |items| ==> !NotAfter(key(items[i]), key(item))
    ensures InOrder(key, items[..n] + [item] + items[n..])
  {
    var more := items[..n] + [item] + items[n..];
    forall i, j | 0 <= i < j < |more| ensures NotAfter(key(more[i]), key(more[j])) {
      if i == n {
        Total(key(item), key(items[j - 1]));
      }
    }
  }

  lemma InsertedStable<T(!new)>(key: T -> Key, items: seq<T>, item: T, n: nat, k: Key)
    requires n <= |items|
    requires forall i :: n <= i < |items| ==> !NotAfter(key(items[i]), key(item))
    ensures With(key, items[..n] + [item] + items[n..], k)
            == With(key, items, k) + if key(item) == k then [item] else []
  {
    var a, b := items[..n], items[n..];
    assert items == a + b;
    WithParts(key, a, b, k);
    WithParts(key, a + [item], b, k);
    WithThen(key, a, item, k);
    if key(item) == k {
      Total(k, k);
      WithNone(key, b, k);
    }
  }

  lemma InsertedBag<T>(items: seq<T>, item: T, n: nat)
    requires n <= |items|
    ensures multiset(items[..n] + [item] + items[n..]) == multiset(items) + multiset{item}
  {
    assert items == items[..n] + items[n..];
  }

  method Sort<T(!new)>(key: T -> Key, items: seq<T>) returns (sorted: seq<T>)
    ensures IsSorted(key, items, sorted)
  {
    sorted := [];
    for m := 0 to |items|
      invariant IsSorted(key, items[..m], sorted)
    {
      var n := Place(key, sorted, items[m]);
      InsertedInOrder(key, sorted, items[m], n);
      InsertedBag(sorted, items[m], n);
      assert items[..m + 1] == items[..m] + [items[m]];
      forall k: Key ensures With(key, sorted[..n] + [items[m]] + sorted[n..], k) == With(key, items[..m + 1], k) {
        InsertedStable(key, sorted, items[m], n, k);
        WithThen(key, items[..m], items[m], k);
      }
      sorted := sorted[..n] + [items[m]] + sorted[n..];
    }
    assert items[..|items|] == items;
  }

  lemma SortedLength<T(!new)>(key: T -> Key, items: seq<T>, sorted: seq<T>)
    requires IsSorted(key, items, sorted)
    ensures |sorted| == |items|
  {
    assert |multiset(sorted)| == |sorted| && |multiset(items)| == |items|;
  }

  ghost predicate Alike<T(!new)>(key: T -> Key, a: seq<T>, b: seq<T>) {
    forall k: Key :: With(key, a, k) == With(key, b, k)
  }

  /** What comes last has the same key in both. */
  lemma LastKey<T(!new)>(key: T -> Key, a: seq<T>, b: seq<T>)
    requires InOrder(key, a) && InOrder(key, b) && Alike(key, a, b) && a != []
    ensures b != [] && NotAfter(key(a[|a| - 1]), key(b[|b| - 1]))
  {
    var k := key(a[|a| - 1]);
    assert With(key, b, k) == With(key, a, k) != [];
    if forall i :: 0 <= i < |b| ==> key(b[i]) != k {
      WithNone(key, b, k);
    }
    Total(k, k);
  }

  lemma LessAlike<T(!new)>(key: T -> Key, a: seq<T>, b: seq<T>)
    requires Alike(key, a, b) && a != [] && b != [] && key(a[|a| - 1]) == key(b[|b| - 1])
    ensures a[|a| - 1] == b[|b| - 1] && Alike(key, a[..|a| - 1], b[..|b| - 1])
  {
    var x, y := a[|a| - 1], b[|b| - 1];
    LessWith(key, a, b, x, y, key(x));
    var front, other := a[..|a| - 1], b[..|b| - 1];
    forall k: Key ensures With(key, front, k) == With(key, other, k) {
      LessWith(key, a, b, x, y, k);
    }
  }

  lemma LessWith<T(!new)>(key: T -> Key, a: seq<T>, b: seq<T>, x: T, y: T, k: Key)
    requires a != [] && b != [] && x == a[|a| - 1] && y == b[|b| - 1] && key(x) == key(y)
    requires With(key, a, k) == With(key, b, k)
    ensures With(key, a[..|a| - 1], k) == With(key, b[..|b| - 1], k) && (key(x) == k ==> x == y)
  {
    var f, g := With(key, a[..|a| - 1], k), With(key, b[..|b| - 1], k);
    var last, other := if key(x) == k then [x] else [], if key(x) == k then [y] else [];
    assert f + last == With(key, a, k) == With(key, b, k) == g + other;
    SameParts(f, g, last, other);
  }

  lemma SameParts<T>(f: seq<T>, g: seq<T>, last: seq<T>, other: seq<T>)
    requires f + last == g + other && |last| == |other|
    ensures f == g && last == other
  {
    assert f == (f + last)[..|f|] == (g + other)[..|g|] == g;
    assert last == (f + last)[|f|..] == (g + other)[|g|..] == other;
  }

  /** There is only one such order: it says all there is to say. */
  lemma SortedIsOne<T(!new)>(key: T -> Key, items: seq<T>, a: seq<T>, b: seq<T>)
    requires IsSorted(key, items, a) && IsSorted(key, items, b)
    ensures a == b
  {
    assert Alike(key, a, b);
    InOrderIsOne(key, a, b);
  }

  lemma {:induction false} InOrderIsOne<T(!new)>(key: T -> Key, a: seq<T>, b: seq<T>)
    requires InOrder(key, a) && InOrder(key, b) && Alike(key, a, b)
    ensures a == b
  {
    if a != [] {
      LastKey(key, a, b);
      LastKey(key, b, a);
      Both(key(a[|a| - 1]), key(b[|b| - 1]));
      LessAlike(key, a, b);
      InOrderIsOne(key, a[..|a| - 1], b[..|b| - 1]);
    } else if b != [] {
      LastKey(key, b, a);
    }
  }
}
