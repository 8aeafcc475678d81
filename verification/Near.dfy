/** `near` of demo/extract.py: strings at most one edit apart. */
module Near {
  import opened Numbers

  /** The first place where the strings differ, or the shorter one's end. */
  function Differ(a: string, b: string): (i: nat)
    ensures i <= |a| && i <= |b|
  {
    if a == "" || b == "" || a[0] != b[0] then 0 else 1 + Differ(a[1..], b[1..])
  }

  /** A string without its first n characters, as a slice that may start beyond the end. */
  function From(s: string, n: nat): string {
    if n <= |s| then s[n..] else ""
  }

  predicate IsNear(a: string, b: string) {
    && Abs(|a| - |b|) <= 1
    && var i := Differ(a, b);
      From(a, i + 1) == From(b, i + 1) || From(a, i + 1) == From(b, i) || From(a, i) == From(b, i + 1)
  }

  method Near(a: string, b: string) returns (near: bool)
    ensures near == (Distance(a, b) <= 1)
  {
    NearIsDistance(a, b);
    if Abs(|a| - |b|) > 1 { return false; }
    var i := 0;
    while i < |a| && i < |b| && a[i] == b[i]
      invariant 0 <= i <= |a| && i <= |b| && Differ(a, b) == i + Differ(a[i..], b[i..])
    {
      assert a[i..][1..] == a[i + 1..] && b[i..][1..] == b[i + 1..];
      i := i + 1;
    }
    return From(a, i + 1) == From(b, i + 1) || From(a, i + 1) == From(b, i) || From(a, i) == From(b, i + 1);
  }

  // references

  /** The least number of inserted, dropped and changed characters between two strings, as
      Levenshtein defines it. */
  function Distance(a: string, b: string): nat
    decreases |a| + |b|
  {
    if a == "" then |b|
    else if b == "" then |a|
    else if a[0] == b[0] then Distance(a[1..], b[1..])
    else 1 + Min(Distance(a[1..], b[1..]), Min(Distance(a[1..], b), Distance(a, b[1..])))
  }

  lemma {:induction false} DistanceZero(a: string, b: string)
    ensures Distance(a, b) == 0 <==> a == b
    decreases |a| + |b|
  {
    if a != "" && b != "" && a[0] == b[0] {
      DistanceZero(a[1..], b[1..]);
      assert a == [a[0]] + a[1..] && b == [b[0]] + b[1..];
    }
  }

  /** Equal first characters make no difference. */
  lemma NearTail(a: string, b: string)
    requires a != "" && b != "" && a[0] == b[0]
    ensures IsNear(a, b) == IsNear(a[1..], b[1..])
  {
    var i := Differ(a[1..], b[1..]);
    FromTail(a, i);
    FromTail(a, i + 1);
    FromTail(b, i);
    FromTail(b, i + 1);
  }

  lemma FromTail(s: string, n: nat)
    requires s != ""
    ensures From(s, n + 1) == From(s[1..], n)
  {
  }

  lemma NearHead(a: string, b: string)
    requires a != "" && b != "" && a[0] != b[0]
    ensures IsNear(a, b) <==> a[1..] == b[1..] || a[1..] == b || a == b[1..]
  {
  }

  /** Exactly the strings at distance 0 or 1. */
  lemma {:induction false} NearIsDistance(a: string, b: string)
    ensures IsNear(a, b) <==> Distance(a, b) <= 1
    decreases |a|
  {
    if a == "" || b == "" {
      assert Differ(a, b) == 0;
    } else if a[0] == b[0] {
      NearTail(a, b);
      NearIsDistance(a[1..], b[1..]);
    } else {
      NearHead(a, b);
      DistanceZero(a[1..], b[1..]);
      DistanceZero(a[1..], b);
      DistanceZero(a, b[1..]);
    }
  }

  /** The same but for one stretch of at most one character on either side. */
  ghost predicate OneEdit(a: string, b: string) {
    exists p: string, x: string, y: string, s: string :: IsEdit(a, b, p, x, y, s)
  }

  predicate IsEdit(a: string, b: string, p: string, x: string, y: string, s: string) {
    |x| <= 1 && |y| <= 1 && a == p + x + s && b == p + y + s
  }

  lemma {:induction false} SameToDiffer(a: string, b: string)
    ensures a[..Differ(a, b)] == b[..Differ(a, b)]
  {
    if a != "" && b != "" && a[0] == b[0] {
      SameToDiffer(a[1..], b[1..]);
      var i := Differ(a[1..], b[1..]);
      assert a[..i + 1] == [a[0]] + a[1..][..i] && b[..i + 1] == [b[0]] + b[1..][..i];
    }
  }

  /** One character more in front of the rest. */
  lemma {:induction false} DistanceOneMore(c: char, s: string)
    ensures Distance([c] + s, s) <= 1 && Distance(s, [c] + s) <= 1
  {
    assert ([c] + s)[1..] == s;
    if s != "" && c == s[0] {
      DistanceOneMore(c, s[1..]);
      assert [c] + s[1..] == s;
    } else {
      DistanceZero(s, s);
    }
  }

  lemma DistanceOneChanged(c: char, d: char, s: string)
    ensures Distance([c] + s, [d] + s) <= 1
  {
    assert ([c] + s)[1..] == s && ([d] + s)[1..] == s;
    DistanceZero(s, s);
  }

  lemma EditInFront(x: string, y: string, s: string)
    requires |x| <= 1 && |y| <= 1
    ensures Distance(x + s, y + s) <= 1
  {
    if x == "" && y == "" {
      assert x + s == y + s;
      DistanceZero(x + s, y + s);
    } else if x == "" {
      assert x + s == s && y == [y[0]];
      DistanceOneMore(y[0], s);
    } else if y == "" {
      assert y + s == s && x == [x[0]];
      DistanceOneMore(x[0], s);
    } else {
      assert x == [x[0]] && y == [y[0]];
      DistanceOneChanged(x[0], y[0], s);
    }
  }

  lemma {:induction false} EditIsClose(p: string, x: string, y: string, s: string)
    requires |x| <= 1 && |y| <= 1
    ensures Distance(p + x + s, p + y + s) <= 1
    decreases |p|
  {
    if p != "" {
      EditIsClose(p[1..], x, y, s);
      assert (p + x + s)[1..] == p[1..] + x + s && (p + y + s)[1..] == p[1..] + y + s;
    } else {
      EditInFront(x, y, s);
      assert p + x + s == x + s && p + y + s == y + s;
    }
  }

  lemma NearIsEdit(a: string, b: string)
    requires IsNear(a, b)
    ensures OneEdit(a, b)
  {
    var i := Differ(a, b);
    SameToDiffer(a, b);
    if From(a, i + 1) == From(b, i + 1) {
      RestIsEdit(a, b, i, 1, 1);
    } else if From(a, i + 1) == From(b, i) {
      RestIsEdit(a, b, i, 1, 0);
    } else {
      RestIsEdit(a, b, i, 0, 1);
    }
  }

  lemma RestIsEdit(a: string, b: string, i: nat, m: nat, n: nat)
    requires i <= |a| && i <= |b| && m <= 1 && n <= 1
    requires a[..i] == b[..i] && From(a, i + m) == From(b, i + n)
    ensures OneEdit(a, b)
  {
    Cut(a, i, m);
    Cut(b, i, n);
    assert IsEdit(a, b, a[..i], a[i..Min(i + m, |a|)], b[i..Min(i + n, |b|)], From(a, i + m));
  }

  lemma Cut(s: string, i: nat, n: nat)
    requires i <= |s|
    ensures s == s[..i] + s[i..Min(i + n, |s|)] + From(s, i + n)
  {
  }

  /** Near strings differ by at most one inserted, dropped or changed character, and no others. */
  lemma NearIsOneEdit(a: string, b: string)
    ensures IsNear(a, b) <==> OneEdit(a, b)
  {
    if OneEdit(a, b) {
      var p: string, x: string, y: string, s: string :| IsEdit(a, b, p, x, y, s);
      EditIsClose(p, x, y, s);
      NearIsDistance(a, b);
    }
    if IsNear(a, b) { NearIsEdit(a, b); }
  }
}
