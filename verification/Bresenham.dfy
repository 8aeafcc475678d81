/** The points of Bresenham's line, counted from its start: k steps along the longer side, and
    the nearest whole step along the shorter. */
module Bresenham {

  function Longer(a: nat, b: nat): nat { if a >= b then a else b }

  /** k times small over big, rounded to nearest, halves up. */
  function Minor(small: nat, big: nat, k: nat): nat {
    if big == 0 then 0 else (2 * (small * k) + big) / (2 * big)
  }

  function AcrossAt(a: nat, b: nat, k: nat): nat { if a >= b then k else Minor(a, b, k) }

  function DownAt(a: nat, b: nat, k: nat): nat { if a >= b then Minor(b, a, k) else k }

  /** The minor coordinate is within half a step of the ideal line: small k - big Minor is how
      far, big times over. */
  lemma MinorNear(small: nat, big: nat, k: nat)
    requires big > 0
    ensures -(big as int) <= 2 * (small * k - big * Minor(small, big, k)) < big
  {
    var n := 2 * (small * k) + big;
    assert n == 2 * big * (n / (2 * big)) + n % (2 * big);
    assert 2 * big * (n / (2 * big)) == 2 * (big * Minor(small, big, k));
  }

  lemma MinorOnly(small: nat, big: nat, k: nat, m: nat)
    requires big > 0 && -(big as int) <= 2 * (small * k - big * m) < big
    ensures m == Minor(small, big, k)
  {
    MinorNear(small, big, k);
    var r := Minor(small, big, k);
    assert big * (m + 1) == big * m + big && big * (r + 1) == big * r + big;
    if m < r {
      Scaled(big, m + 1, r);
    } else if m > r {
      Scaled(big, r + 1, m);
    }
  }

  lemma Scaled(big: nat, p: nat, q: nat)
    requires p <= q
    ensures big * p <= big * q
  {
  }

  /** What `line` keeps in `error` after k steps. */
  function ErrorAt(a: nat, b: nat, k: nat): int {
    a - b + a * DownAt(a, b, k) - b * AcrossAt(a, b, k)
  }

  lemma ErrorStart(a: nat, b: nat)
    ensures AcrossAt(a, b, 0) == 0 && DownAt(a, b, 0) == 0 && ErrorAt(a, b, 0) == a - b
  {
    if a > 0 { MinorOnly(b, a, 0, 0); }
    if b > 0 { MinorOnly(a, b, 0, 0); }
    assert a * 0 == 0 && b * 0 == 0;
  }

  /** The comparisons take the next step: the longer side always, the shorter where its rounded
      coordinate moves on. */
  lemma StepAt(a: nat, b: nat, k: nat)
    requires k < Longer(a, b)
    ensures 2 * ErrorAt(a, b, k) >= -(b as int) <==> AcrossAt(a, b, k + 1) == AcrossAt(a, b, k) + 1
    ensures 2 * ErrorAt(a, b, k) <= a <==> DownAt(a, b, k + 1) == DownAt(a, b, k) + 1
    ensures AcrossAt(a, b, k) <= AcrossAt(a, b, k + 1) <= AcrossAt(a, b, k) + 1
    ensures DownAt(a, b, k) <= DownAt(a, b, k + 1) <= DownAt(a, b, k) + 1
  {
    if a >= b {
      MinorStep(b, a, k);
    } else {
      MinorStep(a, b, k);
    }
  }

  lemma MinorStep(small: nat, big: nat, k: nat)
    requires big > 0 && small <= big
    ensures var m, n := Minor(small, big, k), Minor(small, big, k + 1);
      && (n == m || n == m + 1)
      && (n == m + 1 <==> 2 * (small * k - big * m) + 2 * small >= big)
      && -(big as int) <= 2 * (small * k - big * m) < big
  {
    var m := Minor(small, big, k);
    MinorNear(small, big, k);
    assert small * (k + 1) == small * k + small;
    assert big * (m + 1) == big * m + big;
    MinorOnly(small, big, k + 1, if 2 * (small * k - big * m) + 2 * small >= big then m + 1 else m);
  }

  /** The walk is at the end after as many steps as the longer side has, and not before. */
  lemma EndAt(a: nat, b: nat, k: nat)
    requires k <= Longer(a, b)
    ensures AcrossAt(a, b, k) == a && DownAt(a, b, k) == b <==> k == Longer(a, b)
  {
    if a >= b && a > 0 {
      if k == a { MinorOnly(b, a, a, b); }
    } else if b > 0 {
      if k == b { MinorOnly(a, b, b, a); }
    }
  }
}
