/** Polynomials over GF(2) as coefficients, highest power first, and the shift register that
    divides by one. A generator x^w + g is given by g, its lower w coefficients. */
module Gf2 {
  type Bits = seq<bool>

  function Zeros(n: nat): (z: Bits)
    ensures |z| == n
  {
    seq(n, _ => false)
  }

  function Ones(n: nat): Bits {
    seq(n, _ => true)
  }

  function Xor(a: Bits, b: Bits): (c: Bits)
    requires |a| == |b|
    ensures |c| == |a| && forall i :: 0 <= i < |c| ==> c[i] == (a[i] != b[i])
  {
    seq(|a|, i requires 0 <= i < |a| => a[i] != b[i])
  }

  function Not(a: Bits): Bits {
    Xor(a, Ones(|a|))
  }

  function Shift(r: Bits): (s: Bits)
    requires |r| > 0
    ensures |s| == |r|
  {
    r[1..] + [false]
  }

  /** One clock of the register: the bit that leaves, xored with the one that comes, says
      whether the generator is added. */
  function Step(r: Bits, bit: bool, g: Bits): (s: Bits)
    requires |r| == |g| > 0
    ensures |s| == |g|
  {
    if r[0] != bit then Xor(Shift(r), g) else Shift(r)
  }

  function Run(r: Bits, message: Bits, g: Bits): (s: Bits)
    requires |r| == |g| > 0
    ensures |s| == |g|
  {
    if message == [] then r
    else Step(Run(r, message[..|message| - 1], g), message[|message| - 1], g)
  }

  lemma {:induction false} RunThen(r: Bits, a: Bits, b: Bits, g: Bits)
    requires |r| == |g| > 0
    ensures Run(r, a + b, g) == Run(Run(r, a, g), b, g)
  {
    if b == [] {
      assert a + b == a;
    } else {
      RunThen(r, a, b[..|b| - 1], g);
      assert (a + b)[..|a + b| - 1] == a + b[..|b| - 1];
    }
  }

  lemma RunOne(r: Bits, bit: bool, g: Bits)
    requires |r| == |g| > 0
    ensures Run(r, [bit], g) == Step(r, bit, g)
  {
    assert [bit][..0] == [];
    assert Run(r, [], g) == r;
  }

  // the register is linear and loses nothing

  lemma StepLinear(r: Bits, s: Bits, a: bool, b: bool, g: Bits)
    requires |r| == |s| == |g| > 0
    ensures Step(Xor(r, s), a != b, g) == Xor(Step(r, a, g), Step(s, b, g))
  {
  }

  /** The register of a sum is the sum of the registers. */
  lemma {:induction false} RunLinear(r: Bits, s: Bits, m: Bits, n: Bits, g: Bits)
    requires |r| == |s| == |g| > 0 && |m| == |n|
    ensures Run(Xor(r, s), Xor(m, n), g) == Xor(Run(r, m, g), Run(s, n, g))
  {
    if m != [] {
      var k := |m| - 1;
      RunLinear(r, s, m[..k], n[..k], g);
      assert Xor(m, n)[..k] == Xor(m[..k], n[..k]);
      StepLinear(Run(r, m[..k], g), Run(s, n[..k], g), m[k], n[k], g);
    }
  }

  lemma XorSelf(a: Bits)
    ensures Xor(a, a) == Zeros(|a|)
  {
  }

  lemma XorZero(a: Bits, b: Bits)
    requires |a| == |b|
    ensures Xor(a, b) == Zeros(|a|) <==> a == b
  {
    forall i | 0 <= i < |a| && Xor(a, b) == Zeros(|a|) ensures a[i] == b[i] {
      assert !Xor(a, b)[i];
    }
    if a == b {
      XorSelf(a);
    }
  }

  /** A register with a bit in it keeps one as zeros come, if the generator's last bit is set. */
  lemma StepKeepsNonzero(r: Bits, g: Bits)
    requires |r| == |g| > 0 && g[|g| - 1]
    ensures Step(r, false, g) == Zeros(|g|) <==> r == Zeros(|g|)
  {
    var s := Step(r, false, g);
    if s == Zeros(|g|) {
      assert !s[|g| - 1];
      forall i | 0 <= i < |g| ensures !r[i] {
        assert i > 0 ==> s[i - 1] == r[i];
      }
    }
  }

  lemma {:induction false} ZerosKeepNonzero(r: Bits, n: nat, g: Bits)
    requires |r| == |g| > 0 && g[|g| - 1]
    ensures Run(r, Zeros(n), g) == Zeros(|g|) <==> r == Zeros(|g|)
  {
    if n > 0 {
      ZerosKeepNonzero(r, n - 1, g);
      assert Zeros(n)[..n - 1] == Zeros(n - 1);
      StepKeepsNonzero(Run(r, Zeros(n - 1), g), g);
    }
  }

  /** The message in the register's first places. */
  function Padded(m: Bits, w: nat): (p: Bits)
    requires |m| <= w
    ensures |p| == w
  {
    m + Zeros(w - |m|)
  }

  /** Up to a register's width of message can be xored in at once and then shifted through:
      the byte at a time form is the bit at a time form. */
  lemma {:induction false} XorInFirst(r: Bits, m: Bits, g: Bits)
    requires |r| == |g| > 0 && |m| <= |g|
    ensures Run(r, m, g) == Run(Xor(r, Padded(m, |g|)), Zeros(|m|), g)
    decreases |m|
  {
    var w := |g|;
    if m == [] {
      assert Xor(r, Padded(m, w)) == r;
      assert Zeros(0) == [];
    } else {
      var rest := m[1..];
      assert m == [m[0]] + rest && Zeros(|m|) == [false] + Zeros(|rest|);
      RunFirst(r, m[0], rest, g);
      XorInFirst(Step(r, m[0], g), rest, g);
      StepPadded(r, m, g);
      RunFirst(Xor(r, Padded(m, w)), false, Zeros(|rest|), g);
    }
  }

  lemma RunFirst(r: Bits, bit: bool, rest: Bits, g: Bits)
    requires |r| == |g| > 0
    ensures Run(r, [bit] + rest, g) == Run(Step(r, bit, g), rest, g)
  {
    RunOne(r, bit, g);
    RunThen(r, [bit], rest, g);
  }

  lemma StepPadded(r: Bits, m: Bits, g: Bits)
    requires |r| == |g| > 0 && 0 < |m| <= |g|
    ensures Step(Xor(r, Padded(m, |g|)), false, g) == Xor(Step(r, m[0], g), Padded(m[1..], |g|))
  {
  }

  // what the register proves about messages

  /** The register's own contents, sent after a message, empty it, and nothing else of its
      width does. */
  lemma Residue(r: Bits, m: Bits, c: Bits, g: Bits)
    requires |r| == |g| == |c| > 0 && g[|g| - 1]
    ensures Run(r, m + c, g) == Zeros(|g|) <==> c == Run(r, m, g)
  {
    var s := Run(r, m, g);
    RunThen(r, m, c, g);
    XorInFirst(s, c, g);
    assert Padded(c, |g|) == c;
    ZerosKeepNonzero(Xor(s, c), |g|, g);
    XorZero(s, c);
  }

  /** The complement of the register's contents leaves the same remainder after every message. */
  lemma ResidueComplemented(r: Bits, m: Bits, g: Bits)
    requires |r| == |g| > 0
    ensures Run(r, m + Not(Run(r, m, g)), g) == Run(Ones(|g|), Zeros(|g|), g)
  {
    var s := Run(r, m, g);
    RunThen(r, m, Not(s), g);
    XorInFirst(s, Not(s), g);
    assert Xor(s, Padded(Not(s), |g|)) == Ones(|g|);
  }

  /** What a register leaves after a tail of its width tells the tail. */
  lemma TailTold(s: Bits, a: Bits, b: Bits, g: Bits)
    requires |s| == |a| == |b| == |g| > 0 && g[|g| - 1]
    ensures Run(s, a, g) == Run(s, b, g) <==> a == b
  {
    DifferenceRun(s, a, b, g);
    XorZero(Run(s, a, g), Run(s, b, g));
    XorInFirst(Zeros(|g|), Xor(a, b), g);
    assert Xor(Zeros(|g|), Padded(Xor(a, b), |g|)) == Xor(a, b);
    ZerosKeepNonzero(Xor(a, b), |g|, g);
    XorZero(a, b);
  }

  /** Only the complement of the register's contents leaves that remainder. */
  lemma ResidueTold(r: Bits, m: Bits, tail: Bits, g: Bits)
    requires |r| == |tail| == |g| > 0 && g[|g| - 1]
    ensures Run(r, m + tail, g) == Run(Ones(|g|), Zeros(|g|), g) <==> tail == Not(Run(r, m, g))
  {
    var s := Run(r, m, g);
    ResidueComplemented(r, m, g);
    RunThen(r, m, tail, g);
    RunThen(r, m, Not(s), g);
    TailTold(s, tail, Not(s), g);
  }

  /** The messages differ, and only within `span` bits from bit `from`. */
  ghost predicate Burst(m: Bits, n: Bits, from: nat, span: nat) {
    && |m| == |n| && m != n && from + span <= |m|
    && forall i :: 0 <= i < |m| && m[i] != n[i] ==> from <= i < from + span
  }

  /** Two messages leave registers that differ by what their difference leaves. */
  lemma DifferenceRun(r: Bits, m: Bits, n: Bits, g: Bits)
    requires |r| == |g| > 0 && |m| == |n|
    ensures Xor(Run(r, m, g), Run(r, n, g)) == Run(Zeros(|g|), Xor(m, n), g)
  {
    RunLinear(r, r, m, n, g);
    XorSelf(r);
  }

  lemma BurstAlone(burst: Bits, g: Bits)
    requires |g| > 0 && g[|g| - 1] && |burst| <= |g| && true in burst
    ensures Run(Zeros(|g|), burst, g) != Zeros(|g|)
  {
    var start := Xor(Zeros(|g|), Padded(burst, |g|));
    var k :| 0 <= k < |burst| && burst[k];
    assert start[k];
    XorInFirst(Zeros(|g|), burst, g);
    ZerosKeepNonzero(start, |burst|, g);
  }

  lemma BurstKept(before: nat, burst: Bits, after: nat, g: Bits)
    requires |g| > 0 && g[|g| - 1] && |burst| <= |g| && true in burst
    ensures Run(Zeros(|g|), Zeros(before) + burst + Zeros(after), g) != Zeros(|g|)
  {
    var zero := Zeros(|g|);
    RunThen(zero, Zeros(before) + burst, Zeros(after), g);
    RunThen(zero, Zeros(before), burst, g);
    ZerosKeepNonzero(zero, before, g);
    BurstAlone(burst, g);
    ZerosKeepNonzero(Run(zero, burst, g), after, g);
  }

  /** Messages that differ in a burst no longer than the register leave it different. */
  lemma BurstDetected(r: Bits, m: Bits, n: Bits, from: nat, span: nat, g: Bits)
    requires |r| == |g| > 0 && g[|g| - 1] && span <= |g|
    requires Burst(m, n, from, span)
    ensures Run(r, m, g) != Run(r, n, g)
  {
    var burst := BurstShape(m, n, from, span);
    BurstKept(from, burst, |m| - from - span, g);
    DifferenceRun(r, m, n, g);
    XorZero(Run(r, m, g), Run(r, n, g));
  }

  lemma BurstShape(m: Bits, n: Bits, from: nat, span: nat) returns (burst: Bits)
    requires Burst(m, n, from, span)
    ensures |burst| == span && true in burst
    ensures Xor(m, n) == Zeros(from) + burst + Zeros(|m| - from - span)
  {
    var d := Xor(m, n);
    burst := d[from..from + span];
    var k :| 0 <= k < |m| && m[k] != n[k];
    assert burst[k - from] == d[k];
    var whole := Zeros(from) + burst + Zeros(|m| - from - span);
    forall i | 0 <= i < |m| ensures d[i] == whole[i] {
    }
  }

  // the register is polynomial division

  /** q times x^w + g, by Horner's rule: |q| + w coefficients. */
  function Product(q: Bits, g: Bits): (p: Bits)
    ensures |p| == |q| + |g|
  {
    if q == [] then Zeros(|g|)
    else
      var k := |q| - 1;
      var p := Product(q[..k], g) + [false];
      if q[k] then Xor(p, Zeros(k) + [true] + g) else p
  }

  /** m x^w plus the register's start, at its top, is q times the generator plus r. */
  ghost predicate Divides(m: Bits, start: Bits, g: Bits, q: Bits, r: Bits) {
    && |q| == |m| && |r| == |g| == |start|
    && Xor(m + Zeros(|g|), start + Zeros(|m|)) == Xor(Product(q, g), Zeros(|m|) + r)
  }

  /** The register holds the remainder of the message, its first bits changed by what the
      register started with. */
  lemma {:induction false} RunIsRemainder(start: Bits, m: Bits, g: Bits) returns (q: Bits)
    requires |start| == |g| > 0
    ensures Divides(m, start, g, q, Run(start, m, g))
  {
    if m == [] {
      q := [];
      assert Zeros(0) + start == start && [] + Zeros(|g|) == Zeros(|g|) && start + Zeros(0) == start;
    } else {
      var k := |m| - 1;
      var before := Run(start, m[..k], g);
      var q0 := RunIsRemainder(start, m[..k], g);
      q := q0 + [before[0] != m[k]];
      assert q[..k] == q0;
      RemainderGrows(start, m, g, q0, before);
    }
  }

  lemma RemainderGrows(start: Bits, m: Bits, g: Bits, q0: Bits, before: Bits)
    requires |start| == |g| > 0 && |m| > 0
    requires Divides(m[..|m| - 1], start, g, q0, before)
    ensures Divides(m, start, g, q0 + [before[0] != m[|m| - 1]], Step(before, m[|m| - 1], g))
  {
    var k, w := |m| - 1, |g|;
    var t := before[0] != m[k];
    var q, after := q0 + [t], Step(before, m[k], g);
    assert q[..k] == q0;
    var a, b := Xor(m[..k] + Zeros(w), start + Zeros(k)), Xor(Product(q0, g), Zeros(k) + before);
    var lhs, rhs := Xor(m + Zeros(w), start + Zeros(k + 1)), Xor(Product(q, g), Zeros(k + 1) + after);
    forall i | 0 <= i < k + 1 + w ensures lhs[i] == rhs[i] {
      if i < k + w {
        assert a[i] == b[i];
      }
    }
    assert lhs == rhs;
  }

  lemma {:induction false} ProductOfSum(q: Bits, p: Bits, g: Bits)
    requires |q| == |p|
    ensures Product(Xor(q, p), g) == Xor(Product(q, g), Product(p, g))
  {
    if q != [] {
      var k := |q| - 1;
      ProductOfSum(q[..k], p[..k], g);
      assert Xor(q, p)[..k] == Xor(q[..k], p[..k]);
    }
  }

  /** The first coefficient of q is the first of its product: the generator leads with a one. */
  lemma {:induction false} ProductLeads(q: Bits, j: nat, g: Bits)
    requires j < |q| && q[j] && forall i :: 0 <= i < j ==> !q[i]
    ensures Product(q, g)[j]
  {
    var k := |q| - 1;
    if j < k {
      ProductLeads(q[..k], j, g);
    } else {
      ProductOfZeros(q[..k], g);
    }
  }

  lemma {:induction false} ProductOfZeros(q: Bits, g: Bits)
    requires forall i :: 0 <= i < |q| ==> !q[i]
    ensures Product(q, g) == Zeros(|q| + |g|)
  {
    if q != [] {
      ProductOfZeros(q[..|q| - 1], g);
    }
  }

  lemma FirstTrue(d: Bits) returns (j: nat)
    requires true in d
    ensures j < |d| && d[j] && forall i :: 0 <= i < j ==> !d[i]
  {
    j := 0;
    while !d[j]
      invariant 0 <= j < |d| && forall i :: 0 <= i < j ==> !d[i]
      invariant exists k :: j <= k < |d| && d[k]
      decreases |d| - j
    {
      j := j + 1;
    }
  }

  /** Two divisions of one message have quotients whose difference has no product above the
      remainder. */
  lemma QuotientsDiffer(q: Bits, r: Bits, p: Bits, s: Bits, g: Bits, j: nat)
    requires |q| == |p| && |r| == |s| == |g| && j < |q|
    requires Xor(Product(q, g), Zeros(|q|) + r) == Xor(Product(p, g), Zeros(|q|) + s)
    ensures !Product(Xor(q, p), g)[j]
  {
    ProductOfSum(q, p, g);
    var a, b := Xor(Product(q, g), Zeros(|q|) + r), Xor(Product(p, g), Zeros(|q|) + s);
    assert a[j] == b[j];
    assert a[j] == Product(q, g)[j] && b[j] == Product(p, g)[j];
  }

  /** There is only one quotient and remainder. */
  lemma RemainderUnique(q: Bits, r: Bits, p: Bits, s: Bits, g: Bits)
    requires |q| == |p| && |r| == |s| == |g|
    requires Xor(Product(q, g), Zeros(|q|) + r) == Xor(Product(p, g), Zeros(|q|) + s)
    ensures q == p && r == s
  {
    QuotientUnique(q, r, p, s, g);
    SameTail(Product(q, g), Zeros(|q|), r, s);
  }

  lemma QuotientUnique(q: Bits, r: Bits, p: Bits, s: Bits, g: Bits)
    requires |q| == |p| && |r| == |s| == |g|
    requires Xor(Product(q, g), Zeros(|q|) + r) == Xor(Product(p, g), Zeros(|q|) + s)
    ensures q == p
  {
    var d := Xor(q, p);
    if true in d {
      var j := FirstTrue(d);
      ProductLeads(d, j, g);
      QuotientsDiffer(q, r, p, s, g, j);
    } else {
      assert forall i :: 0 <= i < |q| ==> !d[i];
    }
  }

  lemma SameTail(a: Bits, z: Bits, r: Bits, s: Bits)
    requires |a| == |z| + |r| && |r| == |s| && Xor(a, z + r) == Xor(a, z + s)
    ensures r == s
  {
    forall i | 0 <= i < |r| ensures r[i] == s[i] {
      assert Xor(a, z + r)[|z| + i] == Xor(a, z + s)[|z| + i];
    }
  }

  /** So whatever divides the message with a remainder of the register's width has its contents
      for its remainder. */
  lemma OnlyRemainder(start: Bits, m: Bits, g: Bits, q: Bits, r: Bits)
    requires |g| > 0 && Divides(m, start, g, q, r)
    ensures r == Run(start, m, g)
  {
    var p := RunIsRemainder(start, m, g);
    RemainderUnique(q, r, p, Run(start, m, g), g);
  }

  ghost predicate IsRemainder(m: Bits, start: Bits, g: Bits, r: Bits) {
    exists q :: Divides(m, start, g, q, r)
  }

  /** The register's contents are the remainder, and the only one. */
  lemma RemainderIsRun(m: Bits, start: Bits, g: Bits, r: Bits)
    requires |start| == |g| > 0
    ensures IsRemainder(m, start, g, r) <==> r == Run(start, m, g)
  {
    var q := RunIsRemainder(start, m, g);
    if p :| Divides(m, start, g, p, r) {
      OnlyRemainder(start, m, g, p, r);
    }
  }
}
