/** First come, first served: in each round of `pair` of demo/extract.py the rows of one reading, in
    order, choose the first row left of the other that they meet. */
module FirstCome {
  import opened Wrappers
  import opened Rows

  /** For each row of the first reading, which row of the second it takes. */
  type Choice = seq<Option<nat>>

  /** The rows of the second that the first n rows take. */
  function TakenBy(choice: Choice, n: nat): (taken: set<nat>)
    requires n <= |choice|
  {
    if n == 0 then {}
    else if choice[n - 1].Some? then TakenBy(choice, n - 1) + {choice[n - 1].value}
    else TakenBy(choice, n - 1)
  }

  /** Row i takes the first row that it meets and that none before it took; none if there is none. */
  ghost predicate Chooses(rules: Rules, r: nat, a: seq<Row>, b: seq<Row>, choice: Choice, i: nat)
    requires i < |a| && i < |choice|
  {
    match choice[i]
    case Some(j) =>
      && j < |b| && Meets(rules, r, a[i], b[j]) && j !in TakenBy(choice, i)
      && forall k: nat :: k < j && Meets(rules, r, a[i], b[k]) ==> k in TakenBy(choice, i)
    case None =>
      forall k: nat :: k < |b| && Meets(rules, r, a[i], b[k]) ==> k in TakenBy(choice, i)
  }

  /** So do the first n rows. */
  ghost predicate FirstServed(rules: Rules, r: nat, a: seq<Row>, b: seq<Row>, n: nat, choice: Choice) {
    && |choice| == n <= |a| && Fits(choice, |b|)
    && forall i: nat :: i < n ==> Chooses(rules, r, a, b, choice, i)
  }

  predicate Fits(choice: Choice, count: nat) {
    forall i :: 0 <= i < |choice| && choice[i].Some? ==> choice[i].value < count
  }

  lemma {:induction false} TakenSame(c: Choice, d: Choice, n: nat)
    requires n <= |c| && n <= |d| && forall i :: 0 <= i < n ==> c[i] == d[i]
    ensures TakenBy(c, n) == TakenBy(d, n)
  {
    if n > 0 { TakenSame(c, d, n - 1); }
  }

  /** There is only one such choice. */
  lemma {:induction false} ChoiceIsOne(rules: Rules, r: nat, a: seq<Row>, b: seq<Row>, c: Choice, d: Choice, n: nat)
    requires FirstServed(rules, r, a, b, |a|, c) && FirstServed(rules, r, a, b, |a|, d) && n <= |a|
    ensures forall i :: 0 <= i < n ==> c[i] == d[i]
  {
    if n > 0 {
      var i := n - 1;
      ChoiceIsOne(rules, r, a, b, c, d, i);
      TakenSame(c, d, i);
      assert Chooses(rules, r, a, b, c, i) && Chooses(rules, r, a, b, d, i);
    }
  }

  // what is paired and what is left

  /** The pairs of the first n rows that took one, in order. */
  function Coupled(a: seq<Row>, b: seq<Row>, choice: Choice, n: nat): seq<Pair>
    requires n <= |choice| <= |a| && Fits(choice, |b|)
  {
    if n == 0 then []
    else if choice[n - 1].Some? then
      Coupled(a, b, choice, n - 1) + [Pair(Some(a[n - 1]), Some(b[choice[n - 1].value]))]
    else
      Coupled(a, b, choice, n - 1)
  }

  /** Those of the first n rows that took none, in order. */
  function Lonely(a: seq<Row>, choice: Choice, n: nat): seq<Row>
    requires n <= |choice| <= |a|
  {
    if n == 0 then []
    else if choice[n - 1].Some? then Lonely(a, choice, n - 1)
    else Lonely(a, choice, n - 1) + [a[n - 1]]
  }

  /** Those of the first n rows that were not taken, in order. */
  function Over(b: seq<Row>, taken: set<nat>, n: nat): seq<Row>
    requires n <= |b|
  {
    if n == 0 then []
    else if n - 1 in taken then Over(b, taken, n - 1)
    else Over(b, taken, n - 1) + [b[n - 1]]
  }

  /** The pairs made so far, and the rows of either reading that are left. */
  datatype Matching = Matching(pairs: seq<Pair>, aLeft: seq<Row>, bLeft: seq<Row>)

  function Chosen(m: Matching, choice: Choice): Matching
    requires |choice| == |m.aLeft| && Fits(choice, |m.bLeft|)
  {
    Matching(m.pairs + Coupled(m.aLeft, m.bLeft, choice, |choice|), Lonely(m.aLeft, choice, |choice|),
             Over(m.bLeft, TakenBy(choice, |choice|), |m.bLeft|))
  }

  ghost predicate RoundBy(rules: Rules, r: nat, before: Matching, after: Matching, choice: Choice) {
    FirstServed(rules, r, before.aLeft, before.bLeft, |before.aLeft|, choice) && after == Chosen(before, choice)
  }

  ghost predicate IsRound(rules: Rules, r: nat, before: Matching, after: Matching) {
    exists choice :: RoundBy(rules, r, before, after, choice)
  }

  lemma RoundIsOne(rules: Rules, r: nat, before: Matching, a: Matching, b: Matching)
    requires IsRound(rules, r, before, a) && IsRound(rules, r, before, b)
    ensures a == b
  {
    var c :| RoundBy(rules, r, before, a, c);
    var d :| RoundBy(rules, r, before, b, d);
    ChoiceIsOne(rules, r, before.aLeft, before.bLeft, c, d, |before.aLeft|);
    assert c == d;
  }

  // rows left over

  lemma {:induction false} LonelyIndex(a: seq<Row>, choice: Choice, n: nat, row: Row) returns (i: nat)
    requires n <= |choice| <= |a| && row in Lonely(a, choice, n)
    ensures i < n && a[i] == row && choice[i] == None
  {
    if choice[n - 1] == None && a[n - 1] == row {
      i := n - 1;
    } else {
      i := LonelyIndex(a, choice, n - 1, row);
    }
  }

  lemma {:induction false} OverIndex(b: seq<Row>, taken: set<nat>, n: nat, p: nat) returns (j: nat)
    requires n <= |b| && p < |Over(b, taken, n)|
    ensures j < n && j !in taken && |Over(b, taken, j)| == p && b[j] == Over(b, taken, n)[p]
  {
    if p < |Over(b, taken, n - 1)| {
      j := OverIndex(b, taken, n - 1, p);
    } else {
      j := n - 1;
    }
  }

  lemma {:induction false} TakenGrows(choice: Choice, m: nat, n: nat)
    requires m <= n <= |choice|
    ensures TakenBy(choice, m) <= TakenBy(choice, n)
  {
    if m < n { TakenGrows(choice, m, n - 1); }
  }

  /** No row left of the first n meets a row that the first n did not take. */
  lemma LonelyMeetsNone(rules: Rules, r: nat, a: seq<Row>, b: seq<Row>, choice: Choice, n: nat, x: Row, y: Row)
    requires FirstServed(rules, r, a, b, n, choice)
    requires x in Lonely(a, choice, n) && y in Over(b, TakenBy(choice, n), |b|)
    ensures !Meets(rules, r, x, y)
  {
    var i := LonelyIndex(a, choice, n, x);
    var p :| 0 <= p < |Over(b, TakenBy(choice, n), |b|)| && Over(b, TakenBy(choice, n), |b|)[p] == y;
    var j := OverIndex(b, TakenBy(choice, n), |b|, p);
    TakenGrows(choice, i, n);
    assert Chooses(rules, r, a, b, choice, i);
  }

  ghost predicate NoneMeet(rules: Rules, r: nat, aLeft: seq<Row>, bLeft: seq<Row>) {
    forall x, y :: x in aLeft && y in bLeft ==> !Meets(rules, r, x, y)
  }

  ghost predicate Fewer(rows: seq<Row>, before: seq<Row>) {
    forall row :: row in rows ==> row in before
  }

  /** After a round no two rows left meet by its rule. */
  lemma RoundLeaves(rules: Rules, r: nat, before: Matching, after: Matching)
    requires IsRound(rules, r, before, after)
    ensures NoneMeet(rules, r, after.aLeft, after.bLeft)
    ensures Fewer(after.aLeft, before.aLeft) && Fewer(after.bLeft, before.bLeft)
  {
    var c :| RoundBy(rules, r, before, after, c);
    var a, b, taken := before.aLeft, before.bLeft, TakenBy(c, |c|);
    forall x, y | x in after.aLeft && y in after.bLeft ensures !Meets(rules, r, x, y) {
      LonelyMeetsNone(rules, r, a, b, c, |c|, x, y);
    }
    forall x | x in after.aLeft ensures x in a {
      var i := LonelyIndex(a, c, |c|, x);
    }
    forall y | y in after.bLeft ensures y in b {
      var p :| 0 <= p < |after.bLeft| && after.bLeft[p] == y;
      var j := OverIndex(b, taken, |b|, p);
    }
  }

  // no row is lost

  /** These rows and the others are all of them. */
  ghost predicate Split(some: multiset<Row>, others: multiset<Row>, all: multiset<Row>) {
    some + others == all
  }

  ghost predicate Couples(rules: Rules, pairs: seq<Pair>) {
    forall p :: p in pairs ==> p.a.Some? && p.b.Some? && Partners(rules, p.a.value, p.b.value)
  }

  /** No row is lost or made up: each is in one of the pairs or left. */
  ghost predicate Accounted(rules: Rules, a: seq<Row>, b: seq<Row>, m: Matching) {
    && Couples(rules, m.pairs)
    && Split(Firsts(m.pairs), multiset(m.aLeft), multiset(a))
    && Split(Seconds(m.pairs), multiset(m.bLeft), multiset(b))
  }

  lemma {:induction false} CoupledMeet(rules: Rules, r: nat, a: seq<Row>, b: seq<Row>, choice: Choice, n: nat)
    requires FirstServed(rules, r, a, b, |a|, choice) && n <= |a| && r < ROUNDS
    ensures Couples(rules, Coupled(a, b, choice, n))
  {
    if n > 0 {
      CoupledMeet(rules, r, a, b, choice, n - 1);
      assert Chooses(rules, r, a, b, choice, n - 1);
    }
  }

  /** The rows that took one, and the rows they took. */
  function Takers(a: seq<Row>, choice: Choice, n: nat): seq<Row>
    requires n <= |choice| <= |a|
  {
    if n == 0 then []
    else if choice[n - 1].Some? then Takers(a, choice, n - 1) + [a[n - 1]]
    else Takers(a, choice, n - 1)
  }

  function TakenRows(b: seq<Row>, choice: Choice, n: nat): seq<Row>
    requires n <= |choice| && Fits(choice, |b|)
  {
    if n == 0 then []
    else if choice[n - 1].Some? then TakenRows(b, choice, n - 1) + [b[choice[n - 1].value]]
    else TakenRows(b, choice, n - 1)
  }

  lemma {:induction false} CoupledSides(a: seq<Row>, b: seq<Row>, choice: Choice, n: nat)
    requires n <= |choice| <= |a| && Fits(choice, |b|)
    ensures var pairs := Coupled(a, b, choice, n);
      Firsts(pairs) == multiset(Takers(a, choice, n)) && Seconds(pairs) == multiset(TakenRows(b, choice, n))
  {
    if n > 0 {
      CoupledSides(a, b, choice, n - 1);
      if choice[n - 1].Some? {
        SidesThen(Coupled(a, b, choice, n - 1), Takers(a, choice, n - 1), TakenRows(b, choice, n - 1), a[n - 1],
                  b[choice[n - 1].value]);
      }
    }
  }

  lemma SidesThen(pairs: seq<Pair>, firsts: seq<Row>, seconds: seq<Row>, x: Row, y: Row)
    requires Firsts(pairs) == multiset(firsts) && Seconds(pairs) == multiset(seconds)
    ensures Firsts(pairs + [Pair(Some(x), Some(y))]) == multiset(firsts + [x])
    ensures Seconds(pairs + [Pair(Some(x), Some(y))]) == multiset(seconds + [y])
  {
    Appended(pairs, Pair(Some(x), Some(y)));
  }

  /** A row took one or is left. */
  lemma {:induction false} TookOrLeft(a: seq<Row>, choice: Choice, n: nat)
    requires n <= |choice| <= |a|
    ensures Split(multiset(Takers(a, choice, n)), multiset(Lonely(a, choice, n)), multiset(a[..n]))
  {
    if n > 0 {
      TookOrLeft(a, choice, n - 1);
      RowsThen(a[..n - 1], a[n - 1], a[..n]);
    }
  }

  lemma {:induction false} OverAll(b: seq<Row>, n: nat)
    requires n <= |b|
    ensures Over(b, {}, n) == b[..n]
  {
    if n > 0 { OverAll(b, n - 1); }
  }

  /** One more row taken is one less left, in its place. */
  lemma {:induction false} OverLess(b: seq<Row>, taken: set<nat>, j: nat, n: nat)
    requires j !in taken && n <= |b|
    ensures var p := |Over(b, taken, Lower(j, n))|; var over := Over(b, taken, n);
      && (j >= n ==> Over(b, taken + {j}, n) == over)
      && (j < n ==> p < |over| && over[p] == b[j] && Over(b, taken + {j}, n) == over[..p] + over[p + 1..])
  {
    if n > 0 { OverLess(b, taken, j, n - 1); }
  }

  function Lower(j: nat, n: nat): nat {
    if j < n then j else n
  }

  lemma WithoutOne(rows: seq<Row>, p: nat)
    requires p < |rows|
    ensures multiset(rows) == multiset(rows[..p] + rows[p + 1..]) + multiset{rows[p]}
  {
    assert rows == rows[..p] + [rows[p]] + rows[p + 1..];
  }

  /** A row was taken or is left. */
  lemma {:induction false} TakenOrLeft(rules: Rules, r: nat, a: seq<Row>, b: seq<Row>, choice: Choice, n: nat)
    requires FirstServed(rules, r, a, b, |a|, choice) && n <= |a|
    ensures Split(multiset(TakenRows(b, choice, n)), multiset(Over(b, TakenBy(choice, n), |b|)), multiset(b))
  {
    if n == 0 {
      OverAll(b, |b|);
      assert b[..|b|] == b;
    } else {
      TakenOrLeft(rules, r, a, b, choice, n - 1);
      assert Chooses(rules, r, a, b, choice, n - 1);
      if choice[n - 1].Some? { OneTaken(b, TakenRows(b, choice, n - 1), TakenBy(choice, n - 1), choice[n - 1].value); }
    }
  }

  lemma OneTaken(b: seq<Row>, rows: seq<Row>, taken: set<nat>, j: nat)
    requires j < |b| && j !in taken && Split(multiset(rows), multiset(Over(b, taken, |b|)), multiset(b))
    ensures Split(multiset(rows + [b[j]]), multiset(Over(b, taken + {j}, |b|)), multiset(b))
  {
    OverLess(b, taken, j, |b|);
    WithoutOne(Over(b, taken, |b|), |Over(b, taken, j)|);
  }

  lemma RoundAccounts(rules: Rules, r: nat, a: seq<Row>, b: seq<Row>, before: Matching, after: Matching)
    requires Accounted(rules, a, b, before) && IsRound(rules, r, before, after) && r < ROUNDS
    ensures Accounted(rules, a, b, after)
  {
    var c :| RoundBy(rules, r, before, after, c);
    var more := Coupled(before.aLeft, before.bLeft, c, |c|);
    Together(before.pairs, more, after.pairs);
    CoupledMeet(rules, r, before.aLeft, before.bLeft, c, |c|);
    RoundSplits(rules, r, before, after, c);
    SplitOn(Firsts(before.pairs), Firsts(more), multiset(before.aLeft), multiset(after.aLeft), multiset(a));
    SplitOn(Seconds(before.pairs), Seconds(more), multiset(before.bLeft), multiset(after.bLeft), multiset(b));
  }

  /** What was left is paired now or left still. */
  lemma RoundSplits(rules: Rules, r: nat, before: Matching, after: Matching, c: Choice)
    requires RoundBy(rules, r, before, after, c)
    ensures var more := Coupled(before.aLeft, before.bLeft, c, |c|);
      && Split(Firsts(more), multiset(after.aLeft), multiset(before.aLeft))
      && Split(Seconds(more), multiset(after.bLeft), multiset(before.bLeft))
  {
    CoupledSides(before.aLeft, before.bLeft, c, |c|);
    TookOrLeft(before.aLeft, c, |c|);
    TakenOrLeft(rules, r, before.aLeft, before.bLeft, c, |c|);
    assert before.aLeft[..|c|] == before.aLeft;
  }

  /** What was left is split once more. */
  lemma SplitOn(some: multiset<Row>, more: multiset<Row>, others: multiset<Row>, left: multiset<Row>,
                all: multiset<Row>)
    requires Split(some, others, all) && Split(more, left, others)
    ensures Split(some + more, left, all)
  {
  }

  // all rounds

  /** After n rounds, each on what the one before left. */
  ghost predicate AfterRounds(rules: Rules, a: seq<Row>, b: seq<Row>, n: nat, m: Matching)
    decreases n, 1
  {
    if n == 0 then m == Matching([], a, b)
    else exists before :: RoundAfter(rules, a, b, n, before, m)
  }

  ghost predicate RoundAfter(rules: Rules, a: seq<Row>, b: seq<Row>, n: nat, before: Matching, m: Matching)
    requires n > 0
    decreases n, 0
  {
    AfterRounds(rules, a, b, n - 1, before) && IsRound(rules, n - 1, before, m)
  }

  lemma {:induction false} RoundsAreOne(rules: Rules, a: seq<Row>, b: seq<Row>, n: nat, m: Matching, other: Matching)
    requires AfterRounds(rules, a, b, n, m) && AfterRounds(rules, a, b, n, other)
    ensures m == other
  {
    if n > 0 {
      var c :| RoundAfter(rules, a, b, n, c, m);
      var d :| RoundAfter(rules, a, b, n, d, other);
      RoundsAreOne(rules, a, b, n - 1, c, d);
      RoundIsOne(rules, n - 1, c, m, other);
    }
  }

  /** No row lost, and none left on either side that n rounds would have paired. */
  ghost predicate Sound(rules: Rules, a: seq<Row>, b: seq<Row>, n: nat, m: Matching) {
    Accounted(rules, a, b, m) && forall r: nat :: r < n ==> NoneMeet(rules, r, m.aLeft, m.bLeft)
  }

  lemma {:induction false} RoundsHold(rules: Rules, a: seq<Row>, b: seq<Row>, n: nat, m: Matching)
    requires AfterRounds(rules, a, b, n, m) && n <= ROUNDS
    ensures Sound(rules, a, b, n, m)
  {
    if n > 0 {
      var before :| RoundAfter(rules, a, b, n, before, m);
      RoundsHold(rules, a, b, n - 1, before);
      SoundOn(rules, a, b, n - 1, before, m);
    } else {
      NothingYet(rules, a, b);
    }
  }

  lemma NothingYet(rules: Rules, a: seq<Row>, b: seq<Row>)
    ensures Accounted(rules, a, b, Matching([], a, b))
  {
  }

  lemma SoundOn(rules: Rules, a: seq<Row>, b: seq<Row>, n: nat, before: Matching, m: Matching)
    requires Sound(rules, a, b, n, before) && IsRound(rules, n, before, m) && n < ROUNDS
    ensures Sound(rules, a, b, n + 1, m)
  {
    RoundAccounts(rules, n, a, b, before, m);
    RoundLeaves(rules, n, before, m);
    forall r: nat | r <= n ensures NoneMeet(rules, r, m.aLeft, m.bLeft) {
      if r < n { StillNoneMeet(rules, r, before, m); }
    }
  }

  lemma StillNoneMeet(rules: Rules, r: nat, before: Matching, m: Matching)
    requires NoneMeet(rules, r, before.aLeft, before.bLeft) && Fewer(m.aLeft, before.aLeft)
             && Fewer(m.bLeft, before.bLeft)
    ensures NoneMeet(rules, r, m.aLeft, m.bLeft)
  {
  }

  /** The pairs, then the rows of either reading that are left alone. */
  function Finished(m: Matching): seq<Pair> {
    m.pairs + Alone(m.aLeft) + AloneThere(m.bLeft)
  }

  /** What `pair` returns. */
  ghost predicate ServedInOrder(rules: Rules, a: seq<Row>, b: seq<Row>, pairs: seq<Pair>) {
    exists m :: AfterRounds(rules, a, b, ROUNDS, m) && pairs == Finished(m)
  }

  /** There is only one answer, to the order of the pairs. */
  lemma PairsAreOne(rules: Rules, a: seq<Row>, b: seq<Row>, pairs: seq<Pair>, others: seq<Pair>)
    requires ServedInOrder(rules, a, b, pairs) && ServedInOrder(rules, a, b, others)
    ensures pairs == others
  {
    var m :| AfterRounds(rules, a, b, ROUNDS, m) && pairs == Finished(m);
    var other :| AfterRounds(rules, a, b, ROUNDS, other) && others == Finished(other);
    RoundsAreOne(rules, a, b, ROUNDS, m, other);
  }

  /** Every row of either reading in exactly one pair, no pair of nothing, no pair of rows that are
      not partners, and no partners apart. */
  ghost predicate Paired(rules: Rules, a: seq<Row>, b: seq<Row>, pairs: seq<Pair>) {
    && Firsts(pairs) == multiset(a) && Seconds(pairs) == multiset(b)
    && (forall p :: p in pairs ==> p.a.Some? || p.b.Some?)
    && (forall p :: p in pairs && p.a.Some? && p.b.Some? ==> Partners(rules, p.a.value, p.b.value))
    && forall p, q :: p in pairs && q in pairs && p.b == None && q.a == None && p.a.Some? && q.b.Some? ==>
                        !Partners(rules, p.a.value, q.b.value)
  }

  lemma FinishedCounted(rules: Rules, a: seq<Row>, b: seq<Row>, m: Matching)
    requires Accounted(rules, a, b, m)
    ensures Firsts(Finished(m)) == multiset(a) && Seconds(Finished(m)) == multiset(b)
  {
    AloneRows(m.aLeft);
    AloneRows(m.bLeft);
    var couples := m.pairs + Alone(m.aLeft);
    Together(m.pairs, Alone(m.aLeft), couples);
    Together(couples, AloneThere(m.bLeft), couples + AloneThere(m.bLeft));
  }

  lemma FromOne(m: Matching, p: Pair)
    requires p in Finished(m)
    ensures || p in m.pairs
            || (p.a.Some? && p.b == None && p.a.value in m.aLeft)
            || (p.a == None && p.b.Some? && p.b.value in m.bLeft)
  {
    if p in Alone(m.aLeft) {
      var i :| 0 <= i < |m.aLeft| && Alone(m.aLeft)[i] == p;
      assert p.a.value == m.aLeft[i];
    } else if p in AloneThere(m.bLeft) {
      var i :| 0 <= i < |m.bLeft| && AloneThere(m.bLeft)[i] == p;
      assert p.b.value == m.bLeft[i];
    }
  }

  lemma LeftAreApart(rules: Rules, m: Matching, x: Row, y: Row)
    requires forall r: nat :: r < ROUNDS ==> NoneMeet(rules, r, m.aLeft, m.bLeft)
    requires x in m.aLeft && y in m.bLeft
    ensures !Partners(rules, x, y)
  {
    forall r: nat | r < ROUNDS ensures !Meets(rules, r, x, y) {
      assert NoneMeet(rules, r, m.aLeft, m.bLeft);
    }
  }

  /** Served in order, the rows are paired as they should be. */
  lemma ServedIsPaired(rules: Rules, a: seq<Row>, b: seq<Row>, pairs: seq<Pair>)
    requires ServedInOrder(rules, a, b, pairs)
    ensures Paired(rules, a, b, pairs)
  {
    var m :| AfterRounds(rules, a, b, ROUNDS, m) && pairs == Finished(m);
    RoundsHold(rules, a, b, ROUNDS, m);
    FinishedCounted(rules, a, b, m);
    forall p | p in pairs
      ensures p in m.pairs || (p.a.Some? && p.b == None && p.a.value in m.aLeft)
              || (p.a == None && p.b.Some? && p.b.value in m.bLeft)
    {
      FromOne(m, p);
    }
    forall p, q | p in pairs && q in pairs && p.b == None && q.a == None && p.a.Some? && q.b.Some?
      ensures !Partners(rules, p.a.value, q.b.value)
    {
      LeftAreApart(rules, m, p.a.value, q.b.value);
    }
  }
}
