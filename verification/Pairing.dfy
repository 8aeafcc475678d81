/** `pair` of demo/extract.py: the rows of two readings of a specification, matched. */
module Pairing {
  import opened Wrappers
  import opened Rows
  import opened FirstCome

  // keys

  type Key = (string, string, nat)

  predicate Keyed(rules: Rules, row: Row, key: (string, string)) {
    rules.symbolKey(row) == key.0 && rules.conditionKey(row) == key.1
  }

  /** How many of the first n rows have a key. */
  function Seen(rules: Rules, rows: seq<Row>, n: nat, key: (string, string)): (count: nat)
    requires n <= |rows|
  {
    if n == 0 then 0 else Seen(rules, rows, n - 1, key) + if Keyed(rules, rows[n - 1], key) then 1 else 0
  }

  function KeyOf(rules: Rules, row: Row): (string, string) {
    (rules.symbolKey(row), rules.conditionKey(row))
  }

  /** A row's key, and which of the rows with it the row is. */
  function KeyAt(rules: Rules, rows: seq<Row>, i: nat): Key
    requires i < |rows|
  {
    var key := KeyOf(rules, rows[i]); (key.0, key.1, Seen(rules, rows, i + 1, key))
  }

  lemma {:induction false} SeenGrows(rules: Rules, rows: seq<Row>, m: nat, n: nat, key: (string, string))
    requires m <= n <= |rows|
    ensures Seen(rules, rows, m, key) <= Seen(rules, rows, n, key)
  {
    if m < n { SeenGrows(rules, rows, m, n - 1, key); }
  }

  /** Of two rows with one key the later has the greater count. */
  lemma CountsRise(rules: Rules, rows: seq<Row>, i: nat, j: nat)
    requires i < j < |rows| && SameKey(rules, rows[i], rows[j])
    ensures KeyAt(rules, rows, i).2 < KeyAt(rules, rows, j).2
  {
    var key := KeyOf(rules, rows[j]);
    SeenGrows(rules, rows, i + 1, j, key);
  }

  lemma KeysDiffer(rules: Rules, rows: seq<Row>, i: nat, j: nat)
    requires i < |rows| && j < |rows| && KeyAt(rules, rows, i) == KeyAt(rules, rows, j)
    ensures i == j
  {
    if i < j { CountsRise(rules, rows, i, j); }
    if j < i { CountsRise(rules, rows, j, i); }
  }

  /** Every count up to the last was some row's. */
  lemma {:induction false} EveryCount(rules: Rules, rows: seq<Row>, n: nat, key: (string, string), c: nat)
    returns (i: nat)
    requires n <= |rows| && 0 < c <= Seen(rules, rows, n, key)
    ensures i < n && KeyAt(rules, rows, i) == (key.0, key.1, c)
  {
    if c <= Seen(rules, rows, n - 1, key) {
      i := EveryCount(rules, rows, n - 1, key, c);
    } else {
      i := n - 1;
    }
  }

  ghost predicate AreKeys(rules: Rules, rows: seq<Row>, keys: seq<Key>) {
    |keys| == |rows| && forall i: nat :: i < |rows| ==> keys[i] == KeyAt(rules, rows, i)
  }

  /** `keyed`: each row with its key. */
  method KeyRows(rules: Rules, rows: seq<Row>) returns (keys: seq<Key>)
    ensures AreKeys(rules, rows, keys)
  {
    var seen: map<(string, string), nat> := map[];
    keys := [];
    for n := 0 to |rows|
      invariant |keys| == n && forall i :: 0 <= i < n ==> keys[i] == KeyAt(rules, rows, i)
      invariant forall key :: (if key in seen then seen[key] else 0) == Seen(rules, rows, n, key)
    {
      var key := KeyOf(rules, rows[n]);
      var count := 1 + if key in seen then seen[key] else 0;
      seen := seen[key := count];
      keys := keys + [(key.0, key.1, count)];
    }
  }

  // counted keys serve rows in order

  /** Row i has the counted key of row j. */
  ghost predicate SameCounted(rules: Rules, a: seq<Row>, b: seq<Row>, i: nat, j: nat) {
    i < |a| && j < |b| && KeyAt(rules, a, i) == KeyAt(rules, b, j)
  }

  /** Each of the first n rows takes the row with its counted key. */
  ghost predicate ByKeys(rules: Rules, a: seq<Row>, b: seq<Row>, n: nat, choice: Choice) {
    && |choice| == n <= |a|
    && forall i: nat :: i < n ==> match choice[i]
                                  case Some(j) => SameCounted(rules, a, b, i, j)
                                  case None => forall j: nat :: !SameCounted(rules, a, b, i, j)
  }

  lemma {:induction false} TakenIs(choice: Choice, n: nat, j: nat)
    requires n <= |choice|
    ensures j in TakenBy(choice, n) <==> exists i :: 0 <= i < n && choice[i] == Some(j)
  {
    if n > 0 { TakenIs(choice, n - 1, j); }
  }

  /** A row with a smaller count for the key is taken by an earlier row. */
  lemma TakenBefore(rules: Rules, a: seq<Row>, b: seq<Row>, choice: Choice, i: nat, k: nat)
    requires ByKeys(rules, a, b, |a|, choice) && i < |a| && k < |b| && SameKey(rules, a[i], b[k])
    requires KeyAt(rules, b, k).2 < KeyAt(rules, a, i).2
    ensures k in TakenBy(choice, i)
  {
    var key, count := KeyOf(rules, b[k]), KeyAt(rules, b, k).2;
    var e := EveryCount(rules, a, i + 1, key, count);
    assert SameCounted(rules, a, b, e, k);
    KeysDiffer(rules, b, k, choice[e].value);
    TakenIs(choice, i, k);
  }

  /** Where no row has the counted key of row i, those with its key have smaller counts. */
  lemma CountsBelow(rules: Rules, a: seq<Row>, b: seq<Row>, i: nat, k: nat)
    requires i < |a| && k < |b| && SameKey(rules, a[i], b[k]) && forall j: nat :: !SameCounted(rules, a, b, i, j)
    ensures KeyAt(rules, b, k).2 < KeyAt(rules, a, i).2
  {
    if KeyAt(rules, a, i).2 <= KeyAt(rules, b, k).2 {
      var j := EveryCount(rules, b, k + 1, KeyOf(rules, a[i]), KeyAt(rules, a, i).2);
      assert SameCounted(rules, a, b, i, j);
    }
  }

  /** By counted keys a row takes the first one left with its key. */
  lemma KeysServeRow(rules: Rules, a: seq<Row>, b: seq<Row>, choice: Choice, i: nat)
    requires ByKeys(rules, a, b, |a|, choice) && i < |a|
    ensures Chooses(rules, 0, a, b, choice, i)
  {
    match choice[i]
    case Some(j) =>
      TakenIs(choice, i, j);
      if j in TakenBy(choice, i) {
        var e :| 0 <= e < i && choice[e] == Some(j);
        assert SameCounted(rules, a, b, e, j) && SameCounted(rules, a, b, i, j);
        KeysDiffer(rules, a, e, i);
      }
      forall k: nat | k < j && Meets(rules, 0, a[i], b[k]) ensures k in TakenBy(choice, i) {
        CountsRise(rules, b, k, j);
        TakenBefore(rules, a, b, choice, i, k);
      }
    case None =>
      forall k: nat | k < |b| && Meets(rules, 0, a[i], b[k]) ensures k in TakenBy(choice, i) {
        CountsBelow(rules, a, b, i, k);
        TakenBefore(rules, a, b, choice, i, k);
      }
  }

  /** Matching by counted keys is first come, first served by keys. */
  lemma KeysServe(rules: Rules, a: seq<Row>, b: seq<Row>, choice: Choice)
    requires ByKeys(rules, a, b, |a|, choice)
    ensures FirstServed(rules, 0, a, b, |a|, choice)
  {
    forall i: nat | i < |a| ensures Chooses(rules, 0, a, b, choice, i) {
      KeysServeRow(rules, a, b, choice, i);
    }
  }

  /** dict(b_keyed). */
  method ByKey(rules: Rules, rows: seq<Row>, keys: seq<Key>) returns (byKey: map<Key, Row>)
    requires AreKeys(rules, rows, keys)
    ensures Keeps(rules, rows, keys, byKey, {})
  {
    byKey := map[];
    for n := 0 to |rows|
      invariant forall key :: key in byKey <==> exists j :: 0 <= j < n && keys[j] == key
      invariant forall j :: 0 <= j < n ==> byKey[keys[j]] == rows[j]
    {
      forall j | 0 <= j < n ensures keys[j] != keys[n] {
        if keys[j] == keys[n] { KeysDiffer(rules, rows, j, n); }
      }
      byKey := byKey[keys[n] := rows[n]];
    }
  }

  /** The rows that are not taken, by their keys. */
  ghost predicate Keeps(rules: Rules, rows: seq<Row>, keys: seq<Key>, byKey: map<Key, Row>, taken: set<nat>)
    requires |rows| == |keys|
  {
    && (forall j: nat :: j < |rows| ==> (keys[j] in byKey <==> j !in taken))
    && (forall j: nat :: j < |rows| && keys[j] in byKey ==> byKey[keys[j]] == rows[j])
    && forall key :: key in byKey ==> exists j :: 0 <= j < |rows| && keys[j] == key
  }

  lemma KeepsLess(rules: Rules, rows: seq<Row>, keys: seq<Key>, byKey: map<Key, Row>, taken: set<nat>, j: nat)
    requires AreKeys(rules, rows, keys) && Keeps(rules, rows, keys, byKey, taken) && j < |rows|
    ensures Keeps(rules, rows, keys, byKey - {keys[j]}, taken + {j})
  {
    forall k: nat | k < |rows| && keys[k] == keys[j] ensures k == j {
      KeysDiffer(rules, rows, j, k);
    }
  }

  /** What the loops have so far, n rows having chosen. */
  ghost predicate SoFar(before: Matching, choice: Choice, pairs: seq<Pair>, aLeft: seq<Row>) {
    && |choice| <= |before.aLeft| && Fits(choice, |before.bLeft|)
    && pairs == before.pairs + Coupled(before.aLeft, before.bLeft, choice, |choice|)
    && aLeft == Lonely(before.aLeft, choice, |choice|)
  }

  lemma {:induction false} ChoiceThen(a: seq<Row>, b: seq<Row>, choice: Choice, c: Option<nat>, n: nat)
    requires n <= |choice| < |a| && Fits(choice, |b|) && Fits(choice + [c], |b|)
    ensures Coupled(a, b, choice + [c], n) == Coupled(a, b, choice, n)
    ensures Lonely(a, choice + [c], n) == Lonely(a, choice, n)
    ensures TakenBy(choice + [c], n) == TakenBy(choice, n)
  {
    if n > 0 { ChoiceThen(a, b, choice, c, n - 1); }
  }

  lemma TookThen(a: seq<Row>, b: seq<Row>, choice: Choice, j: nat, more: Choice)
    requires |choice| < |a| && Fits(choice, |b|) && j < |b| && more == choice + [Some(j)]
    ensures Fits(more, |b|)
    ensures Coupled(a, b, more, |more|) == Coupled(a, b, choice, |choice|) + [Pair(Some(a[|choice|]), Some(b[j]))]
    ensures Lonely(a, more, |more|) == Lonely(a, choice, |choice|)
    ensures TakenBy(more, |more|) == TakenBy(choice, |choice|) + {j}
  {
    ChoiceThen(a, b, choice, Some(j), |choice|);
    assert more[|choice|] == Some(j);
  }

  lemma SoFarTook(before: Matching, choice: Choice, pairs: seq<Pair>, aLeft: seq<Row>, j: nat)
    requires SoFar(before, choice, pairs, aLeft) && |choice| < |before.aLeft| && j < |before.bLeft|
    ensures SoFar(before, choice + [Some(j)], pairs + [Pair(Some(before.aLeft[|choice|]), Some(before.bLeft[j]))],
                  aLeft)
    ensures TakenBy(choice + [Some(j)], |choice| + 1) == TakenBy(choice, |choice|) + {j}
  {
    TookThen(before.aLeft, before.bLeft, choice, j, choice + [Some(j)]);
    Regroup(before.pairs, Coupled(before.aLeft, before.bLeft, choice, |choice|),
            [Pair(Some(before.aLeft[|choice|]), Some(before.bLeft[j]))]);
  }

  lemma Regroup(p: seq<Pair>, q: seq<Pair>, r: seq<Pair>)
    ensures (p + q) + r == p + (q + r)
  {
  }

  lemma SoFarTookNone(before: Matching, choice: Choice, pairs: seq<Pair>, aLeft: seq<Row>)
    requires SoFar(before, choice, pairs, aLeft) && |choice| < |before.aLeft|
    ensures SoFar(before, choice + [None], pairs, aLeft + [before.aLeft[|choice|]])
    ensures TakenBy(choice + [None], |choice| + 1) == TakenBy(choice, |choice|)
  {
    TookNoneThen(before.aLeft, before.bLeft, choice, choice + [None]);
  }

  lemma TookNoneThen(a: seq<Row>, b: seq<Row>, choice: Choice, more: Choice)
    requires |choice| < |a| && Fits(choice, |b|) && more == choice + [None]
    ensures Fits(more, |b|)
    ensures Coupled(a, b, more, |more|) == Coupled(a, b, choice, |choice|)
    ensures Lonely(a, more, |more|) == Lonely(a, choice, |choice|) + [a[|choice|]]
    ensures TakenBy(more, |more|) == TakenBy(choice, |choice|)
  {
    ChoiceThen(a, b, choice, None, |choice|);
    assert more[|choice|] == None;
  }

  /** What is matched by keys so far. */
  ghost predicate KeyedSoFar(rules: Rules, a: seq<Row>, b: seq<Row>, bKeys: seq<Key>, choice: Choice,
                             pairs: seq<Pair>, aLeft: seq<Row>, byKey: map<Key, Row>)
    requires |b| == |bKeys|
  {
    && ByKeys(rules, a, b, |choice|, choice) && SoFar(Matching([], a, b), choice, pairs, aLeft)
    && Keeps(rules, b, bKeys, byKey, TakenBy(choice, |choice|))
  }

  lemma KeyTook(rules: Rules, a: seq<Row>, b: seq<Row>, bKeys: seq<Key>, choice: Choice,
                pairs: seq<Pair>, aLeft: seq<Row>, byKey: map<Key, Row>) returns (now: Choice)
    requires AreKeys(rules, b, bKeys) && KeyedSoFar(rules, a, b, bKeys, choice, pairs, aLeft, byKey)
    requires |choice| < |a| && KeyAt(rules, a, |choice|) in byKey
    ensures |now| == |choice| + 1
    ensures var row, key := a[|choice|], KeyAt(rules, a, |choice|);
      KeyedSoFar(rules, a, b, bKeys, now, pairs + [Pair(Some(row), Some(byKey[key]))], aLeft, byKey - {key})
  {
    var n, key := |choice|, KeyAt(rules, a, |choice|);
    var j: nat :| j < |b| && bKeys[j] == key;
    now := choice + [Some(j)];
    SoFarTook(Matching([], a, b), choice, pairs, aLeft, j);
    KeepsLess(rules, b, bKeys, byKey, TakenBy(choice, n), j);
    assert SameCounted(rules, a, b, n, j);
  }

  lemma KeyTookNone(rules: Rules, a: seq<Row>, b: seq<Row>, bKeys: seq<Key>, choice: Choice,
                    pairs: seq<Pair>, aLeft: seq<Row>, byKey: map<Key, Row>)
    requires AreKeys(rules, b, bKeys) && KeyedSoFar(rules, a, b, bKeys, choice, pairs, aLeft, byKey)
    requires |choice| < |a| && KeyAt(rules, a, |choice|) !in byKey
    ensures KeyedSoFar(rules, a, b, bKeys, choice + [None], pairs, aLeft + [a[|choice|]], byKey)
  {
    NoneWithKey(rules, a, b, bKeys, choice, byKey);
    SoFarTookNone(Matching([], a, b), choice, pairs, aLeft);
  }

  /** Matching by counted keys: the first round. */
  method MatchKeys(rules: Rules, a: seq<Row>, b: seq<Row>) returns (m: Matching)
    ensures IsRound(rules, 0, Matching([], a, b), m)
  {
    var aKeys := KeyRows(rules, a);
    var bKeys := KeyRows(rules, b);
    var byKey := ByKey(rules, b, bKeys);
    var pairs: seq<Pair>, aLeft: seq<Row> := [], [];
    ghost var choice: Choice := [];
    for n := 0 to |a|
      invariant |choice| == n && KeyedSoFar(rules, a, b, bKeys, choice, pairs, aLeft, byKey)
    {
      var key := aKeys[n];
      if key in byKey {
        ghost var now := KeyTook(rules, a, b, bKeys, choice, pairs, aLeft, byKey);
        pairs, byKey := pairs + [Pair(Some(a[n]), Some(byKey[key]))], byKey - {key};
        choice := now;
      } else {
        KeyTookNone(rules, a, b, bKeys, choice, pairs, aLeft, byKey);
        aLeft := aLeft + [a[n]];
        choice := choice + [None];
      }
    }
    var bLeft := StillThere(rules, b, bKeys, byKey, TakenBy(choice, |a|));
    m := Matching(pairs, aLeft, bLeft);
    KeyedIsRound(rules, a, b, choice, m);
  }

  lemma KeyedIsRound(rules: Rules, a: seq<Row>, b: seq<Row>, choice: Choice, m: Matching)
    requires ByKeys(rules, a, b, |a|, choice) && SoFar(Matching([], a, b), choice, m.pairs, m.aLeft)
    requires m.bLeft == Over(b, TakenBy(choice, |a|), |b|)
    ensures IsRound(rules, 0, Matching([], a, b), m)
  {
    KeysServe(rules, a, b, choice);
    assert RoundBy(rules, 0, Matching([], a, b), m, choice);
  }

  /** A key that is not there was never there: no row takes another's. */
  lemma NoneWithKey(rules: Rules, a: seq<Row>, b: seq<Row>, bKeys: seq<Key>, choice: Choice, byKey: map<Key, Row>)
    requires ByKeys(rules, a, b, |choice|, choice) && |choice| < |a| && AreKeys(rules, b, bKeys)
    requires Keeps(rules, b, bKeys, byKey, TakenBy(choice, |choice|)) && KeyAt(rules, a, |choice|) !in byKey
    ensures forall j: nat :: !SameCounted(rules, a, b, |choice|, j)
  {
    var n := |choice|;
    forall j: nat ensures !SameCounted(rules, a, b, n, j) {
      if SameCounted(rules, a, b, n, j) {
        TakenIs(choice, n, j);
        var i :| 0 <= i < n && choice[i] == Some(j);
        assert SameCounted(rules, a, b, i, j);
        KeysDiffer(rules, a, i, n);
      }
    }
  }

  method StillThere(ghost rules: Rules, rows: seq<Row>, keys: seq<Key>, byKey: map<Key, Row>, ghost taken: set<nat>)
    returns (rest: seq<Row>)
    requires |rows| == |keys| && Keeps(rules, rows, keys, byKey, taken)
    ensures rest == Over(rows, taken, |rows|)
  {
    rest := [];
    for n := 0 to |rows|
      invariant rest == Over(rows, taken, n)
    {
      if keys[n] in byKey { rest := rest + [rows[n]]; }
    }
  }

  // twins

  /** Without the first row equal to this one. */
  function Without(rows: seq<Row>, row: Row): (rest: seq<Row>)
    requires row in rows
  {
    if rows[0] == row then rows[1..] else [rows[0]] + Without(rows[1..], row)
  }

  lemma {:induction false} WithoutMiddle(front: seq<Row>, row: Row, back: seq<Row>, rows: seq<Row>)
    requires rows == front + ([row] + back) && row !in front
    ensures row in rows && Without(rows, row) == front + back
  {
    assert rows[|front|] == row;
    if front == [] {
      assert rows[1..] == back;
    } else {
      MiddleLater(front, [row] + back, rows);
      assert front[0] in front;
      WithoutMiddle(front[1..], row, back, rows[1..]);
      MiddleLater(front, back, front + back);
    }
  }

  lemma MiddleLater(front: seq<Row>, back: seq<Row>, rows: seq<Row>)
    requires front != [] && rows == front + back
    ensures rows[0] == front[0] && rows[1..] == front[1..] + back && rows == [front[0]] + (front[1..] + back)
    ensures forall row :: row in front[1..] ==> row in front
  {
  }

  /** The first row of these that it meets, and where it is. */
  method FindTwin(rules: Rules, r: nat, row: Row, bLeft: seq<Row>) returns (twin: Option<Row>, ghost at: nat)
    ensures twin.Some? ==> at < |bLeft| && bLeft[at] == twin.value && Meets(rules, r, row, twin.value)
    ensures at <= |bLeft| && forall k :: 0 <= k < at ==> !Meets(rules, r, row, bLeft[k])
    ensures twin == None ==> at == |bLeft|
  {
    at := 0;
    for n := 0 to |bLeft|
      invariant at == n && forall k :: 0 <= k < n ==> !Meets(rules, r, row, bLeft[k])
    {
      if Meets(rules, r, row, bLeft[n]) { return Some(bLeft[n]), at; }
      at := at + 1;
    }
    return None, at;
  }

  lemma {:induction false} OverHolds(b: seq<Row>, taken: set<nat>, n: nat, k: nat)
    requires k < n <= |b| && k !in taken
    ensures var p := |Over(b, taken, k)|; p < |Over(b, taken, n)| && Over(b, taken, n)[p] == b[k]
  {
    if k < n - 1 { OverHolds(b, taken, n - 1, k); }
  }

  /** What a round of twins knows once the first rows have chosen: who did is left or paired, the
      others are still there. */
  ghost predicate Serving(rules: Rules, r: nat, before: Matching, choice: Choice, m: Matching) {
    && FirstServed(rules, r, before.aLeft, before.bLeft, |choice|, choice)
    && m.pairs == before.pairs + Coupled(before.aLeft, before.bLeft, choice, |choice|)
    && m.aLeft == Lonely(before.aLeft, choice, |choice|) + before.aLeft[|choice|..]
    && m.bLeft == Over(before.bLeft, TakenBy(choice, |choice|), |before.bLeft|)
  }

  lemma {:induction false} ServedThen(rules: Rules, r: nat, a: seq<Row>, b: seq<Row>, choice: Choice, c: Option<nat>)
    requires FirstServed(rules, r, a, b, |choice|, choice) && |choice| < |a|
    requires Chooses(rules, r, a, b, choice + [c], |choice|)
    ensures FirstServed(rules, r, a, b, |choice| + 1, choice + [c])
  {
    var more := choice + [c];
    forall i: nat | i <= |choice| ensures Chooses(rules, r, a, b, more, i) {
      if i < |choice| {
        assert Chooses(rules, r, a, b, choice, i);
        TakenSame(more, choice, i);
      }
    }
  }

  /** The first twin left is the first one that no row before took. */
  lemma TwinIsFirst(rules: Rules, r: nat, a: seq<Row>, b: seq<Row>, choice: Choice, at: nat) returns (j: nat)
    requires |choice| < |a|
    requires var over := Over(b, TakenBy(choice, |choice|), |b|);
      && at < |over| && Meets(rules, r, a[|choice|], over[at])
      && forall k :: 0 <= k < at ==> !Meets(rules, r, a[|choice|], over[k])
    ensures j < |b| && j !in TakenBy(choice, |choice|) && |Over(b, TakenBy(choice, |choice|), j)| == at
    ensures Chooses(rules, r, a, b, choice + [Some(j)], |choice|)
  {
    var taken := TakenBy(choice, |choice|);
    TakenSame(choice + [Some(0)], choice, |choice|);
    j := OverIndex(b, taken, |b|, at);
    TakenSame(choice + [Some(j)], choice, |choice|);
    forall k: nat | k < j && Meets(rules, r, a[|choice|], b[k]) ensures k in taken {
      if k !in taken {
        OverHolds(b, taken, j, k);
        OverHolds(b, taken, |b|, k);
      }
    }
  }

  lemma NoTwinIsNone(rules: Rules, r: nat, a: seq<Row>, b: seq<Row>, choice: Choice)
    requires |choice| < |a|
    requires var over := Over(b, TakenBy(choice, |choice|), |b|);
      forall k :: 0 <= k < |over| ==> !Meets(rules, r, a[|choice|], over[k])
    ensures Chooses(rules, r, a, b, choice + [None], |choice|)
  {
    var taken := TakenBy(choice, |choice|);
    TakenSame(choice + [None], choice, |choice|);
    forall k: nat | k < |b| && Meets(rules, r, a[|choice|], b[k]) ensures k in taken {
      if k !in taken { OverHolds(b, taken, |b|, k); }
    }
  }

  /** Taking the row and its twin out of the lists of those left. */
  lemma ServingTook(rules: Rules, r: nat, before: Matching, choice: Choice, m: Matching, at: nat) returns (j: nat)
    requires Serving(rules, r, before, choice, m) && |choice| < |before.aLeft|
    requires at < |m.bLeft| && Meets(rules, r, before.aLeft[|choice|], m.bLeft[at])
    requires forall k :: 0 <= k < at ==> !Meets(rules, r, before.aLeft[|choice|], m.bLeft[k])
    ensures before.aLeft[|choice|] in m.aLeft
    ensures var row, twin := before.aLeft[|choice|], m.bLeft[at];
      Serving(rules, r, before, choice + [Some(j)],
              Matching(m.pairs + [Pair(Some(row), Some(twin))], Without(m.aLeft, row), Without(m.bLeft, twin)))
  {
    var n := |choice|;
    j := TwinIsFirst(rules, r, before.aLeft, before.bLeft, choice, at);
    ServedThen(rules, r, before.aLeft, before.bLeft, choice, Some(j));
    TwinTakenOut(before.bLeft, TakenBy(choice, n), j, at);
    SoFarTook(before, choice, m.pairs, Lonely(before.aLeft, choice, n), j);
    RowTakenOut(rules, r, before, choice, m, at);
    assert m.bLeft[at] !in m.bLeft[..at];
    assert m.bLeft == m.bLeft[..at] + ([m.bLeft[at]] + m.bLeft[at + 1..]);
    WithoutMiddle(m.bLeft[..at], m.bLeft[at], m.bLeft[at + 1..], m.bLeft);
  }

  lemma TwinTakenOut(b: seq<Row>, taken: set<nat>, j: nat, at: nat)
    requires j < |b| && j !in taken && |Over(b, taken, j)| == at
    ensures var over := Over(b, taken, |b|);
      at < |over| && over[at] == b[j] && Over(b, taken + {j}, |b|) == over[..at] + over[at + 1..]
  {
    OverLess(b, taken, j, |b|);
  }

  /** The row is the first of its kind left: an equal one left before it would have had its twin. */
  lemma RowTakenOut(rules: Rules, r: nat, before: Matching, choice: Choice, m: Matching, at: nat)
    requires Serving(rules, r, before, choice, m) && |choice| < |before.aLeft|
    requires at < |m.bLeft| && Meets(rules, r, before.aLeft[|choice|], m.bLeft[at])
    ensures before.aLeft[|choice|] in m.aLeft
    ensures Without(m.aLeft, before.aLeft[|choice|])
            == Lonely(before.aLeft, choice, |choice|) + before.aLeft[|choice| + 1..]
  {
    var n, row := |choice|, before.aLeft[|choice|];
    var lonely := Lonely(before.aLeft, choice, n);
    if row in lonely {
      LonelyMeetsNone(rules, r, before.aLeft, before.bLeft, choice, n, row, m.bLeft[at]);
    }
    assert before.aLeft[n..] == [row] + before.aLeft[n + 1..];
    WithoutMiddle(lonely, row, before.aLeft[n + 1..], m.aLeft);
  }

  lemma ServingTookNone(rules: Rules, r: nat, before: Matching, choice: Choice, m: Matching)
    requires Serving(rules, r, before, choice, m) && |choice| < |before.aLeft|
    requires forall k :: 0 <= k < |m.bLeft| ==> !Meets(rules, r, before.aLeft[|choice|], m.bLeft[k])
    ensures Serving(rules, r, before, choice + [None], m)
  {
    var n, row := |choice|, before.aLeft[|choice|];
    var lonely := Lonely(before.aLeft, choice, n);
    NoTwinIsNone(rules, r, before.aLeft, before.bLeft, choice);
    ServedThen(rules, r, before.aLeft, before.bLeft, choice, None);
    SoFarTookNone(before, choice, m.pairs, lonely);
    assert lonely + before.aLeft[n..] == (lonely + [row]) + before.aLeft[n + 1..];
  }

  lemma ServingStarts(rules: Rules, r: nat, before: Matching)
    ensures Serving(rules, r, before, [], before)
  {
    OverAll(before.bLeft, |before.bLeft|);
    assert before.bLeft[..|before.bLeft|] == before.bLeft;
  }

  /** One round of the twins. */
  method MatchTwins(rules: Rules, r: nat, before: Matching) returns (m: Matching)
    ensures IsRound(rules, r, before, m)
  {
    m := before;
    ghost var choice: Choice := [];
    ServingStarts(rules, r, before);
    for n := 0 to |before.aLeft|
      invariant |choice| == n && Serving(rules, r, before, choice, m)
    {
      var row := before.aLeft[n];
      var twin, at := FindTwin(rules, r, row, m.bLeft);
      if twin.Some? {
        ghost var j := ServingTook(rules, r, before, choice, m, at);
        m := Matching(m.pairs + [Pair(Some(row), twin)], Without(m.aLeft, row), Without(m.bLeft, twin.value));
        choice := choice + [Some(j)];
      } else {
        ServingTookNone(rules, r, before, choice, m);
        choice := choice + [None];
      }
    }
    assert RoundBy(rules, r, before, m, choice);
  }

  lemma RoundDone(rules: Rules, a: seq<Row>, b: seq<Row>, r: nat, before: Matching, m: Matching)
    requires AfterRounds(rules, a, b, r, before) && IsRound(rules, r, before, m)
    ensures AfterRounds(rules, a, b, r + 1, m)
  {
    assert RoundAfter(rules, a, b, r + 1, before, m);
  }

  /** Four rounds, then what is left alone. */
  method PairRows(rules: Rules, a: seq<Row>, b: seq<Row>) returns (pairs: seq<Pair>)
    ensures ServedInOrder(rules, a, b, pairs) && Paired(rules, a, b, pairs)
  {
    var m := MatchKeys(rules, a, b);
    assert AfterRounds(rules, a, b, 0, Matching([], a, b));
    RoundDone(rules, a, b, 0, Matching([], a, b), m);
    for r := 1 to ROUNDS
      invariant AfterRounds(rules, a, b, r, m)
    {
      var now := MatchTwins(rules, r, m);
      RoundDone(rules, a, b, r, m, now);
      m := now;
    }
    pairs := Finished(m);
    ServedIsPaired(rules, a, b, pairs);
  }
}
