/** The rows of two readings of a specification, the rules of `pair` of demo/extract.py by which two
    rows meet, and pairs of them. How cells are compared is given by rules. */
module Rows {
  import opened Wrappers
  import opened Near

  datatype Row = Row(symbol: string, parameter: string, condition: string,
                     low: string, typical: string, high: string, unit: string, page: string, place: string)

  datatype Field = Low | Typical | High | Page | Place

  /** symbol_key, condition_key, same and named. */
  datatype Rules = Rules(symbolKey: Row -> string, conditionKey: Row -> string,
                         same: (Field, Row, Row) -> bool, named: Row -> bool)

  predicate SameKey(rules: Rules, a: Row, b: Row) {
    rules.symbolKey(a) == rules.symbolKey(b) && rules.conditionKey(a) == rules.conditionKey(b)
  }

  predicate SameNumbers(rules: Rules, a: Row, b: Row) {
    rules.same(Low, a, b) && rules.same(Typical, a, b) && rules.same(High, a, b)
  }

  predicate SamePlace(rules: Rules, a: Row, b: Row) {
    rules.same(Page, a, b) && rules.same(Place, a, b)
  }

  const ROUNDS: nat := 4

  /** What round r looks for: the same key; then conditions a character apart; the same numbers; two
      names with everything the same. */
  predicate Meets(rules: Rules, r: nat, a: Row, b: Row) {
    if r == 0 then SameKey(rules, a, b)
    else if r == 1 then
      && rules.symbolKey(a) == rules.symbolKey(b)
      && IsNear(rules.conditionKey(a), rules.conditionKey(b)) && SamePlace(rules, a, b)
    else if r == 2 then rules.symbolKey(a) == rules.symbolKey(b) && SameNumbers(rules, a, b)
    else rules.named(a) && rules.named(b) && SameNumbers(rules, a, b) && SamePlace(rules, a, b)
  }

  /** What each round compares: symbol and condition; symbol, a condition one character off, page and
      place; symbol, min, typ and max; and of two rows named by their parameter all five fields. */
  lemma MeetsIs(rules: Rules, a: Row, b: Row)
    ensures Meets(rules, 0, a, b)
            <==> rules.symbolKey(a) == rules.symbolKey(b) && rules.conditionKey(a) == rules.conditionKey(b)
    ensures Meets(rules, 1, a, b)
            <==> && rules.symbolKey(a) == rules.symbolKey(b) && IsNear(rules.conditionKey(a), rules.conditionKey(b))
                 && rules.same(Page, a, b) && rules.same(Place, a, b)
    ensures Meets(rules, 2, a, b)
            <==> && rules.symbolKey(a) == rules.symbolKey(b)
                 && rules.same(Low, a, b) && rules.same(Typical, a, b) && rules.same(High, a, b)
    ensures Meets(rules, 3, a, b)
            <==> rules.named(a) && rules.named(b) && forall field: Field :: rules.same(field, a, b)
  {
    if Meets(rules, 3, a, b) {
      forall field: Field ensures rules.same(field, a, b) {
        assert field == Low || field == Typical || field == High || field == Page || field == Place;
      }
    }
  }

  ghost predicate Partners(rules: Rules, a: Row, b: Row) {
    exists r: nat :: r < ROUNDS && Meets(rules, r, a, b)
  }

  // pairs

  datatype Pair = Pair(a: Option<Row>, b: Option<Row>)

  function Firsts(pairs: seq<Pair>): multiset<Row> {
    if pairs == [] then multiset{}
    else
      var last := pairs[|pairs| - 1].a;
      Firsts(pairs[..|pairs| - 1]) + if last.Some? then multiset{last.value} else multiset{}
  }

  function Seconds(pairs: seq<Pair>): multiset<Row> {
    if pairs == [] then multiset{}
    else
      var last := pairs[|pairs| - 1].b;
      Seconds(pairs[..|pairs| - 1]) + if last.Some? then multiset{last.value} else multiset{}
  }

  lemma Appended(pairs: seq<Pair>, p: Pair)
    ensures Firsts(pairs + [p]) == Firsts(pairs) + if p.a.Some? then multiset{p.a.value} else multiset{}
    ensures Seconds(pairs + [p]) == Seconds(pairs) + if p.b.Some? then multiset{p.b.value} else multiset{}
  {
    assert (pairs + [p])[..|pairs|] == pairs;
  }

  lemma {:induction false} Together(p: seq<Pair>, q: seq<Pair>, whole: seq<Pair>)
    requires whole == p + q
    ensures Firsts(whole) == Firsts(p) + Firsts(q) && Seconds(whole) == Seconds(p) + Seconds(q)
  {
    if q == [] {
      assert whole == p;
    } else {
      var front, last := q[..|q| - 1], q[|q| - 1];
      assert q == front + [last] && whole == (p + front) + [last];
      Together(p, front, p + front);
      Appended(front, last);
      Appended(p + front, last);
    }
  }

  function Alone(rows: seq<Row>): (pairs: seq<Pair>)
    ensures |pairs| == |rows| && forall i :: 0 <= i < |rows| ==> pairs[i] == Pair(Some(rows[i]), None)
  {
    if rows == [] then [] else Alone(rows[..|rows| - 1]) + [Pair(Some(rows[|rows| - 1]), None)]
  }

  function AloneThere(rows: seq<Row>): (pairs: seq<Pair>)
    ensures |pairs| == |rows| && forall i :: 0 <= i < |rows| ==> pairs[i] == Pair(None, Some(rows[i]))
  {
    if rows == [] then [] else AloneThere(rows[..|rows| - 1]) + [Pair(None, Some(rows[|rows| - 1]))]
  }

  lemma {:induction false} AloneRows(rows: seq<Row>)
    ensures Firsts(Alone(rows)) == multiset(rows) && Seconds(Alone(rows)) == multiset{}
    ensures Firsts(AloneThere(rows)) == multiset{} && Seconds(AloneThere(rows)) == multiset(rows)
  {
    if rows != [] {
      var front, row := rows[..|rows| - 1], rows[|rows| - 1];
      AloneRows(front);
      Appended(Alone(front), Pair(Some(row), None));
      Appended(AloneThere(front), Pair(None, Some(row)));
      RowsThen(front, row, rows);
    }
  }

  lemma RowsThen(front: seq<Row>, row: Row, rows: seq<Row>)
    requires rows == front + [row]
    ensures multiset(rows) == multiset(front) + multiset{row}
  {
  }
}
