/** `restated` and `compare` of demo/extract.py: what two readings agree on, what is disputed and
    what a person has ruled. */
module Comparing {
  import opened Wrappers
  import opened Rows
  import opened Listing
  import opened Disputes
  import opened FirstCome
  import opened Pairing
  import Ordering

  // rows stated again

  /** The same key and numbers as an earlier row. */
  predicate Restates(rules: Rules, earlier: Row, row: Row) {
    SameKey(rules, earlier, row) && SameNumbers(rules, earlier, row)
  }

  lemma RestatesIs(rules: Rules, earlier: Row, row: Row)
    ensures Restates(rules, earlier, row)
            <==> && rules.symbolKey(earlier) == rules.symbolKey(row)
                 && rules.conditionKey(earlier) == rules.conditionKey(row)
                 && rules.same(Low, earlier, row) && rules.same(Typical, earlier, row) && rules.same(High, earlier, row)
  {
  }

  /** One of the rows kept comes before row n and says what it says. */
  ghost predicate SaidBefore(rules: Rules, rows: seq<Row>, at: seq<nat>, n: nat)
    requires n < |rows| && forall i :: 0 <= i < |at| ==> at[i] < |rows|
  {
    exists i :: 0 <= i < |at| && at[i] < n && Restates(rules, rows[at[i]], rows[n])
  }

  /** The kept rows are those at these places, in order, and a row is dropped exactly when an
      earlier kept one says the same. */
  ghost predicate Keeps(rules: Rules, rows: seq<Row>, n: nat, kept: seq<Row>, at: seq<nat>)
    requires n <= |rows|
  {
    && |at| == |kept|
    && (forall i :: 0 <= i < |at| ==> at[i] < n && kept[i] == rows[at[i]])
    && (forall i, j :: 0 <= i < j < |at| ==> at[i] < at[j])
    && forall m: nat :: m < n ==> (m in at <==> !SaidBefore(rules, rows, at, m))
  }

  method Restated(rules: Rules, rows: seq<Row>) returns (kept: seq<Row>, ghost at: seq<nat>)
    ensures Keeps(rules, rows, |rows|, kept, at)
    ensures exists places :: Keeps(rules, rows, |rows|, kept, places)
  {
    kept, at := [], [];
    for n := 0 to |rows|
      invariant Keeps(rules, rows, n, kept, at)
    {
      var said := false;
      for k := 0 to |kept|
        invariant said <==> exists i :: 0 <= i < k && Restates(rules, kept[i], rows[n])
      {
        said := said || Restates(rules, kept[k], rows[n]);
      }
      assert said <==> SaidBefore(rules, rows, at, n);
      if !said {
        KeepsMore(rules, rows, n, kept, at);
        kept, at := kept + [rows[n]], at + [n];
      }
    }
  }

  lemma KeepsMore(rules: Rules, rows: seq<Row>, n: nat, kept: seq<Row>, at: seq<nat>)
    requires n < |rows| && Keeps(rules, rows, n, kept, at) && !SaidBefore(rules, rows, at, n)
    ensures Keeps(rules, rows, n + 1, kept + [rows[n]], at + [n])
  {
    var more := at + [n];
    forall m: nat | m < n + 1 ensures m in more <==> !SaidBefore(rules, rows, more, m) {
      SaidStill(rules, rows, at, n, m);
    }
  }

  /** A later kept row says nothing before row m. */
  lemma SaidStill(rules: Rules, rows: seq<Row>, at: seq<nat>, n: nat, m: nat)
    requires m <= n < |rows| && forall i :: 0 <= i < |at| ==> at[i] < n
    ensures SaidBefore(rules, rows, at + [n], m) <==> SaidBefore(rules, rows, at, m)
    ensures m in at + [n] <==> m in at || m == n
  {
    if SaidBefore(rules, rows, at, m) {
      var i :| 0 <= i < |at| && at[i] < m && Restates(rules, rows[at[i]], rows[m]);
      assert (at + [n])[i] == at[i];
    }
  }

  // fields

  datatype Outcome = Agreed | Open(dispute: Dispute) | Settled(dispute: Dispute, ruling: string)

  const FIELDS: seq<Field> := [Low, Typical, High, Page, Place]
  const DOCUMENT_FIELDS: seq<DocumentField> := [Revision, Date]

  function WithCell(row: Row, field: Field, text: string): (now: Row)
    ensures forall f :: Cell(now, f) == if f == field then text else Cell(row, f)
    ensures now.condition == row.condition && now.symbol == row.symbol && now.parameter == row.parameter
            && now.unit == row.unit
  {
    match field
    case Low => row.(low := text)
    case Typical => row.(typical := text)
    case High => row.(high := text)
    case Page => row.(page := text)
    case Place => row.(place := text)
  }

  function DocumentCell(d: Document, field: DocumentField): string {
    if field.Revision? then d.revision else d.date
  }

  function RowKey(judge: Judge, row: Row, field: Field): RulingKey {
    (judge.rules.symbolKey(row), judge.rules.conditionKey(row), OfRow(field))
  }

  function Ruled(ruled: map<RulingKey, string>, key: RulingKey, dispute: Dispute): Outcome {
    if key in ruled then Settled(dispute, ruled[key]) else Open(dispute)
  }

  function DocumentOutcome(judge: Judge, ruled: map<RulingKey, string>, a: Document, b: Document,
                           field: DocumentField): Outcome {
    if judge.sameDocument(field, a, b) then Agreed
    else Ruled(ruled, ("document", "", OfDocument(field)),
               Dispute("document", "", OfDocument(field), DocumentCell(a, field), DocumentCell(b, field), [1]))
  }

  predicate Someone(pair: Pair) {
    pair.a.Some? || pair.b.Some?
  }

  function Either(pair: Pair): Row
    requires Someone(pair)
  {
    if pair.a.Some? then pair.a.value else pair.b.value
  }

  /** Their pages, each once and in order. */
  function Pages(judge: Judge, pair: Pair): seq<nat>
    requires Someone(pair)
  {
    if pair.a == None || pair.b == None then [judge.page(Either(pair).page)]
    else
      var p, q := judge.page(pair.a.value.page), judge.page(pair.b.value.page);
      if p == q then [p] else if p < q then [p, q] else [q, p]
  }

  function CellOf(row: Option<Row>, field: Field): string {
    if row.Some? then Cell(row.value, field) else ABSENT
  }

  function RowDispute(judge: Judge, pair: Pair, field: Field): Dispute
    requires Someone(pair)
  {
    var either := Either(pair);
    Dispute(if either.symbol != "" then either.symbol else either.parameter, either.condition, OfRow(field),
            CellOf(pair.a, field), CellOf(pair.b, field), Pages(judge, pair))
  }

  function FieldOutcome(judge: Judge, ruled: map<RulingKey, string>, pair: Pair, field: Field): Outcome
    requires Someone(pair)
  {
    if pair.a.Some? && pair.b.Some? && judge.rules.same(field, pair.a.value, pair.b.value) then Agreed
    else Ruled(ruled, RowKey(judge, Either(pair), field), RowDispute(judge, pair, field))
  }

  /** A row of one reading, without bounds and without rulings: kept as typical whoever is right. */
  predicate TypicalOnly(judge: Judge, ruled: map<RulingKey, string>, pair: Pair)
    requires Someone(pair)
  {
    && (pair.a == None || pair.b == None)
    && !judge.bounds(Either(pair).low, Either(pair).unit) && !judge.bounds(Either(pair).high, Either(pair).unit)
    && forall field :: field in FIELDS ==> RowKey(judge, Either(pair), field) !in ruled
  }

  // counting

  datatype Tally = Tally(disputes: seq<Dispute>, settled: seq<(Dispute, string)>, agreed: nat)

  function Counted(t: Tally, outcome: Outcome): Tally {
    match outcome
    case Agreed => t.(agreed := t.agreed + 1)
    case Open(dispute) => t.(disputes := t.disputes + [dispute])
    case Settled(dispute, ruling) => t.(settled := t.settled + [(dispute, ruling)])
  }

  function TallyOf(outcomes: seq<Outcome>): Tally {
    if outcomes == [] then Tally([], [], 0) else Counted(TallyOf(outcomes[..|outcomes| - 1]), outcomes[|outcomes| - 1])
  }

  lemma TallyThen(outcomes: seq<Outcome>, outcome: Outcome)
    ensures TallyOf(outcomes + [outcome]) == Counted(TallyOf(outcomes), outcome)
  {
    assert (outcomes + [outcome])[..|outcomes|] == outcomes;
  }

  /** Every outcome is counted once. */
  lemma {:induction false} TallyAccounts(outcomes: seq<Outcome>)
    ensures var t := TallyOf(outcomes); t.agreed + |t.disputes| + |t.settled| == |outcomes|
  {
    if outcomes != [] { TallyAccounts(outcomes[..|outcomes| - 1]); }
  }

  function DocumentOutcomes(judge: Judge, ruled: map<RulingKey, string>, a: Document,
                            b: Document): (outcomes: seq<Outcome>)
    ensures |outcomes| == |DOCUMENT_FIELDS|
  {
    seq(|DOCUMENT_FIELDS|,
        i requires 0 <= i < |DOCUMENT_FIELDS| => DocumentOutcome(judge, ruled, a, b, DOCUMENT_FIELDS[i]))
  }

  function FieldOutcomes(judge: Judge, ruled: map<RulingKey, string>, pair: Pair): (outcomes: seq<Outcome>)
    requires Someone(pair)
    ensures |outcomes| == |FIELDS|
  {
    seq(|FIELDS|, i requires 0 <= i < |FIELDS| => FieldOutcome(judge, ruled, pair, FIELDS[i]))
  }

  /** The fields of a pair that are judged: none of a row that is typical only. */
  function PairOutcomes(judge: Judge, ruled: map<RulingKey, string>, pair: Pair): seq<Outcome>
    requires Someone(pair)
  {
    if TypicalOnly(judge, ruled, pair) then [] else FieldOutcomes(judge, ruled, pair)
  }

  ghost predicate AllSomeone(pairs: seq<Pair>) {
    forall i :: 0 <= i < |pairs| ==> Someone(pairs[i])
  }

  /** The fields of the first n pairs that are judged. */
  ghost function Outcomes(judge: Judge, ruled: map<RulingKey, string>, pairs: seq<Pair>, n: nat): seq<Outcome>
    requires AllSomeone(pairs) && n <= |pairs|
  {
    if n == 0 then []
    else Outcomes(judge, ruled, pairs, n - 1)
         + PairOutcomes(judge, ruled, pairs[n - 1])
  }

  ghost function TypicalCount(judge: Judge, ruled: map<RulingKey, string>, pairs: seq<Pair>, n: nat): nat
    requires AllSomeone(pairs) && n <= |pairs|
  {
    if n == 0 then 0
    else TypicalCount(judge, ruled, pairs, n - 1) + if TypicalOnly(judge, ruled, pairs[n - 1]) then 1 else 0
  }

  lemma PairLength(judge: Judge, ruled: map<RulingKey, string>, pair: Pair)
    requires Someone(pair)
    ensures |PairOutcomes(judge, ruled, pair)| == if TypicalOnly(judge, ruled, pair) then 0 else 5
  {
  }

  lemma {:induction false} OutcomesLength(judge: Judge, ruled: map<RulingKey, string>, pairs: seq<Pair>, n: nat)
    requires AllSomeone(pairs) && n <= |pairs|
    ensures |Outcomes(judge, ruled, pairs, n)| + 5 * TypicalCount(judge, ruled, pairs, n) == 5 * n
  {
    if n > 0 {
      OutcomesLength(judge, ruled, pairs, n - 1);
      PairLength(judge, ruled, pairs[n - 1]);
    }
  }

  // the row that is kept

  /** The row of a pair before any ruling: both conditions where they are worded differently. */
  function Merged(judge: Judge, pair: Pair): Row
    requires Someone(pair)
  {
    if pair.a.Some? && pair.b.Some? && judge.rules.conditionKey(pair.a.value) != judge.rules.conditionKey(pair.b.value)
    then Either(pair).(condition := pair.a.value.condition + " | " + pair.b.value.condition)
    else Either(pair)
  }

  /** The rulings on the first n fields put in. */
  function WithRulings(row: Row, outcomes: seq<Outcome>, n: nat): Row
    requires n <= |outcomes| == |FIELDS|
  {
    if n == 0 then row
    else
      var before := WithRulings(row, outcomes, n - 1);
      if outcomes[n - 1].Settled? then WithCell(before, FIELDS[n - 1], outcomes[n - 1].ruling) else before
  }

  predicate NoneOpen(outcomes: seq<Outcome>) {
    forall outcome :: outcome in outcomes ==> !outcome.Open?
  }

  predicate NoneAbsent(row: Row) {
    forall field :: field in FIELDS ==> Cell(row, field) != ABSENT
  }

  function RowFor(judge: Judge, ruled: map<RulingKey, string>, pair: Pair): Option<Row>
    requires Someone(pair)
  {
    if TypicalOnly(judge, ruled, pair) then
      Some(Either(pair).(condition := judge.strip(Either(pair).condition + " " + ONE_READER)))
    else
      var outcomes := FieldOutcomes(judge, ruled, pair);
      var row := WithRulings(Merged(judge, pair), outcomes, |FIELDS|);
      if NoneOpen(outcomes) && NoneAbsent(row) then Some(row) else None
  }

  ghost function RowsFor(judge: Judge, ruled: map<RulingKey, string>, pairs: seq<Pair>, n: nat): seq<Row>
    requires AllSomeone(pairs) && n <= |pairs|
  {
    if n == 0 then []
    else Grown(RowsFor(judge, ruled, pairs, n - 1), RowFor(judge, ruled, pairs[n - 1]))
  }

  function Grown(rows: seq<Row>, row: Option<Row>): seq<Row> {
    if row.Some? then rows + [row.value] else rows
  }

  lemma {:induction false} RulingsPut(row: Row, outcomes: seq<Outcome>, n: nat, k: nat)
    requires k < |FIELDS| && n <= |outcomes| == |FIELDS|
    ensures Cell(WithRulings(row, outcomes, n), FIELDS[k])
            == if k < n && outcomes[k].Settled? then outcomes[k].ruling else Cell(row, FIELDS[k])
  {
    if n > 0 {
      RulingsPut(row, outcomes, n - 1, k);
      assert k != n - 1 ==> FIELDS[k] != FIELDS[n - 1];
    }
  }

  /** A kept row that is not just typical holds, field by field, what both readings agree on or
      what a person ruled, and no ruling that there is no such row. */
  lemma KeptRowIsSettled(judge: Judge, ruled: map<RulingKey, string>, pair: Pair, k: nat)
    requires Someone(pair) && !TypicalOnly(judge, ruled, pair) && RowFor(judge, ruled, pair).Some? && k < |FIELDS|
    ensures var cell, key := Cell(RowFor(judge, ruled, pair).value, FIELDS[k]), RowKey(judge, Either(pair), FIELDS[k]);
      && cell != ABSENT
      && ((pair.a.Some? && pair.b.Some? && judge.rules.same(FIELDS[k], pair.a.value, pair.b.value)
           && cell == Cell(pair.a.value, FIELDS[k]))
          || (key in ruled && cell == ruled[key]))
  {
    var outcomes := FieldOutcomes(judge, ruled, pair);
    RulingsPut(Merged(judge, pair), outcomes, |FIELDS|, k);
    assert outcomes[k] in outcomes && FIELDS[k] in FIELDS;
  }

  // the comparison

  /** The disputes in the order found, the settled fields and the count of those agreed. */
  method Count(t: Tally, outcomes: seq<Outcome>, ghost before: seq<Outcome>) returns (now: Tally)
    requires t == TallyOf(before)
    ensures now == TallyOf(before + outcomes)
  {
    now := t;
    assert before + outcomes[..0] == before;
    for n := 0 to |outcomes|
      invariant now == TallyOf(before + outcomes[..n])
    {
      assert before + outcomes[..n + 1] == (before + outcomes[..n]) + [outcomes[n]];
      TallyThen(before + outcomes[..n], outcomes[n]);
      now := Counted(now, outcomes[n]);
    }
    assert outcomes[..|outcomes|] == outcomes;
  }

  method ComparePair(judge: Judge, ruled: map<RulingKey, string>, pair: Pair, t: Tally, ghost before: seq<Outcome>)
    returns (now: Tally, row: Option<Row>, typical: nat)
    requires Someone(pair) && t == TallyOf(before)
    ensures now == TallyOf(before + PairOutcomes(judge, ruled, pair))
    ensures row == RowFor(judge, ruled, pair) && typical == if TypicalOnly(judge, ruled, pair) then 1 else 0
  {
    row := RowFor(judge, ruled, pair);
    if TypicalOnly(judge, ruled, pair) {
      now, typical := t, 1;
      assert before + [] == before;
    } else {
      now := Count(t, FieldOutcomes(judge, ruled, pair), before);
      typical := 0;
    }
  }

  /** The outcome of every pair. */
  method CompareRows(judge: Judge, ruled: map<RulingKey, string>, pairs: seq<Pair>, t: Tally,
                     ghost before: seq<Outcome>)
    returns (now: Tally, rows: seq<Row>, compared: nat, typical: nat)
    requires AllSomeone(pairs) && t == TallyOf(before)
    ensures now == TallyOf(before + Outcomes(judge, ruled, pairs, |pairs|))
    ensures rows == RowsFor(judge, ruled, pairs, |pairs|) && typical == TypicalCount(judge, ruled, pairs, |pairs|)
    ensures compared == 5 * |pairs|
  {
    now, rows, compared, typical := t, [], 0, 0;
    assert before + [] == before;
    for n := 0 to |pairs|
      invariant ComparedTo(judge, ruled, pairs, n, before, now, rows, typical) && compared == 5 * n
    {
      var more, row, one := ComparePair(judge, ruled, pairs[n], now, before + Outcomes(judge, ruled, pairs, n));
      ComparedMore(judge, ruled, pairs, n, before, now, rows, typical, more, row, one);
      now, rows, compared, typical := more, Grown(rows, row), compared + |FIELDS|, typical + one;
    }
  }

  /** What is known once the first n pairs are compared. */
  ghost predicate ComparedTo(judge: Judge, ruled: map<RulingKey, string>, pairs: seq<Pair>, n: nat,
                             before: seq<Outcome>,
                             t: Tally, rows: seq<Row>, typical: nat)
    requires AllSomeone(pairs) && n <= |pairs|
  {
    && t == TallyOf(before + Outcomes(judge, ruled, pairs, n))
    && rows == RowsFor(judge, ruled, pairs, n)
    && typical == TypicalCount(judge, ruled, pairs, n)
  }

  lemma ComparedMore(judge: Judge, ruled: map<RulingKey, string>, pairs: seq<Pair>, n: nat, before: seq<Outcome>,
                     t: Tally, rows: seq<Row>, typical: nat, more: Tally, row: Option<Row>, one: nat)
    requires AllSomeone(pairs) && n < |pairs| && ComparedTo(judge, ruled, pairs, n, before, t, rows, typical)
    requires more == TallyOf((before + Outcomes(judge, ruled, pairs, n)) + PairOutcomes(judge, ruled, pairs[n]))
    requires row == RowFor(judge, ruled, pairs[n]) && one == if TypicalOnly(judge, ruled, pairs[n]) then 1 else 0
    ensures ComparedTo(judge, ruled, pairs, n + 1, before, more, Grown(rows, row), typical + one)
  {
    OutcomesGo(judge, ruled, pairs, n, before);
  }

  lemma OutcomesGo(judge: Judge, ruled: map<RulingKey, string>, pairs: seq<Pair>, n: nat, before: seq<Outcome>)
    requires AllSomeone(pairs) && n < |pairs|
    ensures (before + Outcomes(judge, ruled, pairs, n)) + PairOutcomes(judge, ruled, pairs[n])
            == before + Outcomes(judge, ruled, pairs, n + 1)
  {
  }

  /** A field's place in its row, or before them. */
  function FieldIndex(field: AnyField): int {
    match field
    case OfDocument(_) => -1
    case OfRow(row) => match row
      case Low => 0
      case Typical => 1
      case High => 2
      case Page => 3
      case Place => 4
  }

  /** By page, symbol, condition, then field. */
  function DisputeKey(d: Dispute): Ordering.Key {
    [d.pages, Ordering.Codes(d.symbol), Ordering.Codes(d.condition), [FieldIndex(d.field)]]
  }

  lemma PairsAreSomeone(rules: Rules, a: seq<Row>, b: seq<Row>, pairs: seq<Pair>)
    requires Paired(rules, a, b, pairs)
    ensures AllSomeone(pairs)
  {
    forall i | 0 <= i < |pairs| ensures Someone(pairs[i]) {
      assert pairs[i] in pairs;
    }
  }

  // what the outcomes tell

  lemma EveryField(field: Field)
    ensures field in FIELDS
  {
    assert FIELDS[0] == Low && FIELDS[1] == Typical && FIELDS[2] == High && FIELDS[3] == Page && FIELDS[4] == Place;
  }

  lemma EveryDocumentField(field: DocumentField)
    ensures field in DOCUMENT_FIELDS
  {
    assert DOCUMENT_FIELDS[0] == Revision && DOCUMENT_FIELDS[1] == Date;
  }

  lemma TypicalIs(judge: Judge, ruled: map<RulingKey, string>, pair: Pair)
    requires Someone(pair)
    ensures TypicalOnly(judge, ruled, pair) <==> IsTypical(judge, ruled, pair, Either(pair))
  {
    var row := Either(pair);
    forall field: Field
      ensures field in FIELDS && (RulingOn(judge, ruled, row, field) == None <==> RowKey(judge, row, field) !in ruled)
    {
      EveryField(field);
    }
  }

  lemma OnlyEither(pair: Pair, row: Row)
    requires Someone(pair)
    ensures KnownBy(pair, row) <==> row == Either(pair)
  {
  }

  lemma PagesAre(judge: Judge, pair: Pair)
    requires Someone(pair)
    ensures ArePages(judge, pair, Pages(judge, pair))
  {
  }

  lemma DisputeIs(judge: Judge, pair: Pair, field: Field, d: Dispute)
    requires Someone(pair)
    ensures ShowsField(judge, pair, Either(pair), field, d) <==> d == RowDispute(judge, pair, field)
  {
    PagesAre(judge, pair);
    if ShowsField(judge, pair, Either(pair), field, d) {
      RisingIsOne(d.pages, Pages(judge, pair));
      SaysCell(pair.a, field, d.a);
      SaysCell(pair.b, field, d.b);
    }
    SaysCell(pair.a, field, CellOf(pair.a, field));
    SaysCell(pair.b, field, CellOf(pair.b, field));
  }

  lemma SaysCell(row: Option<Row>, field: Field, text: string)
    ensures Says(row, field, text) <==> text == CellOf(row, field)
  {
  }

  /** The outcome that a dispute is, with its ruling or none. */
  function OutcomeFor(d: Dispute, ruling: Option<string>): Outcome {
    if ruling.Some? then Settled(d, ruling.value) else Open(d)
  }

  lemma OutcomeIs(judge: Judge, ruled: map<RulingKey, string>, pair: Pair, field: Field, d: Dispute,
                  ruling: Option<string>)
    requires Someone(pair) && !TypicalOnly(judge, ruled, pair)
    ensures FieldOutcome(judge, ruled, pair, field) == OutcomeFor(d, ruling)
            <==> IsAtStake(judge, ruled, pair, Either(pair), field, ruling)
                 && ShowsField(judge, pair, Either(pair), field, d)
  {
    TypicalIs(judge, ruled, pair);
    OnlyEither(pair, Either(pair));
    DisputeIs(judge, pair, field, d);
  }

  lemma {:induction false} TallyHas(outcomes: seq<Outcome>)
    ensures forall d :: d in TallyOf(outcomes).disputes <==> Open(d) in outcomes
    ensures forall d, r :: (d, r) in TallyOf(outcomes).settled <==> Settled(d, r) in outcomes
  {
    if outcomes != [] {
      var front, last := outcomes[..|outcomes| - 1], outcomes[|outcomes| - 1];
      TallyHas(front);
      assert outcomes == front + [last];
    }
  }

  ghost predicate IsOutcome(judge: Judge, ruled: map<RulingKey, string>, pairs: seq<Pair>, i: nat, field: Field,
                            o: Outcome) {
    && i < |pairs| && Someone(pairs[i]) && !TypicalOnly(judge, ruled, pairs[i])
    && o == FieldOutcome(judge, ruled, pairs[i], field)
  }

  lemma PairHas(judge: Judge, ruled: map<RulingKey, string>, pair: Pair, o: Outcome)
    requires Someone(pair)
    ensures o in PairOutcomes(judge, ruled, pair)
            <==> !TypicalOnly(judge, ruled, pair) && exists field: Field :: o == FieldOutcome(judge, ruled, pair, field)
  {
    var outcomes := FieldOutcomes(judge, ruled, pair);
    if field: Field :| o == FieldOutcome(judge, ruled, pair, field) {
      EveryField(field);
      var k :| 0 <= k < |FIELDS| && FIELDS[k] == field;
      assert outcomes[k] == o;
    }
    if o in outcomes {
      var k :| 0 <= k < |outcomes| && outcomes[k] == o;
      assert o == FieldOutcome(judge, ruled, pair, FIELDS[k]);
    }
  }

  lemma {:induction false} OutcomesHave(judge: Judge, ruled: map<RulingKey, string>, pairs: seq<Pair>, n: nat,
                                        o: Outcome)
    requires AllSomeone(pairs) && n <= |pairs|
    ensures o in Outcomes(judge, ruled, pairs, n)
            <==> exists i: nat, field: Field :: i < n && IsOutcome(judge, ruled, pairs, i, field, o)
  {
    if n > 0 {
      OutcomesHave(judge, ruled, pairs, n - 1, o);
      PairHas(judge, ruled, pairs[n - 1], o);
      if o in PairOutcomes(judge, ruled, pairs[n - 1]) {
        var field: Field :| o == FieldOutcome(judge, ruled, pairs[n - 1], field);
        assert IsOutcome(judge, ruled, pairs, n - 1, field, o);
      }
    }
  }

  lemma DocumentsHave(judge: Judge, ruled: map<RulingKey, string>, a: Document, b: Document, o: Outcome)
    ensures o in DocumentOutcomes(judge, ruled, a, b)
            <==> exists field: DocumentField :: o == DocumentOutcome(judge, ruled, a, b, field)
  {
    var outcomes := DocumentOutcomes(judge, ruled, a, b);
    if field: DocumentField :| o == DocumentOutcome(judge, ruled, a, b, field) {
      EveryDocumentField(field);
      var k :| 0 <= k < |DOCUMENT_FIELDS| && DOCUMENT_FIELDS[k] == field;
      assert outcomes[k] == o;
    }
    if o in outcomes {
      var k :| 0 <= k < |outcomes| && outcomes[k] == o;
      assert o == DocumentOutcome(judge, ruled, a, b, DOCUMENT_FIELDS[k]);
    }
  }

  lemma DocumentIs(judge: Judge, ruled: map<RulingKey, string>, a: Document, b: Document, field: DocumentField,
                   d: Dispute, ruling: Option<string>)
    ensures DocumentOutcome(judge, ruled, a, b, field) == OutcomeFor(d, ruling)
            <==> DocumentComesTo(judge, ruled, a, b, field, d, ruling)
  {
  }

  ghost function AllOutcomes(judge: Judge, ruled: map<RulingKey, string>, a: Document, b: Document,
                             pairs: seq<Pair>): seq<Outcome>
    requires AllSomeone(pairs)
  {
    DocumentOutcomes(judge, ruled, a, b) + Outcomes(judge, ruled, pairs, |pairs|)
  }

  lemma RowOutcome(judge: Judge, ruled: map<RulingKey, string>, pairs: seq<Pair>, i: nat, row: Row, field: Field,
                   d: Dispute, ruling: Option<string>)
    requires AllSomeone(pairs)
    ensures RowComesTo(judge, ruled, pairs, i, row, field, d, ruling)
            <==> (i < |pairs| && row == Either(pairs[i])
                  && IsOutcome(judge, ruled, pairs, i, field, OutcomeFor(d, ruling)))
  {
    if i < |pairs| {
      OnlyEither(pairs[i], row);
      TypicalIs(judge, ruled, pairs[i]);
      if !TypicalOnly(judge, ruled, pairs[i]) { OutcomeIs(judge, ruled, pairs[i], field, d, ruling); }
    }
  }

  lemma RowsCome(judge: Judge, ruled: map<RulingKey, string>, pairs: seq<Pair>, d: Dispute, ruling: Option<string>)
    requires AllSomeone(pairs)
    ensures OutcomeFor(d, ruling) in Outcomes(judge, ruled, pairs, |pairs|)
            <==> exists i: nat, row: Row, field: Field :: RowComesTo(judge, ruled, pairs, i, row, field, d, ruling)
  {
    var o := OutcomeFor(d, ruling);
    OutcomesHave(judge, ruled, pairs, |pairs|, o);
    if o in Outcomes(judge, ruled, pairs, |pairs|) {
      var i: nat, field: Field :| i < |pairs| && IsOutcome(judge, ruled, pairs, i, field, o);
      RowOutcome(judge, ruled, pairs, i, Either(pairs[i]), field, d, ruling);
    }
    if i: nat, row: Row, field: Field :| RowComesTo(judge, ruled, pairs, i, row, field, d, ruling) {
      RowOutcome(judge, ruled, pairs, i, row, field, d, ruling);
    }
  }

  lemma DocumentsCome(judge: Judge, ruled: map<RulingKey, string>, a: Document, b: Document, d: Dispute,
                      ruling: Option<string>)
    ensures OutcomeFor(d, ruling) in DocumentOutcomes(judge, ruled, a, b)
            <==> exists field: DocumentField :: DocumentComesTo(judge, ruled, a, b, field, d, ruling)
  {
    DocumentsHave(judge, ruled, a, b, OutcomeFor(d, ruling));
    forall field: DocumentField
      ensures DocumentOutcome(judge, ruled, a, b, field) == OutcomeFor(d, ruling)
              <==> DocumentComesTo(judge, ruled, a, b, field, d, ruling)
    {
      DocumentIs(judge, ruled, a, b, field, d, ruling);
    }
  }

  lemma AllCome(judge: Judge, ruled: map<RulingKey, string>, a: Document, b: Document, pairs: seq<Pair>, d: Dispute,
                ruling: Option<string>)
    requires AllSomeone(pairs)
    ensures OutcomeFor(d, ruling) in AllOutcomes(judge, ruled, a, b, pairs)
            <==> ComesTo(judge, ruled, a, b, pairs, d, ruling)
  {
    RowsCome(judge, ruled, pairs, d, ruling);
    DocumentsCome(judge, ruled, a, b, d, ruling);
  }

  // what the rows kept tell

  lemma OneRowFor(judge: Judge, ruled: map<RulingKey, string>, pair: Pair)
    requires Someone(pair)
    ensures (exists row :: MayKeep(judge, ruled, pair, row)) <==> MayKeep(judge, ruled, pair, Either(pair))
  {
    forall row | MayKeep(judge, ruled, pair, row) ensures row == Either(pair) { OnlyEither(pair, row); }
  }

  /** What the row kept says in a field, where it is kept. */
  lemma FieldKept(judge: Judge, ruled: map<RulingKey, string>, pair: Pair, field: Field)
    requires Someone(pair)
    ensures var row, ruling := Either(pair), RulingOn(judge, ruled, Either(pair), field);
      var cell := Cell(WithRulings(Merged(judge, pair), FieldOutcomes(judge, ruled, pair), |FIELDS|), field);
      && (FieldOutcome(judge, ruled, pair, field).Open? <==> !BothSame(judge, pair, field) && ruling == None)
      && cell == if !BothSame(judge, pair, field) && ruling.Some? then ruling.value else Cell(row, field)
  {
    EveryField(field);
    var k: nat :| k < |FIELDS| && FIELDS[k] == field;
    RulingsPut(Merged(judge, pair), FieldOutcomes(judge, ruled, pair), |FIELDS|, k);
  }

  lemma RowForKeeps(judge: Judge, ruled: map<RulingKey, string>, pair: Pair)
    requires Someone(pair) && !TypicalOnly(judge, ruled, pair)
    ensures RowFor(judge, ruled, pair).Some? <==> MayKeep(judge, ruled, pair, Either(pair))
  {
    var outcomes := FieldOutcomes(judge, ruled, pair);
    var row := WithRulings(Merged(judge, pair), outcomes, |FIELDS|);
    TypicalIs(judge, ruled, pair);
    forall field: Field ensures Says(Some(Either(pair)), field, ABSENT) <==> Cell(Either(pair), field) == ABSENT {
      SaysCell(Some(Either(pair)), field, ABSENT);
    }
    forall field: Field
      ensures !FieldOutcome(judge, ruled, pair, field).Open? && Cell(row, field) != ABSENT
              <==> if BothSame(judge, pair, field) then Cell(Either(pair), field) != ABSENT
                   else RulingOn(judge, ruled, Either(pair), field).Some?
                        && RulingOn(judge, ruled, Either(pair), field) != Some(ABSENT)
    {
      FieldKept(judge, ruled, pair, field);
    }
    AllFields(judge, ruled, pair, row);
  }

  lemma AllFields(judge: Judge, ruled: map<RulingKey, string>, pair: Pair, row: Row)
    requires Someone(pair)
    ensures NoneOpen(FieldOutcomes(judge, ruled, pair))
            <==> forall field: Field :: !FieldOutcome(judge, ruled, pair, field).Open?
    ensures NoneAbsent(row) <==> forall field: Field :: Cell(row, field) != ABSENT
  {
    var outcomes := FieldOutcomes(judge, ruled, pair);
    forall field: Field ensures field in FIELDS && FieldOutcome(judge, ruled, pair, field) in outcomes {
      EveryField(field);
      var k: nat :| k < |FIELDS| && FIELDS[k] == field;
      assert outcomes[k] == FieldOutcome(judge, ruled, pair, field);
    }
  }

  lemma RowForIs(judge: Judge, ruled: map<RulingKey, string>, pair: Pair)
    requires Someone(pair)
    ensures RowFor(judge, ruled, pair).Some? <==> CanKeep(judge, ruled, pair)
    ensures RowFor(judge, ruled, pair).Some? ==> KeepsRow(judge, ruled, pair, RowFor(judge, ruled, pair).value)
  {
    OneRowFor(judge, ruled, pair);
    TypicalIs(judge, ruled, pair);
    OnlyEither(pair, Either(pair));
    if !TypicalOnly(judge, ruled, pair) {
      RowForKeeps(judge, ruled, pair);
      if RowFor(judge, ruled, pair).Some? { RowForKept(judge, ruled, pair); }
    }
  }

  lemma RowForKept(judge: Judge, ruled: map<RulingKey, string>, pair: Pair)
    requires Someone(pair) && !TypicalOnly(judge, ruled, pair)
    requires RowFor(judge, ruled, pair).Some? && MayKeep(judge, ruled, pair, Either(pair))
    ensures KeptAs(judge, ruled, pair, Either(pair), RowFor(judge, ruled, pair).value)
  {
    TypicalIs(judge, ruled, pair);
    var kept := RowFor(judge, ruled, pair).value;
    RulingsLeave(Merged(judge, pair), FieldOutcomes(judge, ruled, pair), |FIELDS|);
    forall field: Field
      ensures if BothSame(judge, pair, field) then Says(Some(kept), field, Cell(Either(pair), field))
              else RulingOn(judge, ruled, Either(pair), field).Some?
                   && Says(Some(kept), field, RulingOn(judge, ruled, Either(pair), field).value)
    {
      FieldKept(judge, ruled, pair, field);
      SaysCell(Some(kept), field, Cell(kept, field));
    }
  }

  /** Rulings change no other column. */
  lemma {:induction false} RulingsLeave(row: Row, outcomes: seq<Outcome>, n: nat)
    requires n <= |outcomes| == |FIELDS|
    ensures var now := WithRulings(row, outcomes, n);
      now.condition == row.condition && now.symbol == row.symbol && now.parameter == row.parameter
        && now.unit == row.unit
  {
    if n > 0 { RulingsLeave(row, outcomes, n - 1); }
  }

  lemma {:induction false} RowsForSome(judge: Judge, ruled: map<RulingKey, string>, pairs: seq<Pair>,
                                       results: seq<Option<Row>>, n: nat)
    requires AllSomeone(pairs) && n <= |pairs| == |results|
    requires forall i :: 0 <= i < |pairs| ==> results[i] == RowFor(judge, ruled, pairs[i])
    ensures RowsFor(judge, ruled, pairs, n) == Somes(results, n)
  {
    if n > 0 {
      RowsForSome(judge, ruled, pairs, results, n - 1);
      SomesNext(results, n, RowsFor(judge, ruled, pairs, n - 1));
    }
  }

  lemma SomesNext(results: seq<Option<Row>>, n: nat, rows: seq<Row>)
    requires 0 < n <= |results| && rows == Somes(results, n - 1)
    ensures Somes(results, n) == Grown(rows, results[n - 1])
  {
  }

  lemma RowsForKeep(judge: Judge, ruled: map<RulingKey, string>, pairs: seq<Pair>, keeps: Pair -> bool,
                    shows: (Pair, Row) -> bool) returns (from: seq<nat>)
    requires AllSomeone(pairs)
    requires forall pair :: keeps(pair) <==> CanKeep(judge, ruled, pair)
    requires forall pair, row :: shows(pair, row) <==> KeepsRow(judge, ruled, pair, row)
    ensures Picks(keeps, shows, pairs, RowsFor(judge, ruled, pairs, |pairs|), from)
  {
    var results := seq(|pairs|, i requires 0 <= i < |pairs| => RowFor(judge, ruled, pairs[i]));
    RowsForSome(judge, ruled, pairs, results, |pairs|);
    forall i | 0 <= i < |pairs|
      ensures (results[i].Some? <==> keeps(pairs[i])) && (results[i].Some? ==> shows(pairs[i], results[i].value))
    {
      RowForIs(judge, ruled, pairs[i]);
    }
    from := SomesPicked(keeps, shows, pairs, results, |pairs|);
    assert pairs[..|pairs|] == pairs;
  }

  lemma {:induction false} TypicalMarked(judge: Judge, ruled: map<RulingKey, string>, pairs: seq<Pair>,
                                         marks: seq<bool>, n: nat)
    requires AllSomeone(pairs) && n <= |pairs| == |marks|
    requires forall i :: 0 <= i < |pairs| ==> marks[i] == TypicalOnly(judge, ruled, pairs[i])
    ensures TypicalCount(judge, ruled, pairs, n) == Marked(marks, n)
  {
    if n > 0 { TypicalMarked(judge, ruled, pairs, marks, n - 1); }
  }

  lemma TypicalSet(judge: Judge, ruled: map<RulingKey, string>, pairs: seq<Pair>) returns (typical: set<nat>)
    requires AllSomeone(pairs)
    ensures |typical| == TypicalCount(judge, ruled, pairs, |pairs|)
    ensures forall i: nat :: i in typical <==> i < |pairs| && TypicalOnly(judge, ruled, pairs[i])
  {
    var marks := seq(|pairs|, i requires 0 <= i < |pairs| => TypicalOnly(judge, ruled, pairs[i]));
    TypicalMarked(judge, ruled, pairs, marks, |pairs|);
    typical := MarkedSet(marks, |pairs|);
  }

  lemma TypicalsAre(judge: Judge, ruled: map<RulingKey, string>, pairs: seq<Pair>, typical: set<nat>)
    requires AllSomeone(pairs)
    requires forall i: nat :: i in typical <==> i < |pairs| && TypicalOnly(judge, ruled, pairs[i])
    ensures AreTypical(judge, ruled, pairs, typical)
  {
    forall i: nat | i < |pairs|
      ensures TypicalOnly(judge, ruled, pairs[i]) <==> exists row :: IsTypical(judge, ruled, pairs[i], row)
    {
      TypicalIs(judge, ruled, pairs[i]);
      forall row | IsTypical(judge, ruled, pairs[i], row) ensures row == Either(pairs[i]) { OnlyEither(pairs[i], row); }
    }
  }

  // the order of the disputes

  lemma LexNumbers(a: seq<int>, b: seq<int>)
    requires Ordering.Lex(a, b) && a != b
    ensures NumbersBefore(a, b)
  {
    Ordering.LexIs(a, b);
    if n: nat :| Ordering.FirstSmaller(a, b, n) {
      assert a[..n] == b[..n];
    }
  }

  lemma LexText(a: string, b: string)
    requires Ordering.Lex(Ordering.Codes(a), Ordering.Codes(b)) && a != b
    ensures TextBefore(a, b)
  {
    Ordering.LexIs(Ordering.Codes(a), Ordering.Codes(b));
    if n: nat :| Ordering.FirstSmaller(Ordering.Codes(a), Ordering.Codes(b), n) {
      SameCodes(a, b, n);
    } else {
      SameCodes(a, b, |a|);
      assert a == a[..|a|] == b[..|a|];
    }
  }

  lemma SameCodes(a: string, b: string, n: nat)
    requires n <= |a| && n <= |b| && forall i :: 0 <= i < n ==> Ordering.Codes(a)[i] == Ordering.Codes(b)[i]
    ensures a[..n] == b[..n]
  {
    forall i | 0 <= i < n ensures a[i] == b[i] {
      assert a[i] as int == Ordering.Codes(a)[i];
    }
  }

  lemma CodesDiffer(a: string, b: string)
    ensures Ordering.Codes(a) == Ordering.Codes(b) <==> a == b
  {
    if Ordering.Codes(a) == Ordering.Codes(b) {
      assert |a| == |Ordering.Codes(a)| == |b|;
      SameCodes(a, b, |a|);
      assert a[..|a|] == a && b[..|b|] == b;
    }
  }

  lemma FieldOrder(a: AnyField, b: AnyField)
    requires FieldIndex(a) <= FieldIndex(b)
    ensures FieldBefore(a, b)
  {
  }

  lemma KeyOrder(d: Dispute, e: Dispute)
    requires Ordering.NotAfter(DisputeKey(d), DisputeKey(e))
    ensures DisputeBefore(d, e)
  {
    var k, l := DisputeKey(d), DisputeKey(e);
    CodesDiffer(d.symbol, e.symbol);
    CodesDiffer(d.condition, e.condition);
    if d.pages != e.pages {
      LexNumbers(k[0], l[0]);
    } else if d.symbol != e.symbol {
      LaterPart(k, l, 1);
      LexText(d.symbol, e.symbol);
    } else if d.condition != e.condition {
      LaterPart(k, l, 2);
      LexText(d.condition, e.condition);
    } else {
      LastPart(k, l);
      FieldOrder(d.field, e.field);
    }
  }

  lemma {:induction false} LaterPart(k: Ordering.Key, l: Ordering.Key, n: nat)
    requires n < |k| && n < |l| && Ordering.NotAfter(k, l) && k[..n] == l[..n] && k[n] != l[n]
    ensures Ordering.Lex(k[n], l[n])
  {
    if n > 0 {
      assert k[0] == k[..n][0] == l[0];
      assert k[1..][..n - 1] == k[..n][1..] == l[..n][1..] == l[1..][..n - 1];
      LaterPart(k[1..], l[1..], n - 1);
    }
  }

  lemma LastPart(k: Ordering.Key, l: Ordering.Key)
    requires |k| == |l| == 4 && Ordering.NotAfter(k, l) && k[..3] == l[..3] && |k[3]| == |l[3]| == 1
    ensures k[3][0] <= l[3][0]
  {
    if k[3] != l[3] {
      LaterPart(k, l, 3);
      assert k[3][1..] == [] == l[3][1..];
    }
  }

  lemma SortedDisputes(found: seq<Dispute>, disputes: seq<Dispute>)
    requires Ordering.IsSorted(DisputeKey, found, disputes)
    ensures InDisputeOrder(disputes) && forall d :: d in disputes <==> d in found
  {
    forall i, j | 0 <= i < j < |disputes| ensures DisputeBefore(disputes[i], disputes[j]) {
      KeyOrder(disputes[i], disputes[j]);
    }
    assert forall d :: d in disputes <==> d in multiset(disputes);
    assert forall d :: d in found <==> d in multiset(found);
  }

  lemma OutcomesTell(judge: Judge, ruled: map<RulingKey, string>, a: Document, b: Document, pairs: seq<Pair>, t: Tally,
                     c: Comparison)
    requires AllSomeone(pairs) && t == TallyOf(AllOutcomes(judge, ruled, a, b, pairs))
    requires Ordering.IsSorted(DisputeKey, t.disputes, c.disputes) && c.settled == t.settled
    requires c.rows == RowsFor(judge, ruled, pairs, |pairs|) && c.typical == TypicalCount(judge, ruled, pairs, |pairs|)
    ensures Tells(judge, ruled, a, b, pairs, c)
  {
    TallyHas(AllOutcomes(judge, ruled, a, b, pairs));
    SortedDisputes(t.disputes, c.disputes);
    forall d: Dispute ensures d in c.disputes <==> ComesTo(judge, ruled, a, b, pairs, d, None) {
      AllCome(judge, ruled, a, b, pairs, d, None);
    }
    forall d: Dispute, r: string ensures (d, r) in c.settled <==> ComesTo(judge, ruled, a, b, pairs, d, Some(r)) {
      AllCome(judge, ruled, a, b, pairs, d, Some(r));
    }
    var from := RowsForKeep(judge, ruled, pairs, (pair: Pair) => CanKeep(judge, ruled, pair),
                            (pair: Pair, kept: Row) => KeepsRow(judge, ruled, pair, kept));
    assert KeepsRows(judge, ruled, pairs, c.rows, from);
    var typical := TypicalSet(judge, ruled, pairs);
    TypicalsAre(judge, ruled, pairs, typical);
  }

  /** Every field of either reading is accounted for: agreed, disputed, settled, or in a row that
      is typical only. */
  method Compare(judge: Judge, a: Reading, b: Reading, ruled: map<RulingKey, string>)
    returns (c: Comparison, ghost aRows: seq<Row>, ghost bRows: seq<Row>, ghost pairs: seq<Pair>)
    ensures exists at :: Keeps(judge.rules, a.rows, |a.rows|, aRows, at)
    ensures exists at :: Keeps(judge.rules, b.rows, |b.rows|, bRows, at)
    ensures ServedInOrder(judge.rules, aRows, bRows, pairs) && Paired(judge.rules, aRows, bRows, pairs)
            && AllSomeone(pairs)
    ensures var t := TallyOf(DocumentOutcomes(judge, ruled, a.document, b.document)
                             + Outcomes(judge, ruled, pairs, |pairs|));
      Ordering.IsSorted(DisputeKey, t.disputes, c.disputes) && c.settled == t.settled && c.agreed == t.agreed
    ensures c.rows == RowsFor(judge, ruled, pairs, |pairs|) && c.typical == TypicalCount(judge, ruled, pairs, |pairs|)
    ensures Tells(judge, ruled, a.document, b.document, pairs, c)
    ensures c.compared == 2 + 5 * |pairs|
    ensures c.compared == c.agreed + |c.disputes| + |c.settled| + 5 * c.typical
  {
    var keptA, atA := Restated(judge.rules, a.rows);
    var keptB, atB := Restated(judge.rules, b.rows);
    var found := PairRows(judge.rules, keptA, keptB);
    aRows, bRows, pairs := keptA, keptB, found;
    PairsAreSomeone(judge.rules, keptA, keptB, found);
    var documents := DocumentOutcomes(judge, ruled, a.document, b.document);
    var t := Count(Tally([], [], 0), documents, []);
    assert [] + documents == documents;
    var now, rows, compared, typical := CompareRows(judge, ruled, found, t, documents);
    var disputes := Ordering.Sort(DisputeKey, now.disputes);
    Ordering.SortedLength(DisputeKey, now.disputes, disputes);
    c := Comparison(disputes, now.settled, now.agreed, |DOCUMENT_FIELDS| + compared, rows, typical);
    TallyAccounts(documents + Outcomes(judge, ruled, found, |found|));
    OutcomesLength(judge, ruled, found, |found|);
    OutcomesTell(judge, ruled, a.document, b.document, found, now, c);
  }
}
