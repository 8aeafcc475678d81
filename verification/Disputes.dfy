/** What `compare` of demo/extract.py returns of two readings, and what that means row by row and field by
    field: what is disputed, settled, agreed or kept as typical only. */
module Disputes {
  import opened Wrappers
  import opened Rows
  import opened Listing

  datatype DocumentField = Revision | Date

  datatype Document = Document(revision: string, date: string)

  datatype Reading = Reading(document: Document, rows: seq<Row>)

  datatype AnyField = OfDocument(document: DocumentField) | OfRow(row: Field)

  type RulingKey = (string, string, AnyField)

  /** How cells are judged: besides the rules for rows, the document fields', whether a cell is a
      bound in a unit, a cell's page, and text without its outer blanks. */
  datatype Judge = Judge(rules: Rules, sameDocument: (DocumentField, Document, Document) -> bool,
                         bounds: (string, string) -> bool, page: string -> nat, strip: string -> string)

  datatype Dispute = Dispute(symbol: string, condition: string, field: AnyField, a: string, b: string, pages: seq<nat>)

  const ABSENT: string := "(no row)"
  const ONE_READER: string := "(one reader, typical only)"

  datatype Comparison =
    Comparison(disputes: seq<Dispute>, settled: seq<(Dispute, string)>, agreed: nat, compared: nat, rows: seq<Row>,
               typical: nat)

  function Cell(row: Row, field: Field): string {
    match field
    case Low => row.low
    case Typical => row.typical
    case High => row.high
    case Page => row.page
    case Place => row.place
  }

  // a pair of rows

  /** The row by which the pair is known: the first reading's if it has one. */
  ghost predicate KnownBy(pair: Pair, row: Row) {
    if pair.a.Some? then row == pair.a.value else pair.b == Some(row)
  }

  /** Both readings have the row and the same in this field. */
  predicate BothSame(judge: Judge, pair: Pair, field: Field) {
    pair.a.Some? && pair.b.Some? && judge.rules.same(field, pair.a.value, pair.b.value)
  }

  /** A person's ruling on the row's field. */
  function RulingOn(judge: Judge, ruled: map<RulingKey, string>, row: Row, field: Field): Option<string> {
    var key := (judge.rules.symbolKey(row), judge.rules.conditionKey(row), OfRow(field));
    if key in ruled then Some(ruled[key]) else None
  }

  /** A row that one reader alone wrote, with no bound in its min or max, and nothing in it ruled. */
  ghost predicate IsTypical(judge: Judge, ruled: map<RulingKey, string>, pair: Pair, row: Row) {
    && KnownBy(pair, row) && (pair.a == None || pair.b == None)
    && !judge.bounds(row.low, row.unit) && !judge.bounds(row.high, row.unit)
    && forall field: Field :: RulingOn(judge, ruled, row, field) == None
  }

  /** What a reading says, or that it has no such row. */
  ghost predicate Says(row: Option<Row>, field: Field, text: string) {
    match row
    case None => text == ABSENT
    case Some(r) =>
      && (field.Low? ==> text == r.low) && (field.Typical? ==> text == r.typical) && (field.High? ==> text == r.high)
      && (field.Page? ==> text == r.page) && (field.Place? ==> text == r.place)
  }

  /** Each page of a row of the pair, once and in order. */
  ghost predicate ArePages(judge: Judge, pair: Pair, pages: seq<nat>) {
    && (forall i, j :: 0 <= i < j < |pages| ==> pages[i] < pages[j])
    && forall page: nat :: page in pages <==>
         || (pair.a.Some? && page == judge.page(pair.a.value.page))
         || (pair.b.Some? && page == judge.page(pair.b.value.page))
  }

  /** The dispute shows the row's symbol, or its parameter if there is none, its condition, the field, and
      what the first and the second reading say. */
  ghost predicate ShowsField(judge: Judge, pair: Pair, row: Row, field: Field, d: Dispute) {
    && d.symbol == (if row.symbol == "" then row.parameter else row.symbol) && d.condition == row.condition
    && d.field == OfRow(field) && Says(pair.a, field, d.a) && Says(pair.b, field, d.b) && ArePages(judge, pair, d.pages)
  }

  /** The field is neither agreed nor of a row that is typical only, and its ruling is this. */
  ghost predicate IsAtStake(judge: Judge, ruled: map<RulingKey, string>, pair: Pair, row: Row, field: Field,
                            ruling: Option<string>) {
    && KnownBy(pair, row) && !IsTypical(judge, ruled, pair, row) && !BothSame(judge, pair, field)
    && ruling == RulingOn(judge, ruled, row, field)
  }

  // the documents

  ghost predicate DocumentSays(d: Document, field: DocumentField, text: string) {
    (field.Revision? ==> text == d.revision) && (field.Date? ==> text == d.date)
  }

  ghost predicate DisputesDocument(a: Document, b: Document, field: DocumentField, d: Dispute) {
    && d.symbol == "document" && d.condition == "" && d.field == OfDocument(field) && d.pages == [1]
    && DocumentSays(a, field, d.a) && DocumentSays(b, field, d.b)
  }

  ghost predicate DocumentAtStake(judge: Judge, ruled: map<RulingKey, string>, a: Document, b: Document,
                                  field: DocumentField, ruling: Option<string>) {
    var key := ("document", "", OfDocument(field));
    !judge.sameDocument(field, a, b) && ruling == if key in ruled then Some(ruled[key]) else None
  }

  // the rows kept

  /** The row may be kept: it is typical only, or each field is agreed or ruled, and none says that there
      is no such row. */
  ghost predicate MayKeep(judge: Judge, ruled: map<RulingKey, string>, pair: Pair, row: Row) {
    && KnownBy(pair, row)
    && (IsTypical(judge, ruled, pair, row)
        || forall field: Field ::
             if BothSame(judge, pair, field) then !Says(Some(row), field, ABSENT)
             else RulingOn(judge, ruled, row, field).Some? && RulingOn(judge, ruled, row, field) != Some(ABSENT))
  }

  /** The row as it is kept: marked if it is typical only; else with the rulings put in, and with both
      conditions if they are worded differently. */
  ghost predicate KeptAs(judge: Judge, ruled: map<RulingKey, string>, pair: Pair, row: Row, kept: Row) {
    && kept.symbol == row.symbol && kept.parameter == row.parameter && kept.unit == row.unit
    && if IsTypical(judge, ruled, pair, row) then
         && kept == row.(condition := judge.strip(row.condition + " " + ONE_READER))
       else
         && kept.condition == (if pair.a.Some? && pair.b.Some?
                                  && judge.rules.conditionKey(pair.a.value) != judge.rules.conditionKey(pair.b.value)
                               then pair.a.value.condition + " | " + pair.b.value.condition
                               else row.condition)
         && forall field: Field ::
              if BothSame(judge, pair, field) then
                Says(Some(kept), field, Cell(row, field))
              else
                (RulingOn(judge, ruled, row, field).Some?
                 && Says(Some(kept), field, RulingOn(judge, ruled, row, field).value))
  }

  // all of it

  /** A field of pair i comes to this dispute, with its ruling if there is one. */
  ghost predicate RowComesTo(judge: Judge, ruled: map<RulingKey, string>, pairs: seq<Pair>, i: nat, row: Row,
                             field: Field, d: Dispute, ruling: Option<string>) {
    && i < |pairs| && IsAtStake(judge, ruled, pairs[i], row, field, ruling)
    && ShowsField(judge, pairs[i], row, field, d)
  }

  ghost predicate DocumentComesTo(judge: Judge, ruled: map<RulingKey, string>, a: Document, b: Document,
                                  field: DocumentField, d: Dispute, ruling: Option<string>) {
    DocumentAtStake(judge, ruled, a, b, field, ruling) && DisputesDocument(a, b, field, d)
  }

  /** Something comes to this dispute. */
  ghost predicate ComesTo(judge: Judge, ruled: map<RulingKey, string>, a: Document, b: Document, pairs: seq<Pair>,
                          d: Dispute, ruling: Option<string>) {
    || (exists field: DocumentField :: DocumentComesTo(judge, ruled, a, b, field, d, ruling))
    || exists i: nat, row: Row, field: Field :: RowComesTo(judge, ruled, pairs, i, row, field, d, ruling)
  }

  /** Everything that is disputed is in the disputes, and nothing else. */
  ghost predicate DisputesAll(judge: Judge, ruled: map<RulingKey, string>, a: Document, b: Document,
                              pairs: seq<Pair>, disputes: seq<Dispute>) {
    forall d: Dispute :: d in disputes <==> ComesTo(judge, ruled, a, b, pairs, d, None)
  }

  /** Everything that is ruled is in the settled fields with its ruling, and nothing else. */
  ghost predicate SettlesAll(judge: Judge, ruled: map<RulingKey, string>, a: Document, b: Document,
                             pairs: seq<Pair>, settled: seq<(Dispute, string)>) {
    forall d: Dispute, r: string :: (d, r) in settled <==> ComesTo(judge, ruled, a, b, pairs, d, Some(r))
  }

  ghost predicate CanKeep(judge: Judge, ruled: map<RulingKey, string>, pair: Pair) {
    exists row :: MayKeep(judge, ruled, pair, row)
  }

  ghost predicate KeepsRow(judge: Judge, ruled: map<RulingKey, string>, pair: Pair, kept: Row) {
    exists row :: MayKeep(judge, ruled, pair, row) && KeptAs(judge, ruled, pair, row, kept)
  }

  /** The rows kept are those of these pairs, in order: of all pairs whose row may be kept. */
  ghost predicate KeepsRows(judge: Judge, ruled: map<RulingKey, string>, pairs: seq<Pair>, rows: seq<Row>,
                            from: seq<nat>) {
    Picks((pair: Pair) => CanKeep(judge, ruled, pair), (pair: Pair, kept: Row) => KeepsRow(judge, ruled, pair, kept),
          pairs, rows, from)
  }

  /** Which pairs have a row that is typical only. */
  ghost predicate AreTypical(judge: Judge, ruled: map<RulingKey, string>, pairs: seq<Pair>, typical: set<nat>) {
    forall i: nat :: i in typical <==> i < |pairs| && exists row :: IsTypical(judge, ruled, pairs[i], row)
  }

  // the order of the disputes

  /** a comes before b: where they first differ it has the smaller number, or it ends there. */
  ghost predicate NumbersBefore(a: seq<int>, b: seq<int>) {
    (a <= b && a != b) || exists n: nat :: n < |a| && n < |b| && a[n] < b[n] && a[..n] == b[..n]
  }

  ghost predicate TextBefore(a: string, b: string) {
    (a <= b && a != b) || exists n: nat :: n < |a| && n < |b| && a[n] < b[n] && a[..n] == b[..n]
  }

  /** The document's fields come before a row's; of a row's, min, typ, max, page, where. */
  predicate FieldBefore(a: AnyField, b: AnyField) {
    match (a, b)
    case (OfDocument(_), OfDocument(_)) => true
    case (OfDocument(_), OfRow(_)) => true
    case (OfRow(_), OfDocument(_)) => false
    case (OfRow(f), OfRow(g)) =>
      || f.Low? || g.Place? || f == g || (f.Typical? && !g.Low?) || (f.High? && g.Page?)
  }

  /** By pages, then symbol, then condition, then field. */
  ghost predicate DisputeBefore(d: Dispute, e: Dispute) {
    || NumbersBefore(d.pages, e.pages)
    || (d.pages == e.pages
        && (|| TextBefore(d.symbol, e.symbol)
            || (d.symbol == e.symbol
                && (|| TextBefore(d.condition, e.condition)
                    || (d.condition == e.condition && FieldBefore(d.field, e.field))))))
  }

  ghost predicate InDisputeOrder(disputes: seq<Dispute>) {
    forall i, j :: 0 <= i < j < |disputes| ==> DisputeBefore(disputes[i], disputes[j])
  }

  /** What a comparison tells of two documents and their paired rows. */
  ghost predicate Tells(judge: Judge, ruled: map<RulingKey, string>, a: Document, b: Document, pairs: seq<Pair>,
                        c: Comparison) {
    && DisputesAll(judge, ruled, a, b, pairs, c.disputes) && InDisputeOrder(c.disputes)
    && SettlesAll(judge, ruled, a, b, pairs, c.settled)
    && (exists from :: KeepsRows(judge, ruled, pairs, c.rows, from))
    && exists typical :: AreTypical(judge, ruled, pairs, typical) && c.typical == |typical|
  }
}
