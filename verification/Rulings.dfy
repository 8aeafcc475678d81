/** `rulings` of demo/extract.py: a person's rulings, read from the file of disputes. */
module Rulings {
  import opened Wrappers
  import opened Rows
  import opened Disputes
  import opened Comparing

  /** A row of the file of disputes, which has no parameter column, with what a person wrote beside it. */
  datatype FileRow = FileRow(symbol: string, condition: string, field: AnyField, ruling: string)

  /** How a file's cells are turned into keys: text without what is no letter or digit, and a condition's key. */
  datatype Squash = Squash(text: string -> string, condition: string -> string)

  datatype FileError = NoParameter(row: FileRow)

  const EMPTY: string := "(empty)"

  /** A ruled row whose symbol has no letter or digit: its key needs the parameter. */
  predicate Unkeyed(squash: Squash, row: FileRow) {
    row.ruling != "" && squash.text(row.symbol) == ""
  }

  function FileKey(squash: Squash, row: FileRow): RulingKey {
    (squash.text(row.symbol), squash.condition(row.condition), row.field)
  }

  predicate RulesOn(squash: Squash, row: FileRow, key: RulingKey) {
    row.ruling != "" && FileKey(squash, row) == key
  }

  function Written(ruling: string): string {
    if ruling == EMPTY then "" else ruling
  }

  /** The row is the last of the first n that rules on this key. */
  ghost predicate LastOn(squash: Squash, rows: seq<FileRow>, n: nat, key: RulingKey, i: nat)
    requires n <= |rows|
  {
    i < n && RulesOn(squash, rows[i], key) && forall j :: i < j < n ==> !RulesOn(squash, rows[j], key)
  }

  /** A key's ruling is the last one on it. */
  ghost predicate RuledLast(squash: Squash, rows: seq<FileRow>, n: nat, key: RulingKey, ruling: string)
    requires n <= |rows|
  {
    exists i: nat :: LastOn(squash, rows, n, key, i) && ruling == Written(rows[i].ruling)
  }

  /** Each key's last ruling, and no other. */
  ghost predicate AreRulings(squash: Squash, rows: seq<FileRow>, n: nat, ruled: map<RulingKey, string>)
    requires n <= |rows|
  {
    && (forall i :: 0 <= i < n && rows[i].ruling != "" ==> FileKey(squash, rows[i]) in ruled)
    && forall key :: key in ruled ==> RuledLast(squash, rows, n, key, ruled[key])
  }

  lemma OtherKeyStill(squash: Squash, rows: seq<FileRow>, n: nat, key: RulingKey, ruling: string)
    requires n < |rows| && RuledLast(squash, rows, n, key, ruling) && !RulesOn(squash, rows[n], key)
    ensures RuledLast(squash, rows, n + 1, key, ruling)
  {
    var i: nat :| LastOn(squash, rows, n, key, i) && ruling == Written(rows[i].ruling);
    assert LastOn(squash, rows, n + 1, key, i);
  }

  lemma NoRuling(squash: Squash, rows: seq<FileRow>, n: nat, ruled: map<RulingKey, string>)
    requires n < |rows| && AreRulings(squash, rows, n, ruled) && rows[n].ruling == ""
    ensures AreRulings(squash, rows, n + 1, ruled)
  {
    forall key | key in ruled ensures RuledLast(squash, rows, n + 1, key, ruled[key]) {
      OtherKeyStill(squash, rows, n, key, ruled[key]);
    }
  }

  lemma OneMoreRuling(squash: Squash, rows: seq<FileRow>, n: nat, ruled: map<RulingKey, string>)
    requires n < |rows| && AreRulings(squash, rows, n, ruled) && rows[n].ruling != ""
    ensures AreRulings(squash, rows, n + 1, ruled[FileKey(squash, rows[n]) := Written(rows[n].ruling)])
  {
    var its := FileKey(squash, rows[n]);
    var more := ruled[its := Written(rows[n].ruling)];
    assert LastOn(squash, rows, n + 1, its, n);
    forall key | key in more ensures RuledLast(squash, rows, n + 1, key, more[key]) {
      if key != its { OtherKeyStill(squash, rows, n, key, ruled[key]); }
    }
  }

  /** The whole file is lost exactly when one ruled row's symbol has no letter or digit; else it
      holds each key's last ruling. */
  method ReadRulings(squash: Squash, rows: seq<FileRow>) returns (r: Result<map<RulingKey, string>, FileError>)
    ensures r.Failure? <==> exists row :: row in rows && row.ruling != "" && squash.text(row.symbol) == ""
    ensures r.Failure? ==> r.error.row in rows && Unkeyed(squash, r.error.row)
    ensures r.Success? ==> AreRulings(squash, rows, |rows|, r.value)
  {
    var ruled: map<RulingKey, string> := map[];
    for n := 0 to |rows|
      invariant AreRulings(squash, rows, n, ruled)
      invariant forall i :: 0 <= i < n ==> !Unkeyed(squash, rows[i])
    {
      if rows[n].ruling == "" {
        NoRuling(squash, rows, n, ruled);
      } else {
        if squash.text(rows[n].symbol) == "" {
          assert rows[n] in rows && Unkeyed(squash, rows[n]);
          return Failure(NoParameter(rows[n]));
        }
        OneMoreRuling(squash, rows, n, ruled);
        ruled := ruled[FileKey(squash, rows[n]) := Written(rows[n].ruling)];
      }
    }
    return Success(ruled);
  }

  /** A symbol's key, or the parameter's where it has none. */
  function SymbolKey(squash: Squash, row: Row): string {
    if squash.text(row.symbol) != "" then squash.text(row.symbol) else squash.text(row.parameter)
  }

  /** The keys of compared rows are made from the same squashed text. */
  ghost predicate SameKeys(judge: Judge, squash: Squash) {
    && squash.text("") == ""
    && (forall row :: judge.rules.symbolKey(row) == SymbolKey(squash, row))
    && forall row :: judge.rules.conditionKey(row) == squash.condition(row.condition)
  }

  /** A letter or digit in the symbol, or in the parameter if there is no symbol at all. */
  predicate CanBeRuled(squash: Squash, row: Row) {
    squash.text(row.symbol) != "" || (row.symbol == "" && squash.text(row.parameter) != "")
  }

  /** What a person wrote beside a dispute in the file. */
  function Beside(dispute: Dispute, ruling: string): FileRow {
    FileRow(dispute.symbol, dispute.condition, dispute.field, ruling)
  }

  /** A ruling beside a disputed field gets that field's key, exactly when it does not cost the
      whole file. */
  lemma RulingFindsField(judge: Judge, squash: Squash, pair: Pair, field: Field, ruling: string)
    requires Someone(pair) && SameKeys(judge, squash) && ruling != ""
    ensures var row := Beside(RowDispute(judge, pair, field), ruling);
      && (Unkeyed(squash, row) <==> !CanBeRuled(squash, Either(pair)))
      && (CanBeRuled(squash, Either(pair)) ==> FileKey(squash, row) == RowKey(judge, Either(pair), field))
  {
  }

  /** With a readable file the field beside which a person wrote is open no more: it is agreed, or
      settled as the last row of that key says. */
  lemma RulingSettles(judge: Judge, squash: Squash, rows: seq<FileRow>, ruled: map<RulingKey, string>, pair: Pair,
                      field: Field, ruling: string, i: nat)
    requires Someone(pair) && SameKeys(judge, squash) && ruling != ""
    requires AreRulings(squash, rows, |rows|, ruled) && forall row :: row in rows ==> !Unkeyed(squash, row)
    requires i < |rows| && rows[i] == Beside(RowDispute(judge, pair, field), ruling)
    ensures CanBeRuled(squash, Either(pair)) && !FieldOutcome(judge, ruled, pair, field).Open?
    ensures var outcome := FieldOutcome(judge, ruled, pair, field);
      outcome.Settled? && LastOn(squash, rows, |rows|, RowKey(judge, Either(pair), field), i) ==>
        outcome.ruling == if ruling == "(empty)" then "" else ruling
  {
    assert rows[i] in rows;
    RulingFindsField(judge, squash, pair, field, ruling);
    var key := RowKey(judge, Either(pair), field);
    assert FileKey(squash, rows[i]) == key && key in ruled;
    LastRules(squash, rows, ruled, key, i);
  }

  lemma LastRules(squash: Squash, rows: seq<FileRow>, ruled: map<RulingKey, string>, key: RulingKey, i: nat)
    requires AreRulings(squash, rows, |rows|, ruled) && key in ruled
    ensures LastOn(squash, rows, |rows|, key, i) ==> ruled[key] == Written(rows[i].ruling)
  {
    var j: nat :| LastOn(squash, rows, |rows|, key, j) && ruled[key] == Written(rows[j].ruling);
    assert LastOn(squash, rows, |rows|, key, i) ==> i == j;
  }
}
