/**
 CSV export (public/utils.js, csvCell and csvDocument), and a reader for the grammar of
 section 2 of RFC 4180 to read it back with.
 */
module Csv {
  import opened JsText
  import opened Options
  import opened Splitting

  const LINE_BREAK := "\r\n"

  // ── The printer ───────────────────────────────────────────────────────────

  predicate IsFormulaSign(c: char) { c == '=' || c == '+' || c == '-' || c == '@' }

  /** After any leading whitespace comes a character that makes a spreadsheet read a formula. */
  predicate ReadsAsFormula(s: string) {
    s != "" && (IsFormulaSign(s[0]) || (IsSpace(s[0]) && ReadsAsFormula(s[1..])))
  }

  function Guarded(s: string): string {
    if s != "" && (s[0] == '\t' || s[0] == '\r' || ReadsAsFormula(s)) then "'" + s else s
  }

  function Doubled(s: string): string {
    if s == "" then "" else (if s[0] == '"' then "\"\"" else [s[0]]) + Doubled(s[1..])
  }

  /** The text of a cell; an absent value is the empty text. */
  function CellText(value: Option<string>): string {
    match value
    case None => ""
    case Some(s) => s
  }

  function CsvCell(value: Option<string>): string {
    "\"" + Doubled(Guarded(CellText(value))) + "\""
  }

  function CsvRow(row: seq<Option<string>>): string {
    Join(seq(|row|, i requires 0 <= i < |row| => CsvCell(row[i])), ",")
  }

  function Lines(all: seq<seq<Option<string>>>): string {
    Join(seq(|all|, i requires 0 <= i < |all| => CsvRow(all[i])), LINE_BREAK)
  }

  function CsvDocument(header: seq<Option<string>>, rows: seq<seq<Option<string>>>): string {
    Lines([header] + rows)
  }

  // ── The reader ────────────────────────────────────────────────────────────

  datatype Mode = FieldStart | Plain | Quoted | QuoteSeen

  /**
   Reads the rest `s` of a file: `rows` are complete, `row` are the complete fields of the current
   record, `field` is the current field so far.  None means the text is outside the grammar.
   */
  function ReadFrom(s: string, mode: Mode, field: string, row: seq<string>, rows: seq<seq<string>>)
    : Option<seq<seq<string>>>
    decreases |s|
  {
    if s == "" then
      if mode == Quoted then None
      else if mode == FieldStart && row == [] && rows != [] then Some(rows)  // the optional final line break
      else Some(rows + [row + [field]])
    else if mode == Quoted then
      if s[0] == '"' then ReadFrom(s[1..], QuoteSeen, field, row, rows)
      else ReadFrom(s[1..], Quoted, field + [s[0]], row, rows)
    else if s[0] == ',' then ReadFrom(s[1..], FieldStart, "", row + [field], rows)
    else if |s| >= 2 && s[0] == '\r' && s[1] == '\n' then
      ReadFrom(s[2..], FieldStart, "", [], rows + [row + [field]])
    else if mode == QuoteSeen then
      if s[0] == '"' then ReadFrom(s[1..], Quoted, field + ['"'], row, rows) else None
    else if s[0] == '"' then
      if mode == FieldStart then ReadFrom(s[1..], Quoted, "", row, rows) else None
    else if s[0] == '\r' || s[0] == '\n' then None
    else ReadFrom(s[1..], Plain, field + [s[0]], row, rows)
  }

  function Read(s: string): Option<seq<seq<string>>> {
    ReadFrom(s, FieldStart, "", [], [])
  }

  // ── Reading back what was printed ─────────────────────────────────────────

  /** The cells the reader is expected to see. */
  function GuardedRow(row: seq<Option<string>>): (r: seq<string>)
    ensures |r| == |row|
  {
    seq(|row|, i requires 0 <= i < |row| => Guarded(CellText(row[i])))
  }

  function GuardedRows(rows: seq<seq<Option<string>>>): (r: seq<seq<string>>)
    ensures |r| == |rows|
  {
    seq(|rows|, i requires 0 <= i < |rows| => GuardedRow(rows[i]))
  }

  lemma {:induction false} ReadQuotedText(t: string, rest: string, field: string, row: seq<string>, rows: seq<seq<string>>)
    ensures ReadFrom(Doubled(t) + "\"" + rest, Quoted, field, row, rows) ==
            ReadFrom(rest, QuoteSeen, field + t, row, rows)
    decreases |t|
  {
    var s := Doubled(t) + "\"" + rest;
    if t == "" {
      assert s[1..] == rest;
      assert field + t == field;
    } else {
      var tail := Doubled(t[1..]) + "\"" + rest;
      assert field + t == field + [t[0]] + t[1..];
      ReadQuotedText(t[1..], rest, field + [t[0]], row, rows);
      if t[0] == '"' {
        assert s[1..] == "\"" + tail;
        assert s[1..][1..] == tail;
      } else {
        assert s == [t[0]] + tail;
        assert s[1..] == tail;
      }
    }
  }

  lemma ReadCell(value: Option<string>, rest: string, row: seq<string>, rows: seq<seq<string>>)
    ensures ReadFrom(CsvCell(value) + rest, FieldStart, "", row, rows) ==
            ReadFrom(rest, QuoteSeen, Guarded(CellText(value)), row, rows)
  {
    var t := Guarded(CellText(value));
    var s := CsvCell(value) + rest;
    assert s[1..] == Doubled(t) + "\"" + rest;
    ReadQuotedText(t, rest, "", row, rows);
    assert "" + t == t;
  }

  lemma RowUnfolds(cells: seq<Option<string>>)
    requires cells != []
    ensures |cells| == 1 ==> CsvRow(cells) == CsvCell(cells[0])
    ensures |cells| > 1 ==> CsvRow(cells) == CsvCell(cells[0]) + "," + CsvRow(cells[1..])
    ensures |cells| > 1 ==> GuardedRow(cells) == [Guarded(CellText(cells[0]))] + GuardedRow(cells[1..])
  {
    hide CsvCell, Guarded;
    var printed := seq(|cells|, i requires 0 <= i < |cells| => CsvCell(cells[i]));
    var tail := cells[1..];
    assert printed[1..] == seq(|tail|, i requires 0 <= i < |tail| => CsvCell(tail[i]));
  }

  lemma ReadComma(rest: string, field: string, row: seq<string>, rows: seq<seq<string>>)
    ensures ReadFrom("," + rest, QuoteSeen, field, row, rows) == ReadFrom(rest, FieldStart, "", row + [field], rows)
  {
    assert ("," + rest)[1..] == rest;
  }

  lemma ReadLineBreak(rest: string, field: string, row: seq<string>, rows: seq<seq<string>>)
    ensures ReadFrom(LINE_BREAK + rest, QuoteSeen, field, row, rows) ==
            ReadFrom(rest, FieldStart, "", [], rows + [row + [field]])
  {
    assert (LINE_BREAK + rest)[2..] == rest;
  }

  /** Reading a printed row: what is left is read after the closing quote of its last cell. */
  lemma {:induction false} ReadRow(cells: seq<Option<string>>, rest: string, row: seq<string>, rows: seq<seq<string>>)
    requires cells != []
    ensures var texts := GuardedRow(cells);
            ReadFrom(CsvRow(cells) + rest, FieldStart, "", row, rows) ==
            ReadFrom(rest, QuoteSeen, texts[|texts| - 1], row + texts[..|texts| - 1], rows)
    decreases |cells|
  {
    hide ReadFrom, CsvRow, CsvCell, Guarded;
    var texts := GuardedRow(cells);
    RowUnfolds(cells);
    if |cells| == 1 {
      ReadCell(cells[0], rest, row, rows);
      assert row + texts[..0] == row;
    } else {
      var tail := cells[1..];
      var more := CsvRow(tail) + rest;
      assert CsvRow(cells) + rest == CsvCell(cells[0]) + ("," + more);
      ReadCell(cells[0], "," + more, row, rows);
      ReadComma(more, texts[0], row, rows);
      ReadRow(tail, rest, row + [texts[0]], rows);
      assert GuardedRow(tail) == texts[1..];
      assert row + [texts[0]] + texts[1..][..|tail| - 1] == row + texts[..|texts| - 1];
    }
  }

  lemma LinesUnfold(all: seq<seq<Option<string>>>)
    requires all != []
    ensures |all| == 1 ==> Lines(all) == CsvRow(all[0])
    ensures |all| > 1 ==> Lines(all) == CsvRow(all[0]) + LINE_BREAK + Lines(all[1..])
    ensures GuardedRows(all) == [GuardedRow(all[0])] + GuardedRows(all[1..])
  {
    hide CsvRow, GuardedRow;
    var printed := seq(|all|, i requires 0 <= i < |all| => CsvRow(all[i]));
    var tail := all[1..];
    assert printed[1..] == seq(|tail|, i requires 0 <= i < |tail| => CsvRow(tail[i]));
  }

  lemma ReadEnd(field: string, row: seq<string>, rows: seq<seq<string>>)
    ensures ReadFrom("", QuoteSeen, field, row, rows) == Some(rows + [row + [field]])
  {
  }

  lemma {:induction false} ReadLines(all: seq<seq<Option<string>>>, rows: seq<seq<string>>)
    requires all != []
    requires forall i :: 0 <= i < |all| ==> all[i] != []
    ensures ReadFrom(Lines(all), FieldStart, "", [], rows) == Some(rows + GuardedRows(all))
    decreases |all|
  {
    hide ReadFrom, CsvRow, GuardedRow, Lines;
    LinesUnfold(all);
    var texts := GuardedRow(all[0]);
    assert texts != [];
    assert [] + texts[..|texts| - 1] + [texts[|texts| - 1]] == texts;
    assert [] + texts[..|texts| - 1] == texts[..|texts| - 1];
    if |all| == 1 {
      ReadRow(all[0], "", [], rows);
      assert CsvRow(all[0]) + "" == CsvRow(all[0]);
      ReadEnd(texts[|texts| - 1], texts[..|texts| - 1], rows);
      assert GuardedRows(all) == [texts];
    } else {
      var more := Lines(all[1..]);
      ReadRow(all[0], LINE_BREAK + more, [], rows);
      assert CsvRow(all[0]) + LINE_BREAK + more == CsvRow(all[0]) + (LINE_BREAK + more);
      ReadLineBreak(more, texts[|texts| - 1], texts[..|texts| - 1], rows);
      ReadLines(all[1..], rows + [texts]);
      assert rows + [texts] + GuardedRows(all[1..]) == rows + GuardedRows(all);
    }
  }

  ghost predicate HaveFields(rows: seq<seq<string>>) {
    forall i :: 0 <= i < |rows| ==> rows[i] != []
  }

  lemma OneMoreRecord(rows: seq<seq<string>>, row: seq<string>, field: string)
    ensures HaveFields(rows) ==> HaveFields(rows + [row + [field]])
  {
  }

  /** The grammar has no record without a field. */
  lemma {:induction false} RecordsHaveFields(s: string, mode: Mode, field: string, row: seq<string>, rows: seq<seq<string>>)
    requires HaveFields(rows)
    ensures var r := ReadFrom(s, mode, field, row, rows); r.Some? ==> HaveFields(r.value)
    decreases |s|
  {
    OneMoreRecord(rows, row, field);
    hide HaveFields;
    if s != "" {
      var tail := s[1..];
      RecordsHaveFields(tail, QuoteSeen, field, row, rows);
      RecordsHaveFields(tail, Quoted, field + [s[0]], row, rows);
      RecordsHaveFields(tail, Quoted, field + ['"'], row, rows);
      RecordsHaveFields(tail, Quoted, "", row, rows);
      RecordsHaveFields(tail, Plain, field + [s[0]], row, rows);
      RecordsHaveFields(tail, FieldStart, "", row + [field], rows);
      if |s| >= 2 {
        RecordsHaveFields(s[2..], FieldStart, "", [], rows + [row + [field]]);
      }
    }
  }

  /**
   Main result: a document reads back as exactly its guarded cells if and only if every row,
   the header included, has at least one cell.
   */
  lemma DocumentReadsBack(header: seq<Option<string>>, rows: seq<seq<Option<string>>>)
    ensures (header != [] && forall i :: 0 <= i < |rows| ==> rows[i] != []) <==>
            Read(CsvDocument(header, rows)) == Some([GuardedRow(header)] + GuardedRows(rows))
  {
    hide ReadFrom, GuardedRow;
    var all := [header] + rows;
    assert GuardedRows(all) == [GuardedRow(header)] + GuardedRows(rows);
    if forall i :: 0 <= i < |all| ==> all[i] != [] {
      ReadLines(all, []);
      assert [] + GuardedRows(all) == GuardedRows(all);
      assert forall i :: 0 <= i < |rows| ==> rows[i] == all[i + 1];
    } else {
      var i :| 0 <= i < |all| && all[i] == [];
      RecordsHaveFields(Lines(all), FieldStart, "", [], []);
      assert GuardedRows(all)[i] == [];
    }
  }

  /** No cell read back is a formula, or starts with a tab or carriage return. */
  lemma GuardedIsHarmless(s: string)
    ensures !ReadsAsFormula(Guarded(s))
    ensures Guarded(s) != "" ==> Guarded(s)[0] != '\t' && Guarded(s)[0] != '\r'
    ensures Guarded(s) == s || Guarded(s) == "'" + s
    ensures Guarded(s) != s <==> s != "" && (s[0] == '\t' || s[0] == '\r' || ReadsAsFormula(s))
  {
  }
}
