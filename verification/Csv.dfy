/**
 * `toCsv` of src/server/http/respond.ts, and a reader of comma-separated values after
 * section 2 of RFC 4180, with CRLF between records.
 */
module Csv {
  import opened Common

  const QUOTE: Unit := 34
  const APOSTROPHE: Unit := 39
  const COMMA: Unit := 44
  const CR: Unit := 13
  const LF: Unit := 10

  /** A cell is nothing for null and undefined, and otherwise the text of its value. */
  type Cell = Option<Text>

  /** What spreadsheet software takes for the start of a formula: = + - @, tab and CR. */
  predicate FormulaStart(u: Unit) {
    u == 61 || u == 43 || u == 45 || u == 64 || u == 9 || u == CR
  }

  /** The marks of the format, and the characters that a formula may start with. */
  lemma Marks(u: Unit)
    ensures QUOTE == '"' as int && APOSTROPHE == '\'' as int && COMMA == ',' as int && CR == '\r' as int
            && LF == '\n' as int
    ensures FormulaStart(u) <==> u < 128 && u as char in "=+-@\t\r"
  {
  }

  function Neutralised(raw: Text): Text {
    if raw != [] && FormulaStart(raw[0]) then [APOSTROPHE] + raw else raw
  }

  function Doubled(s: Text): Text {
    if s == [] then []
    else if s[0] == QUOTE then [QUOTE, QUOTE] + Doubled(s[1..])
    else [s[0]] + Doubled(s[1..])
  }

  function EscapeCell(cell: Cell): Text {
    if cell.None? then [] else [QUOTE] + Doubled(Neutralised(cell.value)) + [QUOTE]
  }

  function Joined(parts: seq<Text>, separator: Text): Text {
    if parts == [] then []
    else if |parts| == 1 then parts[0]
    else parts[0] + separator + Joined(parts[1..], separator)
  }

  function Line(cells: seq<Cell>): Text {
    Joined(Escaped(cells), [COMMA])
  }

  function Escaped(cells: seq<Cell>): seq<Text> {
    seq(|cells|, i requires 0 <= i < |cells| => EscapeCell(cells[i]))
  }

  function Document(lines: seq<seq<Cell>>): Text {
    Joined(seq(|lines|, i requires 0 <= i < |lines| => Line(lines[i])), [CR, LF])
  }

  type Row = map<Text, Text>

  /** A column a row does not have is undefined. */
  function CellOf(row: Row, column: Text): Cell {
    if column in row then Some(row[column]) else None
  }

  function Header(columns: seq<Text>): seq<Cell> {
    seq(|columns|, i requires 0 <= i < |columns| => Some(columns[i]))
  }

  function Body(row: Row, columns: seq<Text>): seq<Cell> {
    seq(|columns|, i requires 0 <= i < |columns| => CellOf(row, columns[i]))
  }

  function Table(rows: seq<Row>, columns: seq<Text>): seq<seq<Cell>> {
    [Header(columns)] + seq(|rows|, i requires 0 <= i < |rows| => Body(rows[i], columns))
  }

  function ToCsv(rows: seq<Row>, columns: seq<Text>): Text {
    Document(Table(rows, columns))
  }

  /** A formula is neutralised, a quote doubled, and a missing cell left empty. */
  lemma CellExamples()
    ensures EscapeCell(Some(Ascii("=1"))) == Ascii("\"'=1\"") && EscapeCell(Some(Ascii("1"))) == Ascii("\"1\"")
    ensures EscapeCell(Some(Ascii("\""))) == Ascii("\"\"\"\"") && EscapeCell(Some([])) == Ascii("\"\"")
            && EscapeCell(None) == []
  {
    assert Ascii("=1") == [61, 49] && Ascii("\"") == [34] && Ascii("1") == [49];
    assert Doubled([49]) == [49] && Doubled([34]) == [34, 34];
    assert Doubled([61, 49]) == [61] + Doubled([49]) && Doubled([39, 61, 49]) == [39] + Doubled([61, 49]) by {
      assert [39, 61, 49][1..] == [61, 49] && [61, 49][1..] == [49];
    }
  }

  /** Cells are separated by commas and lines by CRLF, with none at the end. */
  lemma LineExamples(a: Cell, b: Cell, first: seq<Cell>, second: seq<Cell>)
    ensures Line([a, b]) == EscapeCell(a) + Ascii(",") + EscapeCell(b)
    ensures Document([first, second]) == Line(first) + Ascii("\r\n") + Line(second)
  {
    hide EscapeCell, Line;
    assert Ascii(",") == [44] && Ascii("\r\n") == [13, 10];
    assert Line([a, b]) == EscapeCell(a) + [COMMA] + EscapeCell(b) by { LineOfTwo(a, b); }
    var lines := [first, second];
    var texts := seq(|lines|, i requires 0 <= i < |lines| => Line(lines[i]));
    assert texts == [Line(first), Line(second)];
    TwoJoined(Line(first), Line(second), [CR, LF]);
  }

  lemma LineOfTwo(a: Cell, b: Cell)
    ensures Line([a, b]) == EscapeCell(a) + [COMMA] + EscapeCell(b)
  {
    assert Escaped([a, b]) == [EscapeCell(a), EscapeCell(b)];
    TwoJoined(EscapeCell(a), EscapeCell(b), [COMMA]);
  }

  lemma TwoJoined(a: Text, b: Text, separator: Text)
    ensures Joined([a, b], separator) == a + separator + b
  {
    assert [a, b][1..] == [b];
  }

  // ------------------------------------------------------------------ reading

  /** The inside of a quoted field, through its closing quote. */
  function ReadQuoted(t: Text): (r: Parsed<Text>)
    ensures r.Got? ==> |r.rest| < |t|
  {
    if t == [] then Bad
    else if t[0] == QUOTE then
      if |t| > 1 && t[1] == QUOTE then
        match ReadQuoted(t[2..])
        case Bad => Bad
        case Got(s, rest) => Got([QUOTE] + s, rest)
      else Got([], t[1..])
    else
      match ReadQuoted(t[1..])
      case Bad => Bad
      case Got(s, rest) => Got([t[0]] + s, rest)
  }

  predicate AtBreak(t: Text) {
    t == [] || t[0] == COMMA || (|t| > 1 && t[0] == CR && t[1] == LF)
  }

  /** An unquoted field runs to the next comma, line break or the end, and holds no quote, CR or LF. */
  function ReadBare(t: Text): (r: Parsed<Text>)
    ensures r.Got? ==> |r.rest| <= |t|
  {
    if AtBreak(t) then Got([], t)
    else if t[0] == QUOTE || t[0] == CR || t[0] == LF then Bad
    else
      match ReadBare(t[1..])
      case Bad => Bad
      case Got(s, rest) => Got([t[0]] + s, rest)
  }

  function ReadField(t: Text): (r: Parsed<Text>)
    ensures r.Got? ==> |r.rest| <= |t|
  {
    if t != [] && t[0] == QUOTE then ReadQuoted(t[1..]) else ReadBare(t)
  }

  function ReadRecord(t: Text): (r: Parsed<seq<Text>>)
    ensures r.Got? ==> |r.rest| <= |t|
    decreases |t|
  {
    match ReadField(t)
    case Bad => Bad
    case Got(field, rest) =>
      if rest != [] && rest[0] == COMMA then
        match ReadRecord(rest[1..])
        case Bad => Bad
        case Got(fields, after) => Got([field] + fields, after)
      else Got([field], rest)
  }

  function Read(t: Text): Option<seq<seq<Text>>>
    decreases |t|
  {
    match ReadRecord(t)
    case Bad => None
    case Got(record, rest) =>
      if rest == [] then Some([record])
      else if |rest| > 1 && rest[0] == CR && rest[1] == LF then
        match Read(rest[2..])
        case None => None
        case Some(records) => Some([record] + records)
      else None
  }

  // --------------------------------------------------------------- round trip

  /** What a cell shows. */
  function Shown(cell: Cell): Text {
    if cell.None? then [] else Neutralised(cell.value)
  }

  function ShownAll(cells: seq<Cell>): seq<Text> {
    seq(|cells|, i requires 0 <= i < |cells| => Shown(cells[i]))
  }

  lemma PairUnquoted(tail: Text)
    ensures ReadQuoted([QUOTE, QUOTE] + tail)
            == match ReadQuoted(tail) case Bad => Bad case Got(s, rest) => Got([QUOTE] + s, rest)
  {
    assert ([QUOTE, QUOTE] + tail)[2..] == tail;
  }

  lemma UnitUnquoted(u: Unit, tail: Text)
    requires u != QUOTE
    ensures ReadQuoted([u] + tail) == match ReadQuoted(tail) case Bad => Bad case Got(s, rest) => Got([u] + s, rest)
  {
    assert ([u] + tail)[1..] == tail;
  }

  lemma QuoteEnds(rest: Text)
    requires rest == [] || rest[0] != QUOTE
    ensures ReadQuoted([QUOTE] + rest) == Got([], rest)
  {
    assert ([QUOTE] + rest)[1..] == rest;
  }

  lemma {:induction false} QuotedRoundTrip(s: Text, rest: Text)
    requires rest == [] || rest[0] != QUOTE
    ensures ReadQuoted(Doubled(s) + [QUOTE] + rest) == Got(s, rest)
  {
    hide ReadQuoted;
    if s == [] {
      assert Doubled(s) + [QUOTE] + rest == [QUOTE] + rest;
      QuoteEnds(rest);
    } else {
      QuotedRoundTrip(s[1..], rest);
      var tail := Doubled(s[1..]) + [QUOTE] + rest;
      assert s == [s[0]] + s[1..];
      if s[0] == QUOTE {
        assert Doubled(s) + [QUOTE] + rest == [QUOTE, QUOTE] + tail;
        PairUnquoted(tail);
      } else {
        assert Doubled(s) + [QUOTE] + rest == [s[0]] + tail;
        UnitUnquoted(s[0], tail);
      }
    }
  }

  lemma FieldRoundTrip(cell: Cell, rest: Text)
    requires AtBreak(rest)
    ensures ReadField(EscapeCell(cell) + rest) == Got(Shown(cell), rest)
  {
    hide ReadQuoted, Doubled, Neutralised;
    if cell.Some? {
      var inside := Doubled(Neutralised(cell.value)) + [QUOTE] + rest;
      QuotedRoundTrip(Neutralised(cell.value), rest);
      assert EscapeCell(cell) + rest == [QUOTE] + inside;
      assert ([QUOTE] + inside)[1..] == inside;
    } else {
      assert [] + rest == rest;
    }
  }

  /** Where a record may end: at the end or at a line break. */
  predicate AtLineEnd(t: Text) {
    t == [] || (|t| > 1 && t[0] == CR && t[1] == LF)
  }

  lemma {:induction false} RecordRoundTrip(cells: seq<Cell>, rest: Text)
    requires cells != [] && AtLineEnd(rest)
    ensures ReadRecord(Line(cells) + rest) == Got(ShownAll(cells), rest)
  {
    hide ReadField, EscapeCell, Shown;
    if |cells| == 1 {
      FieldRoundTrip(cells[0], rest);
      assert ShownAll(cells) == [Shown(cells[0])];
    } else {
      var tail := Line(cells[1..]) + rest;
      FieldRoundTrip(cells[0], [COMMA] + tail);
      RecordRoundTrip(cells[1..], rest);
      assert Escaped(cells)[1..] == Escaped(cells[1..]);
      assert Line(cells) + rest == EscapeCell(cells[0]) + ([COMMA] + tail);
      assert ([COMMA] + tail)[1..] == tail;
      assert ShownAll(cells) == [Shown(cells[0])] + ShownAll(cells[1..]);
    }
  }

  function ShownLines(lines: seq<seq<Cell>>): seq<seq<Text>> {
    seq(|lines|, i requires 0 <= i < |lines| => ShownAll(lines[i]))
  }

  lemma {:induction false} DocumentRoundTrip(lines: seq<seq<Cell>>)
    requires lines != [] && forall i :: 0 <= i < |lines| ==> lines[i] != []
    ensures Read(Document(lines)) == Some(ShownLines(lines))
  {
    hide ReadRecord, Line;
    if |lines| == 1 {
      RecordRoundTrip(lines[0], []);
      assert Document(lines) == Line(lines[0]) + [];
      assert ShownLines(lines) == [ShownAll(lines[0])];
    } else {
      var tail := Document(lines[1..]);
      RecordRoundTrip(lines[0], [CR, LF] + tail);
      DocumentRoundTrip(lines[1..]);
      var texts := seq(|lines|, i requires 0 <= i < |lines| => Line(lines[i]));
      assert texts[1..] == seq(|lines| - 1, i requires 0 <= i < |lines| - 1 => Line(lines[1..][i]));
      assert Document(lines) == Line(lines[0]) + ([CR, LF] + tail);
      assert ([CR, LF] + tail)[2..] == tail;
      assert ShownLines(lines) == [ShownAll(lines[0])] + ShownLines(lines[1..]);
    }
  }

  /**
   * Any table with at least one column reads back as its header and one record a row, every
   * record as wide as the columns, whatever quotes, commas and line breaks the cells hold.
   */
  lemma CsvRoundTrip(rows: seq<Row>, columns: seq<Text>)
    requires columns != []
    ensures Read(ToCsv(rows, columns)) == Some(ShownLines(Table(rows, columns)))
    ensures var records := Read(ToCsv(rows, columns)).value;
            && |records| == |rows| + 1
            && (forall r :: 0 <= r < |records| ==> |records[r]| == |columns|)
            && (forall c :: 0 <= c < |columns| ==> records[0][c] == Neutralised(columns[c]))
            && (forall r, c :: 0 <= r < |rows| && 0 <= c < |columns| ==>
                  records[r + 1][c] == if columns[c] in rows[r] then Neutralised(rows[r][columns[c]]) else [])
  {
    DocumentRoundTrip(Table(rows, columns));
  }

  /** Without columns it does not: every line is empty, and an empty line is one empty field. */
  lemma NoColumnsReadsOneField(rows: seq<Row>)
    ensures Read(ToCsv([], [])) == Some([[[]]])
    ensures |Table(rows, [])[0]| == 0
  {
    assert ToCsv([], []) == [];
  }

  lemma ShownIsPlain(cell: Cell)
    ensures Shown(cell) != [] ==> !FormulaStart(Shown(cell)[0])
  {
  }

  /** No field that is read back starts a formula, header fields included. */
  lemma NoFormulas(rows: seq<Row>, columns: seq<Text>, records: seq<seq<Text>>)
    requires columns != [] && Read(ToCsv(rows, columns)) == Some(records)
    ensures forall r, c :: 0 <= r < |records| && 0 <= c < |records[r]| && records[r][c] != [] ==>
              !FormulaStart(records[r][c][0])
  {
    hide Read, ToCsv, Table, Shown, FormulaStart, Neutralised;
    CsvRoundTrip(rows, columns);
    forall r, c | 0 <= r < |records| && 0 <= c < |records[r]|
      ensures records[r][c] != [] ==> !FormulaStart(records[r][c][0])
    {
      assert records[r][c] == Shown(Table(rows, columns)[r][c]);
      ShownIsPlain(Table(rows, columns)[r][c]);
    }
  }

  /**
   * What neutralising costs: two texts show as one exactly when they are equal or one is the
   * other, a formula, behind an apostrophe.
   */
  lemma NeutralisedAlike(a: Text, b: Text)
    ensures Neutralised(a) == Neutralised(b) <==>
              || a == b
              || (a != [] && FormulaStart(a[0]) && b == [APOSTROPHE] + a)
              || (b != [] && FormulaStart(b[0]) && a == [APOSTROPHE] + b)
  {
    assert ([APOSTROPHE] + a)[1..] == a && ([APOSTROPHE] + b)[1..] == b;
  }
}
