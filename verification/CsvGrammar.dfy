/** Which texts are CSV, and what they say. */
module CsvGrammar {
  // A grammar of records and cells, independent of the parser's states; the parser accepts exactly its texts.

  import opened Options
  import opened Csv

  /** An unquoted cell; a quoted one, with text after its closing quote; one whose quote is never closed. */
  datatype Cell = Plain(body: string) | Quoted(body: string, tail: string) | Open(body: string)

  datatype Record = Record(cells: seq<Cell>, end: string)

  /** Records with their line breaks, then the cells of a last row, the one at `current` being the last. */
  datatype Document = Document(records: seq<Record>, cells: seq<Cell>, current: Cell)

  // ---------------------------------------------------------------- text

  predicate IsBreak(c: char) { c == '\n' || c == '\r' }

  function CellText(c: Cell): string {
    match c
    case Plain(b) => b
    case Quoted(b, t) => "\"" + DoubleQuotes(b) + "\"" + t
    case Open(b) => "\"" + DoubleQuotes(b)
  }

  /** Every cell followed by a separator. */
  function CellsText(cells: seq<Cell>, sep: char): string {
    if cells == [] then "" else CellsText(cells[..|cells| - 1], sep) + (CellText(cells[|cells| - 1]) + [sep])
  }

  function RowText(cells: seq<Cell>, sep: char): string
    requires cells != []
  {
    CellsText(cells[..|cells| - 1], sep) + CellText(cells[|cells| - 1])
  }

  /** A record has at least one cell. */
  predicate Filled(records: seq<Record>) {
    forall k :: 0 <= k < |records| ==> records[k].cells != []
  }

  function RecordsText(records: seq<Record>, sep: char): string
    requires Filled(records)
  {
    if records == [] then "" else
    var last := records[|records| - 1];
    RecordsText(records[..|records| - 1], sep) + (RowText(last.cells, sep) + last.end)
  }

  function Text(d: Document, sep: char): string
    requires Filled(d.records)
  {
    RecordsText(d.records, sep) + (CellsText(d.cells, sep) + CellText(d.current))
  }

  // ---------------------------------------------------------------- what is allowed

  /** Text without separators and line breaks. */
  predicate Inner(s: string, sep: char) {
    forall i :: 0 <= i < |s| ==> s[i] != sep && !IsBreak(s[i])
  }

  /** Strict cells have no quote but the two around a quoted one and the doubled ones within; liberal cells may have more
      quotes, but an unquoted cell does not begin with one, and neither does what follows a closing quote. */
  predicate CellFine(c: Cell, sep: char, liberal: bool) {
    match c
    case Plain(b) => Inner(b, sep) && (b != "" ==> b[0] != '"') && ('"' in b ==> liberal)
    case Quoted(_, t) => Inner(t, sep) && (t != "" ==> t[0] != '"' && liberal)
    case Open(_) => true
  }

  predicate RowFine(cells: seq<Cell>, sep: char, liberal: bool) {
    forall k :: 0 <= k < |cells| ==> !cells[k].Open? && CellFine(cells[k], sep, liberal)
  }

  predicate RecordFine(r: Record, sep: char, liberal: bool) {
    r.cells != [] && RowFine(r.cells, sep, liberal) && (r.end == "\n" || r.end == "\r" || r.end == "\r\n")
  }

  /** A lone carriage return is not followed by a line feed. */
  predicate RecordsFine(records: seq<Record>, sep: char, liberal: bool) {
    && (forall k :: 0 <= k < |records| ==> RecordFine(records[k], sep, liberal))
    && (forall k :: 0 < k < |records| && records[k - 1].end == "\r" ==> records[k] != Record([Plain("")], "\n"))
  }

  predicate Fine(d: Document, sep: char, liberal: bool) {
    RecordsFine(d.records, sep, liberal) && RowFine(d.cells, sep, liberal) && CellFine(d.current, sep, liberal)
  }

  // ---------------------------------------------------------------- what it says

  function CellValue(c: Cell): Option<string> {
    match c
    case Plain(b) => if b == "" then None else Some(b)
    case Quoted(b, t) => Some(b + t)
    case Open(b) => Some(b)
  }

  function CellValues(cells: seq<Cell>): Row {
    if cells == [] then [] else CellValues(cells[..|cells| - 1]) + [CellValue(cells[|cells| - 1])]
  }

  /** An empty line is a row without fields. */
  function ReadRow(cells: seq<Cell>): Row {
    if cells == [Plain("")] then [] else CellValues(cells)
  }

  function ReadRecords(records: seq<Record>): seq<Row> {
    if records == [] then [] else ReadRecords(records[..|records| - 1]) + [ReadRow(records[|records| - 1].cells)]
  }

  /** Nothing follows the last line break; or an open quote runs to the end and ends in a line break: then its row is lost. */
  predicate NoLastRow(d: Document) {
    (d.cells == [] && d.current == Plain("")) || (d.current.Open? && d.current.body != "" && IsBreak(d.current.body[|d.current.body| - 1]))
  }

  function Read(d: Document): seq<Row> {
    ReadRecords(d.records) + if NoLastRow(d) then [] else [ReadRow(d.cells + [d.current])]
  }

  // ---------------------------------------------------------------- the parser's state after a text

  function CellState(rows: seq<Row>, row: Row, c: Cell): State {
    match c
    case Plain(b) => State(rows, row, b, false, false, false, b == "")
    case Quoted(b, t) => State(rows, row, b + t, false, t == "", true, t == "")
    case Open(b) => State(rows, row, b, true, false, true, true)
  }

  function StateOf(d: Document): State {
    CellState(ReadRecords(d.records), CellValues(d.cells), d.current)
  }

  /** What may follow a cell without becoming part of it. */
  predicate Follows(c: Cell, rest: string) {
    c.Quoted? && c.tail == "" && rest != "" ==> rest[0] != '"'
  }

  /** Unquoted text is copied into the field. */
  lemma {:induction false} ScanInner(s: State, text: string, rest: string, sep: char, liberal: bool)
    requires !s.inQuotes && !s.afterQuote && Inner(text, sep) && GoodSeparator(sep)
    requires (text != "" && s.atFieldStart ==> text[0] != '"') && ('"' in text ==> liberal)
    ensures Scan(s, text + rest, sep, liberal)
            == Scan(s.(field := s.field + text, atFieldStart := s.atFieldStart && text == ""), rest, sep, liberal)
    decreases |text|
  {
    if text == "" {
      assert text + rest == rest && s.field + text == s.field;
    } else {
      var c, more := text[0], text[1..];
      assert text + rest == [c] + (more + rest) && c in text;
      assert forall x :: x in more ==> x in text;
      ScanStep(s, c, more + rest, sep, liberal);
      assert ([c] + (more + rest))[1..] == more + rest;
      var next := s.(field := s.field + [c], atFieldStart := false);
      hide Scan;
      ScanInner(next, more, rest, sep, liberal);
      assert next.field + more == s.field + text;
    }
  }

  /** Inside an open quote, doubled quotes are undone. */
  lemma {:induction false} ScanOpen(s: State, text: string, rest: string, sep: char, liberal: bool)
    requires s.inQuotes
    ensures Scan(s, DoubleQuotes(text) + rest, sep, liberal) == Scan(s.(field := s.field + text), rest, sep, liberal)
    decreases |text|
  {
    hide Scan;
    if text == "" {
      assert DoubleQuotes(text) + rest == rest && s.field + text == s.field;
    } else {
      hide *;
      OpenChar(text, rest);
      QuotedChar(s, text[0], DoubleQuotes(text[1..]) + rest, sep, liberal);
      var next := s.(field := s.field + [text[0]]);
      ScanOpen(next, text[1..], rest, sep, liberal);
      HeadMoved(s.field, text);
    }
  }

  lemma {:induction false} OpenChar(text: string, rest: string)
    requires text != ""
    ensures DoubleQuotes(text) + rest == (if text[0] == '"' then "\"\"" else [text[0]]) + (DoubleQuotes(text[1..]) + rest)
  {
  }

  /** A cell, from the start of a field. */
  lemma {:induction false} ScanCell(rows: seq<Row>, row: Row, c: Cell, rest: string, sep: char, liberal: bool)
    requires GoodSeparator(sep) && CellFine(c, sep, liberal) && Follows(c, rest)
    ensures Scan(Start(rows, row), CellText(c) + rest, sep, liberal) == Scan(CellState(rows, row, c), rest, sep, liberal)
  {
    match c
    case Plain(b) =>
      ScanInner(Start(rows, row), b, rest, sep, liberal);
      assert "" + b == b;
    case Quoted(b, t) => ScanQuotedCell(rows, row, b, t, rest, sep, liberal);
    case Open(b) =>
      OpenQuote(rows, row, DoubleQuotes(b) + rest, sep, liberal);
      assert CellText(c) + rest == ['"'] + (DoubleQuotes(b) + rest);
      ScanOpen(CellState(rows, row, Open("")), b, rest, sep, liberal);
      assert "" + b == b;
  }

  lemma {:induction false} OpenQuote(rows: seq<Row>, row: Row, rest: string, sep: char, liberal: bool)
    requires GoodSeparator(sep)
    ensures Scan(Start(rows, row), ['"'] + rest, sep, liberal) == Scan(CellState(rows, row, Open("")), rest, sep, liberal)
  {
    ScanStep(Start(rows, row), '"', rest, sep, liberal);
    assert (['"'] + rest)[1..] == rest;
  }

  lemma {:induction false} ScanQuotedCell(rows: seq<Row>, row: Row, b: string, t: string, rest: string, sep: char, liberal: bool)
    requires GoodSeparator(sep) && CellFine(Quoted(b, t), sep, liberal) && Follows(Quoted(b, t), rest)
    ensures Scan(Start(rows, row), CellText(Quoted(b, t)) + rest, sep, liberal)
            == Scan(CellState(rows, row, Quoted(b, t)), rest, sep, liberal)
  {
    var inside := CellState(rows, row, Open(""));
    var closed := CellState(rows, row, Quoted(b, ""));
    QuotedText(b, t, rest);
    assert "" + b == b && b + "" == b;
    hide Scan, DoubleQuotes, CellText;
    OpenQuote(rows, row, DoubleQuotes(b) + "\"" + (t + rest), sep, liberal);
    ScanQuoted(inside, b, t + rest, sep, liberal);
    if t == "" {
      assert t + rest == rest;
    } else {
      ScanTail(closed, t, rest, sep);
    }
  }

  lemma {:induction false} QuotedText(b: string, t: string, rest: string)
    ensures CellText(Quoted(b, t)) + rest == ['"'] + (DoubleQuotes(b) + "\"" + (t + rest))
    ensures t + rest != "" ==> (t + rest)[0] == if t != "" then t[0] else rest[0]
  {
  }

  /** Text after a closing quote, in liberal mode. */
  lemma {:induction false} ScanTail(s: State, t: string, rest: string, sep: char)
    requires !s.inQuotes && s.afterQuote && t != "" && Inner(t, sep) && t[0] != '"' && GoodSeparator(sep)
    ensures Scan(s, t + rest, sep, true)
            == Scan(s.(field := s.field + t, afterQuote := false, atFieldStart := false), rest, sep, true)
  {
    var c, more := t[0], t[1..];
    assert t + rest == [c] + (more + rest);
    ScanStep(s, c, more + rest, sep, true);
    assert ([c] + (more + rest))[1..] == more + rest;
    var next := s.(field := s.field + [c], afterQuote := false, atFieldStart := false);
    ScanInner(next, more, rest, sep, true);
    assert next.field + more == s.field + t;
  }

  /** The value of a finished cell. */
  lemma {:induction false} FieldOfCell(rows: seq<Row>, row: Row, c: Cell)
    ensures FieldOf(CellState(rows, row, c)) == CellValue(c)
  {
  }

  /** Cells, each with its separator. */
  lemma {:induction false} ScanCells(rows: seq<Row>, cells: seq<Cell>, rest: string, sep: char, liberal: bool)
    requires GoodSeparator(sep) && RowFine(cells, sep, liberal)
    ensures Scan(Start(rows, []), CellsText(cells, sep) + rest, sep, liberal) == Scan(Start(rows, CellValues(cells)), rest, sep, liberal)
    decreases |cells|
  {
    if cells == [] {
      assert CellsText(cells, sep) + rest == rest;
    } else {
      var init, last := cells[..|cells| - 1], cells[|cells| - 1];
      var row := CellValues(init);
      assert CellsText(cells, sep) + rest == CellsText(init, sep) + (CellText(last) + ([sep] + rest));
      hide Scan, CellText, CellFine, CellValue;
      ScanCells(rows, init, CellText(last) + ([sep] + rest), sep, liberal);
      ScanCell(rows, row, last, [sep] + rest, sep, liberal);
      ScanSeparator(CellState(rows, row, last), rest, sep, liberal);
      FieldOfCell(rows, row, last);
    }
  }

  /** The row that a line break closes. */
  lemma {:induction false} CloseRow(rows: seq<Row>, cells: seq<Cell>)
    requires cells != []
    ensures AppendRow(CellState(rows, CellValues(cells[..|cells| - 1]), cells[|cells| - 1])) == Start(rows + [ReadRow(cells)], [])
  {
    var init, last := cells[..|cells| - 1], cells[|cells| - 1];
    FieldOfCell(rows, CellValues(init), last);
    assert cells == init + [last];
    ValuesLength(init);
    if init == [] { assert cells == [last]; }
  }

  lemma {:induction false} ValuesLength(cells: seq<Cell>)
    ensures |CellValues(cells)| == |cells|
    decreases |cells|
  {
    if cells != [] { ValuesLength(cells[..|cells| - 1]); }
  }

  /** A line break: one character or two. */
  lemma {:induction false} ScanEndOfLine(s: State, end: string, rest: string, sep: char, liberal: bool)
    requires !s.inQuotes && GoodSeparator(sep) && (end == "\n" || end == "\r" || end == "\r\n")
    requires end == "\r" && rest != "" ==> rest[0] != '\n'
    ensures Scan(s, end + rest, sep, liberal) == Scan(AppendRow(s), rest, sep, liberal)
  {
    if end == "\r\n" {
      var more := ['\n'] + rest;
      assert end + rest == ['\r'] + more;
      ScanStep(s, '\r', more, sep, liberal);
      assert (['\r'] + more)[2..] == rest;
    } else {
      assert end + rest == [end[0]] + rest;
      ScanStep(s, end[0], rest, sep, liberal);
      assert ([end[0]] + rest)[1..] == rest;
    }
  }

  lemma {:induction false} ScanRecord(rows: seq<Row>, r: Record, rest: string, sep: char, liberal: bool)
    requires GoodSeparator(sep) && RecordFine(r, sep, liberal)
    requires r.end == "\r" && rest != "" ==> rest[0] != '\n'
    ensures Scan(Start(rows, []), RowText(r.cells, sep) + r.end + rest, sep, liberal) == Scan(Start(rows + [ReadRow(r.cells)], []), rest, sep, liberal)
  {
    var init, last := r.cells[..|r.cells| - 1], r.cells[|r.cells| - 1];
    RecordParts(r, rest, sep, liberal);
    CloseRow(rows, r.cells);
    hide *;
    ScanCells(rows, init, CellText(last) + (r.end + rest), sep, liberal);
    ScanCell(rows, CellValues(init), last, r.end + rest, sep, liberal);
    ScanEndOfLine(CellState(rows, CellValues(init), last), r.end, rest, sep, liberal);
  }

  lemma {:induction false} RecordParts(r: Record, rest: string, sep: char, liberal: bool)
    requires RecordFine(r, sep, liberal)
    ensures var init, last := r.cells[..|r.cells| - 1], r.cells[|r.cells| - 1];
            && RowText(r.cells, sep) + r.end + rest == CellsText(init, sep) + (CellText(last) + (r.end + rest))
            && RowFine(init, sep, liberal) && CellFine(last, sep, liberal) && Follows(last, r.end + rest)
            && !CellState([], [], last).inQuotes && forall rows, row :: !CellState(rows, row, last).inQuotes
  {
    assert (r.end + rest)[0] != '"';
    RowRegrouped(r.cells, r.end, rest, sep);
    hide CellText, CellsText, CellFine, RowText;
  }

  lemma {:induction false} RowRegrouped(cells: seq<Cell>, end: string, rest: string, sep: char)
    requires cells != []
    ensures RowText(cells, sep) + end + rest
            == CellsText(cells[..|cells| - 1], sep) + (CellText(cells[|cells| - 1]) + (end + rest))
  {
    hide CellText, CellsText;
  }

  lemma {:induction false} RecordsInit(records: seq<Record>, sep: char, liberal: bool)
    requires RecordsFine(records, sep, liberal) && records != []
    ensures RecordsFine(records[..|records| - 1], sep, liberal) && RecordFine(records[|records| - 1], sep, liberal)
  {
  }

  /** The text of a record begins with a line feed only if it is an empty line. */
  lemma {:induction false} RecordBegins(r: Record, rest: string, sep: char, liberal: bool)
    requires RecordFine(r, sep, liberal) && GoodSeparator(sep) && r != Record([Plain("")], "\n")
    ensures var text := RowText(r.cells, sep) + r.end + rest; text != "" && text[0] != '\n'
  {
    RowBegins(r.cells[..|r.cells| - 1], r.cells[|r.cells| - 1], r.end + rest, sep, liberal);
    assert RowText(r.cells, sep) + r.end + rest == RowText(r.cells, sep) + (r.end + rest);
    if |r.cells| == 1 { assert r.cells == [r.cells[0]] && r.cells[..0] == []; }
  }

  lemma {:induction false} RowBegins(cells: seq<Cell>, last: Cell, rest: string, sep: char, liberal: bool)
    requires RowFine(cells, sep, liberal) && CellFine(last, sep, liberal) && GoodSeparator(sep)
    requires (cells == [] && last == Plain("")) && rest != "" ==> rest[0] != '\n'
    ensures var text := CellsText(cells, sep) + CellText(last) + rest; text != "" ==> text[0] != '\n'
    decreases |cells|
  {
    if cells == [] {
      assert CellsText(cells, sep) + CellText(last) + rest == CellText(last) + rest;
    } else {
      var init, c := cells[..|cells| - 1], cells[|cells| - 1];
      var more := [sep] + (CellText(last) + rest);
      assert CellFine(c, sep, liberal) && RowFine(init, sep, liberal) && more[0] != '\n';
      MoreCells(cells, CellText(last), rest, sep);
      hide *;
      RowBegins(init, c, more, sep, liberal);
    }
  }

  lemma {:induction false} MoreCells(cells: seq<Cell>, last: string, rest: string, sep: char)
    requires cells != []
    ensures CellsText(cells, sep) + last + rest
            == CellsText(cells[..|cells| - 1], sep) + CellText(cells[|cells| - 1]) + ([sep] + (last + rest))
  {
    hide CellText;
    var a, b := CellsText(cells[..|cells| - 1], sep), CellText(cells[|cells| - 1]);
    assert CellsText(cells, sep) == a + (b + [sep]);
    Reassociated(a, b, [sep], last, rest);
  }

  lemma {:induction false} Reassociated(a: string, b: string, c: string, d: string, e: string)
    ensures a + (b + c) + d + e == a + b + (c + (d + e))
  {
  }

  /** What may follow the records: after a lone carriage return no line feed. */
  predicate AfterRecords(records: seq<Record>, rest: string) {
    records != [] && records[|records| - 1].end == "\r" && rest != "" ==> rest[0] != '\n'
  }

  lemma {:induction false} ScanRecords(records: seq<Record>, rest: string, sep: char, liberal: bool)
    requires GoodSeparator(sep) && RecordsFine(records, sep, liberal) && AfterRecords(records, rest)
    ensures Scan(Start([], []), RecordsText(records, sep) + rest, sep, liberal) == Scan(Start(ReadRecords(records), []), rest, sep, liberal)
    decreases |records|
  {
    if records == [] {
      assert RecordsText(records, sep) + rest == rest;
    } else {
      var init, last := records[..|records| - 1], records[|records| - 1];
      var more := RowText(last.cells, sep) + last.end + rest;
      RecordsInit(records, sep, liberal);
      if last != Record([Plain("")], "\n") { RecordBegins(last, rest, sep, liberal); }
      assert AfterRecords(init, more);
      assert RecordsText(records, sep) + rest == RecordsText(init, sep) + more;
      hide Scan, RowText, ReadRow, RecordFine;
      ScanRecords(init, more, sep, liberal);
      ScanRecord(ReadRecords(init), last, rest, sep, liberal);
    }
  }

  /** What may follow a document without changing how it is read so far. */
  predicate Continues(d: Document, rest: string) {
    && Follows(d.current, rest)
    && (d.cells == [] && d.current == Plain("") ==> AfterRecords(d.records, rest))
  }

  /** The parser's state after the text of a document. */
  lemma {:induction false} ScanDocument(d: Document, rest: string, sep: char, liberal: bool)
    requires GoodSeparator(sep) && Fine(d, sep, liberal) && Continues(d, rest)
    ensures Scan(Start([], []), Text(d, sep) + rest, sep, liberal) == Scan(StateOf(d), rest, sep, liberal)
  {
    var row := CellText(d.current) + rest;
    DocumentParts(d, rest, sep, liberal);
    hide *;
    ScanRecords(d.records, CellsText(d.cells, sep) + row, sep, liberal);
    ScanCells(ReadRecords(d.records), d.cells, row, sep, liberal);
    ScanCell(ReadRecords(d.records), CellValues(d.cells), d.current, rest, sep, liberal);
    StateParts(d);
  }

  lemma {:induction false} StateParts(d: Document)
    ensures StateOf(d) == CellState(ReadRecords(d.records), CellValues(d.cells), d.current)
  {
  }

  lemma {:induction false} DocumentParts(d: Document, rest: string, sep: char, liberal: bool)
    requires GoodSeparator(sep) && Fine(d, sep, liberal) && Continues(d, rest)
    ensures RecordsFine(d.records, sep, liberal) && RowFine(d.cells, sep, liberal) && CellFine(d.current, sep, liberal) && Follows(d.current, rest)
    ensures var row := CellsText(d.cells, sep) + (CellText(d.current) + rest);
            Text(d, sep) + rest == RecordsText(d.records, sep) + row && AfterRecords(d.records, row)
  {
    Regrouped(RecordsText(d.records, sep), CellsText(d.cells, sep), CellText(d.current), rest);
    if d.cells != [] || d.current != Plain("") {
      RowBegins(d.cells, d.current, rest, sep, liberal);
    } else {
      assert CellsText(d.cells, sep) + (CellText(d.current) + rest) == rest;
    }
    hide CellText, CellsText, RecordsText, CellFine, RowFine;
  }

  lemma {:induction false} Regrouped(records: string, cells: string, cell: string, rest: string)
    ensures records + (cells + cell) + rest == records + (cells + (cell + rest)) && cells + (cell + rest) == cells + cell + rest
  {
  }

  // ---------------------------------------------------------------- every text the parser gets through is a document

  /** What strict mode refuses: a quote inside a field, and anything but a separator or a line break after a closing quote. */
  predicate Fault(d: Document, c: char, sep: char) {
    c != sep && !IsBreak(c) && ((d.current.Plain? && d.current.body != "" && c == '"') || d.current.Quoted?)
  }

  function EndOfLine(c: char, rest: string): string {
    if c == '\r' && rest != "" && rest[0] == '\n' then "\r\n" else [c]
  }

  /** The document one character further, or two. */
  function Grown(d: Document, c: char, rest: string, sep: char): Document {
    match d.current
    case Open(b) =>
      d.(current := if c != '"' then Open(b + [c]) else if rest != "" && rest[0] == '"' then Open(b + ['"']) else Quoted(b, ""))
    case _ =>
      if c == sep then d.(cells := d.cells + [d.current], current := Plain(""))
      else if IsBreak(c) then Document(d.records + [Record(d.cells + [d.current], EndOfLine(c, rest))], [], Plain(""))
      else d.(current := GrownCell(d.current, c))
  }

  function GrownCell(cell: Cell, c: char): Cell
    requires !cell.Open?
  {
    match cell
    case Plain(b) => if c == '"' && b == "" then Open("") else Plain(b + [c])
    case Quoted(b, t) => Quoted(b, t + [c])
  }

  function Taken(d: Document, c: char, rest: string, sep: char): nat {
    if rest != "" && ((d.current.Open? && c == rest[0] == '"') || (!d.current.Open? && c != sep && c == '\r' && rest[0] == '\n')) then 2 else 1
  }

  lemma {:induction false} LastOf<T>(s: seq<T>, x: T)
    ensures (s + [x])[..|s + [x]| - 1] == s && (s + [x])[|s + [x]| - 1] == x
  {
  }

  lemma {:induction false} GrownState(d: Document, c: char, rest: string, sep: char, liberal: bool)
    requires GoodSeparator(sep) && Fine(d, sep, liberal) && Continues(d, [c] + rest) && (Fault(d, c, sep) ==> liberal)
    ensures Step(StateOf(d), c, rest, sep, liberal) == Some(Moved(StateOf(Grown(d, c, rest, sep)), Taken(d, c, rest, sep)))
  {
    var rows, row := ReadRecords(d.records), CellValues(d.cells);
    hide ReadRecords, ReadRow, RowFine, RecordsFine;
    if d.current.Open? {
      assert "\"" == ['"'] && d.current.body + "" == d.current.body;
    } else if c == sep {
      FieldOfCell(rows, row, d.current);
      LastOf(d.cells, d.current);
    } else if IsBreak(c) {
      BreakState(d, c, rest);
    } else {
      InnerState(rows, row, d.current, c, rest, sep, liberal);
    }
  }

  lemma {:induction false} BreakState(d: Document, c: char, rest: string)
    ensures AppendRow(StateOf(d)) == StateOf(Document(d.records + [Record(d.cells + [d.current], EndOfLine(c, rest))], [], Plain("")))
  {
    var rows := ReadRecords(d.records);
    LastOf(d.cells, d.current);
    LastOf(d.records, Record(d.cells + [d.current], EndOfLine(c, rest)));
    CloseRow(rows, d.cells + [d.current]);
    hide ReadRow;
  }

  lemma {:induction false} InnerState(rows: seq<Row>, row: Row, cell: Cell, c: char, rest: string, sep: char, liberal: bool)
    requires !cell.Open? && CellFine(cell, sep, liberal) && c != sep && !IsBreak(c) && Follows(cell, [c] + rest)
    requires (cell.Plain? && cell.body != "" && c == '"') || cell.Quoted? ==> liberal
    ensures Step(CellState(rows, row, cell), c, rest, sep, liberal) == Some(Moved(CellState(rows, row, GrownCell(cell, c)), 1))
  {
    assert ([c] + rest)[0] == c;
    if cell.Quoted? { assert cell.body + (cell.tail + [c]) == (cell.body + cell.tail) + [c]; }
  }

  lemma {:induction false} FaultStops(d: Document, c: char, rest: string, sep: char)
    requires GoodSeparator(sep) && Fine(d, sep, false) && Continues(d, [c] + rest) && Fault(d, c, sep)
    ensures Step(StateOf(d), c, rest, sep, false) == None
  {
    hide ReadRecords, CellValues, RowFine, RecordsFine;
  }

  lemma {:induction false} GrownIsFine(d: Document, c: char, rest: string, sep: char, liberal: bool)
    requires GoodSeparator(sep) && Fine(d, sep, liberal) && Continues(d, [c] + rest) && (Fault(d, c, sep) ==> liberal)
    ensures Fine(Grown(d, c, rest, sep), sep, liberal)
  {
    match d.current
    case Open(_) =>
    case _ =>
      if c == sep {
      } else if IsBreak(c) {
        GrownRecords(d, c, rest, sep, liberal);
      } else {
        GrownCellFine(d.current, c, rest, sep, liberal);
      }
  }

  lemma {:induction false} GrownCellFine(cell: Cell, c: char, rest: string, sep: char, liberal: bool)
    requires !cell.Open? && CellFine(cell, sep, liberal) && c != sep && !IsBreak(c) && Follows(cell, [c] + rest)
    requires (cell.Plain? && cell.body != "" && c == '"') || cell.Quoted? ==> liberal
    ensures CellFine(GrownCell(cell, c), sep, liberal)
  {
    if cell.Quoted? && cell.tail == "" { assert ([c] + rest)[0] == c; }
  }

  lemma {:induction false} OnlyCell(cells: seq<Cell>, c: Cell)
    ensures cells + [c] == [Plain("")] ==> cells == [] && c == Plain("")
  {
    assert (cells + [c])[|cells|] == c;
  }

  lemma {:induction false} GrownRecords(d: Document, c: char, rest: string, sep: char, liberal: bool)
    requires GoodSeparator(sep) && Fine(d, sep, liberal) && Continues(d, [c] + rest) && IsBreak(c) && !d.current.Open?
    ensures RecordsFine(d.records + [Record(d.cells + [d.current], EndOfLine(c, rest))], sep, liberal)
  {
    var r := Record(d.cells + [d.current], EndOfLine(c, rest));
    assert RecordFine(r, sep, liberal);
    hide CellFine, RowFine;
    assert ([c] + rest)[0] == c;
    OnlyCell(d.cells, d.current);
  }

  lemma {:induction false} TakenText(d: Document, c: char, rest: string, sep: char)
    ensures Taken(d, c, rest, sep) <= |[c] + rest|
    ensures ([c] + rest)[..Taken(d, c, rest, sep)] == if Taken(d, c, rest, sep) == 2 then [c, rest[0]] else [c]
    ensures !d.current.Open? && c != sep && IsBreak(c) ==> EndOfLine(c, rest) == ([c] + rest)[..Taken(d, c, rest, sep)]
  {
  }

  lemma {:induction false} GrownText(d: Document, c: char, rest: string, sep: char)
    requires Filled(d.records)
    ensures Taken(d, c, rest, sep) <= |[c] + rest| && Filled(Grown(d, c, rest, sep).records)
    ensures Text(Grown(d, c, rest, sep), sep) == Text(d, sep) + ([c] + rest)[..Taken(d, c, rest, sep)]
  {
    TakenText(d, c, rest, sep);
    if d.current.Open? || (c != sep && !IsBreak(c)) {
      GrownCellText(d, c, rest, sep);
      hide RecordsText, CellsText, CellText, Taken;
      CellAppended(RecordsText(d.records, sep), CellsText(d.cells, sep), CellText(d.current), ([c] + rest)[..Taken(d, c, rest, sep)]);
    } else if c == sep {
      hide RecordsText;
      SeparatorText(d, sep);
    } else {
      hide RecordsText, CellsText, CellText, Taken;
      BreakText(d, EndOfLine(c, rest), sep);
    }
  }

  lemma {:induction false} CellAppended(records: string, cells: string, cell: string, more: string)
    ensures records + (cells + (cell + more)) == records + (cells + cell) + more
  {
  }

  lemma {:induction false} SeparatorText(d: Document, sep: char)
    requires Filled(d.records)
    ensures Text(d.(cells := d.cells + [d.current], current := Plain("")), sep) == Text(d, sep) + [sep]
  {
    LastOf(d.cells, d.current);
    assert CellText(Plain("")) == "";
    hide RecordsText;
    CellAppended(RecordsText(d.records, sep), CellsText(d.cells, sep), CellText(d.current), [sep]);
  }

  lemma {:induction false} BreakText(d: Document, end: string, sep: char)
    requires Filled(d.records)
    ensures var e := Document(d.records + [Record(d.cells + [d.current], end)], [], Plain(""));
            Filled(e.records) && Text(e, sep) == Text(d, sep) + end
  {
    LastOf(d.cells, d.current);
    LastOf(d.records, Record(d.cells + [d.current], end));
    assert CellText(Plain("")) == "" && CellsText([], sep) == "";
  }

  lemma {:induction false} DoubledEnd(b: string, c: char)
    ensures DoubleQuotes(b + [c]) == DoubleQuotes(b) + (if c == '"' then "\"\"" else [c])
    decreases |b|
  {
    if b == "" {
      assert b + [c] == [c] && [c][1..] == "";
    } else {
      assert (b + [c])[1..] == b[1..] + [c];
      DoubledEnd(b[1..], c);
    }
  }

  lemma {:induction false} GrownCellText(d: Document, c: char, rest: string, sep: char)
    requires d.current.Open? || (c != sep && !IsBreak(c))
    ensures Taken(d, c, rest, sep) <= |[c] + rest|
    ensures var e := Grown(d, c, rest, sep);
            e.records == d.records && e.cells == d.cells
            && CellText(e.current) == CellText(d.current) + ([c] + rest)[..Taken(d, c, rest, sep)]
  {
    var taken := ([c] + rest)[..Taken(d, c, rest, sep)];
    assert taken == if Taken(d, c, rest, sep) == 2 then [c, rest[0]] else [c];
    match d.current
    case Open(b) => DoubledEnd(b, c);
    case Plain(b) =>
    case Quoted(b, t) => assert DoubleQuotes(b) + "\"" + (t + [c]) == DoubleQuotes(b) + "\"" + t + [c];
  }

  lemma {:induction false} GrownContinues(d: Document, c: char, rest: string, sep: char)
    requires Taken(d, c, rest, sep) <= |[c] + rest|
    ensures Continues(Grown(d, c, rest, sep), ([c] + rest)[Taken(d, c, rest, sep)..])
  {
    var left := ([c] + rest)[Taken(d, c, rest, sep)..];
    assert left == if Taken(d, c, rest, sep) == 2 then rest[1..] else rest;
    if !d.current.Open? && c != sep && IsBreak(c) {
      LastOf(d.records, Record(d.cells + [d.current], EndOfLine(c, rest)));
    }
  }

  /** The document of a text, as far as the parser gets; where it stops, the character is a fault. */
  lemma {:induction false} ScanBuilds(d: Document, text: string, sep: char, liberal: bool) returns (e: Document, left: string)
    requires GoodSeparator(sep) && Fine(d, sep, liberal) && Continues(d, text)
    ensures Fine(e, sep, liberal) && Continues(e, left) && Text(e, sep) + left == Text(d, sep) + text
    ensures Scan(StateOf(d), text, sep, liberal) == if left == "" then Some(StateOf(e)) else None
    ensures left != "" ==> !liberal && Fault(e, left[0], sep)
    decreases |text|
  {
    if text == "" {
      e, left := d, "";
    } else if Fault(d, text[0], sep) && !liberal {
      e, left := d, text;
      assert [text[0]] + text[1..] == text;
      FaultStops(d, text[0], text[1..], sep);
    } else {
      var c, rest := text[0], text[1..];
      var next, n := Grown(d, c, rest, sep), Taken(d, c, rest, sep);
      assert [c] + rest == text;
      GrownState(d, c, rest, sep, liberal);
      GrownIsFine(d, c, rest, sep, liberal);
      GrownText(d, c, rest, sep);
      GrownContinues(d, c, rest, sep);
      ScanStep(StateOf(d), c, rest, sep, liberal);
      hide *;
      e, left := ScanBuilds(next, text[n..], sep, liberal);
      TextMoves(Text(d, sep), text, n);
    }
  }

  lemma {:induction false} TextMoves(before: string, text: string, n: nat)
    requires n <= |text|
    ensures before + text[..n] + text[n..] == before + text
  {
    assert text[..n] + text[n..] == text;
  }
}
