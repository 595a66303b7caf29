/** What a text says, and which texts are refused. */
module CsvTexts {
  import opened Options
  import opened Csv
  import opened CsvGrammar

  const EMPTY: Document := Document([], [], Plain(""))

  /** A document the parser reads to its end: an open quote only in liberal mode. */
  predicate Readable(d: Document, sep: char, liberal: bool) {
    Fine(d, sep, liberal) && (d.current.Open? ==> liberal)
  }

  lemma {:induction false} EmptyText(d: Document, sep: char)
    requires Filled(d.records) && (forall k :: 0 <= k < |d.records| ==> d.records[k].end != "")
    ensures Text(d, sep) == "" <==> d == EMPTY
  {
    hide RowText;
    if d.records != [] { assert d.records[|d.records| - 1].end != ""; }
  }

  lemma {:induction false} LastDoubled(b: string)
    requires b != ""
    ensures DoubleQuotes(b) != "" && DoubleQuotes(b)[|DoubleQuotes(b)| - 1] == b[|b| - 1]
    decreases |b|
  {
    if |b| > 1 { LastDoubled(b[1..]); } else { assert b[1..] == ""; }
  }

  lemma {:induction false} LastOfCell(c: Cell, sep: char, liberal: bool)
    requires CellFine(c, sep, liberal) && CellText(c) != ""
    ensures IsBreak(CellText(c)[|CellText(c)| - 1]) <==> c.Open? && c.body != "" && IsBreak(c.body[|c.body| - 1])
  {
    match c
    case Plain(_) =>
    case Quoted(b, t) => assert t == "" ==> CellText(c)[|CellText(c)| - 1] == '"';
    case Open(b) => if b != "" { LastDoubled(b); }
  }

  lemma {:induction false} LastOfRow(cells: seq<Cell>, c: Cell, sep: char, liberal: bool)
    requires CellFine(c, sep, liberal) && GoodSeparator(sep) && (cells != [] || c != Plain(""))
    ensures var text := CellsText(cells, sep) + CellText(c);
            text != "" && (IsBreak(text[|text| - 1]) <==> c.Open? && c.body != "" && IsBreak(c.body[|c.body| - 1]))
  {
    if CellText(c) != "" {
      LastOfCell(c, sep, liberal);
    } else {
      assert CellsText(cells, sep) + CellText(c) == CellsText(cells, sep);
    }
  }

  /** The last character of a text is a line break exactly when no row is left over. */
  lemma {:induction false} LastCharacter(d: Document, sep: char, liberal: bool)
    requires Fine(d, sep, liberal) && GoodSeparator(sep) && Text(d, sep) != ""
    ensures IsBreak(Text(d, sep)[|Text(d, sep)| - 1]) <==> NoLastRow(d)
  {
    hide RowText;
    if d.cells == [] && d.current == Plain("") {
      assert Text(d, sep) == RecordsText(d.records, sep);
      assert RecordFine(d.records[|d.records| - 1], sep, liberal);
    } else {
      LastOfRow(d.cells, d.current, sep, liberal);
    }
  }

  lemma {:induction false} ScanWhole(d: Document, sep: char, liberal: bool)
    requires GoodSeparator(sep) && Fine(d, sep, liberal)
    ensures Scan(Start([], []), Text(d, sep), sep, liberal) == Some(StateOf(d))
  {
    ScanDocument(d, "", sep, liberal);
    assert Text(d, sep) + "" == Text(d, sep);
  }

  lemma {:induction false} LeftOver(d: Document)
    ensures AppendRow(StateOf(d)).rows == ReadRecords(d.records) + [ReadRow(d.cells + [d.current])]
    ensures StateOf(d).rows == ReadRecords(d.records) && StateOf(d).inQuotes == d.current.Open?
  {
    LastOf(d.cells, d.current);
    CloseRow(ReadRecords(d.records), d.cells + [d.current]);
    hide ReadRow;
  }

  /** Every readable document parses to what it says. */
  lemma {:induction false} DocumentParses(d: Document, sep: char, liberal: bool)
    requires GoodSeparator(sep) && Readable(d, sep, liberal)
    ensures ParseRows(Text(d, sep), sep, liberal) == Rows(Read(d))
  {
    if Text(d, sep) == "" {
      OnlyEmpty(d, sep, liberal);
    } else {
      ReadsToTheEnd(d, sep, liberal);
    }
  }

  lemma {:induction false} ReadsToTheEnd(d: Document, sep: char, liberal: bool)
    requires GoodSeparator(sep) && Readable(d, sep, liberal) && Text(d, sep) != ""
    ensures ParseRows(Text(d, sep), sep, liberal) == Rows(Read(d))
  {
    hide StateOf, Text, ReadRecords, ReadRow, Fine, Scan, AppendRow, NoLastRow;
    LastCharacter(d, sep, liberal);
    ScanWhole(d, sep, liberal);
    LeftOver(d);
  }

  /** Where the parser gets to in a text, as a document. */
  lemma {:induction false} Analyzed(source: string, sep: char, liberal: bool) returns (d: Document, left: string)
    requires GoodSeparator(sep)
    ensures Fine(d, sep, liberal) && Continues(d, left) && Text(d, sep) + left == source
    ensures left != "" ==> !liberal && Fault(d, left[0], sep)
    ensures Scan(Start([], []), source, sep, liberal) == if left == "" then Some(StateOf(d)) else None
  {
    d, left := ScanBuilds(EMPTY, source, sep, liberal);
    assert Text(EMPTY, sep) + source == source;
    assert StateOf(EMPTY) == Start([], []);
  }

  /** A text parses if and only if it is the text of a readable document, and then to what that document says. */
  lemma {:induction false} ParsedIff(source: string, rows: seq<Row>, sep: char, liberal: bool)
    requires GoodSeparator(sep)
    ensures ParseRows(source, sep, liberal) == Rows(rows)
            <==> exists d: Document :: Readable(d, sep, liberal) && Text(d, sep) == source && Read(d) == rows
  {
    if ParseRows(source, sep, liberal) == Rows(rows) {
      var d, left := Analyzed(source, sep, liberal);
      LeftOver(d);
      if left == "" { assert Text(d, sep) + left == Text(d, sep); }
      assert source == "" ==> left == "" && Text(d, sep) == "";
      if source == "" { OnlyEmpty(d, sep, liberal); }
      DocumentParses(d, sep, liberal);
      assert Readable(d, sep, liberal) && Text(d, sep) == source && Read(d) == rows;
    }
    if d: Document :| Readable(d, sep, liberal) && Text(d, sep) == source && Read(d) == rows {
      DocumentParses(d, sep, liberal);
    }
  }

  lemma {:induction false} OnlyEmpty(d: Document, sep: char, liberal: bool)
    requires Fine(d, sep, liberal) && Text(d, sep) == ""
    ensures d == EMPTY
  {
    assert forall k :: 0 <= k < |d.records| ==> RecordFine(d.records[k], sep, liberal);
    EmptyText(d, sep);
  }

  /** Refused at d: an open quote at the end, or a quote inside a field, or a character after a closing quote. */
  ghost predicate RefusedAt(d: Document, source: string, sep: char) {
    && Fine(d, sep, false)
    && if d.current.Open? then Text(d, sep) == source
       else exists c: char, rest: string :: Fault(d, c, sep) && Continues(d, [c] + rest) && source == Text(d, sep) + ([c] + rest)
  }

  lemma {:induction false} RefusedStops(d: Document, source: string, sep: char)
    requires GoodSeparator(sep) && RefusedAt(d, source, sep)
    ensures ParseRows(source, sep, false) == Malformed
  {
    if d.current.Open? {
      ScanWhole(d, sep, false);
      LeftOver(d);
      if source == "" { OnlyEmpty(d, sep, false); }
    } else {
      var c: char, rest: string :| Fault(d, c, sep) && Continues(d, [c] + rest) && source == Text(d, sep) + ([c] + rest);
      hide Fault, Text, StateOf, Step, Continues;
      ScanDocument(d, [c] + rest, sep, false);
      ScanStep(StateOf(d), c, rest, sep, false);
      FaultStops(d, c, rest, sep);
    }
  }

  /** Liberal mode refuses nothing; strict mode refuses a text if and only if one of the three faults occurs in it. */
  lemma {:induction false} MalformedIff(source: string, sep: char, liberal: bool)
    requires GoodSeparator(sep)
    ensures ParseRows(source, sep, liberal) == Malformed <==> !liberal && exists d: Document :: RefusedAt(d, source, sep)
  {
    var e, left := Analyzed(source, sep, liberal);
    LeftOver(e);
    if left == "" { assert Text(e, sep) + left == Text(e, sep); }
    if ParseRows(source, sep, liberal) == Malformed {
      if left != "" { assert [left[0]] + left[1..] == left; }
      assert RefusedAt(e, source, sep);
    }
    if !liberal {
      forall d: Document | RefusedAt(d, source, sep) ensures ParseRows(source, sep, liberal) == Malformed { RefusedStops(d, source, sep); }
    }
  }

  // ---------------------------------------------------------------- laws

  /** The kind of line break does not matter. */
  lemma {:induction false} BreaksAlike(d: Document, e: Document, sep: char, liberal: bool)
    requires GoodSeparator(sep) && Readable(d, sep, liberal) && Readable(e, sep, liberal)
    requires |d.records| == |e.records| && d.cells == e.cells && d.current == e.current
    requires forall k :: 0 <= k < |d.records| ==> d.records[k].cells == e.records[k].cells
    ensures ParseRows(Text(d, sep), sep, liberal) == ParseRows(Text(e, sep), sep, liberal)
  {
    DocumentParses(d, sep, liberal);
    DocumentParses(e, sep, liberal);
    RecordsAlike(d.records, e.records);
  }

  lemma {:induction false} RecordsAlike(a: seq<Record>, b: seq<Record>)
    requires |a| == |b| && forall k :: 0 <= k < |a| ==> a[k].cells == b[k].cells
    ensures ReadRecords(a) == ReadRecords(b)
    decreases |a|
  {
    if a != [] { RecordsAlike(a[..|a| - 1], b[..|b| - 1]); }
  }

  /** A last row without line break is read like one with it. */
  lemma {:induction false} BreakAdded(d: Document, sep: char, liberal: bool)
    requires GoodSeparator(sep) && Readable(d, sep, liberal) && !d.current.Open? && !NoLastRow(d)
    ensures ParseRows(Text(d, sep) + "\n", sep, liberal) == ParseRows(Text(d, sep), sep, liberal)
  {
    var e := Grown(d, '\n', "", sep);
    BreakGrows(d, sep, liberal);
    hide *;
    DocumentParses(d, sep, liberal);
    DocumentParses(e, sep, liberal);
  }

  lemma {:induction false} BreakGrows(d: Document, sep: char, liberal: bool)
    requires GoodSeparator(sep) && Fine(d, sep, liberal) && !d.current.Open? && !NoLastRow(d)
    ensures var e := Grown(d, '\n', "", sep);
            Readable(e, sep, liberal) && Text(e, sep) == Text(d, sep) + "\n" && Read(e) == Read(d)
  {
    var e := Grown(d, '\n', "", sep);
    assert ['\n'] + "" == "\n" && "\n"[..1] == "\n";
    assert Continues(d, "\n");
    assert e == Document(d.records + [Record(d.cells + [d.current], "\n")], [], Plain(""));
    GrownIsFine(d, '\n', "", sep, liberal);
    GrownText(d, '\n', "", sep);
    LastOf(d.records, Record(d.cells + [d.current], "\n"));
    hide Text, Fine, ReadRow, Grown;
  }

  /** In strict mode that holds of every text that does not end in a line break, malformed ones included. */
  lemma {:induction false} StrictBreakAdded(source: string, sep: char)
    requires GoodSeparator(sep) && source != "" && !IsBreak(source[|source| - 1])
    ensures ParseRows(source + "\n", sep, false) == ParseRows(source, sep, false)
  {
    var d, left := Analyzed(source, sep, false);
    if left != "" {
      StillRefused(d, source, left, sep);
    } else {
      assert Text(d, sep) + left == Text(d, sep);
      LastCharacter(d, sep, false);
      LeftOver(d);
      if d.current.Open? {
        StillOpen(d, sep);
      } else {
        BreakAdded(d, sep, false);
      }
    }
  }

  lemma {:induction false} StillRefused(d: Document, source: string, left: string, sep: char)
    requires GoodSeparator(sep) && Fine(d, sep, false) && Continues(d, left) && Text(d, sep) + left == source
    requires left != "" && Fault(d, left[0], sep)
    ensures ParseRows(source + "\n", sep, false) == ParseRows(source, sep, false) == Malformed
  {
    var c, rest := left[0], left[1..];
    assert (left + "\n")[0] == left[0];
    assert Continues(d, left + "\n");
    hide *;
    assert [c] + rest == left && [c] + (rest + "\n") == left + "\n";
    assert source + "\n" == Text(d, sep) + (left + "\n");
    FaultRefuses(d, source, c, rest, sep);
    FaultRefuses(d, source + "\n", c, rest + "\n", sep);
  }

  lemma {:induction false} FaultRefuses(d: Document, source: string, c: char, rest: string, sep: char)
    requires GoodSeparator(sep) && Fine(d, sep, false) && Fault(d, c, sep) && Continues(d, [c] + rest)
    requires source == Text(d, sep) + ([c] + rest)
    ensures ParseRows(source, sep, false) == Malformed
  {
    assert RefusedAt(d, source, sep);
    RefusedStops(d, source, sep);
  }

  lemma {:induction false} StillOpen(d: Document, sep: char)
    requires GoodSeparator(sep) && Fine(d, sep, false) && d.current.Open?
    ensures ParseRows(Text(d, sep) + "\n", sep, false) == ParseRows(Text(d, sep), sep, false) == Malformed
  {
    var e := Grown(d, '\n', "", sep);
    assert ['\n'] + "" == "\n" && "\n"[..1] == "\n";
    assert Continues(d, "\n");
    GrownIsFine(d, '\n', "", sep, false);
    GrownText(d, '\n', "", sep);
    RefusedStops(d, Text(d, sep), sep);
    RefusedStops(e, Text(e, sep), sep);
  }

  /** What strict mode reads, liberal mode reads alike. */
  lemma {:induction false} LiberalExtendsStrict(source: string, sep: char)
    requires GoodSeparator(sep) && ParseRows(source, sep, false).Rows?
    ensures ParseRows(source, sep, true) == ParseRows(source, sep, false)
  {
    ParsedIff(source, ParseRows(source, sep, false).rows, sep, false);
    var d: Document :| Readable(d, sep, false) && Text(d, sep) == source && Read(d) == ParseRows(source, sep, false).rows;
    StrictIsLiberal(d, sep);
    DocumentParses(d, sep, true);
  }

  lemma {:induction false} StrictIsLiberal(d: Document, sep: char)
    requires Readable(d, sep, false)
    ensures Readable(d, sep, true)
  {
    forall k | 0 <= k < |d.records| ensures RecordFine(d.records[k], sep, true) { assert RecordFine(d.records[k], sep, false); }
  }

  /** An open quote in liberal mode: its text is a field, unless it ends in a line break; then the whole row is lost. */
  lemma {:induction false} OpenQuoteEnds(d: Document, sep: char)
    requires GoodSeparator(sep) && Fine(d, sep, true) && d.current.Open?
    ensures ParseRows(Text(d, sep), sep, true) ==
            Rows(ReadRecords(d.records) + if d.current.body != "" && IsBreak(d.current.body[|d.current.body| - 1]) then []
                                          else [CellValues(d.cells) + [Some(d.current.body)]])
  {
    DocumentParses(d, sep, true);
    LastOf(d.cells, d.current);
    assert d.cells + [d.current] != [Plain("")] by { assert (d.cells + [d.current])[|d.cells|] == d.current; }
    hide Text, Fine;
  }

  // ---------------------------------------------------------------- writing

  /** A written field is the field itself if and only if nothing in it needs quotes; else it begins and ends with one. */
  lemma {:induction false} QuotedIff(s: string, sep: char)
    ensures FieldText(Some(s), sep) == s <==> forall i :: 0 <= i < |s| ==> s[i] != sep && s[i] != '"' && s[i] != '\r' && s[i] != '\n'
    ensures FieldText(Some(s), sep) == s || FieldText(Some(s), sep) == "\"" + DoubleQuotes(s) + "\""
  {
    DoubledIsLonger(s);
  }

  lemma {:induction false} DoubledIsLonger(s: string)
    ensures |DoubleQuotes(s)| >= |s|
    decreases |s|
  {
    if s != "" { DoubledIsLonger(s[1..]); }
  }
}
