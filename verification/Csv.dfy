/** Writing rows as comma-separated text and parsing them. */
module Csv {
  // A string here is a sequence of bytes.

  import opened Options

  /** A field is nil or a string. */
  type Row = seq<Option<string>>

  datatype Parsed = Rows(rows: seq<Row>) | Malformed

  // ---------------------------------------------------------------- writing

  predicate Special(c: char, sep: char) {
    c == sep || c == '"' || c == '\r' || c == '\n'
  }

  predicate NeedsQuotes(s: string, sep: char) {
    exists i :: 0 <= i < |s| && Special(s[i], sep)
  }

  function DoubleQuotes(s: string): string {
    if s == "" then "" else (if s[0] == '"' then "\"\"" else [s[0]]) + DoubleQuotes(s[1..])
  }

  function FieldText(f: Option<string>, sep: char): string {
    if f.None? then ""
    else if NeedsQuotes(f.value, sep) then "\"" + DoubleQuotes(f.value) + "\""
    else f.value
  }

  /** strings.Join of the field texts. */
  function Join(row: Row, sep: char): string {
    if row == [] then ""
    else if |row| == 1 then FieldText(row[0], sep)
    else FieldText(row[0], sep) + [sep] + Join(row[1..], sep)
  }

  function Line(row: Row, sep: char): string {
    Join(row, sep) + "\n"
  }

  function Lines(rows: seq<Row>, sep: char): string {
    if rows == [] then "" else Line(rows[0], sep) + Lines(rows[1..], sep)
  }

  /** csvGenerateLine: the texts are filled in, then joined. */
  method GenerateLine(row: Row, sep: char) returns (line: string)
    ensures line == Line(row, sep)
  {
    var fields := new string[|row|](_ => "");
    for i := 0 to |row|
      invariant forall k :: 0 <= k < i ==> fields[k] == FieldText(row[k], sep)
      invariant forall k :: i <= k < |row| ==> fields[k] == ""
    {
      if row[i].Some? {
        var field := row[i].value;
        var special := ContainsSpecial(field, sep);
        if special {
          var doubled := ReplaceQuotes(field);
          field := "\"" + doubled + "\"";
        }
        fields[i] := field;
      }
    }
    line := "";
    var i := |row|;
    while i > 0
      invariant 0 <= i <= |row|
      invariant line == Join(row[i..], sep)
    {
      i := i - 1;
      assert row[i..][0] == row[i] && row[i..][1..] == row[i + 1..];
      line := if i + 1 == |row| then fields[i] else fields[i] + [sep] + line;
    }
    assert row[0..] == row;
    line := line + "\n";
  }

  method ContainsSpecial(s: string, sep: char) returns (found: bool)
    ensures found == NeedsQuotes(s, sep)
  {
    for i := 0 to |s|
      invariant forall k :: 0 <= k < i ==> !Special(s[k], sep)
    {
      if Special(s[i], sep) { return true; }
    }
    found := false;
  }

  method ReplaceQuotes(s: string) returns (r: string)
    ensures r == DoubleQuotes(s)
  {
    r := "";
    var i := |s|;
    while i > 0
      invariant 0 <= i <= |s| && r == DoubleQuotes(s[i..])
    {
      i := i - 1;
      assert s[i..][0] == s[i] && s[i..][1..] == s[i + 1..];
      r := (if s[i] == '"' then "\"\"" else [s[i]]) + r;
    }
    assert s[0..] == s;
  }

  // ---------------------------------------------------------------- the parser's state machine

  datatype State = State(rows: seq<Row>, row: Row, field: string, inQuotes: bool, afterQuote: bool, quoted: bool, atFieldStart: bool)

  function Start(rows: seq<Row>, row: Row): State {
    State(rows, row, "", false, false, false, true)
  }

  /** An empty field that was not quoted is nil. */
  function FieldOf(s: State): Option<string> {
    if s.field == "" && !s.quoted then None else Some(s.field)
  }

  function AppendField(s: State): State {
    Start(s.rows, s.row + [FieldOf(s)])
  }

  function AppendRow(s: State): State {
    var row := if s.row == [] && s.field == "" && !s.quoted then [] else s.row + [FieldOf(s)];
    Start(s.rows + [row], [])
  }

  /** The state after one character, and how many were consumed; None is malformed input. */
  datatype Moved = Moved(s: State, count: nat)

  function AfterBreak(s: State, c: char, rest: string): Moved {
    Moved(AppendRow(s), if c == '\r' && rest != "" && rest[0] == '\n' then 2 else 1)
  }

  function Step(s: State, c: char, rest: string, sep: char, liberal: bool): (m: Option<Moved>)
    ensures m.Some? ==> 1 <= m.value.count <= 1 + |rest|
  {
    if s.inQuotes then
      if c == '"' then
        if rest != "" && rest[0] == '"' then Some(Moved(s.(field := s.field + "\""), 2))
        else Some(Moved(s.(inQuotes := false, afterQuote := true), 1))
      else Some(Moved(s.(field := s.field + [c]), 1))
    else if c == sep then Some(Moved(AppendField(s), 1))
    else if c == '\n' || c == '\r' then Some(AfterBreak(s, c, rest))
    else if s.afterQuote then
      if liberal then Some(Moved(s.(field := s.field + [c], afterQuote := false, atFieldStart := false), 1)) else None
    else if c == '"' then
      if s.atFieldStart then Some(Moved(s.(inQuotes := true, quoted := true), 1))
      else if liberal then Some(Moved(s.(field := s.field + [c]), 1))
      else None
    else Some(Moved(s.(field := s.field + [c], atFieldStart := false), 1))
  }

  function Scan(s: State, text: string, sep: char, liberal: bool): Option<State>
    decreases |text|
  {
    if text == "" then Some(s) else
    var m := Step(s, text[0], text[1..], sep, liberal);
    if m.None? then None else Scan(m.value.s, text[m.value.count..], sep, liberal)
  }

  /** csvParseRows. */
  function ParseRows(source: string, sep: char, liberal: bool): Parsed {
    if source == "" then Rows([]) else
    var end := Scan(Start([], []), source, sep, liberal);
    if end.None? || (end.value.inQuotes && !liberal) then Malformed
    else
      var last := source[|source| - 1];
      Rows(if last != '\n' && last != '\r' then AppendRow(end.value).rows else end.value.rows)
  }

  lemma {:induction false} ScanOne(s: State, source: string, i: nat, sep: char, liberal: bool)
    requires i < |source|
    ensures Step(s, source[i], source[i + 1..], sep, liberal).None? ==> Scan(s, source[i..], sep, liberal) == None
    ensures Step(s, source[i], source[i + 1..], sep, liberal).Some? ==>
              var m := Step(s, source[i], source[i + 1..], sep, liberal).value;
              Scan(s, source[i..], sep, liberal) == Scan(m.s, source[i + m.count..], sep, liberal)
  {
    hide Step;
    var text := source[i..];
    assert text[0] == source[i] && text[1..] == source[i + 1..];
    var m := Step(s, source[i], source[i + 1..], sep, liberal);
    if m.Some? { assert text[m.value.count..] == source[i + m.value.count..]; }
  }

  lemma {:induction false} ScanEnd(s: State, source: string, sep: char, liberal: bool)
    ensures Scan(s, source[|source|..], sep, liberal) == Some(s)
  {
  }

  /** The parser as the source runs it: one pass over the bytes, updating the state variables. */
  method Parse(source: string, sep: char, liberal: bool) returns (r: Parsed)
    ensures r == ParseRows(source, sep, liberal)
  {
    hide Scan;
    if source == "" { return Rows([]); }
    var rows: seq<Row>, row: Row, field := [], [], "";
    var inQuotes, afterQuote, quoted, atFieldStart := false, false, false, true;
    var i := 0;
    while i < |source|
      invariant 0 <= i <= |source|
      invariant Scan(State(rows, row, field, inQuotes, afterQuote, quoted, atFieldStart), source[i..], sep, liberal)
                == Scan(Start([], []), source, sep, liberal)
    {
      var c := source[i];
      ghost var s := State(rows, row, field, inQuotes, afterQuote, quoted, atFieldStart);
      ghost var start, rest := i, source[i + 1..];
      ScanOne(s, source, i, sep, liberal);
      if inQuotes {
        if c == '"' {
          if i + 1 < |source| && source[i + 1] == '"' {
            field := field + "\"";
            i := i + 1;
          } else {
            inQuotes, afterQuote := false, true;
          }
        } else {
          field := field + [c];
        }
      } else if c == sep {
        row := row + [if field == "" && !quoted then None else Some(field)];
        field, quoted, afterQuote, atFieldStart := "", false, false, true;
      } else if c == '\n' || c == '\r' {
        if c == '\r' && i + 1 < |source| && source[i + 1] == '\n' { i := i + 1; }
        var done := if row == [] && field == "" && !quoted then [] else row + [if field == "" && !quoted then None else Some(field)];
        rows := rows + [done];
        row, field, quoted, afterQuote, atFieldStart := [], "", false, false, true;
      } else if afterQuote {
        if !liberal { return Malformed; }
        field, afterQuote, atFieldStart := field + [c], false, false;
      } else if c == '"' {
        if atFieldStart {
          inQuotes, quoted := true, true;
        } else if liberal {
          field := field + [c];
        } else {
          return Malformed;
        }
      } else {
        field, atFieldStart := field + [c], false;
      }
      i := i + 1;
      assert Step(s, c, rest, sep, liberal)
             == Some(Moved(State(rows, row, field, inQuotes, afterQuote, quoted, atFieldStart), i - start));
    }
    ScanEnd(State(rows, row, field, inQuotes, afterQuote, quoted, atFieldStart), source, sep, liberal);
    if inQuotes && !liberal { return Malformed; }
    if source[|source| - 1] != '\n' && source[|source| - 1] != '\r' {
      var done := if row == [] && field == "" && !quoted then [] else row + [if field == "" && !quoted then None else Some(field)];
      rows := rows + [done];
    }
    r := Rows(rows);
  }

  // ---------------------------------------------------------------- the round trip

  /** What a written field reads back as: an empty string is written like nil. */
  function SeenField(f: Option<string>): Option<string> {
    if f == Some("") then None else f
  }

  function SeenFields(row: Row): Row {
    if row == [] then [] else [SeenField(row[0])] + SeenFields(row[1..])
  }

  /** A row of one empty field is written like an empty row. */
  function SeenRow(row: Row): Row {
    if |row| == 1 && SeenField(row[0]) == None then [] else SeenFields(row)
  }

  function SeenRows(rows: seq<Row>): seq<Row> {
    if rows == [] then [] else [SeenRow(rows[0])] + SeenRows(rows[1..])
  }

  predicate GoodSeparator(sep: char) {
    sep != '"' && sep != '\r' && sep != '\n'
  }

  lemma {:induction false} ScanStep(s: State, c: char, rest: string, sep: char, liberal: bool)
    ensures var m := Step(s, c, rest, sep, liberal);
            Scan(s, [c] + rest, sep, liberal) == if m.None? then None else Scan(m.value.s, ([c] + rest)[m.value.count..], sep, liberal)
  {
    assert ([c] + rest)[0] == c && ([c] + rest)[1..] == rest;
  }

  /** Text without special characters is copied into the field. */
  lemma {:induction false} ScanPlain(s: State, text: string, rest: string, sep: char, liberal: bool)
    requires !s.inQuotes && !s.afterQuote && forall i :: 0 <= i < |text| ==> !Special(text[i], sep)
    ensures Scan(s, text + rest, sep, liberal)
            == Scan(s.(field := s.field + text, atFieldStart := s.atFieldStart && text == ""), rest, sep, liberal)
    decreases |text|
  {
    if text == "" {
      assert text + rest == rest && s.field + text == s.field;
    } else {
      var c, more := text[0], text[1..];
      assert text + rest == [c] + (more + rest);
      ScanStep(s, c, more + rest, sep, liberal);
      assert ([c] + (more + rest))[1..] == more + rest;
      var next := s.(field := s.field + [c], atFieldStart := false);
      ScanPlain(next, more, rest, sep, liberal);
      assert next.field + more == s.field + text;
    }
  }

  lemma {:induction false} ClosingQuote(s: State, rest: string, sep: char, liberal: bool)
    requires s.inQuotes && (rest != "" ==> rest[0] != '"')
    ensures Scan(s, "\"" + rest, sep, liberal) == Scan(s.(inQuotes := false, afterQuote := true), rest, sep, liberal)
  {
    assert "\"" + rest == ['"'] + rest;
    ScanStep(s, '"', rest, sep, liberal);
    assert (['"'] + rest)[1..] == rest;
  }

  lemma {:induction false} NoMoreQuoted(field: string, rest: string)
    ensures DoubleQuotes("") + "\"" + rest == "\"" + rest && field + "" == field
  {
  }

  lemma {:induction false} FirstQuoted(text: string, rest: string)
    requires text != ""
    ensures DoubleQuotes(text) + "\"" + rest
            == (if text[0] == '"' then "\"\"" else [text[0]]) + (DoubleQuotes(text[1..]) + "\"" + rest)
  {
  }

  /** Inside quotes, doubled quotes are undone up to the closing one. */
  lemma {:induction false} ScanQuoted(s: State, text: string, rest: string, sep: char, liberal: bool)
    requires s.inQuotes && (rest != "" ==> rest[0] != '"')
    ensures Scan(s, DoubleQuotes(text) + "\"" + rest, sep, liberal)
            == Scan(s.(field := s.field + text, inQuotes := false, afterQuote := true), rest, sep, liberal)
    decreases |text|
  {
    hide Scan;
    if text == "" {
      NoMoreQuoted(s.field, rest);
      ClosingQuote(s, rest, sep, liberal);
    } else {
      hide *;
      FirstQuoted(text, rest);
      QuotedChar(s, text[0], DoubleQuotes(text[1..]) + "\"" + rest, sep, liberal);
      var next := s.(field := s.field + [text[0]]);
      ScanQuoted(next, text[1..], rest, sep, liberal);
      HeadMoved(s.field, text);
    }
  }

  lemma {:induction false} HeadMoved(done: string, text: string)
    requires text != ""
    ensures done + [text[0]] + text[1..] == done + text
  {
  }

  lemma {:induction false} QuotedChar(s: State, c: char, rest: string, sep: char, liberal: bool)
    requires s.inQuotes
    ensures Scan(s, (if c == '"' then "\"\"" else [c]) + rest, sep, liberal) == Scan(s.(field := s.field + [c]), rest, sep, liberal)
  {
    if c == '"' {
      var tail := ['"'] + rest;
      assert "\"\"" + rest == ['"'] + tail;
      ScanStep(s, '"', tail, sep, liberal);
      assert (['"'] + tail)[2..] == rest;
      assert "\"" == [c];
    } else {
      ScanStep(s, c, rest, sep, liberal);
      assert ([c] + rest)[1..] == rest;
    }
  }

  /** The state after the text of a field. */
  function AfterField(s: State, f: Option<string>, sep: char): State {
    if f.None? then s
    else if NeedsQuotes(f.value, sep) then s.(field := f.value, quoted := true, afterQuote := true)
    else s.(field := f.value, atFieldStart := f.value == "")
  }

  lemma {:induction false} ScanField(s: State, f: Option<string>, rest: string, sep: char, liberal: bool)
    requires s == Start(s.rows, s.row) && GoodSeparator(sep) && rest != "" && rest[0] != '"'
    ensures Scan(s, FieldText(f, sep) + rest, sep, liberal) == Scan(AfterField(s, f, sep), rest, sep, liberal)
  {
    if f.None? {
      assert "" + rest == rest;
    } else if NeedsQuotes(f.value, sep) {
      var tail := DoubleQuotes(f.value) + "\"" + rest;
      assert FieldText(f, sep) + rest == ['"'] + tail;
      ScanStep(s, '"', tail, sep, liberal);
      assert (['"'] + tail)[1..] == tail;
      ScanQuoted(s.(inQuotes := true, quoted := true), f.value, rest, sep, liberal);
      assert "" + f.value == f.value;
    } else {
      ScanPlain(s, f.value, rest, sep, liberal);
      assert "" + f.value == f.value;
    }
  }

  /** A field with something to quote is not empty, so it reads back as written. */
  lemma {:induction false} FieldReadsBack(s: State, f: Option<string>, sep: char)
    requires s == Start(s.rows, s.row)
    ensures var t := AfterField(s, f, sep);
            FieldOf(t) == SeenField(f) && !t.inQuotes && t.rows == s.rows && t.row == s.row
            && (t.field == "" && !t.quoted <==> SeenField(f) == None)
  {
  }

  lemma {:induction false} ScanSeparator(t: State, rest: string, sep: char, liberal: bool)
    requires !t.inQuotes
    ensures Scan(t, [sep] + rest, sep, liberal) == Scan(AppendField(t), rest, sep, liberal)
  {
    ScanStep(t, sep, rest, sep, liberal);
    assert ([sep] + rest)[1..] == rest;
  }

  lemma {:induction false} ScanNewline(t: State, rest: string, sep: char, liberal: bool)
    requires !t.inQuotes && GoodSeparator(sep)
    ensures Scan(t, ['\n'] + rest, sep, liberal) == Scan(AppendRow(t), rest, sep, liberal)
  {
    ScanStep(t, '\n', rest, sep, liberal);
    assert (['\n'] + rest)[1..] == rest;
  }

  /** The end of a line closes the row. */
  lemma {:induction false} LastField(s: State, row: Row, sep: char)
    requires s == Start(s.rows, s.row) && |row| == 1
    ensures AppendRow(AfterField(s, row[0], sep))
            == Start(s.rows + [if s.row == [] then SeenRow(row) else s.row + SeenFields(row)], [])
  {
    FieldReadsBack(s, row[0], sep);
    assert row[1..] == [] && SeenFields(row) == [SeenField(row[0])];
    assert [] + [SeenField(row[0])] == [SeenField(row[0])];
  }

  /** The rest of a line, from the start of a field. */
  lemma {:induction false} ScanFields(s: State, row: Row, rest: string, sep: char, liberal: bool)
    requires s == Start(s.rows, s.row) && GoodSeparator(sep) && row != []
    ensures Scan(s, Join(row, sep) + "\n" + rest, sep, liberal)
            == Scan(Start(s.rows + [if s.row == [] then SeenRow(row) else s.row + SeenFields(row)], []), rest, sep, liberal)
    decreases |row|
  {
    hide Scan, AfterField, FieldText, SeenRow, FieldOf;
    var f := row[0];
    var t := AfterField(s, f, sep);
    FieldReadsBack(s, f, sep);
    if |row| == 1 {
      var tail := ['\n'] + rest;
      assert Join(row, sep) + "\n" + rest == FieldText(f, sep) + tail;
      ScanField(s, f, tail, sep, liberal);
      ScanNewline(t, rest, sep, liberal);
      LastField(s, row, sep);
    } else {
      var more := Join(row[1..], sep) + "\n" + rest;
      var tail := [sep] + more;
      JoinTail(row, rest, sep);
      ScanField(s, f, tail, sep, liberal);
      ScanSeparator(t, more, sep, liberal);
      ScanFields(Start(s.rows, s.row + [SeenField(f)]), row[1..], rest, sep, liberal);
      assert AppendField(t) == Start(s.rows, s.row + [SeenField(f)]);
      LongRow(s.row, row);
    }
  }

  lemma {:induction false} JoinTail(row: Row, rest: string, sep: char)
    requires |row| > 1
    ensures Join(row, sep) + "\n" + rest == FieldText(row[0], sep) + ([sep] + (Join(row[1..], sep) + "\n" + rest))
  {
    hide FieldText;
  }

  lemma {:induction false} LongRow(done: Row, row: Row)
    requires |row| > 1
    ensures done + [SeenField(row[0])] + SeenFields(row[1..]) == done + SeenFields(row)
    ensures done == [] ==> done + SeenFields(row) == SeenRow(row)
  {
  }

  lemma {:induction false} ScanLine(rows: seq<Row>, row: Row, rest: string, sep: char, liberal: bool)
    requires GoodSeparator(sep)
    ensures Scan(Start(rows, []), Line(row, sep) + rest, sep, liberal) == Scan(Start(rows + [SeenRow(row)], []), rest, sep, liberal)
  {
    if row == [] {
      assert Line(row, sep) + rest == ['\n'] + rest;
      ScanStep(Start(rows, []), '\n', rest, sep, liberal);
      assert (['\n'] + rest)[1..] == rest;
    } else {
      ScanFields(Start(rows, []), row, rest, sep, liberal);
    }
  }

  lemma {:induction false} SeenMore(done: seq<Row>, rows: seq<Row>)
    requires rows != []
    ensures done + [SeenRow(rows[0])] + SeenRows(rows[1..]) == done + SeenRows(rows)
  {
  }

  lemma {:induction false} ScanLines(done: seq<Row>, rows: seq<Row>, sep: char, liberal: bool)
    requires GoodSeparator(sep)
    ensures Scan(Start(done, []), Lines(rows, sep), sep, liberal) == Some(Start(done + SeenRows(rows), []))
    decreases |rows|
  {
    if rows == [] {
      assert done + [] == done;
    } else {
      hide Scan, Line, SeenRow, SeenRows;
      ScanLine(done, rows[0], Lines(rows[1..], sep), sep, liberal);
      ScanLines(done + [SeenRow(rows[0])], rows[1..], sep, liberal);
      SeenMore(done, rows);
    }
  }

  lemma {:induction false} LinesEnd(rows: seq<Row>, sep: char)
    requires rows != []
    ensures var text := Lines(rows, sep); text != "" && text[|text| - 1] == '\n'
    decreases |rows|
  {
    if |rows| > 1 {
      LinesEnd(rows[1..], sep);
    } else {
      assert rows[1..] == [];
    }
  }

  /** Parsing what was written gives the rows back, up to the two things the text cannot show: an empty string reads
      back as nil, and a row of one empty field as an empty row. Nothing written is ever malformed. */
  lemma {:induction false} ParseGenerated(rows: seq<Row>, sep: char, liberal: bool)
    requires GoodSeparator(sep)
    ensures ParseRows(Lines(rows, sep), sep, liberal) == Rows(SeenRows(rows))
  {
    ScanLines([], rows, sep, liberal);
    assert [] + SeenRows(rows) == SeenRows(rows);
    if rows != [] { LinesEnd(rows, sep); }
  }

  predicate RowIsPlain(row: Row) {
    row != [None] && forall k :: 0 <= k < |row| ==> row[k] != Some("")
  }

  lemma {:induction false} SeenFieldsAt(row: Row)
    ensures |SeenFields(row)| == |row| && forall k :: 0 <= k < |row| ==> SeenFields(row)[k] == SeenField(row[k])
    decreases |row|
  {
    if row != [] { SeenFieldsAt(row[1..]); }
  }

  lemma {:induction false} SeenRowIff(row: Row)
    ensures SeenRow(row) == row <==> RowIsPlain(row)
  {
    SeenFieldsAt(row);
    if RowIsPlain(row) && |row| == 1 { assert row == [row[0]]; }
    if SeenRow(row) == row {
      forall k | 0 <= k < |row| ensures row[k] != Some("") { assert SeenFields(row)[k] == SeenField(row[k]); }
    }
  }

  lemma {:induction false} SeenRowsAt(rows: seq<Row>)
    ensures |SeenRows(rows)| == |rows| && forall k :: 0 <= k < |rows| ==> SeenRows(rows)[k] == SeenRow(rows[k])
    decreases |rows|
  {
    if rows != [] { SeenRowsAt(rows[1..]); }
  }

  /** The round trip is exact if and only if no row is a single nil and no field is an empty string. */
  lemma {:induction false} RoundTripIff(rows: seq<Row>, sep: char, liberal: bool)
    requires GoodSeparator(sep)
    ensures ParseRows(Lines(rows, sep), sep, liberal) == Rows(rows) <==> forall k :: 0 <= k < |rows| ==> RowIsPlain(rows[k])
  {
    ParseGenerated(rows, sep, liberal);
    SeenRowsAt(rows);
    forall k | 0 <= k < |rows| ensures SeenRow(rows[k]) == rows[k] <==> RowIsPlain(rows[k]) { SeenRowIff(rows[k]); }
    if SeenRows(rows) == rows {
      forall k | 0 <= k < |rows| ensures RowIsPlain(rows[k]) { assert SeenRows(rows)[k] == SeenRow(rows[k]); }
    }
  }
}
