/** The feed engine's CSV scanner, an RFC 4180 printer to be inverse to it, and the CSV branch
    of record extraction. */
module CsvScanner {
  import opened Text

  // ---- The scanner --------------------------------------------------------------------

  datatype Scanner = Scanner(field: string, row: seq<string>, rows: seq<seq<string>>, inQuotes: bool)

  const START: Scanner := Scanner("", [], [], false)

  /** Scan `text` from state `s`. The delimiter is compared as a string with one character, so
      any delimiter that is not one character long never matches. */
  function Scan(s: Scanner, text: string, delimiter: string): Scanner
    decreases |text|
  {
    if text == "" then s
    else
      var c := text[0];
      if s.inQuotes then
        if c != '"' then Scan(s.(field := s.field + [c]), text[1..], delimiter)
        else if |text| > 1 && text[1] == '"' then Scan(s.(field := s.field + ['"']), text[2..], delimiter)
        else Scan(s.(inQuotes := false), text[1..], delimiter)
      else if c == '"' then Scan(s.(inQuotes := true), text[1..], delimiter)
      else if [c] == delimiter then Scan(s.(row := s.row + [s.field], field := ""), text[1..], delimiter)
      else if c == '\n' then
        Scan(s.(rows := s.rows + [s.row + [s.field]], row := [], field := ""), text[1..], delimiter)
      else if c == '\r' then Scan(s, text[1..], delimiter)
      else Scan(s.(field := s.field + [c]), text[1..], delimiter)
  }

  function Finish(s: Scanner): seq<seq<string>> {
    if s.field != "" || s.row != [] then s.rows + [s.row + [s.field]] else s.rows
  }

  predicate IsBlank(row: seq<string>) {
    row == [] || row == [""]
  }

  function DropBlank(rows: seq<seq<string>>): seq<seq<string>> {
    if rows == [] then []
    else DropBlank(rows[..|rows| - 1]) + (if IsBlank(rows[|rows| - 1]) then [] else [rows[|rows| - 1]])
  }

  function Parsed(text: string, delimiter: string): seq<seq<string>> {
    DropBlank(Finish(Scan(START, text, delimiter)))
  }

  method ParseCsv(text: string, delimiter: string) returns (result: seq<seq<string>>)
    ensures result == Parsed(text, delimiter)
  {
    var rows: seq<seq<string>> := [];
    var field: string := "";
    var row: seq<string> := [];
    var inQuotes := false;
    var i := 0;
    assert text[0..] == text;
    while i < |text|
      invariant 0 <= i <= |text|
      invariant Scan(Scanner(field, row, rows, inQuotes), text[i..], delimiter) == Scan(START, text, delimiter)
    {
      var c := text[i];
      assert text[i..][1..] == text[i + 1..];
      assert i + 1 < |text| ==> text[i..][2..] == text[i + 2..];
      if inQuotes {
        if c == '"' {
          if i + 1 < |text| && text[i + 1] == '"' {
            field := field + ['"'];
            i := i + 1;
          } else {
            inQuotes := false;
          }
        } else {
          field := field + [c];
        }
      } else if c == '"' {
        inQuotes := true;
      } else if [c] == delimiter {
        row := row + [field];
        field := "";
      } else if c == '\n' {
        row := row + [field];
        rows := rows + [row];
        row := [];
        field := "";
      } else if c == '\r' {
      } else {
        field := field + [c];
      }
      i := i + 1;
    }
    if |field| > 0 || |row| > 0 {
      row := row + [field];
      rows := rows + [row];
    }
    result := DropBlank(rows);
  }

  // ---- What the scanner does to any text, said of single characters ----------------------------------

  /** What a character contributes: a character of the field, the end of a field, or the end of a row. */
  datatype Token = Char(c: char) | EndField | EndRow

  /** Whether an odd number of quotes stands before position `i`: it is inside quotes. */
  predicate Inside(text: string, i: nat)
    requires i <= |text|
  {
    i > 0 && Inside(text, i - 1) != (text[i - 1] == '"')
  }

  /** A quote counts for itself only when it opens right behind one that closes; inside quotes every other character
      does; outside, delimiters and line feeds end fields and rows, and carriage returns vanish. */
  function TokenAt(text: string, i: nat, delimiter: string): seq<Token>
    requires i < |text|
  {
    var c := text[i];
    if c == '"' then (if i > 0 && text[i - 1] == '"' && !Inside(text, i) then [Char('"')] else [])
    else if Inside(text, i) then [Char(c)]
    else if [c] == delimiter then [EndField]
    else if c == '\n' then [EndRow]
    else if c == '\r' then []
    else [Char(c)]
  }

  function Tokens(text: string, n: nat, delimiter: string): seq<Token>
    requires n <= |text|
  {
    if n == 0 then [] else Tokens(text, n - 1, delimiter) + TokenAt(text, n - 1, delimiter)
  }

  function Fed(s: Scanner, tokens: seq<Token>): Scanner
    decreases |tokens|
  {
    if tokens == [] then s
    else
      match tokens[0]
      case Char(c) => Fed(s.(field := s.field + [c]), tokens[1..])
      case EndField => Fed(s.(row := s.row + [s.field], field := ""), tokens[1..])
      case EndRow => Fed(s.(rows := s.rows + [s.row + [s.field]], row := [], field := ""), tokens[1..])
  }

  /** Where the scanner is after the first `i` characters. */
  function At(text: string, i: nat, delimiter: string): Scanner
    requires i <= |text|
  {
    Fed(START, Tokens(text, i, delimiter)).(inQuotes := Inside(text, i))
  }

  lemma {:induction false} FedConcat(s: Scanner, a: seq<Token>, b: seq<Token>)
    ensures Fed(s, a + b) == Fed(Fed(s, a), b)
    decreases |a|
  {
    if a == [] {
      assert a + b == b;
    } else {
      assert (a + b)[1..] == a[1..] + b;
      match a[0]
      case Char(c) => FedConcat(s.(field := s.field + [c]), a[1..], b);
      case EndField => FedConcat(s.(row := s.row + [s.field], field := ""), a[1..], b);
      case EndRow => FedConcat(s.(rows := s.rows + [s.row + [s.field]], row := [], field := ""), a[1..], b);
    }
  }

  lemma {:induction false} FedIgnoresQuotes(s: Scanner, tokens: seq<Token>, q: bool)
    ensures Fed(s.(inQuotes := q), tokens) == Fed(s, tokens).(inQuotes := q)
    decreases |tokens|
  {
    if tokens != [] {
      match tokens[0]
      case Char(c) => FedIgnoresQuotes(s.(field := s.field + [c]), tokens[1..], q);
      case EndField => FedIgnoresQuotes(s.(row := s.row + [s.field], field := ""), tokens[1..], q);
      case EndRow =>
        FedIgnoresQuotes(s.(rows := s.rows + [s.row + [s.field]], row := [], field := ""), tokens[1..], q);
    }
  }

  lemma AtNext(text: string, i: nat, delimiter: string)
    requires i < |text|
    ensures
      At(text, i + 1, delimiter)
      == Fed(At(text, i, delimiter), TokenAt(text, i, delimiter)).(inQuotes := Inside(text, i + 1))
  {
    hide Fed, TokenAt;
    FedConcat(START, Tokens(text, i, delimiter), TokenAt(text, i, delimiter));
    FedIgnoresQuotes(Fed(START, Tokens(text, i, delimiter)), TokenAt(text, i, delimiter), Inside(text, i));
  }

  /** One turn of the scanner, from a place where it is not in the middle of a doubled quote. */
  lemma ScanTurn(text: string, i: nat, delimiter: string) returns (next: nat)
    requires i < |text| && !(text[i] == '"' && i > 0 && text[i - 1] == '"' && !Inside(text, i))
    ensures i < next <= |text|
    ensures next == |text| || !(text[next] == '"' && text[next - 1] == '"' && !Inside(text, next))
    ensures Scan(At(text, i, delimiter), text[i..], delimiter)
         == Scan(At(text, next, delimiter), text[next..], delimiter)
  {
    hide At;
    var c := text[i];
    AtNext(text, i, delimiter);
    assert At(text, i, delimiter).inQuotes == Inside(text, i) by { AtIsInside(text, i, delimiter); }
    assert text[i..][1..] == text[i + 1..];
    next := i + 1;
    if Inside(text, i) && c == '"' && i + 1 < |text| && text[i + 1] == '"' {
      next := i + 2;
      AtNext(text, i + 1, delimiter);
      assert text[i..][2..] == text[i + 2..];
    }
    ScanOnce(At(text, i, delimiter), text[i..], delimiter);
    hide Scan;
  }

  lemma AtIsInside(text: string, i: nat, delimiter: string)
    requires i <= |text|
    ensures At(text, i, delimiter).inQuotes == Inside(text, i)
  {
  }

  lemma ScanOnce(s: Scanner, text: string, delimiter: string)
    requires text != ""
    ensures
      var c, rest := text[0], text[1..];
      Scan(s, text, delimiter) ==
        if s.inQuotes && c == '"' && |text| > 1 && text[1] == '"' then
          Scan(s.(field := s.field + ['"']), text[2..], delimiter)
        else if c == '"' then Scan(s.(inQuotes := !s.inQuotes), rest, delimiter)
        else if s.inQuotes then Scan(s.(field := s.field + [c]), rest, delimiter)
        else if [c] == delimiter then Scan(s.(row := s.row + [s.field], field := ""), rest, delimiter)
        else if c == '\n' then Scan(s.(rows := s.rows + [s.row + [s.field]], row := [], field := ""), rest, delimiter)
        else if c == '\r' then Scan(s, rest, delimiter)
        else Scan(s.(field := s.field + [c]), rest, delimiter)
  {
  }

  lemma {:induction false} ScanFrom(text: string, i: nat, delimiter: string)
    requires i <= |text|
    requires i < |text| ==> !(text[i] == '"' && i > 0 && text[i - 1] == '"' && !Inside(text, i))
    ensures Scan(At(text, i, delimiter), text[i..], delimiter) == At(text, |text|, delimiter)
    decreases |text| - i
  {
    hide At, Inside;
    if i < |text| {
      var next := ScanTurn(text, i, delimiter);
      ScanFrom(text, next, delimiter);
    } else {
      assert text[i..] == "";
    }
  }

  /** What any text means, well-formed or not: its characters one by one, each by the parity of the quotes before it
      and by the character before it. */
  lemma ScanByCharacter(text: string, delimiter: string)
    ensures Parsed(text, delimiter) == DropBlank(Finish(Fed(START, Tokens(text, |text|, delimiter))))
  {
    assert At(text, 0, delimiter) == START && text[0..] == text;
    ScanFrom(text, 0, delimiter);
  }

  // ---- The printer: RFC 4180, section 2 ---------------------------------------------

  predicate NeedsQuotes(field: string, d: char) {
    '"' in field || d in field || '\r' in field || '\n' in field
  }

  function DoubleQuotes(field: string): string {
    if field == "" then ""
    else (if field[0] == '"' then "\"\"" else [field[0]]) + DoubleQuotes(field[1..])
  }

  function PrintField(field: string, quoted: bool): string {
    if quoted then "\"" + DoubleQuotes(field) + "\"" else field
  }

  /** A row and how to write it: which fields are quoted (those that need it always are) and
      whether its line ends in CRLF. */
  datatype Line = Line(fields: seq<string>, quoted: seq<bool>, crlf: bool)

  predicate Printable(line: Line, d: char) {
    && |line.quoted| == |line.fields|
    && forall i :: 0 <= i < |line.fields| ==> NeedsQuotes(line.fields[i], d) ==> line.quoted[i]
  }

  predicate AllPrintable(lines: seq<Line>, d: char) {
    forall i :: 0 <= i < |lines| ==> Printable(lines[i], d)
  }

  function PrintFields(fields: seq<string>, quoted: seq<bool>, d: char): string
    requires |fields| == |quoted|
  {
    if fields == [] then ""
    else if |fields| == 1 then PrintField(fields[0], quoted[0])
    else PrintField(fields[0], quoted[0]) + [d] + PrintFields(fields[1..], quoted[1..], d)
  }

  function LineEnd(crlf: bool): string {
    if crlf then "\r\n" else "\n"
  }

  function Print(lines: seq<Line>, d: char, finalNewline: bool): string
    requires AllPrintable(lines, d)
  {
    if lines == [] then ""
    else
      var printed := PrintFields(lines[0].fields, lines[0].quoted, d);
      if |lines| == 1 && !finalNewline then printed
      else printed + LineEnd(lines[0].crlf) + Print(lines[1..], d, finalNewline)
  }

  function Rows(lines: seq<Line>): (rows: seq<seq<string>>)
    ensures |rows| == |lines| && forall i :: 0 <= i < |lines| ==> rows[i] == lines[i].fields
  {
    if lines == [] then [] else [lines[0].fields] + Rows(lines[1..])
  }

  // ---- Scanning what was printed ---------------------------------------------------

  predicate IsDelimiter(d: char) {
    d != '"' && d != '\r' && d != '\n'
  }

  lemma {:induction false} ScanPlain(s: Scanner, field: string, rest: string, d: char)
    requires !s.inQuotes && !NeedsQuotes(field, d)
    ensures Scan(s, field + rest, [d]) == Scan(s.(field := s.field + field), rest, [d])
    decreases |field|
  {
    if field == "" {
      assert field + rest == rest;
      assert s.field + field == s.field;
    } else {
      assert (field + rest)[1..] == field[1..] + rest;
      assert (s.field + [field[0]]) + field[1..] == s.field + field;
      ScanPlain(s.(field := s.field + [field[0]]), field[1..], rest, d);
    }
  }

  lemma {:induction false} ScanQuoted(s: Scanner, field: string, rest: string, d: char)
    requires s.inQuotes && (rest == "" || rest[0] != '"')
    ensures Scan(s, DoubleQuotes(field) + "\"" + rest, [d])
         == Scan(s.(field := s.field + field, inQuotes := false), rest, [d])
    decreases |field|
  {
    var text := DoubleQuotes(field) + "\"" + rest;
    if field == "" {
      assert text == "\"" + rest;
      assert text[1..] == rest;
      assert s.field + field == s.field;
    } else {
      var tail := DoubleQuotes(field[1..]) + "\"" + rest;
      assert (s.field + [field[0]]) + field[1..] == s.field + field;
      if field[0] == '"' {
        assert text == "\"\"" + tail;
        assert text[2..] == tail;
      } else {
        assert text == [field[0]] + tail;
        assert text[1..] == tail;
      }
      ScanQuoted(s.(field := s.field + [field[0]]), field[1..], rest, d);
    }
  }

  lemma ScanOpeningQuote(s: Scanner, rest: string, d: char)
    requires !s.inQuotes
    ensures Scan(s, "\"" + rest, [d]) == Scan(s.(inQuotes := true), rest, [d])
  {
    assert ("\"" + rest)[1..] == rest;
  }

  lemma ScanField(s: Scanner, field: string, quoted: bool, rest: string, d: char)
    requires !s.inQuotes && s.field == "" && (NeedsQuotes(field, d) ==> quoted)
    requires rest == "" || rest[0] != '"'
    ensures Scan(s, PrintField(field, quoted) + rest, [d]) == Scan(s.(field := field), rest, [d])
  {
    hide Scan;
    hide DoubleQuotes;
    assert s.field + field == field;
    if quoted {
      var body := DoubleQuotes(field) + "\"" + rest;
      assert PrintField(field, quoted) + rest == "\"" + body;
      ScanOpeningQuote(s, body, d);
      ScanQuoted(s.(inQuotes := true), field, rest, d);
    } else {
      ScanPlain(s, field, rest, d);
    }
  }

  lemma ScanDelimiter(s: Scanner, rest: string, d: char)
    requires !s.inQuotes && IsDelimiter(d)
    ensures Scan(s, [d] + rest, [d]) == Scan(s.(row := s.row + [s.field], field := ""), rest, [d])
  {
    assert ([d] + rest)[1..] == rest;
  }

  lemma FirstField(fields: seq<string>, quoted: seq<bool>, rest: string, d: char)
    requires |fields| == |quoted| && |fields| > 1
    ensures PrintFields(fields, quoted, d) + rest
         == PrintField(fields[0], quoted[0]) + ([d] + (PrintFields(fields[1..], quoted[1..], d) + rest))
  {
    hide PrintField;
  }

  /** The state after a row's fields: all but the last pushed, the last still open. */
  function AfterFields(s: Scanner, fields: seq<string>): Scanner
    requires fields != []
  {
    s.(row := s.row + fields[..|fields| - 1], field := fields[|fields| - 1])
  }

  lemma AfterFirst(s: Scanner, fields: seq<string>)
    requires |fields| > 1
    ensures AfterFields(s.(row := s.row + [fields[0]]), fields[1..]) == AfterFields(s, fields)
  {
    assert (s.row + [fields[0]]) + fields[1..][..|fields| - 2] == s.row + fields[..|fields| - 1];
  }

  lemma {:induction false} ScanFields(s: Scanner, fields: seq<string>, quoted: seq<bool>, rest: string, d: char)
    requires !s.inQuotes && s.field == "" && IsDelimiter(d)
    requires fields != [] && Printable(Line(fields, quoted, false), d)
    requires rest == "" || rest[0] != '"'
    ensures Scan(s, PrintFields(fields, quoted, d) + rest, [d]) == Scan(AfterFields(s, fields), rest, [d])
    decreases |fields|
  {
    hide Scan;
    hide NeedsQuotes;
    if |fields| == 1 {
      ScanField(s, fields[0], quoted[0], rest, d);
      assert s.row + fields[..0] == s.row;
    } else {
      hide PrintFields;
      hide AfterFields;
      var tail := PrintFields(fields[1..], quoted[1..], d) + rest;
      FirstField(fields, quoted, rest, d);
      ScanField(s, fields[0], quoted[0], [d] + tail, d);
      ScanDelimiter(s.(field := fields[0]), tail, d);
      ScanFields(s.(row := s.row + [fields[0]]), fields[1..], quoted[1..], rest, d);
      AfterFirst(s, fields);
    }
  }

  lemma ScanLineEnd(s: Scanner, crlf: bool, rest: string, d: char)
    requires !s.inQuotes && IsDelimiter(d)
    ensures Scan(s, LineEnd(crlf) + rest, [d])
         == Scan(Scanner("", [], s.rows + [s.row + [s.field]], false), rest, [d])
  {
    if crlf {
      assert (LineEnd(crlf) + rest)[1..] == "\n" + rest;
    }
    assert ("\n" + rest)[1..] == rest;
  }

  function OneRow(fields: seq<string>): seq<string> {
    if fields == [] then [""] else fields
  }

  lemma ScanLine(rows: seq<seq<string>>, line: Line, rest: string, d: char)
    requires Printable(line, d) && IsDelimiter(d)
    ensures Scan(Scanner("", [], rows, false),
                 PrintFields(line.fields, line.quoted, d) + LineEnd(line.crlf) + rest, [d])
         == Scan(Scanner("", [], rows + [OneRow(line.fields)], false), rest, [d])
  {
    var s := Scanner("", [], rows, false);
    var fs, after := line.fields, LineEnd(line.crlf) + rest;
    var text := PrintFields(fs, line.quoted, d) + LineEnd(line.crlf) + rest;
    assert text == PrintFields(fs, line.quoted, d) + after;
    if fs == [] {
      assert text == after;
      assert s.row + [s.field] == [""];
      ScanLineEnd(s, line.crlf, rest, d);
    } else {
      ScanFields(s, fs, line.quoted, after, d);
      ScanLineEnd(s.(row := s.row + fs[..|fs| - 1], field := fs[|fs| - 1]), line.crlf, rest, d);
      assert [] + fs[..|fs| - 1] + [fs[|fs| - 1]] == fs;
    }
  }

  lemma {:induction false} DropBlankAppend(a: seq<seq<string>>, b: seq<seq<string>>)
    ensures DropBlank(a + b) == DropBlank(a) + DropBlank(b)
    decreases |b|
  {
    if b == [] {
      assert a + b == a;
    } else {
      assert (a + b)[..|a + b| - 1] == a + b[..|b| - 1];
      DropBlankAppend(a, b[..|b| - 1]);
    }
  }

  lemma DropBlankOne(row: seq<string>)
    ensures DropBlank([row]) == if IsBlank(row) then [] else [row]
  {
    assert [row][..0] == [];
  }

  lemma NoFields(quoted: seq<bool>, d: char)
    requires quoted == []
    ensures PrintFields([], quoted, d) == ""
  {
  }

  lemma FinishFields(rows: seq<seq<string>>, fs: seq<string>)
    requires fs != []
    ensures DropBlank(Finish(AfterFields(Scanner("", [], rows, false), fs))) == DropBlank(rows) + DropBlank([fs])
  {
    hide DropBlank;
    DropBlankAppend(rows, [fs]);
    DropBlankOne(fs);
    assert [] + fs[..|fs| - 1] + [fs[|fs| - 1]] == fs;
    assert DropBlank(rows) + [] == DropBlank(rows);
  }

  lemma LastLine(rows: seq<seq<string>>, line: Line, d: char)
    requires Printable(line, d) && IsDelimiter(d)
    ensures DropBlank(Finish(Scan(Scanner("", [], rows, false), PrintFields(line.fields, line.quoted, d), [d])))
         == DropBlank(rows) + DropBlank([line.fields])
  {
    hide DropBlank;
    hide PrintFields;
    var s, fs := Scanner("", [], rows, false), line.fields;
    DropBlankAppend(rows, [fs]);
    DropBlankOne(fs);
    assert PrintFields(fs, line.quoted, d) + "" == PrintFields(fs, line.quoted, d);
    if fs != [] {
      ScanFields(s, fs, line.quoted, "", d);
      assert [] + fs[..|fs| - 1] + [fs[|fs| - 1]] == fs;
      FinishFields(rows, fs);
    } else {
      NoFields(line.quoted, d);
    }
  }

  lemma {:induction false} ScanPrinted(rows: seq<seq<string>>, lines: seq<Line>, d: char, finalNewline: bool)
    requires IsDelimiter(d) && AllPrintable(lines, d)
    ensures DropBlank(Finish(Scan(Scanner("", [], rows, false), Print(lines, d, finalNewline), [d])))
         == DropBlank(rows) + DropBlank(Rows(lines))
    decreases |lines|
  {
    hide Scan;
    hide PrintFields;
    hide LineEnd;
    hide DropBlank;
    hide OneRow;
    hide Finish;
    if lines == [] {
      ScanNothing(rows, d);
    } else {
      DropBlankAppend([lines[0].fields], Rows(lines[1..]));
      if |lines| == 1 && !finalNewline {
        LastLine(rows, lines[0], d);
        assert Rows(lines) == [lines[0].fields];
      } else {
        ScanLine(rows, lines[0], Print(lines[1..], d, finalNewline), d);
        ScanPrinted(rows + [OneRow(lines[0].fields)], lines[1..], d, finalNewline);
        BlankOrNot(rows, lines[0].fields);
        assert Print(lines, d, finalNewline) == PrintFields(lines[0].fields, lines[0].quoted, d)
          + LineEnd(lines[0].crlf) + Print(lines[1..], d, finalNewline);
      }
    }
  }

  lemma BlankOrNot(rows: seq<seq<string>>, fields: seq<string>)
    ensures DropBlank(rows + [OneRow(fields)]) == DropBlank(rows) + DropBlank([fields])
  {
    DropBlankAppend(rows, [OneRow(fields)]);
    DropBlankOne(OneRow(fields));
    DropBlankOne(fields);
  }

  lemma ScanNothing(rows: seq<seq<string>>, d: char)
    ensures DropBlank(Finish(Scan(Scanner("", [], rows, false), "", [d]))) == DropBlank(rows) + DropBlank([])
  {
  }

  /** Scanning an RFC 4180 printing gives back exactly the rows that are not blank, whatever the
      quoting, the line endings and the last newline. */
  lemma ParsePrinted(lines: seq<Line>, d: char, finalNewline: bool)
    requires IsDelimiter(d) && AllPrintable(lines, d)
    ensures Parsed(Print(lines, d, finalNewline), [d]) == DropBlank(Rows(lines))
  {
    ScanPrinted([], lines, d, finalNewline);
  }

  lemma {:induction false} DropBlankLength(rows: seq<seq<string>>)
    ensures |DropBlank(rows)| <= |rows|
    ensures DropBlank(rows) == rows <==> forall i :: 0 <= i < |rows| ==> !IsBlank(rows[i])
    ensures forall row :: row in DropBlank(rows) ==> !IsBlank(row) && row in rows
  {
    if rows != [] {
      DropBlankLength(rows[..|rows| - 1]);
      assert rows == rows[..|rows| - 1] + [rows[|rows| - 1]];
    }
  }

  /** The round trip holds exactly for tables without a blank row: no row without fields and no
      row that is a single empty field. */
  lemma RoundTripIff(lines: seq<Line>, d: char, finalNewline: bool)
    requires IsDelimiter(d) && AllPrintable(lines, d)
    ensures Parsed(Print(lines, d, finalNewline), [d]) == Rows(lines)
       <==> forall i :: 0 <= i < |lines| ==> !IsBlank(lines[i].fields)
  {
    ParsePrinted(lines, d, finalNewline);
    DropBlankLength(Rows(lines));
  }

  // ---- Records ---------------------------------------------------------------------------

  /** A record key: a header name, or a column position when there is no header. */
  datatype FieldKey = Named(name: string) | Column(index: nat)

  type Row = map<FieldKey, string>

  /** A record from the first `n` header cells: a repeated name keeps its last cell, a missing
      cell is empty, and cells beyond the header are dropped. */
  function Record(header: seq<string>, row: seq<string>, n: nat): Row
    requires n <= |header|
  {
    if n == 0 then map[]
    else Record(header, row, n - 1)[Named(Trim(header[n - 1])) := if n <= |row| then row[n - 1] else ""]
  }

  function Positional(row: seq<string>): Row {
    map i: nat | i < |row| :: Column(i) := row[i]
  }

  function ExtractCsv(text: string, delimiter: string, hasHeader: bool): seq<Row> {
    var rows := Parsed(text, delimiter);
    if rows == [] then []
    else if hasHeader then
      seq(|rows| - 1, i requires 0 <= i < |rows| - 1 => Record(rows[0], rows[i + 1], |rows[0]|))
    else
      seq(|rows|, i requires 0 <= i < |rows| => Positional(rows[i]))
  }

  predicate DistinctNames(header: seq<string>) {
    forall i, j :: 0 <= i < j < |header| ==> Trim(header[i]) != Trim(header[j])
  }

  lemma {:induction false} RecordCells(header: seq<string>, row: seq<string>, n: nat)
    requires n <= |header| && DistinctNames(header)
    ensures forall k :: k in Record(header, row, n) <==> exists j :: 0 <= j < n && k == Named(Trim(header[j]))
    ensures forall j :: 0 <= j < n ==>
              && Named(Trim(header[j])) in Record(header, row, n)
              && Record(header, row, n)[Named(Trim(header[j]))] == if j < |row| then row[j] else ""
  {
    hide Trim;
    if n > 0 { RecordCells(header, row, n - 1); }
  }

  /** A printed table with a header of distinct names comes back as one record per data row,
      each holding exactly the header's names with that row's cells. */
  lemma ExtractPrinted(header: Line, body: seq<Line>, d: char, finalNewline: bool, i: nat, j: nat)
    requires IsDelimiter(d) && AllPrintable([header] + body, d)
    requires !IsBlank(header.fields) && DistinctNames(header.fields)
    requires forall line :: line in body ==> !IsBlank(line.fields)
    requires i < |body| && j < |header.fields|
    ensures
      var records := ExtractCsv(Print([header] + body, d, finalNewline), [d], true);
      var name := Named(Trim(header.fields[j]));
      && |records| == |body|
      && (forall k :: k in records[i] ==> exists m :: 0 <= m < |header.fields| && k == Named(Trim(header.fields[m])))
      && name in records[i]
      && records[i][name] == if j < |body[i].fields| then body[i].fields[j] else ""
  {
    hide *;
    var lines := [header] + body;
    RoundTripIff(lines, d, finalNewline);
    forall m | 0 <= m < |lines| ensures !IsBlank(lines[m].fields) {
      assert m > 0 ==> lines[m] == body[m - 1] && body[m - 1] in body;
    }
    var rows := Rows(lines);
    assert rows[0] == header.fields && rows[i + 1] == lines[i + 1].fields == body[i].fields;
    RecordCells(header.fields, body[i].fields, |header.fields|);
    RecordPerRow(Print(lines, d, finalNewline), [d], i);
  }

  lemma RecordPerRow(text: string, delimiter: string, i: nat)
    requires i + 1 < |Parsed(text, delimiter)|
    ensures
      var rows, records := Parsed(text, delimiter), ExtractCsv(text, delimiter, true);
      |records| == |rows| - 1 && records[i] == Record(rows[0], rows[i + 1], |rows[0]|)
  {
    hide Parsed;
    hide Record;
  }
}
