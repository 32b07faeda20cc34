/** The CSV reader of the grid importer, against the grammar of RFC 4180, section 2. */
module Csv {

  type Grid = seq<seq<string>>

  // ----- the reader -----

  /** The white space String.trim removes. */
  predicate IsSpace(c: char) {
    || '\t' <= c <= '\r' || c == ' ' || c == '\U{a0}' || c == '\U{1680}' || '\U{2000}' <= c <= '\U{200a}'
    || c in {'\U{2028}', '\U{2029}', '\U{202f}', '\U{205f}', '\U{3000}', '\U{feff}'}
  }

  predicate Blank(cell: string) {
    forall k :: 0 <= k < |cell| ==> IsSpace(cell[k])
  }

  predicate AllBlank(row: seq<string>) {
    forall k :: 0 <= k < |row| ==> Blank(row[k])
  }

  /** rows.push(row), unless every cell of it is blank. */
  function Push(rows: Grid, row: seq<string>): Grid {
    if AllBlank(row) then rows else rows + [row]
  }

  /** What the reader makes of the rest of a text, given the finished rows, the finished cells
      of the current row, the current cell so far, and whether it is inside quotes. */
  function Read(text: string, rows: Grid, row: seq<string>, field: string, quoted: bool): Grid
    decreases |text|
  {
    if text == "" then Push(rows, row + [field])
    else
      var ch, rest := text[0], text[1..];
      if quoted then
        if ch != '"' then Read(rest, rows, row, field + [ch], true)
        else if rest != "" && rest[0] == '"' then Read(rest[1..], rows, row, field + "\"", true)
        else Read(rest, rows, row, field, false)
      else if ch == '"' then Read(rest, rows, row, field, true)
      else if ch == ',' then Read(rest, rows, row + [field], "", false)
      else if ch == '\r' && rest != "" && rest[0] == '\n' then Read(rest[1..], Push(rows, row + [field]), [], "", false)
      else if ch == '\n' || ch == '\r' then Read(rest, Push(rows, row + [field]), [], "", false)
      else Read(rest, rows, row, field + [ch], false)
  }

  method ParseCsv(text: string) returns (rows: Grid)
    ensures rows == Read(text, [], [], "", false)
  {
    rows := [];
    var row: seq<string>, field, quoted := [], "", false;
    var i := 0;
    while i < |text|
      invariant i <= |text|
      invariant Read(text[i..], rows, row, field, quoted) == Read(text, [], [], "", false)
    {
      var ch := text[i];
      assert text[i..][1..] == text[i + 1..];
      assert i + 1 < |text| ==> text[i + 1..][1..] == text[i + 2..];
      if quoted {
        if ch == '"' {
          if i + 1 < |text| && text[i + 1] == '"' {
            field := field + "\"";
            i := i + 1;
          } else {
            quoted := false;
          }
        } else {
          field := field + [ch];
        }
      } else if ch == '"' {
        quoted := true;
      } else if ch == ',' {
        row, field := row + [field], "";
      } else if ch == '\n' || ch == '\r' {
        if ch == '\r' && i + 1 < |text| && text[i + 1] == '\n' {
          i := i + 1;
        }
        row, field := row + [field], "";
        if !AllBlank(row) {
          rows := rows + [row];
        }
        row := [];
      } else {
        field := field + [ch];
      }
      i := i + 1;
    }
    row := row + [field];
    if !AllBlank(row) {
      rows := rows + [row];
    }
  }

  // ----- every way to write a grid -----

  /** A field is written bare, which it can be without quotes, commas and line breaks in it,
      or quoted, with its quotes doubled. */
  datatype Cell = Bare(text: string) | Quoted(text: string)

  datatype Eol = LF | CRLF

  type Record = cells: seq<Cell> | cells != [] witness [Bare("")]

  /** A record and the line break after it. */
  datatype Line = Line(cells: Record, eol: Eol)

  predicate Special(c: char) {
    c in {'"', ',', '\r', '\n'}
  }

  predicate CellWritable(c: Cell) {
    c.Bare? ==> forall k :: 0 <= k < |c.text| ==> !Special(c.text[k])
  }

  predicate Writable(line: Line) {
    forall i :: 0 <= i < |line.cells| ==> CellWritable(line.cells[i])
  }

  function DoubleChar(c: char): string {
    if c == '"' then "\"\"" else [c]
  }

  function Doubled(s: string): string {
    if s == "" then "" else DoubleChar(s[0]) + Doubled(s[1..])
  }

  function WriteCell(c: Cell): string {
    if c.Bare? then c.text else "\"" + (Doubled(c.text) + "\"")
  }

  function WriteCells(cells: Record): string
  {
    if |cells| == 1 then WriteCell(cells[0]) else WriteCell(cells[0]) + ("," + WriteCells(cells[1..]))
  }

  function WriteEol(eol: Eol): string {
    if eol.LF? then "\n" else "\r\n"
  }

  /** The last record's line break may be left off. */
  function Write(lines: seq<Line>, finalBreak: bool): string {
    if lines == [] then ""
    else if |lines| == 1 && !finalBreak then WriteCells(lines[0].cells)
    else WriteCells(lines[0].cells) + (WriteEol(lines[0].eol) + Write(lines[1..], finalBreak))
  }

  function Texts(cells: seq<Cell>): seq<string> {
    if cells == [] then [] else [cells[0].text] + Texts(cells[1..])
  }

  /** The grid a text was written from, without its all-blank rows. */
  function Kept(lines: seq<Line>): Grid {
    if lines == [] then []
    else (if AllBlank(Texts(lines[0].cells)) then [] else [Texts(lines[0].cells)]) + Kept(lines[1..])
  }

  // ----- reading back -----

  lemma ReadPlainChar(c: char, rest: string, rows: Grid, row: seq<string>, field: string)
    requires !Special(c)
    ensures Read([c] + rest, rows, row, field, false) == Read(rest, rows, row, field + [c], false)
  {
    assert ([c] + rest)[1..] == rest;
  }

  lemma ReadQuotedChar(c: char, rest: string, rows: Grid, row: seq<string>, field: string)
    ensures Read(DoubleChar(c) + rest, rows, row, field, true) == Read(rest, rows, row, field + [c], true)
  {
    var text := DoubleChar(c) + rest;
    if c == '"' {
      assert text[0] == '"' && text[1] == '"' && text[1..][1..] == rest;
    } else {
      assert text[0] == c && text[1..] == rest;
    }
  }

  lemma ReadOpening(rest: string, rows: Grid, row: seq<string>, field: string)
    ensures Read("\"" + rest, rows, row, field, false) == Read(rest, rows, row, field, true)
  {
    assert ("\"" + rest)[1..] == rest;
  }

  lemma ReadClosing(rest: string, rows: Grid, row: seq<string>, field: string)
    requires rest == "" || rest[0] != '"'
    ensures Read("\"" + rest, rows, row, field, true) == Read(rest, rows, row, field, false)
  {
    assert ("\"" + rest)[1..] == rest;
  }

  lemma ReadComma(rest: string, rows: Grid, row: seq<string>, field: string)
    ensures Read("," + rest, rows, row, field, false) == Read(rest, rows, row + [field], "", false)
  {
    assert ("," + rest)[1..] == rest;
  }

  lemma ReadEol(eol: Eol, rest: string, rows: Grid, row: seq<string>, field: string)
    ensures Read(WriteEol(eol) + rest, rows, row, field, false) == Read(rest, Push(rows, row + [field]), [], "", false)
  {
    var text := WriteEol(eol) + rest;
    if eol.LF? {
      assert text[1..] == rest;
    } else {
      assert text[1] == '\n' && text[1..][1..] == rest;
    }
  }

  lemma {:induction false} ReadBare(s: string, rest: string, rows: Grid, row: seq<string>, field: string)
    requires forall k :: 0 <= k < |s| ==> !Special(s[k])
    ensures Read(s + rest, rows, row, field, false) == Read(rest, rows, row, field + s, false)
  {
    hide Read, Special;
    if s == "" {
      assert s + rest == rest && field + s == field;
    } else {
      ReadPlainChar(s[0], s[1..] + rest, rows, row, field);
      ReadBare(s[1..], rest, rows, row, field + [s[0]]);
      assert s + rest == [s[0]] + (s[1..] + rest);
      assert (field + [s[0]]) + s[1..] == field + s;
    }
  }

  lemma Associative(a: string, b: string, c: string)
    ensures (a + b) + c == a + (b + c)
  {
  }

  lemma FieldGrows(field: string, s: string)
    requires s != ""
    ensures (field + [s[0]]) + s[1..] == field + s
  {
  }

  lemma NothingQuoted(rest: string, rows: Grid, row: seq<string>, field: string)
    requires rest == "" || rest[0] != '"'
    ensures Read(Doubled("") + ("\"" + rest), rows, row, field, true) == Read(rest, rows, row, field + "", false)
  {
    ReadClosing(rest, rows, row, field);
    assert Doubled("") + ("\"" + rest) == "\"" + rest && field + "" == field;
  }

  lemma {:induction false} ReadQuoted(s: string, rest: string, rows: Grid, row: seq<string>, field: string)
    requires rest == "" || rest[0] != '"'
    ensures Read(Doubled(s) + ("\"" + rest), rows, row, field, true) == Read(rest, rows, row, field + s, false)
  {
    hide Read, DoubleChar;
    if s == "" {
      NothingQuoted(rest, rows, row, field);
    } else {
      var tail := Doubled(s[1..]) + ("\"" + rest);
      Associative(DoubleChar(s[0]), Doubled(s[1..]), "\"" + rest);
      ReadQuotedChar(s[0], tail, rows, row, field);
      ReadQuoted(s[1..], rest, rows, row, field + [s[0]]);
      FieldGrows(field, s);
    }
  }

  lemma ReadCell(c: Cell, rest: string, rows: Grid, row: seq<string>)
    requires CellWritable(c) && (rest == "" || rest[0] != '"')
    ensures Read(WriteCell(c) + rest, rows, row, "", false) == Read(rest, rows, row, c.text, false)
  {
    hide Read, Special;
    assert "" + c.text == c.text;
    if c.Bare? {
      ReadBare(c.text, rest, rows, row, "");
    } else {
      ReadOpening(Doubled(c.text) + ("\"" + rest), rows, row, "");
      ReadQuoted(c.text, rest, rows, row, "");
      assert WriteCell(c) + rest == "\"" + (Doubled(c.text) + ("\"" + rest));
    }
  }

  /** A record ends with its last cell still open. */
  lemma {:induction false} ReadCells(cells: Record, rest: string, rows: Grid, row: seq<string>)
    requires (forall i :: 0 <= i < |cells| ==> CellWritable(cells[i])) && (rest == "" || rest[0] in {'\r', '\n'})
    ensures var t := Texts(cells);
            t != [] && Read(WriteCells(cells) + rest, rows, row, "", false)
                       == Read(rest, rows, row + t[..|t| - 1], t[|t| - 1], false)
  {
    hide Read, CellWritable, WriteCell;
    if |cells| == 1 {
      ReadCell(cells[0], rest, rows, row);
      assert cells[1..] == [] && Texts(cells) == [cells[0].text] && row + Texts(cells)[..0] == row;
    } else {
      var more := WriteCells(cells[1..]) + rest;
      assert WriteCells(cells) + rest == WriteCell(cells[0]) + ("," + more);
      ReadCell(cells[0], "," + more, rows, row);
      ReadComma(more, rows, row, cells[0].text);
      ReadCells(cells[1..], rest, rows, row + [cells[0].text]);
      var t, u := Texts(cells), Texts(cells[1..]);
      assert (row + [cells[0].text]) + u[..|u| - 1] == row + t[..|t| - 1];
    }
  }

  lemma ReadLine(line: Line, rest: string, rows: Grid)
    requires Writable(line)
    ensures Read(WriteCells(line.cells) + (WriteEol(line.eol) + rest), rows, [], "", false)
         == Read(rest, Push(rows, Texts(line.cells)), [], "", false)
    ensures Read(WriteCells(line.cells), rows, [], "", false) == Push(rows, Texts(line.cells))
  {
    hide Push, AllBlank, CellWritable;
    var t := Texts(line.cells);
    ReadCells(line.cells, WriteEol(line.eol) + rest, rows, []);
    ReadCells(line.cells, "", rows, []);
    var before, last := [] + t[..|t| - 1], t[|t| - 1];
    assert before + [last] == t;
    ReadEol(line.eol, rest, rows, before, last);
    assert WriteCells(line.cells) + "" == WriteCells(line.cells);
  }

  /** The rows kept so far, and the next line. */
  lemma KeptMore(rows: Grid, lines: seq<Line>)
    requires lines != []
    ensures rows + Kept(lines) == Push(rows, Texts(lines[0].cells)) + Kept(lines[1..])
    ensures |lines| == 1 ==> rows + Kept(lines) == Push(rows, Texts(lines[0].cells))
  {
    hide AllBlank, Texts;
    assert |lines| == 1 ==> Kept(lines[1..]) == [];
  }

  lemma {:induction false} ReadLines(lines: seq<Line>, finalBreak: bool, rows: Grid)
    requires forall i :: 0 <= i < |lines| ==> Writable(lines[i])
    ensures Read(Write(lines, finalBreak), rows, [], "", false) == rows + Kept(lines)
    decreases |lines|
  {
    hide Read, Writable, Push, AllBlank, Texts, WriteCells, WriteEol;
    if lines == [] {
      NothingLeft(rows);
    } else {
      ReadLine(lines[0], Write(lines[1..], finalBreak), rows);
      KeptMore(rows, lines);
      if |lines| > 1 || finalBreak {
        ReadLines(lines[1..], finalBreak, Push(rows, Texts(lines[0].cells)));
      }
    }
  }

  lemma NothingLeft(rows: Grid)
    ensures Read("", rows, [], "", false) == rows == rows + []
  {
    assert [] + [""] == [""] && AllBlank([""]);
  }

  /** However a grid is written, quoting where it must or where it likes, with either line
      break on every line and with or without a last one, the reader gives the grid back,
      except for rows without a visible character. */
  lemma ReadInvertsWrite(lines: seq<Line>, finalBreak: bool)
    requires forall i :: 0 <= i < |lines| ==> Writable(lines[i])
    ensures Read(Write(lines, finalBreak), [], [], "", false) == Kept(lines)
  {
    ReadLines(lines, finalBreak, []);
    assert [] + Kept(lines) == Kept(lines);
  }
}
