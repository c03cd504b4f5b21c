/** The cases of `test_parsers.py`, stated about the models of the two text parsers. */
module ParserTests {
  import opened Wrappers
  import opened Rows
  import FixedParser
  import DelimitedParser

  /** FixedParserTest.testValid: widths 5, 4, 10 slice one record without trimming. */
  lemma FixedValid()
    ensures FixedParser.Parse("38000 123Doe       ", [5, 4, 10]) == ParseResult([["38000", " 123", "Doe       "]], None)
  {
    var s := "38000 123Doe       ";
    assert FixedParser.Total([5, 4, 10]) == 19;
    assert s[..19] == s;
    assert s[..5] == "38000" && s[5..] == " 123Doe       ";
    assert s[5..][..4] == " 123" && s[5..][4..] == "Doe       ";
    assert s[5..][4..][..10] == "Doe       " && s[5..][4..][10..] == "";
    assert [5, 4, 10][1..] == [4, 10] && [4, 10][1..] == [10] && [10][1..] == [];
    assert s[19..] == "";
    assert FixedParser.SliceItems(s, [5, 4, 10]) == ["38000", " 123", "Doe       "];
    assert FixedParser.Parse(s[19..], [5, 4, 10]) == ParseResult([], None);
  }

  /** FixedParserTest.testEmpty: no input, no rows. */
  lemma FixedEmpty()
    ensures FixedParser.Parse("", [5, 4, 10]) == ParseResult([], None)
  {
  }

  /** FixedParserTest.testBrokenEndingTooSoon: a record shorter than 19 characters is a
      syntax error and yields no row. */
  lemma FixedBrokenEndingTooSoon()
    ensures FixedParser.Parse("38000 123Doe  ", [5, 4, 10]).failure.Some?
    ensures FixedParser.Parse("38000 123Doe  ", [5, 4, 10]).rows == []
  {
    assert FixedParser.Total([5, 4, 10]) == 19;
  }
  /** `DelimitedParserTest._createDefaultDialect`: LF, comma, double quote. */
  function DefaultDialect(): DelimitedParser.Dialect {
    DelimitedParser.Dialect(DelimitedParser.Lf, DelimitedParser.ItemChar(','), '"', '"')
  }

  function Csv(s: string): ParseResult {
    DelimitedParser.Parse(s, DefaultDialect())
  }

  function Bare(text: string): Cell {
    DelimitedParser.Cell(text, false)
  }

  function InQuotes(text: string): Cell {
    DelimitedParser.Cell(text, true)
  }

  type Cell = DelimitedParser.Cell
  type Format = DelimitedParser.Format

  /* The cases are proved by writing the expected rows with the default settings and reading
     them back (`DelimitedParser.ParseWrite`). The facts about the written lines and tables are
     built up cell by cell and line by line, with the settings given by their fields. */

  /** Settings with the given delimiters and the double quote as quote and escape character. */
  predicate Settings(f: Format, line: string, item: char) {
    f.line == line && f.item == item && f.quote == '"' && f.escape == '"'
  }

  /** The settings `DefaultDialect` resolves to. */
  predicate IsDefault(f: Format) {
    Settings(f, "\n", ',')
  }

  predicate LineFacts(cells: seq<Cell>, text: string, items: Row, f: Format)
    requires |f.line| > 0
  {
    && DelimitedParser.WriteLine(cells, f) == text
    && DelimitedParser.Texts(cells) == items
    && AllReadable(cells, f)
  }

  predicate AllReadable(cells: seq<Cell>, f: Format)
    requires |f.line| > 0
  {
    cells != [] ==> DelimitedParser.Readable(cells[0], f) && AllReadable(cells[1..], f)
  }

  lemma {:induction false} AllReadableCells(cells: seq<Cell>, f: Format)
    requires |f.line| > 0 && AllReadable(cells, f)
    ensures forall k :: 0 <= k < |cells| ==> DelimitedParser.Readable(cells[k], f)
    decreases |cells|
  {
    if cells != [] {
      AllReadableCells(cells[1..], f);
      assert forall k :: 1 <= k < |cells| ==> cells[k] == cells[1..][k - 1];
    }
  }

  lemma {:induction false} AllReadableAppend(a: seq<Cell>, b: seq<Cell>, f: Format)
    requires |f.line| > 0 && AllReadable(a, f) && AllReadable(b, f)
    ensures AllReadable(a + b, f)
    decreases |a|
  {
    if a != [] {
      AllReadableAppend(a[1..], b, f);
      assert (a + b)[0] == a[0];
      assert (a + b)[1..] == a[1..] + b;
    } else {
      assert a + b == b;
    }
  }

  lemma {:induction false} WriteLineAppend(a: seq<Cell>, b: seq<Cell>, f: Format)
    requires a != [] && b != []
    ensures DelimitedParser.WriteLine(a + b, f) == DelimitedParser.WriteLine(a, f) + ([f.item] + DelimitedParser.WriteLine(b, f))
    decreases |a|
  {
    var w := DelimitedParser.WriteCell(a[0], f);
    assert (a + b)[0] == a[0];
    assert |a + b| > 1;
    if |a| == 1 {
      assert (a + b)[1..] == b;
    } else {
      WriteLineAppend(a[1..], b, f);
      assert (a + b)[1..] == a[1..] + b;
      var x := DelimitedParser.WriteLine(a[1..], f);
      var y := DelimitedParser.WriteLine(b, f);
      assert w + ([f.item] + (x + ([f.item] + y))) == (w + ([f.item] + x)) + ([f.item] + y);
    }
  }

  lemma {:induction false} TextsAppend(a: seq<Cell>, b: seq<Cell>)
    ensures DelimitedParser.Texts(a + b) == DelimitedParser.Texts(a) + DelimitedParser.Texts(b)
    decreases |a|
  {
    if a == [] {
      assert a + b == b;
    } else {
      TextsAppend(a[1..], b);
      assert (a + b)[0] == a[0];
      assert (a + b)[1..] == a[1..] + b;
    }
  }

  predicate TableFacts(table: seq<seq<Cell>>, text: string, rows: seq<Row>, f: Format)
    requires |f.line| > 0
  {
    && DelimitedParser.Write(table, f) == text
    && DelimitedParser.Content(table) == rows
    && DelimitedParser.Representable(table, f)
  }

  /** A long concatenation of literals, checked in two halves. */
  lemma Glue(x: string, sep: string, r1: string, n1: string, n2: string, r: string, n: string)
    requires x + (sep + r1) == n1 && r == r1 + n2 && n == n1 + n2
    ensures x + (sep + r) == n
  {
    assert x + (sep + r) == (x + (sep + r1)) + n2;
  }

  /** An item without quote characters is written unchanged inside its quotes. */
  lemma QuotedCell(item: string, text: string, f: Format)
    requires f.quote == '"' && f.escape == '"'
    requires forall k :: 0 <= k < |item| ==> item[k] != '"'
    requires text == "\"" + item + "\""
    ensures DelimitedParser.WriteCell(InQuotes(item), f) == text
  {
    EscapedPlain(item, f);
  }

  lemma {:induction false} EscapedPlain(item: string, f: Format)
    requires forall k :: 0 <= k < |item| ==> item[k] != f.quote
    ensures DelimitedParser.Escaped(item, f) == item
    decreases |item|
  {
    if item != [] {
      EscapedPlain(item[1..], f);
      assert item == [item[0]] + item[1..];
    }
  }

  lemma EmptyLine(f: Format) returns (line: seq<Cell>)
    requires |f.line| > 0
    ensures LineFacts(line, "", [], f) && line == []
  {
    line := [];
  }

  lemma LineOne(c: Cell, text: string, f: Format) returns (line: seq<Cell>)
    requires |f.line| > 0
    requires DelimitedParser.Readable(c, f) && DelimitedParser.WriteCell(c, f) == text
    ensures LineFacts(line, text, [c.text], f) && line != []
  {
    line := [c];
  }

  lemma LineCons(c: Cell, cells: seq<Cell>, text: string, rest: string, items: Row, f: Format) returns (line: seq<Cell>)
    requires |f.line| > 0
    requires DelimitedParser.Readable(c, f) && DelimitedParser.WriteCell(c, f) == text
    requires cells != [] && LineFacts(cells, rest, items, f)
    ensures LineFacts(line, text + ([f.item] + rest), [c.text] + items, f) && line != []
  {
    line := [c] + cells;
    assert line[1..] == cells;
  }

  lemma LineJoin(first: seq<Cell>, text: string, items: Row, second: seq<Cell>, restText: string, rest: Row, f: Format)
    returns (line: seq<Cell>)
    requires |f.line| > 0
    requires first != [] && LineFacts(first, text, items, f)
    requires second != [] && LineFacts(second, restText, rest, f)
    ensures LineFacts(line, text + ([f.item] + restText), items + rest, f) && line != []
  {
    line := first + second;
    WriteLineAppend(first, second, f);
    TextsAppend(first, second);
    AllReadableAppend(first, second, f);
  }

  lemma TableOne(line: seq<Cell>, text: string, items: Row, f: Format) returns (table: seq<seq<Cell>>)
    requires |f.line| > 0
    requires LineFacts(line, text, items, f) && text != []
    ensures TableFacts(table, text, [items], f) && table != []
  {
    table := [line];
    AllReadableCells(line, f);
  }

  lemma TableCons(line: seq<Cell>, items: Row, rest: seq<seq<Cell>>, text: string, restText: string, rows: seq<Row>, f: Format)
    returns (table: seq<seq<Cell>>)
    requires |f.line| > 0
    requires LineFacts(line, text, items, f) && (line == [] || text != [])
    requires rest != [] && TableFacts(rest, restText, rows, f)
    ensures TableFacts(table, text + (f.line + restText), [items] + rows, f) && table != []
  {
    table := [line] + rest;
    assert table[1..] == rest;
    assert DelimitedParser.Write(table, f) == text + (f.line + restText);
    assert DelimitedParser.Content(table) == [items] + rows;
    AllReadableCells(line, f);
    DelimitedParser.RepresentableCons(line, rest, f);
  }

  /** Settings known only by their fields. */
  lemma SettingsOf(line: string, item: char) returns (f: Format)
    ensures Settings(f, line, item)
  {
    f := DelimitedParser.Format(line, item, '"', '"');
  }

  /** `s` is the text of `table` and is read back as its content. */
  lemma CsvOfWritten(s: string, table: seq<seq<Cell>>, rows: seq<Row>, f: Format)
    requires IsDefault(f) && TableFacts(table, s, rows, f)
    ensures Csv(s) == ParseResult(rows, None)
  {
    assert DelimitedParser.DialectOf(f) == DefaultDialect();
    assert DelimitedParser.Writable(f);
    DelimitedParser.ParseWrite(table, f);
  }

  /** `testSingleCharCsv`. */
  lemma SingleChar()
    ensures Csv("x") == ParseResult([["x"]], None)
  {
    var f := SettingsOf("\n", ',');
    var l1 := LineOne(Bare("x"), "x", f);
    var table := TableOne(l1, "x", ["x"], f);
    CsvOfWritten("x", table, [["x"]], f);
  }

  lemma QuotedCommaLineCell3(f: Format) returns (line: seq<Cell>)
    requires Settings(f, "\n", ',')
    ensures LineFacts(line, "y", ["y"], f) && line != []
  {
    line := LineOne(Bare("y"), "y", f);
  }

  lemma QuotedCommaLineCell2Text()
    ensures "\",\"" + ("," + "y") == "\",\",y"
    ensures [","] + ["y"] == [",", "y"]
  {
  }

  lemma QuotedCommaLineCell2(f: Format, cells: seq<Cell>) returns (line: seq<Cell>)
    requires Settings(f, "\n", ',')
    requires LineFacts(cells, "y", ["y"], f) && cells != []
    ensures LineFacts(line, "\",\",y", [",", "y"], f) && line != []
  {
    QuotedCell(",", "\",\"", f);
    line := LineCons(InQuotes(","), cells, "\",\"", "y", ["y"], f);
    assert [f.item] == ",";
    QuotedCommaLineCell2Text();
  }

  lemma QuotedCommaLineCell1Text()
    ensures "x" + ("," + "\",\",y") == "x,\",\",y"
    ensures ["x"] + [",", "y"] == ["x", ",", "y"]
  {
  }

  lemma QuotedCommaLineCell1(f: Format, cells: seq<Cell>) returns (line: seq<Cell>)
    requires Settings(f, "\n", ',')
    requires LineFacts(cells, "\",\",y", [",", "y"], f) && cells != []
    ensures LineFacts(line, "x,\",\",y", ["x", ",", "y"], f) && line != []
  {
    line := LineCons(Bare("x"), cells, "x", "\",\",y", [",", "y"], f);
    assert [f.item] == ",";
    QuotedCommaLineCell1Text();
  }

  lemma QuotedCommaLine(f: Format) returns (line: seq<Cell>)
    requires Settings(f, "\n", ',')
    ensures LineFacts(line, "x,\",\",y", ["x", ",", "y"], f) && line != []
  {
    line := QuotedCommaLineCell3(f);
    line := QuotedCommaLineCell2(f, line);
    line := QuotedCommaLineCell1(f, line);
  }

  /** `testQuotedCommaCsv`. */
  lemma QuotedComma()
    ensures Csv("x,\",\",y") == ParseResult([["x", ",", "y"]], None)
  {
    var f := SettingsOf("\n", ',');
    var l1 := QuotedCommaLine(f);
    var table := TableOne(l1, "x,\",\",y", ["x", ",", "y"], f);
    CsvOfWritten("x,\",\",y", table, [["x", ",", "y"]], f);
  }

  lemma ItemDelimiterAtStartLineCell2(f: Format) returns (line: seq<Cell>)
    requires Settings(f, "\n", ',')
    ensures LineFacts(line, "x", ["x"], f) && line != []
  {
    line := LineOne(Bare("x"), "x", f);
  }

  lemma ItemDelimiterAtStartLineCell1Text()
    ensures "" + ("," + "x") == ",x"
    ensures [""] + ["x"] == ["", "x"]
  {
  }

  lemma ItemDelimiterAtStartLineCell1(f: Format, cells: seq<Cell>) returns (line: seq<Cell>)
    requires Settings(f, "\n", ',')
    requires LineFacts(cells, "x", ["x"], f) && cells != []
    ensures LineFacts(line, ",x", ["", "x"], f) && line != []
  {
    line := LineCons(Bare(""), cells, "", "x", ["x"], f);
    assert [f.item] == ",";
    ItemDelimiterAtStartLineCell1Text();
  }

  lemma ItemDelimiterAtStartLine(f: Format) returns (line: seq<Cell>)
    requires Settings(f, "\n", ',')
    ensures LineFacts(line, ",x", ["", "x"], f) && line != []
  {
    line := ItemDelimiterAtStartLineCell2(f);
    line := ItemDelimiterAtStartLineCell1(f, line);
  }

  /** `testItemDelimiterAtStartCsv`. */
  lemma ItemDelimiterAtStart()
    ensures Csv(",x") == ParseResult([["", "x"]], None)
  {
    var f := SettingsOf("\n", ',');
    var l1 := ItemDelimiterAtStartLine(f);
    var table := TableOne(l1, ",x", ["", "x"], f);
    CsvOfWritten(",x", table, [["", "x"]], f);
  }

  lemma SingleItemDelimiterLineCell2(f: Format) returns (line: seq<Cell>)
    requires Settings(f, "\n", ',')
    ensures LineFacts(line, "", [""], f) && line != []
  {
    line := LineOne(Bare(""), "", f);
  }

  lemma SingleItemDelimiterLineCell1Text()
    ensures "" + ("," + "") == ","
    ensures [""] + [""] == ["", ""]
  {
  }

  lemma SingleItemDelimiterLineCell1(f: Format, cells: seq<Cell>) returns (line: seq<Cell>)
    requires Settings(f, "\n", ',')
    requires LineFacts(cells, "", [""], f) && cells != []
    ensures LineFacts(line, ",", ["", ""], f) && line != []
  {
    line := LineCons(Bare(""), cells, "", "", [""], f);
    assert [f.item] == ",";
    SingleItemDelimiterLineCell1Text();
  }

  lemma SingleItemDelimiterLine(f: Format) returns (line: seq<Cell>)
    requires Settings(f, "\n", ',')
    ensures LineFacts(line, ",", ["", ""], f) && line != []
  {
    line := SingleItemDelimiterLineCell2(f);
    line := SingleItemDelimiterLineCell1(f, line);
  }

  /** `testSingleItemDelimiterCsv`. */
  lemma SingleItemDelimiter()
    ensures Csv(",") == ParseResult([["", ""]], None)
  {
    var f := SettingsOf("\n", ',');
    var l1 := SingleItemDelimiterLine(f);
    var table := TableOne(l1, ",", ["", ""], f);
    CsvOfWritten(",", table, [["", ""]], f);
  }

  lemma EmptyItemDelimiterBeforeLineDelimiterLine1Cell2(f: Format) returns (line: seq<Cell>)
    requires Settings(f, "\n", ',')
    ensures LineFacts(line, "", [""], f) && line != []
  {
    line := LineOne(Bare(""), "", f);
  }

  lemma EmptyItemDelimiterBeforeLineDelimiterLine1Cell1Text()
    ensures "" + ("," + "") == ","
    ensures [""] + [""] == ["", ""]
  {
  }

  lemma EmptyItemDelimiterBeforeLineDelimiterLine1Cell1(f: Format, cells: seq<Cell>) returns (line: seq<Cell>)
    requires Settings(f, "\n", ',')
    requires LineFacts(cells, "", [""], f) && cells != []
    ensures LineFacts(line, ",", ["", ""], f) && line != []
  {
    line := LineCons(Bare(""), cells, "", "", [""], f);
    assert [f.item] == ",";
    EmptyItemDelimiterBeforeLineDelimiterLine1Cell1Text();
  }

  lemma EmptyItemDelimiterBeforeLineDelimiterLine1(f: Format) returns (line: seq<Cell>)
    requires Settings(f, "\n", ',')
    ensures LineFacts(line, ",", ["", ""], f) && line != []
  {
    line := EmptyItemDelimiterBeforeLineDelimiterLine1Cell2(f);
    line := EmptyItemDelimiterBeforeLineDelimiterLine1Cell1(f, line);
  }

  lemma EmptyItemDelimiterBeforeLineDelimiterRows1Text()
    ensures "," + ("\n" + "x") == ",\nx"
    ensures [["", ""]] + [["x"]] == [["", ""], ["x"]]
  {
  }

  lemma EmptyItemDelimiterBeforeLineDelimiterRows1(f: Format, line: seq<Cell>, rest: seq<seq<Cell>>) returns (table: seq<seq<Cell>>)
    requires Settings(f, "\n", ',')
    requires LineFacts(line, ",", ["", ""], f)
    requires TableFacts(rest, "x", [["x"]], f) && rest != []
    ensures TableFacts(table, ",\nx", [["", ""], ["x"]], f) && table != []
  {
    table := TableCons(line, ["", ""], rest, ",", "x", [["x"]], f);
    EmptyItemDelimiterBeforeLineDelimiterRows1Text();
  }

  /** `testEmptyItemDelimiterBeforeLineDelimiterCsv`. */
  lemma EmptyItemDelimiterBeforeLineDelimiter()
    ensures Csv(",\nx") == ParseResult([["", ""], ["x"]], None)
  {
    var f := SettingsOf("\n", ',');
    var l1 := EmptyItemDelimiterBeforeLineDelimiterLine1(f);
    var l2 := LineOne(Bare("x"), "x", f);
    var table := TableOne(l2, "x", ["x"], f);
    table := EmptyItemDelimiterBeforeLineDelimiterRows1(f, l1, table);
    CsvOfWritten(",\nx", table, [["", ""], ["x"]], f);
  }

  lemma SingleQuotedCharLineCell1(f: Format) returns (line: seq<Cell>)
    requires Settings(f, "\n", ',')
    ensures LineFacts(line, "\"x\"", ["x"], f) && line != []
  {
    QuotedCell("x", "\"x\"", f);
    line := LineOne(InQuotes("x"), "\"x\"", f);
  }

  lemma SingleQuotedCharLine(f: Format) returns (line: seq<Cell>)
    requires Settings(f, "\n", ',')
    ensures LineFacts(line, "\"x\"", ["x"], f) && line != []
  {
    line := SingleQuotedCharLineCell1(f);
  }

  /** `testSingleQuotedCharCsv`. */
  lemma SingleQuotedChar()
    ensures Csv("\"x\"") == ParseResult([["x"]], None)
  {
    var f := SettingsOf("\n", ',');
    var l1 := SingleQuotedCharLine(f);
    var table := TableOne(l1, "\"x\"", ["x"], f);
    CsvOfWritten("\"x\"", table, [["x"]], f);
  }

  lemma SingleLineQuotedLineCell3(f: Format) returns (line: seq<Cell>)
    requires Settings(f, "\n", ',')
    ensures LineFacts(line, "\"here\"", ["here"], f) && line != []
  {
    QuotedCell("here", "\"here\"", f);
    line := LineOne(InQuotes("here"), "\"here\"", f);
  }

  lemma SingleLineQuotedLineCell2Text()
    ensures "\"was\"" + ("," + "\"here\"") == "\"was\",\"here\""
    ensures ["was"] + ["here"] == ["was", "here"]
  {
  }

  lemma SingleLineQuotedLineCell2(f: Format, cells: seq<Cell>) returns (line: seq<Cell>)
    requires Settings(f, "\n", ',')
    requires LineFacts(cells, "\"here\"", ["here"], f) && cells != []
    ensures LineFacts(line, "\"was\",\"here\"", ["was", "here"], f) && line != []
  {
    QuotedCell("was", "\"was\"", f);
    line := LineCons(InQuotes("was"), cells, "\"was\"", "\"here\"", ["here"], f);
    assert [f.item] == ",";
    SingleLineQuotedLineCell2Text();
  }

  lemma SingleLineQuotedLineCell1Text()
    ensures "\"hugo\"" + ("," + "\"was\",\"here\"") == "\"hugo\",\"was\",\"here\""
    ensures ["hugo"] + ["was", "here"] == ["hugo", "was", "here"]
  {
  }

  lemma SingleLineQuotedLineCell1(f: Format, cells: seq<Cell>) returns (line: seq<Cell>)
    requires Settings(f, "\n", ',')
    requires LineFacts(cells, "\"was\",\"here\"", ["was", "here"], f) && cells != []
    ensures LineFacts(line, "\"hugo\",\"was\",\"here\"", ["hugo", "was", "here"], f) && line != []
  {
    QuotedCell("hugo", "\"hugo\"", f);
    line := LineCons(InQuotes("hugo"), cells, "\"hugo\"", "\"was\",\"here\"", ["was", "here"], f);
    assert [f.item] == ",";
    SingleLineQuotedLineCell1Text();
  }

  lemma SingleLineQuotedLine(f: Format) returns (line: seq<Cell>)
    requires Settings(f, "\n", ',')
    ensures LineFacts(line, "\"hugo\",\"was\",\"here\"", ["hugo", "was", "here"], f) && line != []
  {
    line := SingleLineQuotedLineCell3(f);
    line := SingleLineQuotedLineCell2(f, line);
    line := SingleLineQuotedLineCell1(f, line);
  }

  /** `testSingleLineQuotedCsv`. */
  lemma SingleLineQuoted()
    ensures Csv("\"hugo\",\"was\",\"here\"") == ParseResult([["hugo", "was", "here"]], None)
  {
    var f := SettingsOf("\n", ',');
    var l1 := SingleLineQuotedLine(f);
    var table := TableOne(l1, "\"hugo\",\"was\",\"here\"", ["hugo", "was", "here"], f);
    CsvOfWritten("\"hugo\",\"was\",\"here\"", table, [["hugo", "was", "here"]], f);
  }

  lemma SingleLineLineCell3(f: Format) returns (line: seq<Cell>)
    requires Settings(f, "\n", ',')
    ensures LineFacts(line, "here", ["here"], f) && line != []
  {
    line := LineOne(Bare("here"), "here", f);
  }

  lemma SingleLineLineCell2Text()
    ensures "was" + ("," + "here") == "was,here"
    ensures ["was"] + ["here"] == ["was", "here"]
  {
  }

  lemma SingleLineLineCell2(f: Format, cells: seq<Cell>) returns (line: seq<Cell>)
    requires Settings(f, "\n", ',')
    requires LineFacts(cells, "here", ["here"], f) && cells != []
    ensures LineFacts(line, "was,here", ["was", "here"], f) && line != []
  {
    line := LineCons(Bare("was"), cells, "was", "here", ["here"], f);
    assert [f.item] == ",";
    SingleLineLineCell2Text();
  }

  lemma SingleLineLineCell1Text()
    ensures "hugo" + ("," + "was,here") == "hugo,was,here"
    ensures ["hugo"] + ["was", "here"] == ["hugo", "was", "here"]
  {
  }

  lemma SingleLineLineCell1(f: Format, cells: seq<Cell>) returns (line: seq<Cell>)
    requires Settings(f, "\n", ',')
    requires LineFacts(cells, "was,here", ["was", "here"], f) && cells != []
    ensures LineFacts(line, "hugo,was,here", ["hugo", "was", "here"], f) && line != []
  {
    line := LineCons(Bare("hugo"), cells, "hugo", "was,here", ["was", "here"], f);
    assert [f.item] == ",";
    SingleLineLineCell1Text();
  }

  lemma SingleLineLine(f: Format) returns (line: seq<Cell>)
    requires Settings(f, "\n", ',')
    ensures LineFacts(line, "hugo,was,here", ["hugo", "was", "here"], f) && line != []
  {
    line := SingleLineLineCell3(f);
    line := SingleLineLineCell2(f, line);
    line := SingleLineLineCell1(f, line);
  }

  /** `testSingleLineCsv`. */
  lemma SingleLine()
    ensures Csv("hugo,was,here") == ParseResult([["hugo", "was", "here"]], None)
  {
    var f := SettingsOf("\n", ',');
    var l1 := SingleLineLine(f);
    var table := TableOne(l1, "hugo,was,here", ["hugo", "was", "here"], f);
    CsvOfWritten("hugo,was,here", table, [["hugo", "was", "here"]], f);
  }

  lemma TwoLineLine2Cell2(f: Format) returns (line: seq<Cell>)
    requires Settings(f, "\n", ',')
    ensures LineFacts(line, "c", ["c"], f) && line != []
  {
    line := LineOne(Bare("c"), "c", f);
  }

  lemma TwoLineLine2Cell1Text()
    ensures "b" + ("," + "c") == "b,c"
    ensures ["b"] + ["c"] == ["b", "c"]
  {
  }

  lemma TwoLineLine2Cell1(f: Format, cells: seq<Cell>) returns (line: seq<Cell>)
    requires Settings(f, "\n", ',')
    requires LineFacts(cells, "c", ["c"], f) && cells != []
    ensures LineFacts(line, "b,c", ["b", "c"], f) && line != []
  {
    line := LineCons(Bare("b"), cells, "b", "c", ["c"], f);
    assert [f.item] == ",";
    TwoLineLine2Cell1Text();
  }

  lemma TwoLineLine2(f: Format) returns (line: seq<Cell>)
    requires Settings(f, "\n", ',')
    ensures LineFacts(line, "b,c", ["b", "c"], f) && line != []
  {
    line := TwoLineLine2Cell2(f);
    line := TwoLineLine2Cell1(f, line);
  }

  lemma TwoLineRows1Text()
    ensures "a" + ("\n" + "b,c") == "a\nb,c"
    ensures [["a"]] + [["b", "c"]] == [["a"], ["b", "c"]]
  {
  }

  lemma TwoLineRows1(f: Format, line: seq<Cell>, rest: seq<seq<Cell>>) returns (table: seq<seq<Cell>>)
    requires Settings(f, "\n", ',')
    requires LineFacts(line, "a", ["a"], f)
    requires TableFacts(rest, "b,c", [["b", "c"]], f) && rest != []
    ensures TableFacts(table, "a\nb,c", [["a"], ["b", "c"]], f) && table != []
  {
    table := TableCons(line, ["a"], rest, "a", "b,c", [["b", "c"]], f);
    TwoLineRows1Text();
  }

  /** `testTwoLineCsv`, first case. */
  lemma TwoLine()
    ensures Csv("a\nb,c") == ParseResult([["a"], ["b", "c"]], None)
  {
    var f := SettingsOf("\n", ',');
    var l1 := LineOne(Bare("a"), "a", f);
    var l2 := TwoLineLine2(f);
    var table := TableOne(l2, "b,c", ["b", "c"], f);
    table := TwoLineRows1(f, l1, table);
    CsvOfWritten("a\nb,c", table, [["a"], ["b", "c"]], f);
  }

  lemma TwoLineAgainLine1Cell2(f: Format) returns (line: seq<Cell>)
    requires Settings(f, "\n", ',')
    ensures LineFacts(line, "was", ["was"], f) && line != []
  {
    line := LineOne(Bare("was"), "was", f);
  }

  lemma TwoLineAgainLine1Cell1Text()
    ensures "hugo" + ("," + "was") == "hugo,was"
    ensures ["hugo"] + ["was"] == ["hugo", "was"]
  {
  }

  lemma TwoLineAgainLine1Cell1(f: Format, cells: seq<Cell>) returns (line: seq<Cell>)
    requires Settings(f, "\n", ',')
    requires LineFacts(cells, "was", ["was"], f) && cells != []
    ensures LineFacts(line, "hugo,was", ["hugo", "was"], f) && line != []
  {
    line := LineCons(Bare("hugo"), cells, "hugo", "was", ["was"], f);
    assert [f.item] == ",";
    TwoLineAgainLine1Cell1Text();
  }

  lemma TwoLineAgainLine1(f: Format) returns (line: seq<Cell>)
    requires Settings(f, "\n", ',')
    ensures LineFacts(line, "hugo,was", ["hugo", "was"], f) && line != []
  {
    line := TwoLineAgainLine1Cell2(f);
    line := TwoLineAgainLine1Cell1(f, line);
  }

  lemma TwoLineAgainLine2Cell2(f: Format) returns (line: seq<Cell>)
    requires Settings(f, "\n", ',')
    ensures LineFacts(line, "again", ["again"], f) && line != []
  {
    line := LineOne(Bare("again"), "again", f);
  }

  lemma TwoLineAgainLine2Cell1Text()
    ensures "here" + ("," + "again") == "here,again"
    ensures ["here"] + ["again"] == ["here", "again"]
  {
  }

  lemma TwoLineAgainLine2Cell1(f: Format, cells: seq<Cell>) returns (line: seq<Cell>)
    requires Settings(f, "\n", ',')
    requires LineFacts(cells, "again", ["again"], f) && cells != []
    ensures LineFacts(line, "here,again", ["here", "again"], f) && line != []
  {
    line := LineCons(Bare("here"), cells, "here", "again", ["again"], f);
    assert [f.item] == ",";
    TwoLineAgainLine2Cell1Text();
  }

  lemma TwoLineAgainLine2(f: Format) returns (line: seq<Cell>)
    requires Settings(f, "\n", ',')
    ensures LineFacts(line, "here,again", ["here", "again"], f) && line != []
  {
    line := TwoLineAgainLine2Cell2(f);
    line := TwoLineAgainLine2Cell1(f, line);
  }

  lemma TwoLineAgainRows1Text()
    ensures "hugo,was" + ("\n" + "here,again") == "hugo,was\nhere,again"
    ensures [["hugo", "was"]] + [["here", "again"]] == [["hugo", "was"], ["here", "again"]]
  {
  }

  lemma TwoLineAgainRows1(f: Format, line: seq<Cell>, rest: seq<seq<Cell>>) returns (table: seq<seq<Cell>>)
    requires Settings(f, "\n", ',')
    requires LineFacts(line, "hugo,was", ["hugo", "was"], f)
    requires TableFacts(rest, "here,again", [["here", "again"]], f) && rest != []
    ensures TableFacts(table, "hugo,was\nhere,again", [["hugo", "was"], ["here", "again"]], f) && table != []
  {
    table := TableCons(line, ["hugo", "was"], rest, "hugo,was", "here,again", [["here", "again"]], f);
    TwoLineAgainRows1Text();
  }

  /** `testTwoLineCsv`, second case, which is also the text of `testReader`. */
  lemma TwoLineAgain()
    ensures Csv("hugo,was\nhere,again") == ParseResult([["hugo", "was"], ["here", "again"]], None)
  {
    var f := SettingsOf("\n", ',');
    var l1 := TwoLineAgainLine1(f);
    var l2 := TwoLineAgainLine2(f);
    var table := TableOne(l2, "here,again", ["here", "again"], f);
    table := TwoLineAgainRows1(f, l1, table);
    CsvOfWritten("hugo,was\nhere,again", table, [["hugo", "was"], ["here", "again"]], f);
  }

  lemma MiddleEmptyLineLine3Cell2(f: Format) returns (line: seq<Cell>)
    requires Settings(f, "\n", ',')
    ensures LineFacts(line, "c", ["c"], f) && line != []
  {
    line := LineOne(Bare("c"), "c", f);
  }

  lemma MiddleEmptyLineLine3Cell1Text()
    ensures "b" + ("," + "c") == "b,c"
    ensures ["b"] + ["c"] == ["b", "c"]
  {
  }

  lemma MiddleEmptyLineLine3Cell1(f: Format, cells: seq<Cell>) returns (line: seq<Cell>)
    requires Settings(f, "\n", ',')
    requires LineFacts(cells, "c", ["c"], f) && cells != []
    ensures LineFacts(line, "b,c", ["b", "c"], f) && line != []
  {
    line := LineCons(Bare("b"), cells, "b", "c", ["c"], f);
    assert [f.item] == ",";
    MiddleEmptyLineLine3Cell1Text();
  }

  lemma MiddleEmptyLineLine3(f: Format) returns (line: seq<Cell>)
    requires Settings(f, "\n", ',')
    ensures LineFacts(line, "b,c", ["b", "c"], f) && line != []
  {
    line := MiddleEmptyLineLine3Cell2(f);
    line := MiddleEmptyLineLine3Cell1(f, line);
  }

  lemma MiddleEmptyLineRows2Text()
    ensures "" + ("\n" + "b,c") == "\nb,c"
    ensures [[]] + [["b", "c"]] == [[], ["b", "c"]]
  {
  }

  lemma MiddleEmptyLineRows2(f: Format, line: seq<Cell>, rest: seq<seq<Cell>>) returns (table: seq<seq<Cell>>)
    requires Settings(f, "\n", ',')
    requires LineFacts(line, "", [], f)
    requires TableFacts(rest, "b,c", [["b", "c"]], f) && rest != []
    ensures TableFacts(table, "\nb,c", [[], ["b", "c"]], f) && table != []
  {
    table := TableCons(line, [], rest, "", "b,c", [["b", "c"]], f);
    MiddleEmptyLineRows2Text();
  }

  lemma MiddleEmptyLineRows1Text()
    ensures "a" + ("\n" + "\nb,c") == "a\n\nb,c"
    ensures [["a"]] + [[], ["b", "c"]] == [["a"], [], ["b", "c"]]
  {
  }

  lemma MiddleEmptyLineRows1(f: Format, line: seq<Cell>, rest: seq<seq<Cell>>) returns (table: seq<seq<Cell>>)
    requires Settings(f, "\n", ',')
    requires LineFacts(line, "a", ["a"], f)
    requires TableFacts(rest, "\nb,c", [[], ["b", "c"]], f) && rest != []
    ensures TableFacts(table, "a\n\nb,c", [["a"], [], ["b", "c"]], f) && table != []
  {
    table := TableCons(line, ["a"], rest, "a", "\nb,c", [[], ["b", "c"]], f);
    MiddleEmptyLineRows1Text();
  }

  /** `testMiddleEmptyLineCsv`. */
  lemma MiddleEmptyLine()
    ensures Csv("a\n\nb,c") == ParseResult([["a"], [], ["b", "c"]], None)
  {
    var f := SettingsOf("\n", ',');
    var l1 := LineOne(Bare("a"), "a", f);
    var l2 := EmptyLine(f);
    var l3 := MiddleEmptyLineLine3(f);
    var table := TableOne(l3, "b,c", ["b", "c"], f);
    table := MiddleEmptyLineRows2(f, l2, table);
    table := MiddleEmptyLineRows1(f, l1, table);
    CsvOfWritten("a\n\nb,c", table, [["a"], [], ["b", "c"]], f);
  }

  lemma TwoLineQuotedLine1Cell2(f: Format) returns (line: seq<Cell>)
    requires Settings(f, "\n", ',')
    ensures LineFacts(line, "\"was\"", ["was"], f) && line != []
  {
    QuotedCell("was", "\"was\"", f);
    line := LineOne(InQuotes("was"), "\"was\"", f);
  }

  lemma TwoLineQuotedLine1Cell1Text()
    ensures "\"hugo\"" + ("," + "\"was\"") == "\"hugo\",\"was\""
    ensures ["hugo"] + ["was"] == ["hugo", "was"]
  {
  }

  lemma TwoLineQuotedLine1Cell1(f: Format, cells: seq<Cell>) returns (line: seq<Cell>)
    requires Settings(f, "\n", ',')
    requires LineFacts(cells, "\"was\"", ["was"], f) && cells != []
    ensures LineFacts(line, "\"hugo\",\"was\"", ["hugo", "was"], f) && line != []
  {
    QuotedCell("hugo", "\"hugo\"", f);
    line := LineCons(InQuotes("hugo"), cells, "\"hugo\"", "\"was\"", ["was"], f);
    assert [f.item] == ",";
    TwoLineQuotedLine1Cell1Text();
  }

  lemma TwoLineQuotedLine1(f: Format) returns (line: seq<Cell>)
    requires Settings(f, "\n", ',')
    ensures LineFacts(line, "\"hugo\",\"was\"", ["hugo", "was"], f) && line != []
  {
    line := TwoLineQuotedLine1Cell2(f);
    line := TwoLineQuotedLine1Cell1(f, line);
  }

  lemma TwoLineQuotedLine2Cell2(f: Format) returns (line: seq<Cell>)
    requires Settings(f, "\n", ',')
    ensures LineFacts(line, "\"again\"", ["again"], f) && line != []
  {
    QuotedCell("again", "\"again\"", f);
    line := LineOne(InQuotes("again"), "\"again\"", f);
  }

  lemma TwoLineQuotedLine2Cell1Text()
    ensures "\"here\"" + ("," + "\"again\"") == "\"here\",\"again\""
    ensures ["here"] + ["again"] == ["here", "again"]
  {
  }

  lemma TwoLineQuotedLine2Cell1(f: Format, cells: seq<Cell>) returns (line: seq<Cell>)
    requires Settings(f, "\n", ',')
    requires LineFacts(cells, "\"again\"", ["again"], f) && cells != []
    ensures LineFacts(line, "\"here\",\"again\"", ["here", "again"], f) && line != []
  {
    QuotedCell("here", "\"here\"", f);
    line := LineCons(InQuotes("here"), cells, "\"here\"", "\"again\"", ["again"], f);
    assert [f.item] == ",";
    TwoLineQuotedLine2Cell1Text();
  }

  lemma TwoLineQuotedLine2(f: Format) returns (line: seq<Cell>)
    requires Settings(f, "\n", ',')
    ensures LineFacts(line, "\"here\",\"again\"", ["here", "again"], f) && line != []
  {
    line := TwoLineQuotedLine2Cell2(f);
    line := TwoLineQuotedLine2Cell1(f, line);
  }

  lemma TwoLineQuotedRows1Text()
    ensures "\"hugo\",\"was\"" + ("\n" + "\"here\",\"again\"") == "\"hugo\",\"was\"\n\"here\",\"again\""
    ensures [["hugo", "was"]] + [["here", "again"]] == [["hugo", "was"], ["here", "again"]]
  {
  }

  lemma TwoLineQuotedRows1(f: Format, line: seq<Cell>, rest: seq<seq<Cell>>) returns (table: seq<seq<Cell>>)
    requires Settings(f, "\n", ',')
    requires LineFacts(line, "\"hugo\",\"was\"", ["hugo", "was"], f)
    requires TableFacts(rest, "\"here\",\"again\"", [["here", "again"]], f) && rest != []
    ensures TableFacts(table, "\"hugo\",\"was\"\n\"here\",\"again\"", [["hugo", "was"], ["here", "again"]], f) && table != []
  {
    table := TableCons(line, ["hugo", "was"], rest, "\"hugo\",\"was\"", "\"here\",\"again\"", [["here", "again"]], f);
    TwoLineQuotedRows1Text();
  }

  /** `testTwoLineQuotedCsv`. */
  lemma TwoLineQuoted()
    ensures Csv("\"hugo\",\"was\"\n\"here\",\"again\"") == ParseResult([["hugo", "was"], ["here", "again"]], None)
  {
    var f := SettingsOf("\n", ',');
    var l1 := TwoLineQuotedLine1(f);
    var l2 := TwoLineQuotedLine2(f);
    var table := TableOne(l2, "\"here\",\"again\"", ["here", "again"], f);
    table := TwoLineQuotedRows1(f, l1, table);
    CsvOfWritten("\"hugo\",\"was\"\n\"here\",\"again\"", table, [["hugo", "was"], ["here", "again"]], f);
  }

  lemma MixedQuotedLineLineCell3(f: Format) returns (line: seq<Cell>)
    requires Settings(f, "\n", ',')
    ensures LineFacts(line, "here", ["here"], f) && line != []
  {
    line := LineOne(Bare("here"), "here", f);
  }

  lemma MixedQuotedLineLineCell2Text()
    ensures "\"was\"" + ("," + "here") == "\"was\",here"
    ensures ["was"] + ["here"] == ["was", "here"]
  {
  }

  lemma MixedQuotedLineLineCell2(f: Format, cells: seq<Cell>) returns (line: seq<Cell>)
    requires Settings(f, "\n", ',')
    requires LineFacts(cells, "here", ["here"], f) && cells != []
    ensures LineFacts(line, "\"was\",here", ["was", "here"], f) && line != []
  {
    QuotedCell("was", "\"was\"", f);
    line := LineCons(InQuotes("was"), cells, "\"was\"", "here", ["here"], f);
    assert [f.item] == ",";
    MixedQuotedLineLineCell2Text();
  }

  lemma MixedQuotedLineLineCell1Text()
    ensures "hugo" + ("," + "\"was\",here") == "hugo,\"was\",here"
    ensures ["hugo"] + ["was", "here"] == ["hugo", "was", "here"]
  {
  }

  lemma MixedQuotedLineLineCell1(f: Format, cells: seq<Cell>) returns (line: seq<Cell>)
    requires Settings(f, "\n", ',')
    requires LineFacts(cells, "\"was\",here", ["was", "here"], f) && cells != []
    ensures LineFacts(line, "hugo,\"was\",here", ["hugo", "was", "here"], f) && line != []
  {
    line := LineCons(Bare("hugo"), cells, "hugo", "\"was\",here", ["was", "here"], f);
    assert [f.item] == ",";
    MixedQuotedLineLineCell1Text();
  }

  lemma MixedQuotedLineLine(f: Format) returns (line: seq<Cell>)
    requires Settings(f, "\n", ',')
    ensures LineFacts(line, "hugo,\"was\",here", ["hugo", "was", "here"], f) && line != []
  {
    line := MixedQuotedLineLineCell3(f);
    line := MixedQuotedLineLineCell2(f, line);
    line := MixedQuotedLineLineCell1(f, line);
  }

  /** `testMixedQuotedLineCsv`. */
  lemma MixedQuotedLine()
    ensures Csv("hugo,\"was\",here") == ParseResult([["hugo", "was", "here"]], None)
  {
    var f := SettingsOf("\n", ',');
    var l1 := MixedQuotedLineLine(f);
    var table := TableOne(l1, "hugo,\"was\",here", ["hugo", "was", "here"], f);
    CsvOfWritten("hugo,\"was\",here", table, [["hugo", "was", "here"]], f);
  }

  lemma AutoDelimitersLine1Cell2(f: Format) returns (line: seq<Cell>)
    requires Settings(f, "\r\n", ',')
    ensures LineFacts(line, "b", ["b"], f) && line != []
  {
    line := LineOne(Bare("b"), "b", f);
  }

  lemma AutoDelimitersLine1Cell1Text()
    ensures "a" + ("," + "b") == "a,b"
    ensures ["a"] + ["b"] == ["a", "b"]
  {
  }

  lemma AutoDelimitersLine1Cell1(f: Format, cells: seq<Cell>) returns (line: seq<Cell>)
    requires Settings(f, "\r\n", ',')
    requires LineFacts(cells, "b", ["b"], f) && cells != []
    ensures LineFacts(line, "a,b", ["a", "b"], f) && line != []
  {
    line := LineCons(Bare("a"), cells, "a", "b", ["b"], f);
    assert [f.item] == ",";
    AutoDelimitersLine1Cell1Text();
  }

  lemma AutoDelimitersLine1(f: Format) returns (line: seq<Cell>)
    requires Settings(f, "\r\n", ',')
    ensures LineFacts(line, "a,b", ["a", "b"], f) && line != []
  {
    line := AutoDelimitersLine1Cell2(f);
    line := AutoDelimitersLine1Cell1(f, line);
  }

  lemma AutoDelimitersLine2Cell3(f: Format) returns (line: seq<Cell>)
    requires Settings(f, "\r\n", ',')
    ensures LineFacts(line, "e", ["e"], f) && line != []
  {
    line := LineOne(Bare("e"), "e", f);
  }

  lemma AutoDelimitersLine2Cell2Text()
    ensures "d" + ("," + "e") == "d,e"
    ensures ["d"] + ["e"] == ["d", "e"]
  {
  }

  lemma AutoDelimitersLine2Cell2(f: Format, cells: seq<Cell>) returns (line: seq<Cell>)
    requires Settings(f, "\r\n", ',')
    requires LineFacts(cells, "e", ["e"], f) && cells != []
    ensures LineFacts(line, "d,e", ["d", "e"], f) && line != []
  {
    line := LineCons(Bare("d"), cells, "d", "e", ["e"], f);
    assert [f.item] == ",";
    AutoDelimitersLine2Cell2Text();
  }

  lemma AutoDelimitersLine2Cell1Text()
    ensures "c" + ("," + "d,e") == "c,d,e"
    ensures ["c"] + ["d", "e"] == ["c", "d", "e"]
  {
  }

  lemma AutoDelimitersLine2Cell1(f: Format, cells: seq<Cell>) returns (line: seq<Cell>)
    requires Settings(f, "\r\n", ',')
    requires LineFacts(cells, "d,e", ["d", "e"], f) && cells != []
    ensures LineFacts(line, "c,d,e", ["c", "d", "e"], f) && line != []
  {
    line := LineCons(Bare("c"), cells, "c", "d,e", ["d", "e"], f);
    assert [f.item] == ",";
    AutoDelimitersLine2Cell1Text();
  }

  lemma AutoDelimitersLine2(f: Format) returns (line: seq<Cell>)
    requires Settings(f, "\r\n", ',')
    ensures LineFacts(line, "c,d,e", ["c", "d", "e"], f) && line != []
  {
    line := AutoDelimitersLine2Cell3(f);
    line := AutoDelimitersLine2Cell2(f, line);
    line := AutoDelimitersLine2Cell1(f, line);
  }

  lemma AutoDelimitersRows1Text()
    ensures "a,b" + ("\r\n" + "c,d,e") == "a,b\r\nc,d,e"
    ensures [["a", "b"]] + [["c", "d", "e"]] == [["a", "b"], ["c", "d", "e"]]
  {
  }

  lemma AutoDelimitersRows1(f: Format, line: seq<Cell>, rest: seq<seq<Cell>>) returns (table: seq<seq<Cell>>)
    requires Settings(f, "\r\n", ',')
    requires LineFacts(line, "a,b", ["a", "b"], f)
    requires TableFacts(rest, "c,d,e", [["c", "d", "e"]], f) && rest != []
    ensures TableFacts(table, "a,b\r\nc,d,e", [["a", "b"], ["c", "d", "e"]], f) && table != []
  {
    table := TableCons(line, ["a", "b"], rest, "a,b", "c,d,e", [["c", "d", "e"]], f);
    AutoDelimitersRows1Text();
  }

  lemma AutoDelimitersEndText()
    ensures "a,b\r\nc,d,e" + "\r\n" == "a,b\r\nc,d,e\r\n"
  {
  }

  /** `testAutoDelimiters`. */
  lemma AutoDelimiters()
    ensures DelimitedParser.Parse("a,b\r\nc,d,e\r\n", AutoDialect(DelimitedParser.AutoLine)) == ParseResult([["a", "b"], ["c", "d", "e"]], None)
  {
    var f := SettingsOf("\r\n", ',');
    var l1 := AutoDelimitersLine1(f);
    var l2 := AutoDelimitersLine2(f);
    var table := TableOne(l2, "c,d,e", ["c", "d", "e"], f);
    table := AutoDelimitersRows1(f, l1, table);
    AutoDelimitersEndText();
    AutoDelimitersDetected(f);
    DelimitedParser.ScanRowsOfWritten(table, "\r\n", f, |"a,b\r\nc,d,e\r\n"|);
  }

  lemma AutoItemDelimiterLinePart1Cell4(f: Format) returns (line: seq<Cell>)
    requires Settings(f, "\n", ';')
    ensures LineFacts(line, "a", ["a"], f) && line != []
  {
    line := LineOne(Bare("a"), "a", f);
  }

  lemma AutoItemDelimiterLinePart1Cell3Text()
    ensures "using" + (";" + "a") == "using;a"
    ensures ["using"] + ["a"] == ["using", "a"]
  {
  }

  lemma AutoItemDelimiterLinePart1Cell3(f: Format, cells: seq<Cell>) returns (line: seq<Cell>)
    requires Settings(f, "\n", ';')
    requires LineFacts(cells, "a", ["a"], f) && cells != []
    ensures LineFacts(line, "using;a", ["using", "a"], f) && line != []
  {
    line := LineCons(Bare("using"), cells, "using", "a", ["a"], f);
    assert [f.item] == ";";
    AutoItemDelimiterLinePart1Cell3Text();
  }

  lemma AutoItemDelimiterLinePart1Cell2Text()
    ensures "items" + (";" + "using;a") == "items;using;a"
    ensures ["items"] + ["using", "a"] == ["items", "using", "a"]
  {
  }

  lemma AutoItemDelimiterLinePart1Cell2(f: Format, cells: seq<Cell>) returns (line: seq<Cell>)
    requires Settings(f, "\n", ';')
    requires LineFacts(cells, "using;a", ["using", "a"], f) && cells != []
    ensures LineFacts(line, "items;using;a", ["items", "using", "a"], f) && line != []
  {
    line := LineCons(Bare("items"), cells, "items", "using;a", ["using", "a"], f);
    assert [f.item] == ";";
    AutoItemDelimiterLinePart1Cell2Text();
  }

  lemma AutoItemDelimiterLinePart1Cell1Text()
    ensures "some" + (";" + "items;using;a") == "some;items;using;a"
    ensures ["some"] + ["items", "using", "a"] == ["some", "items", "using", "a"]
  {
  }

  lemma AutoItemDelimiterLinePart1Cell1(f: Format, cells: seq<Cell>) returns (line: seq<Cell>)
    requires Settings(f, "\n", ';')
    requires LineFacts(cells, "items;using;a", ["items", "using", "a"], f) && cells != []
    ensures LineFacts(line, "some;items;using;a", ["some", "items", "using", "a"], f) && line != []
  {
    line := LineCons(Bare("some"), cells, "some", "items;using;a", ["items", "using", "a"], f);
    assert [f.item] == ";";
    AutoItemDelimiterLinePart1Cell1Text();
  }

  lemma AutoItemDelimiterLinePart1(f: Format) returns (line: seq<Cell>)
    requires Settings(f, "\n", ';')
    ensures LineFacts(line, "some;items;using;a", ["some", "items", "using", "a"], f) && line != []
  {
    line := AutoItemDelimiterLinePart1Cell4(f);
    line := AutoItemDelimiterLinePart1Cell3(f, line);
    line := AutoItemDelimiterLinePart1Cell2(f, line);
    line := AutoItemDelimiterLinePart1Cell1(f, line);
  }

  lemma AutoItemDelimiterLinePart2Cell3(f: Format) returns (line: seq<Cell>)
    requires Settings(f, "\n", ';')
    ensures LineFacts(line, "separator", ["separator"], f) && line != []
  {
    line := LineOne(Bare("separator"), "separator", f);
  }

  lemma AutoItemDelimiterLinePart2Cell2Text()
    ensures "as" + (";" + "separator") == "as;separator"
    ensures ["as"] + ["separator"] == ["as", "separator"]
  {
  }

  lemma AutoItemDelimiterLinePart2Cell2(f: Format, cells: seq<Cell>) returns (line: seq<Cell>)
    requires Settings(f, "\n", ';')
    requires LineFacts(cells, "separator", ["separator"], f) && cells != []
    ensures LineFacts(line, "as;separator", ["as", "separator"], f) && line != []
  {
    line := LineCons(Bare("as"), cells, "as", "separator", ["separator"], f);
    assert [f.item] == ";";
    AutoItemDelimiterLinePart2Cell2Text();
  }

  lemma AutoItemDelimiterLinePart2Cell1Text()
    ensures "semicolon" + (";" + "as;separator") == "semicolon;as;separator"
    ensures ["semicolon"] + ["as", "separator"] == ["semicolon", "as", "separator"]
  {
  }

  lemma AutoItemDelimiterLinePart2Cell1(f: Format, cells: seq<Cell>) returns (line: seq<Cell>)
    requires Settings(f, "\n", ';')
    requires LineFacts(cells, "as;separator", ["as", "separator"], f) && cells != []
    ensures LineFacts(line, "semicolon;as;separator", ["semicolon", "as", "separator"], f) && line != []
  {
    line := LineCons(Bare("semicolon"), cells, "semicolon", "as;separator", ["as", "separator"], f);
    assert [f.item] == ";";
    AutoItemDelimiterLinePart2Cell1Text();
  }

  lemma AutoItemDelimiterLinePart2(f: Format) returns (line: seq<Cell>)
    requires Settings(f, "\n", ';')
    ensures LineFacts(line, "semicolon;as;separator", ["semicolon", "as", "separator"], f) && line != []
  {
    line := AutoItemDelimiterLinePart2Cell3(f);
    line := AutoItemDelimiterLinePart2Cell2(f, line);
    line := AutoItemDelimiterLinePart2Cell1(f, line);
  }

  lemma AutoItemDelimiterLineText()
    ensures "some;items;using;a" + (";" + "semicolon;as;separator") == "some;items;using;a;semicolon;as;separator"
    ensures ["some", "items", "using", "a"] + ["semicolon", "as", "separator"] == ["some", "items", "using", "a", "semicolon", "as", "separator"]
  {
  }

  lemma AutoItemDelimiterLine(f: Format) returns (line: seq<Cell>)
    requires Settings(f, "\n", ';')
    ensures LineFacts(line, "some;items;using;a;semicolon;as;separator", ["some", "items", "using", "a", "semicolon", "as", "separator"], f) && line != []
  {
    var first := AutoItemDelimiterLinePart1(f);
    var second := AutoItemDelimiterLinePart2(f);
    line := LineJoin(first, "some;items;using;a", ["some", "items", "using", "a"], second, "semicolon;as;separator", ["semicolon", "as", "separator"], f);
    assert [f.item] == ";";
    AutoItemDelimiterLineText();
  }

  /** `testAutoItemDelimiter`. */
  lemma AutoItemDelimiter()
    ensures DelimitedParser.Parse("some;items;using;a;semicolon;as;separator", AutoDialect(DelimitedParser.Lf)) == ParseResult([["some", "items", "using", "a", "semicolon", "as", "separator"]], None)
  {
    var f := SettingsOf("\n", ';');
    var l1 := AutoItemDelimiterLine(f);
    var table := TableOne(l1, "some;items;using;a;semicolon;as;separator", ["some", "items", "using", "a", "semicolon", "as", "separator"], f);
    assert DelimitedParser.Write(table, f) + "" == DelimitedParser.Write(table, f);
    AutoItemDelimiterDetected(f);
    DelimitedParser.ScanRowsOfWritten(table, "", f, |"some;items;using;a;semicolon;as;separator"|);
  }

  /** `testEmptyCsv`. */
  lemma EmptyCsv()
    ensures Csv("") == ParseResult([], None)
  {
  }

  /** A dialect that detects the item delimiter, and the line delimiter unless one is given. */
  function AutoDialect(line: DelimitedParser.LineDelimiter): DelimitedParser.Dialect {
    DelimitedParser.Dialect(line, DelimitedParser.AutoItem, '"', '"')
  }

  /** The first line break is CR LF, and the first line holds a comma. */
  lemma AutoDelimitersDetected(f: Format)
    requires Settings(f, "\r\n", ',')
    ensures DelimitedParser.Resolve("a,b\r\nc,d,e\r\n", AutoDialect(DelimitedParser.AutoLine)) == f
  {
    var s := "a,b\r\nc,d,e\r\n";
    DelimitedParser.DetectedLineDelimiterIsFirst(s, 3);
    assert DelimitedParser.DetectLineDelimiter(s) == "\r\n";
    assert DelimitedParser.FirstCandidate(s, 0, DelimitedParser.LineEnd(s, 0, "\r\n")) == 1;
  }

  /** The only line holds semicolons and nothing else that could delimit items. */
  lemma AutoItemDelimiterDetected(f: Format)
    requires Settings(f, "\n", ';')
    ensures DelimitedParser.Resolve("some;items;using;a;semicolon;as;separator", AutoDialect(DelimitedParser.Lf)) == f
  {
    var s := "some;items;using;a;semicolon;as;separator";
    forall m | 0 <= m <= 4
      ensures !DelimitedParser.At(s, m, "\n")
    {
      assert s[m..m + 1] == [s[m]];
    }
    DelimitedParser.DetectedItemDelimiterIsFirst(s, "\n", 4);
  }

  /** `testEmptyLineWithLfCsv`, `testEmptyLineWithCrCsv` and `testEmptyLineWithCrLfCsv`. */
  lemma EmptyLines()
    ensures Csv("\n") == ParseResult([], None)
    ensures DelimitedParser.Parse("\r", DelimitedParser.Dialect(DelimitedParser.Cr, DelimitedParser.ItemChar(','), '"', '"')) == ParseResult([], None)
    ensures DelimitedParser.Parse("\r\n", DelimitedParser.Dialect(DelimitedParser.CrLf, DelimitedParser.ItemChar(','), '"', '"')) == ParseResult([], None)
  {
  }

  /** `testBrokenMissingQuote`: the unterminated quote is reported at its position. */
  lemma BrokenMissingQuote()
    ensures Csv("\"") == ParseResult([], Some(UnterminatedQuote(0)))
  {
  }
}
