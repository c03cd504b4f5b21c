/** The delimited row parser (`parsers.DelimitedParser`) as its test cases pin it down: rows
    end at the line delimiter, items at the item delimiter, an item that starts with the quote
    character runs to the matching closing quote (delimiters inside it are data, an escape
    character before a quote stands for the quote), and either delimiter may be detected
    from the input instead of being given. */
module DelimitedParser {
  import opened Wrappers
  import opened Rows

  datatype LineDelimiter = AutoLine | Lf | Cr | CrLf
  datatype ItemDelimiter = AutoItem | ItemChar(c: char)

  /** `parsers.DelimitedDialect`. */
  datatype Dialect = Dialect(lineDelimiter: LineDelimiter, itemDelimiter: ItemDelimiter, quoteChar: char, escapeChar: char)

  /** A dialect with every AUTO setting resolved against the input. */
  datatype Format = Format(line: string, item: char, quote: char, escape: char)

  predicate IsLineDelimiter(line: string) {
    line == "\n" || line == "\r" || line == "\r\n"
  }

  predicate IsBreak(c: char) { c == '\n' || c == '\r' }

  /** `line` occurs in `s` at position `i`. */
  predicate At(s: string, i: nat, line: string) {
    i + |line| <= |s| && s[i..i + |line|] == line
  }

  /** The position of the first CR or LF at or after `i`, or `|s|` if there is none. */
  function FirstBreak(s: string, i: nat): (k: nat)
    requires i <= |s|
    ensures i <= k <= |s|
    ensures k < |s| ==> IsBreak(s[k])
    ensures forall m :: i <= m < k ==> !IsBreak(s[m])
    decreases |s| - i
  {
    if i == |s| || IsBreak(s[i]) then i else FirstBreak(s, i + 1)
  }

  /** AUTO line delimiter: the line break at the first CR or LF of the input (CRLF when that CR
      is followed by LF); LF for an input without line breaks. */
  function DetectLineDelimiter(s: string): (line: string)
    ensures IsLineDelimiter(line)
  {
    var k := FirstBreak(s, 0);
    if k == |s| then "\n" else BreakAt(s, k)
  }

  /** The line break that starts at the CR or LF at `k`. */
  function BreakAt(s: string, k: nat): (line: string)
    requires k < |s|
    ensures IsLineDelimiter(line)
  {
    if s[k] == '\n' then "\n"
    else if k + 1 < |s| && s[k + 1] == '\n' then "\r\n"
    else "\r"
  }

  /** A CR or LF at `k` starts the line break `BreakAt` names. */
  lemma BreakAtIsThere(s: string, k: nat)
    requires k < |s| && IsBreak(s[k])
    ensures At(s, k, BreakAt(s, k))
  {
    if s[k] == '\n' {
      assert s[k..k + 1] == [s[k]];
    } else if k + 1 < |s| && s[k + 1] == '\n' {
      assert s[k..k + 2] == [s[k], s[k + 1]];
    } else {
      assert s[k..k + 1] == [s[k]];
    }
  }

  /** The detected line delimiter is the one that stands at the first line break of the input,
      and no line break comes before it. */
  lemma DetectedLineDelimiterIsFirst(s: string, m: nat)
    requires m < |s| && IsBreak(s[m])
    ensures FirstBreak(s, 0) <= m
    ensures At(s, FirstBreak(s, 0), DetectLineDelimiter(s))
  {
    var k := FirstBreak(s, 0);
    assert k <= m;
    BreakAtIsThere(s, k);
  }

  /** The position of the first occurrence of `line` at or after `i`, or `|s|`. */
  function LineEnd(s: string, i: nat, line: string): (k: nat)
    requires i <= |s|
    ensures i <= k <= |s|
    ensures k < |s| ==> At(s, k, line)
    ensures forall m :: i <= m < k ==> !At(s, m, line)
    decreases |s| - i
  {
    if i == |s| || At(s, i, line) then i else LineEnd(s, i + 1, line)
  }

  predicate IsItemCandidate(c: char) { c == ',' || c == ';' || c == '\t' || c == '|' }

  /** The position of the first comma, semicolon, tab or pipe in `s[i..end]`, or `end`. */
  function FirstCandidate(s: string, i: nat, end: nat): (k: nat)
    requires i <= end <= |s|
    ensures i <= k <= end
    ensures k < end ==> IsItemCandidate(s[k])
    ensures forall m :: i <= m < k ==> !IsItemCandidate(s[m])
    decreases end - i
  {
    if i == end || IsItemCandidate(s[i]) then i else FirstCandidate(s, i + 1, end)
  }

  /** AUTO item delimiter: the first comma, semicolon, tab or pipe of the first line; a comma
      when the first line has none of them. */
  function DetectItemDelimiter(s: string, line: string): (c: char)
    ensures IsItemCandidate(c)
  {
    var e := LineEnd(s, 0, line);
    var k := FirstCandidate(s, 0, e);
    if k < e then s[k] else ','
  }

  /** The detected item delimiter is the first candidate of the input when no line delimiter
      comes before it. */
  lemma DetectedItemDelimiterIsFirst(s: string, line: string, k: nat)
    requires k < |s| && IsItemCandidate(s[k])
    requires forall m :: 0 <= m < k ==> !IsItemCandidate(s[m])
    requires forall m :: 0 <= m <= k ==> !At(s, m, line)
    ensures DetectItemDelimiter(s, line) == s[k]
  {
    var e := LineEnd(s, 0, line);
    assert k < e;
  }

  function LineChars(d: LineDelimiter, s: string): string {
    match d
    case AutoLine => DetectLineDelimiter(s)
    case Lf => "\n"
    case Cr => "\r"
    case CrLf => "\r\n"
  }

  /** The dialect with its AUTO settings detected from the input `s`. */
  function Resolve(s: string, d: Dialect): (f: Format)
    ensures IsLineDelimiter(f.line)
    ensures d.itemDelimiter.ItemChar? ==> f.item == d.itemDelimiter.c
    ensures f.quote == d.quoteChar && f.escape == d.escapeChar
  {
    var line := LineChars(d.lineDelimiter, s);
    var item := match d.itemDelimiter
      case AutoItem => DetectItemDelimiter(s, line)
      case ItemChar(c) => c;
    Format(line, item, d.quoteChar, d.escapeChar)
  }

  /* The scanner works on the text that is still unread; a position in the input is the input's
     length minus the length of what is still unread. */

  /** The unread text `t` starts with a line delimiter or an item delimiter. */
  predicate AtDelimiter(t: string, f: Format) {
    f.line <= t || (|t| > 0 && t[0] == f.item)
  }

  /** An unquoted stretch: the text up to the next line delimiter, item delimiter or end of the
      input, and what follows it. */
  function Unquoted(t: string, f: Format): (r: (string, string))
    ensures r.0 + r.1 == t
    ensures r.1 == [] || AtDelimiter(r.1, f)
    ensures forall k :: 0 <= k < |r.0| ==> !AtDelimiter(t[k..], f)
    decreases |t|
  {
    if t == [] || AtDelimiter(t, f) then ([], t)
    else
      var rest := Unquoted(t[1..], f);
      assert forall k :: 1 <= k <= |rest.0| ==> t[k..] == t[1..][k - 1..];
      ([t[0]] + rest.0, rest.1)
  }

  /** Inside a quoted item: the item text up to the closing quote and the text after that quote,
      or `None` when the input ends first. An escape character followed by a quote stands for
      the quote. */
  function QuotedRest(t: string, f: Format): (r: Option<(string, string)>)
    ensures r.Some? ==> |r.value.1| < |t|
    decreases |t|
  {
    if t == [] then None
    else if t[0] == f.escape && |t| > 1 && t[1] == f.quote then
      match QuotedRest(t[2..], f)
      case None => None
      case Some(rest) => Some(([f.quote] + rest.0, rest.1))
    else if t[0] == f.quote then Some(([], t[1..]))
    else
      match QuotedRest(t[1..], f)
      case None => None
      case Some(rest) => Some(([t[0]] + rest.0, rest.1))
  }

  /** One item at the start of `t` and the text after it, which is empty or starts with a
      delimiter; text after a closing quote is data of the same item. An unterminated quote is
      reported with the unread text at the opening quote. */
  function ScanItem(t: string, f: Format): (r: Result<(string, string), string>)
    ensures r.Ok? ==> |r.value.1| <= |t| && (r.value.1 == [] || AtDelimiter(r.value.1, f))
    ensures r.Err? ==> |r.error| <= |t|
  {
    if |t| > 0 && t[0] == f.quote then
      match QuotedRest(t[1..], f)
      case None => Err(t)
      case Some(q) =>
        var u := Unquoted(q.1, f);
        Ok((q.0 + u.0, u.1))
    else
      var u := Unquoted(t, f);
      Ok(u)
  }

  /** The items of the line at the start of `t` and the text after them, which is empty or
      starts with the line delimiter. A line holds at least one item. */
  function ScanLine(t: string, f: Format): (r: Result<(Row, string), string>)
    ensures r.Ok? ==> |r.value.1| <= |t| && |r.value.0| >= 1
    ensures r.Ok? ==> r.value.1 == [] || f.line <= r.value.1
    ensures r.Err? ==> |r.error| <= |t|
    decreases |t|
  {
    match ScanItem(t, f)
    case Err(e) => Err(e)
    case Ok(it) =>
      if it.1 == [] || f.line <= it.1 then Ok(([it.0], it.1))
      else
        match ScanLine(it.1[1..], f)
        case Err(e) => Err(e)
        case Ok(rest) => Ok(([it.0] + rest.0, rest.1))
  }

  /** The rows of the unread text `t` of an input of length `n`. A line delimiter at the start of
      a line is a blank line and yields an empty row, except the blank line that the input's
      last line delimiter ends. */
  function ScanRows(t: string, f: Format, n: nat): (r: ParseResult)
    requires |f.line| > 0 && |t| <= n
    decreases |t|
  {
    if t == [] then ParseResult([], None)
    else if f.line <= t then
      if t == f.line then ParseResult([], None)
      else Prepend([], ScanRows(t[|f.line|..], f, n))
    else
      match ScanLine(t, f)
      case Err(at) => ParseResult([], Some(UnterminatedQuote(n - |at|)))
      case Ok(line) =>
        if line.1 == [] then ParseResult([line.0], None)
        else Prepend(line.0, ScanRows(line.1[|f.line|..], f, n))
  }

  /** All rows of `s` read with dialect `d`. */
  function Parse(s: string, d: Dialect): ParseResult {
    ScanRows(s, Resolve(s, d), |s|)
  }

  /** The dialect that names the resolved settings of `f` explicitly. */
  function DialectOf(f: Format): (d: Dialect)
    requires IsLineDelimiter(f.line)
    ensures forall s :: Resolve(s, d) == f
  {
    var line := if f.line == "\n" then Lf else if f.line == "\r" then Cr else CrLf;
    Dialect(line, ItemChar(f.item), f.quote, f.escape)
  }

  /** The settings under which writing and reading agree: the quote character escapes itself,
      and neither it nor the item delimiter is part of the line delimiter or equal to each other. */
  predicate Writable(f: Format) {
    && IsLineDelimiter(f.line)
    && f.escape == f.quote
    && f.item != f.quote
    && f.quote !in f.line
    && f.item !in f.line
  }

  /** What the proof of the round trip needs of a writable format. */
  predicate Separable(f: Format) {
    && |f.line| > 0
    && f.escape == f.quote
    && f.item != f.quote
    && f.line[0] != f.quote
    && f.line[0] != f.item
  }

  /** An item as a writer puts it on a line: either bare or in quotes. */
  datatype Cell = Cell(text: string, quoted: bool)

  /** The text of an item inside its quotes: each quote character preceded by the escape. */
  function Escaped(item: string, f: Format): string {
    if item == [] then []
    else (if item[0] == f.quote then [f.escape, f.quote] else [item[0]]) + Escaped(item[1..], f)
  }

  function Quoted(item: string, f: Format): string {
    [f.quote] + (Escaped(item, f) + [f.quote])
  }

  function WriteCell(c: Cell, f: Format): string {
    if c.quoted then Quoted(c.text, f) else c.text
  }

  /** A line written out: its cells separated by the item delimiter. */
  function WriteLine(cells: seq<Cell>, f: Format): string {
    if cells == [] then []
    else if |cells| == 1 then WriteCell(cells[0], f)
    else WriteCell(cells[0], f) + ([f.item] + WriteLine(cells[1..], f))
  }

  /** Lines written out, separated by the line delimiter. */
  function Write(table: seq<seq<Cell>>, f: Format): string {
    if table == [] then []
    else if |table| == 1 then WriteLine(table[0], f)
    else WriteLine(table[0], f) + (f.line + Write(table[1..], f))
  }

  /** The items a line of cells stands for. */
  function Texts(cells: seq<Cell>): (row: Row)
    ensures |row| == |cells|
  {
    if cells == [] then [] else [cells[0].text] + Texts(cells[1..])
  }

  /** The rows a table of cells stands for. */
  function Content(table: seq<seq<Cell>>): (rows: seq<Row>)
    ensures |rows| == |table|
  {
    if table == [] then [] else [Texts(table[0])] + Content(table[1..])
  }

  /** Every item with all of its cells in quotes. */
  function QuoteAll(rows: seq<Row>): (table: seq<seq<Cell>>)
    ensures Content(table) == rows
    ensures forall r :: 0 <= r < |table| ==> |table[r]| == |rows[r]|
    ensures forall r :: 0 <= r < |table| ==> forall k :: 0 <= k < |table[r]| ==> table[r][k].quoted
  {
    if rows == [] then []
    else
      var cells := seq(|rows[0]|, k requires 0 <= k < |rows[0]| => Cell(rows[0][k], true));
      assert Texts(cells) == rows[0] by { QuotedTexts(rows[0], cells); }
      [cells] + QuoteAll(rows[1..])
  }

  lemma {:induction false} QuotedTexts(row: Row, cells: seq<Cell>)
    requires |cells| == |row| && forall k :: 0 <= k < |row| ==> cells[k] == Cell(row[k], true)
    ensures Texts(cells) == row
    decreases |row|
  {
    if row != [] {
      QuotedTexts(row[1..], cells[1..]);
    }
  }

  /** An item that can be written bare: it holds neither delimiter (nor the first character of
      the line delimiter) and does not start with the quote character. */
  predicate Plain(item: string, f: Format)
    requires |f.line| > 0
  {
    && (forall k :: 0 <= k < |item| ==> item[k] != f.item && item[k] != f.line[0])
    && (item == [] || item[0] != f.quote)
  }

  predicate Readable(c: Cell, f: Format)
    requires |f.line| > 0
  {
    c.quoted || Plain(c.text, f)
  }

  /** A table that reads back as its content: bare cells are plain, and no line other than an
      empty one is written as an empty line (a single bare empty item would read as a blank
      line); the last line is not empty, since a blank line ending the input yields no row. */
  predicate Representable(table: seq<seq<Cell>>, f: Format)
    requires |f.line| > 0
  {
    && (forall r :: 0 <= r < |table| ==> ReadableLine(table[r], f))
    && (table != [] ==> WriteLine(table[|table| - 1], f) != [])
  }

  /** A line of a table that reads back as its cells. */
  predicate ReadableLine(cells: seq<Cell>, f: Format)
    requires |f.line| > 0
  {
    && (forall k :: 0 <= k < |cells| ==> Readable(cells[k], f))
    && (cells == [] || WriteLine(cells, f) != [])
  }

  lemma {:induction false} QuotedRestOfEscaped(item: string, t: string, f: Format)
    requires Separable(f)
    requires t == [] || t[0] != f.quote
    ensures QuotedRest(Escaped(item, f) + ([f.quote] + t), f) == Some((item, t))
    decreases |item|
  {
    var u := Escaped(item, f) + ([f.quote] + t);
    if item == [] {
      assert u == [f.quote] + t;
      assert u[1..] == t;
    } else {
      var v := Escaped(item[1..], f) + ([f.quote] + t);
      QuotedRestOfEscaped(item[1..], t, f);
      if item[0] == f.quote {
        assert u == [f.quote, f.quote] + v;
        assert u[2..] == v;
      } else {
        assert u == [item[0]] + v;
        assert u[1..] == v;
      }
      assert item == [item[0]] + item[1..];
    }
  }

  lemma {:induction false} UnquotedOfPlain(a: string, t: string, f: Format)
    requires |f.line| > 0
    requires forall k :: 0 <= k < |a| ==> a[k] != f.item && a[k] != f.line[0]
    requires t == [] || AtDelimiter(t, f)
    ensures Unquoted(a + t, f) == (a, t)
    decreases |a|
  {
    if a == [] {
      assert a + t == t;
    } else {
      var u := a + t;
      assert u[0] == a[0];
      assert u[1..] == a[1..] + t;
      UnquotedOfPlain(a[1..], t, f);
      assert a == [a[0]] + a[1..];
    }
  }

  /** A written cell followed by a delimiter or the end of the input is read as its text. */
  lemma ScanItemOfCell(c: Cell, t: string, f: Format)
    requires Separable(f) && Readable(c, f)
    requires t == [] || AtDelimiter(t, f)
    ensures ScanItem(WriteCell(c, f) + t, f) == Ok((c.text, t))
  {
    assert t == [] || t[0] != f.quote by {
      if t != [] && f.line <= t { assert t[0] == f.line[0]; }
    }
    var u := WriteCell(c, f) + t;
    if c.quoted {
      assert u == [f.quote] + (Escaped(c.text, f) + ([f.quote] + t));
      assert u[1..] == Escaped(c.text, f) + ([f.quote] + t);
      QuotedRestOfEscaped(c.text, t, f);
      UnquotedOfPlain([], t, f);
      assert c.text + [] == c.text;
    } else {
      UnquotedOfPlain(c.text, t, f);
      if c.text == [] {
        assert u == t;
      } else {
        assert u[0] == c.text[0];
      }
    }
  }

  /** A written line followed by the line delimiter or the end of the input is read as the
      items its cells stand for. */
  lemma {:induction false} ScanLineOfCells(cells: seq<Cell>, t: string, f: Format)
    requires Separable(f) && |cells| >= 1
    requires forall k :: 0 <= k < |cells| ==> Readable(cells[k], f)
    requires t == [] || f.line <= t
    ensures ScanLine(WriteLine(cells, f) + t, f) == Ok((Texts(cells), t))
    decreases |cells|
  {
    if |cells| == 1 {
      ScanItemOfCell(cells[0], t, f);
      assert Texts(cells) == [cells[0].text];
    } else {
      var v := [f.item] + (WriteLine(cells[1..], f) + t);
      assert WriteLine(cells, f) + t == WriteCell(cells[0], f) + v;
      ScanItemOfCell(cells[0], v, f);
      assert v[0] != f.line[0];
      assert v[1..] == WriteLine(cells[1..], f) + t;
      ScanLineOfCells(cells[1..], t, f);
    }
  }

  /** A written line that is not empty starts with neither the quote... nor the line delimiter. */
  lemma WrittenLineStart(cells: seq<Cell>, f: Format)
    requires Separable(f)
    requires forall k :: 0 <= k < |cells| ==> Readable(cells[k], f)
    requires WriteLine(cells, f) != []
    ensures WriteLine(cells, f)[0] != f.line[0]
  {
    var c := cells[0];
    if |cells| > 1 && WriteCell(c, f) == [] {
      assert WriteLine(cells, f)[0] == f.item;
    } else {
      assert WriteLine(cells, f)[0] == WriteCell(c, f)[0];
    }
  }

  lemma {:induction false} WriteNonEmpty(table: seq<seq<Cell>>, f: Format)
    requires table != [] && WriteLine(table[|table| - 1], f) != []
    ensures |Write(table, f)| > 0
    decreases |table|
  {
    if |table| > 1 {
      WriteNonEmpty(table[1..], f);
    }
  }

  /** The first line of a written text is read as the items of its cells, and reading goes on
      after the line delimiter that follows it. */
  lemma ScanFirstLine(cells: seq<Cell>, t: string, f: Format, n: nat)
    requires Separable(f) && |WriteLine(cells, f) + t| <= n
    requires forall k :: 0 <= k < |cells| ==> Readable(cells[k], f)
    requires cells == [] || WriteLine(cells, f) != []
    requires (t == [] && cells != []) || (f.line <= t && (|t| > |f.line| || cells != []))
    ensures ScanRows(WriteLine(cells, f) + t, f, n)
      == if t == [] then ParseResult([Texts(cells)], None) else Prepend(Texts(cells), ScanRows(t[|f.line|..], f, n))
  {
    var u := WriteLine(cells, f) + t;
    if cells == [] {
      assert u == t;
    } else {
      WrittenLineStart(cells, f);
      assert u[0] != f.line[0];
      ScanLineOfCells(cells, t, f);
    }
  }

  /** A line of cells followed by a line delimiter is read as the items of its cells, and
      reading goes on with what follows. */
  lemma ScanLaterLine(cells: seq<Cell>, rest: string, f: Format, n: nat)
    requires Separable(f) && |WriteLine(cells, f) + (f.line + rest)| <= n
    requires forall k :: 0 <= k < |cells| ==> Readable(cells[k], f)
    requires cells == [] || WriteLine(cells, f) != []
    requires rest != [] || cells != []
    ensures ScanRows(WriteLine(cells, f) + (f.line + rest), f, n) == Prepend(Texts(cells), ScanRows(rest, f, n))
  {
    var t := f.line + rest;
    assert t[|f.line|..] == rest;
    ScanFirstLine(cells, t, f, n);
  }

  lemma Regroup(a: string, b: string, c: string, d: string)
    ensures (a + (b + c)) + d == a + (b + (c + d))
  {
  }

  lemma RepresentableTail(table: seq<seq<Cell>>, f: Format)
    requires |f.line| > 0 && Representable(table, f) && table != []
    ensures Representable(table[1..], f)
    ensures ReadableLine(table[0], f)
  {
    assert forall r :: 0 <= r < |table| - 1 ==> table[1..][r] == table[r + 1];
  }

  lemma RepresentableCons(line: seq<Cell>, table: seq<seq<Cell>>, f: Format)
    requires |f.line| > 0 && Representable(table, f) && table != []
    requires forall k :: 0 <= k < |line| ==> Readable(line[k], f)
    requires line == [] || WriteLine(line, f) != []
    ensures Representable([line] + table, f)
  {
    var t := [line] + table;
    forall r | 0 <= r < |t|
      ensures ReadableLine(t[r], f)
    {
      if r > 0 {
        assert t[r] == table[r - 1];
      }
    }
    assert t[|t| - 1] == table[|table| - 1];
  }

  /** A written table, followed by nothing or by one more line delimiter, is read as its
      content. */
  lemma {:induction false} ScanRowsOfWritten(table: seq<seq<Cell>>, end: string, f: Format, n: nat)
    requires Separable(f) && Representable(table, f)
    requires end == [] || end == f.line
    requires |Write(table, f) + end| <= n
    ensures ScanRows(Write(table, f) + end, f, n) == ParseResult(Content(table), None)
    decreases |table|
  {
    if table == [] {
      assert Write(table, f) + end == end;
    } else if |table| == 1 {
      assert WriteLine(table[0], f) + end == Write(table, f) + end;
      ScanFirstLine(table[0], end, f, n);
      if end != [] {
        assert end[|f.line|..] == [];
      }
    } else {
      RepresentableTail(table, f);
      WriteNonEmpty(table[1..], f);
      ScanRowsOfWritten(table[1..], end, f, n);
      assert Write(table, f) == WriteLine(table[0], f) + (f.line + Write(table[1..], f));
      Regroup(WriteLine(table[0], f), f.line, Write(table[1..], f), end);
      ScanLaterLine(table[0], Write(table[1..], f) + end, f, n);
    }
  }

  /** Round trip: a table written with the resolved settings of a dialect is read back as its
      content, whatever the quoted items contain (delimiters, line breaks, quotes), with or
      without a line delimiter after the last line. */
  lemma ParseWrite(table: seq<seq<Cell>>, f: Format)
    requires Writable(f) && Representable(table, f)
    ensures Parse(Write(table, f), DialectOf(f)) == ParseResult(Content(table), None)
    ensures Parse(Write(table, f) + f.line, DialectOf(f)) == ParseResult(Content(table), None)
  {
    assert Separable(f) by { assert f.line[0] in f.line; }
    ScanRowsOfWritten(table, [], f, |Write(table, f) + []|);
    assert Write(table, f) + [] == Write(table, f);
    ScanRowsOfWritten(table, f.line, f, |Write(table, f) + f.line|);
  }

  /** With every item in quotes, any rows are read back unchanged, provided the last row is not
      empty: an empty last row is a blank line at the end of the input, which yields no row. */
  lemma ParseWriteQuoted(rows: seq<Row>, f: Format)
    requires Writable(f)
    requires rows != [] ==> rows[|rows| - 1] != []
    ensures Parse(Write(QuoteAll(rows), f), DialectOf(f)) == ParseResult(rows, None)
  {
    var table := QuoteAll(rows);
    assert Representable(table, f) by {
      QuoteAllRepresentable(rows, f);
    }
    ParseWrite(table, f);
  }

  lemma QuoteAllRepresentable(rows: seq<Row>, f: Format)
    requires |f.line| > 0
    requires rows != [] ==> rows[|rows| - 1] != []
    ensures Representable(QuoteAll(rows), f)
  {
    var table := QuoteAll(rows);
    forall r | 0 <= r < |table|
      ensures ReadableLine(table[r], f)
    {
      if table[r] != [] {
        QuotedLineNonEmpty(table[r], f);
      }
    }
    if table != [] {
      assert |table[|table| - 1]| == |rows[|rows| - 1]|;
    }
  }

  /** A line whose first cell is quoted is not written as an empty line. */
  lemma QuotedLineNonEmpty(cells: seq<Cell>, f: Format)
    requires cells != [] && cells[0].quoted
    ensures WriteLine(cells, f) != []
  {
    assert WriteCell(cells[0], f)[0] == f.quote;
  }
}
