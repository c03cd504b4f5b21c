/** What every row parser produces: a forward-only stream of rows of string items that may
    end in a structural error after the rows already read. */
module Rows {
  import opened Wrappers

  type Row = seq<string>

  /** The kinds of `ParserSyntaxError` the two text parsers raise: a quote opened at
      `position` and never closed, or a last fixed record of `actual` characters where a record
      takes `expected`. */
  datatype ParserSyntaxError =
    | UnterminatedQuote(position: nat)
    | RecordTooShort(expected: nat, actual: nat)

  /** The rows yielded before the parser stopped, and the error it stopped with, if any. */
  datatype ParseResult = ParseResult(rows: seq<Row>, failure: Option<ParserSyntaxError>)

  function Prepend(row: Row, rest: ParseResult): (r: ParseResult)
    ensures r.rows == [row] + rest.rows && r.failure == rest.failure
  {
    ParseResult([row] + rest.rows, rest.failure)
  }
}
