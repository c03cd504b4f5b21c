/** The fixed-width row parser (`parsers.FixedParser`), as its test cases pin it down: the input
    is read record by record, each record sliced left to right into items of the given widths,
    with no trimming and no delimiter scanning. */
module FixedParser {
  import opened Wrappers
  import opened Rows

  /** The number of characters one record takes. */
  function Total(widths: seq<nat>): nat {
    if widths == [] then 0 else widths[0] + Total(widths[1..])
  }

  /** The items of one record: consecutive slices of `record` of the given widths. */
  function SliceItems(record: string, widths: seq<nat>): (items: Row)
    requires Total(widths) <= |record|
    ensures |items| == |widths|
    decreases widths
  {
    if widths == [] then []
    else [record[..widths[0]]] + SliceItems(record[widths[0]..], widths[1..])
  }

  /** The rows of `s`, and a `ParserSyntaxError` when the last record ends too soon. An empty
      input yields no rows; so does a zero total width, for which no record can be read. */
  function Parse(s: string, widths: seq<nat>): (r: ParseResult)
    decreases |s|
  {
    var total := Total(widths);
    if total == 0 || s == [] then ParseResult([], None)
    else if |s| < total then ParseResult([], Some(RecordTooShort(total, |s|)))
    else Prepend(SliceItems(s[..total], widths), Parse(s[total..], widths))
  }

  /** Concatenation of the items of a row; the inverse of slicing. */
  function Glue(items: Row): string {
    if items == [] then [] else items[0] + Glue(items[1..])
  }

  function GlueAll(rows: seq<Row>): string {
    if rows == [] then [] else Glue(rows[0]) + GlueAll(rows[1..])
  }

  /** `row` has exactly one item per width, each of exactly that width. */
  predicate Fits(row: Row, widths: seq<nat>) {
    |row| == |widths| && forall k :: 0 <= k < |row| ==> |row[k]| == widths[k]
  }

  /** Slicing a record keeps every character: the items concatenate back to the record,
      and each item has its declared width. */
  lemma {:induction false} SliceItemsInverse(record: string, widths: seq<nat>)
    requires Total(widths) == |record|
    ensures Fits(SliceItems(record, widths), widths)
    ensures Glue(SliceItems(record, widths)) == record
    decreases widths
  {
    if widths != [] {
      SliceItemsInverse(record[widths[0]..], widths[1..]);
    }
  }

  /** Slicing the concatenation of items that fit the widths gives back those items. */
  lemma {:induction false} SliceItemsOfGlue(items: Row, widths: seq<nat>)
    requires Fits(items, widths)
    ensures |Glue(items)| == Total(widths)
    ensures SliceItems(Glue(items), widths) == items
    decreases widths
  {
    if widths != [] {
      SliceItemsOfGlue(items[1..], widths[1..]);
      assert Glue(items)[..widths[0]] == items[0];
      assert Glue(items)[widths[0]..] == Glue(items[1..]);
    }
  }

  /** The rows of `r` fit the widths and, concatenated, are a prefix of `s`; less than one
      record of `s` is left over, and none exactly when `r` reports no failure. */
  predicate CoversInput(s: string, widths: seq<nat>, r: ParseResult) {
    && (forall k :: 0 <= k < |r.rows| ==> Fits(r.rows[k], widths))
    && |GlueAll(r.rows)| == |r.rows| * Total(widths)
    && |GlueAll(r.rows)| <= |s|
    && GlueAll(r.rows) == s[..|GlueAll(r.rows)|]
    && |s| - |GlueAll(r.rows)| < Total(widths)
    && (r.failure.None? <==> |GlueAll(r.rows)| == |s|)
  }

  /** What the parser yields covers the input: so the parser fails exactly when the input is
      not a whole number of records. */
  lemma {:induction false} ParseCoversInput(s: string, widths: seq<nat>)
    requires Total(widths) > 0
    ensures CoversInput(s, widths, Parse(s, widths))
    decreases |s|
  {
    var total := Total(widths);
    if s != [] && |s| >= total {
      ParseCoversInput(s[total..], widths);
      ParseCoversRecord(s, widths);
    }
  }

  /** A whole record followed by a covered rest is covered. */
  lemma ParseCoversRecord(s: string, widths: seq<nat>)
    requires Total(widths) > 0 && s != [] && |s| >= Total(widths)
    requires CoversInput(s[Total(widths)..], widths, Parse(s[Total(widths)..], widths))
    ensures CoversInput(s, widths, Parse(s, widths))
  {
    var total := Total(widths);
    SliceItemsInverse(s[..total], widths);
    CoversOneMore(s, SliceItems(s[..total], widths), Parse(s[total..], widths), widths);
  }

  /** `head`, a record of `s` that fits the widths, followed by rows that cover the rest of
      `s`, covers `s`. */
  lemma CoversOneMore(s: string, head: Row, rest: ParseResult, widths: seq<nat>)
    requires Total(widths) <= |s| && Fits(head, widths) && Glue(head) == s[..Total(widths)]
    requires CoversInput(s[Total(widths)..], widths, rest)
    ensures CoversInput(s, widths, Prepend(head, rest))
  {
    var total := Total(widths);
    var r := Prepend(head, rest);
    var n := |GlueAll(rest.rows)|;
    forall k | 0 <= k < |r.rows|
      ensures Fits(r.rows[k], widths)
    {
      if k > 0 {
        assert r.rows[k] == rest.rows[k - 1];
      }
    }
    assert r.rows[1..] == rest.rows;
    assert GlueAll(r.rows) == s[..total] + GlueAll(rest.rows);
    OneMoreRecord(|rest.rows|, total);
    PrefixAcross(s, total, n);
  }

  /** A prefix of `s` that reaches past position `a` is `s[..a]` followed by a prefix of the
      rest. */
  lemma PrefixAcross(s: string, a: nat, n: nat)
    requires a + n <= |s|
    ensures s[..a + n] == s[..a] + s[a..][..n]
  {
    assert forall i :: 0 <= i < n ==> s[a..][..n][i] == s[a + i];
  }

  lemma OneMoreRecord(count: nat, total: nat)
    ensures (count + 1) * total == total + count * total
  {
  }

  /** Round trip: rendering fitting rows back to back and parsing gives back those rows. */
  lemma {:induction false} ParseGlueAll(rows: seq<Row>, widths: seq<nat>)
    requires Total(widths) > 0
    requires forall k :: 0 <= k < |rows| ==> Fits(rows[k], widths)
    ensures Parse(GlueAll(rows), widths) == ParseResult(rows, None)
    decreases |rows|
  {
    if rows != [] {
      var total := Total(widths);
      SliceItemsOfGlue(rows[0], widths);
      ParseGlueAll(rows[1..], widths);
      var s := GlueAll(rows);
      assert s[..total] == Glue(rows[0]);
      assert s[total..] == GlueAll(rows[1..]);
    }
  }
}
