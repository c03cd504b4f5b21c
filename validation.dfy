/** How `validate` judges data against an ICD, as values: every row after the header rows is
    accepted or rejected, each with one notification per listener, and once all rows are read
    each check has its say at the end of the data. Any error from outside the cutplace error
    hierarchy aborts the validation. The class in `Interface` runs the same steps with loops and
    is proved against these functions. */
module Validation {
  import opened Wrappers
  import opened Rows
  import opened Text
  import opened Collaborators
  import opened Schema
  import DelimitedParser
  import FixedParser

  /** What stops the validation of one row. */
  datatype RowError =
    | Thrown(error: Raised)
    | InvalidCharacters(fieldName: string, cause: Raised)
    | UnexpectedData(afterItem: int)
    | MissingFields(fieldNames: seq<string>)
    | RowCheckFailed(description: string, cause: Raised)

  /** A `FieldValueError`: a field type rejected an item, or an item has a character outside the
      allowed range. */
  predicate IsFieldValueError(e: RowError) {
    e.InvalidCharacters? || (e.Thrown? && e.error.FieldValueError?)
  }

  /** An error outside the cutplace error hierarchy, which `validate` does not handle. */
  predicate IsForeign(e: RowError) {
    e.Thrown? && e.error.Foreign?
  }

  /** Why a row was rejected: a field whose item the field type (or the character range)
      refused, or any other cutplace error. */
  datatype Reason = FieldMismatch(fieldName: string, error: RowError) | Because(error: RowError)

  /** What a listener is told. */
  datatype Event =
    | AcceptedRow(row: Row)
    | RejectedRow(row: Row, reason: Reason)
    | CheckAtEndFailed(description: string, error: Raised)

  datatype Notice = Notice(listener: Listener, event: Event)

  /** Why a validation ends before its end: an error that is not a cutplace error, a
      `ParserSyntaxError` of the row reader, a field of fixed data without a single fixed length,
      or the index error raised when a `FieldValueError` comes after the last item. */
  datatype Abort =
    | Propagated(error: Raised)
    | Unparsable(syntax: ParserSyntaxError)
    | MissingFixedLength(fieldName: string)
    | FieldIndexOutOfRange(index: int)

  /* Notifications. */

  /** One notice of `event` for each listener, in the order the listeners were added. */
  function Deliveries(listeners: seq<Listener>, event: Event): (r: seq<Notice>)
    ensures |r| == |listeners|
    ensures forall i :: 0 <= i < |r| ==> r[i] == Notice(listeners[i], event)
  {
    if listeners == [] then [] else [Notice(listeners[0], event)] + Deliveries(listeners[1..], event)
  }

  /** The number of notices addressed to `l`. */
  function NoticesTo(notices: seq<Notice>, l: Listener): nat {
    if notices == [] then 0
    else (if notices[0].listener == l then 1 else 0) + NoticesTo(notices[1..], l)
  }

  lemma {:induction false} NoticesToAppend(a: seq<Notice>, b: seq<Notice>, l: Listener)
    ensures NoticesTo(a + b, l) == NoticesTo(a, l) + NoticesTo(b, l)
  {
    if a == [] {
      assert a + b == b;
    } else {
      assert (a + b)[1..] == a[1..] + b;
      NoticesToAppend(a[1..], b, l);
    }
  }

  /** Each added listener hears of an event exactly once; nobody else hears of it. */
  lemma {:induction false} DeliveredOnce(listeners: seq<Listener>, event: Event, l: Listener)
    requires Distinct(listeners)
    ensures NoticesTo(Deliveries(listeners, event), l) == if l in listeners then 1 else 0
  {
    if listeners != [] {
      var rest := listeners[1..];
      assert Distinct(rest) by {
        forall i, j | 0 <= i < j < |rest| ensures rest[i] != rest[j] {
          assert rest[i] == listeners[i + 1] && rest[j] == listeners[j + 1];
        }
      }
      DeliveredOnce(rest, event, l);
      assert Deliveries(listeners, event)[1..] == Deliveries(rest, event);
      if l == listeners[0] {
        assert l !in rest by {
          forall i | 0 <= i < |rest| ensures rest[i] != l {
            assert rest[i] == listeners[i + 1];
          }
        }
      } else {
        assert l in listeners <==> l in rest;
      }
    }
  }

  /* Items. */

  /** The error raised for a character the range refused: a `RangeValueError` becomes a
      `FieldValueError` naming the field; any other error of the range passes unchanged. */
  function CharacterFailure(fieldName: string, e: Raised): RowError {
    if e.RangeValueError? then InvalidCharacters(fieldName, e) else Thrown(e)
  }

  /** The error for the first character of `item` the allowed characters `range` refuse, if
      any. */
  function CharacterError(p: Plugins, range: string, fieldName: string, item: string): (r: Option<RowError>)
    ensures r.None? <==> forall i :: 0 <= i < |item| ==> p.characterError(range, item[i] as int).None?
    ensures r.Some? ==> exists i :: (0 <= i < |item|
      && (forall j :: 0 <= j < i ==> p.characterError(range, item[j] as int).None?)
      && p.characterError(range, item[i] as int).Some?
      && r.value == CharacterFailure(fieldName, p.characterError(range, item[i] as int).value))
  {
    if item == [] then None
    else
      match p.characterError(range, item[0] as int)
      case Some(e) => Some(CharacterFailure(fieldName, e))
      case None =>
        var rest := CharacterError(p, range, fieldName, item[1..]);
        assert forall i :: 0 <= i < |item[1..]| ==> item[1..][i] == item[i + 1];
        rest
  }

  /** The value of one item: first its characters, then (for fixed data on the item stripped
      of blanks) the empty check, for other data also the length check, and finally the field
      type proper. */
  function ItemValue(p: Plugins, df: DataFormat, ff: FieldFormat, item: string): (r: Result<Value, RowError>)
    ensures df.allowedCharacters.Some? && CharacterError(p, df.allowedCharacters.value, ff.name, item).Some?
            ==> r == Err(CharacterError(p, df.allowedCharacters.value, ff.name, item).value)
    ensures r.Ok? && df.kind == Fixed ==>
              p.validateEmpty(ff, Strip(item)).None? && p.validateValue(ff, Strip(item)) == Ok(r.value)
    ensures r.Ok? && df.kind != Fixed ==>
              p.validateEmpty(ff, item).None? && p.validateLength(ff, item).None? && p.validateValue(ff, item) == Ok(r.value)
  {
    var characters := if df.allowedCharacters.Some? then CharacterError(p, df.allowedCharacters.value, ff.name, item) else None;
    if characters.Some? then Err(characters.value)
    else
      var value := if df.kind == Fixed then Strip(item) else item;
      var empty := p.validateEmpty(ff, value);
      var length := if df.kind == Fixed then None else p.validateLength(ff, value);
      if empty.Some? then Err(Thrown(empty.value))
      else if length.Some? then Err(Thrown(length.value))
      else
        match p.validateValue(ff, value)
        case Ok(v) => Ok(v)
        case Err(e) => Err(Thrown(e))
  }

  function Min(a: nat, b: nat): nat {
    if a <= b then a else b
  }

  /** The number of items validated against field formats: one per field, as far as the row
      has items. */
  function ItemCount(row: Row, formats: seq<FieldFormat>): nat {
    Min(|row|, |formats|)
  }

  /** The item that failed and its error. */
  datatype ItemFailure = ItemFailure(itemIndex: nat, error: RowError)

  /** What validating one item against its field format does. */
  type ItemValidator = (FieldFormat, string) -> Result<Value, RowError>

  function ItemValidatorOf(p: Plugins, df: DataFormat): ItemValidator {
    (ff: FieldFormat, item: string) => ItemValue(p, df, ff, item)
  }

  /** The values of the first `k` items of `row`, keyed by field name, or the first item that
      failed. */
  function RowValues(value: ItemValidator, formats: seq<FieldFormat>, row: Row, k: nat): (r: Result<RowMap, ItemFailure>)
    requires k <= ItemCount(row, formats)
    ensures r.Ok? ==> forall i :: 0 <= i < k ==> value(formats[i], row[i]).Ok?
    ensures r.Ok? ==> forall i :: 0 <= i < k ==> formats[i].name in r.value
    ensures r.Err? ==> r.error.itemIndex < k
    ensures r.Err? ==> forall i :: 0 <= i < r.error.itemIndex ==> value(formats[i], row[i]).Ok?
    ensures r.Err? ==> value(formats[r.error.itemIndex], row[r.error.itemIndex]) == Err(r.error.error)
  {
    if k == 0 then Ok(map[])
    else
      match RowValues(value, formats, row, k - 1)
      case Err(f) => Err(f)
      case Ok(values) =>
        match value(formats[k - 1], row[k - 1])
        case Err(e) => Err(ItemFailure(k - 1, e))
        case Ok(v) => Ok(values[formats[k - 1].name := v])
  }

  /** The values of a row are keyed by the names of the fields validated. */
  lemma {:induction false} RowValuesKeys(value: ItemValidator, formats: seq<FieldFormat>, row: Row, k: nat)
    requires k <= ItemCount(row, formats) && RowValues(value, formats, row, k).Ok?
    ensures forall n :: n in RowValues(value, formats, row, k).value ==> exists i :: 0 <= i < k && formats[i].name == n
  {
    if k > 0 {
      RowValuesKeys(value, formats, row, k - 1);
    }
  }

  /** Of two fields with the same name, the later one's value is kept. */
  lemma {:induction false} RowValuesLastWins(value: ItemValidator, formats: seq<FieldFormat>, row: Row, k: nat)
    requires k <= ItemCount(row, formats) && RowValues(value, formats, row, k).Ok?
    ensures forall i :: 0 <= i < k && (forall j :: i < j < k ==> formats[j].name != formats[i].name)
                        ==> RowValues(value, formats, row, k).value[formats[i].name] == value(formats[i], row[i]).value
  {
    if k > 0 {
      RowValuesLastWins(value, formats, row, k - 1);
    }
  }

  /** The first item that fails ends the validation of the row's items. */
  lemma {:induction false} RowValuesStops(value: ItemValidator, formats: seq<FieldFormat>, row: Row, j: nat, k: nat)
    requires j <= k <= ItemCount(row, formats) && RowValues(value, formats, row, j).Err?
    ensures RowValues(value, formats, row, k) == RowValues(value, formats, row, j)
    decreases k
  {
    if k > j {
      RowValuesStops(value, formats, row, j, k - 1);
    }
  }

  /* Row checks. */

  /** `check` after its `checkRow` call for a row. */
  function Called(check: Check, rowNumber: nat, rowMap: RowMap): (c: Check)
    ensures c.calls == check.calls + [RowCall(rowNumber, rowMap)]
    ensures c == check.(calls := c.calls)
  {
    check.(calls := check.calls + [RowCall(rowNumber, rowMap)])
  }

  /** The error a failed row check raises: a `CheckError` names the check; anything else
      passes unchanged. */
  function CheckFailure(description: string, e: Raised): RowError {
    if e.CheckError? then RowCheckFailed(description, e) else Thrown(e)
  }

  /** The checks after the first `k` row checks in `order`, and the error that stopped them, if
      any. A description without a check (which a consistent ICD does not have) is passed over. */
  function RowChecks(p: Plugins, checks: map<string, Check>, order: seq<string>, rowNumber: nat, rowMap: RowMap, k: nat): (r: (map<string, Check>, Option<RowError>))
    requires k <= |order|
    ensures forall d :: d in checks ==> d in r.0
    ensures r.1.Some? ==> r.1.value.RowCheckFailed? || (r.1.value.Thrown? && !r.1.value.error.CheckError?)
  {
    if k == 0 then (checks, None)
    else
      var before := RowChecks(p, checks, order, rowNumber, rowMap, k - 1);
      var d := order[k - 1];
      if before.1.Some? || d !in before.0 then before
      else
        var check := before.0[d];
        var next := before.0[d := Called(check, rowNumber, rowMap)];
        match p.checkRow(check, rowNumber, rowMap)
        case None => (next, None)
        case Some(e) => (next, Some(CheckFailure(d, e)))
  }

  /** The first row check that fails ends the row checks. */
  lemma {:induction false} RowChecksStops(p: Plugins, checks: map<string, Check>, order: seq<string>, rowNumber: nat, rowMap: RowMap, j: nat, k: nat)
    requires j <= k <= |order| && RowChecks(p, checks, order, rowNumber, rowMap, j).1.Some?
    ensures RowChecks(p, checks, order, rowNumber, rowMap, k) == RowChecks(p, checks, order, rowNumber, rowMap, j)
    decreases k
  {
    if k > j {
      RowChecksStops(p, checks, order, rowNumber, rowMap, j, k - 1);
    }
  }

  /** The row checks change the checks but not the set of descriptions. */
  lemma {:induction false} RowChecksKeys(p: Plugins, checks: map<string, Check>, order: seq<string>, rowNumber: nat, rowMap: RowMap, k: nat)
    requires k <= |order|
    ensures RowChecks(p, checks, order, rowNumber, rowMap, k).0.Keys == checks.Keys
  {
    if k > 0 {
      RowChecksKeys(p, checks, order, rowNumber, rowMap, k - 1);
    }
  }

  /** The row checks change nothing in a check but the calls it recorded. */
  lemma {:induction false} RowChecksOnlyCalls(p: Plugins, checks: map<string, Check>, order: seq<string>, rowNumber: nat, rowMap: RowMap, k: nat)
    requires k <= |order|
    ensures var after := RowChecks(p, checks, order, rowNumber, rowMap, k).0;
      forall d :: d in checks ==> after[d] == checks[d].(calls := after[d].calls)
  {
    if k > 0 {
      RowChecksOnlyCalls(p, checks, order, rowNumber, rowMap, k - 1);
    }
  }

  /** In a sequence without repetitions, no element occurs before its own position. */
  lemma LastNotInPrefix(order: seq<string>, k: nat)
    requires 0 < k <= |order| && Distinct(order)
    ensures order[k - 1] !in order[..k - 1]
  {
    forall i | 0 <= i < k - 1 ensures order[i] != order[k - 1] {
    }
  }

  /** When all row checks pass, over an order without repetitions that names only existing
      checks, each check passed in the state the row found it in, and each has recorded exactly
      that one call. */
  lemma {:induction false} RowChecksPassed(p: Plugins, checks: map<string, Check>, order: seq<string>, rowNumber: nat, rowMap: RowMap, k: nat)
    requires k <= |order| && Distinct(order) && forall i :: 0 <= i < |order| ==> order[i] in checks
    requires RowChecks(p, checks, order, rowNumber, rowMap, k).1.None?
    ensures forall i :: 0 <= i < k ==> p.checkRow(checks[order[i]], rowNumber, rowMap).None?
    ensures forall d :: d in checks ==>
      RowChecks(p, checks, order, rowNumber, rowMap, k).0[d] ==
        if d in order[..k] then Called(checks[d], rowNumber, rowMap) else checks[d]
  {
    if k > 0 {
      RowChecksPassed(p, checks, order, rowNumber, rowMap, k - 1);
      var before := RowChecks(p, checks, order, rowNumber, rowMap, k - 1);
      var after := RowChecks(p, checks, order, rowNumber, rowMap, k);
      var d := order[k - 1];
      LastNotInPrefix(order, k);
      assert before.0[d] == checks[d];
      assert after.0 == before.0[d := Called(checks[d], rowNumber, rowMap)];
      assert order[..k] == order[..k - 1] + [d];
      MarkCalled(checks, before.0, order[..k - 1], d, rowNumber, rowMap);
    }
  }

  /** Calling one more check `d`, not among the checks in `prefix` called so far, leaves
      exactly the checks in `prefix + [d]` called. */
  lemma MarkCalled(checks: map<string, Check>, state: map<string, Check>, prefix: seq<string>, d: string, rowNumber: nat, rowMap: RowMap)
    requires d in checks && d !in prefix
    requires forall x :: x in checks ==> x in state
    requires forall x :: x in checks ==>
      state[x] == if x in prefix then Called(checks[x], rowNumber, rowMap) else checks[x]
    ensures forall x :: x in checks ==>
      state[d := Called(checks[d], rowNumber, rowMap)][x] ==
        if x in prefix + [d] then Called(checks[x], rowNumber, rowMap) else checks[x]
  {
  }

  /* Rows. */

  /** `after` differs from `before` in the calls its checks recorded only: the same fields,
      the same checks, each with the same description, type, rule and field names. */
  predicate CallsOnlyChanged(before: Icd, after: Icd) {
    && after == before.(checks := after.checks)
    && after.checks.Keys == before.checks.Keys
    && forall d :: d in before.checks ==> after.checks[d] == before.checks[d].(calls := after.checks[d].calls)
  }

  lemma CallsOnlyChangedTrans(a: Icd, b: Icd, c: Icd)
    requires CallsOnlyChanged(a, b) && CallsOnlyChanged(b, c)
    ensures CallsOnlyChanged(a, c)
  {
  }

  /** What happens to a row. */
  datatype Verdict = Accepted | Rejected(reason: Reason) | Aborted(abort: Abort)

  /** How `validate` handles an error raised while it validates a row, with the item index it
      had reached: an error outside the cutplace errors aborts; a `FieldValueError` rejects the
      row naming the field at the item index, which raises an index error when there is no
      such field; any other cutplace error rejects the row with that error as reason. */
  function Classify(fieldNames: seq<string>, itemIndex: int, e: RowError): (v: Verdict)
    ensures v.Aborted? <==> IsForeign(e) || (IsFieldValueError(e) && !(0 <= itemIndex < |fieldNames|))
    ensures v.Rejected? && IsFieldValueError(e) ==> v.reason == FieldMismatch(fieldNames[itemIndex], e)
    ensures v.Rejected? && !IsFieldValueError(e) ==> v.reason == Because(e)
    ensures v.Aborted? && !IsForeign(e) ==> v.abort == FieldIndexOutOfRange(itemIndex)
  {
    if IsForeign(e) then Aborted(Propagated(e.error))
    else if IsFieldValueError(e) then
      if 0 <= itemIndex < |fieldNames| then Rejected(FieldMismatch(fieldNames[itemIndex], e))
      else Aborted(FieldIndexOutOfRange(itemIndex))
    else Rejected(Because(e))
  }

  /** The names of the fields a row of `n` items has no items for, as `validate` lists them:
      from field `n - 1` on, where Python's negative index makes `n == 0` the last field. */
  function MissingFieldNamesAsWritten(fieldNames: seq<string>, n: nat): seq<string> {
    if n == 0 then (if fieldNames == [] then [] else fieldNames[|fieldNames| - 1..])
    else if n - 1 <= |fieldNames| then fieldNames[n - 1..]
    else []
  }

  /** The names of the fields a row of `n` items has no items for: exactly those from field `n`
      on. */
  function MissingFieldNames(fieldNames: seq<string>, n: nat): (r: seq<string>)
    ensures Distinct(fieldNames) ==> forall i :: 0 <= i < |fieldNames| ==> (fieldNames[i] in r <==> n <= i)
    ensures n <= |fieldNames| ==> |r| == |fieldNames| - n
  {
    if n <= |fieldNames| then
      var r := fieldNames[n..];
      assert forall j :: 0 <= j < |r| ==> r[j] == fieldNames[n + j];
      r
    else []
  }

  /** As written, a row with one item but two fields lists the field it does have an item for
      as missing, and an empty row lists the last field only. */
  lemma MissingFieldNamesOffByOne()
    ensures "a" in MissingFieldNamesAsWritten(["a", "b"], 1)
    ensures "a" !in MissingFieldNames(["a", "b"], 1)
    ensures MissingFieldNamesAsWritten(["a", "b"], 0) == ["b"]
    ensures MissingFieldNames(["a", "b"], 0) == ["a", "b"]
  {
    assert MissingFieldNamesAsWritten(["a", "b"], 1)[0] == "a";
    assert MissingFieldNames(["a", "b"], 1) == ["b"];
  }

  /** One row, found at `rowNumber`: `value` validates its items against their field
      formats; then surplus items or missing items reject it; then the row checks run. Only the
      checks change. */
  function ValidateRow(p: Plugins, value: ItemValidator, icd: Icd, row: Row, rowNumber: nat): (r: (Icd, Verdict))
    ensures CallsOnlyChanged(icd, r.0)
    ensures RowValues(value, icd.fieldFormats, row, ItemCount(row, icd.fieldFormats)).Ok? && |row| > |icd.fieldFormats|
            ==> r == (icd, Rejected(Because(UnexpectedData(|icd.fieldFormats| - 1))))
    ensures RowValues(value, icd.fieldFormats, row, ItemCount(row, icd.fieldFormats)).Ok? && |row| < |icd.fieldFormats|
            ==> r == (icd, Rejected(Because(MissingFields(MissingFieldNames(icd.fieldNames, |row|)))))
    ensures r.1 == Accepted ==>
      && |row| == |icd.fieldFormats|
      && (forall i :: 0 <= i < |row| ==> value(icd.fieldFormats[i], row[i]).Ok?)
  {
    var formats := icd.fieldFormats;
    match RowValues(value, formats, row, ItemCount(row, formats))
    case Err(f) => (icd, Classify(icd.fieldNames, f.itemIndex, f.error))
    case Ok(rowMap) =>
      if |row| > |formats| then
        (icd, Classify(icd.fieldNames, |formats| - 1, UnexpectedData(|formats| - 1)))
      else if |row| < |formats| then
        (icd, Classify(icd.fieldNames, |row|, MissingFields(MissingFieldNames(icd.fieldNames, |row|))))
      else
        var checked := RowChecks(p, icd.checks, icd.checkOrder, rowNumber, rowMap, |icd.checkOrder|);
        RowChecksKeys(p, icd.checks, icd.checkOrder, rowNumber, rowMap, |icd.checkOrder|);
        RowChecksOnlyCalls(p, icd.checks, icd.checkOrder, rowNumber, rowMap, |icd.checkOrder|);
        var next := icd.(checks := checked.0);
        if checked.1.Some? then (next, Classify(icd.fieldNames, |row|, checked.1.value))
        else (next, Accepted)
  }

  /** The verdict on a row, case by case. The first item its field refuses rejects the row,
      naming that field when the error is a `FieldValueError`, and aborts the validation when
      the error comes from outside cutplace; either way the checks do not run. A row with one
      valid item per field then faces the row checks: a cutplace error of one rejects the row, a
      `FieldValueError` of one finds no field after the last item and aborts, and an error from
      outside cutplace aborts. A row is accepted exactly when it has one valid item per field
      and every row check passes. */
  lemma ValidateRowVerdict(p: Plugins, value: ItemValidator, icd: Icd, row: Row, rowNumber: nat)
    ensures var formats := icd.fieldFormats;
      var values := RowValues(value, formats, row, ItemCount(row, formats));
      var r := ValidateRow(p, value, icd, row, rowNumber);
      && (values.Err? ==> r.0 == icd)
      && (values.Err? && IsForeign(values.error.error) ==> r.1 == Aborted(Propagated(values.error.error.error)))
      && (values.Err? && IsFieldValueError(values.error.error) && |icd.fieldNames| == |formats| ==>
              r.1 == Rejected(FieldMismatch(icd.fieldNames[values.error.itemIndex], values.error.error)))
      && (values.Err? && !IsForeign(values.error.error) && !IsFieldValueError(values.error.error) ==>
              r.1 == Rejected(Because(values.error.error)))
      && (r.1 == Accepted <==>
            && values.Ok? && |row| == |formats|
            && RowChecks(p, icd.checks, icd.checkOrder, rowNumber, values.value, |icd.checkOrder|).1.None?)
    ensures var formats := icd.fieldFormats;
      var values := RowValues(value, formats, row, ItemCount(row, formats));
      var r := ValidateRow(p, value, icd, row, rowNumber);
      values.Ok? && |row| == |formats| ==>
        var checked := RowChecks(p, icd.checks, icd.checkOrder, rowNumber, values.value, |icd.checkOrder|);
        && r.0 == icd.(checks := checked.0)
        && (checked.1.Some? && !IsForeign(checked.1.value) && !IsFieldValueError(checked.1.value) ==>
              r.1 == Rejected(Because(checked.1.value)))
        && (checked.1.Some? && IsFieldValueError(checked.1.value) && |icd.fieldNames| == |formats| ==>
              r.1 == Aborted(FieldIndexOutOfRange(|row|)))
        && (checked.1.Some? && IsForeign(checked.1.value) ==> r.1 == Aborted(Propagated(checked.1.value.error)))
  {
  }

  /* Runs over the rows. */

  /** What validating one row does. */
  type RowValidator = (Icd, Row, nat) -> (Icd, Verdict)

  function RowValidatorOf(p: Plugins, df: DataFormat): RowValidator {
    (icd: Icd, row: Row, rowNumber: nat) => ValidateRow(p, ItemValidatorOf(p, df), icd, row, rowNumber)
  }

  /** The state of a validation after some rows. */
  datatype Run = Run(icd: Icd, accepted: nat, rejected: nat, notices: seq<Notice>, abort: Option<Abort>)

  /** The number of rows among the first `k` that come after the `header` rows. */
  function RowsAfterHeader(k: nat, header: nat): nat {
    if k <= header then 0 else k - header
  }

  /** The run over the first `k` rows: rows are numbered from 1, the first `header` rows are
      passed over, each further row is accepted or rejected with one notice per listener, and
      the run stops at the first row that aborts it. */
  function RunRows(validate: RowValidator, start: Icd, rows: seq<Row>, header: nat, listeners: seq<Listener>, k: nat): Run
    requires k <= |rows|
  {
    if k == 0 then Run(start, 0, 0, [], None)
    else
      var before := RunRows(validate, start, rows, header, listeners, k - 1);
      var row := rows[k - 1];
      if before.abort.Some? || k <= header then before
      else
        var (next, verdict) := validate(before.icd, row, k);
        match verdict
        case Accepted =>
          Run(next, before.accepted + 1, before.rejected, before.notices + Deliveries(listeners, AcceptedRow(row)), None)
        case Rejected(reason) =>
          Run(next, before.accepted, before.rejected + 1, before.notices + Deliveries(listeners, RejectedRow(row, reason)), None)
        case Aborted(a) =>
          Run(next, before.accepted, before.rejected, before.notices, Some(a))
  }

  /** The run after `row` came out with `verdict`, leaving the ICD at `next`. */
  function Advance(before: Run, next: Icd, verdict: Verdict, row: Row, listeners: seq<Listener>): Run {
    match verdict
    case Accepted =>
      Run(next, before.accepted + 1, before.rejected, before.notices + Deliveries(listeners, AcceptedRow(row)), None)
    case Rejected(reason) =>
      Run(next, before.accepted, before.rejected + 1, before.notices + Deliveries(listeners, RejectedRow(row, reason)), None)
    case Aborted(a) =>
      Run(next, before.accepted, before.rejected, before.notices, Some(a))
  }

  /** One more row after the header rows, on a run still going, advances it by its verdict. */
  lemma RunRowsNext(validate: RowValidator, start: Icd, rows: seq<Row>, header: nat, listeners: seq<Listener>, k: nat, next: Icd, verdict: Verdict)
    requires k < |rows| && header <= k
    requires RunRows(validate, start, rows, header, listeners, k).abort.None?
    requires validate(RunRows(validate, start, rows, header, listeners, k).icd, rows[k], k + 1) == (next, verdict)
    ensures RunRows(validate, start, rows, header, listeners, k + 1)
            == Advance(RunRows(validate, start, rows, header, listeners, k), next, verdict, rows[k], listeners)
  {
  }

  /** The first row that aborts ends the run. */
  lemma {:induction false} RunRowsStops(validate: RowValidator, start: Icd, rows: seq<Row>, header: nat, listeners: seq<Listener>, j: nat, k: nat)
    requires j <= k <= |rows| && RunRows(validate, start, rows, header, listeners, j).abort.Some?
    ensures RunRows(validate, start, rows, header, listeners, k) == RunRows(validate, start, rows, header, listeners, j)
    decreases k
  {
    if k > j {
      RunRowsStops(validate, start, rows, header, listeners, j, k - 1);
    }
  }

  /** Without an abort every row after the header is either accepted or rejected; with one, no
      more rows than that. */
  lemma {:induction false} RunRowsCounts(validate: RowValidator, start: Icd, rows: seq<Row>, header: nat, listeners: seq<Listener>, k: nat)
    requires k <= |rows|
    ensures var run := RunRows(validate, start, rows, header, listeners, k);
      && run.accepted + run.rejected <= RowsAfterHeader(k, header)
      && (run.abort.None? ==> run.accepted + run.rejected == RowsAfterHeader(k, header))
  {
    if k > 0 {
      RunRowsCounts(validate, start, rows, header, listeners, k - 1);
    }
  }

  /** One notice per listener for each accepted or rejected row. */
  lemma {:induction false} RunRowsNoticeCount(validate: RowValidator, start: Icd, rows: seq<Row>, header: nat, listeners: seq<Listener>, k: nat)
    requires k <= |rows|
    ensures var run := RunRows(validate, start, rows, header, listeners, k);
      |run.notices| == (run.accepted + run.rejected) * |listeners|
  {
    if k > 0 {
      RunRowsNoticeCount(validate, start, rows, header, listeners, k - 1);
      var before := RunRows(validate, start, rows, header, listeners, k - 1);
      var run := RunRows(validate, start, rows, header, listeners, k);
      if before.abort.None? && k > header {
        var row := rows[k - 1];
        var verdict := validate(before.icd, row, k).1;
        if !verdict.Aborted? {
          var event := if verdict.Accepted? then AcceptedRow(row) else RejectedRow(row, verdict.reason);
          assert run.notices == before.notices + Deliveries(listeners, event);
          assert run.accepted + run.rejected == before.accepted + before.rejected + 1;
          OneMoreRound(before.accepted + before.rejected, |listeners|);
        } else {
          assert run.notices == before.notices && run.accepted == before.accepted && run.rejected == before.rejected;
        }
      } else {
        assert run == before;
      }
    }
  }

  lemma OneMoreRound(handled: nat, n: nat)
    ensures (handled + 1) * n == handled * n + n
  {
  }

  /** Each listener hears exactly once of each accepted or rejected row, and nobody else hears
      of any. */
  lemma {:induction false} RunRowsNoticesTo(validate: RowValidator, start: Icd, rows: seq<Row>, header: nat, listeners: seq<Listener>, k: nat, l: Listener)
    requires k <= |rows| && Distinct(listeners)
    ensures var run := RunRows(validate, start, rows, header, listeners, k);
      NoticesTo(run.notices, l) == if l in listeners then run.accepted + run.rejected else 0
  {
    if k > 0 {
      RunRowsNoticesTo(validate, start, rows, header, listeners, k - 1, l);
      var before := RunRows(validate, start, rows, header, listeners, k - 1);
      if before.abort.None? && k > header {
        var row := rows[k - 1];
        var verdict := validate(before.icd, row, k).1;
        if !verdict.Aborted? {
          var event := if verdict.Accepted? then AcceptedRow(row) else RejectedRow(row, verdict.reason);
          NoticesToAppend(before.notices, Deliveries(listeners, event), l);
          DeliveredOnce(listeners, event, l);
        }
      }
    }
  }

  /** A row validator that changes only the checks, and not which checks there are, makes a run
      that does the same. */
  lemma {:induction false} RunRowsKeepsIcd(validate: RowValidator, start: Icd, rows: seq<Row>, header: nat, listeners: seq<Listener>, k: nat)
    requires k <= |rows|
    requires forall icd, row, n :: CallsOnlyChanged(icd, validate(icd, row, n).0)
    ensures CallsOnlyChanged(start, RunRows(validate, start, rows, header, listeners, k).icd)
  {
    if k > 0 {
      RunRowsKeepsIcd(validate, start, rows, header, listeners, k - 1);
      var before := RunRows(validate, start, rows, header, listeners, k - 1);
      if before.abort.None? && k > header {
        var next := validate(before.icd, rows[k - 1], k).0;
        assert CallsOnlyChanged(before.icd, next);
        CallsOnlyChangedTrans(start, before.icd, next);
      }
    }
  }

  /* Checks at the end of the data. */

  /** The state after some checks at end. */
  datatype EndRun = EndRun(passed: nat, failed: nat, notices: seq<Notice>, abort: Option<Abort>)

  /** The checks at end of the first `k` checks in `order`: a check that raises no error passes,
      one that raises a `CheckError` fails with one notice per listener, and any other error
      stops them. */
  function EndChecks(p: Plugins, checks: map<string, Check>, order: seq<string>, listeners: seq<Listener>, k: nat): EndRun
    requires k <= |order|
  {
    if k == 0 then EndRun(0, 0, [], None)
    else
      var before := EndChecks(p, checks, order, listeners, k - 1);
      var d := order[k - 1];
      if before.abort.Some? || d !in checks then before
      else
        match p.checkAtEnd(checks[d])
        case None => before.(passed := before.passed + 1)
        case Some(e) =>
          if e.CheckError? then
            before.(failed := before.failed + 1, notices := before.notices + Deliveries(listeners, CheckAtEndFailed(d, e)))
          else before.(abort := Some(Propagated(e)))
  }

  /** The first check at end that raises an error other than a `CheckError` ends the checks
      at end. */
  lemma {:induction false} EndChecksStops(p: Plugins, checks: map<string, Check>, order: seq<string>, listeners: seq<Listener>, j: nat, k: nat)
    requires j <= k <= |order| && EndChecks(p, checks, order, listeners, j).abort.Some?
    ensures EndChecks(p, checks, order, listeners, k) == EndChecks(p, checks, order, listeners, j)
    decreases k
  {
    if k > j {
      EndChecksStops(p, checks, order, listeners, j, k - 1);
    }
  }

  /** Without an abort every check of a consistent ICD passes or fails. */
  lemma {:induction false} EndChecksCounts(p: Plugins, checks: map<string, Check>, order: seq<string>, listeners: seq<Listener>, k: nat)
    requires k <= |order| && ChecksAgree(order, checks)
    ensures var end := EndChecks(p, checks, order, listeners, k);
      && end.passed + end.failed <= k
      && (end.abort.None? ==> end.passed + end.failed == k)
  {
    if k > 0 {
      EndChecksCounts(p, checks, order, listeners, k - 1);
      assert order[k - 1] in checks;
    }
  }

  /** One notice per listener for each check that failed at end. */
  lemma {:induction false} EndChecksNoticeCount(p: Plugins, checks: map<string, Check>, order: seq<string>, listeners: seq<Listener>, k: nat)
    requires k <= |order|
    ensures var end := EndChecks(p, checks, order, listeners, k);
      |end.notices| == end.failed * |listeners|
  {
    if k > 0 {
      EndChecksNoticeCount(p, checks, order, listeners, k - 1);
      var failed := EndChecks(p, checks, order, listeners, k - 1).failed;
      assert (failed + 1) * |listeners| == failed * |listeners| + |listeners|;
    }
  }

  /** Each failure at end reaches every listener exactly once. */
  lemma {:induction false} EndChecksNoticesTo(p: Plugins, checks: map<string, Check>, order: seq<string>, listeners: seq<Listener>, k: nat, l: Listener)
    requires k <= |order| && Distinct(listeners)
    ensures var end := EndChecks(p, checks, order, listeners, k);
      NoticesTo(end.notices, l) == if l in listeners then end.failed else 0
  {
    if k > 0 {
      EndChecksNoticesTo(p, checks, order, listeners, k - 1, l);
      var before := EndChecks(p, checks, order, listeners, k - 1);
      var d := order[k - 1];
      if before.abort.None? && d in checks && p.checkAtEnd(checks[d]).Some? {
        var event := CheckAtEndFailed(d, p.checkAtEnd(checks[d]).value);
        NoticesToAppend(before.notices, Deliveries(listeners, event), l);
        DeliveredOnce(listeners, event, l);
      }
    }
  }

  /** A check passes at end exactly when it raises no error, given that no earlier check
      stopped the others. */
  lemma {:induction false} EndChecksPassed(p: Plugins, checks: map<string, Check>, order: seq<string>, listeners: seq<Listener>, k: nat)
    requires k <= |order| && ChecksAgree(order, checks)
    ensures var end := EndChecks(p, checks, order, listeners, k);
      end.abort.None? && end.failed == 0 <==> forall i :: 0 <= i < k ==> p.checkAtEnd(checks[order[i]]).None?
  {
    if k > 0 {
      EndChecksPassed(p, checks, order, listeners, k - 1);
      assert order[k - 1] in checks;
    }
  }

  /* A whole validation. */

  /** Every check with its state cleared (`reset`). */
  function ResetChecks(checks: map<string, Check>): (r: map<string, Check>)
    ensures r.Keys == checks.Keys
    ensures forall d :: d in r ==> r[d] == checks[d].(calls := [])
  {
    map d | d in checks :: checks[d].(calls := [])
  }

  /** The widths of fixed data: the single fixed length of each field, or the first field that
      has none. */
  function FixedLengths(p: Plugins, formats: seq<FieldFormat>): (r: Result<seq<nat>, Abort>)
    ensures r.Ok? ==> |r.value| == |formats| && forall i :: 0 <= i < |formats| ==> p.fixedLength(formats[i]) == Some(r.value[i])
    ensures r.Err? ==> exists i :: (0 <= i < |formats|
      && (forall j :: 0 <= j < i ==> p.fixedLength(formats[j]).Some?)
      && p.fixedLength(formats[i]).None? && r.error == MissingFixedLength(formats[i].name))
  {
    if formats == [] then Ok([])
    else
      match p.fixedLength(formats[0])
      case None => Err(MissingFixedLength(formats[0].name))
      case Some(n) =>
        match FixedLengths(p, formats[1..])
        case Err(e) =>
          assert forall i :: 0 <= i < |formats| - 1 ==> formats[1..][i] == formats[i + 1];
          Err(e)
        case Ok(rest) => Ok([n] + rest)
  }

  /** When every field has a single fixed length, those are the widths. */
  lemma {:induction false} FixedLengthsOfAll(p: Plugins, formats: seq<FieldFormat>, widths: seq<nat>)
    requires |widths| == |formats| && forall j :: 0 <= j < |formats| ==> p.fixedLength(formats[j]) == Some(widths[j])
    ensures FixedLengths(p, formats) == Ok(widths)
  {
    if formats != [] {
      FixedLengthsOfAll(p, formats[1..], widths[1..]);
      assert widths == [widths[0]] + widths[1..];
    }
  }

  /** The dialect of delimited data: the delimiters and quote character of the data format, with
      the default escape character `"`. */
  function DataDialect(df: DataFormat): (d: DelimitedParser.Dialect)
    ensures d.lineDelimiter == df.lineDelimiter && d.itemDelimiter == df.itemDelimiter
    ensures d.quoteChar == df.quoteChar && d.escapeChar == '"'
  {
    DelimitedParser.Dialect(df.lineDelimiter, df.itemDelimiter, df.quoteChar, '"')
  }

  /** The rows of the data `data`, read the way its format demands. */
  function DataRows(p: Plugins, df: DataFormat, formats: seq<FieldFormat>, data: string): (r: Result<ParseResult, Abort>)
    ensures df.kind == Csv ==> r == Ok(DelimitedParser.Parse(data, DataDialect(df)))
    ensures df.kind == Fixed ==> (r.Err? <==> FixedLengths(p, formats).Err?)
    ensures df.kind == Fixed && r.Ok? ==> r.value == FixedParser.Parse(data, FixedLengths(p, formats).value)
    ensures df.kind == Excel || df.kind == Ods ==> r == Ok(p.sheetRows(df.kind, data))
  {
    match df.kind
    case Csv => Ok(DelimitedParser.Parse(data, DataDialect(df)))
    case Fixed =>
      (match FixedLengths(p, formats)
       case Err(a) => Err(a)
       case Ok(widths) => Ok(FixedParser.Parse(data, widths)))
    case Excel => Ok(p.sheetRows(Excel, data))
    case Ods => Ok(p.sheetRows(Ods, data))
  }

  /** What a validation leaves: the ICD with the checks' new state, the four counters, every
      notice in the order it was sent, and why the validation stopped early, if it did. */
  datatype Outcome = Outcome(icd: Icd, accepted: nat, rejected: nat, passed: nat, failed: nat, notices: seq<Notice>, abort: Option<Abort>)

  /** `validate` of the data `data` for `listeners`. */
  function Validate(p: Plugins, icd: Icd, data: string, listeners: seq<Listener>): Outcome
    requires icd.dataFormat.Some?
  {
    var df := icd.dataFormat.value;
    var start := icd.(checks := ResetChecks(icd.checks));
    match DataRows(p, df, icd.fieldFormats, data)
    case Err(a) => Outcome(start, 0, 0, 0, 0, [], Some(a))
    case Ok(parsed) =>
      var run := RunRows(RowValidatorOf(p, df), start, parsed.rows, df.header, listeners, |parsed.rows|);
      if run.abort.Some? then Outcome(run.icd, run.accepted, run.rejected, 0, 0, run.notices, run.abort)
      else if parsed.failure.Some? then
        Outcome(run.icd, run.accepted, run.rejected, 0, 0, run.notices, Some(Unparsable(parsed.failure.value)))
      else
        var end := EndChecks(p, run.icd.checks, run.icd.checkOrder, listeners, |run.icd.checkOrder|);
        Outcome(run.icd, run.accepted, run.rejected, end.passed, end.failed, run.notices + end.notices, end.abort)
  }

  /** Validating a row changes only the state of the checks. */
  lemma RowValidatorKeepsIcd(p: Plugins, df: DataFormat)
    ensures var validate := RowValidatorOf(p, df);
      forall icd, row, n :: CallsOnlyChanged(icd, validate(icd, row, n).0)
  {
    var validate := RowValidatorOf(p, df);
    forall icd, row, n
      ensures CallsOnlyChanged(icd, validate(icd, row, n).0)
    {
      assert validate(icd, row, n) == ValidateRow(p, ItemValidatorOf(p, df), icd, row, n);
    }
  }

  /** Validating changes only the state of the checks, so a consistent ICD stays consistent. */
  lemma ValidateKeepsIcd(p: Plugins, icd: Icd, data: string, listeners: seq<Listener>)
    requires icd.dataFormat.Some?
    ensures var out := Validate(p, icd, data, listeners);
      && CallsOnlyChanged(icd, out.icd)
      && (Consistent(icd) ==> Consistent(out.icd))
  {
    var df := icd.dataFormat.value;
    var start := icd.(checks := ResetChecks(icd.checks));
    assert CallsOnlyChanged(icd, start);
    var rows := DataRows(p, df, icd.fieldFormats, data);
    if rows.Ok? {
      RowValidatorKeepsIcd(p, df);
      RunRowsKeepsIcd(RowValidatorOf(p, df), start, rows.value.rows, df.header, listeners, |rows.value.rows|);
      var run := RunRows(RowValidatorOf(p, df), start, rows.value.rows, df.header, listeners, |rows.value.rows|);
      CallsOnlyChangedTrans(icd, start, run.icd);
    }
  }

  /** Checks that differ in their recorded calls only are the same once reset. */
  lemma ResetForgetsCalls(a: map<string, Check>, b: map<string, Check>)
    requires b.Keys == a.Keys && forall d :: d in a ==> b[d] == a[d].(calls := b[d].calls)
    ensures ResetChecks(b) == ResetChecks(a)
  {
    assert forall d :: d in ResetChecks(a) ==> ResetChecks(b)[d] == ResetChecks(a)[d];
  }

  /** Validating the same data again right after a validation gives the same outcome: the
      same counts, notices and abort, and the same checks. Every validation starts from the
      checks reset, and a validation changes nothing else. */
  lemma ValidateTwice(p: Plugins, icd: Icd, data: string, listeners: seq<Listener>)
    requires icd.dataFormat.Some?
    ensures var out := Validate(p, icd, data, listeners);
      out.icd.dataFormat.Some? && Validate(p, out.icd, data, listeners) == out
  {
    var out := Validate(p, icd, data, listeners);
    ValidateKeepsIcd(p, icd, data, listeners);
    ResetForgetsCalls(icd.checks, out.icd.checks);
    assert out.icd.(checks := ResetChecks(out.icd.checks)) == icd.(checks := ResetChecks(icd.checks));
  }

  /** A validation that runs to its end accepts or rejects every row after the header, and
      every check at end passes or fails. */
  lemma ValidateCounts(p: Plugins, icd: Icd, data: string, listeners: seq<Listener>)
    requires icd.dataFormat.Some? && Consistent(icd)
    ensures var out := Validate(p, icd, data, listeners);
      var parsed := DataRows(p, icd.dataFormat.value, icd.fieldFormats, data);
      out.abort.None? ==>
        && parsed.Ok?
        && out.accepted + out.rejected == RowsAfterHeader(|parsed.value.rows|, icd.dataFormat.value.header)
        && out.passed + out.failed == |icd.checkOrder|
  {
    var df := icd.dataFormat.value;
    var start := icd.(checks := ResetChecks(icd.checks));
    var rows := DataRows(p, df, icd.fieldFormats, data);
    if rows.Ok? {
      var parsed := rows.value;
      var validate := RowValidatorOf(p, df);
      RunRowsCounts(validate, start, parsed.rows, df.header, listeners, |parsed.rows|);
      RowValidatorKeepsIcd(p, df);
      RunRowsKeepsIcd(validate, start, parsed.rows, df.header, listeners, |parsed.rows|);
      var run := RunRows(validate, start, parsed.rows, df.header, listeners, |parsed.rows|);
      assert run.icd.checkOrder == icd.checkOrder;
      assert ChecksAgree(run.icd.checkOrder, run.icd.checks);
      EndChecksCounts(p, run.icd.checks, run.icd.checkOrder, listeners, |run.icd.checkOrder|);
    }
  }

  /** Each listener hears once of each accepted or rejected row and of each failed check at
      end. */
  lemma ValidateNotices(p: Plugins, icd: Icd, data: string, listeners: seq<Listener>, l: Listener)
    requires icd.dataFormat.Some? && Distinct(listeners) && l in listeners
    ensures var out := Validate(p, icd, data, listeners);
      NoticesTo(out.notices, l) == out.accepted + out.rejected + out.failed
  {
    var df := icd.dataFormat.value;
    var start := icd.(checks := ResetChecks(icd.checks));
    var rows := DataRows(p, df, icd.fieldFormats, data);
    if rows.Ok? {
      var parsed := rows.value;
      var validate := RowValidatorOf(p, df);
      RunRowsNoticesTo(validate, start, parsed.rows, df.header, listeners, |parsed.rows|, l);
      var run := RunRows(validate, start, parsed.rows, df.header, listeners, |parsed.rows|);
      EndChecksNoticesTo(p, run.icd.checks, run.icd.checkOrder, listeners, |run.icd.checkOrder|, l);
      var end := EndChecks(p, run.icd.checks, run.icd.checkOrder, listeners, |run.icd.checkOrder|);
      NoticesToAppend(run.notices, end.notices, l);
    }
  }
}
