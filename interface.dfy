/** The interface control document (`InterfaceControlDocument`): the data format, fields and
    checks read from an ICD, the validation of data against them with its four counters, and
    the listeners told of each row. Each method is proved to do what the functions of `Schema`
    and `Validation` say, and to keep the ICD consistent. */
module Interface {
  import opened Wrappers
  import opened Rows
  import opened Text
  import opened Collaborators
  import opened Schema
  import opened Validation

  /** The index of the first occurrence of `x` in `s`. */
  function IndexOf(s: seq<Listener>, x: Listener): (i: nat)
    requires x in s
    ensures i < |s| && s[i] == x && x !in s[..i]
  {
    if s[0] == x then 0
    else
      var i := IndexOf(s[1..], x);
      assert s[..i + 1] == [s[0]] + s[1..][..i];
      i + 1
  }

  /** `s` without the first occurrence of `x` (`list.remove`). */
  function RemoveFirst(s: seq<Listener>, x: Listener): seq<Listener>
    requires x in s
  {
    s[..IndexOf(s, x)] + s[IndexOf(s, x) + 1..]
  }

  /** Removing a listener from listeners that are all distinct leaves all others, still
      distinct. */
  lemma RemoveFirstOfDistinct(s: seq<Listener>, x: Listener)
    requires x in s && Distinct(s)
    ensures var r := RemoveFirst(s, x);
      && |r| == |s| - 1 && Distinct(r) && x !in r
      && forall y :: y != x ==> (y in r <==> y in s)
  {
    var i := IndexOf(s, x);
    var r := RemoveFirst(s, x);
    assert |r| == |s| - 1;
    assert forall j :: 0 <= j < |r| ==> r[j] == s[if j < i then j else j + 1];
    forall a, b | 0 <= a < b < |r| ensures r[a] != r[b] {
      assert r[a] == s[if a < i then a else a + 1];
      assert r[b] == s[if b < i then b else b + 1];
    }
    forall y | y != x && y in s ensures y in r {
      var j :| 0 <= j < |s| && s[j] == y;
      if j < i { assert r[j] == y; } else { assert r[j - 1] == y; }
    }
  }

  class InterfaceControlDocument {
    /** The behaviour of the data formats, field types, checks and ranges the ICD uses. */
    const plugins: Plugins
    var dataFormat: Option<DataFormat>
    var fieldNames: seq<string>
    var fieldFormats: seq<FieldFormat>
    var fieldNameToFormatMap: map<string, FieldFormat>
    var checkDescriptions: map<string, Check>
    /** The order in which `checkDescriptions` is iterated. */
    var checkOrder: seq<string>
    var acceptedCount: nat
    var rejectedCount: nat
    var failedChecksAtEndCount: nat
    var passedChecksAtEndCount: nat
    var listeners: seq<Listener>

    /** The ICD this object holds. */
    function Model(): Icd
      reads this
    {
      Icd(dataFormat, fieldNames, fieldFormats, fieldNameToFormatMap, checkOrder, checkDescriptions)
    }

    predicate Valid()
      reads this
    {
      Consistent(Model()) && Distinct(listeners)
    }

    /** The counters and the listeners. */
    function Counters(): (nat, nat, nat, nat, seq<Listener>)
      reads this
    {
      (acceptedCount, rejectedCount, failedChecksAtEndCount, passedChecksAtEndCount, listeners)
    }

    /** An empty ICD. */
    constructor(p: Plugins)
      ensures Valid() && plugins == p && Model() == EmptyIcd && Counters() == (0, 0, 0, 0, [])
    {
      plugins := p;
      dataFormat := None;
      fieldNames := [];
      fieldFormats := [];
      fieldNameToFormatMap := map[];
      checkDescriptions := map[];
      checkOrder := [];
      acceptedCount := 0;
      rejectedCount := 0;
      failedChecksAtEndCount := 0;
      passedChecksAtEndCount := 0;
      listeners := [];
    }

    method ResetCounts()
      modifies this
      ensures Model() == old(Model()) && listeners == old(listeners)
      ensures acceptedCount == 0 && rejectedCount == 0 && failedChecksAtEndCount == 0 && passedChecksAtEndCount == 0
    {
      acceptedCount := 0;
      rejectedCount := 0;
      failedChecksAtEndCount := 0;
      passedChecksAtEndCount := 0;
    }

    /** `addDataFormat`: a `d` row. */
    method AddDataFormat(items: seq<string>) returns (error: Option<IcdError>)
      requires Valid()
      modifies this
      ensures Valid() && Counters() == old(Counters())
      ensures var r := Schema.AddDataFormat(plugins, old(Model()), items);
        && (r.Ok? ==> error.None? && Model() == r.value)
        && (r.Err? ==> error == Some(r.error) && Model() == old(Model()))
    {
      AddDataFormatKeepsConsistent(plugins, Model(), items);
      if |items| == 0 {
        return Some(TooFewDataFormatItems);
      }
      var key := items[0];
      var value := if |items| >= 2 then items[1] else "";
      if plugins.isFormatKey(key) {
        if dataFormat.None? {
          var created := plugins.createDataFormat(value);
          if created.Err? {
            return Some(Collaborator(created.error));
          }
          dataFormat := Some(created.value);
        } else {
          return Some(FormatSetTwice(dataFormat.value.kind));
        }
      } else if dataFormat.Some? {
        var changed := plugins.setProperty(dataFormat.value, key, value);
        if changed.Err? {
          return Some(Collaborator(changed.error));
        }
        dataFormat := Some(changed.value);
      } else {
        return Some(FirstKeyNotFormat(key));
      }
      error := None;
    }

    /** The field type of a field row: its parts between dots, each validated as a Python name
        and joined back with dots. */
    static method ValidatedFieldType(text: string) returns (r: Result<string, IcdError>)
      ensures r == FieldTypeOf(text)
    {
      var parts := Split(text, '.');
      r := JoinedTypeParts(parts);
    }

    /** The loop of `ValidatedFieldType`: the validated parts, joined one by one. */
    static method JoinedTypeParts(parts: seq<string>) returns (r: Result<string, IcdError>)
      ensures TypeParts(parts).Ok? ==> r == Ok(Join(TypeParts(parts).value, '.'))
      ensures TypeParts(parts).Err? ==> r == Err(TypeParts(parts).error)
    {
      var fieldType := "";
      ghost var names: seq<string> := [];
      var i := 0;
      while i < |parts|
        invariant 0 <= i <= |parts|
        invariant |names| == i && forall j :: 0 <= j < i ==> ValidatedPythonName(parts[j]) == Ok(names[j])
        invariant fieldType == Join(names, '.')
        invariant fieldType == "" <==> i == 0
      {
        var part := ValidatedPythonName(parts[i]);
        if part.Err? {
          assert TypeParts(parts) == Err(BadFieldType(parts[i]));
          return Err(BadFieldType(parts[i]));
        }
        JoinSnoc(names, part.value, '.');
        if fieldType != "" {
          fieldType := fieldType + ".";
        }
        fieldType := fieldType + part.value;
        names := names + [part.value];
        i := i + 1;
      }
      TypePartsOfValid(parts, names);
      return Ok(fieldType);
    }

    /** `addFieldFormat`: an `f` row. */
    method AddFieldFormat(items: seq<string>) returns (error: Option<IcdError>)
      requires Valid()
      modifies this
      ensures Valid() && Counters() == old(Counters())
      ensures var r := Schema.AddFieldFormat(plugins, old(Model()), items);
        && (r.Ok? ==> error.None? && Model() == r.value)
        && (r.Err? ==> error == Some(r.error) && Model() == old(Model()))
    {
      AddFieldFormatKeepsConsistent(plugins, Model(), items);
      if dataFormat.None? {
        return Some(FormatBeforeField);
      }
      if |items| < 3 {
        return Some(TooFewFieldItems);
      }
      var name := ValidatedPythonName(items[0]);
      if name.Err? {
        return Some(BadFieldName(name.error));
      }
      var fieldType := ValidatedFieldType(items[2]);
      if fieldType.Err? {
        return Some(fieldType.error);
      }
      var made := FieldFormatWith(plugins, dataFormat.value, items, name.value, fieldType.value);
      if made.Err? {
        return Some(made.error);
      }
      var ff := made.value;
      if ff.name in fieldNameToFormatMap {
        return Some(DuplicateField(ff.name));
      }
      fieldNames := fieldNames + [ff.name];
      fieldFormats := fieldFormats + [ff];
      fieldNameToFormatMap := fieldNameToFormatMap[ff.name := ff];
      error := None;
    }

    /** `addCheck`: a `c` row. */
    method AddCheck(items: seq<string>) returns (error: Option<IcdError>)
      requires Valid()
      modifies this
      ensures Valid() && Counters() == old(Counters())
      ensures var r := Schema.AddCheck(plugins, old(Model()), items);
        && (r.Ok? ==> error.None? && Model() == r.value)
        && (r.Err? ==> error == Some(r.error) && Model() == old(Model()))
    {
      AddCheckKeepsConsistent(plugins, Model(), items);
      if |items| < 2 {
        return Some(TooFewCheckItems);
      }
      var description := items[0];
      var checkType := items[1];
      var found := plugins.findCheckClass(checkType);
      if found.Missing? {
        return Some(ClassNotFound(checkType));
      } else if found.ImportFailed? {
        return Some(Collaborator(found.error));
      }
      var check := Check(description, checkType, CheckRuleOf(items), fieldNames, []);
      var failed := plugins.newCheck(check);
      if failed.Some? {
        return Some(Collaborator(failed.value));
      }
      if description in checkDescriptions {
        return Some(DuplicateCheck(description));
      }
      checkDescriptions := checkDescriptions[description := check];
      checkOrder := checkOrder + [description];
      error := None;
    }

    /** `read`: reads the rows of the ICD `content` in order, adding each check, data format
        and field row, and stops at the first error. */
    method Read(content: string) returns (error: Option<IcdError>)
      requires Valid()
      modifies this
      ensures Valid() && Counters() == old(Counters())
      ensures (Model(), error) == ReadIcd(plugins, old(Model()), content)
    {
      ghost var start := Model();
      var parsed := IcdRows(plugins, content);
      var rows := parsed.rows;
      var k := 0;
      while k < |rows|
        invariant k <= |rows|
        invariant Valid() && Counters() == old(Counters())
        invariant ReadPrefix(plugins, start, rows, k) == (Model(), None)
      {
        ReadPrefixNext(plugins, start, rows, k);
        var failed := ReadIcdRow(rows[k], k + 1);
        if failed.Some? {
          ReadPrefixStops(plugins, start, rows, k + 1, |rows|);
          return failed;
        }
        k := k + 1;
      }
      if parsed.failure.Some? {
        return Some(Unreadable(parsed.failure.value));
      }
      error := Incomplete(Model());
    }

    /** One row of `read`, found at `lineNumber`: its lower-cased first item selects the
        section the rest of the row goes to. */
    method ReadIcdRow(row: Row, lineNumber: nat) returns (error: Option<IcdError>)
      requires Valid()
      modifies this
      ensures Valid() && Counters() == old(Counters())
      ensures var r := ReadRow(plugins, old(Model()), row, lineNumber);
        && (r.Ok? ==> error.None? && Model() == r.value)
        && (r.Err? ==> error == Some(r.error) && Model() == old(Model()))
    {
      error := None;
      if |row| >= 1 {
        var marker := Lower(row[0]);
        if marker == "c" {
          error := AddCheck(row[1..]);
        } else if marker == "d" {
          error := AddDataFormat(row[1..]);
        } else if marker == "f" {
          error := AddFieldFormat(row[1..]);
        } else if Strip(marker) != "" {
          error := Some(BadMarker(lineNumber, row[0]));
        }
      }
    }

    /** `validate`: validates the data `data` against this ICD. The counters start from zero,
        the checks from their reset state; each row after the header is accepted or rejected
        and every listener is told; then the checks at end run. The notices are returned in
        the order they were sent, and so is the reason the validation stopped early, if any. */
    method Validate(data: string) returns (notices: seq<Notice>, abort: Option<Abort>)
      requires Valid() && dataFormat.Some?
      modifies this
      ensures Valid() && listeners == old(listeners)
      ensures var out := Validation.Validate(plugins, old(Model()), data, old(listeners));
        && Model() == out.icd && notices == out.notices && abort == out.abort
        && acceptedCount == out.accepted && rejectedCount == out.rejected
        && passedChecksAtEndCount == out.passed && failedChecksAtEndCount == out.failed
    {
      ResetCounts();
      ResetAllChecks();
      NewCheckStateKeepsConsistent(old(Model()), checkDescriptions);
      var df := dataFormat.value;
      var rows := DataRowsOf(df, data);
      if rows.Err? {
        return [], Some(rows.error);
      }
      var parsed := rows.value;
      notices, abort := RunDataRows(parsed.rows, RowValidatorOf(plugins, df));
      if abort.Some? {
        return;
      }
      if parsed.failure.Some? {
        return notices, Some(Unparsable(parsed.failure.value));
      }
      var sent;
      sent, abort := RunChecksAtEnd();
      notices := notices + sent;
    }

    /** The rows of the data `data` in the format `df`, read by the parser this format
        demands. */
    method DataRowsOf(df: DataFormat, data: string) returns (r: Result<ParseResult, Abort>)
      ensures r == DataRows(plugins, df, fieldFormats, data)
    {
      match df.kind {
        case Csv =>
          r := Ok(DelimitedParser.Parse(data, DataDialect(df)));
        case Fixed =>
          var widths := FieldLengths(plugins, fieldFormats);
          if widths.Err? {
            return Err(widths.error);
          }
          r := Ok(FixedParser.Parse(data, widths.value));
        case Excel =>
          r := Ok(plugins.sheetRows(Excel, data));
        case Ods =>
          r := Ok(plugins.sheetRows(Ods, data));
      }
    }

    /** The rows of the data, numbered from 1: those after the header rows are validated,
        counted as accepted or rejected and told to every listener; the first row that aborts
        ends the run. */
    method RunDataRows(rows: seq<Row>, ghost validate: RowValidator) returns (notices: seq<Notice>, abort: Option<Abort>)
      requires Valid() && dataFormat.Some? && acceptedCount == 0 && rejectedCount == 0
      requires validate == RowValidatorOf(plugins, dataFormat.value)
      modifies this
      ensures Valid() && dataFormat == old(dataFormat) && listeners == old(listeners)
      ensures passedChecksAtEndCount == old(passedChecksAtEndCount) && failedChecksAtEndCount == old(failedChecksAtEndCount)
      ensures Run(Model(), acceptedCount, rejectedCount, notices, abort)
              == RunRows(validate, old(Model()), rows, old(dataFormat.value.header), listeners, |rows|)
    {
      ghost var start := Model();
      var df := dataFormat.value;
      notices := [];
      var k := 0;
      while k < |rows|
        invariant k <= |rows|
        invariant Valid() && dataFormat == Some(df) && listeners == old(listeners)
        invariant passedChecksAtEndCount == old(passedChecksAtEndCount) && failedChecksAtEndCount == old(failedChecksAtEndCount)
        invariant Run(Model(), acceptedCount, rejectedCount, notices, None) == RunRows(validate, start, rows, df.header, listeners, k)
      {
        notices, abort := NextRow(rows, k, notices, validate, start);
        if abort.Some? {
          RunRowsStops(validate, start, rows, df.header, listeners, k + 1, |rows|);
          return;
        }
        k := k + 1;
      }
      abort := None;
    }

    /** Row `k` of `rows`, with the notices `seen` sent for the rows before it: the header rows
        are passed over; any other row is taken. */
    method NextRow(rows: seq<Row>, k: nat, seen: seq<Notice>, ghost validate: RowValidator, ghost start: Icd)
      returns (notices: seq<Notice>, abort: Option<Abort>)
      requires k < |rows| && Valid() && dataFormat.Some? && validate == RowValidatorOf(plugins, dataFormat.value)
      requires Run(Model(), acceptedCount, rejectedCount, seen, None) == RunRows(validate, start, rows, dataFormat.value.header, listeners, k)
      modifies this
      ensures Valid() && dataFormat == old(dataFormat) && listeners == old(listeners)
      ensures passedChecksAtEndCount == old(passedChecksAtEndCount) && failedChecksAtEndCount == old(failedChecksAtEndCount)
      ensures Run(Model(), acceptedCount, rejectedCount, notices, abort) == RunRows(validate, start, rows, dataFormat.value.header, listeners, k + 1)
    {
      var rowNumber := k + 1;
      if rowNumber <= dataFormat.value.header {
        return seen, None;
      }
      ghost var step := validate(Model(), rows[k], rowNumber);
      RunRowsNext(validate, start, rows, dataFormat.value.header, listeners, k, step.0, step.1);
      var verdict;
      notices, verdict := TakeRow(rows[k], rowNumber, seen, validate);
      abort := if verdict.Aborted? then Some(verdict.abort) else None;
    }

    /** One row after the header rows, at `rowNumber`, with the notices `seen` sent so far: the
        row is validated, counted as accepted or rejected, and every listener is told. */
    method TakeRow(row: Row, rowNumber: nat, seen: seq<Notice>, ghost validate: RowValidator) returns (notices: seq<Notice>, verdict: Verdict)
      requires Valid() && dataFormat.Some? && validate == RowValidatorOf(plugins, dataFormat.value)
      modifies this
      ensures Valid() && dataFormat == old(dataFormat) && listeners == old(listeners)
      ensures passedChecksAtEndCount == old(passedChecksAtEndCount) && failedChecksAtEndCount == old(failedChecksAtEndCount)
      ensures var step := validate(old(Model()), row, rowNumber);
        var out := Advance(Run(old(Model()), old(acceptedCount), old(rejectedCount), seen, None), step.0, step.1, row, listeners);
        && verdict == step.1 && Model() == out.icd
        && acceptedCount == out.accepted && rejectedCount == out.rejected && notices == out.notices
    {
      verdict := ValidatedRow(row, rowNumber);
      notices := seen;
      match verdict {
        case Accepted =>
          acceptedCount := acceptedCount + 1;
          var told := Notify(AcceptedRow(row));
          notices := notices + told;
        case Rejected(reason) =>
          rejectedCount := rejectedCount + 1;
          var told := Notify(RejectedRow(row, reason));
          notices := notices + told;
        case Aborted(_) =>
      }
    }

    /** Clears the state of every check (`reset`). */
    method ResetAllChecks()
      modifies this
      ensures checkDescriptions == ResetChecks(old(checkDescriptions))
      ensures Model() == old(Model()).(checks := checkDescriptions) && Counters() == old(Counters())
    {
      var checks := checkDescriptions;
      var remaining := checks.Keys;
      while remaining != {}
        invariant remaining <= checks.Keys == checkDescriptions.Keys
        invariant forall d :: d in checks ==> checks[d] == if d in remaining then checkDescriptions[d] else checkDescriptions[d].(calls := [])
        decreases remaining
      {
        var d :| d in remaining;
        checks := checks[d := checks[d].(calls := [])];
        remaining := remaining - {d};
      }
      checkDescriptions := checks;
    }

    /** The widths of fixed data: the single fixed length of each field, or the first field
        without one. */
    static method FieldLengths(p: Plugins, formats: seq<FieldFormat>) returns (r: Result<seq<nat>, Abort>)
      ensures r == FixedLengths(p, formats)
    {
      var widths: seq<nat> := [];
      var i := 0;
      while i < |formats|
        invariant i <= |formats|
        invariant |widths| == i && forall j :: 0 <= j < i ==> p.fixedLength(formats[j]) == Some(widths[j])
      {
        var length := p.fixedLength(formats[i]);
        if length.None? {
          return Err(MissingFixedLength(formats[i].name));
        }
        widths := widths + [length.value];
        i := i + 1;
      }
      FixedLengthsOfAll(p, formats, widths);
      return Ok(widths);
    }

    /** The checks at end, in order: each that raises no error passes, each that raises a
        `CheckError` fails and every listener is told; any other error stops them. */
    method RunChecksAtEnd() returns (sent: seq<Notice>, abort: Option<Abort>)
      requires passedChecksAtEndCount == 0 && failedChecksAtEndCount == 0
      modifies this
      ensures EndRun(passedChecksAtEndCount, failedChecksAtEndCount, sent, abort) == EndChecks(plugins, checkDescriptions, checkOrder, listeners, |checkOrder|)
      ensures Model() == old(Model()) && listeners == old(listeners)
      ensures acceptedCount == old(acceptedCount) && rejectedCount == old(rejectedCount)
    {
      sent := [];
      var k := 0;
      while k < |checkOrder|
        invariant k <= |checkOrder|
        invariant EndRun(passedChecksAtEndCount, failedChecksAtEndCount, sent, None) == EndChecks(plugins, checkDescriptions, checkOrder, listeners, k)
        invariant Model() == old(Model()) && listeners == old(listeners)
        invariant acceptedCount == old(acceptedCount) && rejectedCount == old(rejectedCount)
      {
        var d := checkOrder[k];
        if d in checkDescriptions {
          var raised := plugins.checkAtEnd(checkDescriptions[d]);
          if raised.None? {
            passedChecksAtEndCount := passedChecksAtEndCount + 1;
          } else if raised.value.CheckError? {
            failedChecksAtEndCount := failedChecksAtEndCount + 1;
            var told := Notify(CheckAtEndFailed(d, raised.value));
            sent := sent + told;
          } else {
            EndChecksStops(plugins, checkDescriptions, checkOrder, listeners, k + 1, |checkOrder|);
            return sent, Some(Propagated(raised.value));
          }
        }
        k := k + 1;
      }
      return sent, None;
    }

    /** One row of data, found at `rowNumber`: its items, then its length, then the row
        checks. Only the state of the checks changes. */
    method ValidatedRow(row: Row, rowNumber: nat) returns (verdict: Verdict)
      requires Valid() && dataFormat.Some?
      modifies this
      ensures Valid() && Counters() == old(Counters())
      ensures (Model(), verdict) == ValidateRow(plugins, ItemValidatorOf(plugins, old(dataFormat.value)), old(Model()), row, rowNumber)
    {
      var values := RowMapOf(ItemValidatorOf(plugins, dataFormat.value), fieldFormats, row);
      if values.Err? {
        return Classify(fieldNames, values.error.itemIndex, values.error.error);
      }
      if |row| > |fieldFormats| {
        return Classify(fieldNames, |fieldFormats| - 1, UnexpectedData(|fieldFormats| - 1));
      } else if |row| < |fieldFormats| {
        return Classify(fieldNames, |row|, MissingFields(MissingFieldNames(fieldNames, |row|)));
      }
      RowChecksKeys(plugins, checkDescriptions, checkOrder, rowNumber, values.value, |checkOrder|);
      var checked, failure := RunRowChecks(plugins, checkDescriptions, checkOrder, rowNumber, values.value);
      NewCheckStateKeepsConsistent(Model(), checked);
      checkDescriptions := checked;
      if failure.Some? {
        return Classify(fieldNames, |row|, failure.value);
      }
      return Accepted;
    }

    /** The values of the items of `row`, keyed by field name, or the first item that fails. */
    static method RowMapOf(value: ItemValidator, formats: seq<FieldFormat>, row: Row) returns (r: Result<RowMap, ItemFailure>)
      ensures r == RowValues(value, formats, row, ItemCount(row, formats))
    {
      var count := Min(|row|, |formats|);
      var rowMap: RowMap := map[];
      var i := 0;
      while i < count
        invariant i <= count
        invariant RowValues(value, formats, row, i) == Ok(rowMap)
      {
        var item := value(formats[i], row[i]);
        if item.Err? {
          RowValuesStops(value, formats, row, i + 1, count);
          return Err(ItemFailure(i, item.error));
        }
        rowMap := rowMap[formats[i].name := item.value];
        i := i + 1;
      }
      return Ok(rowMap);
    }

    /** The row checks of `order`, in order, on the values of a row found at `rowNumber`, each
        recording its call; they stop at the first that fails. */
    static method RunRowChecks(p: Plugins, checks: map<string, Check>, order: seq<string>, rowNumber: nat, rowMap: RowMap)
      returns (after: map<string, Check>, failure: Option<RowError>)
      ensures (after, failure) == RowChecks(p, checks, order, rowNumber, rowMap, |order|)
    {
      after := checks;
      var k := 0;
      while k < |order|
        invariant k <= |order|
        invariant (after, None) == RowChecks(p, checks, order, rowNumber, rowMap, k)
      {
        var d := order[k];
        if d in after {
          var check := after[d];
          var raised := p.checkRow(check, rowNumber, rowMap);
          after := after[d := Called(check, rowNumber, rowMap)];
          if raised.Some? {
            RowChecksStops(p, checks, order, rowNumber, rowMap, k + 1, |order|);
            return after, Some(CheckFailure(d, raised.value));
          }
        }
        k := k + 1;
      }
      return after, None;
    }

    /** The value of one item of data in the format `df`: each of its characters against the
        allowed characters, then the empty, length and value checks of its field format. */
    method ValidatedItem(df: DataFormat, ff: FieldFormat, item: string) returns (r: Result<Value, RowError>)
      ensures r == ItemValue(plugins, df, ff, item)
    {
      if df.allowedCharacters.Some? {
        var range := df.allowedCharacters.value;
        var j := 0;
        while j < |item|
          invariant j <= |item|
          invariant forall i :: 0 <= i < j ==> plugins.characterError(range, item[i] as int).None?
        {
          var refused := plugins.characterError(range, item[j] as int);
          if refused.Some? {
            return Err(CharacterFailure(ff.name, refused.value));
          }
          j := j + 1;
        }
      }
      var value := if df.kind == Fixed then Strip(item) else item;
      var empty := plugins.validateEmpty(ff, value);
      if empty.Some? {
        return Err(Thrown(empty.value));
      }
      if df.kind != Fixed {
        var length := plugins.validateLength(ff, value);
        if length.Some? {
          return Err(Thrown(length.value));
        }
      }
      var validated := plugins.validateValue(ff, value);
      if validated.Err? {
        return Err(Thrown(validated.error));
      }
      return Ok(validated.value);
    }

    /** The notices that tell each listener, in order, of `event`. */
    method Notify(event: Event) returns (sent: seq<Notice>)
      ensures sent == Deliveries(listeners, event)
    {
      sent := [];
      var i := 0;
      while i < |listeners|
        invariant i <= |listeners|
        invariant |sent| == i && forall j :: 0 <= j < i ==> sent[j] == Notice(listeners[j], event)
      {
        sent := sent + [Notice(listeners[i], event)];
        i := i + 1;
      }
    }

    /** `addValidationEventListener`. */
    method AddValidationEventListener(l: Listener)
      requires Valid() && l !in listeners
      modifies this
      ensures Valid() && Model() == old(Model()) && listeners == old(listeners) + [l]
      ensures acceptedCount == old(acceptedCount) && rejectedCount == old(rejectedCount)
      ensures failedChecksAtEndCount == old(failedChecksAtEndCount) && passedChecksAtEndCount == old(passedChecksAtEndCount)
    {
      listeners := listeners + [l];
    }

    /** `removeValidationEventListener`. */
    method RemoveValidationEventListener(l: Listener)
      requires Valid() && l in listeners
      modifies this
      ensures Valid() && Model() == old(Model()) && listeners == RemoveFirst(old(listeners), l)
      ensures l !in listeners && forall m :: m != l ==> (m in listeners <==> m in old(listeners))
      ensures acceptedCount == old(acceptedCount) && rejectedCount == old(rejectedCount)
      ensures failedChecksAtEndCount == old(failedChecksAtEndCount) && passedChecksAtEndCount == old(passedChecksAtEndCount)
    {
      RemoveFirstOfDistinct(listeners, l);
      listeners := RemoveFirst(listeners, l);
    }
  }
}
