/** How an interface control document (ICD) is built from its rows: the data format section
    (`d` rows), the field formats (`f` rows) and the checks (`c` rows), as values. The class in
    `Interface` keeps the same state in fields and is proved against these functions. */
module Schema {
  import opened Wrappers
  import opened Rows
  import opened Text
  import opened Collaborators
  import DelimitedParser

  /** The state an ICD builds up. `checkOrder` is the order in which `checkDescriptions` is
      iterated; here it is the order in which the checks were added. */
  datatype Icd = Icd(
    dataFormat: Option<DataFormat>,
    fieldNames: seq<string>,
    fieldFormats: seq<FieldFormat>,
    fieldMap: map<string, FieldFormat>,
    checkOrder: seq<string>,
    checks: map<string, Check>)

  const EmptyIcd := Icd(None, [], [], map[], [], map[])

  predicate Distinct<T(==)>(s: seq<T>) {
    forall i, j :: 0 <= i < j < |s| ==> s[i] != s[j]
  }

  /** The three field collections describe the same fields in the same order, each name once. */
  predicate FieldsAgree(names: seq<string>, formats: seq<FieldFormat>, fieldMap: map<string, FieldFormat>) {
    && |names| == |formats|
    && Distinct(names)
    && (forall i :: 0 <= i < |names| ==>
          formats[i].name == names[i] && names[i] in fieldMap && fieldMap[names[i]] == formats[i])
    && (forall n :: n in fieldMap ==> n in names)
  }

  /** The check order lists every check once. */
  predicate ChecksAgree(order: seq<string>, checks: map<string, Check>) {
    && Distinct(order)
    && (forall d :: d in checks ==> d in order)
    && (forall i :: 0 <= i < |order| ==> order[i] in checks)
  }

  /** The field collections agree, the check order agrees with the checks, and fields exist only
      once a data format does. */
  predicate Consistent(icd: Icd) {
    && FieldsAgree(icd.fieldNames, icd.fieldFormats, icd.fieldMap)
    && ChecksAgree(icd.checkOrder, icd.checks)
    && (icd.dataFormat.None? ==> icd.fieldNames == [])
  }

  /** The errors that building or reading an ICD raises. */
  datatype IcdError =
    | TooFewDataFormatItems
    | FormatSetTwice(kind: FormatKind)
    | FirstKeyNotFormat(key: string)
    | FormatBeforeField
    | TooFewFieldItems
    | BadFieldName(value: string)
    | BadFieldType(part: string)
    | BadEmptyMark(mark: string)
    | NoFixedLength(fieldName: string)
    | ClassNotFound(typeName: string)
    | BadExample(fieldName: string, cause: Raised)
    | DuplicateField(fieldName: string)
    | TooFewCheckItems
    | DuplicateCheck(description: string)
    | BadMarker(lineNumber: nat, marker: string)
    | NoDataFormat
    | NoFields
    | Collaborator(error: Raised)
    | Unreadable(syntax: ParserSyntaxError)

  /** The exception class each error is raised as. */
  datatype ErrorClass =
    | DataFormatSyntaxError | FieldSyntaxError | CheckSyntaxError | IcdSyntaxError
    | ParserError | RaisedByCollaborator

  function ClassOf(e: IcdError): ErrorClass {
    match e
    case TooFewDataFormatItems | FormatSetTwice(_) | FirstKeyNotFormat(_) | FormatBeforeField =>
      DataFormatSyntaxError
    case TooFewFieldItems | BadFieldName(_) | BadFieldType(_) | BadEmptyMark(_) | NoFixedLength(_)
      | ClassNotFound(_) | DuplicateField(_) => FieldSyntaxError
    case TooFewCheckItems | DuplicateCheck(_) => CheckSyntaxError
    case BadExample(_, _) | BadMarker(_, _) | NoDataFormat | NoFields => IcdSyntaxError
    case Unreadable(_) => ParserError
    case Collaborator(_) => RaisedByCollaborator
  }

  /* Data format rows. */

  /** The value of a data format row: its second item, or empty. */
  function ValueOf(items: seq<string>): string {
    if |items| >= 2 then items[1] else ""
  }

  /** The data format after a `d` row with `items`. The first property must be the format key,
      which may be given only once; later properties go to the data format. */
  function DataFormatAfter(p: Plugins, current: Option<DataFormat>, items: seq<string>): (r: Result<DataFormat, IcdError>)
    ensures |items| == 0 ==> r == Err(TooFewDataFormatItems)
    ensures |items| >= 1 && current.Some? && p.isFormatKey(items[0]) ==> r == Err(FormatSetTwice(current.value.kind))
    ensures |items| >= 1 && current.None? && !p.isFormatKey(items[0]) ==> r == Err(FirstKeyNotFormat(items[0]))
    ensures r.Ok? && current.None? ==> p.createDataFormat(ValueOf(items)) == Ok(r.value)
    ensures r.Ok? && current.Some? ==> p.setProperty(current.value, items[0], ValueOf(items)) == Ok(r.value)
  {
    if |items| >= 1 then
      var key := items[0];
      var value := ValueOf(items);
      if p.isFormatKey(key) then
        if current.None? then
          match p.createDataFormat(value)
          case Ok(d) => Ok(d)
          case Err(e) => Err(Collaborator(e))
        else Err(FormatSetTwice(current.value.kind))
      else if current.Some? then
        match p.setProperty(current.value, key, value)
        case Ok(d) => Ok(d)
        case Err(e) => Err(Collaborator(e))
      else Err(FirstKeyNotFormat(key))
    else Err(TooFewDataFormatItems)
  }

  function AddDataFormat(p: Plugins, icd: Icd, items: seq<string>): (r: Result<Icd, IcdError>)
    ensures r.Ok? ==> r.value == icd.(dataFormat := r.value.dataFormat) && r.value.dataFormat.Some?
  {
    match DataFormatAfter(p, icd.dataFormat, items)
    case Ok(d) => Ok(icd.(dataFormat := Some(d)))
    case Err(e) => Err(e)
  }

  /* Field format rows. */

  /** The field type: the parts of `text` between dots, each a valid Python name. */
  function TypeParts(parts: seq<string>): (r: Result<seq<string>, IcdError>)
    ensures r.Ok? ==> |r.value| == |parts| && forall i :: 0 <= i < |parts| ==> ValidatedPythonName(parts[i]) == Ok(r.value[i])
    ensures r.Err? ==> exists i :: (0 <= i < |parts| && ValidatedPythonName(parts[i]).Err? && r.error == BadFieldType(parts[i])
                                   && forall j :: 0 <= j < i ==> ValidatedPythonName(parts[j]).Ok?)
  {
    if parts == [] then Ok([])
    else
      match ValidatedPythonName(parts[0])
      case Err(_) => Err(BadFieldType(parts[0]))
      case Ok(first) =>
        var tail := parts[1..];
        assert forall i :: 0 <= i < |tail| ==> tail[i] == parts[i + 1];
        match TypeParts(tail)
        case Err(e) => Err(e)
        case Ok(rest) => Ok([first] + rest)
  }

  function FieldTypeOf(text: string): Result<string, IcdError> {
    match TypeParts(Split(text, '.'))
    case Err(e) => Err(e)
    case Ok(parts) => Ok(Join(parts, '.'))
  }

  /** The empty flag of a field row: `x` (after stripping and lower-casing) or blank. */
  function EmptyFlag(items: seq<string>): (r: Result<bool, IcdError>)
    ensures r == Ok(true) <==> |items| >= 4 && Lower(Strip(items[3])) == "x"
    ensures r.Err? <==> |items| >= 4 && Lower(Strip(items[3])) != "x" && Lower(Strip(items[3])) != ""
  {
    if |items| >= 4 then
      var mark := Lower(Strip(items[3]));
      if mark == "x" then Ok(true)
      else if mark != "" then Err(BadEmptyMark(mark))
      else Ok(false)
    else Ok(false)
  }

  function LengthOf(items: seq<string>): Option<string> {
    if |items| >= 5 then Some(Strip(items[4])) else None
  }

  function RuleOf(items: seq<string>): string {
    if |items| >= 6 then Strip(items[5]) else ""
  }

  /** A fixed data format needs a non-empty length for every field. */
  predicate LacksFixedLength(df: DataFormat, length: Option<string>) {
    df.kind == Fixed && (length.None? || length.value == "")
  }

  /** The field format a row with at least three items describes, validated in the order of
      `addFieldFormat`: name, type, and then the checks of `FieldFormatWith`. */
  function FieldFormatOf(p: Plugins, df: DataFormat, items: seq<string>): (r: Result<FieldFormat, IcdError>)
    requires |items| >= 3
    ensures r.Ok? ==> ValidatedPythonName(items[0]) == Ok(r.value.name) && FieldTypeOf(items[2]) == Ok(r.value.fieldType)
    ensures r.Ok? ==> r.value.length == LengthOf(items) && r.value.rule == RuleOf(items)
    ensures r.Ok? ==> !LacksFixedLength(df, r.value.length) && EmptyFlag(items) == Ok(r.value.isAllowedToBeEmpty)
    ensures r.Ok? ==> p.findFieldClass(r.value.fieldType) == Found && p.newFieldFormat(r.value).None?
    ensures r.Ok? && items[1] != "" ==> p.validateValue(r.value, items[1]).Ok?
  {
    match ValidatedPythonName(items[0])
    case Err(value) => Err(BadFieldName(value))
    case Ok(name) =>
      match FieldTypeOf(items[2])
      case Err(e) => Err(e)
      case Ok(fieldType) => FieldFormatWith(p, df, items, name, fieldType)
  }

  /** The field format named `name` of type `fieldType` a row describes, once its empty flag,
      its length for fixed data, its type class, its construction and its example have passed. */
  function FieldFormatWith(p: Plugins, df: DataFormat, items: seq<string>, name: string, fieldType: string): (r: Result<FieldFormat, IcdError>)
    requires |items| >= 3
    ensures r.Ok? ==> r.value.name == name && r.value.fieldType == fieldType
    ensures r.Ok? ==> r.value.length == LengthOf(items) && r.value.rule == RuleOf(items)
    ensures r.Ok? ==> !LacksFixedLength(df, r.value.length) && EmptyFlag(items) == Ok(r.value.isAllowedToBeEmpty)
    ensures r.Ok? ==> p.findFieldClass(fieldType) == Found && p.newFieldFormat(r.value).None?
    ensures r.Ok? && items[1] != "" ==> p.validateValue(r.value, items[1]).Ok?
  {
    var example := items[1];
    match EmptyFlag(items)
    case Err(e) => Err(e)
    case Ok(empty) =>
      var length := LengthOf(items);
      if LacksFixedLength(df, length) then Err(NoFixedLength(name))
      else
        match p.findFieldClass(fieldType)
        case Missing => Err(ClassNotFound(fieldType))
        case ImportFailed(e) => Err(Collaborator(e))
        case Found =>
          var ff := FieldFormat(name, fieldType, empty, length, RuleOf(items));
          match p.newFieldFormat(ff)
          case Some(e) => Err(Collaborator(e))
          case None =>
            if example == "" then Ok(ff)
            else
              match p.validateValue(ff, example)
              case Ok(_) => Ok(ff)
              case Err(e) => if e.FieldValueError? then Err(BadExample(name, e)) else Err(Collaborator(e))
  }

  /** The field type of parts that are all valid names is those names. */
  lemma {:induction false} TypePartsOfValid(parts: seq<string>, names: seq<string>)
    requires |names| == |parts| && forall j :: 0 <= j < |parts| ==> ValidatedPythonName(parts[j]) == Ok(names[j])
    ensures TypeParts(parts) == Ok(names)
  {
    if parts != [] {
      TypePartsOfValid(parts[1..], names[1..]);
      assert names == [names[0]] + names[1..];
    }
  }

  /** `icd` with `ff` as its last field. */
  function AppendField(icd: Icd, ff: FieldFormat): Icd {
    icd.(fieldNames := icd.fieldNames + [ff.name],
         fieldFormats := icd.fieldFormats + [ff],
         fieldMap := icd.fieldMap[ff.name := ff])
  }

  /** The ICD after an `f` row: the described field appended to all three collections, or one
      of the errors below. */
  function AddFieldFormat(p: Plugins, icd: Icd, items: seq<string>): (r: Result<Icd, IcdError>)
    ensures icd.dataFormat.None? ==> r == Err(FormatBeforeField)
    ensures icd.dataFormat.Some? && |items| < 3 ==> r == Err(TooFewFieldItems)
    ensures |items| >= 4 && Lower(Strip(items[3])) != "x" && Lower(Strip(items[3])) != "" ==> r.Err?
    ensures icd.dataFormat.Some? && icd.dataFormat.value.kind == Fixed && |items| < 5 ==> r.Err?
    ensures r.Ok? <==> icd.dataFormat.Some? && |items| >= 3 && FieldFormatOf(p, icd.dataFormat.value, items).Ok?
                       && FieldFormatOf(p, icd.dataFormat.value, items).value.name !in icd.fieldMap
    ensures r.Ok? ==> r.value == AppendField(icd, FieldFormatOf(p, icd.dataFormat.value, items).value)
  {
    if icd.dataFormat.None? then Err(FormatBeforeField)
    else if |items| < 3 then Err(TooFewFieldItems)
    else
      var made := FieldFormatOf(p, icd.dataFormat.value, items);
      if made.Err? then Err(made.error)
      else if made.value.name in icd.fieldMap then Err(DuplicateField(made.value.name))
      else Ok(AppendField(icd, made.value))
  }

  /* Check rows. */

  function CheckRuleOf(items: seq<string>): string {
    if |items| >= 3 then items[2] else ""
  }

  /** The check a `c` row describes; it sees the field names defined so far. */
  function CheckOf(icd: Icd, items: seq<string>): Check
    requires |items| >= 2
  {
    Check(items[0], items[1], CheckRuleOf(items), icd.fieldNames, [])
  }

  /** `icd` with `check` added under its description, which comes last in the check order. */
  function AppendCheck(icd: Icd, check: Check): Icd {
    icd.(checks := icd.checks[check.description := check], checkOrder := icd.checkOrder + [check.description])
  }

  /** The ICD after a `c` row: one new check under a new description, or an error. */
  function AddCheck(p: Plugins, icd: Icd, items: seq<string>): (r: Result<Icd, IcdError>)
    ensures |items| < 2 ==> r == Err(TooFewCheckItems)
    ensures |items| >= 2 && p.findCheckClass(items[1]) == Found && p.newCheck(CheckOf(icd, items)).None?
            ==> r == if items[0] in icd.checks then Err(DuplicateCheck(items[0])) else Ok(AppendCheck(icd, CheckOf(icd, items)))
    ensures r.Ok? ==> |items| >= 2 && items[0] !in icd.checks && r.value == AppendCheck(icd, CheckOf(icd, items))
  {
    if |items| >= 2 then
      var checkType := items[1];
      match p.findCheckClass(checkType)
      case Missing => Err(ClassNotFound(checkType))
      case ImportFailed(e) => Err(Collaborator(e))
      case Found =>
        var check := CheckOf(icd, items);
        match p.newCheck(check)
        case Some(e) => Err(Collaborator(e))
        case None =>
          if check.description in icd.checks then Err(DuplicateCheck(check.description))
          else Ok(AppendCheck(icd, check))
    else Err(TooFewCheckItems)
  }

  /* Reading an ICD. */

  /** The four leading bytes of a zipped ODS file. */
  const OdsHeader: string := ['P', 'K', '\U{03}', '\U{04}']
  /** The eight leading bytes of an Excel (OLE2) file. */
  const ExcelHeader: string := ['\U{D0}', '\U{CF}', '\U{11}', '\U{E0}', '\U{A1}', '\U{B1}', '\U{1A}', '\U{E1}']

  /** The dialect a delimited ICD is read with: both delimiters detected, `"` as quote and
      escape character. */
  const IcdDialect := DelimitedParser.Dialect(DelimitedParser.AutoLine, DelimitedParser.AutoItem, '"', '"')

  datatype IcdParser = OdsParser | ExcelParser | Delimited(dialect: DelimitedParser.Dialect)

  /** The first `n` characters of `s`, or all of `s` when it is shorter (`read(n)`). */
  function Head(s: string, n: nat): (h: string)
    ensures |h| <= n && h <= s
    ensures |s| >= n ==> |h| == n
  {
    if |s| <= n then s else s[..n]
  }

  /** The parser for an ICD with content `s`, chosen from its leading bytes. */
  function FittingParser(s: string): (r: IcdParser)
    ensures r == OdsParser <==> Head(s, 4) == OdsHeader
    ensures r == ExcelParser <==> Head(s, 4) != OdsHeader && Head(s, 8) == ExcelHeader
    ensures r.Delimited? <==> Head(s, 4) != OdsHeader && Head(s, 8) != ExcelHeader
    ensures r.Delimited? ==> r.dialect == IcdDialect
  {
    if Head(s, 4) == OdsHeader then OdsParser
    else if Head(s, 8) == ExcelHeader then ExcelParser
    else Delimited(IcdDialect)
  }

  /** The rows of an ICD with content `s`. */
  function IcdRows(p: Plugins, s: string): ParseResult {
    match FittingParser(s)
    case OdsParser => p.sheetRows(Ods, s)
    case ExcelParser => p.sheetRows(Excel, s)
    case Delimited(d) => DelimitedParser.Parse(s, d)
  }

  /** The ICD after one of its rows, found at `lineNumber`: the lower-cased first item selects
      the section; a row without items or with a blank first item is ignored. */
  function ReadRow(p: Plugins, icd: Icd, row: Row, lineNumber: nat): (r: Result<Icd, IcdError>)
    ensures |row| == 0 || Strip(Lower(row[0])) == "" ==> r == Ok(icd)
    ensures |row| >= 1 && Lower(row[0]) == "c" ==> r == AddCheck(p, icd, row[1..])
    ensures |row| >= 1 && Lower(row[0]) == "d" ==> r == AddDataFormat(p, icd, row[1..])
    ensures |row| >= 1 && Lower(row[0]) == "f" ==> r == AddFieldFormat(p, icd, row[1..])
    ensures |row| >= 1 && Lower(row[0]) !in {"c", "d", "f"} && Strip(Lower(row[0])) != ""
            ==> r == Err(BadMarker(lineNumber, row[0]))
  {
    if |row| >= 1 then
      var marker := Lower(row[0]);
      if marker == "c" then AddCheck(p, icd, row[1..])
      else if marker == "d" then AddDataFormat(p, icd, row[1..])
      else if marker == "f" then AddFieldFormat(p, icd, row[1..])
      else if Strip(marker) != "" then Err(BadMarker(lineNumber, row[0]))
      else Ok(icd)
    else Ok(icd)
  }

  /** What reading one row does to an ICD. */
  type RowStep = (Icd, Row, nat) -> Result<Icd, IcdError>

  /** The ICD after reading the first `k` rows with `step`, and the error that stopped reading,
      if any; rows read before an error keep their effect. Rows are numbered from 1. */
  function ReadRows(step: RowStep, icd: Icd, rows: seq<Row>, k: nat): (Icd, Option<IcdError>)
    requires k <= |rows|
  {
    if k == 0 then (icd, None)
    else
      var before := ReadRows(step, icd, rows, k - 1);
      if before.1.Some? then before
      else
        match step(before.0, rows[k - 1], k)
        case Ok(next) => (next, None)
        case Err(e) => (before.0, Some(e))
  }

  function RowReader(p: Plugins): RowStep {
    (icd: Icd, row: Row, lineNumber: nat) => ReadRow(p, icd, row, lineNumber)
  }

  /** The ICD after its first `k` rows. */
  function ReadPrefix(p: Plugins, icd: Icd, rows: seq<Row>, k: nat): (Icd, Option<IcdError>)
    requires k <= |rows|
  {
    ReadRows(RowReader(p), icd, rows, k)
  }

  /** What reading requires of the complete ICD: a data format and at least one field. */
  function Incomplete(icd: Icd): Option<IcdError> {
    if icd.dataFormat.None? then Some(NoDataFormat)
    else if icd.fieldFormats == [] then Some(NoFields)
    else None
  }

  /** `read`: the ICD after reading the content `s`, and the error raised, if any. A read
      without error leaves an ICD with a data format and at least one field. */
  function ReadIcd(p: Plugins, icd: Icd, s: string): (r: (Icd, Option<IcdError>))
    ensures r.1.None? ==> r.0.dataFormat.Some? && r.0.fieldFormats != []
  {
    var parsed := IcdRows(p, s);
    var read := ReadPrefix(p, icd, parsed.rows, |parsed.rows|);
    if read.1.Some? then read
    else if parsed.failure.Some? then (read.0, Some(Unreadable(parsed.failure.value)))
    else (read.0, Incomplete(read.0))
  }

  /* Properties of building and reading. */

  /** A data format row changes nothing but the data format, and keeps the ICD consistent. */
  lemma AddDataFormatKeepsConsistent(p: Plugins, icd: Icd, items: seq<string>)
    requires Consistent(icd)
    ensures AddDataFormat(p, icd, items).Ok? ==> Consistent(AddDataFormat(p, icd, items).value)
  {
  }

  lemma FieldsAgreeAppend(names: seq<string>, formats: seq<FieldFormat>, fieldMap: map<string, FieldFormat>, ff: FieldFormat)
    requires FieldsAgree(names, formats, fieldMap) && ff.name !in fieldMap
    ensures FieldsAgree(names + [ff.name], formats + [ff], fieldMap[ff.name := ff])
  {
    var names', formats', map' := names + [ff.name], formats + [ff], fieldMap[ff.name := ff];
    forall i, j | 0 <= i < j < |names'| ensures names'[i] != names'[j] {
      if j == |names| {
        assert names'[i] == names[i] && names[i] in fieldMap;
      }
    }
    forall i | 0 <= i < |names'|
      ensures formats'[i].name == names'[i] && names'[i] in map' && map'[names'[i]] == formats'[i]
    {
      if i < |names| {
        assert names'[i] == names[i] && formats'[i] == formats[i] && names[i] in fieldMap;
      }
    }
    forall n | n in map' ensures n in names' {
      if n != ff.name {
        assert n in fieldMap && n in names;
      }
    }
  }

  /** A new field grows the three field collections in lockstep: one more name, one more
      format and one more map key, and the collections stay consistent. */
  lemma AppendFieldKeepsConsistent(icd: Icd, ff: FieldFormat)
    requires Consistent(icd) && icd.dataFormat.Some? && ff.name !in icd.fieldMap
    ensures var next := AppendField(icd, ff);
      && Consistent(next)
      && |next.fieldNames| == |icd.fieldNames| + 1
      && |next.fieldMap| == |icd.fieldMap| + 1
      && next.fieldNames[..|icd.fieldNames|] == icd.fieldNames
      && next.fieldFormats[..|icd.fieldFormats|] == icd.fieldFormats
  {
    FieldsAgreeAppend(icd.fieldNames, icd.fieldFormats, icd.fieldMap, ff);
    var next := AppendField(icd, ff);
    var n := |icd.fieldNames|;
    assert next.fieldNames[..n] == icd.fieldNames;
    assert next.fieldFormats[..n] == icd.fieldFormats;
  }

  lemma AddFieldFormatKeepsConsistent(p: Plugins, icd: Icd, items: seq<string>)
    requires Consistent(icd)
    ensures AddFieldFormat(p, icd, items).Ok? ==> Consistent(AddFieldFormat(p, icd, items).value)
  {
    if AddFieldFormat(p, icd, items).Ok? {
      AppendFieldKeepsConsistent(icd, FieldFormatOf(p, icd.dataFormat.value, items).value);
    }
  }

  lemma ChecksAgreeAppend(order: seq<string>, checks: map<string, Check>, check: Check)
    requires ChecksAgree(order, checks) && check.description !in checks
    ensures ChecksAgree(order + [check.description], checks[check.description := check])
  {
    var order', checks' := order + [check.description], checks[check.description := check];
    forall i, j | 0 <= i < j < |order'| ensures order'[i] != order'[j] {
      if j == |order| {
        assert order'[i] == order[i] && order[i] in checks;
      }
    }
    forall d | d in checks' ensures d in order' {
      if d != check.description {
        assert d in checks && d in order;
      }
    }
    forall i | 0 <= i < |order'| ensures order'[i] in checks' {
      if i < |order| {
        assert order'[i] == order[i];
      }
    }
  }

  /** A new check adds exactly one description, at the end of the check order. */
  lemma AppendCheckKeepsConsistent(icd: Icd, check: Check)
    requires Consistent(icd) && check.description !in icd.checks
    ensures var next := AppendCheck(icd, check);
      && Consistent(next)
      && |next.checks| == |icd.checks| + 1
  {
    ChecksAgreeAppend(icd.checkOrder, icd.checks, check);
  }

  /** Consistency depends on which checks there are, not on their state. */
  lemma NewCheckStateKeepsConsistent(icd: Icd, checks: map<string, Check>)
    requires Consistent(icd) && checks.Keys == icd.checks.Keys
    ensures Consistent(icd.(checks := checks))
  {
    assert forall d :: d in checks <==> d in icd.checks;
  }

  lemma AddCheckKeepsConsistent(p: Plugins, icd: Icd, items: seq<string>)
    requires Consistent(icd)
    ensures AddCheck(p, icd, items).Ok? ==> Consistent(AddCheck(p, icd, items).value)
  {
    if AddCheck(p, icd, items).Ok? {
      AppendCheckKeepsConsistent(icd, CheckOf(icd, items));
    }
  }

  lemma ReadRowKeepsConsistent(p: Plugins, icd: Icd, row: Row, lineNumber: nat)
    requires Consistent(icd)
    ensures ReadRow(p, icd, row, lineNumber).Ok? ==> Consistent(ReadRow(p, icd, row, lineNumber).value)
  {
    if |row| >= 1 {
      AddCheckKeepsConsistent(p, icd, row[1..]);
      AddDataFormatKeepsConsistent(p, icd, row[1..]);
      AddFieldFormatKeepsConsistent(p, icd, row[1..]);
    }
  }

  /** Reading any number of rows with a step that keeps ICDs consistent keeps a consistent ICD
      consistent, error or not. */
  lemma {:induction false} ReadRowsKeepsConsistent(step: RowStep, icd: Icd, rows: seq<Row>, k: nat)
    requires Consistent(icd) && k <= |rows|
    requires forall a, row, n :: Consistent(a) && step(a, row, n).Ok? ==> Consistent(step(a, row, n).value)
    ensures Consistent(ReadRows(step, icd, rows, k).0)
  {
    if k > 0 {
      ReadRowsKeepsConsistent(step, icd, rows, k - 1);
    }
  }

  /** Once a row raised an error, no later row is read. */
  lemma {:induction false} ReadRowsStops(step: RowStep, icd: Icd, rows: seq<Row>, j: nat, k: nat)
    requires j <= k <= |rows| && ReadRows(step, icd, rows, j).1.Some?
    ensures ReadRows(step, icd, rows, k) == ReadRows(step, icd, rows, j)
    decreases k - j
  {
    if j < k {
      ReadRowsStops(step, icd, rows, j, k - 1);
    }
  }

  /** Once a row of an ICD raised an error, no later row is read. */
  lemma ReadPrefixStops(p: Plugins, icd: Icd, rows: seq<Row>, j: nat, k: nat)
    requires j <= k <= |rows| && ReadPrefix(p, icd, rows, j).1.Some?
    ensures ReadPrefix(p, icd, rows, k) == ReadPrefix(p, icd, rows, j)
  {
    ReadRowsStops(RowReader(p), icd, rows, j, k);
  }

  lemma ReadPrefixKeepsConsistent(p: Plugins, icd: Icd, rows: seq<Row>, k: nat)
    requires Consistent(icd) && k <= |rows|
    ensures Consistent(ReadPrefix(p, icd, rows, k).0)
  {
    forall a, row, n | Consistent(a)
      ensures RowReader(p)(a, row, n).Ok? ==> Consistent(RowReader(p)(a, row, n).value)
    {
      ReadRowKeepsConsistent(p, a, row, n);
    }
    ReadRowsKeepsConsistent(RowReader(p), icd, rows, k);
  }

  /** Reading the next row of a prefix that raised no error. */
  lemma ReadPrefixNext(p: Plugins, icd: Icd, rows: seq<Row>, k: nat)
    requires k < |rows|
    ensures var before := ReadPrefix(p, icd, rows, k);
      ReadPrefix(p, icd, rows, k + 1) ==
        if before.1.Some? then before
        else match ReadRow(p, before.0, rows[k], k + 1)
          case Ok(next) => (next, None)
          case Err(e) => (before.0, Some(e))
  {
  }

  /** A read leaves a consistent ICD consistent. */
  lemma ReadIcdKeepsConsistent(p: Plugins, icd: Icd, s: string)
    requires Consistent(icd)
    ensures Consistent(ReadIcd(p, icd, s).0)
  {
    var parsed := IcdRows(p, s);
    ReadPrefixKeepsConsistent(p, icd, parsed.rows, |parsed.rows|);
  }

  /** The parser depends on the first eight bytes of the ICD only. */
  lemma FittingParserReadsEightBytes(a: string, b: string)
    requires Head(a, 8) == Head(b, 8)
    ensures FittingParser(a) == FittingParser(b)
  {
    HeadOfHead(a, 4, 8);
    HeadOfHead(b, 4, 8);
  }

  lemma HeadOfHead(s: string, m: nat, n: nat)
    requires m <= n
    ensures Head(Head(s, n), m) == Head(s, m)
  {
  }
}
