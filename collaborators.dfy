/** The modules an interface control document (ICD) relies on but that are not part of this
    model: `data` (data formats and their properties), `fields` (field types), `checks` (row and
    end-of-data checks), `range` (allowed characters) and the Excel and ODS readers. Their values
    are plain records built by the ICD; what they do with those values is a total function of
    `Plugins`, so every result of the model holds for every behaviour of these modules. */
module Collaborators {
  import opened Wrappers
  import opened Rows
  import DelimitedParser

  /** The `name` of a data format. */
  datatype FormatKind = Csv | Fixed | Excel | Ods

  /** The data format settings that `validate` reads: the format name, the number of header
      rows, the allowed characters (the text of a range, if any) and for delimited data the line
      delimiter, item delimiter and quote character. */
  datatype DataFormat = DataFormat(
    kind: FormatKind,
    header: nat,
    allowedCharacters: Option<string>,
    lineDelimiter: DelimitedParser.LineDelimiter,
    itemDelimiter: DelimitedParser.ItemDelimiter,
    quoteChar: char)

  /** A field format as the ICD constructs it: name, type, empty flag, length text (absent when
      the row has fewer than 5 items) and rule. */
  datatype FieldFormat = FieldFormat(
    name: string,
    fieldType: string,
    isAllowedToBeEmpty: bool,
    length: Option<string>,
    rule: string)

  /** The value a field type makes of an item, in its text form. */
  type Value = string

  type RowMap = map<string, Value>

  /** One `checkRow` call a check has received since its last reset. */
  datatype RowCall = RowCall(rowNumber: nat, rowMap: RowMap)

  /** A check as the ICD constructs it; `calls` is the state the check keeps between rows, which
      `reset` clears. */
  datatype Check = Check(
    description: string,
    checkType: string,
    rule: string,
    fieldNames: seq<string>,
    calls: seq<RowCall>)

  /** The exceptions collaborators raise. All but `Foreign` derive from `CutplaceError`. */
  datatype Raised =
    | FieldValueError(message: string)
    | CheckError(message: string)
    | RangeValueError(message: string)
    | SyntaxError(message: string)
    | OtherCutplaceError(message: string)
    | Foreign(message: string)

  predicate IsCutplaceError(e: Raised) {
    !e.Foreign?
  }

  /** The outcome of looking up a class by its type name (`_createClass`): found, missing from
      its module (`AttributeError`), or the import of its module failed. */
  datatype Lookup = Found | Missing | ImportFailed(error: Raised)

  /** A listener, by identity. */
  type Listener = nat

  /** The behaviour of the modules that are not part of this model. */
  datatype Plugins = Plugins(
    /** `data.isFormatKey`. */
    isFormatKey: string -> bool,
    /** `data.createDataFormat`. */
    createDataFormat: string -> Result<DataFormat, Raised>,
    /** `DataFormat.set(key, value)`. */
    setProperty: (DataFormat, string, string) -> Result<DataFormat, Raised>,
    /** The lookup of a field format class in `fields`. */
    findFieldClass: string -> Lookup,
    /** What the field format constructor raises, if anything. */
    newFieldFormat: FieldFormat -> Option<Raised>,
    /** `FieldFormat.validateEmpty`, `validateLength` and `validate`. */
    validateEmpty: (FieldFormat, string) -> Option<Raised>,
    validateLength: (FieldFormat, string) -> Option<Raised>,
    validateValue: (FieldFormat, string) -> Result<Value, Raised>,
    /** The single fixed length of the length range of a field, if it has one. */
    fixedLength: FieldFormat -> Option<nat>,
    /** The lookup of a check class in `checks`. */
    findCheckClass: string -> Lookup,
    /** What the check constructor raises, if anything. */
    newCheck: Check -> Option<Raised>,
    /** `Check.checkRow(rowNumber, rowMap)` and `Check.checkAtEnd()`. */
    checkRow: (Check, nat, RowMap) -> Option<Raised>,
    checkAtEnd: Check -> Option<Raised>,
    /** `range.validate("character", code)` for the range given by its text. */
    characterError: (string, int) -> Option<Raised>,
    /** The rows of an Excel or ODS file with the given content. */
    sheetRows: (FormatKind, string) -> ParseResult)
}
