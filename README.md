# cutplace interface control document, modelled in Dafny

cutplace checks data files against an interface control document (ICD). The ICD is a table
with three kinds of rows:

- `d` rows describe the data format: CSV, fixed, Excel or ODS, plus its properties.
- `f` rows describe the fields: name, example, type, empty flag, length and rule.
- `c` rows describe checks that run on every row and once more at the end of the data.

The class `InterfaceControlDocument` collects these rows. It can read a whole ICD file. It
then validates a data file row by row:

- Each row is accepted or rejected.
- Every registered listener hears of each accepted and each rejected row.
- The checks at end of data run last.

The model has these parts:

- `Schema` — how an ICD is built from its rows, as values.
  - Covers `addDataFormat`, `addFieldFormat`, `addCheck`, `_fittingParser` and `read`, including every error case.
  - Proves that every successful step keeps the ICD consistent. The field names, field formats and name map describe the same fields in the same order, with each name once. The check order lists every check once.
- `Validation` — `validate` as values.
  - The row loop (`RunRows`), its per-row step (`ValidateRow`) and the checks at end (`EndChecks`).
  - Proves how these add up: every row after the header is accepted or rejected unless the run aborts, every check at end passes or fails, and each listener receives exactly one notice per accepted or rejected row and per failed check at end.
- `Interface.InterfaceControlDocument` — the class itself.
  - It keeps the same state in fields that its methods update in place.
  - Every method is proved to leave exactly the state the `Schema` or `Validation` function gives for the old state.
  - The loops of `validate` are `while` loops with invariants, tied to those functions.
- `FixedParser` and `DelimitedParser` — the two text parsers `validate` and `read` use.
  - The fixed parser slices records back to back.
  - The delimited parser handles quoting, escaping and automatic detection of line and item delimiters.
  - Proved: the slicing covers the input; writing rows as fixed records and parsing them gives the rows back; writing a table as delimited text and parsing it gives its content back.
- `ParserTests` — every case of `cutplace/test_parsers.py`, as a lemma about these parsers.
- `Text` — `strip`, `lower`, `split`, `join` and the Python-name check, on ASCII.
- `Collaborators` — the modules the ICD calls but which are not modelled (`data`, `fields`, `checks`, `range`, the spreadsheet readers).
  - They are a record of total functions (`Plugins`), so each result holds for every behaviour of those modules.

## Model

| member | source | states |
|---|---|---|
| Interface.InterfaceControlDocument.constructor | cutplace/interface.py:75-85 | a new ICD has no data format, no fields, no checks, no listeners and all four counts at zero |
| Interface.InterfaceControlDocument.ResetCounts | cutplace/interface.py:87-91 | the accepted, rejected, passed and failed counts become zero; the ICD and listeners are unchanged |
| Interface.InterfaceControlDocument.AddDataFormat | cutplace/interface.py:134-153 | on success the ICD becomes `Schema.AddDataFormat` of the old one; on error it is unchanged and the error is returned; consistency is kept |
| Interface.InterfaceControlDocument.ValidatedFieldType | cutplace/interface.py:190-200 | the field type the method builds from the parts of the type text is the one `Schema.FieldTypeOf` defines, error included |
| Interface.InterfaceControlDocument.JoinedTypeParts | cutplace/interface.py:192-197 | the loop joins the validated type parts with dots, or returns the error of the first part that is not a Python name |
| Interface.InterfaceControlDocument.AddFieldFormat | cutplace/interface.py:155-250 | on success the ICD becomes `Schema.AddFieldFormat` of the old one; on error it is unchanged and the error is returned; consistency is kept |
| Interface.InterfaceControlDocument.AddCheck | cutplace/interface.py:252-272 | on success the ICD becomes `Schema.AddCheck` of the old one; on error it is unchanged and the error is returned; consistency is kept |
| Interface.InterfaceControlDocument.Read | cutplace/interface.py:303-343 | the new ICD and the error raised are those of `Schema.ReadIcd` for the content; the counts and listeners are unchanged |
| Interface.InterfaceControlDocument.ReadIcdRow | cutplace/interface.py:323-334 | one ICD row changes the ICD as `Schema.ReadRow` says, or leaves it unchanged and returns the error |
| Interface.InterfaceControlDocument.Validate | cutplace/interface.py:376-519 | the new ICD, the four counts, the notices to listeners and the abort are those of `Validation.Validate` for the old ICD |
| Interface.InterfaceControlDocument.DataRowsOf | cutplace/interface.py:388-415 | the data rows come from the parser the data format selects: delimited with its dialect, fixed with the field lengths, or the Excel or ODS reader |
| Interface.InterfaceControlDocument.RunDataRows | cutplace/interface.py:427-503 | the row loop leaves the ICD, the accepted and rejected counts, the notices and the abort that `Validation.RunRows` gives over all rows |
| Interface.InterfaceControlDocument.NextRow | cutplace/interface.py:429-433 | one further row advances the run from `RunRows` over the first k rows to `RunRows` over the first k + 1, skipping header rows |
| Interface.InterfaceControlDocument.TakeRow | cutplace/interface.py:434-503 | a row after the header is validated; an accepted row counts as accepted and a rejected row as rejected, each with one notice per listener; an abort changes no count |
| Interface.InterfaceControlDocument.ResetAllChecks | cutplace/interface.py:383-384 | every check is reset: all checks stay, each with its state cleared, and nothing else changes |
| Interface.InterfaceControlDocument.FieldLengths | cutplace/interface.py:398-411 | the loop collects the single fixed length of every field, or stops at the first field without one |
| Interface.InterfaceControlDocument.RunChecksAtEnd | cutplace/interface.py:508-519 | the loop over the checks leaves the passed and failed counts, notices and abort of `Validation.EndChecks`; the ICD and row counts are unchanged |
| Interface.InterfaceControlDocument.ValidatedRow | cutplace/interface.py:434-500 | validating one row changes the ICD and gives the verdict as `Validation.ValidateRow` does; `Validation.ValidateRowVerdict` states that verdict case by case |
| Interface.InterfaceControlDocument.RowMapOf | cutplace/interface.py:436-461 | the item loop builds the row map of `Validation.RowValues`, or the failure at the first bad item |
| Interface.InterfaceControlDocument.RunRowChecks | cutplace/interface.py:469-476 | the loop over the row checks leaves the check states and failure of `Validation.RowChecks` |
| Interface.InterfaceControlDocument.ValidatedItem | cutplace/interface.py:443-460 | the item checks (characters, then empty, then length unless fixed, then the field type) give the value or error of `Validation.ItemValue` |
| Interface.InterfaceControlDocument.Notify | cutplace/interface.py:479-480 | each listener, in order, receives one notice of the event |
| Interface.InterfaceControlDocument.AddValidationEventListener | cutplace/interface.py:521-524 | a listener not yet registered is appended; nothing else changes |
| Interface.InterfaceControlDocument.RemoveValidationEventListener | cutplace/interface.py:526-529 | a registered listener is removed: afterwards it is absent and every other listener is still there; nothing else changes |
| Interface.IndexOf | cutplace/interface.py:529 | the index `list.remove` finds is the first place where the listener occurs |
| Interface.RemoveFirstOfDistinct | cutplace/interface.py:521-529 | listeners are added only when absent, so they are distinct; removing one leaves one fewer, still distinct, without it and with every other one |
| Text.Strip | cutplace/interface.py:368-374 | the result is no longer than the input, and neither starts nor ends with a blank (that it is the input with its blank ends cut off is `Text.StripCutsBlankEnds`) |
| Text.StripCutsBlankEnds | cutplace/interface.py:368-374 | the stripped text is a slice of the input with only blanks before and after it; with the ends of `Strip` not blank, these are all the blanks at either end |
| Text.StripEmptyIffAllBlank | cutplace/interface.py:331 | a stripped marker is empty exactly when it is made of blanks only |
| Text.Lower | cutplace/interface.py:324 | lower-casing keeps the length and changes each character on its own |
| Text.ValidatedPythonName | cutplace/interface.py:185 | a name is accepted exactly when its stripped text is a Python name, and the stripped text is returned |
| Text.Split | cutplace/interface.py:193 | splitting gives at least one part and no part contains the separator |
| Text.JoinSplit | cutplace/interface.py:193-197 | joining the parts of a split with the separator gives the original text back |
| Schema.DataFormatAfter | cutplace/interface.py:136-153 | a row without items, a second format key and a first key other than the format each raise their error; otherwise the format is created or gets the property |
| Schema.AddDataFormat | cutplace/interface.py:134-153 | a data format row changes nothing but the data format, and leaves one set |
| Schema.TypeParts | cutplace/interface.py:191-200 | every part is validated as a Python name, or the error names the first part that is not |
| Schema.EmptyFlag | cutplace/interface.py:202-210 | the field may be empty exactly when the fourth item, stripped and lower-cased, is `x`; anything else that is not blank is an error |
| Schema.FieldFormatOf | cutplace/interface.py:181-234 | a field format made from the row has its validated name and type, length, rule and empty flag; it has a length for fixed data, its class exists, and a given example validates |
| Schema.TypePartsOfValid | cutplace/interface.py:194-197 | when each part validates, the parts as a whole validate to the validated names |
| Schema.AddFieldFormat | cutplace/interface.py:170-245 | a field before a data format, a row of fewer than 3 items, a bad empty mark and a fixed field without length are errors; success means a valid field format with a new name, appended |
| Schema.AddCheck | cutplace/interface.py:252-272 | a row of fewer than 2 items is an error; a constructed check is added exactly when its description is new |
| Schema.Head | cutplace/interface.py:281-288 | reading n characters gives a prefix of at most n, and exactly n when there are enough |
| Schema.FittingParser | cutplace/interface.py:274-301 | ODS when the first 4 bytes are the zip header, else Excel when the first 8 are the OLE2 header, else CSV with both delimiters detected and `"` as quote and escape |
| Schema.FittingParserReadsEightBytes | cutplace/interface.py:281-288 | the parser choice depends on the first eight characters only |
| Schema.ReadRow | cutplace/interface.py:323-334 | the lower-cased first item `c`, `d` or `f` adds a check, data format property or field; a blank or missing one is ignored; anything else is an error naming the row |
| Schema.ReadIcd | cutplace/interface.py:303-343 | a read without error leaves an ICD with a data format and at least one field |
| Schema.AddDataFormatKeepsConsistent | cutplace/interface.py:134-153 | a data format row keeps the ICD consistent |
| Schema.FieldsAgreeAppend | cutplace/interface.py:236-240 | appending a field with a new name to all three field collections keeps them in agreement |
| Schema.AppendFieldKeepsConsistent | cutplace/interface.py:236-240 | appending a field keeps the ICD consistent, adds one name and one map entry, and keeps the earlier fields in order |
| Schema.AddFieldFormatKeepsConsistent | cutplace/interface.py:155-250 | a field row keeps the ICD consistent |
| Schema.ChecksAgreeAppend | cutplace/interface.py:266-268 | adding a check with a new description keeps the check order in agreement with the checks |
| Schema.AppendCheckKeepsConsistent | cutplace/interface.py:266-268 | adding a check keeps the ICD consistent and adds one check |
| Schema.NewCheckStateKeepsConsistent | cutplace/interface.py:383-384 | replacing check states without changing which checks there are keeps the ICD consistent |
| Schema.AddCheckKeepsConsistent | cutplace/interface.py:252-272 | a check row keeps the ICD consistent |
| Schema.ReadRowKeepsConsistent | cutplace/interface.py:323-334 | any ICD row keeps the ICD consistent |
| Schema.ReadRowsKeepsConsistent | cutplace/interface.py:320-334 | reading rows with a step that keeps consistency keeps it |
| Schema.ReadRowsStops | cutplace/interface.py:320-334 | once a row raised an error, later rows have no effect |
| Schema.ReadPrefixStops | cutplace/interface.py:320-334 | the same for ICD rows |
| Schema.ReadPrefixKeepsConsistent | cutplace/interface.py:320-334 | reading any number of ICD rows keeps the ICD consistent |
| Schema.ReadPrefixNext | cutplace/interface.py:320-334 | reading one more ICD row applies that row to the state so far, unless an error stopped reading |
| Schema.ReadIcdKeepsConsistent | cutplace/interface.py:303-343 | reading an ICD keeps it consistent |
| Validation.Deliveries | cutplace/interface.py:479-480 | one notice per listener, in listener order, each carrying the event |
| Validation.NoticesToAppend | cutplace/interface.py:479-503 | the notices a listener gets from two stretches add up |
| Validation.DeliveredOnce | cutplace/interface.py:479-480 | with distinct listeners, each registered listener gets one notice of an event and no one else gets any |
| Validation.CharacterError | cutplace/interface.py:444-450 | an item passes the character check exactly when every character is in the range; otherwise the error is that of the first character outside it |
| Validation.ItemValue | cutplace/interface.py:443-460 | a character error comes first; a value means the empty check passed, the length check passed unless the data is fixed, and the field type gave the value; fixed items are stripped first |
| Validation.RowValues | cutplace/interface.py:436-461 | a row map means every validated item gave a value under its field name; a failure names the first item that did not, and all before it passed |
| Validation.RowValuesKeys | cutplace/interface.py:436-461 | the row map has no keys but the names of the validated fields |
| Validation.RowValuesLastWins | cutplace/interface.py:460 | a field name maps to the value of the last item validated under it |
| Validation.RowValuesStops | cutplace/interface.py:438-461 | after the first failing item, further items change nothing |
| Validation.Called | cutplace/interface.py:474 | a check that got `checkRow` records exactly that call and is otherwise unchanged |
| Validation.RowChecks | cutplace/interface.py:469-476 | the row checks keep every check; a failure is a wrapped `CheckError` or another error passed on as is |
| Validation.RowChecksStops | cutplace/interface.py:469-476 | after the first failing row check no other check runs |
| Validation.RowChecksKeys | cutplace/interface.py:469-476 | the row checks leave the same set of checks |
| Validation.RowChecksOnlyCalls | cutplace/interface.py:469-476 | the row checks change nothing in a check but the calls it recorded |
| Validation.RowChecksPassed | cutplace/interface.py:469-476 | when no row check fails, every check raised nothing, the checks run so far each recorded this row once, and the others are untouched |
| Validation.Classify | cutplace/interface.py:481-500 | an error outside cutplace aborts; a field value error rejects naming the field at the item index, or aborts with an index error when there is none; any other cutplace error rejects with itself as reason |
| Validation.MissingFieldNames | cutplace/interface.py:465-467 | the missing fields are exactly those at and after the number of items in the row |
| Validation.MissingFieldNamesOffByOne | cutplace/interface.py:466 | as written, a row of 1 item of fields `a`, `b` lists `a` as missing, and an empty row lists only `b`; the corrected list does neither |
| Validation.ValidateRow | cutplace/interface.py:434-500 | only the calls recorded by the checks change; surplus items reject the row naming the last field's index, and missing items reject it listing the fields without items; an accepted row has one item per field and every item validates |
| Validation.ValidateRowVerdict | cutplace/interface.py:436-500 | the first refused item rejects the row naming its field (field value error) or with the error itself, and aborts only for an error from outside cutplace; a failing row check rejects the row; a row is accepted exactly when it has one valid item per field and every row check passes |
| Validation.RunRowsNext | cutplace/interface.py:429-503 | one more row after the header advances the run by that row's verdict |
| Validation.RunRowsStops | cutplace/interface.py:481-490 | once a row aborted the run, further rows change nothing |
| Validation.RunRowsCounts | cutplace/interface.py:427-503 | no more rows accepted or rejected than there are after the header, and exactly that many when the run did not abort |
| Validation.RunRowsNoticeCount | cutplace/interface.py:477-503 | there are as many notices as listeners times the rows accepted or rejected |
| Validation.RunRowsNoticesTo | cutplace/interface.py:477-503 | each registered listener hears once of each accepted or rejected row, and no one else hears of any |
| Validation.RunRowsKeepsIcd | cutplace/interface.py:427-503 | a row step that changes only the calls the checks recorded makes a run that changes only those |
| Validation.EndChecksStops | cutplace/interface.py:509-519 | once a check at end raised something other than a `CheckError`, later checks do not run |
| Validation.EndChecksCounts | cutplace/interface.py:509-519 | no more checks passed or failed than there are, and exactly that many without an abort |
| Validation.EndChecksNoticeCount | cutplace/interface.py:514-519 | there are as many notices as listeners times the failed checks |
| Validation.EndChecksNoticesTo | cutplace/interface.py:514-519 | each registered listener hears once of each failed check at end |
| Validation.EndChecksPassed | cutplace/interface.py:509-519 | the checks at end all pass, with no abort, exactly when none raises an error |
| Validation.ResetChecks | cutplace/interface.py:383-384 | every check is kept with its state cleared |
| Validation.FixedLengths | cutplace/interface.py:398-411 | a list of widths means one per field, each the field's fixed length; an error names a field without one, all before it having one |
| Validation.FixedLengthsOfAll | cutplace/interface.py:398-411 | when every field has a fixed length, those are the widths |
| Validation.DataDialect | cutplace/interface.py:388-394 | the dialect takes both delimiters and the quote from the data format, and `"` as escape |
| Validation.DataRows | cutplace/interface.py:388-415 | CSV parses with the data dialect; fixed parses with the field lengths or fails exactly when they do; Excel and ODS use their reader |
| Validation.RowValidatorKeepsIcd | cutplace/interface.py:434-500 | validating a row changes only the calls the checks recorded |
| Validation.ValidateKeepsIcd | cutplace/interface.py:376-519 | validating changes nothing in the ICD but the calls the checks recorded (each check keeps its description, type, rule and field names), so a consistent ICD stays consistent |
| Validation.ResetForgetsCalls | cutplace/interface.py:383-384 | checks that differ only in their recorded calls are equal once reset |
| Validation.ValidateTwice | cutplace/interface.py:376-519 | validating the same data again right after a validation gives the same outcome: the same four counts, notices, abort and checks |
| Validation.ValidateCounts | cutplace/interface.py:376-519 | a validation that is not aborted handles every row after the header and every check at end |
| Validation.ValidateNotices | cutplace/interface.py:376-519 | each registered listener gets one notice per accepted or rejected row and per failed check at end |
| FixedParser.SliceItems | cutplace/test_parsers.py:64-79 | a record is sliced into one item per width |
| FixedParser.SliceItemsInverse | cutplace/test_parsers.py:78-79 | the items sliced from a record have their widths and glue back into the record |
| FixedParser.SliceItemsOfGlue | cutplace/test_parsers.py:78-79 | slicing glued items of the right widths gives them back |
| FixedParser.ParseCoversInput | cutplace/test_parsers.py:75-82 | parsing reads whole records only, back to back from the start; the leftover is shorter than a record; it fails exactly when input is left over |
| FixedParser.ParseCoversRecord | cutplace/test_parsers.py:78-82 | one more whole record in front keeps the input covered |
| FixedParser.CoversOneMore | cutplace/test_parsers.py:78-82 | a record of the right widths in front of covered input covers the longer input |
| FixedParser.ParseGlueAll | cutplace/test_parsers.py:75-79 | parsing rows written back to back as fixed records gives the rows back, without failure |
| DelimitedParser.FirstBreak | cutplace/test_parsers.py:177-182 | the first CR or LF from a position, or the end |
| DelimitedParser.DetectLineDelimiter | cutplace/test_parsers.py:177-182 | a detected line delimiter is LF, CR or CR LF |
| DelimitedParser.BreakAt | cutplace/test_parsers.py:177-182 | the line delimiter at a break is LF, CR or CR LF |
| DelimitedParser.BreakAtIsThere | cutplace/test_parsers.py:177-182 | the line delimiter taken at a break occurs there |
| DelimitedParser.DetectedLineDelimiterIsFirst | cutplace/test_parsers.py:177-182 | the detected line delimiter is the one at the first line break of the text |
| DelimitedParser.LineEnd | cutplace/test_parsers.py:207-216 | the end of the first line: the first place where the line delimiter occurs, or the end |
| DelimitedParser.FirstCandidate | cutplace/test_parsers.py:207-216 | the first of `,`, `;`, tab and `|` in a range, or its end |
| DelimitedParser.DetectItemDelimiter | cutplace/test_parsers.py:207-216 | a detected item delimiter is one of `,`, `;`, tab and `|` |
| DelimitedParser.DetectedItemDelimiterIsFirst | cutplace/test_parsers.py:207-216 | the detected item delimiter is the first candidate on the first line |
| DelimitedParser.Resolve | cutplace/test_parsers.py:88-93 | explicit settings are kept, and the line delimiter is LF, CR or CR LF |
| DelimitedParser.Unquoted | cutplace/test_parsers.py:158-159 | an unquoted item runs up to the first item or line delimiter, which stays in the rest |
| DelimitedParser.QuotedRest | cutplace/test_parsers.py:152-153 | the rest after a quoted item is shorter than the input |
| DelimitedParser.ScanItem | cutplace/test_parsers.py:136-159 | an item leaves a rest that starts with a delimiter or is empty; an error stops within the input |
| DelimitedParser.ScanLine | cutplace/test_parsers.py:136-172 | a line has at least one item and leaves a rest that starts with the line delimiter or is empty |
| DelimitedParser.DialectOf | cutplace/test_parsers.py:88-93 | the dialect that spells out given settings makes the parser use exactly those |
| DelimitedParser.Texts | cutplace/test_parsers.py:136-172 | one text per cell |
| DelimitedParser.Content | cutplace/test_parsers.py:161-169 | one row per line of the table |
| DelimitedParser.QuoteAll | cutplace/test_parsers.py:155-156 | quoting every item keeps the rows' content and shape |
| DelimitedParser.QuotedTexts | cutplace/test_parsers.py:155-156 | the texts of quoted cells are the row |
| DelimitedParser.QuotedRestOfEscaped | cutplace/test_parsers.py:139-140 | an escaped item and its closing quote are read back as the item |
| DelimitedParser.UnquotedOfPlain | cutplace/test_parsers.py:158-159 | a plain item followed by a delimiter is read back as itself |
| DelimitedParser.ScanItemOfCell | cutplace/test_parsers.py:136-159 | a written cell is read back as its text |
| DelimitedParser.ScanLineOfCells | cutplace/test_parsers.py:136-172 | a written line is read back as the texts of its cells |
| DelimitedParser.WrittenLineStart | cutplace/test_parsers.py:165-166 | a written line that is not empty does not start with a line delimiter |
| DelimitedParser.WriteNonEmpty | cutplace/test_parsers.py:165-166 | a table whose last line is not empty is written as nonempty text |
| DelimitedParser.ScanFirstLine | cutplace/test_parsers.py:161-166 | a written first line followed by the rest is read as its texts and then the rest |
| DelimitedParser.ScanLaterLine | cutplace/test_parsers.py:161-166 | a written line, a line delimiter and further text are read as that line and then the rest |
| DelimitedParser.RepresentableTail | cutplace/test_parsers.py:161-166 | the lines after the first of a representable table are representable, and its first line is readable |
| DelimitedParser.RepresentableCons | cutplace/test_parsers.py:161-166 | a readable line in front of a representable table keeps it representable |
| DelimitedParser.ScanRowsOfWritten | cutplace/test_parsers.py:161-195 | a written table, with or without a final line delimiter, is read back as its content |
| DelimitedParser.ParseWrite | cutplace/test_parsers.py:136-195 | parsing a written table gives its content back, with or without a final line delimiter |
| DelimitedParser.ParseWriteQuoted | cutplace/test_parsers.py:155-156 | rows written with every item quoted parse back to the rows, when the last row is not empty |
| DelimitedParser.QuoteAllRepresentable | cutplace/test_parsers.py:155-156 | rows with every item quoted and a nonempty last row form a representable table |
| DelimitedParser.QuotedLineNonEmpty | cutplace/test_parsers.py:155-156 | a line that starts with a quoted cell is not written as empty text |
| ParserTests.FixedValid | cutplace/test_parsers.py:78-79 | widths 5, 4 and 10 slice one record into `38000`, ` 123`, `Doe       ` without trimming |
| ParserTests.FixedEmpty | cutplace/test_parsers.py:75-76 | empty fixed input has no rows |
| ParserTests.FixedBrokenEndingTooSoon | cutplace/test_parsers.py:81-82 | a fixed record ending too soon is a syntax error and yields no row |
| ParserTests.CsvOfWritten | cutplace/test_parsers.py:88-93 | text written from a table with the default dialect parses back to its rows |
| ParserTests.SingleChar | cutplace/test_parsers.py:136-137 | `x` parses to one row of `x` |
| ParserTests.QuotedComma | cutplace/test_parsers.py:139-140 | a quoted comma is an item |
| ParserTests.ItemDelimiterAtStart | cutplace/test_parsers.py:142-143 | a leading comma starts with an empty item |
| ParserTests.SingleItemDelimiter | cutplace/test_parsers.py:145-147 | a lone comma is two empty items |
| ParserTests.EmptyItemDelimiterBeforeLineDelimiter | cutplace/test_parsers.py:149-150 | a comma before LF ends the line with an empty item |
| ParserTests.SingleQuotedChar | cutplace/test_parsers.py:152-153 | a quoted `x` is the item `x` |
| ParserTests.SingleLineQuoted | cutplace/test_parsers.py:155-156 | three quoted items on one line |
| ParserTests.SingleLine | cutplace/test_parsers.py:158-159 | three plain items on one line |
| ParserTests.TwoLine | cutplace/test_parsers.py:161-162 | two lines of one and two items |
| ParserTests.TwoLineAgain | cutplace/test_parsers.py:163 | two lines of two items each; the same text is read by `testReader` as two rows of two items |
| ParserTests.MiddleEmptyLine | cutplace/test_parsers.py:165-166 | an empty line between two lines is an empty row |
| ParserTests.TwoLineQuoted | cutplace/test_parsers.py:168-169 | two lines of quoted items |
| ParserTests.MixedQuotedLine | cutplace/test_parsers.py:171-172 | quoted and plain items mix on one line |
| ParserTests.AutoDelimiters | cutplace/test_parsers.py:177-182 | with both delimiters detected, CR LF lines with commas parse to two rows, the final CR LF adding none |
| ParserTests.AutoDelimitersDetected | cutplace/test_parsers.py:177-182 | the detected delimiters of that text are CR LF and comma |
| ParserTests.AutoItemDelimiter | cutplace/test_parsers.py:207-216 | with the item delimiter detected, the semicolon line parses to one row of 7 items |
| ParserTests.AutoItemDelimiterDetected | cutplace/test_parsers.py:207-216 | the detected item delimiter of that line is the semicolon |
| ParserTests.EmptyCsv | cutplace/test_parsers.py:174-175 | empty CSV has no rows |
| ParserTests.EmptyLines | cutplace/test_parsers.py:184-195 | a lone LF, CR or CR LF with the matching dialect has no rows |
| ParserTests.BrokenMissingQuote | cutplace/test_parsers.py:133-134 | an unterminated quote is a syntax error reported at its position, with no rows |

## Left out

- `cutplace/parsers.py` is not part of this model. `FixedParser` and `DelimitedParser` are defined from the tests in `cutplace/test_parsers.py`, and each of those tests is proved of them. The fixed parser reads records back to back, with no line delimiter. A final empty line adds no row.
- The ODS and Excel readers are not modelled. Their rows are a parameter (`Plugins.sheetRows`).
- Files, streams, encodings (`_obtainReader`, `encodingName`) and logging are left out. `read` and `validate` take the content as a string.
- `_createClass` imports modules and looks up a class by name. That lookup is a parameter (`findFieldClass`, `findCheckClass`) that says whether the class was found, missing, or failed to import.
- `data`, `fields`, `checks` and `range` are left out. What they compute and raise is a parameter (`Plugins`), and the model records only the values the ICD passes them. A check's internal state is modelled as the list of `checkRow` calls it received since its last `reset`.
- The iteration order of `checkDescriptions` (a Python dict) is taken to be insertion order.
- The parser's `lineNumber` in `read` is taken to be the number of the row.
- Listeners are assumed not to raise. Their callbacks are modelled as the sequence of notices returned, in the order they happen.
- Error messages are modelled as structured reasons (`IcdError`, `Reason`, `Abort`) instead of formatted strings.
- The escape character of CSV data is fixed to `"`. The source leaves it at the dialect default.
- `lower` and `strip` are ASCII-only (blanks are space, tab, CR, LF, vertical tab and form feed).
- The item loop of `validate` is applied as a function value (`ItemValidatorOf`). `ValidatedItem` and `RowMapOf` are the imperative renderings of that function value, proved equal to it.
- The `isCutplaceError` test of `validate` looks only at the direct base classes. The model sorts the raised errors into cutplace errors and foreign ones, and treats every cutplace error as deriving from `CutplaceError` directly.
- Validation.ValidateRow: a row with fewer items than fields is rejected listing the fields from index `len(row)` on, the evident intention. The source lists them from `len(row) - 1` on (see "## Findings"), which `Validation.MissingFieldNamesAsWritten` models.
- Schema.CheckOf: a check gets the field names as they are when it is added. The source passes the ICD's own list, so fields added after the check are visible to it when it checks rows. The aliasing is not modelled; nothing in the model depends on the field names a check holds.
- Interface.InterfaceControlDocument.Validate: requires a data format. The source fails with an `AttributeError` when `validate` runs before one is set; that crash is not modelled.
- A parser syntax error in the data ends the validation with an `Unparsable` abort after the rows read before it. The checks at end then do not run, as when the exception leaves `validate`.

## Findings

| source | as written | input that shows it | evidently intended | confidence | as-written member | corrected member |
|---|---|---|---|---|---|---|
| cutplace/interface.py:466 | missing fields are `fieldNames[(len(row) - 1):]` | fields `a`, `b` and a row of one item: `a` is listed as missing although it has an item; an empty row lists only `b` (index -1) | the fields from index `len(row)` on, i.e. `fieldNames[len(row):]` | not executed | Validation.MissingFieldNamesAsWritten, Validation.MissingFieldNamesOffByOne | Validation.MissingFieldNames |
