# A verified model of the `rust_ses_example` Lambda

The Lambda keeps a CSV file of entries, each an id with a start and an end timestamp, up to date by e-mail.
It handles two events:

- **Timer event.** It fetches the current file from the output object and mails it to the maintainer, asking for a check and an update. When there is no file, it asks for one.
- **Storage event.** The event names a received e-mail. The Lambda finds the mail's first attachment and decodes it as CSV, keeping every row that decodes and every row error. It then validates that no entry starts after it ends.
  - If there is any error, it mails back a report that lists the errors and carries the attachment.
  - Otherwise, it re-encodes the records, writes them to the output object and mails a confirmation carrying the written bytes.

The model has nine modules:

| module | file | what it holds |
|---|---|---|
| `Wrappers` | wrappers.dfy | `Option` and `Result` |
| `Text` | text.dfy | split, join and trim on strings, decimal digits, and small sequence facts |
| `Utf8` | utf8.dfy | the UTF-8 form of a string (`str::as_bytes`, `str::from_utf8`) |
| `Timestamp` | timestamp.dfy | the six-field timestamp, its order, and the fixed `%Y-%m-%d %H:%M:%S` format |
| `CsvSerde` | csv_serde.dfy | `Entry`, the per-row decode, the `deserialize_csv` loop, validation, and the CSV written back |
| `Email` | email.dfy | the MIME part tree `send_email` builds, and `Attachment::new` |
| `Names` | names.dfy | percent-decoding of event names, and `Path::file_name` |
| `Handler` | handler.dfy | the events, the services as a class, `handle_email` and `my_handler` as methods with a trace of calls, and the pure functions those methods are proved against |
| `HandlerProperties` | handler_properties.dfy | what the handler does, stated over those functions |

`src/main.rs` carries its own copies of `Entry`, `validate_record` and `send_email`. It never calls `src/csv_serde.rs` or `src/email.rs`. The copies match line for line, with two differences that matter:

- `handle_email` collects the validation results with `.filter(is_err)`. Each report line is therefore the `Debug` text of an `Err(..)` value, not of the error alone.
- The decode loop is written inline.

The model defines each concept once. Rows below cite whichever copy the member follows.

The services are a class `Services` with four fields:

- the stored objects;
- whether writes succeed;
- whether sends succeed;
- the trace of calls made.

Every method states its exit and its whole new state through a pure function: `HandleRun`, `HandlerRun`, or one of their parts. Three things do not run inside the model and are parameters instead:

- `parseMail`, which parses a mail with `mailparse`;
- `debugText`, which renders a decode error with `{:?}`;
- the two success flags.

Object keys and bucket names are percent-decoded as `percent_decode_str` does. A `+` stays a `+`.

## Model

| member | source | states |
|---|---|---|
| `Timestamp.BeforeIsStrictTotalOrder` | src/csv_serde.rs:52 | the order compared by `start_date > end_date` is irreflexive, transitive and total on timestamps |
| `Timestamp.IsLeapYear` | src/csv_serde.rs:21 | the Gregorian leap-year rule chrono's calendar follows; `DaysInMonth` uses it for February |
| `Timestamp.DaysInMonth` | src/csv_serde.rs:21 | the days of each month, 29 in February of a leap year; `Valid` bounds the day by it |
| `Timestamp.Valid` | src/csv_serde.rs:21 | the dates and times `parse_from_str` accepts: a day that exists in its month, hour below 24, minute below 60, second up to the leap second 60; `Parse` returns only these, and `ParseFormat` proves each one reads back |
| `Timestamp.Before` | src/csv_serde.rs:52 | `NaiveDateTime`'s order: date first, then time of day, field by field; `BeforeIsStrictTotalOrder` proves it a strict total order |
| `Timestamp.Format` | src/csv_serde.rs:27-33 | a formatted timestamp is always 19 characters |
| `Timestamp.FormatFields` | src/csv_serde.rs:31 | each field sits zero-padded in its columns between the fixed separators `-`, ` `, `:` |
| `Timestamp.ParseFields` | src/csv_serde.rs:21 | text with the separators in place and each field's digits in its columns parses to that timestamp |
| `Timestamp.TwoDigits` | src/csv_serde.rs:31 | a two-digit field reads back as its own value |
| `Timestamp.FourDigits` | src/csv_serde.rs:31 | a four-digit year reads back as its own value |
| `Timestamp.FieldValues` | src/csv_serde.rs:31 | every zero-padded field of a timestamp reads back as its own value |
| `Timestamp.ParseFormat` | src/csv_serde.rs:16-33 | parsing a formatted timestamp gives the same timestamp |
| `Timestamp.LeapSecondRoundTrip` | src/csv_serde.rs:16-33 | a leap second is written as second `60` and parses back to the same timestamp |
| `Timestamp.ShapePieces` | src/csv_serde.rs:21 | text of the fixed shape is its six digit groups and separators |
| `Timestamp.FormatParse` | src/csv_serde.rs:16-33 | any text that parses is exactly the formatted text of the timestamp it parses to |
| `Timestamp.Parse` | src/csv_serde.rs:20-24 | only text of the fixed 19-character shape parses, and only to a date and time that exist, leap second 60 included; `ParseFormat` and `FormatParse` prove it inverse to `Format` |
| `Timestamp.FormatSeparators` | src/csv_serde.rs:31 | formatted timestamps hold no `,` and no newline, and end in a digit |
| `Text.Split` | src/csv_serde.rs:36 | splitting gives at least one piece |
| `Text.Join` | src/main.rs:201-205 | `[String]::join`: the separator between consecutive pieces; `JoinCons`, `JoinSnoc`, `JoinEnds` and `SplitJoin` pin it down |
| `Text.JoinCons` | src/main.rs:205 | joining a first piece before others puts one separator between them |
| `Text.JoinSnoc` | src/main.rs:205 | joining one more piece adds the separator and the piece at the end |
| `Text.JoinEnds` | src/main.rs:205 | a join starts with its first piece and ends with its last |
| `Text.JoinTrimmed` | src/csv_serde.rs:36 | a join whose first piece starts and last piece ends with non-white space is unchanged by `trim` |
| `Text.SplitWithoutSep` | src/csv_serde.rs:36 | a string without the separator splits into itself alone |
| `Text.SplitAfterPiece` | src/csv_serde.rs:36 | splitting a piece, the separator and a rest gives the piece and then the split of the rest |
| `Text.SplitThree` | src/csv_serde.rs:8-13 | three separator-free pieces joined by the separator split back into those three |
| `Text.SplitSnoc` | src/csv_serde.rs:36 | a separator and a last piece add exactly that piece to a split |
| `Text.SplitJoin` | src/main.rs:205 | pieces without the separator, joined by it, split back into the same pieces |
| `Text.IsWhitespace` | src/csv_serde.rs:36 | the characters of Unicode's White_Space property, which `trim` removes; `TrimStartDropsWhitespace` and `TrimEndDropsWhitespace` use it |
| `Text.TrimStart` | src/csv_serde.rs:36 | leading white space removed: never longer than the text, and empty or starting with non-white space |
| `Text.TrimEnd` | src/csv_serde.rs:36 | trailing white space removed: never longer, starting as the text does, and empty or ending with non-white space |
| `Text.Trim` | src/csv_serde.rs:36 | `str::trim` is never longer than the text, and is empty or starts and ends with non-white space |
| `Text.TrimUnchanged` | src/csv_serde.rs:36 | text without leading or trailing white space is unchanged by `trim` |
| `Text.TrimStartDropsWhitespace` | src/csv_serde.rs:36 | leading white space is removed |
| `Text.TrimEndDropsWhitespace` | src/csv_serde.rs:36 | trailing white space is removed |
| `Text.TrimStartOfAllWhitespace` | src/csv_serde.rs:36 | text that is all white space trims to nothing from the start |
| `Text.TrimStartKeepsTail` | src/csv_serde.rs:36 | trimming the start of text followed by white space keeps that white space |
| `Text.TrimIgnoresSurroundingWhitespace` | src/csv_serde.rs:36 | white space added around text does not change its trimmed form |
| `Text.DigitChar` | src/csv_serde.rs:31 | a value below 10 has an ASCII digit |
| `Text.DigitValue` | src/csv_serde.rs:21 | each digit character has a value below 10 whose digit is that character |
| `Text.Decimal` | src/csv_serde.rs:54-57 | the decimal numeral of a number is non-empty and all digits |
| `Text.Pow10` | src/csv_serde.rs:31 | powers of ten are positive |
| `Text.Padded` | src/csv_serde.rs:31 | a zero-padded number has exactly the requested width and is all digits |
| `Text.DecimalValue` | src/csv_serde.rs:54-57 | the decimal numeral of a number reads back as that number |
| `Text.PaddedValue` | src/csv_serde.rs:31 | a number below 10^width, zero-padded to width, reads back as that number |
| `Text.ValuePadded` | src/csv_serde.rs:21 | padding a digit string's value to its own length gives the string back |
| `Utf8.EncodeChar` | src/main.rs:228 | every character takes one to four bytes |
| `Utf8.Encode` | src/main.rs:228 | `str::as_bytes` takes between one and four bytes per character |
| `Utf8.Decode` | src/main.rs:119 | `str::from_utf8` gives at most one character per byte; `DecodeEncode` proves it inverts `Encode` |
| `Utf8.DecodeFirst` | src/main.rs:119 | a well-formed first character takes between one byte and all of them |
| `Utf8.DecodeFirstOfEncoded` | src/main.rs:119 | the bytes of a character, before anything, decode first to that character |
| `Utf8.DecodeTwo` | src/main.rs:119 | two-byte characters decode back |
| `Utf8.DecodeThree` | src/main.rs:119 | three-byte characters decode back |
| `Utf8.DecodeFour` | src/main.rs:119 | four-byte characters decode back |
| `Utf8.SixBitGroups` | src/main.rs:119 | a number is the sum of its six-bit groups |
| `Utf8.DecodeEncode` | src/main.rs:119 | decoding the UTF-8 form of a string gives the string back |
| `Names.HexValue` | src/main.rs:118 | a hexadecimal digit has a value below 16 |
| `Names.HexDigit` | src/main.rs:118 | the digit of a value below 16 is a hexadecimal digit of that value |
| `Names.PercentDecode` | src/main.rs:118 | decoding never lengthens the bytes |
| `Names.EscapeAll` | src/main.rs:118 | escaping every byte triples the length |
| `Names.PercentDecodeUnescaped` | src/main.rs:118 | bytes without `%` are left alone |
| `Names.PercentDecodeEscapeAll` | src/main.rs:118 | decoding undoes escaping every byte |
| `Names.PercentDecodeExamples` | src/main.rs:118 | a stray `%` is kept (`100%`), while `%2F` becomes `/` |
| `Names.DecodeName` | src/main.rs:117-124 | `percent_decode_str(..).decode_utf8()`, `None` where the `unwrap` panics; `DecodeNamePlain` and `DecodeNameEscaped` give its results |
| `Names.EncodeWithoutPercent` | src/main.rs:118 | a string without `%` has no `%` byte |
| `Names.DecodeNamePlain` | src/main.rs:117-124 | a name without `%` decodes to itself |
| `Names.DecodeNameEscaped` | src/main.rs:117-124 | a name sent fully escaped decodes to the original name |
| `Names.FileName` | src/main.rs:150-151 | a file name is never empty, `.`, `..`, and has no `/` |
| `Names.Components` | src/main.rs:150 | a path has at most as many normal components as segments; `ComponentsKeep` and `ComponentsOfSplit` say which |
| `Names.SplitPiecesLackSep` | src/main.rs:150 | the pieces of a split hold no separator |
| `Names.ComponentsKeep` | src/main.rs:150 | path components keep what the segments lack, and are never empty or `.` |
| `Names.ComponentsOfSplit` | src/main.rs:150 | the components of a path hold no `/` |
| `Names.FileNameAfterDirectory` | src/main.rs:150-151 | the file name of `dir/name` is `name` for a plain segment `name` |
| `Names.FileNameOfParent` | src/main.rs:150-151 | a path ending in `..` has no file name, so the `unwrap` panics |
| `Names.FileNameOfSegment` | src/main.rs:150-151 | a plain segment is its own file name |
| `CsvSerde.ParseU32Decimal` | src/csv_serde.rs:9 | an id written in decimal reads back as the same id |
| `CsvSerde.FieldOf` | src/csv_serde.rs:8-13 | the field a column header names: `id` or its alias `ID`, `start_date`, `end_date`, other names none; `HeaderFields` and `DecodeEncodedRow` use both spellings |
| `CsvSerde.ParseU32` | src/csv_serde.rs:9 | only a non-empty digit string, with at most a leading `+`, parses as an id; `ParseU32Decimal` proves the decimal form reads back |
| `CsvSerde.DecodeColumn` | src/csv_serde.rs:8-13 | a column error carries the row's line |
| `CsvSerde.DecodeColumns` | src/csv_serde.rs:8-13 | an error from the columns carries the row's line |
| `CsvSerde.DecodeRow` | src/csv_serde.rs:6-14 | a row error carries the row's line, and a decoded row has as many fields as the header |
| `CsvSerde.NonEmptyRows` | src/csv_serde.rs:39 | the rows are at most the lines |
| `CsvSerde.Rows` | src/csv_serde.rs:36-39 | the reader's rows are the non-empty lines of the trimmed attachment, numbered from 1; `EncodedLinesAllRows` gives them for written text |
| `CsvSerde.Header` | src/csv_serde.rs:36-39 | a first row gives at least one column name; `EncodedHeader` gives the written header |
| `CsvSerde.DataRows` | src/csv_serde.rs:36-39 | the data rows are never empty lines; `EncodedRows` gives them for written text |
| `CsvSerde.DecodeAll` | src/csv_serde.rs:39 | there is one decode result per data row |
| `CsvSerde.Oks` | src/csv_serde.rs:40-43 | the decoded records in row order, the reference `DeserializeCsv` is proved against; `OksErrsAppend`, `PartitionSize` and `OkPosition` state it |
| `CsvSerde.Errs` | src/csv_serde.rs:44 | the decode errors in row order, the reference `DeserializeCsv` is proved against; `OksErrsAppend`, `PartitionSize` and `FailureDoesNotStop` state it |
| `CsvSerde.DeserializeCsv` | src/csv_serde.rs:35-49 | the loop returns the decoded records and the errors of all rows, each in input order |
| `CsvSerde.OksErrsAppend` | src/csv_serde.rs:39-46 | the records and errors of two stretches of rows are those of the first, then those of the second |
| `CsvSerde.PartitionSize` | src/csv_serde.rs:39-46 | every result goes into exactly one of the two lists |
| `CsvSerde.DeserializeCounts` | src/csv_serde.rs:39-46 | number of records plus number of errors equals the number of data rows |
| `CsvSerde.FailureDoesNotStop` | src/csv_serde.rs:39-46 | a failing row adds its error and alters nothing the rows around it contribute |
| `CsvSerde.OkPosition` | src/csv_serde.rs:39-46 | a decoded row's record comes right after the records of the rows before it |
| `CsvSerde.DecodeIgnoresSurroundingWhitespace` | src/csv_serde.rs:36 | white space around the attachment does not change what is decoded |
| `CsvSerde.ValidateRecord` | src/csv_serde.rs:51-62 | a record is rejected exactly when its start is after its end, equal timestamps pass, and the error carries the entry's message |
| `CsvSerde.NotAfter` | src/csv_serde.rs:52 | the negation of `start_date > end_date`, equal timestamps included; `ValidateRecord` passes exactly on it |
| `CsvSerde.ValidateAllRecords` | src/csv_serde.rs:64-70 | at most one error per record, and none exactly when every record passes |
| `CsvSerde.ValidateAllAppend` | src/csv_serde.rs:64-70 | validating a concatenation gives the errors of the first part, then those of the second |
| `CsvSerde.ValidateAllSingle` | src/csv_serde.rs:64-70 | one record gives its message when it fails and nothing when it passes |
| `CsvSerde.ViolationMessageOneLine` | src/csv_serde.rs:53-58 | a validation message has no newline |
| `CsvSerde.ValidateAllOneLine` | src/csv_serde.rs:64-70 | no validation message has a newline |
| `CsvSerde.ViolationMessage` | src/csv_serde.rs:53-58 | the message names the entry's id and both timestamps as `{}` prints them; `ViolationMessageOneLine` proves it one line |
| `CsvSerde.EncodeCsvSnoc` | src/main.rs:244-249 | serializing one more record adds its line, after the header when it is the first |
| `CsvSerde.EncodeCsv` | src/main.rs:244-249 | the writer's text is empty exactly when there are no records; `EncodeCsvText` and `EncodeDecode` give its shape and its inverse |
| `CsvSerde.EncodeRecord` | src/main.rs:244-249 | a record as `serialize` writes it; `EncodeRecordPlain`, `EncodeRecordFields` and `DecodeEncodedRow` pin it down |
| `CsvSerde.EncodeRecords` | src/main.rs:245-247 | the records' lines, each ending in `\n`; `EncodeRecordsJoin` gives them as a join with a final newline |
| `CsvSerde.HeaderWith` | src/main.rs:244-249 | the header line with a given id column name; `HeaderLine` is its `id` form written before the first record; `HeaderFields` and `HeaderPlain` state it |
| `CsvSerde.RecordLines` | src/main.rs:244-249 | there is one line per record |
| `CsvSerde.RecordLinesSnoc` | src/main.rs:244-249 | one more record adds its line at the end |
| `CsvSerde.EncodeRecordPlain` | src/main.rs:244-249 | a record's line is non-empty, has no newline and ends in a digit |
| `CsvSerde.EncodeRecordFields` | src/main.rs:244-249 | a record's line splits at `,` into its id and its two timestamps |
| `CsvSerde.EncodeRecordsJoin` | src/main.rs:244-249 | the records' text is their lines joined by newlines, with a final newline |
| `CsvSerde.NonEmptyRowsAll` | src/csv_serde.rs:39 | lines none of which is empty are all rows, numbered in order |
| `CsvSerde.HeaderFields` | src/csv_serde.rs:8 | the header `id,start_date,end_date`, or the same with `ID`, splits into its three names |
| `CsvSerde.DecodeThreeColumns` | src/csv_serde.rs:6-14 | a row of a valid id and two valid timestamps under that header decodes to that entry |
| `CsvSerde.DecodeEncodedRow` | src/csv_serde.rs:8-33 | a written record's line decodes back to the record under either spelling of the id header |
| `CsvSerde.RecordLinesPlain` | src/main.rs:244-249 | no record line is empty or has a newline |
| `CsvSerde.HeaderPlain` | src/main.rs:244-249 | the header line is non-empty, has no newline and starts with non-white space |
| `CsvSerde.EncodedLinesPlain` | src/main.rs:244-249 | no line of header and records is empty or has a newline |
| `CsvSerde.LastRecordLine` | src/main.rs:244-249 | the last record line ends in a digit |
| `CsvSerde.EncodedTextTrimmed` | src/csv_serde.rs:36 | the joined header and record lines are unchanged by `trim` |
| `CsvSerde.EncodedLinesRows` | src/csv_serde.rs:36-39 | the reader sees the header line as header, and the record lines as data rows numbered from 2 |
| `CsvSerde.EncodedLinesAllRows` | src/csv_serde.rs:36-39 | every written line is a row of the reader, numbered from 1 |
| `CsvSerde.HeaderAndDataRows` | src/csv_serde.rs:36-39 | when the rows are known lines, the first is the header and the rest are the data rows from line 2 |
| `CsvSerde.EncodedHeader` | src/csv_serde.rs:8 | the written header reads as the three column names |
| `CsvSerde.EncodedRows` | src/csv_serde.rs:36-39 | the data rows are the record lines, one per record, in order |
| `CsvSerde.DecodeLineAt` | src/csv_serde.rs:39-46 | each written record decodes back in its place |
| `CsvSerde.DecodeLines` | src/tests.rs:147-170 | a header with `id` or `ID` and encoded records decodes to exactly those records, with no errors |
| `CsvSerde.EncodeCsvText` | src/main.rs:244-249 | the written text of at least one record is header and record lines joined, with a final newline |
| `CsvSerde.DecodeAllTrailingNewline` | src/csv_serde.rs:36 | a trailing newline changes nothing that is decoded |
| `CsvSerde.EncodeDecode` | src/main.rs:244-249 | decoding the written text gives back the same records and no errors |
| `CsvSerde.AllOk` | src/csv_serde.rs:39-46 | rows that all decode give all their records and no errors |
| `Email.NewAttachment` | src/email.rs:14-22 | `Attachment::new` keeps the bytes, name and MIME type it is given |
| `Email.AttachmentPart` | src/email.rs:67-80 | the attachment part is base64, has the attachment's MIME type, an attachment disposition named by its name, and its bytes as body |
| `Email.Build` | src/email.rs:40-83 | the tree is a `mixed` multipart; its first child is the plain/HTML `alternative` or the plain part; with an attachment there is exactly one more child, the attachment part |
| `Email.Compose` | src/main.rs:338-391 | the message goes to the recipient, from the crate-wide sender, with the subject and the built tree |
| `Email.PlainPart` | src/email.rs:44-55 | the quoted-printable `text/plain; charset=utf8` part of the plain body; `BodyContainerLeaves` and `BuildLeaves` place it first |
| `Email.HtmlPart` | src/email.rs:44-55 | the eight-bit `text/html; charset=utf8` part of the HTML body; `BodyContainerLeaves` and `BuildLeaves` place it second |
| `Email.Leaves` | src/email.rs:40-83 | the single parts of a tree, left to right; `BuildLeaves` gives them for every message built |
| `Email.LeavesOf` | src/email.rs:40-83 | the single parts of a list of trees; `LeavesOfAppend` proves it distributes over concatenation |
| `Email.Attachments` | src/email.rs:67-80 | the attachment leaves are at most the leaves |
| `Email.LeavesOfAppend` | src/email.rs:40-83 | the leaves of two lists of parts are those of the first, then those of the second |
| `Email.AttachmentsAppend` | src/email.rs:67-80 | the attachment leaves of two lists are those of the first, then those of the second |
| `Email.BodyContainerLeaves` | src/email.rs:40-66 | the body leaves are the plain part, then the HTML part when there is one |
| `Email.BodyContainer` | src/email.rs:40-66 | the container is a `mixed` multipart with one child, the body |
| `Email.WithAttachment` | src/email.rs:67-83 | the attachment part as last child; `WithAttachmentAppends` proves the rest kept |
| `Email.BuildLeaves` | src/email.rs:40-83 | the leaves are plain, HTML if given, attachment if given, in that order, so there are 1, 2 or 3 |
| `Email.WithAttachmentAppends` | src/email.rs:67-83 | adding an attachment appends its part last and keeps every other child; without one the tree is unchanged |
| `Email.BuildAttachments` | src/email.rs:67-83 | the attachment leaves are exactly the attachment's part, or none |
| `Email.AttachmentNameRecoverable` | src/email.rs:76 | the file name parameter holds the name's own UTF-8 bytes, which decode back to the name |
| `Handler.FirstAttachment` | src/main.rs:154-161 | no result exactly when no subpart is an attachment; otherwise the first attachment subpart |
| `Handler.Extract` | src/main.rs:148-171 | a stop before the attachment's body is read is never a normal finish |
| `Handler.DebugErrs` | src/main.rs:188-192 | one report line per validation error |
| `Handler.DebugTexts` | src/main.rs:201-204 | one report line per decode error |
| `Handler.HandleRun` | src/main.rs:140-148 | the first call is always the fetch of the event's object |
| `Handler.HasErrors` | src/main.rs:195 | the attachment has errors when it has a decode error or a record failing validation; `ErrorsSendOneReport` and `CleanWritesThenConfirms` split on it |
| `Handler.ReportBody` | src/main.rs:196-225 | the heading, then each section; `SectionPresentIffErrors`, `SectionOneLinePerError` and `ValidationSectionLines` state the sections |
| `Handler.Section` | src/main.rs:198-217 | one titled section, or nothing without errors; `SectionPresentIffErrors` and `SectionOneLinePerError` state it |
| `Handler.ReportText` | src/main.rs:196-225 | the report text: the decode errors' lines, then the validation errors' lines; `ErrorsSendOneReport` proves it is the text sent |
| `Handler.ErrorReport` | src/main.rs:219-234 | the report; `ReportMessage` states its recipient, subject, text and attachment |
| `Handler.Confirmation` | src/main.rs:253-265 | the confirmation; `CleanWritesThenConfirms` states its subject and attachment |
| `Handler.OutputData` | src/main.rs:244-249 | the bytes written: the records re-encoded; `OutputDecodesToSameRecords` proves they decode back |
| `Handler.ReportRun` | src/main.rs:219-241 | one send of the report, ending as the send goes; `ReportEffects` and `SendReport` state it |
| `Handler.UpdateRun` | src/main.rs:250-266 | the write, then the confirmation only if it succeeds; `UpdateEffects` and `WriteAndConfirm` state it |
| `Handler.Respond` | src/main.rs:187-266 | report or update after the body is read; `RespondTo` is proved against it |
| `Handler.ProcessRun` | src/main.rs:150-266 | extract the attachment and respond, or stop with no further call; `ProcessFile` and `ExtractFailureOnlyFetches` state it |
| `Handler.TimerRun` | src/main.rs:82-115 | the timer arm; `TimerSendsFile` and `TimerAsksForFile` state what it sends |
| `Handler.TimerMessage` | src/main.rs:84-114 | the request, with the file as `current.csv` when fetched; `TimerSendsFile` and `TimerAsksForFile` state it |
| `Handler.StorageRun` | src/main.rs:116-134 | the storage arm; `StorageFetchesDecodedNames` and `HandlerPanicsOnFailure` state its calls and exits |
| `Handler.HandlerRun` | src/main.rs:75-138 | `my_handler`; `MyHandler` is proved against it |
| `Handler.Services.constructor` | src/main.rs:77-79 | the services start with the given objects and flags and no calls |
| `Handler.Services.GetFile` | src/main.rs:282-304 | the object's bytes, or none when absent; only the fetch is traced |
| `Handler.Services.WriteFile` | src/main.rs:306-321 | the write succeeds as the flag says, replaces the object only then, and is traced either way |
| `Handler.Services.SendEmail` | src/main.rs:329-416 | the send succeeds as the flag says and traces the composed message |
| `Handler.WriteRecords` | src/main.rs:244-249 | the writer loop produces the header and one line per record, the text `EncodeCsv` specifies |
| `Handler.StoredSnoc` | src/main.rs:250 | only a write that succeeds changes the store, replacing its object |
| `Handler.StoredAfterFetch` | src/main.rs:148 | a fetch changes nothing in the store |
| `Handler.Stored` | src/main.rs:250 | the store after a trace: each successful write replaces its object; `StoredSnoc`, `StoredAfterFetch` and `CleanRunStoresOutput` state it |
| `Handler.SendReport` | src/main.rs:195-241 | the error branch sends the report and ends as the send does, changing no object |
| `Handler.WriteAndConfirm` | src/main.rs:249-266 | the clean branch writes the bytes to the output object, then, only if that succeeds, sends the confirmation |
| `Handler.RespondTo` | src/main.rs:173-266 | decode and validate, then report or update, as `Respond` states |
| `Handler.ProcessFile` | src/main.rs:150-266 | find the attachment and respond, or stop with no further call |
| `Handler.HandleEmail` | src/main.rs:140-267 | `handle_email` makes exactly the calls of `HandleRun`, ends as it says, and leaves the store it implies |
| `Handler.HandleTimer` | src/main.rs:82-115 | the timer arm fetches, sends the request and always finishes |
| `Handler.HandleStorage` | src/main.rs:116-134 | the storage arm panics on a missing or undecodable name, and on any error of `handle_email` |
| `Handler.MyHandler` | src/main.rs:75-138 | `my_handler` makes exactly the calls of `HandlerRun` and ends as it says |
| `HandlerProperties.Sends` | src/main.rs:329-416 | at most one message per call |
| `HandlerProperties.Writes` | src/main.rs:306-321 | at most one write per call |
| `HandlerProperties.ComposedAttachment` | src/main.rs:371-389 | a message with one attachment carries exactly that attachment's part |
| `HandlerProperties.ErrorsSendOneReport` | src/main.rs:195-241 | with errors: nothing written; exactly one message, the `ErrorReport`, to the recipient, titled `Errors in file: ` plus the name; its leaves are the report text listing the `{:?}` line of every decode error and the `Err(..)` line of every failing record, then the untrimmed attachment body under its name; finished or failed as the send goes |
| `HandlerProperties.ReportEffects` | src/main.rs:219-240 | after the fetch, the `ErrorReport` is the one message, with the report text and the attachment as leaves, and there is no write |
| `HandlerProperties.OneSendAfterFetch` | src/main.rs:219-234 | a fetch and one send give that message and no write |
| `HandlerProperties.ReportMessage` | src/main.rs:196-234 | the report goes to the recipient, is titled by the name, and its leaves are the report text of both sections and then the body's bytes under the name |
| `HandlerProperties.CleanWritesThenConfirms` | src/main.rs:243-266 | without errors: the re-encoded records are written to the output object as the second call, and no message comes before it; a failed write sends nothing and fails; otherwise exactly one confirmation carries the written bytes under the attachment's name |
| `HandlerProperties.UpdateEffects` | src/main.rs:249-266 | after the fetch: the write, then the confirmation only if the write succeeds |
| `HandlerProperties.CleanRunStoresOutput` | src/main.rs:250 | after a clean run whose write succeeds, the output object holds the written bytes |
| `HandlerProperties.StoredAfterWrite` | src/main.rs:250-265 | a send after a successful write leaves the written bytes in place |
| `HandlerProperties.OutputDecodesToSameRecords` | src/main.rs:244-249 | the written bytes are UTF-8 text that decodes to the attachment's records with no errors |
| `HandlerProperties.FetchFailureStops` | src/main.rs:148 | an object that cannot be fetched ends `handle_email` with an error, nothing sent or written |
| `HandlerProperties.NoAttachmentNothingSent` | src/main.rs:154-161 | a mail with no attachment panics after the fetch, nothing sent or written |
| `HandlerProperties.ExtractFailureOnlyFetches` | src/main.rs:148-171 | every stop before the body is read leaves only the fetch, and is not a normal finish |
| `HandlerProperties.StorageFetchesDecodedNames` | src/main.rs:117-127 | the object fetched is the one named by the percent-decoded key and bucket |
| `HandlerProperties.HandlerPanicsOnFailure` | src/main.rs:127-133 | the handler never returns an error; an error of `handle_email` becomes a panic after the same calls |
| `HandlerProperties.TimerSendsFile` | src/main.rs:84-102 | with the output object present, one request carries it under the name `current.csv`; no write; finished |
| `HandlerProperties.TimerAsksForFile` | src/main.rs:103-114 | without it, one request without attachment; no write; finished even if the send fails |
| `HandlerProperties.SectionPresentIffErrors` | src/main.rs:198-217 | a report section is present exactly when it has errors |
| `HandlerProperties.SectionOneLinePerError` | src/main.rs:198-217 | below its title a section splits at newlines into exactly its error lines |
| `HandlerProperties.DebugErrsOneLine` | src/main.rs:208-216 | one-line validation messages give one-line report lines |
| `HandlerProperties.ValidationSectionLines` | src/main.rs:208-217 | the validation section has one line per failing record, and is absent exactly when every record passes |

## Left out

- The CSV tokenizer's quoting, escaping and CR handling. Rows are split at newlines and fields at commas; the `csv` crate's source is not part of this model.
- The `0x` hexadecimal form of ids some `csv` versions accept: the crate version is not visible.
- `Timestamp.Parse`: chrono's leniency in `parse_from_str`, because the chrono version is not visible. Only zero-padded timestamps of exactly the fixed 19-character shape parse, with years 0..9999 and the leap second 60. chrono also accepts:
  - fields that are not zero-padded;
  - white space before any numeric field. The `csv` reader does not trim fields, so the row `1, 2020-08-23 09:00:00, 2020-08-23 17:00:00` decodes in the program, but here it is a decode error and leads to an error report;
  - any run of white space, or none, where the format has its space;
  - a sign on the year.
- `mailparse`: the parsed mail is the parameter `parseMail`, a list of subparts with their disposition, file name and decoded body.
- The `Debug` texts of `csv::Error` and `anyhow::Error`. A decode error's text is the parameter `debugText`. A validation line is `Err(` + message + `)`, which assumes anyhow prints no backtrace or cause chain.
- lettre's wire rendering, the base64 and quoted-printable encoders, address parsing and its `unwrap`s, the `parse().unwrap()` of the MIME type strings (src/main.rs:350, 357, 366, 375), which cannot fail since every MIME type in the program is a well-formed constant, and the base64 wrapping of the raw message. The model keeps the part tree; its rendering is left out because those libraries' sources are not part of this model.
- S3 and SES themselves, `tokio` and the `block_on` calls. Each call is an effect whose success is a flag. One flag for writes and one for sends is enough, as a run makes at most one of each that matters.
- The `unwrap` of the object body in `get_file_from_s3`, and read errors. A fetch either returns the stored bytes or fails.
- `email.multipart(..)?`, `from_utf8(..)?` on the rendered message in `send_email`, and the `?` on `wtr.serialize` and `wtr.into_inner`. Each can fail only inside a foreign library; the send failures fold into the send flag. The writer's failures cannot happen on a `Vec`.
- Logging, the Lambda bootstrap (`main`), and client and runtime construction (src/main.rs:66-79).
- `src/s3.rs`, which `src/main.rs` does not use, and the I/O tail of `send_email` (src/email.rs:85-107), whose outcome is the send flag.
- `src/tests.rs`. It is only evidence for the decode example in `CsvSerde.DecodeLines`.
