/**
 * The record codec and validator: `Entry` with its id and two timestamps, the
 * per-row decode the CSV reader and serde's derived `Deserialize` perform, the
 * loop of `deserialize_csv` that sorts decoded rows from failed ones, the
 * start-before-end validation, and the CSV text `Writer::serialize` produces.
 */
module CsvSerde {
  import opened Wrappers
  import opened Text
  import opened Timestamp

  type u32 = x: int | 0 <= x < 0x1_0000_0000

  datatype Entry = Entry(id: u32, startDate: Timestamp, endDate: Timestamp)

  datatype Field = Id | StartDate | EndDate

  /** Why one data row failed to decode; `line` is its line in the trimmed input, the header being line 1. */
  datatype RowError =
    | UnequalLengths(line: nat, expected: nat, found: nat)
    | DuplicateField(line: nat, field: Field)
    | InvalidId(line: nat, text: string)
    | InvalidTimestamp(line: nat, field: Field, text: string)
    | MissingField(line: nat, field: Field)

  /** The field a column header names: the field names, plus the alias `ID` for `id`. */
  function FieldOf(name: string): Option<Field>
  {
    if name == "id" || name == "ID" then Some(Id)
    else if name == "start_date" then Some(StartDate)
    else if name == "end_date" then Some(EndDate)
    else None
  }

  /** `str::parse::<u32>`: an optional `+`, then one or more decimal digits, with a value below 2^32. */
  function ParseU32(s: string): (r: Option<u32>)
    ensures r.Some? ==> |s| > 0 && forall k :: 0 <= k < |s| ==> IsDigit(s[k]) || (k == 0 && s[k] == '+')
  {
    var digits := if |s| > 0 && s[0] == '+' then s[1..] else s;
    if |digits| == 0 || !AllDigits(digits) then None
    else if DigitsValue(digits) < 0x1_0000_0000 then Some(DigitsValue(digits))
    else None
  }

  /** The id as `Display` writes it reads back as the same id. */
  lemma ParseU32Decimal(n: u32)
    ensures ParseU32(Decimal(n)) == Some(n)
  {
    DecimalValue(n);
  }

  /** What a row has supplied so far while its columns are read left to right. */
  datatype Partial = Partial(id: Option<u32>, startDate: Option<Timestamp>, endDate: Option<Timestamp>)

  /** Reads one column into `acc`: unknown headers are ignored, a field seen twice is an error. */
  function DecodeColumn(line: nat, name: string, text: string, acc: Partial): (r: Result<Partial, RowError>)
    ensures r.Err? ==> r.error.line == line
  {
    match FieldOf(name)
    case None => Ok(acc)
    case Some(Id) =>
      if acc.id.Some? then Err(DuplicateField(line, Id))
      else (match ParseU32(text)
        case None => Err(InvalidId(line, text))
        case Some(n) => Ok(acc.(id := Some(n))))
    case Some(StartDate) =>
      if acc.startDate.Some? then Err(DuplicateField(line, StartDate))
      else (match Parse(text)
        case None => Err(InvalidTimestamp(line, StartDate, text))
        case Some(t) => Ok(acc.(startDate := Some(t))))
    case Some(EndDate) =>
      if acc.endDate.Some? then Err(DuplicateField(line, EndDate))
      else (match Parse(text)
        case None => Err(InvalidTimestamp(line, EndDate, text))
        case Some(t) => Ok(acc.(endDate := Some(t))))
  }

  /** Reads the columns of a row in order, stopping at the first column that fails. */
  function DecodeColumns(line: nat, names: seq<string>, texts: seq<string>, acc: Partial): (r: Result<Partial, RowError>)
    requires |names| == |texts|
    ensures r.Err? ==> r.error.line == line
    decreases |names|
  {
    if |names| == 0 then Ok(acc)
    else match DecodeColumn(line, names[0], texts[0], acc)
      case Err(e) => Err(e)
      case Ok(next) => DecodeColumns(line, names[1..], texts[1..], next)
  }

  /** A non-empty line of the input with its line number. */
  datatype Row = Row(line: nat, text: string)

  /**
   * Decodes one data row against the header: a row whose field count differs from the
   * header's fails first; then the columns are read; then each field still missing fails,
   * in the order `id`, `start_date`, `end_date`.
   */
  function DecodeRow(header: seq<string>, row: Row): (r: Result<Entry, RowError>)
    ensures r.Err? ==> r.error.line == row.line
    ensures r.Ok? ==> |Split(row.text, ',')| == |header|
  {
    var texts := Split(row.text, ',');
    if |texts| != |header| then Err(UnequalLengths(row.line, |header|, |texts|))
    else match DecodeColumns(row.line, header, texts, Partial(None, None, None))
      case Err(e) => Err(e)
      case Ok(p) =>
        if p.id.None? then Err(MissingField(row.line, Id))
        else if p.startDate.None? then Err(MissingField(row.line, StartDate))
        else if p.endDate.None? then Err(MissingField(row.line, EndDate))
        else Ok(Entry(p.id.value, p.startDate.value, p.endDate.value))
  }

  /** The non-empty lines among `lines`, numbered from `first`: the reader skips empty lines. */
  function NonEmptyRows(lines: seq<string>, first: nat): (r: seq<Row>)
    ensures |r| <= |lines|
    ensures forall k :: 0 <= k < |r| ==> r[k].text != "" && r[k].line >= first
    decreases |lines|
  {
    if |lines| == 0 then []
    else if lines[0] == "" then NonEmptyRows(lines[1..], first + 1)
    else [Row(first, lines[0])] + NonEmptyRows(lines[1..], first + 1)
  }

  /** The rows the reader sees: the non-empty lines of the trimmed attachment. */
  function Rows(attachment: string): seq<Row>
  {
    NonEmptyRows(Split(Trim(attachment), '\n'), 1)
  }

  /** The column names of the first row, or none when there are no rows. */
  function Header(attachment: string): (h: seq<string>)
    ensures Rows(attachment) != [] ==> |h| >= 1
  {
    var rows := Rows(attachment);
    if |rows| == 0 then [] else Split(rows[0].text, ',')
  }

  /** Every row after the header. */
  function DataRows(attachment: string): (r: seq<Row>)
    ensures forall k :: 0 <= k < |r| ==> r[k].text != ""
  {
    var rows := Rows(attachment);
    if |rows| == 0 then [] else rows[1..]
  }

  /** The decode result of each data row, in input order: what `rdr.deserialize()` yields. */
  function DecodeAll(attachment: string): (r: seq<Result<Entry, RowError>>)
    ensures |r| == |DataRows(attachment)|
  {
    var header, rows := Header(attachment), DataRows(attachment);
    seq(|rows|, k requires 0 <= k < |rows| => DecodeRow(header, rows[k]))
  }

  /** The successful values among `rs`, in order. */
  function Oks<T, E>(rs: seq<Result<T, E>>): seq<T>
    decreases |rs|
  {
    if |rs| == 0 then []
    else if rs[|rs| - 1].Ok? then Oks(rs[..|rs| - 1]) + [rs[|rs| - 1].value]
    else Oks(rs[..|rs| - 1])
  }

  /** The errors among `rs`, in order. */
  function Errs<T, E>(rs: seq<Result<T, E>>): seq<E>
    decreases |rs|
  {
    if |rs| == 0 then []
    else if rs[|rs| - 1].Err? then Errs(rs[..|rs| - 1]) + [rs[|rs| - 1].error]
    else Errs(rs[..|rs| - 1])
  }

  /**
   * `deserialize_csv`: reads the trimmed attachment row by row, pushing each decoded
   * record onto `records` and each failure onto `deErrors`; a failure never stops the loop.
   */
  method DeserializeCsv(attachment: string) returns (records: seq<Entry>, deErrors: seq<RowError>)
    ensures records == Oks(DecodeAll(attachment))
    ensures deErrors == Errs(DecodeAll(attachment))
  {
    var header := Header(attachment);
    var rows := DataRows(attachment);
    ghost var results := DecodeAll(attachment);
    records, deErrors := [], [];
    var i := 0;
    while i < |rows|
      invariant 0 <= i <= |rows|
      invariant records == Oks(results[..i])
      invariant deErrors == Errs(results[..i])
    {
      var result := DecodeRow(header, rows[i]);
      match result {
        case Ok(record) => records := records + [record];
        case Err(error) => deErrors := deErrors + [error];
      }
      assert results[..i + 1][..i] == results[..i];
      i := i + 1;
    }
    assert results[..|rows|] == results;
  }

  lemma {:induction false} OksErrsAppend<T, E>(a: seq<Result<T, E>>, b: seq<Result<T, E>>)
    ensures Oks(a + b) == Oks(a) + Oks(b)
    ensures Errs(a + b) == Errs(a) + Errs(b)
    decreases |b|
  {
    if |b| == 0 {
      assert a + b == a;
    } else {
      var init := b[..|b| - 1];
      assert (a + b)[..|a + b| - 1] == a + init;
      OksErrsAppend(a, init);
    }
  }

  /** Every result lands in exactly one of the two outputs. */
  lemma {:induction false} PartitionSize<T, E>(rs: seq<Result<T, E>>)
    ensures |Oks(rs)| + |Errs(rs)| == |rs|
    decreases |rs|
  {
    if |rs| > 0 {
      PartitionSize(rs[..|rs| - 1]);
    }
  }

  /** Each data row contributes to exactly one of `records` and `deErrors`. */
  lemma DeserializeCounts(attachment: string)
    ensures |Oks(DecodeAll(attachment))| + |Errs(DecodeAll(attachment))| == |DataRows(attachment)|
  {
    PartitionSize(DecodeAll(attachment));
  }

  /** A failing row between two stretches of rows does not disturb what they contribute. */
  lemma FailureDoesNotStop<T, E>(before: seq<Result<T, E>>, e: E, after: seq<Result<T, E>>)
    ensures Oks(before + [Err(e)] + after) == Oks(before) + Oks(after)
    ensures Errs(before + [Err(e)] + after) == Errs(before) + [e] + Errs(after)
  {
    OksErrsAppend(before + [Err(e)], after);
    var failed: seq<Result<T, E>> := [Err(e)];
    OksErrsAppend(before, failed);
    assert Oks(failed) == [] && Errs(failed) == [e];
  }

  /** A successful row's record sits after exactly the records of the rows before it. */
  lemma OkPosition<T, E>(rs: seq<Result<T, E>>, k: nat)
    requires k < |rs| && rs[k].Ok?
    ensures |Oks(rs[..k])| < |Oks(rs)|
    ensures Oks(rs)[|Oks(rs[..k])|] == rs[k].value
  {
    assert rs == rs[..k] + [rs[k]] + rs[k + 1..];
    OksErrsAppend(rs[..k] + [rs[k]], rs[k + 1..]);
    OksErrsAppend(rs[..k], [rs[k]]);
    assert Oks([rs[k]]) == [rs[k].value];
  }

  /** Adding white space around the attachment changes nothing: the reader sees the trimmed text. */
  lemma DecodeIgnoresSurroundingWhitespace(ws1: string, attachment: string, ws2: string)
    requires AllWhitespace(ws1) && AllWhitespace(ws2)
    ensures DecodeAll(ws1 + attachment + ws2) == DecodeAll(attachment)
  {
    TrimIgnoresSurroundingWhitespace(ws1, attachment, ws2);
  }

  /** `a` is not after `b`, the order `<=` of `NaiveDateTime`. */
  predicate NotAfter(a: DateTime, b: DateTime)
  {
    a == b || Before(a, b)
  }

  /** The message of `validate_record` for a record whose start is after its end. */
  function ViolationMessage(r: Entry): string
  {
    "Start date after end date for entry: " + Decimal(r.id) + ", " + Format(r.startDate) + ", " + Format(r.endDate)
  }

  /** `validate_record`: the record is rejected exactly when its start is after its end. */
  function ValidateRecord(r: Entry): (v: Result<(), string>)
    ensures v.Ok? <==> NotAfter(r.startDate, r.endDate)
    ensures v.Err? ==> v.error == ViolationMessage(r)
  {
    BeforeIsStrictTotalOrder(r.startDate, r.endDate, r.startDate);
    if Before(r.endDate, r.startDate) then Err(ViolationMessage(r)) else Ok(())
  }

  /** `validate_all_records`: the errors of the records that fail `validate_record`, in order. */
  function ValidateAllRecords(records: seq<Entry>): (errors: seq<string>)
    ensures |errors| <= |records|
    ensures errors == [] <==> forall k :: 0 <= k < |records| ==> NotAfter(records[k].startDate, records[k].endDate)
    decreases |records|
  {
    if |records| == 0 then []
    else
      var rest := ValidateAllRecords(records[1..]);
      assert forall k :: 1 <= k < |records| ==> records[k] == records[1..][k - 1];
      match ValidateRecord(records[0])
      case Err(e) => [e] + rest
      case Ok(_) => rest
  }

  /** Validating a concatenation gives the errors of the first part, then those of the second. */
  lemma {:induction false} ValidateAllAppend(a: seq<Entry>, b: seq<Entry>)
    ensures ValidateAllRecords(a + b) == ValidateAllRecords(a) + ValidateAllRecords(b)
    decreases |a|
  {
    if |a| == 0 {
      assert a + b == b;
    } else {
      assert (a + b)[1..] == a[1..] + b;
      ValidateAllAppend(a[1..], b);
    }
  }

  /** A single record gives one error exactly when its start is after its end, and none otherwise. */
  lemma ValidateAllSingle(r: Entry)
    ensures NotAfter(r.startDate, r.endDate) ==> ValidateAllRecords([r]) == []
    ensures !NotAfter(r.startDate, r.endDate) ==> ValidateAllRecords([r]) == [ViolationMessage(r)]
  {
    assert [r][1..] == [];
  }

  /** Every validation message fits on one line. */
  lemma ViolationMessageOneLine(r: Entry)
    ensures '\n' !in ViolationMessage(r)
  {
    FormatSeparators(r.startDate);
    FormatSeparators(r.endDate);
  }

  lemma {:induction false} ValidateAllOneLine(records: seq<Entry>)
    ensures NoneContains(ValidateAllRecords(records), '\n')
    decreases |records|
  {
    if |records| > 0 {
      ValidateAllOneLine(records[1..]);
      ViolationMessageOneLine(records[0]);
    }
  }

  // ----- Writing records back out -----

  /** The header `Writer::serialize` writes before the first record: the field names. */
  const HeaderLine := HeaderWith("id")

  /** One record as `Writer::serialize` writes it, timestamps in the fixed format. */
  function EncodeRecord(r: Entry): (line: string)
  {
    Decimal(r.id) + "," + Format(r.startDate) + "," + Format(r.endDate)
  }

  /** The records, each on its own line ending in `\n`. */
  function EncodeRecords(records: seq<Entry>): string
    decreases |records|
  {
    if |records| == 0 then ""
    else EncodeRecords(records[..|records| - 1]) + EncodeRecord(records[|records| - 1]) + "\n"
  }

  /** The CSV text of `records`: the header and one line per record; nothing at all for no records. */
  function EncodeCsv(records: seq<Entry>): (text: string)
    ensures text == "" <==> records == []
  {
    if |records| == 0 then "" else HeaderLine + "\n" + EncodeRecords(records)
  }

  /** Serializing one more record adds its line, after the header when it is the first. */
  lemma EncodeCsvSnoc(records: seq<Entry>, r: Entry)
    ensures EncodeCsv(records + [r])
            == (if |records| == 0 then HeaderLine + "\n" else EncodeCsv(records)) + EncodeRecord(r) + "\n"
  {
    var all := records + [r];
    assert all[..|all| - 1] == records && all[|all| - 1] == r;
    var head, before, line := HeaderLine + "\n", EncodeRecords(records), EncodeRecord(r);
    assert EncodeRecords(all) == before + line + "\n";
    if |records| == 0 {
      assert before + line + "\n" == line + "\n";
    } else {
      Regroup(head, before, line, "\n");
    }
  }

  /** The encoded line of each record, in order. */
  function RecordLines(records: seq<Entry>): (lines: seq<string>)
    ensures |lines| == |records|
  {
    seq(|records|, k requires 0 <= k < |records| => EncodeRecord(records[k]))
  }

  lemma RecordLinesSnoc(records: seq<Entry>)
    requires |records| >= 1
    ensures RecordLines(records)
            == RecordLines(records[..|records| - 1]) + [EncodeRecord(records[|records| - 1])]
  {
    var n := |records|;
    var init := records[..n - 1];
    var joined := RecordLines(init) + [EncodeRecord(records[n - 1])];
    forall k | 0 <= k < n
      ensures RecordLines(records)[k] == joined[k]
    {
      if k < n - 1 {
        assert init[k] == records[k];
      }
    }
  }

  /** An encoded record is one non-empty line that ends in a digit. */
  lemma EncodeRecordPlain(r: Entry)
    ensures '\n' !in EncodeRecord(r) && EncodeRecord(r) != ""
    ensures IsDigit(EncodeRecord(r)[|EncodeRecord(r)| - 1])
  {
    FormatSeparators(r.startDate);
    FormatSeparators(r.endDate);
  }

  /** An encoded record splits at its commas into the id and the two timestamps. */
  lemma EncodeRecordFields(r: Entry)
    ensures Split(EncodeRecord(r), ',') == [Decimal(r.id), Format(r.startDate), Format(r.endDate)]
  {
    var d, s, e := Decimal(r.id), Format(r.startDate), Format(r.endDate);
    FormatSeparators(r.startDate);
    FormatSeparators(r.endDate);
    assert ',' !in d;
    assert EncodeRecord(r) == d + [','] + (s + [','] + e);
    SplitAfterPiece(d, s + [','] + e, ',');
    SplitAfterPiece(s, e, ',');
    SplitWithoutSep(e, ',');
  }

  lemma {:induction false} EncodeRecordsJoin(records: seq<Entry>)
    requires |records| >= 1
    ensures EncodeRecords(records) == Join(RecordLines(records), "\n") + "\n"
    decreases |records|
  {
    var n := |records|;
    var init, last := records[..n - 1], EncodeRecord(records[n - 1]);
    assert EncodeRecords(records) == EncodeRecords(init) + last + "\n";
    RecordLinesSnoc(records);
    if n == 1 {
      assert RecordLines(records) == [last];
    } else {
      EncodeRecordsJoin(init);
      JoinSnoc(RecordLines(init), last, "\n");
    }
  }

  /** The rows of lines none of which is empty are those lines, numbered in order. */
  lemma {:induction false} NonEmptyRowsAll(lines: seq<string>, first: nat)
    requires forall k :: 0 <= k < |lines| ==> lines[k] != ""
    ensures NonEmptyRows(lines, first) == seq(|lines|, k requires 0 <= k < |lines| => Row(first + k, lines[k]))
    decreases |lines|
  {
    if |lines| > 0 {
      NonEmptyRowsAll(lines[1..], first + 1);
    }
  }

  /** The header line with the id column named `idName`. */
  function HeaderWith(idName: string): string
  {
    idName + [','] + "start_date" + [','] + "end_date"
  }

  lemma HeaderFields(idName: string)
    requires idName == "id" || idName == "ID"
    ensures Split(HeaderWith(idName), ',') == [idName, "start_date", "end_date"]
  {
    assert ',' !in idName && ',' !in "start_date" && ',' !in "end_date";
    SplitThree(idName, "start_date", "end_date", ',');
  }

  /** Three columns holding a valid id and two valid timestamps, under the three headers, give the record. */
  lemma DecodeThreeColumns(line: nat, idName: string, d: string, s: string, e: string, r: Entry)
    requires idName == "id" || idName == "ID"
    requires ParseU32(d) == Some(r.id) && Parse(s) == Some(r.startDate) && Parse(e) == Some(r.endDate)
    ensures DecodeColumns(line, [idName, "start_date", "end_date"], [d, s, e], Partial(None, None, None))
            == Ok(Partial(Some(r.id), Some(r.startDate), Some(r.endDate)))
  {
    var header, texts := [idName, "start_date", "end_date"], [d, s, e];
    var p0 := Partial(None, None, None);
    var p1 := p0.(id := Some(r.id));
    var p2 := p1.(startDate := Some(r.startDate));
    var p3 := p2.(endDate := Some(r.endDate));
    assert FieldOf(idName) == Some(Id);
    assert DecodeColumn(line, idName, d, p0) == Ok(p1);
    assert DecodeColumn(line, "start_date", s, p1) == Ok(p2);
    assert DecodeColumn(line, "end_date", e, p2) == Ok(p3);
    assert DecodeColumns(line, header[3..], texts[3..], p3) == Ok(p3);
    assert DecodeColumns(line, header[2..], texts[2..], p2) == Ok(p3);
    assert DecodeColumns(line, header[1..], texts[1..], p1) == Ok(p3);
  }

  /** A row written by `EncodeRecord` decodes, under either spelling of the id header, to the record. */
  lemma DecodeEncodedRow(idName: string, r: Entry, line: nat)
    requires idName == "id" || idName == "ID"
    ensures DecodeRow([idName, "start_date", "end_date"], Row(line, EncodeRecord(r))) == Ok(r)
  {
    EncodeRecordFields(r);
    ParseU32Decimal(r.id);
    ParseFormat(r.startDate);
    ParseFormat(r.endDate);
    DecodeThreeColumns(line, idName, Decimal(r.id), Format(r.startDate), Format(r.endDate), r);
  }

  /** The lines of a header followed by encoded records. */
  function EncodedLines(idName: string, records: seq<Entry>): seq<string>
  {
    [HeaderWith(idName)] + RecordLines(records)
  }

  lemma RecordLinesPlain(records: seq<Entry>)
    ensures NoneContains(RecordLines(records), '\n')
    ensures forall k :: 0 <= k < |records| ==> RecordLines(records)[k] != ""
  {
    forall k | 0 <= k < |records|
      ensures '\n' !in RecordLines(records)[k] && RecordLines(records)[k] != ""
    {
      EncodeRecordPlain(records[k]);
    }
  }

  lemma HeaderPlain(idName: string)
    requires idName == "id" || idName == "ID"
    ensures '\n' !in HeaderWith(idName) && HeaderWith(idName) != "" && !IsWhitespace(HeaderWith(idName)[0])
  {
  }

  lemma EncodedLinesPlain(idName: string, records: seq<Entry>)
    requires idName == "id" || idName == "ID"
    ensures NoneContains(EncodedLines(idName, records), '\n')
    ensures forall k :: 0 <= k < |EncodedLines(idName, records)| ==> EncodedLines(idName, records)[k] != ""
  {
    HeaderPlain(idName);
    RecordLinesPlain(records);
    var h, rest := HeaderWith(idName), RecordLines(records);
    var lines := EncodedLines(idName, records);
    assert lines == [h] + rest;
    forall k | 0 <= k < |lines|
      ensures '\n' !in lines[k] && lines[k] != ""
    {
      if k > 0 {
        assert lines[k] == rest[k - 1];
      }
    }
  }

  lemma LastRecordLine(records: seq<Entry>)
    requires |records| > 0
    ensures var last := RecordLines(records)[|records| - 1]; last != "" && IsDigit(last[|last| - 1])
  {
    EncodeRecordPlain(records[|records| - 1]);
  }

  /** The joined lines neither start nor end with white space. */
  lemma EncodedTextTrimmed(idName: string, records: seq<Entry>)
    requires idName == "id" || idName == "ID"
    ensures Trim(Join(EncodedLines(idName, records), "\n")) == Join(EncodedLines(idName, records), "\n")
  {
    var lines := EncodedLines(idName, records);
    HeaderPlain(idName);
    EncodedLinesPlain(idName, records);
    if |records| > 0 {
      LastRecordLine(records);
      assert lines[|lines| - 1] == RecordLines(records)[|records| - 1];
    } else {
      assert lines == [HeaderWith(idName)];
      assert HeaderWith(idName)[|HeaderWith(idName)| - 1] == 'e';
    }
    JoinTrimmed(lines, "\n");
  }

  /** The joined lines have the first line as header and the others as data rows, numbered from 2. */
  lemma EncodedLinesRows(idName: string, records: seq<Entry>)
    requires idName == "id" || idName == "ID"
    ensures var lines, text := EncodedLines(idName, records), Join(EncodedLines(idName, records), "\n");
      && Header(text) == Split(lines[0], ',')
      && DataRows(text) == seq(|records|, k requires 0 <= k < |records| => Row(k + 2, lines[k + 1]))
  {
    var lines := EncodedLines(idName, records);
    EncodedLinesAllRows(idName, records);
    HeaderAndDataRows(Join(lines, "\n"), lines);
  }

  /** When the reader's rows are `lines` numbered from 1, the first is the header and the rest are the data rows from line 2. */
  lemma HeaderAndDataRows(attachment: string, lines: seq<string>)
    requires |lines| >= 1
    requires Rows(attachment) == seq(|lines|, k requires 0 <= k < |lines| => Row(1 + k, lines[k]))
    ensures Header(attachment) == Split(lines[0], ',')
    ensures DataRows(attachment) == seq(|lines| - 1, k requires 0 <= k < |lines| - 1 => Row(k + 2, lines[k + 1]))
  {
    var rows := Rows(attachment);
    assert rows[0] == Row(1, lines[0]);
    assert rows[1..] == seq(|lines| - 1, k requires 0 <= k < |lines| - 1 => Row(k + 2, lines[k + 1]));
  }

  /** Every joined line is a row of the reader, numbered from 1. */
  lemma EncodedLinesAllRows(idName: string, records: seq<Entry>)
    requires idName == "id" || idName == "ID"
    ensures var lines := EncodedLines(idName, records);
      Rows(Join(lines, "\n")) == seq(|lines|, k requires 0 <= k < |lines| => Row(1 + k, lines[k]))
  {
    var lines := EncodedLines(idName, records);
    EncodedLinesPlain(idName, records);
    EncodedTextTrimmed(idName, records);
    SplitJoin(lines, '\n');
    NonEmptyRowsAll(lines, 1);
  }

  /** The header of the encoded text names the three columns. */
  lemma EncodedHeader(idName: string, records: seq<Entry>)
    requires idName == "id" || idName == "ID"
    ensures Header(Join(EncodedLines(idName, records), "\n")) == [idName, "start_date", "end_date"]
  {
    EncodedLinesRows(idName, records);
    HeaderFields(idName);
  }

  /** The data rows of the encoded text are the encoded records, numbered from 2. */
  lemma EncodedRows(idName: string, records: seq<Entry>)
    requires idName == "id" || idName == "ID"
    ensures var text := Join(EncodedLines(idName, records), "\n");
      && |DataRows(text)| == |records|
      && forall k :: 0 <= k < |records| ==> DataRows(text)[k] == Row(k + 2, RecordLines(records)[k])
  {
    EncodedLinesRows(idName, records);
  }

  /**
   * Text made of a header (with `id` or `ID`) and encoded records, one per line, decodes to
   * exactly those records with no errors.
   */
  lemma DecodeLines(idName: string, records: seq<Entry>)
    requires idName == "id" || idName == "ID"
    ensures DecodeAll(Join(EncodedLines(idName, records), "\n")) == Succeeded(records)
  {
    var results := DecodeAll(Join(EncodedLines(idName, records), "\n"));
    EncodedRows(idName, records);
    forall k | 0 <= k < |records|
      ensures results[k] == Ok(records[k])
    {
      DecodeLineAt(idName, records, k);
    }
    assert results == Succeeded(records);
  }

  lemma DecodeLineAt(idName: string, records: seq<Entry>, k: nat)
    requires idName == "id" || idName == "ID"
    requires k < |records|
    ensures var results := DecodeAll(Join(EncodedLines(idName, records), "\n"));
      k < |results| && results[k] == Ok(records[k])
  {
    EncodedHeader(idName, records);
    EncodedRows(idName, records);
    assert RecordLines(records)[k] == EncodeRecord(records[k]);
    DecodeEncodedRow(idName, records[k], k + 2);
  }

  lemma EncodeCsvText(records: seq<Entry>)
    requires |records| > 0
    ensures EncodeCsv(records) == Join(EncodedLines("id", records), "\n") + "\n"
  {
    EncodeRecordsJoin(records);
    JoinCons(HeaderLine, RecordLines(records), "\n");
  }

  lemma DecodeAllTrailingNewline(text: string)
    ensures DecodeAll(text + "\n") == DecodeAll(text)
  {
    assert AllWhitespace("\n") && AllWhitespace("");
    TrimIgnoresSurroundingWhitespace("", text, "\n");
    assert "" + text + "\n" == text + "\n";
  }

  /** Re-encoding records and decoding the text gives back the same records and no errors. */
  lemma EncodeDecode(records: seq<Entry>)
    ensures Oks(DecodeAll(EncodeCsv(records))) == records
    ensures Errs(DecodeAll(EncodeCsv(records))) == []
  {
    if |records| == 0 {
      assert Trim("") == "";
      assert Split("", '\n') == [""];
      assert DecodeAll(EncodeCsv(records)) == [];
    } else {
      var text := Join(EncodedLines("id", records), "\n");
      EncodeCsvText(records);
      DecodeAllTrailingNewline(text);
      DecodeLines("id", records);
      AllOk(records);
    }
  }

  /** Every record as a successful decode result. */
  function Succeeded(records: seq<Entry>): seq<Result<Entry, RowError>>
  {
    seq(|records|, k requires 0 <= k < |records| => Ok(records[k]))
  }

  lemma {:induction false} AllOk(records: seq<Entry>)
    ensures Oks(Succeeded(records)) == records
    ensures Errs(Succeeded(records)) == []
    decreases |records|
  {
    if |records| > 0 {
      var n := |records|;
      AllOk(records[..n - 1]);
      assert Succeeded(records)[..n - 1] == Succeeded(records[..n - 1]);
      assert records[..n - 1] + [records[n - 1]] == records;
    }
  }
}
