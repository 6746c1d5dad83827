/**
 * The Lambda's dispatcher: `my_handler` and `handle_email`. A timer event asks for the
 * current output file; a storage event names a received e-mail, whose CSV attachment is
 * decoded and validated and then either reported back with its errors, or written to the
 * output object and confirmed.
 *
 * The storage and mail services are the class `Services`: the objects it holds, whether
 * a write or a send succeeds, and the trace of every call made. Each method is proved
 * against a pure function (`HandleRun`, `HandlerRun`) giving the calls and the exit, and
 * the properties of the workflow are lemmas about those functions.
 */
module Handler {
  import opened Wrappers
  import opened Text
  import opened Utf8
  import opened CsvSerde
  import opened Email
  import opened Names

  const Recipient := "James McMurray <jamesmcm03@gmail.com>"
  const OutputBucket := "test-file-output-bucket"
  const OutputKey := "current.csv"
  const CsvMime := "text/csv; charset=utf8"

  /** An object's place in storage. */
  datatype Location = Location(bucket: string, key: string)

  const OutputLocation := Location(OutputBucket, OutputKey)

  /** The part of one storage-event record the handler reads: the bucket name and object key, both optional. */
  datatype S3Record = S3Record(bucketName: Option<string>, objectKey: Option<string>)

  /** The two events the Lambda accepts. */
  datatype Event = StorageEvent(records: seq<S3Record>) | TimerEvent

  /**
   * One subpart of a parsed mail, as `mailparse` presents it: whether its disposition is
   * `attachment`, its `filename` parameter, and its decoded body (`None` when `get_body` fails).
   */
  datatype SubPart = SubPart(isAttachment: bool, filename: Option<string>, body: Option<string>)

  datatype ParsedMail = ParsedMail(subparts: seq<SubPart>)

  /** A call to a service, in the order it is made. */
  datatype Effect =
    | Fetch(loc: Location)
    | Write(loc: Location, data: seq<byte>)
    | Send(message: Message)

  /** The errors `handle_email` returns with `?`. */
  datatype Failure = FetchFailed | MailUnparsable | BodyUnreadable | ReportNotSent | WriteFailed | ConfirmationNotSent

  /** The reasons the handler panics: an `unwrap`, `expect` or index that fails, or the `panic!` on an error. */
  datatype Panic =
    | NoEventRecord | NoObjectKey | KeyNotUtf8 | NoBucketName | BucketNotUtf8
    | NoFileName | NoAttachment | NoAttachmentFilename
    | HandlerFailed(failure: Failure)

  /** How a call ends: normally, with an error, or with a panic. */
  datatype Exit = Finished | Failed(failure: Failure) | Panicked(panic: Panic)

  /** The calls made and the exit. */
  datatype Run = Run(effects: seq<Effect>, exit: Exit)

  // ----- Selecting the attachment -----

  /** The first attachment subpart, as `.filter(..).next()` yields it. */
  function FirstAttachment(subparts: seq<SubPart>): (r: Option<SubPart>)
    ensures r.None? <==> forall k :: 0 <= k < |subparts| ==> !subparts[k].isAttachment
    ensures r.Some? ==> exists k :: 0 <= k < |subparts| && subparts[k] == r.value && r.value.isAttachment
                                    && forall j :: 0 <= j < k ==> !subparts[j].isAttachment
    decreases |subparts|
  {
    if |subparts| == 0 then None
    else if subparts[0].isAttachment then Some(subparts[0])
    else
      var r := FirstAttachment(subparts[1..]);
      assert forall k :: 1 <= k < |subparts| ==> subparts[k] == subparts[1..][k - 1];
      if r.Some? then
        ghost var k :| 0 <= k < |subparts[1..]| && subparts[1..][k] == r.value && r.value.isAttachment
                       && forall j :: 0 <= j < k ==> !subparts[1..][j].isAttachment;
        assert subparts[k + 1] == r.value;
        assert forall j :: 0 <= j < k + 1 ==> !subparts[j].isAttachment by {
          forall j | 0 <= j < k + 1 ensures !subparts[j].isAttachment {
            if j > 0 {
              assert subparts[j] == subparts[1..][j - 1];
            }
          }
        }
        r
      else r
  }

  /**
   * The steps of `handle_email` between the fetch and the first send: the name check on the
   * key, `parse_mail`, the attachment, its `filename` and its body. The result is the file
   * name and the body, or how the call ends.
   */
  function Extract(file: seq<byte>, key: string, parseMail: seq<byte> -> Option<ParsedMail>): (r: Result<(string, string), Exit>)
    ensures r.Err? ==> !r.error.Finished?
  {
    if FileName(key).None? then Err(Panicked(NoFileName))
    else match parseMail(file)
      case None => Err(Failed(MailUnparsable))
      case Some(mail) =>
        match FirstAttachment(mail.subparts)
        case None => Err(Panicked(NoAttachment))
        case Some(part) =>
          if part.filename.None? then Err(Panicked(NoAttachmentFilename))
          else if part.body.None? then Err(Failed(BodyUnreadable))
          else Ok((part.filename.value, part.body.value))
  }

  // ----- The error report -----

  /** A validation result formatted with `{:?}`: the message inside `Err(..)`. */
  function DebugErrs(messages: seq<string>): (lines: seq<string>)
    ensures |lines| == |messages|
  {
    seq(|messages|, k requires 0 <= k < |messages| => "Err(" + messages[k] + ")")
  }

  /** The `{:?}` text of each decode error. */
  function DebugTexts(errors: seq<RowError>, debugText: RowError -> string): (lines: seq<string>)
    ensures |lines| == |errors|
  {
    seq(|errors|, k requires 0 <= k < |errors| => debugText(errors[k]))
  }

  /** A titled section of one line per error, or nothing when there are no errors. */
  function Section(title: string, lines: seq<string>): string
  {
    if |lines| == 0 then "" else title + Join(lines, "\n")
  }

  /** The body of the error report, with its two sections. */
  function ReportBody(deLines: seq<string>, validationLines: seq<string>): string
  {
    "Errors found in attached file:\n" + Section("Deserialization errors:\n", deLines) + "\n"
      + Section("Validation errors:\n", validationLines)
  }

  /** Whether the attachment has decode errors or records that fail validation. */
  predicate HasErrors(body: string)
  {
    var results := DecodeAll(body);
    Errs(results) != [] || ValidateAllRecords(Oks(results)) != []
  }

  /** The text of the report on `body`: its decode errors' lines, then its validation errors' lines. */
  function ReportText(body: string, debugText: RowError -> string): string
  {
    var results := DecodeAll(body);
    ReportBody(DebugTexts(Errs(results), debugText), DebugErrs(ValidateAllRecords(Oks(results))))
  }

  /** The error report: the errors in the body, and the attachment as received under its own name. */
  function ErrorReport(name: string, body: string, debugText: RowError -> string): Message
  {
    Compose(Recipient, "Errors in file: " + name, ReportText(body, debugText),
            None, Some(NewAttachment(Encode(body), name, CsvMime)))
  }

  /** The bytes written to the output object: the re-encoded records. */
  function OutputData(body: string): seq<byte>
  {
    Encode(EncodeCsv(Oks(DecodeAll(body))))
  }

  /** The confirmation, carrying the written bytes under the attachment's name. */
  function Confirmation(name: string, data: seq<byte>): Message
  {
    Compose(Recipient, "File updated successfully!", "File updated successfully!\nAttached for reference.",
            None, Some(NewAttachment(data, name, CsvMime)))
  }

  // ----- The runs -----

  /** The error report sent, and how `handle_email` ends with it. */
  function ReportRun(name: string, body: string, sendOk: bool, debugText: RowError -> string): Run
  {
    Run([Send(ErrorReport(name, body, debugText))], if sendOk then Finished else Failed(ReportNotSent))
  }

  /** The write of `data` to the output object and, if it succeeds, the confirmation. */
  function UpdateRun(name: string, data: seq<byte>, writeOk: bool, sendOk: bool): Run
  {
    if !writeOk then Run([Write(OutputLocation, data)], Failed(WriteFailed))
    else Run([Write(OutputLocation, data), Send(Confirmation(name, data))],
             if sendOk then Finished else Failed(ConfirmationNotSent))
  }

  /**
   * The calls `handle_email` makes once it holds the attachment: the error report when the
   * attachment has errors; otherwise the write of the re-encoded records and, if that
   * succeeds, the confirmation.
   */
  function Respond(name: string, body: string, writeOk: bool, sendOk: bool, debugText: RowError -> string): Run
  {
    if HasErrors(body) then ReportRun(name, body, sendOk, debugText)
    else UpdateRun(name, OutputData(body), writeOk, sendOk)
  }

  /** What `handle_email` does with the fetched object `file`. */
  function ProcessRun(file: seq<byte>, key: string, writeOk: bool, sendOk: bool,
                      parseMail: seq<byte> -> Option<ParsedMail>, debugText: RowError -> string): Run
  {
    match Extract(file, key, parseMail)
    case Err(exit) => Run([], exit)
    case Ok((name, body)) => Respond(name, body, writeOk, sendOk, debugText)
  }

  /** `handle_email` on the object at `bucket`/`key`. */
  function HandleRun(store: map<Location, seq<byte>>, writeOk: bool, sendOk: bool,
                     parseMail: seq<byte> -> Option<ParsedMail>, debugText: RowError -> string,
                     bucket: string, key: string): (run: Run)
    ensures |run.effects| >= 1 && run.effects[0] == Fetch(Location(bucket, key))
  {
    var loc := Location(bucket, key);
    if loc !in store then Run([Fetch(loc)], Failed(FetchFailed))
    else
      var rest := ProcessRun(store[loc], key, writeOk, sendOk, parseMail, debugText);
      Run([Fetch(loc)] + rest.effects, rest.exit)
  }

  /** The request for the current file, attached when it can be fetched. */
  function TimerMessage(file: Option<seq<byte>>): Message
  {
    match file
    case Some(data) =>
      Compose(Recipient, "Please verify and update attached file", "Please verify and update the attached file",
              None, Some(NewAttachment(data, OutputKey, CsvMime)))
    case None =>
      Compose(Recipient, "Please reply with file", "Please reply with file", None, None)
  }

  /** `my_handler` on a timer event: fetch the output object and send the request; failures are ignored. */
  function TimerRun(store: map<Location, seq<byte>>): Run
  {
    var file := if OutputLocation in store then Some(store[OutputLocation]) else None;
    Run([Fetch(OutputLocation), Send(TimerMessage(file))], Finished)
  }

  /** `my_handler` on a storage event: decode the first record's names, then `handle_email`, panicking on its errors. */
  function StorageRun(records: seq<S3Record>, store: map<Location, seq<byte>>, writeOk: bool, sendOk: bool,
                      parseMail: seq<byte> -> Option<ParsedMail>, debugText: RowError -> string): Run
  {
    if |records| == 0 then Run([], Panicked(NoEventRecord))
    else if records[0].objectKey.None? then Run([], Panicked(NoObjectKey))
    else match DecodeName(records[0].objectKey.value)
      case None => Run([], Panicked(KeyNotUtf8))
      case Some(key) =>
        if records[0].bucketName.None? then Run([], Panicked(NoBucketName))
        else match DecodeName(records[0].bucketName.value)
          case None => Run([], Panicked(BucketNotUtf8))
          case Some(bucket) =>
            var run := HandleRun(store, writeOk, sendOk, parseMail, debugText, bucket, key);
            if run.exit.Failed? then Run(run.effects, Panicked(HandlerFailed(run.exit.failure))) else run
  }

  /** `my_handler`. */
  function HandlerRun(event: Event, store: map<Location, seq<byte>>, writeOk: bool, sendOk: bool,
                      parseMail: seq<byte> -> Option<ParsedMail>, debugText: RowError -> string): Run
  {
    match event
    case TimerEvent => TimerRun(store)
    case StorageEvent(records) => StorageRun(records, store, writeOk, sendOk, parseMail, debugText)
  }

  /** The store after `effects`: each write that succeeds replaces its object. */
  function Stored(store: map<Location, seq<byte>>, writeOk: bool, effects: seq<Effect>): map<Location, seq<byte>>
    decreases |effects|
  {
    if |effects| == 0 then store
    else
      var before := Stored(store, writeOk, effects[..|effects| - 1]);
      match effects[|effects| - 1]
      case Write(loc, data) => if writeOk then before[loc := data] else before
      case _ => before
  }

  // ----- The services and the handler -----

  /** The storage and mail services: the objects held, whether writes and sends succeed, and the calls made. */
  class Services {
    var store: map<Location, seq<byte>>
    var writeSucceeds: bool
    var sendSucceeds: bool
    var trace: seq<Effect>

    constructor (store: map<Location, seq<byte>>, writeSucceeds: bool, sendSucceeds: bool)
      ensures this.store == store && this.writeSucceeds == writeSucceeds && this.sendSucceeds == sendSucceeds
      ensures trace == []
    {
      this.store := store;
      this.writeSucceeds := writeSucceeds;
      this.sendSucceeds := sendSucceeds;
      trace := [];
    }

    /** `get_file_from_s3`: the object's bytes, or `None` when it cannot be read. */
    method GetFile(loc: Location) returns (file: Option<seq<byte>>)
      modifies this
      ensures file == if loc in store then Some(store[loc]) else None
      ensures store == old(store) && writeSucceeds == old(writeSucceeds) && sendSucceeds == old(sendSucceeds)
      ensures trace == old(trace) + [Fetch(loc)]
    {
      file := if loc in store then Some(store[loc]) else None;
      trace := trace + [Fetch(loc)];
    }

    /** `write_file_to_s3`: replaces the object when the write succeeds. */
    method WriteFile(data: seq<byte>, loc: Location) returns (ok: bool)
      modifies this
      ensures ok == writeSucceeds
      ensures store == if ok then old(store)[loc := data] else old(store)
      ensures writeSucceeds == old(writeSucceeds) && sendSucceeds == old(sendSucceeds)
      ensures trace == old(trace) + [Write(loc, data)]
    {
      ok := writeSucceeds;
      if ok {
        store := store[loc := data];
      }
      trace := trace + [Write(loc, data)];
    }

    /** `send_email`: composes the message and hands it to the mail service. */
    method SendEmail(recipient: string, subject: string, plain: string, html: Option<string>,
                     attachment: Option<Attachment>) returns (ok: bool)
      modifies this
      ensures ok == sendSucceeds
      ensures store == old(store) && writeSucceeds == old(writeSucceeds) && sendSucceeds == old(sendSucceeds)
      ensures trace == old(trace) + [Send(Compose(recipient, subject, plain, html, attachment))]
    {
      ok := sendSucceeds;
      trace := trace + [Send(Compose(recipient, subject, plain, html, attachment))];
    }
  }

  /** The CSV writer loop: the header before the first record, then one line per record. */
  method WriteRecords(records: seq<Entry>) returns (csv: string)
    ensures csv == EncodeCsv(records)
  {
    csv := "";
    for i := 0 to |records|
      invariant csv == EncodeCsv(records[..i])
    {
      if i == 0 {
        csv := HeaderLine + "\n";
      }
      var line := EncodeRecord(records[i]);
      PrefixSnoc(records, i);
      EncodeCsvSnoc(records[..i], records[i]);
      csv := csv + line + "\n";
    }
    assert records[..|records|] == records;
  }

  lemma StoredSnoc(store: map<Location, seq<byte>>, writeOk: bool, effects: seq<Effect>, e: Effect)
    ensures Stored(store, writeOk, effects + [e])
            == if e.Write? && writeOk then Stored(store, writeOk, effects)[e.loc := e.data]
               else Stored(store, writeOk, effects)
  {
    assert (effects + [e])[..|effects|] == effects;
  }

  /** A fetch changes nothing in the store. */
  lemma {:induction false} StoredAfterFetch(store: map<Location, seq<byte>>, writeOk: bool, loc: Location, effects: seq<Effect>)
    ensures Stored(store, writeOk, [Fetch(loc)] + effects) == Stored(store, writeOk, effects)
    decreases |effects|
  {
    if |effects| == 0 {
      StoredSnoc(store, writeOk, [], Fetch(loc));
    } else {
      var n := |effects|;
      var init := effects[..n - 1];
      StoredAfterFetch(store, writeOk, loc, init);
      assert [Fetch(loc)] + effects == ([Fetch(loc)] + init) + [effects[n - 1]];
      assert effects == init + [effects[n - 1]];
      StoredSnoc(store, writeOk, [Fetch(loc)] + init, effects[n - 1]);
      StoredSnoc(store, writeOk, init, effects[n - 1]);
    }
  }

  /** The error branch of `handle_email`: builds both sections of the report and sends it. */
  method SendReport(svc: Services, attachmentName: string, body: string,
                    deErrors: seq<RowError>, validationErrors: seq<string>, debugText: RowError -> string)
    returns (exit: Exit)
    requires deErrors == Errs(DecodeAll(body))
    requires validationErrors == DebugErrs(ValidateAllRecords(Oks(DecodeAll(body))))
    modifies svc
    ensures var run := ReportRun(attachmentName, body, old(svc.sendSucceeds), debugText);
      && exit == run.exit
      && svc.trace == old(svc.trace) + run.effects
      && svc.store == Stored(old(svc.store), old(svc.writeSucceeds), run.effects)
    ensures svc.writeSucceeds == old(svc.writeSucceeds) && svc.sendSucceeds == old(svc.sendSucceeds)
  {
    ghost var store0 := svc.store;
    var deString, validationString := "", "";
    if |deErrors| > 0 {
      deString := "Deserialization errors:\n" + Join(DebugTexts(deErrors, debugText), "\n");
    }
    if |validationErrors| > 0 {
      validationString := "Validation errors:\n" + Join(validationErrors, "\n");
    }
    assert deString == Section("Deserialization errors:\n", DebugTexts(deErrors, debugText));
    assert validationString == Section("Validation errors:\n", validationErrors);
    var sent := svc.SendEmail(Recipient, "Errors in file: " + attachmentName,
                              "Errors found in attached file:\n" + deString + "\n" + validationString,
                              None, Some(NewAttachment(Encode(body), attachmentName, CsvMime)));
    StoredSnoc(store0, svc.writeSucceeds, [], Send(ErrorReport(attachmentName, body, debugText)));
    assert Stored(store0, svc.writeSucceeds, []) == store0;
    exit := if sent then Finished else Failed(ReportNotSent);
  }

  /** The clean branch of `handle_email` after serializing: writes `file` out, then confirms. */
  method WriteAndConfirm(svc: Services, attachmentName: string, file: seq<byte>) returns (exit: Exit)
    modifies svc
    ensures var run := UpdateRun(attachmentName, file, old(svc.writeSucceeds), old(svc.sendSucceeds));
      && exit == run.exit
      && svc.trace == old(svc.trace) + run.effects
      && svc.store == Stored(old(svc.store), old(svc.writeSucceeds), run.effects)
    ensures svc.writeSucceeds == old(svc.writeSucceeds) && svc.sendSucceeds == old(svc.sendSucceeds)
  {
    ghost var store0, trace0, writeOk := svc.store, svc.trace, svc.writeSucceeds;
    ghost var run := UpdateRun(attachmentName, file, svc.writeSucceeds, svc.sendSucceeds);
    var written := svc.WriteFile(file, OutputLocation);
    ghost var write := Write(OutputLocation, file);
    StoredSnoc(store0, writeOk, [], write);
    assert Stored(store0, writeOk, []) == store0;
    assert [] + [write] == [write];
    if !written {
      assert run == Run([write], Failed(WriteFailed));
      return Failed(WriteFailed);
    }
    ghost var confirmation := Send(Confirmation(attachmentName, file));
    var sent := svc.SendEmail(Recipient, "File updated successfully!",
                              "File updated successfully!\nAttached for reference.",
                              None, Some(NewAttachment(file, attachmentName, CsvMime)));
    assert svc.trace == trace0 + [write] + [confirmation];
    SnocSnoc(trace0, write, confirmation);
    SnocSnoc([], write, confirmation);
    StoredSnoc(store0, writeOk, [write], confirmation);
    exit := if sent then Finished else Failed(ConfirmationNotSent);
    assert run == Run([write, confirmation], exit);
  }

  /** The part of `handle_email` after the attachment is read: decode, validate, then report or update. */
  method RespondTo(svc: Services, attachmentName: string, body: string, debugText: RowError -> string)
    returns (exit: Exit)
    modifies svc
    ensures var run := Respond(attachmentName, body, old(svc.writeSucceeds), old(svc.sendSucceeds), debugText);
      && exit == run.exit
      && svc.trace == old(svc.trace) + run.effects
      && svc.store == Stored(old(svc.store), old(svc.writeSucceeds), run.effects)
    ensures svc.writeSucceeds == old(svc.writeSucceeds) && svc.sendSucceeds == old(svc.sendSucceeds)
  {
    var records, deErrors := DeserializeCsv(body);
    var validationErrors := DebugErrs(ValidateAllRecords(records));
    if |validationErrors| > 0 || |deErrors| > 0 {
      exit := SendReport(svc, attachmentName, body, deErrors, validationErrors, debugText);
    } else {
      var csv := WriteRecords(records);
      exit := WriteAndConfirm(svc, attachmentName, Encode(csv));
    }
  }

  /** `handle_email` once the object is fetched: find the attachment, then respond to it. */
  method ProcessFile(svc: Services, file: seq<byte>, key: string,
                     parseMail: seq<byte> -> Option<ParsedMail>, debugText: RowError -> string)
    returns (exit: Exit)
    modifies svc
    ensures var run := ProcessRun(file, key, old(svc.writeSucceeds), old(svc.sendSucceeds), parseMail, debugText);
      && exit == run.exit
      && svc.trace == old(svc.trace) + run.effects
      && svc.store == Stored(old(svc.store), old(svc.writeSucceeds), run.effects)
    ensures svc.writeSucceeds == old(svc.writeSucceeds) && svc.sendSucceeds == old(svc.sendSucceeds)
  {
    var attachment := Extract(file, key, parseMail);
    if attachment.Err? {
      assert svc.trace + [] == svc.trace;
      return attachment.error;
    }
    var (attachmentName, body) := attachment.value;
    exit := RespondTo(svc, attachmentName, body, debugText);
  }

  /** `handle_email` on the object at `bucket`/`key`. */
  method HandleEmail(svc: Services, bucket: string, key: string,
                     parseMail: seq<byte> -> Option<ParsedMail>, debugText: RowError -> string)
    returns (exit: Exit)
    modifies svc
    ensures var run := HandleRun(old(svc.store), old(svc.writeSucceeds), old(svc.sendSucceeds),
                                 parseMail, debugText, bucket, key);
      && exit == run.exit
      && svc.trace == old(svc.trace) + run.effects
      && svc.store == Stored(old(svc.store), old(svc.writeSucceeds), run.effects)
    ensures svc.writeSucceeds == old(svc.writeSucceeds) && svc.sendSucceeds == old(svc.sendSucceeds)
  {
    ghost var store0, trace0, writeOk := svc.store, svc.trace, svc.writeSucceeds;
    ghost var run := HandleRun(svc.store, svc.writeSucceeds, svc.sendSucceeds, parseMail, debugText, bucket, key);
    var loc := Location(bucket, key);
    var file := svc.GetFile(loc);
    if file.None? {
      assert run == Run([Fetch(loc)], Failed(FetchFailed));
      StoredAfterFetch(store0, writeOk, loc, []);
      assert [Fetch(loc)] + [] == [Fetch(loc)];
      return Failed(FetchFailed);
    }
    ghost var rest := ProcessRun(file.value, key, svc.writeSucceeds, svc.sendSucceeds, parseMail, debugText);
    assert run == Run([Fetch(loc)] + rest.effects, rest.exit);
    exit := ProcessFile(svc, file.value, key, parseMail, debugText);
    StoredAfterFetch(store0, writeOk, loc, rest.effects);
    SnocAppend(trace0, Fetch(loc), rest.effects);
  }

  /** The timer arm of `my_handler`: fetch the output object and send the request; failures are ignored. */
  method HandleTimer(svc: Services) returns (exit: Exit)
    modifies svc
    ensures var run := TimerRun(old(svc.store));
      && exit == run.exit
      && svc.trace == old(svc.trace) + run.effects
      && svc.store == Stored(old(svc.store), old(svc.writeSucceeds), run.effects)
    ensures svc.writeSucceeds == old(svc.writeSucceeds) && svc.sendSucceeds == old(svc.sendSucceeds)
  {
    ghost var store0, trace0 := svc.store, svc.trace;
    var file := svc.GetFile(OutputLocation);
    ghost var request := TimerMessage(file);
    var sent: bool;
    if file.Some? {
      sent := svc.SendEmail(Recipient, "Please verify and update attached file",
                            "Please verify and update the attached file",
                            None, Some(NewAttachment(file.value, OutputKey, CsvMime)));
    } else {
      sent := svc.SendEmail(Recipient, "Please reply with file", "Please reply with file", None, None);
    }
    assert svc.trace == trace0 + [Fetch(OutputLocation)] + [Send(request)];
    SnocSnoc(trace0, Fetch(OutputLocation), Send(request));
    StoredSnoc(store0, svc.writeSucceeds, [], Fetch(OutputLocation));
    StoredSnoc(store0, svc.writeSucceeds, [Fetch(OutputLocation)], Send(request));
    SnocSnoc([], Fetch(OutputLocation), Send(request));
    assert Stored(store0, svc.writeSucceeds, []) == store0;
    exit := Finished;
  }

  /** The storage arm of `my_handler`: decode the first record's names, run `handle_email`, panic on its error. */
  method HandleStorage(svc: Services, records: seq<S3Record>,
                       parseMail: seq<byte> -> Option<ParsedMail>, debugText: RowError -> string)
    returns (exit: Exit)
    modifies svc
    ensures var run := StorageRun(records, old(svc.store), old(svc.writeSucceeds), old(svc.sendSucceeds),
                                  parseMail, debugText);
      && exit == run.exit
      && svc.trace == old(svc.trace) + run.effects
      && svc.store == Stored(old(svc.store), old(svc.writeSucceeds), run.effects)
    ensures svc.writeSucceeds == old(svc.writeSucceeds) && svc.sendSucceeds == old(svc.sendSucceeds)
  {
    assert Stored(svc.store, svc.writeSucceeds, []) == svc.store;
    assert svc.trace + [] == svc.trace;
    if |records| == 0 {
      return Panicked(NoEventRecord);
    }
    if records[0].objectKey.None? {
      return Panicked(NoObjectKey);
    }
    var decodedKey := DecodeName(records[0].objectKey.value);
    if decodedKey.None? {
      return Panicked(KeyNotUtf8);
    }
    if records[0].bucketName.None? {
      return Panicked(NoBucketName);
    }
    var bucket := DecodeName(records[0].bucketName.value);
    if bucket.None? {
      return Panicked(BucketNotUtf8);
    }
    exit := HandleEmail(svc, bucket.value, decodedKey.value, parseMail, debugText);
    if exit.Failed? {
      exit := Panicked(HandlerFailed(exit.failure));
    }
  }

  /** `my_handler`: dispatches on the event. */
  method MyHandler(svc: Services, event: Event,
                   parseMail: seq<byte> -> Option<ParsedMail>, debugText: RowError -> string)
    returns (exit: Exit)
    modifies svc
    ensures var run := HandlerRun(event, old(svc.store), old(svc.writeSucceeds), old(svc.sendSucceeds),
                                  parseMail, debugText);
      && exit == run.exit
      && svc.trace == old(svc.trace) + run.effects
      && svc.store == Stored(old(svc.store), old(svc.writeSucceeds), run.effects)
    ensures svc.writeSucceeds == old(svc.writeSucceeds) && svc.sendSucceeds == old(svc.sendSucceeds)
  {
    match event
    case TimerEvent =>
      exit := HandleTimer(svc);
    case StorageEvent(records) =>
      exit := HandleStorage(svc, records, parseMail, debugText);
  }
}
