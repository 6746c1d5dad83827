/**
 * What the dispatcher does, stated over the runs `HandleRun` and `HandlerRun`: which
 * calls are made, in what order, with what payloads, and how the handler ends.
 */
module HandlerProperties {
  import opened Wrappers
  import opened Text
  import opened Utf8
  import opened CsvSerde
  import opened Email
  import opened Handler
  import Names

  /** The messages sent, in order. */
  function Sends(effects: seq<Effect>): (r: seq<Message>)
    ensures |r| <= |effects|
    decreases |effects|
  {
    if |effects| == 0 then []
    else (if effects[0].Send? then [effects[0].message] else []) + Sends(effects[1..])
  }

  /** The writes made, in order, as location and bytes. */
  function Writes(effects: seq<Effect>): (r: seq<(Location, seq<byte>)>)
    ensures |r| <= |effects|
    decreases |effects|
  {
    if |effects| == 0 then []
    else (if effects[0].Write? then [(effects[0].loc, effects[0].data)] else []) + Writes(effects[1..])
  }

  lemma SendsAndWritesOfOne(e: Effect)
    ensures Sends([e]) == if e.Send? then [e.message] else []
    ensures Writes([e]) == if e.Write? then [(e.loc, e.data)] else []
  {
    assert [e][1..] == [];
  }

  lemma SendsAndWritesOfTwo(a: Effect, b: Effect)
    ensures Sends([a, b]) == Sends([a]) + Sends([b])
    ensures Writes([a, b]) == Writes([a]) + Writes([b])
  {
    assert [a, b][1..] == [b];
    assert [a][1..] == [];
  }

  lemma SendsAndWritesOfThree(a: Effect, b: Effect, c: Effect)
    ensures Sends([a, b, c]) == Sends([a]) + Sends([b, c])
    ensures Writes([a, b, c]) == Writes([a]) + Writes([b, c])
  {
    assert [a, b, c][1..] == [b, c];
    assert [a][1..] == [];
  }

  /** The part an attachment with these bytes and this name becomes in a message. */
  function CsvPart(name: string, content: seq<byte>): Part
  {
    Single(Base64, CsvMime, Some(AttachmentNamed(name)), Binary(content))
  }

  /** A message built with one attachment carries exactly that attachment's part among its attachments. */
  lemma ComposedAttachment(subject: string, plain: string, name: string, content: seq<byte>)
    ensures Attachments(Leaves(Compose(Recipient, subject, plain, None, Some(NewAttachment(content, name, CsvMime))).body))
            == [CsvPart(name, content)]
  {
    BuildAttachments(plain, None, Some(NewAttachment(content, name, CsvMime)));
  }

  // ----- Storage event: the attachment has errors -----

  /**
   * When the attachment has decode or validation errors, exactly one message is sent: the
   * report titled with the attachment's name, whose text lists the `{:?}` line of every
   * decode error and the `Err(..)` line of every record failing validation, and which
   * carries the attachment's body as received (not trimmed) under the same name; nothing
   * is written.
   */
  lemma ErrorsSendOneReport(store: map<Location, seq<byte>>, writeOk: bool, sendOk: bool,
                            parseMail: seq<byte> -> Option<ParsedMail>, debugText: RowError -> string,
                            bucket: string, key: string, name: string, body: string)
    requires Location(bucket, key) in store
    requires Extract(store[Location(bucket, key)], key, parseMail) == Ok((name, body))
    requires HasErrors(body)
    ensures var run := HandleRun(store, writeOk, sendOk, parseMail, debugText, bucket, key);
      && Writes(run.effects) == []
      && |Sends(run.effects)| == 1
      && Sends(run.effects)[0].to == Recipient
      && Sends(run.effects)[0].subject == "Errors in file: " + name
      && Sends(run.effects)[0] == ErrorReport(name, body, debugText)
      && Leaves(Sends(run.effects)[0].body) == [PlainPart(ReportText(body, debugText)), CsvPart(name, Encode(body))]
      && Attachments(Leaves(Sends(run.effects)[0].body)) == [CsvPart(name, Encode(body))]
      && run.exit == if sendOk then Finished else Failed(ReportNotSent)
  {
    var report := ReportRun(name, body, sendOk, debugText);
    assert HandleRun(store, writeOk, sendOk, parseMail, debugText, bucket, key)
           == Run([Fetch(Location(bucket, key))] + report.effects, report.exit);
    ReportEffects(Location(bucket, key), name, body, sendOk, debugText);
  }

  /** The calls of `ReportRun` after a fetch: one report, and no write. */
  lemma ReportEffects(loc: Location, name: string, body: string, sendOk: bool, debugText: RowError -> string)
    ensures var report := ReportRun(name, body, sendOk, debugText);
      var effects := [Fetch(loc)] + report.effects;
      && Writes(effects) == []
      && |Sends(effects)| == 1
      && Sends(effects)[0].to == Recipient
      && Sends(effects)[0].subject == "Errors in file: " + name
      && Sends(effects)[0] == ErrorReport(name, body, debugText)
      && Leaves(Sends(effects)[0].body) == [PlainPart(ReportText(body, debugText)), CsvPart(name, Encode(body))]
      && Attachments(Leaves(Sends(effects)[0].body)) == [CsvPart(name, Encode(body))]
      && report.exit == if sendOk then Finished else Failed(ReportNotSent)
  {
    var message := ErrorReport(name, body, debugText);
    OneSendAfterFetch(loc, message);
    ReportMessage(name, body, debugText);
  }

  lemma OneSendAfterFetch(loc: Location, m: Message)
    ensures Writes([Fetch(loc)] + [Send(m)]) == [] && Sends([Fetch(loc)] + [Send(m)]) == [m]
  {
    assert [Fetch(loc)] + [Send(m)] == [Fetch(loc), Send(m)];
    SendsAndWritesOfTwo(Fetch(loc), Send(m));
    SendsAndWritesOfOne(Fetch(loc));
    SendsAndWritesOfOne(Send(m));
  }

  /**
   * The report goes to the recipient and is titled with the name; its leaves are the report
   * text and then the body's bytes under the name.
   */
  lemma ReportMessage(name: string, body: string, debugText: RowError -> string)
    ensures var m := ErrorReport(name, body, debugText);
      && m.to == Recipient
      && m.subject == "Errors in file: " + name
      && Leaves(m.body) == [PlainPart(ReportText(body, debugText)), CsvPart(name, Encode(body))]
      && Attachments(Leaves(m.body)) == [CsvPart(name, Encode(body))]
  {
    var text := ReportText(body, debugText);
    var attachment := NewAttachment(Encode(body), name, CsvMime);
    ComposedAttachment("Errors in file: " + name, text, name, Encode(body));
    BuildLeaves(text, None, Some(attachment));
    assert [PlainPart(text)] + [] + [AttachmentPart(attachment)] == [PlainPart(text), CsvPart(name, Encode(body))];
  }

  // ----- Storage event: the attachment is clean -----

  /**
   * When the attachment has no errors, the re-encoded records are written to the output
   * object before any message is sent; if the write fails nothing is sent and the call
   * fails, and otherwise exactly one confirmation follows, carrying the written bytes under
   * the attachment's name.
   */
  lemma CleanWritesThenConfirms(store: map<Location, seq<byte>>, writeOk: bool, sendOk: bool,
                                parseMail: seq<byte> -> Option<ParsedMail>, debugText: RowError -> string,
                                bucket: string, key: string, name: string, body: string)
    requires Location(bucket, key) in store
    requires Extract(store[Location(bucket, key)], key, parseMail) == Ok((name, body))
    requires !HasErrors(body)
    ensures var run := HandleRun(store, writeOk, sendOk, parseMail, debugText, bucket, key);
      && |run.effects| >= 2
      && run.effects[1] == Write(OutputLocation, OutputData(body))
      && Writes(run.effects) == [(OutputLocation, OutputData(body))]
      && (forall i :: 0 <= i < |run.effects| && run.effects[i].Send? ==> i > 1)
      && (!writeOk ==> Sends(run.effects) == [] && run.exit == Failed(WriteFailed))
      && (writeOk ==>
            && |Sends(run.effects)| == 1
            && Sends(run.effects)[0].subject == "File updated successfully!"
            && Attachments(Leaves(Sends(run.effects)[0].body)) == [CsvPart(name, OutputData(body))]
            && run.exit == if sendOk then Finished else Failed(ConfirmationNotSent))
  {
    var update := UpdateRun(name, OutputData(body), writeOk, sendOk);
    assert HandleRun(store, writeOk, sendOk, parseMail, debugText, bucket, key)
           == Run([Fetch(Location(bucket, key))] + update.effects, update.exit);
    UpdateEffects(Location(bucket, key), name, OutputData(body), writeOk, sendOk);
  }

  /** The calls of `UpdateRun` after a fetch: the write at index 1, then the confirmation only if it succeeds. */
  lemma UpdateEffects(loc: Location, name: string, data: seq<byte>, writeOk: bool, sendOk: bool)
    ensures var update := UpdateRun(name, data, writeOk, sendOk);
      var effects := [Fetch(loc)] + update.effects;
      && |effects| >= 2
      && effects[1] == Write(OutputLocation, data)
      && Writes(effects) == [(OutputLocation, data)]
      && (forall i :: 0 <= i < |effects| && effects[i].Send? ==> i > 1)
      && (!writeOk ==> Sends(effects) == [] && update.exit == Failed(WriteFailed))
      && (writeOk ==>
            && |Sends(effects)| == 1
            && Sends(effects)[0].subject == "File updated successfully!"
            && Attachments(Leaves(Sends(effects)[0].body)) == [CsvPart(name, data)]
            && update.exit == if sendOk then Finished else Failed(ConfirmationNotSent))
  {
    var write := Write(OutputLocation, data);
    SendsAndWritesOfOne(Fetch(loc));
    SendsAndWritesOfOne(write);
    if writeOk {
      var confirmation := Send(Confirmation(name, data));
      assert [Fetch(loc)] + [write, confirmation] == [Fetch(loc), write, confirmation];
      SendsAndWritesOfThree(Fetch(loc), write, confirmation);
      SendsAndWritesOfTwo(write, confirmation);
      SendsAndWritesOfOne(confirmation);
      ComposedAttachment("File updated successfully!", "File updated successfully!\nAttached for reference.",
                         name, data);
    } else {
      assert [Fetch(loc)] + [write] == [Fetch(loc), write];
      SendsAndWritesOfTwo(Fetch(loc), write);
    }
  }

  /** After a clean run whose write succeeds, the output object holds the written bytes. */
  lemma CleanRunStoresOutput(store: map<Location, seq<byte>>, sendOk: bool,
                             parseMail: seq<byte> -> Option<ParsedMail>, debugText: RowError -> string,
                             bucket: string, key: string, name: string, body: string)
    requires Location(bucket, key) in store
    requires Extract(store[Location(bucket, key)], key, parseMail) == Ok((name, body))
    requires !HasErrors(body)
    ensures var run := HandleRun(store, true, sendOk, parseMail, debugText, bucket, key);
      && OutputLocation in Stored(store, true, run.effects)
      && Stored(store, true, run.effects)[OutputLocation] == OutputData(body)
  {
    var loc := Location(bucket, key);
    var data := OutputData(body);
    var write := Write(OutputLocation, data);
    var confirmation := Send(Confirmation(name, data));
    assert HandleRun(store, true, sendOk, parseMail, debugText, bucket, key).effects == [Fetch(loc), write, confirmation];
    StoredAfterWrite(store, Fetch(loc), OutputLocation, data, confirmation);
  }

  /** A successful write followed by a call that is not a write leaves the written bytes in place. */
  lemma StoredAfterWrite(store: map<Location, seq<byte>>, before: Effect, loc: Location, data: seq<byte>, after: Effect)
    requires !after.Write?
    ensures loc in Stored(store, true, [before, Write(loc, data), after])
    ensures Stored(store, true, [before, Write(loc, data), after])[loc] == data
  {
    var write := Write(loc, data);
    StoredSnoc(store, true, [], before);
    assert [] + [before] == [before];
    StoredSnoc(store, true, [before], write);
    assert [before] + [write] == [before, write];
    StoredSnoc(store, true, [before, write], after);
    assert [before, write] + [after] == [before, write, after];
  }

  /**
   * The bytes written are UTF-8 text that decodes to the same records as the attachment,
   * with no errors: serialization writes the header `id` and the timestamp format that
   * decoding reads.
   */
  lemma OutputDecodesToSameRecords(body: string)
    ensures var text := EncodeCsv(Oks(DecodeAll(body)));
      && Decode(OutputData(body)) == Some(text)
      && Oks(DecodeAll(text)) == Oks(DecodeAll(body))
      && Errs(DecodeAll(text)) == []
  {
    var text := EncodeCsv(Oks(DecodeAll(body)));
    DecodeEncode(text);
    EncodeDecode(Oks(DecodeAll(body)));
  }

  // ----- Storage event: stopping early -----

  /** When the object cannot be fetched, `handle_email` makes no further call and fails. */
  lemma FetchFailureStops(store: map<Location, seq<byte>>, writeOk: bool, sendOk: bool,
                          parseMail: seq<byte> -> Option<ParsedMail>, debugText: RowError -> string,
                          bucket: string, key: string)
    requires Location(bucket, key) !in store
    ensures var run := HandleRun(store, writeOk, sendOk, parseMail, debugText, bucket, key);
      && Sends(run.effects) == [] && Writes(run.effects) == []
      && run.exit == Failed(FetchFailed)
  {
    SendsAndWritesOfOne(Fetch(Location(bucket, key)));
  }

  /**
   * When the mail has no attachment subpart, `handle_email` panics after the fetch with
   * nothing sent and nothing written.
   */
  lemma NoAttachmentNothingSent(store: map<Location, seq<byte>>, writeOk: bool, sendOk: bool,
                                parseMail: seq<byte> -> Option<ParsedMail>, debugText: RowError -> string,
                                bucket: string, key: string, mail: ParsedMail)
    requires Location(bucket, key) in store
    requires Names.FileName(key).Some?
    requires parseMail(store[Location(bucket, key)]) == Some(mail)
    requires forall k :: 0 <= k < |mail.subparts| ==> !mail.subparts[k].isAttachment
    ensures var run := HandleRun(store, writeOk, sendOk, parseMail, debugText, bucket, key);
      && run.effects == [Fetch(Location(bucket, key))]
      && Sends(run.effects) == [] && Writes(run.effects) == []
      && run.exit == Panicked(NoAttachment)
  {
    var loc := Location(bucket, key);
    assert FirstAttachment(mail.subparts) == None;
    assert ProcessRun(store[loc], key, writeOk, sendOk, parseMail, debugText) == Run([], Panicked(NoAttachment));
    assert [Fetch(loc)] + [] == [Fetch(loc)];
    SendsAndWritesOfOne(Fetch(loc));
  }

  /** Whatever stops `handle_email` before the attachment is read leaves only the fetch behind. */
  lemma ExtractFailureOnlyFetches(store: map<Location, seq<byte>>, writeOk: bool, sendOk: bool,
                                  parseMail: seq<byte> -> Option<ParsedMail>, debugText: RowError -> string,
                                  bucket: string, key: string)
    requires Location(bucket, key) in store
    requires Extract(store[Location(bucket, key)], key, parseMail).Err?
    ensures var run := HandleRun(store, writeOk, sendOk, parseMail, debugText, bucket, key);
      && run.effects == [Fetch(Location(bucket, key))]
      && run.exit == Extract(store[Location(bucket, key)], key, parseMail).error
      && run.exit != Finished
  {
    assert [Fetch(Location(bucket, key))] + [] == [Fetch(Location(bucket, key))];
  }

  // ----- The handler -----

  /**
   * On a storage event, the first record's object key and bucket name are percent-decoded
   * and the object fetched is the one they name.
   */
  lemma StorageFetchesDecodedNames(records: seq<S3Record>, store: map<Location, seq<byte>>,
                                   writeOk: bool, sendOk: bool,
                                   parseMail: seq<byte> -> Option<ParsedMail>, debugText: RowError -> string,
                                   bucket: string, key: string)
    requires |records| > 0 && records[0].objectKey.Some? && records[0].bucketName.Some?
    requires Names.DecodeName(records[0].objectKey.value) == Some(key)
    requires Names.DecodeName(records[0].bucketName.value) == Some(bucket)
    ensures var run := HandlerRun(StorageEvent(records), store, writeOk, sendOk, parseMail, debugText);
      && |run.effects| >= 1
      && run.effects[0] == Fetch(Location(bucket, key))
  {
  }

  /**
   * An error returned by `handle_email` makes the handler panic with it, after the same
   * calls; so the handler itself never returns an error.
   */
  lemma HandlerPanicsOnFailure(event: Event, store: map<Location, seq<byte>>, writeOk: bool, sendOk: bool,
                               parseMail: seq<byte> -> Option<ParsedMail>, debugText: RowError -> string)
    ensures !HandlerRun(event, store, writeOk, sendOk, parseMail, debugText).exit.Failed?
    ensures event.StorageEvent? && |event.records| > 0
            && event.records[0].objectKey.Some? && event.records[0].bucketName.Some?
            && Names.DecodeName(event.records[0].objectKey.value).Some?
            && Names.DecodeName(event.records[0].bucketName.value).Some?
            ==> var inner := HandleRun(store, writeOk, sendOk, parseMail, debugText,
                                       Names.DecodeName(event.records[0].bucketName.value).value,
                                       Names.DecodeName(event.records[0].objectKey.value).value);
                var run := HandlerRun(event, store, writeOk, sendOk, parseMail, debugText);
                && run.effects == inner.effects
                && (inner.exit.Failed? ==> run.exit == Panicked(HandlerFailed(inner.exit.failure)))
                && (!inner.exit.Failed? ==> run.exit == inner.exit)
  {
  }

  /**
   * On a timer event with the output object present, one request is sent carrying the
   * object under the output key's name; nothing is written and the handler finishes.
   */
  lemma TimerSendsFile(store: map<Location, seq<byte>>, writeOk: bool, sendOk: bool,
                       parseMail: seq<byte> -> Option<ParsedMail>, debugText: RowError -> string)
    requires OutputLocation in store
    ensures var run := HandlerRun(TimerEvent, store, writeOk, sendOk, parseMail, debugText);
      && run.effects[0] == Fetch(OutputLocation)
      && Writes(run.effects) == []
      && |Sends(run.effects)| == 1
      && Sends(run.effects)[0].subject == "Please verify and update attached file"
      && Attachments(Leaves(Sends(run.effects)[0].body)) == [CsvPart(OutputKey, store[OutputLocation])]
      && run.exit == Finished
  {
    var m := TimerMessage(Some(store[OutputLocation]));
    SendsAndWritesOfTwo(Fetch(OutputLocation), Send(m));
    SendsAndWritesOfOne(Fetch(OutputLocation));
    SendsAndWritesOfOne(Send(m));
    ComposedAttachment("Please verify and update attached file", "Please verify and update the attached file",
                       OutputKey, store[OutputLocation]);
  }

  /**
   * On a timer event without the output object, one request without attachment is sent;
   * the handler finishes whether or not the send succeeds.
   */
  lemma TimerAsksForFile(store: map<Location, seq<byte>>, writeOk: bool, sendOk: bool,
                         parseMail: seq<byte> -> Option<ParsedMail>, debugText: RowError -> string)
    requires OutputLocation !in store
    ensures var run := HandlerRun(TimerEvent, store, writeOk, sendOk, parseMail, debugText);
      && run.effects[0] == Fetch(OutputLocation)
      && Writes(run.effects) == []
      && |Sends(run.effects)| == 1
      && Sends(run.effects)[0].subject == "Please reply with file"
      && Attachments(Leaves(Sends(run.effects)[0].body)) == []
      && run.exit == Finished
  {
    var m := TimerMessage(None);
    SendsAndWritesOfTwo(Fetch(OutputLocation), Send(m));
    SendsAndWritesOfOne(Fetch(OutputLocation));
    SendsAndWritesOfOne(Send(m));
    BuildAttachments("Please reply with file", None, None);
  }

  // ----- The report text -----

  /** A section is present exactly when there is at least one error line. */
  lemma SectionPresentIffErrors(title: string, lines: seq<string>)
    requires title != ""
    ensures Section(title, lines) == "" <==> lines == []
  {
  }

  /** A section's lines, joined by `\n`, split back into one line per error when no line holds a `\n`. */
  lemma SectionOneLinePerError(title: string, lines: seq<string>)
    requires |lines| > 0 && NoneContains(lines, '\n')
    ensures Section(title, lines)[..|title|] == title
    ensures Split(Section(title, lines)[|title|..], '\n') == lines
  {
    assert Section(title, lines)[|title|..] == Join(lines, ['\n']);
    SplitJoin(lines, '\n');
  }

  lemma {:induction false} DebugErrsOneLine(messages: seq<string>)
    requires NoneContains(messages, '\n')
    ensures NoneContains(DebugErrs(messages), '\n')
  {
    forall k | 0 <= k < |messages|
      ensures '\n' !in DebugErrs(messages)[k]
    {
      assert DebugErrs(messages)[k] == "Err(" + messages[k] + ")";
      assert '\n' !in messages[k];
    }
  }

  /**
   * The validation section has one line per record whose start is after its end, and is
   * absent exactly when every record passes.
   */
  lemma ValidationSectionLines(records: seq<Entry>)
    ensures var lines := DebugErrs(ValidateAllRecords(records));
      && |lines| == |ValidateAllRecords(records)| <= |records|
      && (lines == [] <==> forall k :: 0 <= k < |records| ==> NotAfter(records[k].startDate, records[k].endDate))
      && (lines != [] ==> Split(Section("Validation errors:\n", lines)[19..], '\n') == lines)
  {
    var lines := DebugErrs(ValidateAllRecords(records));
    if lines != [] {
      ValidateAllOneLine(records);
      DebugErrsOneLine(ValidateAllRecords(records));
      SectionOneLinePerError("Validation errors:\n", lines);
    }
  }
}
