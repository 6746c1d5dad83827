/**
 * The message structure `send_email` builds with lettre before handing it to SES:
 * a `mixed` multipart whose first child is the plain body (or an `alternative`
 * of plain and HTML bodies), optionally followed by one base64 attachment part.
 * The wire rendering of the tree is not modelled; the tree itself is.
 */
module Email {
  import opened Wrappers
  import opened Utf8

  /** The crate-wide sender address every message is sent from. */
  const Sender := "SES Test <test@testjamesmcm.awsapps.com>"

  /** The content transfer encodings lettre's single-part builders set. */
  datatype Encoding = QuotedPrintable | EightBit | Base64

  /** A part's body: text for the message bodies, raw bytes for an attachment. */
  datatype Body = Text(text: string) | Binary(bytes: seq<byte>)

  /**
   * A `Content-Disposition: attachment` header with its `filename` parameter. lettre is
   * handed the raw bytes of the name; `FilenameBytes` gives them.
   */
  datatype Disposition = AttachmentNamed(filename: string)

  /** The bytes of the `filename` parameter: the UTF-8 bytes of the name, as `str::as_bytes` gives them. */
  function FilenameBytes(d: Disposition): seq<byte>
  {
    Encode(d.filename)
  }

  datatype MultiKind = Mixed | Alternative

  /** A MIME part tree: a single part with its headers and body, or a multipart of children. */
  datatype Part =
    | Single(encoding: Encoding, contentType: string, disposition: Option<Disposition>, body: Body)
    | Multi(kind: MultiKind, parts: seq<Part>)

  /** A file to attach: its bytes, its name and its MIME type. */
  datatype Attachment = Attachment(content: seq<byte>, name: string, mime: string)

  /** The message handed to SES: addresses, subject and the part tree. */
  datatype Message = Message(to: string, from: string, subject: string, body: Part)

  /** `Attachment::new` keeps the three values it is given. */
  function NewAttachment(content: seq<byte>, name: string, mime: string): (a: Attachment)
    ensures a.content == content && a.name == name && a.mime == mime
  {
    Attachment(content, name, mime)
  }

  /** The quoted-printable `text/plain` part carrying the plain body. */
  function PlainPart(plain: string): Part
  {
    Single(QuotedPrintable, "text/plain; charset=utf8", None, Text(plain))
  }

  /** The 8-bit `text/html` part carrying the HTML body. */
  function HtmlPart(html: string): Part
  {
    Single(EightBit, "text/html; charset=utf8", None, Text(html))
  }

  /** The base64 part of an attachment, named by the attachment's name. */
  function AttachmentPart(a: Attachment): (p: Part)
    ensures p.Single? && p.encoding == Base64 && p.contentType == a.mime
    ensures p.disposition == Some(AttachmentNamed(a.name))
    ensures p.body == Binary(a.content)
  {
    Single(Base64, a.mime, Some(AttachmentNamed(a.name)), Binary(a.content))
  }

  /** The `mixed` container before any attachment: an `alternative` of both bodies, or the plain part alone. */
  function BodyContainer(plain: string, html: Option<string>): (p: Part)
    ensures p.Multi? && p.kind == Mixed && |p.parts| == 1
  {
    match html
    case Some(h) => Multi(Mixed, [Multi(Alternative, [PlainPart(plain), HtmlPart(h)])])
    case None => Multi(Mixed, [PlainPart(plain)])
  }

  /** Adds the attachment part, if there is one, as the last child of a multipart. */
  function WithAttachment(container: Part, attachment: Option<Attachment>): Part
    requires container.Multi?
  {
    match attachment
    case Some(a) => Multi(container.kind, container.parts + [AttachmentPart(a)])
    case None => container
  }

  /** The part tree `send_email` builds from a plain body, an optional HTML body and an optional attachment. */
  function Build(plain: string, html: Option<string>, attachment: Option<Attachment>): (p: Part)
    ensures p.Multi? && p.kind == Mixed
    ensures |p.parts| == if attachment.Some? then 2 else 1
    ensures html.Some? ==> p.parts[0] == Multi(Alternative, [PlainPart(plain), HtmlPart(html.value)])
    ensures html.None? ==> p.parts[0] == PlainPart(plain)
    ensures attachment.Some? ==> p.parts[1] == AttachmentPart(attachment.value)
  {
    WithAttachment(BodyContainer(plain, html), attachment)
  }

  /** The message `send_email` sends: to the recipient, from the sender, with the built part tree. */
  function Compose(recipient: string, subject: string, plain: string, html: Option<string>,
                   attachment: Option<Attachment>): (m: Message)
    ensures m.to == recipient && m.from == Sender && m.subject == subject
    ensures m.body == Build(plain, html, attachment)
  {
    Message(recipient, Sender, subject, Build(plain, html, attachment))
  }

  // ----- Leaves of a part tree -----

  /** The single parts of a tree, left to right. */
  function Leaves(p: Part): seq<Part>
    decreases p, 1
  {
    match p
    case Single(_, _, _, _) => [p]
    case Multi(_, parts) => LeavesOf(parts)
  }

  function LeavesOf(ps: seq<Part>): seq<Part>
    decreases ps, 0
  {
    if |ps| == 0 then [] else Leaves(ps[0]) + LeavesOf(ps[1..])
  }

  /** The leaves that carry an attachment disposition. */
  function Attachments(leaves: seq<Part>): (r: seq<Part>)
    ensures |r| <= |leaves|
    decreases |leaves|
  {
    if |leaves| == 0 then []
    else
      var rest := Attachments(leaves[1..]);
      if leaves[0].Single? && leaves[0].disposition.Some? then [leaves[0]] + rest else rest
  }

  lemma {:induction false} LeavesOfAppend(a: seq<Part>, b: seq<Part>)
    ensures LeavesOf(a + b) == LeavesOf(a) + LeavesOf(b)
    decreases |a|
  {
    if |a| > 0 {
      assert (a + b)[0] == a[0] && (a + b)[1..] == a[1..] + b;
      LeavesOfAppend(a[1..], b);
    } else {
      assert a + b == b;
    }
  }

  lemma {:induction false} AttachmentsAppend(a: seq<Part>, b: seq<Part>)
    ensures Attachments(a + b) == Attachments(a) + Attachments(b)
    decreases |a|
  {
    if |a| > 0 {
      assert (a + b)[0] == a[0] && (a + b)[1..] == a[1..] + b;
      AttachmentsAppend(a[1..], b);
    } else {
      assert a + b == b;
    }
  }

  /** The body leaves: the plain part, then the HTML part when there is an HTML body. */
  lemma BodyContainerLeaves(plain: string, html: Option<string>)
    ensures Leaves(BodyContainer(plain, html))
            == [PlainPart(plain)] + (if html.Some? then [HtmlPart(html.value)] else [])
  {
    var pp := PlainPart(plain);
    assert LeavesOf([pp]) == [pp] by {
      assert [pp][1..] == [];
    }
    if html.Some? {
      var hp := HtmlPart(html.value);
      var alt := Multi(Alternative, [pp, hp]);
      assert LeavesOf([hp]) == [hp] by {
        assert [hp][1..] == [];
      }
      assert [pp, hp][1..] == [hp];
      assert Leaves(alt) == [pp, hp];
      assert [alt][1..] == [];
      assert LeavesOf([alt]) == [pp, hp];
    }
  }

  /**
   * The leaves of a built tree are the plain part, the HTML part if an HTML body is given,
   * and the attachment part if an attachment is given, in that order; so there are
   * 1, 2 or 3 of them.
   */
  lemma BuildLeaves(plain: string, html: Option<string>, attachment: Option<Attachment>)
    ensures Leaves(Build(plain, html, attachment))
            == [PlainPart(plain)]
               + (if html.Some? then [HtmlPart(html.value)] else [])
               + (if attachment.Some? then [AttachmentPart(attachment.value)] else [])
    ensures |Leaves(Build(plain, html, attachment))|
            == 1 + (if html.Some? then 1 else 0) + (if attachment.Some? then 1 else 0)
  {
    var c := BodyContainer(plain, html);
    BodyContainerLeaves(plain, html);
    if attachment.Some? {
      var ap := AttachmentPart(attachment.value);
      LeavesOfAppend(c.parts, [ap]);
      assert LeavesOf([ap]) == [ap] by {
        assert [ap][1..] == [];
      }
    }
  }

  /** Adding an attachment appends exactly that part and leaves every other child as it was. */
  lemma WithAttachmentAppends(plain: string, html: Option<string>, a: Attachment)
    ensures var without, with := Build(plain, html, None), Build(plain, html, Some(a));
      && with.kind == without.kind
      && with.parts[..|with.parts| - 1] == without.parts
      && with.parts[|with.parts| - 1] == AttachmentPart(a)
  {
  }

  /**
   * Only an attachment produces a part with an attachment disposition: a built tree has
   * exactly the attachment's part among its attachment leaves, or none.
   */
  lemma BuildAttachments(plain: string, html: Option<string>, attachment: Option<Attachment>)
    ensures Attachments(Leaves(Build(plain, html, attachment)))
            == if attachment.Some? then [AttachmentPart(attachment.value)] else []
  {
    BuildLeaves(plain, html, attachment);
    var bodies := [PlainPart(plain)] + (if html.Some? then [HtmlPart(html.value)] else []);
    var extra := if attachment.Some? then [AttachmentPart(attachment.value)] else [];
    AttachmentsAppend(bodies, extra);
    if html.Some? {
      assert bodies[1..] == [HtmlPart(html.value)];
      assert [HtmlPart(html.value)][1..] == [];
    } else {
      assert bodies[1..] == [];
    }
    if attachment.Some? {
      assert extra[1..] == [];
    }
  }

  /** The file name bytes of an attachment part are the name's own bytes, and decode back to the name. */
  lemma AttachmentNameRecoverable(a: Attachment)
    ensures FilenameBytes(AttachmentPart(a).disposition.value) == Encode(a.name)
    ensures Decode(FilenameBytes(AttachmentPart(a).disposition.value)) == Some(a.name)
  {
    DecodeEncode(a.name);
  }
}
