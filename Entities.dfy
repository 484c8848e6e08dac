/**
 * The JPA entities of the message tables, as objects whose fields the code updates in place:
 * an attachment, a recipient row with its read flag, and a message that owns both lists and keeps
 * the back-reference of each element pointing at itself. The clock is a parameter of whatever
 * reads it; persistence (ids assigned by the database, cascades, lazy loading) is not modelled.
 */
module Entities {
  import opened Wrappers
  import opened JavaInts
  import opened JavaStrings
  import opened JavaTime
  import opened InboxItems

  // ---------------------------------------------------------------------------------------------
  // File-name helpers of AttachmentEntity, on the file name they read
  // ---------------------------------------------------------------------------------------------

  const IMAGE_EXTENSIONS: set<string> := {"jpg", "jpeg", "png", "gif", "bmp", "svg", "webp"}
  const DOCUMENT_EXTENSIONS: set<string> := {"doc", "docx", "xls", "xlsx", "ppt", "pptx", "txt", "csv"}

  /**
   * getFileExtension: the text after the last '.', or "" when the name is null or has no '.'.
   */
  function ExtensionOf(fileName: Option<string>): (ext: string)
    ensures '.' !in ext
    ensures fileName.None? || '.' !in fileName.value ==> ext == ""
    ensures fileName.Some? && '.' in fileName.value ==>
      var name := fileName.value;
      |ext| < |name| && name[|name| - |ext| - 1] == '.' && name[|name| - |ext|..] == ext
  {
    if fileName.Some? && '.' in fileName.value then
      var name := fileName.value;
      var k := LastIndexOf(name, '.');
      var ext := name[k + 1..];
      assert forall j :: 0 <= j < |ext| ==> ext[j] == name[k + 1 + j];
      ext
    else ""
  }

  /** isImage: the lower-cased extension is one of the image extensions. */
  predicate IsImageName(fileName: Option<string>)
  {
    ToLower(ExtensionOf(fileName)) in IMAGE_EXTENSIONS
  }

  /** isPdf: the extension is "pdf" up to case. */
  predicate IsPdfName(fileName: Option<string>)
  {
    EqualsIgnoreCase("pdf", ExtensionOf(fileName))
  }

  /** isDocument: the lower-cased extension is one of the office or text extensions. */
  predicate IsDocumentName(fileName: Option<string>)
  {
    ToLower(ExtensionOf(fileName)) in DOCUMENT_EXTENSIONS
  }

  /** Only the text after the last dot counts, and a trailing dot leaves no extension. */
  lemma ExtensionExamples()
    ensures ExtensionOf(Some("a.tar.gz")) == "gz"
    ensures ExtensionOf(Some("name.")) == ""
    ensures ExtensionOf(Some(".bashrc")) == "bashrc"
    ensures ExtensionOf(Some("README")) == "" && ExtensionOf(None) == ""
  {
    LastDotExample();
    TrailingDotExample();
    DotFileExample();
    assert "README" == ['R', 'E', 'A', 'D', 'M', 'E'];
  }

  /** "a.tar.gz" has the extension "gz". */
  lemma LastDotExample()
    ensures ExtensionOf(Some("a.tar.gz")) == "gz"
  {
    ExtensionOfExample("a.tar", "gz");
    assert "a.tar" + "." + "gz" == "a.tar.gz";
  }

  /** "name." has the empty extension. */
  lemma TrailingDotExample()
    ensures ExtensionOf(Some("name.")) == ""
  {
    ExtensionOfExample("name", "");
    assert "name" + "." + "" == "name.";
  }

  /** ".bashrc" has the extension "bashrc". */
  lemma DotFileExample()
    ensures ExtensionOf(Some(".bashrc")) == "bashrc"
  {
    ExtensionOfExample("", "bashrc");
    assert "" + "." + "bashrc" == ".bashrc";
  }

  /** The three kinds are exclusive: no file name is two of image, PDF and document. */
  lemma KindsAreExclusive(fileName: Option<string>)
    ensures !(IsImageName(fileName) && IsPdfName(fileName))
    ensures !(IsImageName(fileName) && IsDocumentName(fileName))
    ensures !(IsPdfName(fileName) && IsDocumentName(fileName))
  {
    ExtensionSetsDisjoint();
    var lower := ToLower(ExtensionOf(fileName));
    if IsPdfName(fileName) {
      assert lower == ToLower("pdf") == "pdf";
    }
  }

  /** No extension is both an image and a document one, and "pdf" is neither. */
  lemma ExtensionSetsDisjoint()
    ensures IMAGE_EXTENSIONS * DOCUMENT_EXTENSIONS == {}
    ensures "pdf" !in IMAGE_EXTENSIONS && "pdf" !in DOCUMENT_EXTENSIONS
    ensures ToLower("pdf") == "pdf"
  {
    forall e | e in IMAGE_EXTENSIONS
      ensures e !in DOCUMENT_EXTENSIONS && e != "pdf"
    {
      assert e[0] in "jpgbsw";
    }
  }

  /** Case does not matter: "Photo.JPG" is an image. */
  lemma ImageExample()
    ensures IsImageName(Some("Photo.JPG"))
  {
    ExtensionOfExample("Photo", "JPG");
    assert "Photo" + "." + "JPG" == "Photo.JPG";
    assert ToLower("JPG") == "jpg";
  }

  /** Case does not matter: "Report.PDF" is a PDF, and so neither an image nor a document. */
  lemma PdfExample()
    ensures IsPdfName(Some("Report.PDF")) && !IsPdfName(None)
    ensures !IsImageName(Some("Report.PDF")) && !IsDocumentName(Some("Report.PDF"))
  {
    ReportPdfIsPdf();
    KindsAreExclusive(Some("Report.PDF"));
  }

  /** The PDF test on "Report.PDF" and on a null name. */
  lemma ReportPdfIsPdf()
    ensures IsPdfName(Some("Report.PDF")) && !IsPdfName(None)
  {
    ExtensionOfExample("Report", "PDF");
    assert "Report" + "." + "PDF" == "Report.PDF";
    assert ToLower("PDF") == "pdf" == ToLower("pdf");
    assert ToLower("") == [];
  }

  /** Only the last extension counts: "archive.tar.gz" is no image and no document. */
  lemma CompressedExample()
    ensures !IsImageName(Some("archive.tar.gz")) && !IsDocumentName(Some("archive.tar.gz"))
  {
    ExtensionOfExample("archive.tar", "gz");
    assert "archive.tar" + "." + "gz" == "archive.tar.gz";
    assert |ToLower("gz")| == 2;
  }

  /** The extension of base + "." + ext, for an ext without dots, is ext. */
  lemma ExtensionOfExample(base: string, ext: string)
    requires '.' !in ext
    ensures ExtensionOf(Some(base + "." + ext)) == ext
  {
    var name := base + "." + ext;
    var e := ExtensionOf(Some(name));
    assert name[|base|] == '.';
    assert name[|name| - |ext|..] == ext;
  }

  // ---------------------------------------------------------------------------------------------
  // List.remove(Object) on entity lists: identity comparison, first occurrence only
  // ---------------------------------------------------------------------------------------------

  /** The list after removing the first occurrence of x, if any. */
  function RemoveFirst<T(==)>(s: seq<T>, x: T): (r: seq<T>)
    ensures x !in s ==> r == s
    ensures x in s ==> |r| == |s| - 1 && multiset(r) == multiset(s) - multiset{x}
  {
    if s == [] then []
    else if s[0] == x then
      assert s == [s[0]] + s[1..];
      s[1..]
    else
      assert s == [s[0]] + s[1..];
      [s[0]] + RemoveFirst(s[1..], x)
  }

  /** Removing x from p + [x] + q, where p holds no x, gives p + q: the order of the rest is kept. */
  lemma {:induction false} RemoveFirstAt<T>(p: seq<T>, x: T, q: seq<T>)
    requires x !in p
    ensures RemoveFirst(p + [x] + q, x) == p + q
  {
    if p == [] {
      assert p + [x] + q == [x] + q;
      RemoveFirstDropsHead(x, q);
    } else {
      var t := p[1..] + [x] + q;
      calc {
        RemoveFirst(p + [x] + q, x);
        { assert p + [x] + q == [p[0]] + t; }
        RemoveFirst([p[0]] + t, x);
        { assert p[0] in p; RemoveFirstKeepsHead(p[0], t, x); }
        [p[0]] + RemoveFirst(t, x);
        { RemoveFirstAt(p[1..], x, q); }
        [p[0]] + (p[1..] + q);
        { assert p == [p[0]] + p[1..]; }
        p + q;
      }
    }
  }

  /** A list headed by the element removed loses exactly its head. */
  lemma RemoveFirstDropsHead<T>(x: T, t: seq<T>)
    ensures RemoveFirst([x] + t, x) == t
  {
    assert ([x] + t)[1..] == t;
  }

  /** The head of the list stays in front when it is not the element removed. */
  lemma RemoveFirstKeepsHead<T>(h: T, t: seq<T>, x: T)
    requires h != x
    ensures RemoveFirst([h] + t, x) == [h] + RemoveFirst(t, x)
  {
    assert ([h] + t)[1..] == t;
  }

  /** Adding an element that was not in the list and then removing it restores the list. */
  lemma AddThenRemoveRestores<T>(s: seq<T>, x: T)
    requires x !in s
    ensures RemoveFirst(s + [x], x) == s
  {
    RemoveFirstAt(s, x, []);
    assert s + [x] + [] == s + [x];
    assert s + [] == s;
  }

  /** An element that occurred at most once is gone afterwards, and nothing new appears. */
  lemma RemoveFirstMembership<T>(s: seq<T>, x: T, y: T)
    requires multiset(s)[x] <= 1
    ensures y in RemoveFirst(s, x) <==> y in s && y != x
  {
    var r := RemoveFirst(s, x);
    assert y in r <==> multiset(r)[y] > 0;
    assert y in s <==> multiset(s)[y] > 0;
  }

  // ---------------------------------------------------------------------------------------------
  // The entity classes
  // ---------------------------------------------------------------------------------------------

  /** AttachmentEntity: one stored file of a message. */
  class AttachmentEntity {
    var id: Option<Int32>
    var message: MessageEntity?
    var filePath: Option<string>
    var fileName: Option<string>
    var fileType: Option<string>
    var uploadedAt: Option<OffsetDateTime>

    /** The default constructor stamps the upload time with the current instant. */
    constructor(now: OffsetDateTime)
      ensures id.None? && message == null && filePath.None? && fileName.None? && fileType.None?
      ensures uploadedAt == Some(now)
    {
      id := None;
      message := null;
      filePath := None;
      fileName := None;
      fileType := None;
      uploadedAt := Some(now);
    }

    /** The constructor with the main fields: the default one, then the four arguments. */
    constructor WithFile(now: OffsetDateTime, message: MessageEntity?, filePath: Option<string>,
                         fileName: Option<string>, fileType: Option<string>)
      ensures id.None? && this.message == message && uploadedAt == Some(now)
      ensures this.filePath == filePath && this.fileName == fileName && this.fileType == fileType
    {
      id := None;
      this.message := message;
      this.filePath := filePath;
      this.fileName := fileName;
      this.fileType := fileType;
      uploadedAt := Some(now);
    }

    function FileExtension(): (ext: string)
      reads this
      ensures '.' !in ext
      ensures fileName.None? || '.' !in fileName.value ==> ext == ""
    {
      ExtensionOf(fileName)
    }

    predicate IsImage()
      reads this
    {
      IsImageName(fileName)
    }

    predicate IsPdf()
      reads this
    {
      IsPdfName(fileName)
    }

    predicate IsDocument()
      reads this
    {
      IsDocumentName(fileName)
    }
  }

  /** MessageRecipientEntity: one addressee of a message and whether they have read it. */
  class MessageRecipientEntity {
    var id: Option<Int64>
    var message: MessageEntity?
    var recipientId: Option<Int32>
    var isRead: Option<string>
    var readAt: Option<LocalDateTime>

    /** A read flag and a read time that agree, as markAsRead and markAsUnread leave them. */
    predicate ReadStateConsistent()
      reads this
    {
      IsRead() <==> readAt.Some?
    }

    /** The default constructor: not read ("N"), no read time. */
    constructor()
      ensures id.None? && message == null && recipientId.None?
      ensures isRead == Some("N") && readAt.None? && !IsRead() && ReadStateConsistent()
    {
      id := None;
      message := null;
      recipientId := None;
      isRead := Some("N");
      readAt := None;
    }

    /** The constructor with the main fields: the default one, then the message and the recipient. */
    constructor ForRecipient(message: MessageEntity?, recipientId: Option<Int32>)
      ensures id.None? && this.message == message && this.recipientId == recipientId
      ensures isRead == Some("N") && readAt.None? && !IsRead() && ReadStateConsistent()
    {
      id := None;
      this.message := message;
      this.recipientId := recipientId;
      isRead := Some("N");
      readAt := None;
    }

    /** isRead(): the flag is exactly "Y" (null and any other text read as unread). */
    predicate IsRead()
      reads this
    {
      IsReadFlag(isRead)
    }

    /** markAsRead: sets the flag and stamps the read time with the current local time. */
    method MarkAsRead(now: LocalDateTime)
      modifies this`isRead, this`readAt
      ensures isRead == Some("Y") && readAt == Some(now)
      ensures IsRead() && ReadStateConsistent()
    {
      isRead := Some("Y");
      readAt := Some(now);
    }

    /** markAsUnread: clears the flag and the read time, back to the state of a new recipient. */
    method MarkAsUnread()
      modifies this`isRead, this`readAt
      ensures isRead == Some("N") && readAt.None?
      ensures !IsRead() && ReadStateConsistent()
    {
      isRead := Some("N");
      readAt := None;
    }
  }

  /** MessageEntity: a message with its recipient rows and its attachments. */
  class MessageEntity {
    var idMessage: Option<Int64>
    var senderId: Option<Int32>
    var content: Option<string>
    var createAt: Option<OffsetDateTime>
    var asunto: Option<string>
    var recipients: seq<MessageRecipientEntity>
    var attachments: seq<AttachmentEntity>

    /** Every recipient and every attachment in the lists points back at this message. */
    predicate Linked()
      reads this, recipients, attachments
    {
      && (forall r :: r in recipients ==> r.message == this)
      && (forall a :: a in attachments ==> a.message == this)
    }

    /** The default constructor stamps the creation time with the current instant. */
    constructor(now: OffsetDateTime)
      ensures idMessage.None? && senderId.None? && content.None? && asunto.None? && createAt == Some(now)
      ensures recipients == [] && attachments == [] && Linked()
    {
      idMessage := None;
      senderId := None;
      content := None;
      asunto := None;
      createAt := Some(now);
      recipients := [];
      attachments := [];
    }

    /** The constructor with the main fields: the default one, then sender, subject and content. */
    constructor WithFields(now: OffsetDateTime, senderId: Option<Int32>, asunto: Option<string>, content: Option<string>)
      ensures idMessage.None? && this.senderId == senderId && this.asunto == asunto && this.content == content
      ensures createAt == Some(now) && recipients == [] && attachments == [] && Linked()
    {
      idMessage := None;
      this.senderId := senderId;
      this.content := content;
      this.asunto := asunto;
      createAt := Some(now);
      recipients := [];
      attachments := [];
    }

    /** addRecipient: appends the row and points it at this message. */
    method AddRecipient(recipient: MessageRecipientEntity)
      modifies this`recipients, recipient`message
      ensures recipients == old(recipients) + [recipient] && recipient.message == this
      ensures old(Linked()) ==> Linked()
    {
      recipients := recipients + [recipient];
      recipient.message := this;
    }

    /**
     * removeRecipient: removes the first occurrence of the row (by identity) and clears its
     * message. A row listed twice keeps its second entry, which then no longer points here.
     */
    method RemoveRecipient(recipient: MessageRecipientEntity)
      modifies this`recipients, recipient`message
      ensures recipients == RemoveFirst(old(recipients), recipient) && recipient.message == null
      ensures old(Linked()) && multiset(old(recipients))[recipient] <= 1 ==> Linked() && recipient !in recipients
    {
      if multiset(recipients)[recipient] <= 1 {
        forall r | true
          ensures r in RemoveFirst(recipients, recipient) <==> r in recipients && r != recipient
        {
          RemoveFirstMembership(recipients, recipient, r);
        }
      }
      recipients := RemoveFirst(recipients, recipient);
      recipient.message := null;
    }

    /** addAttachment: appends the attachment and points it at this message. */
    method AddAttachment(attachment: AttachmentEntity)
      modifies this`attachments, attachment`message
      ensures attachments == old(attachments) + [attachment] && attachment.message == this
      ensures old(Linked()) ==> Linked()
    {
      attachments := attachments + [attachment];
      attachment.message := this;
    }

    /** removeAttachment: removes the first occurrence of the attachment and clears its message. */
    method RemoveAttachment(attachment: AttachmentEntity)
      modifies this`attachments, attachment`message
      ensures attachments == RemoveFirst(old(attachments), attachment) && attachment.message == null
      ensures old(Linked()) && multiset(old(attachments))[attachment] <= 1 ==> Linked() && attachment !in attachments
    {
      if multiset(attachments)[attachment] <= 1 {
        forall a | true
          ensures a in RemoveFirst(attachments, attachment) <==> a in attachments && a != attachment
        {
          RemoveFirstMembership(attachments, attachment, a);
        }
      }
      attachments := RemoveFirst(attachments, attachment);
      attachment.message := null;
    }
  }
}
