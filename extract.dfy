/**
 * `extract_text_from_file`: choose a reading strategy from the file's extension and
 * assemble the text it yields, or fail. The UTF-8 decoder and the pdfplumber, PyPDF2
 * and python-docx readers are parameters: each either returns what it read or raises.
 */
module Extract {
  import opened PyStr
  import opened PosixPath

  newtype byte = x: int | 0 <= x < 256

  datatype Option<T> = None | Some(value: T)

  /** What a library call gives: a value, or an exception it raised. */
  datatype Result<T> = Ok(value: T) | Raised

  /** An uploaded file: its name and its bytes (`getvalue()`). */
  datatype UploadedFile = UploadedFile(name: string, data: seq<byte>)

  /**
   * The reading libraries, as functions of the file's bytes. A PDF reader gives one
   * entry per page: the text the page yields, or `None` when it yields nothing.
   */
  datatype Libraries = Libraries(
    decodeUtf8: seq<byte> -> Result<string>,
    pdfplumberPages: seq<byte> -> Result<seq<Option<string>>>,
    pypdf2Pages: seq<byte> -> Result<seq<Option<string>>>,
    docxParagraphs: seq<byte> -> Result<seq<string>>)

  datatype Kind = PlainText | Pdf | Docx

  /** Which step raised: the banner "Error reading file: ..." is shown for each. */
  datatype Fault = UnsupportedFileType | UndecodableText | UnreadablePdf | UnreadableDocx

  /** What `extract_text_from_file` returns: a string, or `None` after a fault. */
  datatype Extracted = Text(text: string) | Failed(fault: Fault)

  const SupportedExtensions: seq<string> := [".txt", ".pdf", ".docx"]

  /** The strategy for an already lower-cased extension; none outside the fixed list. */
  function KindOfExtension(ext: string): (k: Option<Kind>)
    ensures k.Some? <==> ext in SupportedExtensions
    ensures k == Some(PlainText) <==> ext == ".txt"
    ensures k == Some(Pdf) <==> ext == ".pdf"
    ensures k == Some(Docx) <==> ext == ".docx"
  {
    if ext == ".txt" then Some(PlainText)
    else if ext == ".pdf" then Some(Pdf)
    else if ext == ".docx" then Some(Docx)
    else None
  }

  /** The last `|ext|` characters of `name`, lower-cased, spell `ext`. */
  predicate EndsWithFolded(name: string, ext: string) {
    |ext| <= |name| && Lower(name[|name| - |ext|..]) == ext
  }

  /**
   * The strategy for a file name: its `splitext` extension, lower-cased. A name is
   * read with a strategy only when it ends in that strategy's extension, in any case.
   */
  function FileKind(name: string): (k: Option<Kind>)
    ensures k == Some(PlainText) ==> EndsWithFolded(name, ".txt")
    ensures k == Some(Pdf) ==> EndsWithFolded(name, ".pdf")
    ensures k == Some(Docx) ==> EndsWithFolded(name, ".docx")
  {
    var ext := SplitExt(name).1;
    assert name[|name| - |ext|..] == ext;
    KindOfExtension(Lower(ext))
  }

  /**
   * The page texts a PDF strategy keeps: those that are present and non-empty, in
   * page order. A string is kept exactly when some page yields it and it is not empty.
   */
  function NonEmptyPages(pages: seq<Option<string>>): (r: seq<string>)
    ensures |r| <= |pages|
    ensures forall s :: s in r <==> s != "" && Some(s) in pages
  {
    if pages == [] then []
    else
      var rest := NonEmptyPages(pages[1..]);
      assert forall s :: Some(s) in pages <==> Some(s) == pages[0] || Some(s) in pages[1..];
      if pages[0].Some? && pages[0].value != "" then [pages[0].value] + rest else rest
  }

  /**
   * `"\n".join(page text for each page if page text)`. It is empty exactly when no
   * page yields a non-empty text.
   */
  function JoinPages(pages: seq<Option<string>>): (r: string)
    ensures r == "" <==> forall i :: 0 <= i < |pages| ==> pages[i] == None || pages[i] == Some("")
  {
    var kept := NonEmptyPages(pages);
    NoPageKeptIffBlank(pages);
    assert kept != [] ==> kept[0] in kept;
    JoinLines(kept)
  }

  /** No page is kept exactly when every page yields `None` or the empty text. */
  lemma {:induction false} NoPageKeptIffBlank(pages: seq<Option<string>>)
    ensures NonEmptyPages(pages) == [] <==>
      forall i :: 0 <= i < |pages| ==> pages[i] == None || pages[i] == Some("")
  {
    if pages != [] {
      NoPageKeptIffBlank(pages[1..]);
      assert forall i :: 1 <= i < |pages| ==> pages[i] == pages[1..][i - 1];
    }
  }

  /**
   * The PDF branch: pdfplumber's pages; PyPDF2's when, and only when, pdfplumber
   * raised; a fault when both raised.
   */
  function ExtractPdf(libs: Libraries, data: seq<byte>): (r: Extracted)
    ensures r.Failed? <==> libs.pdfplumberPages(data).Raised? && libs.pypdf2Pages(data).Raised?
    ensures r.Failed? ==> r.fault == UnreadablePdf
    ensures libs.pdfplumberPages(data).Ok? ==> r == Text(JoinPages(libs.pdfplumberPages(data).value))
  {
    match libs.pdfplumberPages(data)
    case Ok(pages) => Text(JoinPages(pages))
    case Raised =>
      match libs.pypdf2Pages(data)
      case Ok(pages) => Text(JoinPages(pages))
      case Raised => Failed(UnreadablePdf)
  }

  /**
   * `extract_text_from_file(f)`. The fault is "unsupported file type" exactly when
   * the lower-cased extension is not one of `.txt`, `.pdf`, `.docx`.
   */
  function ExtractText(f: UploadedFile, libs: Libraries): (r: Extracted)
    ensures r == Failed(UnsupportedFileType) <==> FileKind(f.name).None?
  {
    match FileKind(f.name)
    case None => Failed(UnsupportedFileType)
    case Some(PlainText) =>
      (match libs.decodeUtf8(f.data)
       case Ok(s) => Text(s)
       case Raised => Failed(UndecodableText))
    case Some(Pdf) => ExtractPdf(libs, f.data)
    case Some(Docx) =>
      (match libs.docxParagraphs(f.data)
       case Ok(paragraphs) => Text(JoinLines(paragraphs))
       case Raised => Failed(UnreadableDocx))
  }

  // ---------------------------------------------------------------------------
  // Extension dispatch

  /**
   * The extension decides the strategy whatever its letter case: for a plain stem,
   * `stem.e` is read with the strategy named by the lower-cased `.e`, and by none when
   * that is not a supported extension.
   */
  lemma KindOfDottedName(stem: string, e: string)
    requires HasNonDot(stem, 0, |stem|) && '/' !in stem
    requires '.' !in e && '/' !in e
    ensures FileKind(stem + "." + e) == KindOfExtension(Lower("." + e))
    ensures FileKind(stem + "." + e).Some? <==> Lower("." + e) in SupportedExtensions
  {
    SplitExtOfStemAndSuffix(stem, e);
  }

  /** Two names that differ only in the letter case of their extension read alike. */
  lemma ExtensionCaseIsIgnored(f: UploadedFile, g: UploadedFile, libs: Libraries,
                               stem: string, e1: string, e2: string)
    requires HasNonDot(stem, 0, |stem|) && '/' !in stem
    requires '.' !in e1 && '/' !in e1 && '.' !in e2 && '/' !in e2
    requires Lower(e1) == Lower(e2)
    requires f.name == stem + "." + e1 && g.name == stem + "." + e2 && f.data == g.data
    ensures ExtractText(f, libs) == ExtractText(g, libs)
  {
    KindOfDottedName(stem, e1);
    KindOfDottedName(stem, e2);
    LowerDotted(e1);
    LowerDotted(e2);
    ExtractionDependsOnKindAndData(f, g, libs);
  }

  /** Extraction sees a file only through its strategy and its bytes. */
  lemma ExtractionDependsOnKindAndData(f: UploadedFile, g: UploadedFile, libs: Libraries)
    requires FileKind(f.name) == FileKind(g.name) && f.data == g.data
    ensures ExtractText(f, libs) == ExtractText(g, libs)
  {
  }

  /** A name ending in `.PDF`, such as `CV.PDF` or `.cv.PDF`, is read as a PDF. */
  lemma UpperCasePdfIsPdf(stem: string)
    requires HasNonDot(stem, 0, |stem|) && '/' !in stem
    ensures FileKind(stem + ".PDF") == Some(Pdf)
  {
    KindOfDottedName(stem, "PDF");
    assert stem + ".PDF" == stem + "." + "PDF";
  }

  /**
   * A file named `.pdf`, `..pdf` or any other run of dots before `pdf` has no
   * extension, so it is refused as unsupported.
   */
  lemma HiddenPdfIsUnsupported(f: UploadedFile, libs: Libraries, dots: string)
    requires dots != "" && forall k :: 0 <= k < |dots| ==> dots[k] == '.'
    requires f.name == dots + "pdf"
    ensures ExtractText(f, libs) == Failed(UnsupportedFileType)
  {
    HiddenNameHasNoExtension(dots, "pdf");
  }

  // ---------------------------------------------------------------------------
  // How the text is assembled

  /** A `.txt` file yields its decoded content verbatim, or fails when it does not decode. */
  lemma PlainTextIsDecodedVerbatim(f: UploadedFile, libs: Libraries)
    requires FileKind(f.name) == Some(PlainText)
    ensures libs.decodeUtf8(f.data).Ok? ==> ExtractText(f, libs) == Text(libs.decodeUtf8(f.data).value)
    ensures libs.decodeUtf8(f.data).Raised? ==> ExtractText(f, libs) == Failed(UndecodableText)
  {
  }

  /**
   * Once pdfplumber returns, its text is the result, even when that text is empty;
   * PyPDF2 is consulted only when pdfplumber raised, and both raising is a fault.
   */
  lemma PdfFallsBackOnlyOnRaise(f: UploadedFile, libs: Libraries)
    requires FileKind(f.name) == Some(Pdf)
    ensures libs.pdfplumberPages(f.data).Ok? ==>
      ExtractText(f, libs) == Text(JoinPages(libs.pdfplumberPages(f.data).value))
    ensures libs.pdfplumberPages(f.data).Raised? && libs.pypdf2Pages(f.data).Ok? ==>
      ExtractText(f, libs) == Text(JoinPages(libs.pypdf2Pages(f.data).value))
    ensures libs.pdfplumberPages(f.data).Raised? && libs.pypdf2Pages(f.data).Raised? ==>
      ExtractText(f, libs) == Failed(UnreadablePdf)
  {
  }

  /** A `.docx` file yields all its paragraphs joined by newlines, empty ones included. */
  lemma DocxJoinsEveryParagraph(f: UploadedFile, libs: Libraries)
    requires FileKind(f.name) == Some(Docx)
    ensures libs.docxParagraphs(f.data).Ok? ==>
      ExtractText(f, libs) == Text(JoinLines(libs.docxParagraphs(f.data).value))
    ensures libs.docxParagraphs(f.data).Raised? ==> ExtractText(f, libs) == Failed(UnreadableDocx)
  {
  }

  /** Dropping empty pages distributes over splitting the document in two. */
  lemma {:induction false} NonEmptyPagesAppend(a: seq<Option<string>>, b: seq<Option<string>>)
    ensures NonEmptyPages(a + b) == NonEmptyPages(a) + NonEmptyPages(b)
  {
    if a == [] {
      assert a + b == b;
    } else {
      assert (a + b)[1..] == a[1..] + b;
      NonEmptyPagesAppend(a[1..], b);
    }
  }

  /** One page is kept on its own exactly when it yields a non-empty text. */
  lemma NonEmptyPagesOfOne(p: Option<string>)
    ensures NonEmptyPages([p]) == if p.Some? && p.value != "" then [p.value] else []
  {
  }

  /** A document in which no page yields text assembles to the empty string. */
  lemma {:induction false} NonEmptyPagesOfBlank(pages: seq<Option<string>>)
    requires forall i :: 0 <= i < |pages| ==> pages[i] in {None, Some("")}
    ensures NonEmptyPages(pages) == [] && JoinPages(pages) == ""
  {
    if pages != [] {
      NonEmptyPagesOfBlank(pages[1..]);
    }
  }

  /**
   * Each kept page appears exactly once and in order: when no page text holds a
   * newline and some page is kept, splitting the assembled PDF text at its newlines
   * gives back the kept pages.
   */
  lemma PdfPagesAreRecoverable(pages: seq<Option<string>>)
    requires NonEmptyPages(pages) != []
    requires forall i :: 0 <= i < |pages| && pages[i].Some? ==> '\n' !in pages[i].value
    ensures SplitLines(JoinPages(pages)) == NonEmptyPages(pages)
  {
    var kept := NonEmptyPages(pages);
    forall j | 0 <= j < |kept| ensures '\n' !in kept[j] {
      assert kept[j] in kept;
      var i :| 0 <= i < |pages| && pages[i] == Some(kept[j]);
    }
    SplitJoin(kept);
  }

  /**
   * A `.docx` file's text separates its paragraphs by exactly one newline each, so
   * when no paragraph holds a newline it has one newline fewer than paragraphs, and
   * the paragraphs come back, empty ones included, by splitting at newlines.
   */
  lemma DocxParagraphsAreRecoverable(paragraphs: seq<string>)
    requires |paragraphs| > 0
    requires forall j :: 0 <= j < |paragraphs| ==> '\n' !in paragraphs[j]
    ensures SplitLines(JoinLines(paragraphs)) == paragraphs
    ensures Count('\n', JoinLines(paragraphs)) == |paragraphs| - 1
  {
    SplitJoin(paragraphs);
    NewlinesSeparatePieces(JoinLines(paragraphs));
  }

  /**
   * Without any condition on the texts: the assembled PDF text holds the newlines of
   * the kept pages plus one between each two of them, and the `.docx` text holds the
   * newlines of the paragraphs plus one between each two of them.
   */
  lemma AssembledNewlines(pages: seq<Option<string>>, paragraphs: seq<string>)
    ensures NonEmptyPages(pages) != [] ==>
      Count('\n', JoinPages(pages)) == NewlinesIn(NonEmptyPages(pages)) + |NonEmptyPages(pages)| - 1
    ensures paragraphs != [] ==>
      Count('\n', JoinLines(paragraphs)) == NewlinesIn(paragraphs) + |paragraphs| - 1
  {
    if NonEmptyPages(pages) != [] {
      JoinedNewlines(NonEmptyPages(pages));
    }
    if paragraphs != [] {
      JoinedNewlines(paragraphs);
    }
  }

  /** An empty paragraph stays as an empty line, but an empty PDF page is dropped. */
  lemma EmptyParagraphKeptEmptyPageDropped()
    ensures JoinLines(["A", "", "B"]) == "A\n\nB"
    ensures JoinPages([Some("A"), Some(""), None, Some("B")]) == "A\nB"
  {
  }
}
