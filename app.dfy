/**
 * `main`: what one upload produces, in order. The result is the trace of what the page
 * shows and what is sent to the chat model: the size gate, the extraction, the content
 * gate and the single generation call. The chat model is a parameter that either
 * answers with a text or raises.
 */
module App {
  import opened PyStr
  import opened Extract

  const MaxFileSizeMb: int := 5
  const MinTextLength: int := 100
  const BytesPerMb: int := 1024 * 1024
  const Instruction: string := "Generate customized interview questions."

  datatype Role = System | Human

  datatype Message = Message(role: Role, content: string)

  /** `model.invoke(messages).content`, or the exception it raised. */
  type ChatModel = seq<Message> -> Result<string>

  /** One thing the run shows on the page, or the call it makes to the chat model. */
  datatype Effect =
    | SizeWarning                      // "File size exceeds 5 MB."
    | ReadError(fault: Fault)          // "Error reading file: ...", shown by the extractor
    | ShortWarning                     // "File content too short or empty."
    | ExtractedBanner                  // "Text extracted successfully."
    | ShowExtracted(text: string)      // the "Extracted Text" area
    | Invoke(messages: seq<Message>)   // the call to the chat model
    | ShowOutput(content: string)      // the questions heading and the "Output" area
    | ApiErrorBanner                   // "API Error: ..."

  /** The calls to the chat model in a trace, in order. */
  function ModelCalls(trace: seq<Effect>): seq<seq<Message>> {
    if trace == [] then []
    else (if trace[0].Invoke? then [trace[0].messages] else []) + ModelCalls(trace[1..])
  }

  /** The warnings in a trace. */
  function Warnings(trace: seq<Effect>): nat {
    if trace == [] then 0
    else (if trace[0] == SizeWarning || trace[0] == ShortWarning then 1 else 0) + Warnings(trace[1..])
  }

  /** `len(getvalue()) / (1024 * 1024)`, computed exactly: the byte count in megabytes. */
  function FileSizeMb(f: UploadedFile): (mb: real)
    ensures mb >= 0.0
    ensures mb * (BytesPerMb as real) == |f.data| as real
  {
    (|f.data| as real) / (BytesPerMb as real)
  }

  /**
   * The two messages sent for an extracted text: first the system message holding the
   * text as extracted, then the human message holding the fixed instruction.
   */
  function Messages(text: string): (m: seq<Message>)
    ensures |m| == 2
    ensures m[0].role == System && m[0].content == text
    ensures m[1].role == Human && m[1].content == Instruction
  {
    [Message(System, text), Message(Human, Instruction)]
  }

  /**
   * The generation step: one call with the text's two messages, then the answer's
   * content when the model answers, and the API error exactly when it raises.
   */
  function Generate(text: string, model: ChatModel): (trace: seq<Effect>)
    ensures |trace| == 2 && trace[0] == Invoke(Messages(text))
    ensures trace[1] == ApiErrorBanner <==> model(Messages(text)).Raised?
    ensures model(Messages(text)).Ok? ==> trace[1] == ShowOutput(model(Messages(text)).value)
  {
    var messages := Messages(text);
    [Invoke(messages)] +
      match model(messages)
      case Ok(content) => [ShowOutput(content)]
      case Raised => [ApiErrorBanner]
  }

  /**
   * What follows the extraction: the extractor's error banner; nothing at all for an
   * empty text; a warning when the stripped text is shorter than the minimum; else the
   * extracted text and the generation step.
   */
  function ContentGate(extracted: Extracted, model: ChatModel): (trace: seq<Effect>)
    ensures trace == [] <==> extracted == Text("")
    ensures ShortWarning in trace <==>
      extracted.Text? && extracted.text != "" && |Strip(extracted.text)| < MinTextLength
    ensures ExtractedBanner in trace <==> extracted.Text? && |Strip(extracted.text)| >= MinTextLength
  {
    match extracted
    case Failed(fault) => [ReadError(fault)]
    case Text(s) =>
      if s == "" then []
      else if |Strip(s)| < MinTextLength then [ShortWarning]
      else
        GenerateShowsCallAndOutcome(s, model);
        [ExtractedBanner, ShowExtracted(s)] + Generate(s, model)
  }

  /** The generation step shows only the call and its outcome: no banner and no warning. */
  lemma GenerateShowsCallAndOutcome(text: string, model: ChatModel)
    ensures forall e :: e in Generate(text, model) ==> e.Invoke? || e.ShowOutput? || e.ApiErrorBanner?
  {
    var t := Generate(text, model);
    assert t == [t[0], t[1]];
  }

  /**
   * `main()` for one run: nothing without an upload; the size warning alone for a file
   * over 5 MB; otherwise the extraction and what follows it. Whatever the inputs, at
   * most one call reaches the chat model and it carries the two messages for some text.
   */
  function Main(upload: Option<UploadedFile>, libs: Libraries, model: ChatModel): (trace: seq<Effect>)
    ensures |ModelCalls(trace)| <= 1
    ensures forall c :: c in ModelCalls(trace) ==> exists s :: c == Messages(s)
  {
    match upload
    case None => []
    case Some(f) =>
      if FileSizeMb(f) > MaxFileSizeMb as real then [SizeWarning]
      else
        var extracted := ExtractText(f, libs);
        ContentGateCalls(extracted, model);
        ContentGate(extracted, model)
  }

  // ---------------------------------------------------------------------------
  // Trace helpers

  lemma {:induction false} ModelCallsAppend(a: seq<Effect>, b: seq<Effect>)
    ensures ModelCalls(a + b) == ModelCalls(a) + ModelCalls(b)
  {
    if a == [] {
      assert a + b == b;
    } else {
      assert (a + b)[1..] == a[1..] + b;
      ModelCallsAppend(a[1..], b);
    }
  }

  lemma {:induction false} WarningsAppend(a: seq<Effect>, b: seq<Effect>)
    ensures Warnings(a + b) == Warnings(a) + Warnings(b)
  {
    if a == [] {
      assert a + b == b;
    } else {
      assert (a + b)[1..] == a[1..] + b;
      WarningsAppend(a[1..], b);
    }
  }

  /**
   * The generation step makes exactly one call, with the two messages for the text,
   * and warns about nothing.
   */
  lemma GenerateCalls(text: string, model: ChatModel)
    ensures ModelCalls(Generate(text, model)) == [Messages(text)]
    ensures Warnings(Generate(text, model)) == 0
  {
    var tail := Generate(text, model)[1..];
    assert Generate(text, model) == [Invoke(Messages(text))] + tail;
    ModelCallsAppend([Invoke(Messages(text))], tail);
    WarningsAppend([Invoke(Messages(text))], tail);
    assert tail[1..] == [];
  }

  /**
   * After extraction, the chat model is called once, with the two messages for the
   * extracted text, exactly when that text's stripped length reaches the minimum;
   * otherwise it is not called.
   */
  lemma ContentGateCalls(extracted: Extracted, model: ChatModel)
    ensures extracted.Text? && |Strip(extracted.text)| >= MinTextLength ==>
      ModelCalls(ContentGate(extracted, model)) == [Messages(extracted.text)]
    ensures !(extracted.Text? && |Strip(extracted.text)| >= MinTextLength) ==>
      ModelCalls(ContentGate(extracted, model)) == []
  {
    if extracted.Text? && |Strip(extracted.text)| >= MinTextLength {
      var s := extracted.text;
      var head := [ExtractedBanner, ShowExtracted(s)];
      GenerateCalls(s, model);
      ModelCallsAppend(head, Generate(s, model));
      assert head[1..][1..] == [];
    }
  }

  // ---------------------------------------------------------------------------
  // Size gate

  /** The size test on megabytes is the integer test "more than 5 * 1024 * 1024 bytes". */
  lemma SizeGateIsByteCount(f: UploadedFile)
    ensures FileSizeMb(f) > MaxFileSizeMb as real <==> |f.data| > MaxFileSizeMb * BytesPerMb
  {
    assert FileSizeMb(f) * (BytesPerMb as real) == |f.data| as real;
  }

  /**
   * A file of more than 5 MB gets the size warning and nothing else: the result does
   * not depend on its name, its content, the readers or the chat model, so no
   * extraction is attempted.
   */
  lemma OversizedFileStopsBeforeExtraction(f: UploadedFile, libs: Libraries, model: ChatModel)
    requires |f.data| > MaxFileSizeMb * BytesPerMb
    ensures Main(Some(f), libs, model) == [SizeWarning]
  {
    SizeGateIsByteCount(f);
  }

  /** Nothing after the size gate shows the size warning. */
  lemma ContentGateHasNoSizeWarning(extracted: Extracted, model: ChatModel)
    ensures SizeWarning !in ContentGate(extracted, model)
  {
    match extracted
    case Failed(_) =>
    case Text(s) =>
      var head := [ExtractedBanner, ShowExtracted(s)];
      var rest := Generate(s, model);
      assert SizeWarning !in rest by {
        match model(Messages(s))
        case Ok(c) => assert rest == [Invoke(Messages(s)), ShowOutput(c)];
        case Raised => assert rest == [Invoke(Messages(s)), ApiErrorBanner];
      }
      assert SizeWarning !in head + rest;
  }

  /**
   * A file of at most 5 MB, exactly 5 MB included, passes the gate and goes on to
   * extraction; the size warning is shown exactly for files over 5 MB.
   */
  lemma SizeWarningIffOversized(f: UploadedFile, libs: Libraries, model: ChatModel)
    ensures |f.data| <= MaxFileSizeMb * BytesPerMb ==>
      Main(Some(f), libs, model) == ContentGate(ExtractText(f, libs), model)
    ensures SizeWarning in Main(Some(f), libs, model) <==> |f.data| > MaxFileSizeMb * BytesPerMb
  {
    SizeGateIsByteCount(f);
    ContentGateHasNoSizeWarning(ExtractText(f, libs), model);
  }

  // ---------------------------------------------------------------------------
  // Extension dispatch seen from the page

  /** An unsupported extension shows only the read error; the model is not called. */
  lemma UnsupportedFileIsRefused(f: UploadedFile, libs: Libraries, model: ChatModel)
    requires |f.data| <= MaxFileSizeMb * BytesPerMb
    requires FileKind(f.name).None?
    ensures Main(Some(f), libs, model) == [ReadError(UnsupportedFileType)]
    ensures ModelCalls(Main(Some(f), libs, model)) == []
  {
    SizeGateIsByteCount(f);
  }

  // ---------------------------------------------------------------------------
  // Content gate

  /**
   * An extraction that fails shows its read error and nothing else; an empty text
   * shows nothing at all: neither a warning nor a call.
   */
  lemma FailedOrEmptyExtractionShowsNoWarning(f: UploadedFile, libs: Libraries, model: ChatModel)
    requires |f.data| <= MaxFileSizeMb * BytesPerMb
    ensures ExtractText(f, libs).Failed? ==>
      Main(Some(f), libs, model) == [ReadError(ExtractText(f, libs).fault)]
    ensures ExtractText(f, libs) == Text("") ==> Main(Some(f), libs, model) == []
  {
    SizeGateIsByteCount(f);
  }

  /** A non-empty text whose stripped length is below the minimum gets only the warning. */
  lemma ShortTextWarns(s: string, model: ChatModel)
    requires s != "" && |Strip(s)| < MinTextLength
    ensures ContentGate(Text(s), model) == [ShortWarning]
  {
  }

  /**
   * Whitespace alone is not "empty" for the first test but strips to nothing, so it
   * is warned about, unlike the empty string.
   */
  lemma WhitespaceOnlyTextWarns(s: string, model: ChatModel)
    requires s != "" && forall k :: 0 <= k < |s| ==> IsSpace(s[k])
    ensures ContentGate(Text(s), model) == [ShortWarning]
    ensures ContentGate(Text(""), model) == []
  {
  }

  /**
   * A text longer than the minimum by its padding alone is still too short: the
   * gate counts the stripped text, while the length of `s` itself may be anything.
   */
  lemma PaddingDoesNotCount(s: string, pre: string, post: string, model: ChatModel)
    requires s != "" && |Strip(s)| < MinTextLength
    requires forall k :: 0 <= k < |pre| ==> IsSpace(pre[k])
    requires forall k :: 0 <= k < |post| ==> IsSpace(post[k])
    ensures ContentGate(Text(pre + s + post), model) == [ShortWarning]
  {
  }

  // ---------------------------------------------------------------------------
  // Generation

  /**
   * The chat model is called exactly when the file is at most 5 MB, the extraction
   * yields a text and that text's stripped length reaches the minimum. The call is
   * then the only one and carries two messages: the system message with the text as
   * extracted (not stripped), then the human message with the fixed instruction.
   */
  lemma ModelCalledIffTextLongEnough(f: UploadedFile, libs: Libraries, model: ChatModel)
    ensures |ModelCalls(Main(Some(f), libs, model))| == 1 <==>
      && |f.data| <= MaxFileSizeMb * BytesPerMb
      && ExtractText(f, libs).Text?
      && |Strip(ExtractText(f, libs).text)| >= MinTextLength
    ensures |ModelCalls(Main(Some(f), libs, model))| == 1 ==>
      ModelCalls(Main(Some(f), libs, model)) ==
        [[Message(System, ExtractText(f, libs).text), Message(Human, Instruction)]]
  {
    SizeGateIsByteCount(f);
    ContentGateCalls(ExtractText(f, libs), model);
  }

  /**
   * When the call raises, the run ends with the API error and no output area is
   * shown; when it answers, the run ends by showing exactly the answer's content.
   * Neither outcome carries a warning.
   */
  lemma GenerationOutcome(s: string, model: ChatModel)
    requires |Strip(s)| >= MinTextLength
    ensures model(Messages(s)).Raised? ==>
      ContentGate(Text(s), model) ==
        [ExtractedBanner, ShowExtracted(s), Invoke(Messages(s)), ApiErrorBanner]
    ensures model(Messages(s)).Ok? ==>
      ContentGate(Text(s), model) ==
        [ExtractedBanner, ShowExtracted(s), Invoke(Messages(s)), ShowOutput(model(Messages(s)).value)]
    ensures forall c :: ShowOutput(c) in ContentGate(Text(s), model) ==> model(Messages(s)) == Ok(c)
    ensures Warnings(ContentGate(Text(s), model)) == 0
  {
    var head := [ExtractedBanner, ShowExtracted(s)];
    var t := ContentGate(Text(s), model);
    assert t == head + Generate(s, model);
    GenerateCalls(s, model);
    WarningsAppend(head, Generate(s, model));
    assert head[1..][1..] == [];
    match model(Messages(s)) {
      case Ok(c) =>
        assert t == [ExtractedBanner, ShowExtracted(s), Invoke(Messages(s)), ShowOutput(c)];
      case Raised =>
        assert t == [ExtractedBanner, ShowExtracted(s), Invoke(Messages(s)), ApiErrorBanner];
    }
  }

  /**
   * A PDF that pdfplumber reads without raising but in which no page yields text
   * produces nothing on the page: PyPDF2 is not tried, whatever it would have read.
   */
  lemma BlankPdfIsSilent(f: UploadedFile, libs: Libraries, model: ChatModel)
    requires |f.data| <= MaxFileSizeMb * BytesPerMb
    requires FileKind(f.name) == Some(Pdf)
    requires libs.pdfplumberPages(f.data).Ok?
    requires forall i :: 0 <= i < |libs.pdfplumberPages(f.data).value| ==>
      libs.pdfplumberPages(f.data).value[i] in {None, Some("")}
    ensures Main(Some(f), libs, model) == []
  {
    SizeGateIsByteCount(f);
    NonEmptyPagesOfBlank(libs.pdfplumberPages(f.data).value);
  }
}
