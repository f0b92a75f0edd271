# Smart Interview Generator: the upload decision pipeline

The Smart Interview Generator is a one-page Streamlit app. The user uploads a resume
or a job description, and the app extracts the document's text. It then asks a chat
model (`gpt-4o-mini` through LangChain) for interview questions about that text. This
project models the app's only real logic, the pipeline one run of `main()` in `App.py`
goes through for the uploaded file:

1. **Size gate.** A file of more than 5 MB gets a warning and stops there.
2. **Extension dispatch.** `extract_text_from_file` takes the extension with
   `os.path.splitext` and lower-cases it. It refuses anything other than `.txt`,
   `.pdf` and `.docx`.
3. **Text assembly.**
   - `.txt`: the UTF-8 decoded bytes, as they are.
   - `.pdf`: pdfplumber's non-empty page texts joined with `"\n"`. PyPDF2's pages are
     used only when pdfplumber raises.
   - `.docx`: every paragraph joined with `"\n"`, empty paragraphs included.
   - An exception that reaches the outer handler (`App.py:49`) shows "Error reading
     file" and gives `None`. This covers an unsupported extension, a failed decode,
     python-docx raising, and PyPDF2 raising after pdfplumber has. pdfplumber's own
     exceptions are swallowed without a banner by the bare `except:` at `App.py:41`,
     which moves on to PyPDF2.
4. **Content gate.** An empty or `None` text shows nothing more. A text whose
   `strip()` is shorter than 100 characters gets a warning. Otherwise the text is shown.
5. **Generation.** One call to the chat model, with two messages: a system message
   holding the extracted text, and a human message holding the fixed instruction. The
   answer's content is shown; if the call raises, an API error banner is shown instead.

The modules are:

- `PyStr` (`pystr.dfy`): the Python string operations the pipeline uses, over
  strings of Unicode scalar values (a Python `str` may also hold surrogates, which no input of this pipeline produces). These are `isspace`, `strip`, `"\n".join`, `lower`, and the
  `rfind` that `splitext` calls. `App.py` never calls `find`, `count` or
  `split("\n")`. They are here only to define the reference inverse of the join, so
  that the module can prove `split` and `join` undo each other and can count the
  newlines a join adds.
- `PosixPath` (`posixpath.dfy`): `os.path.splitext` as CPython defines it for POSIX.
- `Extract` (`extract.dfy`): `extract_text_from_file`. The UTF-8 decoder and the three
  document libraries are function parameters that either give a value or raise.
- `App` (`app.dfy`): `main`. A run is a trace of `Effect`s: the banners and text areas
  shown, and the call made to the chat model, in order. The chat model is a function
  parameter that answers or raises.

The size gate is written as the source writes it, `len / (1024 * 1024) > 5`, in
Dafny's exact reals. `App.SizeGateIsByteCount` proves it is the byte test
`len > 5 * 1024 * 1024`. Python's float gives the same verdict. Below 2^53 bytes the
quotient is exact. Above, rounding cannot bring it down to 5: the smallest oversized
file is 5 + 2^-20 MB.

The warning at `App.py:69` reads "File content too short or empty.", which suggests
that an empty text was meant to be warned about. But the test `if extracted_text:` at
`App.py:67` sends an empty string to no branch at all, and the model follows the code.
So an empty `.txt` file, or a PDF whose pdfplumber pages are all blank, shows nothing
(`App.ContentGate`, `App.FailedOrEmptyExtractionShowsNoWarning`,
`App.BlankPdfIsSilent`). A text of whitespace only is non-empty, so it is still warned
about (`App.WhitespaceOnlyTextWarns`).

## Model

| member | source | states |
|---|---|---|
| `PyStr.Strip` | App.py:68 | `strip()` keeps a contiguous piece of the text. Only whitespace lies around it. It is empty iff the text is all whitespace; otherwise it begins and ends with non-whitespace. |
| `PyStr.StripIsUnique` | App.py:68 | Any piece with non-whitespace at both ends and only whitespace around it is the stripped text. |
| `PyStr.StripIgnoresPadding` | App.py:68 | Whitespace added at either end leaves `strip()` unchanged. |
| `PyStr.JoinLines` | App.py:40-47 | `"\n".join` of no parts is `""`. Otherwise the result begins with the first part, and a newline follows it when another part comes after. |
| `PyStr.JoinedNewlines` | App.py:40-47 | For any non-empty list, the join holds the parts' own newlines plus exactly one between each two parts. |
| `PyStr.LowerChar` | App.py:29 | The folded character is never an upper-case ASCII letter. A character is changed iff it is one, and each capital becomes the lower-case letter in the same alphabet position. |
| `PyStr.Lower` | App.py:29 | `lower()` keeps the length and folds each character in place. |
| `PyStr.LowerIsIdempotent` | App.py:29 | Lower-casing an already lower-cased string changes nothing. |
| `PyStr.SplitLines` | App.py:47 | The reference inverse of `"\n".join`: at least one piece, and no piece holds a newline. |
| `PyStr.SplitJoin` | App.py:47 | Splitting the join of a non-empty list of newline-free pieces gives back that list, in order. |
| `PyStr.JoinSplit` | App.py:47 | Joining the pieces of any string with `"\n"` gives back the string. |
| `PyStr.NewlinesSeparatePieces` | App.py:47 | A string holds one newline fewer than the pieces it splits into. |
| `PosixPath.SplitExt` | App.py:29 | `splitext` gives a root and an extension that concatenate to the name. The extension is empty, or a `.` followed by no `.` and no `/`. |
| `PosixPath.SplitExtOfStemAndSuffix` | App.py:29 | Take a stem with no `/` and some character other than `.`, add `.` and a suffix without `.` or `/`. The name splits into exactly that stem and that `.suffix`, whatever dots the stem holds or starts with (`.cv.PDF` gives `.PDF`). |
| `PosixPath.HiddenNameHasNoExtension` | App.py:29 | A name made of one or more dots and then a suffix without `.` or `/`, such as `.pdf` or `..pdf`, has an empty extension. |
| `PosixPath.NameWithoutDotHasNoExtension` | App.py:29 | A name without a `.` has an empty extension. With the two lemmas above, this settles `splitext` for every name without `/`. |
| `Extract.KindOfExtension` | App.py:31-47 | A lower-cased extension selects a strategy iff it is in the fixed list. `.txt` selects text, `.pdf` selects PDF, `.docx` selects DOCX. |
| `Extract.FileKind` | App.py:29-31 | A name is read as text, PDF or DOCX only if its last characters, lower-cased, are `.txt`, `.pdf` or `.docx` respectively. |
| `Extract.NonEmptyPages` | App.py:40 | A PDF strategy keeps a string iff it is non-empty and some page yields it. It keeps no more entries than there are pages. That each page gives at most its own entry, in order, follows from `NonEmptyPagesAppend` with `NonEmptyPagesOfOne`. |
| `Extract.JoinPages` | App.py:40-43 | The assembled PDF text is empty iff every page yields `None` or `""`. |
| `Extract.NoPageKeptIffBlank` | App.py:40 | No page is kept iff every page yields `None` or `""`. |
| `Extract.ExtractPdf` | App.py:37-43 | The PDF branch fails iff both pdfplumber and PyPDF2 raise, and then the fault is an unreadable PDF. When pdfplumber returns, its assembled pages are the text. |
| `Extract.ExtractText` | App.py:27-51 | Extraction fails as "unsupported file type" exactly when the lower-cased `splitext` extension is not supported. |
| `Extract.KindOfDottedName` | App.py:29-32 | For a stem with no `/` and some character other than `.`, `stem.e` is read with the strategy of the lower-cased `.e`. It is supported iff that lower-cased extension is in the list. |
| `Extract.ExtensionCaseIsIgnored` | App.py:29 | Two files with the same bytes, whose names differ only in the letter case of the extension, extract alike. |
| `Extract.ExtractionDependsOnKindAndData` | App.py:27-47 | Two files with the same strategy and the same bytes extract alike, whatever else their names say. |
| `Extract.UpperCasePdfIsPdf` | App.py:29 | A name ending in `.PDF`, such as `CV.PDF` or `.cv.PDF`, is read as a PDF. |
| `Extract.HiddenPdfIsUnsupported` | App.py:29-32 | A file named `.pdf`, `..pdf`, or any other run of dots before `pdf`, is refused as an unsupported file type. |
| `Extract.PlainTextIsDecodedVerbatim` | App.py:34-35 | A `.txt` file yields exactly its decoded text. If decoding raises, extraction fails. |
| `Extract.PdfFallsBackOnlyOnRaise` | App.py:37-43 | If pdfplumber returns, its joined text is the result, even when empty. PyPDF2's text is used only when pdfplumber raised. Both raising is a failure. |
| `Extract.DocxJoinsEveryParagraph` | App.py:45-47 | A `.docx` file yields all its paragraphs joined by newlines. If python-docx raises, extraction fails. |
| `Extract.NonEmptyPagesAppend` | App.py:40 | Dropping empty pages distributes over concatenating page lists, so page order is kept. |
| `Extract.NonEmptyPagesOfOne` | App.py:40 | A single page is kept iff it yields a non-empty text. |
| `Extract.NonEmptyPagesOfBlank` | App.py:40 | A document whose pages yield only `None` or `""` assembles to the empty string. |
| `Extract.PdfPagesAreRecoverable` | App.py:40-43 | Suppose some page is kept and no page text holds a newline. Then splitting the PDF text at newlines gives back exactly the kept pages, in order, each once. |
| `Extract.DocxParagraphsAreRecoverable` | App.py:47 | For newline-free paragraphs, the DOCX text has one newline fewer than paragraphs. Splitting it gives back every paragraph, empty ones included. |
| `Extract.AssembledNewlines` | App.py:40-47 | With no condition on the texts, the PDF text holds the kept pages' own newlines plus one between each two of them. The DOCX text likewise holds the paragraphs' own newlines plus one between each two of them. |
| `Extract.EmptyParagraphKeptEmptyPageDropped` | App.py:40-47 | `["A", "", "B"]` as paragraphs gives `"A\n\nB"`. As PDF pages (with an extra `None` page) it gives `"A\nB"`. |
| `App.Main` | App.py:54-84 | Whatever the upload, readers and model, at most one chat-model call is made. That call is the two-message list for some text. |
| `App.FileSizeMb` | App.py:60 | The size in megabytes is non-negative, and times 1024 * 1024 it is exactly the byte count. |
| `App.Messages` | App.py:74-77 | Two messages: the system message holds the extracted text verbatim, and the human message holds "Generate customized interview questions.". |
| `App.Generate` | App.py:79-84 | The step is a call with the text's two messages, then one effect. That effect is the API error iff the model raises; when the model answers, it is the answer's content. |
| `App.GenerateShowsCallAndOutcome` | App.py:79-84 | The generation step shows only the call and its outcome, never a banner or a warning. |
| `App.ContentGate` | App.py:67-84 | After extraction, nothing is shown iff the text is `""`. The "too short" warning is shown iff the text is non-empty and strips to fewer than 100 characters. The success banner is shown iff it strips to at least 100. |
| `App.GenerateCalls` | App.py:74-80 | The generation step makes exactly one call, with the system text message and the human instruction message, and shows no warning. |
| `App.ContentGateCalls` | App.py:67-80 | After extraction, the model is called once with the text's two messages iff a text was extracted whose stripped length is at least 100. Otherwise it is not called. |
| `App.SizeGateIsByteCount` | App.py:60-61 | The megabyte test `len / 2^20 > 5` holds iff the byte count exceeds 5 * 1024 * 1024. |
| `App.OversizedFileStopsBeforeExtraction` | App.py:59-63 | A file over 5 MB yields the size warning and nothing else, whatever its name, content, readers or model. |
| `App.ContentGateHasNoSizeWarning` | App.py:65-84 | Nothing after the size gate shows the size warning. |
| `App.SizeWarningIffOversized` | App.py:60-65 | The size warning appears iff the file exceeds 5 MB. A file of at most 5 MB, exactly 5 MB included, goes on to extraction and the content gate. |
| `App.UnsupportedFileIsRefused` | App.py:29-51 | An unsupported extension shows only the "unsupported file type" read error, and the model is not called. |
| `App.FailedOrEmptyExtractionShowsNoWarning` | App.py:49-67 | A failed extraction shows only its read error. An empty extracted text shows nothing: no warning and no call. |
| `App.ShortTextWarns` | App.py:67-69 | A non-empty text whose stripped length is below 100 shows only the "too short" warning. |
| `App.WhitespaceOnlyTextWarns` | App.py:67-69 | A non-empty all-whitespace text is warned about. The empty text is not. |
| `App.PaddingDoesNotCount` | App.py:68-69 | A text that is too short stays too short however much whitespace surrounds it. |
| `App.ModelCalledIffTextLongEnough` | App.py:59-80 | One call is made iff the file is at most 5 MB, extraction yields a text, and its stripped length is at least 100. The call is then `[System(unstripped text), Human("Generate customized interview questions.")]`. |
| `App.GenerationOutcome` | App.py:70-84 | If the call raises, the run ends with the API error and no output area is shown. If it answers, the run ends by showing exactly the answer's content. Neither shows a warning. |
| `App.BlankPdfIsSilent` | App.py:38-67 | A PDF that pdfplumber reads without raising, but whose pages are all blank, shows nothing, whatever PyPDF2 would have read. |

## Left out

- The Streamlit page itself is not modelled: the title, the uploader widget and its own extension filter, and the formatting of the banners and text areas. These are presentation. The banners, the two text areas and the model call appear only as `Effect` tags, and an exception's message is reduced to the step that raised (`Extract.Fault`).
- PDF, DOCX and UTF-8 decoding (pdfplumber, PyPDF2, python-docx, `bytes.decode`) are foreign libraries. They are function parameters that return a value or raise. Each page's `extract_text()` is assumed to give the same answer both times the source calls it.
- PyPDF2 is modelled as reading the file's full bytes. The model does not capture where the stream stands after pdfplumber has read it.
- The chat-model client and `model.invoke` are a network call, modelled as a function parameter that answers with a text or raises. Timeouts and retries inside the client are not modelled.
- The startup credential check, the `st.stop()` it triggers and the telemetry variable are environment plumbing that runs before any upload.
- The float division of the size gate is modelled over exact reals. The argument above shows that the verdict is the same.
- `PyStr.Lower`: only ASCII letters are folded; Python's full Unicode `lower()` is not modelled. No non-ASCII character lowers to a string spelling `.txt`, `.pdf` or `.docx`, so membership in the supported list is unaffected.
- `PosixPath.SplitExt`: only the POSIX `splitext` is modelled. On Windows, `\` and drive letters would also separate path components. Its own contract does not say which dot starts the extension when the result is empty. The lemmas `SplitExtOfStemAndSuffix`, `HiddenNameHasNoExtension` and `NameWithoutDotHasNoExtension` pin it down for every name without `/`. For a name with a directory part, only the function body fixes the split.
- `App.Main` models one run of the script. Streamlit re-runs `main()` on every widget interaction. Editing the "Extracted Text" area (`App.py:72`) therefore calls the chat model again for the same upload, but the model says nothing about a sequence of runs.
- Exceptions that are not `Exception`s, such as `KeyboardInterrupt`, are not modelled. They escape `except Exception`; PyPDF2 raising one is the only such escape from the PDF branch.
