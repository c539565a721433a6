/** Full-text extraction from a local PDF. Opening and parsing the file belong
    to the PDF library; the model receives what it reports: the file could not
    be opened or parsed at all, or the document's pages in order, each with the
    text extracted from it (possibly none) or the failure raised while
    extracting it. */
module PdfText {
  import opened Api
  import opened Strings

  /** What extracting the text of one page gives. */
  datatype PageOutcome = Extracted(text: Option<string>) | Raised(reason: string)

  /** What opening and parsing the file gives. */
  datatype PdfFile = Unreadable(reason: string) | Document(pages: seq<PageOutcome>)

  /** What reading a run of pages gives: their text, or the reason of the
      failure that stopped the reading. */
  datatype TextOutcome = Text(text: string) | Failure(reason: string)

  /** The message for any failure to read the file, naming the path tried. */
  function ReadError(reason: string, pdfPath: string): (msg: string)
    ensures |msg| == |"Error reading PDF: "| + |reason| + |" (Path: " + pdfPath + ")"|
    ensures StartsWith(msg, "Error reading PDF: ")
    ensures EndsWith(msg, " (Path: " + pdfPath + ")")
    ensures msg[|"Error reading PDF: "|..|msg| - |" (Path: " + pdfPath + ")"|] == reason
  {
    "Error reading PDF: " + reason + " (Path: " + pdfPath + ")"
  }

  /** What a page adds to the text: nothing when it yields no text. */
  function PageText(t: Option<string>): string {
    t.Get("")
  }

  /** `text` in front of a successful outcome; a failure stays as it is. */
  function Prepend(text: string, r: TextOutcome): TextOutcome {
    match r
    case Text(s) => Text(text + s)
    case Failure(e) => Failure(e)
  }

  /** Putting nothing in front changes nothing. */
  lemma PrependNothing(r: TextOutcome)
    ensures Prepend("", r) == r
  {
    if r.Text? {
      assert "" + r.text == r.text;
    }
  }

  /** Putting two texts in front, one after the other, is putting their
      concatenation in front. */
  lemma PrependTwice(a: string, b: string, r: TextOutcome)
    ensures Prepend(a, Prepend(b, r)) == Prepend(a + b, r)
  {
    if r.Text? {
      assert a + (b + r.text) == (a + b) + r.text;
    }
  }

  /** Reference meaning of reading the pages in document order: the
      concatenated page texts, or the reason of the first page whose
      extraction raised. */
  function PagesOutcome(pages: seq<PageOutcome>): TextOutcome
    decreases |pages|
  {
    if |pages| == 0 then Text("")
    else match pages[0]
      case Raised(e) => Failure(e)
      case Extracted(t) => Prepend(PageText(t), PagesOutcome(pages[1..]))
  }

  /** The tool's answer for a file: its text, or the read-error message. */
  function ExtractionText(file: PdfFile, pdfPath: string): string {
    match file
    case Unreadable(e) => ReadError(e, pdfPath)
    case Document(pages) =>
      match PagesOutcome(pages)
      case Text(text) => text
      case Failure(e) => ReadError(e, pdfPath)
  }

  /** The page texts, one per page, when no page raised. */
  function PageTexts(pages: seq<PageOutcome>): (texts: seq<string>)
    requires forall k :: 0 <= k < |pages| ==> pages[k].Extracted?
    ensures |texts| == |pages|
  {
    seq(|pages|, k requires 0 <= k < |pages| => PageText(pages[k].text))
  }

  /** When every page yields (possibly no) text, the outcome is the page
      texts concatenated in page order. */
  lemma {:induction false} AllPagesExtracted(pages: seq<PageOutcome>)
    requires forall k :: 0 <= k < |pages| ==> pages[k].Extracted?
    ensures PagesOutcome(pages) == Text(Concat(PageTexts(pages)))
    decreases |pages|
  {
    if |pages| > 0 {
      AllPagesExtracted(pages[1..]);
      assert PageTexts(pages)[1..] == PageTexts(pages[1..]);
    }
  }

  /** A page that raises ends the reading: its reason is the outcome, whatever
      the later pages hold. */
  lemma {:induction false} FirstRaisedPageDecides(pages: seq<PageOutcome>, k: nat)
    requires k < |pages| && pages[k].Raised?
    requires forall j :: 0 <= j < k ==> pages[j].Extracted?
    ensures PagesOutcome(pages) == Failure(pages[k].reason)
    decreases k
  {
    if k > 0 {
      FirstRaisedPageDecides(pages[1..], k - 1);
    }
  }

  /** Reading the pages one after another: the outcome of a document split in
      two is the first part's text in front of the second part's outcome,
      unless the first part already failed. */
  lemma {:induction false} PagesOutcomeAppend(a: seq<PageOutcome>, b: seq<PageOutcome>)
    ensures PagesOutcome(a + b) ==
      match PagesOutcome(a)
      case Text(t) => Prepend(t, PagesOutcome(b))
      case Failure(e) => Failure(e)
    decreases |a|
  {
    if |a| == 0 {
      assert a + b == b;
      match PagesOutcome(b)
      case Text(s) => assert "" + s == s;
      case Failure(_) =>
    } else {
      assert (a + b)[0] == a[0];
      assert (a + b)[1..] == a[1..] + b;
      PagesOutcomeAppend(a[1..], b);
      match a[0]
      case Raised(_) =>
      case Extracted(t) =>
        match PagesOutcome(a[1..])
        case Failure(_) =>
        case Text(rest) =>
          PrependTwice(PageText(t), rest, PagesOutcome(b));
    }
  }

  /** Models the `with open(...)` block: walk the pages in order, appending
      each page's text (or nothing), and turn any failure into the
      read-error message naming the path. */
  method ExtractText(file: PdfFile, pdfPath: string) returns (text: string)
    ensures text == ExtractionText(file, pdfPath)
    ensures file.Unreadable? ==>
      StartsWith(text, "Error reading PDF: ") && EndsWith(text, " (Path: " + pdfPath + ")")
    ensures file.Document? && (forall k :: 0 <= k < |file.pages| ==> file.pages[k].Extracted?) ==>
      text == Concat(PageTexts(file.pages))
  {
    match file
    case Unreadable(e) =>
      text := ReadError(e, pdfPath);
    case Document(pages) =>
      text := "";
      var i := 0;
      assert pages[0..] == pages;
      PrependNothing(PagesOutcome(pages));
      while i < |pages|
        invariant 0 <= i <= |pages|
        invariant forall j :: 0 <= j < i ==> pages[j].Extracted?
        invariant PagesOutcome(pages) == Prepend(text, PagesOutcome(pages[i..]))
      {
        match pages[i]
        case Raised(e) =>
          text := ReadError(e, pdfPath);
          return;
        case Extracted(t) =>
          assert pages[i..][1..] == pages[i + 1..];
          PrependTwice(text, PageText(t), PagesOutcome(pages[i + 1..]));
          text := text + PageText(t);
        i := i + 1;
      }
      assert pages[i..] == [];
      assert text + "" == text;
      if forall k :: 0 <= k < |pages| ==> pages[k].Extracted? {
        AllPagesExtracted(pages);
      }
  }
}
