/**
 * The document pipeline (`process_document`): text extraction by MIME type,
 * the page loop of `_extract_text_from_pdf`, the blank-text short-circuit,
 * the recognizer check and the assembly of the response.
 *
 * The OCR engine and the PDF rasteriser are not modelled: their outcomes are
 * inputs (one `PageOcr` per page, or the converter's failure; the image's
 * text, or the reader's failure), and so are the recognizer's spans.
 */
module Pipeline {
  import opened Results
  import opened Text
  import opened Catalog
  import opened Dates
  import opened Duplicates
  import opened Extraction

  /** What the OCR engine made of one page: its text, or a failure. */
  datatype PageOcr = PageText(text: string) | PageError(cause: string)

  /** The marker appended after the text of every page that was read. */
  const PageEnd: string := "\n\n--- Fim da P\U{E1}gina --- \n\n"

  /** The marker standing for a page the OCR engine failed on, naming it by its 1-based number. */
  function PageErrorMarker(n: nat): string {
    "\n\n--- Erro ao ler a P\U{E1}gina " + NatToString(n) + " ---\n\n"
  }

  /** What page i (0-based) contributes to the text of the PDF. */
  function PageChunk(page: PageOcr, i: nat): string {
    match page
    case PageText(t) => t + PageEnd
    case PageError(_) => PageErrorMarker(i + 1)
  }

  /** The text of a PDF: the chunks of its pages, in page order. */
  function PagesText(pages: seq<PageOcr>): string {
    if pages == [] then []
    else PagesText(pages[..|pages| - 1]) + PageChunk(pages[|pages| - 1], |pages| - 1)
  }

  /** Why a document could not be processed: each `raise` of `process_document`. */
  datatype Failure =
    | UnsupportedType(mimeType: string)
    | PdfConversionFailed(cause: string)
    | ImageReadFailed(cause: string)
    | RecognizerUnavailable

  /** `_extract_text_from_pdf`, given the converter's outcome. */
  function PdfText(conversion: Result<seq<PageOcr>, string>): Result<string, Failure> {
    match conversion
    case Failure(cause) => Failure(PdfConversionFailed(cause))
    case Success(pages) => Success(PagesText(pages))
  }

  /** `_extract_text_from_pdf`: the page loop appending to `full_text`. */
  method ExtractTextFromPdf(conversion: Result<seq<PageOcr>, string>) returns (r: Result<string, Failure>)
    ensures r == PdfText(conversion)
  {
    if conversion.Failure? {
      return Failure(PdfConversionFailed(conversion.error));
    }
    var images := conversion.value;
    var fullText := "";
    for i := 0 to |images|
      invariant fullText == PagesText(images[..i])
    {
      assert images[..i + 1][..i] == images[..i];
      match images[i]
      case PageText(pageText) =>
        fullText := fullText + (pageText + PageEnd);
      case PageError(_) =>
        fullText := fullText + PageErrorMarker(i + 1);
    }
    assert images[..|images|] == images;
    r := Success(fullText);
  }

  /** The outcomes of the external readers for one document. */
  datatype OcrOutput = OcrOutput(pdfPages: Result<seq<PageOcr>, string>, imageText: Result<string, string>)

  /** The entity recognizer: not loaded, or loaded and reporting these spans on the extracted text. */
  datatype Recognizer = Unavailable | Available(spans: seq<Span>)

  /** The response record: optional file name, the extracted text, the entities. */
  datatype ExtractionResponse = ExtractionResponse(fileName: Option<string>, rawText: string, entities: seq<Entity>)

  const PdfType: string := "application/pdf"

  predicate IsImageType(mimeType: string) {
    mimeType == "image/png" || mimeType == "image/jpeg" || mimeType == "image/tiff"
  }

  predicate IsSupported(mimeType: string) {
    mimeType == PdfType || IsImageType(mimeType)
  }

  /** The MIME dispatch of `process_document`. */
  function ExtractText(mimeType: string, ocr: OcrOutput): Result<string, Failure> {
    if mimeType == PdfType then PdfText(ocr.pdfPages)
    else if IsImageType(mimeType) then
      match ocr.imageText
      case Success(t) => Success(t)
      case Failure(cause) => Failure(ImageReadFailed(cause))
    else Failure(UnsupportedType(mimeType))
  }

  /** `process_document`: what it returns, or the error it raises. */
  function Process(mimeType: string, fileName: Option<string>, ocr: OcrOutput, recognizer: Recognizer): Result<ExtractionResponse, Failure> {
    match ExtractText(mimeType, ocr)
    case Failure(e) => Failure(e)
    case Success(rawText) =>
      if IsBlank(rawText) then Success(ExtractionResponse(None, "", []))
      else
        match recognizer
        case Unavailable => Failure(RecognizerUnavailable)
        case Available(spans) => Success(ExtractionResponse(fileName, rawText, ExtractEntities(rawText, spans)))
  }

  /** `process_document`, step by step: dispatch, blank check, recognizer check, extraction, response. */
  method ProcessDocument(mimeType: string, fileName: Option<string>, ocr: OcrOutput, recognizer: Recognizer)
    returns (r: Result<ExtractionResponse, Failure>)
    ensures r == Process(mimeType, fileName, ocr, recognizer)
  {
    var rawText := "";
    if mimeType == PdfType {
      var pdf := ExtractTextFromPdf(ocr.pdfPages);
      if pdf.Failure? {
        return Failure(pdf.error);
      }
      rawText := pdf.value;
    } else if IsImageType(mimeType) {
      if ocr.imageText.Failure? {
        return Failure(ImageReadFailed(ocr.imageText.error));
      }
      rawText := ocr.imageText.value;
    } else {
      return Failure(UnsupportedType(mimeType));
    }
    StripEmptyIffBlank(rawText);
    if Strip(rawText) == [] {
      return Success(ExtractionResponse(None, "", []));
    }
    if recognizer.Unavailable? {
      return Failure(RecognizerUnavailable);
    }
    var entities := ExtractEntitiesFromText(rawText, recognizer.spans);
    r := Success(ExtractionResponse(fileName, rawText, entities));
  }

  /** One page's chunk always holds a dash of its marker. */
  lemma ChunkNotBlank(page: PageOcr, i: nat)
    ensures !IsBlank(PageChunk(page, i))
  {
    match page
    case PageText(t) =>
      assert (t + PageEnd)[|t| + 4] == PageEnd[4] == '-';
    case PageError(_) =>
      var m := PageErrorMarker(i + 1);
      assert m[2] == '-';
  }

  lemma AppendNotBlank(a: string, b: string)
    requires !IsBlank(b)
    ensures !IsBlank(a + b)
  {
    var k :| 0 <= k < |b| && !IsSpace(b[k]);
    assert (a + b)[|a| + k] == b[k];
  }

  /** Every page leaves a non-whitespace mark, so the text of a PDF with a page is never blank. */
  lemma PagesTextNotBlank(pages: seq<PageOcr>)
    requires pages != []
    ensures !IsBlank(PagesText(pages))
  {
    var n := |pages| - 1;
    ChunkNotBlank(pages[n], n);
    AppendNotBlank(PagesText(pages[..n]), PageChunk(pages[n], n));
  }

  lemma PrefixOfAppend(a: string, b: string, c: string)
    requires a <= b
    ensures a <= b + c
  {
    assert (b + c)[..|a|] == b[..|a|];
  }

  lemma PagesTextStep(pages: seq<PageOcr>)
    requires pages != []
    ensures PagesText(pages) == PagesText(pages[..|pages| - 1]) + PageChunk(pages[|pages| - 1], |pages| - 1)
  {
  }

  /** Pages are written in page order: the text up to page i, then page i's chunk, starts the PDF's text. */
  lemma {:induction false} PagesTextPrefix(pages: seq<PageOcr>, i: nat)
    requires i < |pages|
    ensures PagesText(pages[..i]) + PageChunk(pages[i], i) <= PagesText(pages)
    decreases |pages|
  {
    var n := |pages| - 1;
    var prefix := pages[..n];
    PagesTextStep(pages);
    if i < n {
      PagesTextPrefix(prefix, i);
      assert prefix[..i] == pages[..i] && prefix[i] == pages[i];
      PrefixOfAppend(PagesText(pages[..i]) + PageChunk(pages[i], i), PagesText(prefix), PageChunk(pages[n], n));
    } else {
      assert prefix == pages[..i];
    }
  }

  /** The unsupported-type error is raised exactly for a MIME type outside the four supported ones. */
  lemma UnsupportedTypeIff(mimeType: string, fileName: Option<string>, ocr: OcrOutput, recognizer: Recognizer)
    ensures Process(mimeType, fileName, ocr, recognizer) == Failure(UnsupportedType(mimeType)) <==> !IsSupported(mimeType)
  {
  }

  /**
   * Blank extracted text yields an empty response with no file name and no
   * entities, whatever the recognizer, available or not.
   */
  lemma BlankShortCircuit(mimeType: string, fileName: Option<string>, ocr: OcrOutput, recognizer: Recognizer)
    requires ExtractText(mimeType, ocr).Success? && IsBlank(ExtractText(mimeType, ocr).value)
    ensures Process(mimeType, fileName, ocr, recognizer) == Success(ExtractionResponse(None, "", []))
  {
  }

  /** Without the recognizer, processing fails exactly when the text was read and is not blank. */
  lemma NoRecognizerIff(mimeType: string, fileName: Option<string>, ocr: OcrOutput)
    ensures Process(mimeType, fileName, ocr, Unavailable) == Failure(RecognizerUnavailable)
      <==> ExtractText(mimeType, ocr).Success? && !IsBlank(ExtractText(mimeType, ocr).value)
  {
  }

  /** A PDF with at least one page always reaches the recognizer: without it, processing fails. */
  lemma PdfWithPagesNeedsRecognizer(pages: seq<PageOcr>, imageText: Result<string, string>, fileName: Option<string>)
    requires pages != []
    ensures Process(PdfType, fileName, OcrOutput(Success(pages), imageText), Unavailable) == Failure(RecognizerUnavailable)
  {
    PagesTextNotBlank(pages);
  }

  /**
   * A response is either the empty one of the blank short-circuit, or carries
   * the caller's file name, the non-blank extracted text and its entities,
   * which are well formed and have distinct keys.
   */
  lemma ProcessResponse(mimeType: string, fileName: Option<string>, ocr: OcrOutput, recognizer: Recognizer)
    requires Process(mimeType, fileName, ocr, recognizer).Success?
    ensures var resp := Process(mimeType, fileName, ocr, recognizer).value;
      && IsSupported(mimeType)
      && ExtractText(mimeType, ocr).Success?
      && (resp == ExtractionResponse(None, "", [])
          || (resp.fileName == fileName && resp.rawText == ExtractText(mimeType, ocr).value && !IsBlank(resp.rawText)))
      && (forall e :: e in resp.entities ==> IsRecognizerEntity(e) || IsDateEntity(e))
      && DistinctKeys(resp.entities)
  {
    var raw := ExtractText(mimeType, ocr).value;
    if !IsBlank(raw) {
      ExtractedWellFormed(raw, recognizer.spans);
    }
  }
}
