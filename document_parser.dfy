/**
 * The document parser (document_parser.py): a PDF is read with pdfplumber
 * and, when that text looks like gibberish, with OCR; a DOCX is read
 * paragraph by paragraph and cell by cell; anything else fails.
 *
 * pdfplumber, pdf2image, Tesseract and python-docx are oracles: the model
 * takes what they produced per page (or per paragraph and cell) and models
 * the joining, the text-quality gate and the order in which the candidates
 * are tried. For pdfplumber a None page is a page with no text, and a raise
 * anywhere makes the whole reading None; for OCR a None page is one that
 * raised, and only that page is skipped.
 */
module DocumentParser {
  import opened Text

  /** OCR_CONFIG["min_text_length"] and OCR_CONFIG["min_words_per_page"] in config.py. */
  const MIN_TEXT_LENGTH: int := 50
  const MIN_WORDS_PER_PAGE: int := 20

  /** The words whose presence marks English text; any two of them must occur. */
  const CommonWords: seq<string> := ["the", "and", "to", "of", "a", "in", "is", "for", "with", "on",
    "experience", "work", "education", "skills", "name", "email", "phone", "address", "university",
    "company", "manager", "developer"]

  /** The outcome of a call that may raise. */
  datatype Outcome<T> = Returned(value: T) | Raised(error: string)

  // ---------------------------------------------------------------------------
  // _is_meaningful_text
  // ---------------------------------------------------------------------------

  /** sum(len(w) for w in words) */
  function TotalLength(ws: seq<string>): (r: nat)
    ensures (forall k :: 0 <= k < |ws| ==> ws[k] != []) ==> r >= |ws|
  {
    if ws == [] then 0 else TotalLength(ws[..|ws| - 1]) + |ws[|ws| - 1]|
  }

  /** sum(1 for c in text if c.isalpha()) */
  function AlphaCount(s: string): (r: nat)
    ensures r <= |s|
  {
    if s == [] then 0 else AlphaCount(s[..|s| - 1]) + (if IsAlpha(s[|s| - 1]) then 1 else 0)
  }

  /** The number of the given words that occur somewhere in t. */
  function CommonFound(t: string, ws: seq<string>): (r: nat)
    ensures r <= |ws|
  {
    if ws == [] then 0 else CommonFound(t, ws[..|ws| - 1]) + (if Contains(t, ws[|ws| - 1]) then 1 else 0)
  }

  /**
   * The five checks of _is_meaningful_text on the stripped text t: at
   * least minLen characters, at least minWords words, an average word
   * length in [2, 15], at least 40% letters, at least two common words.
   * The average and the ratio are compared as exact fractions.
   */
  predicate PassesChecks(t: string, minLen: int, minWords: int) {
    var ws := Words(t);
    |t| >= minLen && |ws| >= minWords && |ws| > 0
    && 2 * |ws| <= TotalLength(ws) <= 15 * |ws|
    && 5 * AlphaCount(t) >= 2 * |t|
    && CommonFound(Lower(t), CommonWords) >= 2
  }

  /**
   * _is_meaningful_text: False for "", else the checks above on the
   * stripped text; dividing by a word count of zero raises, which only a
   * blank text with non-positive thresholds reaches.
   */
  function MeaningfulText(text: string, minLen: int, minWords: int): (r: Outcome<bool>)
    ensures text == [] ==> r == Returned(false)
    ensures r == Returned(true) <==> text != [] && PassesChecks(Strip(text), minLen, minWords)
    ensures r.Raised? ==> text != [] && Strip(text) == [] && minLen <= 0 && minWords <= 0
  {
    if text == [] then Returned(false)
    else
      var t := Strip(text);
      if |t| < minLen then Returned(false)
      else
        var ws := Words(t);
        if |ws| < minWords then Returned(false)
        else if ws == [] then Raised("ZeroDivisionError")
        else
          var total := TotalLength(ws);
          if total < 2 * |ws| || total > 15 * |ws| then Returned(false)
          else if 5 * AlphaCount(t) < 2 * |t| then Returned(false)
          else Returned(CommonFound(Lower(t), CommonWords) >= 2)
  }

  /** Whitespace around a text does not change the verdict (for a positive length threshold). */
  lemma MeaningfulIgnoresSurroundingSpace(text: string, minLen: int, minWords: int)
    requires minLen > 0
    ensures MeaningfulText(Strip(text), minLen, minWords) == MeaningfulText(text, minLen, minWords)
  {
    StripIdempotent(text);
  }

  // ---------------------------------------------------------------------------
  // The extractors' own joining of pages
  // ---------------------------------------------------------------------------

  /** The pages pdfplumber returned text for, in order. */
  function PagesWithText(pages: seq<Option<string>>): (r: seq<string>)
    ensures |r| <= |pages|
    ensures forall k :: 0 <= k < |r| ==> r[k] != []
  {
    if pages == [] then []
    else
      var rest := PagesWithText(pages[..|pages| - 1]);
      var p := pages[|pages| - 1];
      if p.Some? && p.value != [] then rest + [p.value] else rest
  }

  /**
   * _extract_with_pdfplumber: the pages with text joined by blank lines;
   * None when that is blank or when opening the file raised (pages None).
   */
  function PlumberText(pages: Option<seq<Option<string>>>): (r: Option<string>)
    ensures r.Some? ==> Strip(r.value) != []
    ensures pages.None? ==> r.None?
  {
    if pages.None? then None
    else
      var combined := Join("\n\n", PagesWithText(pages.value));
      if Strip(combined) != [] then Some(combined) else None
  }

  /** The stripped texts of the pages OCR read something on (None: the page raised). */
  function OcrPages(pages: seq<Option<string>>): (r: seq<string>)
    ensures |r| <= |pages|
    ensures forall k :: 0 <= k < |r| ==> Strip(r[k]) == r[k] && r[k] != []
  {
    if pages == [] then []
    else
      var rest := OcrPages(pages[..|pages| - 1]);
      var p := pages[|pages| - 1];
      if p.Some? && Strip(p.value) != [] then
        StripIdempotent(p.value);
        rest + [Strip(p.value)]
      else rest
  }

  /**
   * _parse_pdf_with_ocr: the pages' stripped texts joined by blank lines;
   * None when that is blank, when pdf2image is missing or when converting
   * the pages raised (pages None).
   */
  function OcrText(pages: Option<seq<Option<string>>>): (r: Option<string>)
    ensures r.Some? ==> Strip(r.value) != []
    ensures pages.None? ==> r.None?
  {
    if pages.None? then None
    else
      var combined := Join("\n\n", OcrPages(pages.value));
      if Strip(combined) != [] then Some(combined) else None
  }

  /** A one-page PDF whose page has text gives that text unchanged through pdfplumber, and stripped through OCR. */
  lemma SinglePage(t: string)
    requires Strip(t) != []
    ensures PlumberText(Some([Some(t)])) == Some(t)
    ensures OcrText(Some([Some(t)])) == Some(Strip(t))
  {
    assert [Some(t)][..0] == [];
    assert t != [];
    StripIdempotent(t);
  }

  // ---------------------------------------------------------------------------
  // _parse_pdf, _parse_docx and parse
  // ---------------------------------------------------------------------------

  /** The extraction method parse reports: "pdfplumber", "ocr", "docx" or "failed". */
  datatype Method = PdfPlumber | Ocr | Docx | Failed

  /** What a meaningful candidate is: text that passes the quality gate. */
  predicate Meaningful(t: Option<string>, minLen: int, minWords: int) {
    t.Some? && MeaningfulText(t.value, minLen, minWords) == Returned(true)
  }

  /**
   * _parse_pdf: meaningful pdfplumber text; else, with the fallback
   * enabled, meaningful OCR text; else any pdfplumber text; else failure.
   * A gate that raised on the pdfplumber text is caught and counts as not
   * meaningful.
   */
  function ParsePdf(plumberPages: Option<seq<Option<string>>>, ocrPages: Option<seq<Option<string>>>,
                    fallback: bool, minLen: int, minWords: int): (r: (Option<string>, Method))
    ensures r.0.Some? <==> r.1 != Failed
    ensures r.1 == PdfPlumber || r.1 == Ocr || r.1 == Failed
    ensures r.0.Some? ==> Strip(r.0.value) != []
    ensures r.1 == PdfPlumber ==> r.0 == PlumberText(plumberPages)
    ensures r.1 == Ocr ==> r.0 == OcrText(ocrPages) && fallback && Meaningful(r.0, minLen, minWords)
                           && !Meaningful(PlumberText(plumberPages), minLen, minWords)
    ensures r.1 == Failed <==> PlumberText(plumberPages).None?
                               && !(fallback && Meaningful(OcrText(ocrPages), minLen, minWords))
  {
    var plumber := PlumberText(plumberPages);
    if Meaningful(plumber, minLen, minWords) then (plumber, PdfPlumber)
    else
      var ocr := OcrText(ocrPages);
      if fallback && ocr.Some? && MeaningfulText(ocr.value, minLen, minWords) == Returned(true) then (ocr, Ocr)
      else if plumber.Some? && Strip(plumber.value) != [] then (plumber, PdfPlumber)
      else (None, Failed)
  }

  /**
   * The text returned is meaningful whenever a meaningful candidate was
   * available: a text that fails the gate is returned only when neither
   * candidate passed it.
   */
  lemma ParsePdfPrefersMeaningful(plumberPages: Option<seq<Option<string>>>, ocrPages: Option<seq<Option<string>>>,
                                  fallback: bool, minLen: int, minWords: int)
    ensures var r := ParsePdf(plumberPages, ocrPages, fallback, minLen, minWords);
            !Meaningful(r.0, minLen, minWords) ==>
              !Meaningful(PlumberText(plumberPages), minLen, minWords)
              && !(fallback && Meaningful(OcrText(ocrPages), minLen, minWords))
  {
  }

  /** With the fallback disabled, OCR is never the answer. */
  lemma NoFallbackNoOcr(plumberPages: Option<seq<Option<string>>>, ocrPages: Option<seq<Option<string>>>,
                        minLen: int, minWords: int)
    ensures ParsePdf(plumberPages, ocrPages, false, minLen, minWords).1 != Ocr
    ensures ParsePdf(plumberPages, ocrPages, false, minLen, minWords).0 == PlumberText(plumberPages)
  {
  }

  /** Paragraph and cell texts that are not blank. */
  function NonBlank(xs: seq<string>): (r: seq<string>)
    ensures |r| <= |xs|
    ensures forall k :: 0 <= k < |r| ==> Strip(r[k]) != []
  {
    if xs == [] then []
    else
      var rest := NonBlank(xs[..|xs| - 1]);
      var x := xs[|xs| - 1];
      if Strip(x) != [] then rest + [x] else rest
  }

  /**
   * _parse_docx: the non-blank paragraphs, then the non-blank table cells,
   * one per line; failure when that is blank or reading raised (None).
   */
  function ParseDocx(doc: Option<(seq<string>, seq<string>)>): (r: (Option<string>, Method))
    ensures r.0.Some? <==> r.1 == Docx
    ensures r.1 == Docx || r.1 == Failed
    ensures r.0.Some? ==> Strip(r.0.value) != []
  {
    if doc.None? then (None, Failed)
    else
      var combined := Join("\n", NonBlank(doc.value.0) + NonBlank(doc.value.1));
      if Strip(combined) != [] then (Some(combined), Docx) else (None, Failed)
  }

  /** A document with nothing but blank paragraphs and cells fails. */
  lemma EmptyDocxFails(paragraphs: seq<string>, cells: seq<string>)
    requires forall k :: 0 <= k < |paragraphs| ==> Strip(paragraphs[k]) == []
    requires forall k :: 0 <= k < |cells| ==> Strip(cells[k]) == []
    ensures ParseDocx(Some((paragraphs, cells))) == (None, Failed)
  {
    NoneKept(paragraphs);
    NoneKept(cells);
  }

  lemma {:induction false} NoneKept(xs: seq<string>)
    requires forall k :: 0 <= k < |xs| ==> Strip(xs[k]) == []
    ensures NonBlank(xs) == []
  {
    if xs != [] {
      NoneKept(xs[..|xs| - 1]);
    }
  }

  /** PurePath.suffix: from the last dot of the name, unless the dot is its first or last character. */
  function Suffix(path: string): (r: string)
    ensures r == [] || (|r| >= 2 && r[0] == '.' && '.' !in r[1..] && EndsWith(BaseName(path), r))
  {
    var name := BaseName(path);
    var i := LastIndexOf(name, '.');
    if 0 < i < |name| - 1 then
      assert forall k :: 1 <= k < |name[i..]| ==> name[i..][k] == name[i + k];
      name[i..]
    else []
  }

  /** What the three extractors produced for a file. */
  datatype Extractions = Extractions(plumberPages: Option<seq<Option<string>>>, ocrPages: Option<seq<Option<string>>>,
                                     docx: Option<(seq<string>, seq<string>)>)

  /**
   * parse: a missing file fails; the lower-cased suffix picks the reader:
   * ".pdf" the PDF ladder, ".docx" or ".doc" the DOCX reader; any other
   * suffix fails.
   */
  function Parse(found: bool, path: string, x: Extractions, fallback: bool, minLen: int, minWords: int)
    : (r: (Option<string>, Method))
    ensures !found ==> r == (None, Failed)
    ensures found && Lower(Suffix(path)) == ".pdf" ==> r == ParsePdf(x.plumberPages, x.ocrPages, fallback, minLen, minWords)
    ensures found && Lower(Suffix(path)) in [".docx", ".doc"] ==> r == ParseDocx(x.docx)
    ensures Lower(Suffix(path)) !in [".pdf", ".docx", ".doc"] ==> r == (None, Failed)
  {
    if !found then (None, Failed)
    else
      var ext := Lower(Suffix(path));
      if ext == ".pdf" then ParsePdf(x.plumberPages, x.ocrPages, fallback, minLen, minWords)
      else if ext in [".docx", ".doc"] then ParseDocx(x.docx)
      else (None, Failed)
  }

  /** The suffix keeps its case, and parse lower-cases it: "CV.PDF" is read as a PDF. */
  lemma UpperCaseSuffix()
    ensures Suffix("cv/CV.PDF") == ".PDF"
  {
    LastIndexIs("cv/CV.PDF", '/', 2);
    assert BaseName("cv/CV.PDF") == "CV.PDF";
    LastIndexIs("CV.PDF", '.', 2);
  }

  /** A name whose only dot is its first character has no suffix: ".pdf" is unsupported. */
  lemma HiddenNameNoSuffix()
    ensures Suffix("cv/.pdf") == []
  {
    LastIndexIs("cv/.pdf", '/', 2);
    assert BaseName("cv/.pdf") == ".pdf";
    LastIndexIs(".pdf", '.', 0);
  }

  /** A name without a dot has no suffix. */
  lemma BareNameNoSuffix()
    ensures Suffix("resume") == []
  {
    assert '/' !in "resume" && '.' !in "resume";
  }
}
