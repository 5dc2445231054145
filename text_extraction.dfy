/** Text extraction from uploaded files: the MIME type is guessed from the
    path, only five types are understood, each goes to its own reader, and
    whatever a reader returns has its whitespace normalised.
    The readers themselves (PDF parsing, DOCX unpacking, reading a UTF-8
    file, OCR) and the extension-to-type table are function parameters. */
module TextExtraction {
  import opened Wrappers
  import opened JsStrings

  const Pdf: string := "application/pdf"
  const Docx: string := "application/vnd.openxmlformats-officedocument.wordprocessingml.document"
  const TextPlain: string := "text/plain"
  const Jpeg: string := "image/jpeg"
  const Png: string := "image/png"
  const OctetStream: string := "application/octet-stream"

  /** The types `extractText` can read, in the order the source lists them. */
  const SupportedMimeTypes: seq<string> := [Pdf, Docx, TextPlain, Jpeg, Png]

  predicate IsSupportedMimeType(mime: string) {
    mime in SupportedMimeTypes
  }

  /** The supported types are exactly the five listed ones. */
  lemma SupportedExactly(mime: string)
    ensures IsSupportedMimeType(mime) <==>
      mime == Pdf || mime == Docx || mime == TextPlain || mime == Jpeg || mime == Png
    ensures !IsSupportedMimeType(OctetStream)
  {
  }

  /** Which extractor handles a document. */
  datatype Reader = PdfReader | DocxReader | TextReader | ImageReader

  /** The result of `extractText`: the normalised text, the
      `UnsupportedMimeTypeError` carrying the detected type, or any other
      failure of a reader (missing file, corrupt document, OCR error). */
  datatype Extraction =
    | Extracted(text: string)
    | UnsupportedMimeType(mimeType: string)
    | ReadFailed

  /** The message of `UnsupportedMimeTypeError`. */
  function UnsupportedMessage(mime: string): (msg: string)
    ensures |msg| > |mime| && msg[|msg| - |mime|..] == mime
  {
    "Unsupported MIME type: " + mime
  }

  /** `lookup(path) || 'application/octet-stream'`: a failed lookup, or one
      giving the empty string, falls back to the generic binary type. */
  function DetectMimeType(path: string, lookup: string -> Option<string>): (mime: string)
    ensures mime != []
    ensures lookup(path).Some? && lookup(path).value != [] ==> mime == lookup(path).value
    ensures lookup(path).None? ==> mime == OctetStream
  {
    match lookup(path)
    case Some(m) => if m != [] then m else OctetStream
    case None => OctetStream
  }

  /** The `switch` of `extractText`: every supported type has its reader. */
  function ReaderFor(mime: string): (reader: Reader)
    requires IsSupportedMimeType(mime)
    ensures reader == PdfReader <==> mime == Pdf
    ensures reader == DocxReader <==> mime == Docx
    ensures reader == TextReader <==> mime == TextPlain
    ensures reader == ImageReader <==> (mime == Jpeg || mime == Png)
  {
    if mime == Pdf then PdfReader
    else if mime == Docx then DocxReader
    else if mime == TextPlain then TextReader
    else ImageReader
  }

  /** `value.replace(/\s+/g, ' ').trim()`. */
  function NormalizeWhitespace(s: string): (r: string)
    ensures |r| <= |s|
    ensures r == [] || (!IsWhitespace(r[0]) && !IsWhitespace(r[|r| - 1]))
  {
    Trim(Collapse(s, ' '))
  }

  /** The shape of a normalised text: no whitespace at either end, and every
      whitespace character an isolated space. */
  ghost predicate Normalized(s: string) {
    && (s == [] || (!IsWhitespace(s[0]) && !IsWhitespace(s[|s| - 1])))
    && WhitespaceIs(s, ' ')
    && NoAdjacentWhitespace(s)
  }

  /** Every output of `normalizeWhitespace` has the normalised shape. */
  lemma NormalizeShape(s: string)
    ensures Normalized(NormalizeWhitespace(s))
  {
    var c := Collapse(s, ' ');
    CollapseNoAdjacent(s, ' ');
    assert WhitespaceIs(c, ' ');
    TrimKeepsShape(c, ' ');
  }

  /** A text has the normalised shape exactly when normalising leaves it unchanged. */
  lemma NormalizedIsFixpoint(s: string)
    ensures Normalized(s) <==> NormalizeWhitespace(s) == s
  {
    if Normalized(s) {
      CollapseFixpoint(s, ' ');
      TrimNoop(s);
    }
    if NormalizeWhitespace(s) == s {
      NormalizeShape(s);
    }
  }

  /** Normalising twice is normalising once. */
  lemma NormalizeIdempotent(s: string)
    ensures NormalizeWhitespace(NormalizeWhitespace(s)) == NormalizeWhitespace(s)
  {
    NormalizeShape(s);
    NormalizedIsFixpoint(NormalizeWhitespace(s));
  }

  /** Normalising keeps every non-whitespace character, in order. */
  lemma NormalizeKeepsText(s: string)
    ensures NonWhitespace(NormalizeWhitespace(s)) == NonWhitespace(s)
  {
    CollapseNonWhitespace(s, ' ');
    TrimNonWhitespace(Collapse(s, ' '));
  }

  /** `extractText(path)`: an unsupported detected type is rejected before any
      reader runs; otherwise the reader for the type runs and its raw text
      (`None` when it fails) is normalised. */
  function ExtractText(path: string, lookup: string -> Option<string>,
                       read: (Reader, string) -> Option<string>): (r: Extraction)
    ensures var mime := DetectMimeType(path, lookup);
      !IsSupportedMimeType(mime) <==> r == UnsupportedMimeType(mime)
    ensures r.UnsupportedMimeType? ==> !IsSupportedMimeType(r.mimeType)
    ensures r.Extracted? ==> IsSupportedMimeType(DetectMimeType(path, lookup))
    ensures r.Extracted? ==> Normalized(r.text)
  {
    var mime := DetectMimeType(path, lookup);
    if !IsSupportedMimeType(mime) then UnsupportedMimeType(mime)
    else
      match read(ReaderFor(mime), path)
      case Some(raw) => NormalizeShape(raw); Extracted(NormalizeWhitespace(raw))
      case None => ReadFailed
  }

  /** A successful extraction is the normalised output of the reader for the
      detected type, and a failed reader is reported as such. */
  lemma ExtractionUsesReader(path: string, lookup: string -> Option<string>,
                             read: (Reader, string) -> Option<string>)
    requires IsSupportedMimeType(DetectMimeType(path, lookup))
    ensures var raw := read(ReaderFor(DetectMimeType(path, lookup)), path);
      && (raw.None? <==> ExtractText(path, lookup, read) == ReadFailed)
      && (raw.Some? ==> ExtractText(path, lookup, read) == Extracted(NormalizeWhitespace(raw.value)))
  {
  }

  /** A path whose extension the lookup does not know is always rejected, as
      `application/octet-stream`, whatever the readers would do. */
  lemma UnknownExtensionRejected(path: string, lookup: string -> Option<string>,
                                 read: (Reader, string) -> Option<string>)
    requires lookup(path).None?
    ensures ExtractText(path, lookup, read) == UnsupportedMimeType(OctetStream)
  {
  }

  /** JPEG and PNG images both go to OCR, so the two give the same text for
      the same file. */
  lemma ImagesShareReader(path1: string, path2: string, lookup: string -> Option<string>,
                          read: (Reader, string) -> Option<string>)
    requires DetectMimeType(path1, lookup) == Jpeg && DetectMimeType(path2, lookup) == Png
    requires read(ImageReader, path1) == read(ImageReader, path2)
    ensures ExtractText(path1, lookup, read) == ExtractText(path2, lookup, read)
  {
  }
}
