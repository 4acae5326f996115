/** `processAttachment`: an attachment goes to the text extractor that its
    declared media type selects, and the extractor's text (or its error) is
    the result; an unsupported media type yields the empty string. The
    extractors are collaborators: `extract` stands for all six of them. */
module AttachmentProcessor {
  import opened Wrappers

  /** The six extraction entry points (the Excel one serves three formats). */
  datatype Extractor = PdfProcess | WordProcessDoc | WordProcessDocx | ExcelProcess | PowerPointProcessPpt | PowerPointProcessPptx

  datatype Attachment = Attachment(filename: string, mimeType: string, data: string)

  const PdfMime := "application/pdf"
  const DocMime := "application/msword"
  const DocxMime := "application/vnd.openxmlformats-officedocument.wordprocessingml.document"
  const XlsMime := "application/vnd.ms-excel"
  const XlsxMime := "application/vnd.openxmlformats-officedocument.spreadsheetml.sheet"
  const OdsMime := "application/vnd.oasis.opendocument.spreadsheet"
  const PptMime := "application/vnd.ms-powerpoint"
  const PptxMime := "application/vnd.openxmlformats-officedocument.presentationml.presentation"

  /** The dispatch switch over the declared media type, with a default arm. */
  function ExtractorFor(mimeType: string): Option<Extractor> {
    if mimeType == PdfMime then Some(PdfProcess)
    else if mimeType == DocMime then Some(WordProcessDoc)
    else if mimeType == DocxMime then Some(WordProcessDocx)
    else if mimeType == XlsMime || mimeType == XlsxMime || mimeType == OdsMime then Some(ExcelProcess)
    else if mimeType == PptMime then Some(PowerPointProcessPpt)
    else if mimeType == PptxMime then Some(PowerPointProcessPptx)
    else None
  }

  /** The routing table read the other way: the media types each extractor serves. */
  function MediaTypesOf(x: Extractor): set<string> {
    match x
    case PdfProcess => {PdfMime}
    case WordProcessDoc => {DocMime}
    case WordProcessDocx => {DocxMime}
    case ExcelProcess => {XlsMime, XlsxMime, OdsMime}
    case PowerPointProcessPpt => {PptMime}
    case PowerPointProcessPptx => {PptxMime}
  }

  /** The switch and the table agree: a media type goes to an extractor
      exactly when that extractor serves it, so the media types of different
      extractors never overlap. */
  lemma SwitchMatchesTable(mimeType: string, x: Extractor)
    ensures ExtractorFor(mimeType) == Some(x) <==> mimeType in MediaTypesOf(x)
  {
  }

  /** One invocation of an extractor, with the attachment it received. */
  datatype ExtractorCall = ExtractorCall(extractor: Extractor, attachment: Attachment)

  /** The outcome of a dispatch together with the extractor calls it made. */
  datatype Dispatch = Dispatch(result: Result<string, string>, calls: seq<ExtractorCall>)

  /** An unsupported media type calls no extractor and yields ""; a
      supported one calls exactly its extractor, once, with the attachment
      itself, and returns what the extractor returns, error included. */
  function ProcessAttachment(attachment: Attachment,
                             extract: (Extractor, Attachment) -> Result<string, string>): (d: Dispatch)
    ensures |d.calls| <= 1
    ensures d.calls == [] <==> (forall x :: attachment.mimeType !in MediaTypesOf(x))
    ensures d.calls == [] ==> d.result == Ok("")
    ensures forall i :: 0 <= i < |d.calls| ==>
              && attachment.mimeType in MediaTypesOf(d.calls[i].extractor)
              && d.calls[i].attachment == attachment
              && d.result == extract(d.calls[i].extractor, attachment)
  {
    match ExtractorFor(attachment.mimeType)
    case None =>
      assert forall x :: attachment.mimeType !in MediaTypesOf(x) by {
        forall x ensures attachment.mimeType !in MediaTypesOf(x) {
          SwitchMatchesTable(attachment.mimeType, x);
        }
      }
      Dispatch(Ok(""), [])
    case Some(x) =>
      SwitchMatchesTable(attachment.mimeType, x);
      Dispatch(extract(x, attachment), [ExtractorCall(x, attachment)])
  }

  /** The three spreadsheet formats share the Excel extractor. */
  lemma SpreadsheetsShareOneExtractor()
    ensures ExtractorFor(XlsMime) == ExtractorFor(XlsxMime) == ExtractorFor(OdsMime) == Some(ExcelProcess)
  {
  }
}
