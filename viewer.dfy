/**
 * Opening a document in the viewer: choosing the file, dispatching on the
 * document type to the PDF pages, the in-app slide extraction or the
 * legacy-PPT placeholder, and the decision taken when extraction finishes.
 * Copying an asset out, the file system and PdfRenderer are inputs.
 */
module Viewer {
  import opened Wrappers
  import opened Documents
  import Slides

  /** A java.io.File: its path and whether it exists (File.exists). */
  datatype FileRef = FileRef(path: string, present: bool)

  /**
   * The file the loaders open: for an asset, what copying it to internal
   * storage returned (None for null); for a user file, the file at its path.
   */
  function ResolveFile(doc: Document, assetCopy: Option<FileRef>, userFileExists: bool): (f: Option<FileRef>)
    ensures doc.fromAssets ==> f == assetCopy
    ensures !doc.fromAssets ==> f == Some(FileRef(doc.filePath, userFileExists))
  {
    if doc.fromAssets then assetCopy else Some(FileRef(doc.filePath, userFileExists))
  }

  /** The file is there to be opened: not null and existing. */
  predicate Usable(file: Option<FileRef>)
  {
    file.Some? && file.value.present
  }

  /** What loading leaves on screen or under way. */
  datatype LoadOutcome =
    | ErrorShown
    | PdfShown(file: FileRef, pageCount: nat)
    | SlidesExtracting(file: FileRef)
    | PlaceholderShown

  /** loadPDF; `pdfPages` is the page count PdfRenderer reports, None when opening it throws. */
  function LoadPdf(file: Option<FileRef>, pdfPages: Option<nat>): LoadOutcome
  {
    if !Usable(file) then ErrorShown
    else if pdfPages.None? then ErrorShown
    else PdfShown(file.value, pdfPages.value)
  }

  /** loadPPTX: in-app extraction for PPTX, the placeholder page for anything else. */
  function LoadSlides(doc: Document, file: Option<FileRef>): LoadOutcome
  {
    if !Usable(file) then ErrorShown
    else if doc.docType == Some(PPTX) then SlidesExtracting(file.value)
    else PlaceholderShown
  }

  /**
   * loadDocument. A missing file shows the error state and starts nothing;
   * otherwise PDF documents get the page list (or the error state when the
   * renderer cannot open the file), PPTX documents start extraction, and
   * every other type, PPT and an unknown type alike, gets the placeholder.
   */
  function LoadDocument(doc: Document, assetCopy: Option<FileRef>, userFileExists: bool, pdfPages: Option<nat>)
    : (r: LoadOutcome)
    ensures !Usable(ResolveFile(doc, assetCopy, userFileExists)) ==> r == ErrorShown
    ensures r.PdfShown? <==> doc.docType == Some(PDF) && Usable(ResolveFile(doc, assetCopy, userFileExists)) && pdfPages.Some?
    ensures r.PdfShown? ==> Some(r.file) == ResolveFile(doc, assetCopy, userFileExists) && r.pageCount == pdfPages.value
    ensures r.SlidesExtracting? <==> doc.docType == Some(PPTX) && Usable(ResolveFile(doc, assetCopy, userFileExists))
    ensures r.SlidesExtracting? ==> Some(r.file) == ResolveFile(doc, assetCopy, userFileExists)
    ensures r.PlaceholderShown? <==>
              doc.docType != Some(PDF) && doc.docType != Some(PPTX) && Usable(ResolveFile(doc, assetCopy, userFileExists))
  {
    var file := ResolveFile(doc, assetCopy, userFileExists);
    if doc.docType == Some(PDF) then LoadPdf(file, pdfPages) else LoadSlides(doc, file)
  }

  /** What the UI-thread callback of the extraction does. */
  datatype Completion = Dropped | CompletionError | SlidesInstalled(slides: seq<Slides.SlideItem>)

  /** The callback: nothing if the activity is finishing, the error state for no slides, else the slide list. */
  function CompleteExtraction(finishing: bool, slides: seq<Slides.SlideItem>): (r: Completion)
    ensures r == Dropped <==> finishing
    ensures r == CompletionError <==> !finishing && |slides| == 0
    ensures r.SlidesInstalled? ==> r.slides == slides && |slides| > 0
  {
    if finishing then Dropped
    else if |slides| == 0 then CompletionError
    else SlidesInstalled(slides)
  }

  /**
   * End to end: extraction yields the error state exactly when the deck
   * has no slides or parsing throws before the first one; otherwise the
   * list shows one row per parsed slide, row i titled with slide number i + 1.
   */
  lemma ExtractionOutcome(deck: seq<seq<Slides.Shape>>, failsAt: Option<nat>, finishing: bool,
                          slides: seq<Slides.SlideItem>)
    requires |slides| == Slides.ParsedCount(|deck|, failsAt)
    requires forall i :: 0 <= i < |slides| ==> slides[i] == Slides.SlideOf(i, deck[i])
    ensures CompleteExtraction(finishing, slides) == CompletionError <==>
              !finishing && (|deck| == 0 || failsAt == Some(0))
    ensures CompleteExtraction(finishing, slides).SlidesInstalled? ==>
              forall i :: 0 <= i < |slides| ==> slides[i].slideNumber == i + 1
  {
  }
}
