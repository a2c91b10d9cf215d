/**
 * The Document record and its kind. The record carries the `fromAssets`
 * flag that the index and the viewer set and read.
 */
module Documents {
  import opened Wrappers
  import opened Strings
  import Constants

  datatype DocumentType = PDF | PPTX | PPT

  /** The enum constant's name, as Enum.name() returns it. */
  function TypeName(t: DocumentType): string
  {
    match t
    case PDF => "PDF"
    case PPTX => "PPTX"
    case PPT => "PPT"
  }

  /** The extension constant a document type is recognised by. */
  function ExtensionConstant(t: DocumentType): string
  {
    match t
    case PDF => Constants.ExtPdf
    case PPTX => Constants.ExtPptx
    case PPT => Constants.ExtPpt
  }

  /**
   * A document. Strings a fresh no-argument Document leaves null are "" here;
   * `docType` keeps its null as None.
   */
  datatype Document = Document(
    id: string,
    title: string,
    filePath: string,
    categoryId: string,
    docType: Option<DocumentType>,
    fileSize: int,
    lastModified: int,
    isFavorite: bool,
    fromAssets: bool)
  {
    /**
     * getFileExtension: the lower-cased type name, the recognised extension
     * without its dot; None stands for the NullPointerException thrown for a
     * document without a type.
     */
    function FileExtension(): (r: Option<string>)
      ensures r.None? <==> docType.None?
      ensures r.Some? ==> "." + r.value == ExtensionConstant(docType.value)
    {
      if docType.None? then None else Some(Lower(TypeName(docType.value)))
    }

    // Setters: each replaces one field; restoring the old value gives back the original.

    function WithId(v: string): (d: Document)
      ensures d.id == v && d.(id := id) == this
    {
      this.(id := v)
    }

    function WithTitle(v: string): (d: Document)
      ensures d.title == v && d.(title := title) == this
    {
      this.(title := v)
    }

    function WithFilePath(v: string): (d: Document)
      ensures d.filePath == v && d.(filePath := filePath) == this
    {
      this.(filePath := v)
    }

    function WithCategoryId(v: string): (d: Document)
      ensures d.categoryId == v && d.(categoryId := categoryId) == this
    {
      this.(categoryId := v)
    }

    function WithType(v: Option<DocumentType>): (d: Document)
      ensures d.docType == v && d.(docType := docType) == this
    {
      this.(docType := v)
    }

    function WithFileSize(v: int): (d: Document)
      ensures d.fileSize == v && d.(fileSize := fileSize) == this
    {
      this.(fileSize := v)
    }

    function WithLastModified(v: int): (d: Document)
      ensures d.lastModified == v && d.(lastModified := lastModified) == this
    {
      this.(lastModified := v)
    }

    function WithFavorite(v: bool): (d: Document)
      ensures d.isFavorite == v && d.(isFavorite := isFavorite) == this
    {
      this.(isFavorite := v)
    }

    function WithFromAssets(v: bool): (d: Document)
      ensures d.fromAssets == v && d.(fromAssets := fromAssets) == this
    {
      this.(fromAssets := v)
    }
  }

  /** The no-argument constructor: nothing set, not a favourite. */
  function NewDocument(): (d: Document)
    ensures !d.isFavorite && !d.fromAssets && d.docType.None?
    ensures d.fileSize == 0 && d.lastModified == 0
  {
    Document("", "", "", "", None, 0, 0, false, false)
  }

  /** The five-argument constructor: stores its arguments, not a favourite. */
  function MakeDocument(id: string, title: string, filePath: string, categoryId: string,
                        t: DocumentType): (d: Document)
    ensures d.id == id && d.title == title && d.filePath == filePath
    ensures d.categoryId == categoryId && d.docType == Some(t)
    ensures !d.isFavorite && !d.fromAssets && d.fileSize == 0
  {
    NewDocument().(id := id, title := title, filePath := filePath, categoryId := categoryId, docType := Some(t))
  }
}
