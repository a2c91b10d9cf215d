/**
 * The document index: scanning the bundled assets and the user-upload area
 * of a category, the whole-library listing, title search, and lookups by id
 * and by path. The filesystem is an input value (`Storage`); every call
 * rescans it, as the code does (its category cache is never consulted).
 */
module FileManager {
  import opened Wrappers
  import opened Strings
  import opened Documents
  import opened TitleSort
  import Constants
  import StringHash
  import opened Seqs

  /** One entry of a user directory listing (a java.io.File). */
  datatype UserEntry = UserEntry(name: string, isFile: bool, length: int)

  /**
   * What the scans can see. `assetDirs` maps an asset folder to what
   * AssetManager.list returns for it; a missing folder stands for a listing
   * that threw or returned null. `userDirs` maps a category id to the
   * listing of files/user_files/<id>; a missing id stands for a directory
   * that does not exist, is not a directory, or cannot be listed.
   */
  datatype Storage = Storage(
    assetDirs: map<string, seq<string>>,
    filesDir: string,
    userDirs: map<string, seq<UserEntry>>)

  // ---- file names ----

  lemma EndsWithLast(s: string, suffix: string)
    requires |suffix| > 0 && EndsWith(s, suffix)
    ensures s[|s| - 1] == suffix[|suffix| - 1]
  {
    assert s[|s| - 1] == s[|s| - |suffix|..][|suffix| - 1];
  }

  /** A name ends with at most one of the three extensions (they end in f, x and t). */
  lemma ExtensionsExclusive(s: string, t1: DocumentType, t2: DocumentType)
    requires EndsWith(s, ExtensionConstant(t1)) && EndsWith(s, ExtensionConstant(t2))
    ensures t1 == t2
  {
    EndsWithLast(s, ExtensionConstant(t1));
    EndsWithLast(s, ExtensionConstant(t2));
  }

  /** getDocumentType: checks ".pdf", then ".pptx", then ".ppt" against the lower-cased name. */
  function DocumentTypeOf(fileName: string): Option<DocumentType>
  {
    var lower := Lower(fileName);
    if EndsWith(lower, Constants.ExtPdf) then Some(PDF)
    else if EndsWith(lower, Constants.ExtPptx) then Some(PPTX)
    else if EndsWith(lower, Constants.ExtPpt) then Some(PPT)
    else None
  }

  /**
   * The type is the one whose extension the lower-cased name ends with, and
   * none when it ends with none of them; the order of the checks is immaterial.
   */
  lemma DocumentTypeBySuffix(fileName: string, t: DocumentType)
    ensures DocumentTypeOf(fileName) == Some(t) <==> EndsWith(Lower(fileName), ExtensionConstant(t))
  {
    var r := DocumentTypeOf(fileName);
    if r.Some? && EndsWith(Lower(fileName), ExtensionConstant(t)) {
      ExtensionsExclusive(Lower(fileName), r.value, t);
    }
  }

  /** Unrecognised names get no type at all. */
  lemma DocumentTypeNone(fileName: string)
    ensures DocumentTypeOf(fileName).None? <==>
              !EndsWith(Lower(fileName), ".pdf") && !EndsWith(Lower(fileName), ".pptx") && !EndsWith(Lower(fileName), ".ppt")
  {
  }

  /**
   * getFileNameWithoutExtension: the part before the last '.', when that dot
   * is not the first character; otherwise the whole name.
   */
  function TitleOf(fileName: string): (r: string)
    ensures StartsWith(fileName, r)
    ensures |r| < |fileName| ==>
              0 < |r| && fileName[|r|] == '.' && forall j :: |r| < j < |fileName| ==> fileName[j] != '.'
    ensures |r| == |fileName| ==> forall j :: 0 < j < |fileName| ==> fileName[j] != '.'
  {
    var k := LastIndexOf(fileName, '.');
    if k > 0 then fileName[..k] else fileName
  }

  /** generateStableId: the decimal form of the path's String.hashCode. */
  function StableId(filePath: string): string
  {
    IntToString(StringHash.HashCode(filePath))
  }

  /** Two paths get the same id exactly when their hash codes agree. */
  lemma StableIdMatchesHash(p: string, q: string)
    ensures StableId(p) == StableId(q) <==> StringHash.HashCode(p) == StringHash.HashCode(q)
  {
    IntToStringInjective(StringHash.HashCode(p), StringHash.HashCode(q));
  }

  /** Distinct paths can share an id. */
  lemma StableIdCollides()
    ensures StableId("Aa") == StableId("BB")
  {
    StringHash.HashCollision();
  }

  // ---- one category ----

  /** fileName.startsWith("."): a hidden entry. */
  predicate IsHidden(fileName: string)
  {
    StartsWith(fileName, ".")
  }

  /** An asset entry is listed when it is not hidden and its type is recognised. */
  predicate AssetListed(fileName: string)
  {
    !IsHidden(fileName) && DocumentTypeOf(fileName).Some?
  }

  /** What the asset scan adds for one entry: a document when the entry is listed. */
  function AssetEntry(categoryId: string, folderPath: string, fileName: string): Option<Document>
  {
    if !AssetListed(fileName) then None
    else
      var filePath := folderPath + "/" + fileName;
      Some(Document(StableId(filePath), TitleOf(fileName), filePath, categoryId,
                    DocumentTypeOf(fileName), 0, 0, false, true))
  }

  /** The asset scan, in listing order. */
  function AssetDocs(categoryId: string, folderPath: string, names: seq<string>): seq<Document>
  {
    FilterMap(names, (name: string) => AssetEntry(categoryId, folderPath, name))
  }

  /** A user entry is listed when it is a regular file of a recognised type. */
  predicate UserListed(e: UserEntry)
  {
    e.isFile && DocumentTypeOf(e.name).Some?
  }

  /** File.getAbsolutePath of files/user_files/<category>/<name>. */
  function UserPath(filesDir: string, categoryId: string, fileName: string): string
  {
    filesDir + "/user_files/" + categoryId + "/" + fileName
  }

  /** What the user-file scan adds for one entry: a document when the entry is listed. */
  function UserEntryDoc(categoryId: string, filesDir: string, e: UserEntry): Option<Document>
  {
    if !UserListed(e) then None
    else
      var filePath := UserPath(filesDir, categoryId, e.name);
      Some(Document(StableId(filePath), TitleOf(e.name), filePath, categoryId,
                    DocumentTypeOf(e.name), e.length, 0, false, false))
  }

  /** The user-file scan, in listing order. */
  function UserDocs(categoryId: string, filesDir: string, entries: seq<UserEntry>): seq<Document>
  {
    FilterMap(entries, (e: UserEntry) => UserEntryDoc(categoryId, filesDir, e))
  }

  function AssetFolder(categoryId: string): string
  {
    Constants.AssetCategoryPath(Some(categoryId))
  }

  function AssetNames(st: Storage, categoryId: string): seq<string>
  {
    var folder := AssetFolder(categoryId);
    if folder in st.assetDirs then st.assetDirs[folder] else []
  }

  function UserEntries(st: Storage, categoryId: string): seq<UserEntry>
  {
    if categoryId in st.userDirs then st.userDirs[categoryId] else []
  }

  /** Both scans of a category, assets first, before sorting. */
  function ScanOrder(st: Storage, categoryId: string): seq<Document>
  {
    AssetDocs(categoryId, AssetFolder(categoryId), AssetNames(st, categoryId))
      + UserDocs(categoryId, st.filesDir, UserEntries(st, categoryId))
  }

  /** getDocumentsFromCategory: both scans, sorted by title ignoring case. */
  function CategoryListing(st: Storage, categoryId: string): seq<Document>
  {
    SortByTitle(ScanOrder(st, categoryId))
  }

  /** The asset entry `name` is listed and yields `d`. */
  predicate AssetYields(categoryId: string, folderPath: string, name: string, d: Document)
  {
    AssetEntry(categoryId, folderPath, name) == Some(d)
  }

  /** The user entry `e` is listed and yields `d`. */
  predicate UserYields(categoryId: string, filesDir: string, e: UserEntry, d: Document)
  {
    UserEntryDoc(categoryId, filesDir, e) == Some(d)
  }

  lemma AssetDocsMembers(categoryId: string, folderPath: string, names: seq<string>, d: Document)
    ensures d in AssetDocs(categoryId, folderPath, names) <==>
              exists name :: name in names && AssetYields(categoryId, folderPath, name, d)
  {
    FilterMapMembers(names, (name: string) => AssetEntry(categoryId, folderPath, name), d);
  }

  lemma UserDocsMembers(categoryId: string, filesDir: string, entries: seq<UserEntry>, d: Document)
    ensures d in UserDocs(categoryId, filesDir, entries) <==>
              exists e :: e in entries && UserYields(categoryId, filesDir, e, d)
  {
    FilterMapMembers(entries, (e: UserEntry) => UserEntryDoc(categoryId, filesDir, e), d);
  }

  /**
   * A category listing holds exactly the documents built from the visible,
   * recognised asset names and from the recognised regular user files.
   */
  lemma CategoryListingMembers(st: Storage, categoryId: string, d: Document)
    ensures d in CategoryListing(st, categoryId) <==>
              (|| (exists name :: name in AssetNames(st, categoryId) && AssetYields(categoryId, AssetFolder(categoryId), name, d))
               || (exists e :: e in UserEntries(st, categoryId) && UserYields(categoryId, st.filesDir, e, d)))
  {
    SortByTitleCorrect(ScanOrder(st, categoryId));
    assert d in CategoryListing(st, categoryId) <==> d in multiset(ScanOrder(st, categoryId));
    AssetDocsMembers(categoryId, AssetFolder(categoryId), AssetNames(st, categoryId), d);
    UserDocsMembers(categoryId, st.filesDir, UserEntries(st, categoryId), d);
  }

  /**
   * Every listed document belongs to the category and has a recognised type;
   * asset documents live at <asset folder>/<name> with no size, user documents
   * carry their file length.
   */
  lemma CategoryListingFields(st: Storage, categoryId: string, d: Document)
    requires d in CategoryListing(st, categoryId)
    ensures d.categoryId == categoryId && d.docType.Some? && !d.isFavorite
    ensures d.id == StableId(d.filePath)
    ensures d.fromAssets ==>
              exists name :: name in AssetNames(st, categoryId) && !IsHidden(name)
                && d.filePath == AssetFolder(categoryId) + "/" + name && d.title == TitleOf(name)
                && d.docType == DocumentTypeOf(name) && d.fileSize == 0
    ensures !d.fromAssets ==>
              exists e :: e in UserEntries(st, categoryId) && e.isFile
                && d.filePath == UserPath(st.filesDir, categoryId, e.name) && d.title == TitleOf(e.name)
                && d.docType == DocumentTypeOf(e.name) && d.fileSize == e.length
  {
    CategoryListingMembers(st, categoryId, d);
    if name :| name in AssetNames(st, categoryId) && AssetYields(categoryId, AssetFolder(categoryId), name, d) {
      assert d.fromAssets && d.categoryId == categoryId && d.docType.Some? && !d.isFavorite;
      assert d.id == StableId(d.filePath);
    } else {
      var e :| e in UserEntries(st, categoryId) && UserYields(categoryId, st.filesDir, e, d);
      assert !d.fromAssets && d.categoryId == categoryId && d.docType.Some? && !d.isFavorite;
      assert d.id == StableId(d.filePath);
    }
  }

  /**
   * The listing ascends by case-insensitive title, is a permutation of the
   * scan, and keeps documents of equal title in scan order (assets first).
   */
  lemma CategoryListingOrdered(st: Storage, categoryId: string)
    ensures SortedByTitle(CategoryListing(st, categoryId))
    ensures multiset(CategoryListing(st, categoryId)) == multiset(ScanOrder(st, categoryId))
    ensures forall k :: WithKey(CategoryListing(st, categoryId), k) == WithKey(ScanOrder(st, categoryId), k)
  {
    SortByTitleCorrect(ScanOrder(st, categoryId));
  }

  /** The loop over an asset folder's names: hidden and unrecognised names are skipped. */
  method ScanAssetFolder(categoryId: string, folderPath: string, files: seq<string>) returns (documents: seq<Document>)
    ensures documents == AssetDocs(categoryId, folderPath, files)
  {
    documents := [];
    for i := 0 to |files|
      invariant documents == AssetDocs(categoryId, folderPath, files[..i])
    {
      var fileName := files[i];
      assert files[..i + 1][..i] == files[..i];
      if !IsHidden(fileName) {
        var t := DocumentTypeOf(fileName);
        if t.Some? {
          var filePath := folderPath + "/" + fileName;
          var doc := NewDocument().WithId(StableId(filePath)).WithTitle(TitleOf(fileName))
                       .WithFilePath(filePath).WithCategoryId(categoryId).WithType(t).WithFromAssets(true);
          assert AssetEntry(categoryId, folderPath, fileName) == Some(doc);
          documents := documents + [doc];
        }
      }
    }
    assert files[..|files|] == files;
  }

  /**
   * The loop over a user folder's entries, appending to `documents`:
   * directories and unrecognised names are skipped.
   */
  method ScanUserFolder(documents: seq<Document>, categoryId: string, filesDir: string, userFiles: seq<UserEntry>)
    returns (r: seq<Document>)
    ensures r == documents + UserDocs(categoryId, filesDir, userFiles)
  {
    r := documents;
    for i := 0 to |userFiles|
      invariant r == documents + UserDocs(categoryId, filesDir, userFiles[..i])
    {
      var file := userFiles[i];
      assert userFiles[..i + 1][..i] == userFiles[..i];
      if file.isFile {
        var t := DocumentTypeOf(file.name);
        if t.Some? {
          var filePath := UserPath(filesDir, categoryId, file.name);
          var doc := NewDocument().WithId(StableId(filePath)).WithTitle(TitleOf(file.name))
                       .WithFilePath(filePath).WithCategoryId(categoryId).WithType(t)
                       .WithFromAssets(false).WithFileSize(file.length);
          assert UserEntryDoc(categoryId, filesDir, file) == Some(doc);
          r := r + [doc];
        }
      }
    }
    assert userFiles[..|userFiles|] == userFiles;
  }

  /** The scan of one category: assets, then user uploads, then the sort. */
  method DocumentsFromCategory(st: Storage, categoryId: string) returns (documents: seq<Document>)
    ensures documents == CategoryListing(st, categoryId)
  {
    documents := [];
    var folderPath := Constants.AssetCategoryPath(Some(categoryId));
    if folderPath in st.assetDirs {
      documents := ScanAssetFolder(categoryId, folderPath, st.assetDirs[folderPath]);
    }
    assert documents == AssetDocs(categoryId, AssetFolder(categoryId), AssetNames(st, categoryId));
    if categoryId in st.userDirs {
      documents := ScanUserFolder(documents, categoryId, st.filesDir, st.userDirs[categoryId]);
    }
    assert documents == ScanOrder(st, categoryId);
    // List.sort by compareToIgnoreCase on the title
    documents := SortByTitle(documents);
  }

  // ---- the whole library ----

  /** The listings of `categories`, concatenated in order. */
  function Listings(st: Storage, categories: seq<string>): seq<Document>
  {
    if |categories| == 0 then []
    else Listings(st, categories[..|categories| - 1]) + CategoryListing(st, categories[|categories| - 1])
  }

  /** getAllDocuments: the six category listings in registry order. */
  function Library(st: Storage): seq<Document>
  {
    Listings(st, Constants.CategoryOrder)
  }

  lemma {:induction false} ListingsMembers(st: Storage, categories: seq<string>, d: Document)
    ensures d in Listings(st, categories) <==> exists c :: c in categories && d in CategoryListing(st, c)
  {
    if |categories| > 0 {
      var init, last := categories[..|categories| - 1], categories[|categories| - 1];
      ListingsMembers(st, init, d);
      assert categories == init + [last];
      assert forall x :: x in categories <==> x in init || x == last;
    }
  }

  /** The library holds exactly what the six listings hold; each document's category is one of the six. */
  lemma LibraryMembers(st: Storage, d: Document)
    ensures d in Library(st) <==> exists c :: c in Constants.CategoryOrder && d in CategoryListing(st, c)
    ensures d in Library(st) ==> d.categoryId in Constants.CategoryOrder
  {
    ListingsMembers(st, Constants.CategoryOrder, d);
    if d in Library(st) {
      var c :| c in Constants.CategoryOrder && d in CategoryListing(st, c);
      CategoryListingFields(st, c, d);
    }
  }

  method AllDocuments(st: Storage) returns (allDocuments: seq<Document>)
    ensures allDocuments == Library(st)
  {
    allDocuments := [];
    var categories := Constants.CategoryOrder;
    for i := 0 to |categories|
      invariant allDocuments == Listings(st, categories[..i])
    {
      assert categories[..i + 1][..i] == categories[..i];
      var docs := DocumentsFromCategory(st, categories[i]);
      allDocuments := allDocuments + docs;
    }
    assert categories[..|categories|] == categories;
  }

  // ---- search ----

  /** searchDocuments' test: the lower-cased title contains the lower-cased, trimmed query. */
  predicate Matches(d: Document, query: string)
  {
    Contains(Lower(d.title), Trim(Lower(query)))
  }

  /** The matching documents of `docs`, in their order. */
  function SearchResults(docs: seq<Document>, query: string): seq<Document>
  {
    if |docs| == 0 then []
    else
      var last := docs[|docs| - 1];
      SearchResults(docs[..|docs| - 1], query) + (if Matches(last, query) then [last] else [])
  }

  lemma {:induction false} SearchResultsMembers(docs: seq<Document>, query: string, d: Document)
    ensures d in SearchResults(docs, query) <==> d in docs && Matches(d, query)
  {
    if |docs| > 0 {
      var init := docs[..|docs| - 1];
      SearchResultsMembers(init, query, d);
      assert docs == init + [docs[|docs| - 1]];
    }
  }

  /** A blank query matches every document. */
  lemma {:induction false} SearchBlankReturnsAll(docs: seq<Document>, query: string)
    requires IsBlank(query)
    ensures SearchResults(docs, query) == docs
  {
    LowerKeepsBlank(query);
    TrimEmptyIffBlank(Lower(query));
    if |docs| > 0 {
      SearchBlankReturnsAll(docs[..|docs| - 1], query);
      ContainsEmpty(Lower(docs[|docs| - 1].title));
      assert docs == docs[..|docs| - 1] + [docs[|docs| - 1]];
    }
  }

  lemma {:induction false} TrimOfTrimmed(s: string)
    requires IsTrimmed(s)
    ensures Trim(s) == s
  {
    assert TrimStart(s) == s;
    assert TrimEnd(s) == s;
  }

  lemma LowerKeepsTrimmed(s: string)
    requires IsTrimmed(s)
    ensures IsTrimmed(Lower(s))
  {
  }

  /**
   * Any piece of a title without surrounding blanks, typed in any case
   * mix that folds to the title's, finds that document.
   */
  lemma SearchFindsSubstring(docs: seq<Document>, d: Document, q: string)
    requires d in docs && IsTrimmed(q)
    requires Contains(Lower(d.title), Lower(q))
    ensures d in SearchResults(docs, q)
  {
    LowerKeepsTrimmed(q);
    TrimOfTrimmed(Lower(q));
    SearchResultsMembers(docs, q, d);
  }

  method SearchDocuments(st: Storage, query: string) returns (results: seq<Document>)
    ensures results == SearchResults(Library(st), query)
  {
    var allDocs := AllDocuments(st);
    results := [];
    var lowerQuery := Trim(Lower(query));
    for i := 0 to |allDocs|
      invariant results == SearchResults(allDocs[..i], query)
    {
      assert allDocs[..i + 1][..i] == allDocs[..i];
      var doc := allDocs[i];
      if Contains(Lower(doc.title), lowerQuery) {
        results := results + [doc];
      }
    }
    assert allDocs[..|allDocs|] == allDocs;
  }

  // ---- lookups ----

  /** The first document of `docs` with this id. */
  function IdLookup(docs: seq<Document>, id: string): (r: Option<Document>)
    ensures r.None? <==> forall d :: d in docs ==> d.id != id
    ensures r.Some? ==> exists k :: 0 <= k < |docs| && docs[k] == r.value && r.value.id == id
                          && forall j :: 0 <= j < k ==> docs[j].id != id
  {
    if |docs| == 0 then None
    else if docs[0].id == id then Some(docs[0])
    else
      var r := IdLookup(docs[1..], id);
      assert forall d :: d in docs ==> d == docs[0] || d in docs[1..];
      if r.Some? then
        var k :| 0 <= k < |docs[1..]| && docs[1..][k] == r.value && r.value.id == id
                   && forall j :: 0 <= j < k ==> docs[1..][j].id != id;
        assert docs[k + 1] == r.value;
        assert forall j :: 1 <= j < k + 1 ==> docs[j] == docs[1..][j - 1];
        r
      else r
  }

  /** The first document of `docs` with this path. */
  function PathLookup(docs: seq<Document>, path: string): (r: Option<Document>)
    ensures r.None? <==> forall d :: d in docs ==> d.filePath != path
    ensures r.Some? ==> exists k :: 0 <= k < |docs| && docs[k] == r.value && r.value.filePath == path
                          && forall j :: 0 <= j < k ==> docs[j].filePath != path
  {
    if |docs| == 0 then None
    else if docs[0].filePath == path then Some(docs[0])
    else
      var r := PathLookup(docs[1..], path);
      assert forall d :: d in docs ==> d == docs[0] || d in docs[1..];
      if r.Some? then
        var k :| 0 <= k < |docs[1..]| && docs[1..][k] == r.value && r.value.filePath == path
                   && forall j :: 0 <= j < k ==> docs[1..][j].filePath != path;
        assert docs[k + 1] == r.value;
        assert forall j :: 1 <= j < k + 1 ==> docs[j] == docs[1..][j - 1];
        r
      else r
  }

  /** getDocumentById: the first library document with this id, or null. */
  method DocumentById(st: Storage, documentId: string) returns (r: Option<Document>)
    ensures r == IdLookup(Library(st), documentId)
  {
    var allDocs := AllDocuments(st);
    for i := 0 to |allDocs|
      invariant IdLookup(allDocs[i..], documentId) == IdLookup(allDocs, documentId)
    {
      assert allDocs[i..][1..] == allDocs[i + 1..];
      if allDocs[i].id == documentId {
        return Some(allDocs[i]);
      }
    }
    return None;
  }

  /** getDocumentByPath: the first library document with this path, or null. */
  method DocumentByPath(st: Storage, filePath: string) returns (r: Option<Document>)
    ensures r == PathLookup(Library(st), filePath)
  {
    var allDocs := AllDocuments(st);
    for i := 0 to |allDocs|
      invariant PathLookup(allDocs[i..], filePath) == PathLookup(allDocs, filePath)
    {
      assert allDocs[i..][1..] == allDocs[i + 1..];
      if allDocs[i].filePath == filePath {
        return Some(allDocs[i]);
      }
    }
    return None;
  }

  /** The documents of `docs` whose id is in the set, in their order. */
  function IdFilter(docs: seq<Document>, ids: set<string>): seq<Document>
  {
    if |docs| == 0 then []
    else
      var last := docs[|docs| - 1];
      IdFilter(docs[..|docs| - 1], ids) + (if last.id in ids then [last] else [])
  }

  lemma {:induction false} IdFilterMembers(docs: seq<Document>, ids: set<string>, d: Document)
    ensures d in IdFilter(docs, ids) <==> d in docs && d.id in ids
  {
    if |docs| > 0 {
      IdFilterMembers(docs[..|docs| - 1], ids, d);
      assert docs == docs[..|docs| - 1] + [docs[|docs| - 1]];
    }
  }

  /** getDocumentsByIds: library order, not the order of the id set. */
  method DocumentsByIds(st: Storage, documentIds: set<string>) returns (documents: seq<Document>)
    ensures documents == IdFilter(Library(st), documentIds)
  {
    documents := [];
    var allDocs := AllDocuments(st);
    for i := 0 to |allDocs|
      invariant documents == IdFilter(allDocs[..i], documentIds)
    {
      assert allDocs[..i + 1][..i] == allDocs[..i];
      if allDocs[i].id in documentIds {
        documents := documents + [allDocs[i]];
      }
    }
    assert allDocs[..|allDocs|] == allDocs;
  }

  /** Each path resolved by first match, unknown paths dropped, input order kept. */
  function ResolvePaths(docs: seq<Document>, paths: seq<string>): seq<Document>
  {
    if |paths| == 0 then []
    else
      var found := PathLookup(docs, paths[|paths| - 1]);
      ResolvePaths(docs, paths[..|paths| - 1]) + (if found.Some? then [found.value] else [])
  }

  /** At most one document per path; every one found under one of the paths. */
  lemma {:induction false} ResolvePathsBound(docs: seq<Document>, paths: seq<string>)
    ensures |ResolvePaths(docs, paths)| <= |paths|
    ensures forall d :: d in ResolvePaths(docs, paths) ==> d in docs && d.filePath in paths
  {
    if |paths| > 0 {
      ResolvePathsBound(docs, paths[..|paths| - 1]);
      assert forall p :: p in paths[..|paths| - 1] ==> p in paths;
    }
  }

  /** When every path is known, the result follows the paths one to one. */
  lemma {:induction false} ResolvePathsAllKnown(docs: seq<Document>, paths: seq<string>)
    requires forall p :: p in paths ==> PathLookup(docs, p).Some?
    ensures |ResolvePaths(docs, paths)| == |paths|
    ensures forall i :: 0 <= i < |paths| ==> Some(ResolvePaths(docs, paths)[i]) == PathLookup(docs, paths[i])
  {
    if |paths| > 0 {
      var init := paths[..|paths| - 1];
      assert forall p :: p in init ==> p in paths;
      ResolvePathsAllKnown(docs, init);
      var last := paths[|paths| - 1];
      assert last in paths;
      var r := ResolvePaths(docs, paths);
      assert r == ResolvePaths(docs, init) + [PathLookup(docs, last).value];
      forall i | 0 <= i < |paths| ensures Some(r[i]) == PathLookup(docs, paths[i]) {
        if i < |init| { assert paths[i] == init[i]; }
      }
    }
  }

  /** The paths some document of `docs` has, in the order given. */
  function KnownPaths(docs: seq<Document>, paths: seq<string>): seq<string>
  {
    if |paths| == 0 then []
    else
      var last := paths[|paths| - 1];
      KnownPaths(docs, paths[..|paths| - 1]) + (if PathLookup(docs, last).Some? then [last] else [])
  }

  lemma {:induction false} KnownPathsMembers(docs: seq<Document>, paths: seq<string>)
    ensures forall p :: p in KnownPaths(docs, paths) <==> p in paths && PathLookup(docs, p).Some?
  {
    if |paths| > 0 {
      var init := paths[..|paths| - 1];
      KnownPathsMembers(docs, init);
      assert paths == init + [paths[|paths| - 1]];
    }
  }

  /** Unknown paths contribute nothing: resolving all paths is resolving the known ones. */
  lemma {:induction false} ResolveKnownOnly(docs: seq<Document>, paths: seq<string>)
    ensures ResolvePaths(docs, paths) == ResolvePaths(docs, KnownPaths(docs, paths))
  {
    if |paths| > 0 {
      var init := paths[..|paths| - 1];
      var last := paths[|paths| - 1];
      ResolveKnownOnly(docs, init);
      var k := KnownPaths(docs, init);
      var found := PathLookup(docs, last);
      assert ResolvePaths(docs, paths) == ResolvePaths(docs, init) + (if found.Some? then [found.value] else []);
      if found.Some? {
        assert KnownPaths(docs, paths) == k + [last];
        assert (k + [last])[..|k|] == k;
        assert ResolvePaths(docs, k + [last]) == ResolvePaths(docs, k) + [found.value];
      } else {
        assert KnownPaths(docs, paths) == k;
      }
    }
  }

  /**
   * For any mix of known and unknown paths: the result lists, in the order
   * of the paths, the first document of each known path, and every known
   * path's document is among the results.
   */
  lemma ResolvePathsInOrder(docs: seq<Document>, paths: seq<string>)
    ensures var known := KnownPaths(docs, paths);
            && |ResolvePaths(docs, paths)| == |known|
            && forall i :: 0 <= i < |known| ==> Some(ResolvePaths(docs, paths)[i]) == PathLookup(docs, known[i])
    ensures forall p :: p in paths && PathLookup(docs, p).Some? ==> PathLookup(docs, p).value in ResolvePaths(docs, paths)
  {
    var known := KnownPaths(docs, paths);
    KnownPathsMembers(docs, paths);
    ResolveKnownOnly(docs, paths);
    ResolvePathsAllKnown(docs, known);
    forall p | p in paths && PathLookup(docs, p).Some?
      ensures PathLookup(docs, p).value in ResolvePaths(docs, paths)
    {
      var i :| 0 <= i < |known| && known[i] == p;
      assert Some(ResolvePaths(docs, paths)[i]) == PathLookup(docs, p);
    }
  }

  /** getDocumentsByPaths: one by-path lookup per path. */
  method DocumentsByPaths(st: Storage, filePaths: seq<string>) returns (documents: seq<Document>)
    ensures documents == ResolvePaths(Library(st), filePaths)
  {
    documents := [];
    for i := 0 to |filePaths|
      invariant documents == ResolvePaths(Library(st), filePaths[..i])
    {
      assert filePaths[..i + 1][..i] == filePaths[..i];
      var doc := DocumentByPath(st, filePaths[i]);
      if doc.Some? {
        documents := documents + [doc.value];
      }
    }
    assert filePaths[..|filePaths|] == filePaths;
  }

  // ---- deletion ----

  /** What deleteUserFile does: refuse an asset, or try to delete an existing file. */
  datatype DeleteOutcome = RefusedAsset | Deleted | NotDeleted

  /**
   * deleteUserFile. An asset document is refused without touching any file;
   * otherwise it succeeds when the file exists and File.delete succeeds.
   */
  function DeleteUserFile(d: Document, fileExists: bool, deleteSucceeds: bool): (r: DeleteOutcome)
    ensures r == RefusedAsset <==> d.fromAssets
    ensures r == Deleted <==> !d.fromAssets && fileExists && deleteSucceeds
  {
    if d.fromAssets then RefusedAsset
    else if fileExists && deleteSucceeds then Deleted
    else NotDeleted
  }

  /** The storage once the user file `fileName` of a category is gone. */
  function WithoutUserFile(st: Storage, categoryId: string, fileName: string): Storage
  {
    if categoryId in st.userDirs then
      st.(userDirs := st.userDirs[categoryId := RemoveNamed(st.userDirs[categoryId], fileName)])
    else st
  }

  function RemoveNamed(entries: seq<UserEntry>, fileName: string): (r: seq<UserEntry>)
    ensures forall e :: e in r <==> e in entries && e.name != fileName
  {
    if |entries| == 0 then []
    else (if entries[0].name == fileName then [] else [entries[0]]) + RemoveNamed(entries[1..], fileName)
  }

  lemma UserPathInjective(filesDir: string, categoryId: string, a: string, b: string)
    requires UserPath(filesDir, categoryId, a) == UserPath(filesDir, categoryId, b)
    ensures a == b
  {
    var prefix := filesDir + "/user_files/" + categoryId + "/";
    assert UserPath(filesDir, categoryId, a) == prefix + a;
    assert UserPath(filesDir, categoryId, b) == prefix + b;
    assert a == (prefix + a)[|prefix|..];
    assert b == (prefix + b)[|prefix|..];
  }

  /**
   * Every listing is a fresh scan: once a user file has been deleted, the
   * next listing of its category has no user document at its path.
   */
  lemma RescanAfterDelete(st: Storage, categoryId: string, fileName: string, d: Document)
    requires d in CategoryListing(WithoutUserFile(st, categoryId, fileName), categoryId) && !d.fromAssets
    ensures d.filePath != UserPath(st.filesDir, categoryId, fileName)
  {
    var st' := WithoutUserFile(st, categoryId, fileName);
    CategoryListingFields(st', categoryId, d);
    var e :| e in UserEntries(st', categoryId) && e.isFile && d.filePath == UserPath(st'.filesDir, categoryId, e.name);
    if d.filePath == UserPath(st.filesDir, categoryId, fileName) {
      UserPathInjective(st.filesDir, categoryId, e.name, fileName);
    }
  }
}
