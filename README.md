# University manual: a Dafny model of the document index and viewer logic

The app is an offline course manual. Lecture notes, literature, lab work,
practical classes, problems and the syllabus ship as PDF and PowerPoint
files. They sit in six asset folders, and the user may add more under
`user_files/<category>`. This project models the logic behind it:

- **FileManager**: scans a category's asset folder and user folder and turns each
  recognised file into a `Document`. It lists one category sorted by title
  (case-insensitive, stable), lists the whole library, searches titles, looks
  documents up by id or path, and deletes user files.
- **Constants**: the category ids, extensions and asset-path rule.
- **Documents**: the `Document` record with its setters.
- **CategoryManager**: the fixed registry of six categories and its lookups.
- **SharedPrefs**: the favourites set and the most-recently-opened list. The list
  holds at most 20 paths, newest first, with no duplicates.
- **Search**: the search screen's 250 ms debounce and the search token. The token
  drops the results of superseded searches.
- **Lru** and **PdfPages**: the PDF page list, an `LruCache` of rendered pages of
  capacity `max(4, pageCount)`.
- **Slides** and **Viewer**: opening a document. The model covers PDF, PPTX
  extraction into slide items, and the legacy-PPT placeholder.

Pure computations are Dafny functions, with lemmas about them. The objects
whose fields change are classes whose methods are proved against those
functions:

- `CategoryManager.Manager`
- `SharedPrefs.Store`
- `Search.SearchFragment`
- `PdfPages.PdfPageAdapter`
- `Slides.SlideList`

The loops of the source are methods with loop invariants:

- the category scan;
- the library walk;
- the search, id and path loops;
- the slide extraction.

The file system, the asset manager, the clock and the threads are inputs or
events:

- the listing of a folder is part of a `FileManager.Storage` value;
- whether a file exists or is deleted is a boolean parameter;
- whether PdfRenderer opens a file is an `Option`;
- whether a slide deck fails to parse is the index of the failing slide;
- whether an image decodes is a predicate parameter;
- the debounce timer, the background executor and the hop back to the main
  thread are `Search.Event`s.

Java semantics are written out where they matter:

- `String.hashCode` with 32-bit wrap-around, and the decimal form
  `String.valueOf(int)` used for document ids;
- `trim` (strips characters up to U+0020);
- `toLowerCase`, on ASCII only;
- `compareToIgnoreCase`, as lexicographic order of lower-cased titles;
- `List.sort` (stable).

Behaviour of the code worth knowing:

- A blank search query returns every document, because every title contains
  the empty string (`FileManager.SearchBlankReturnsAll`).
- A category's recorded `folderPath` is `"/" + id`, while the scan reads the
  folder `id` (`CategoryManager.RegistryFolderUnused`).
- Clearing the search box does not move the search token. A search already
  running for the previous text therefore replaces the initial panel when it
  comes back (`Search.ClearKeepsInFlightLive`).

## Model

| member | source | states |
|---|---|---|
| Constants.CategoryIdsDistinct | app/src/main/java/uz/doc/test/utils/Constants.java:13-19 | the six category ids are pairwise distinct, in the library's visiting order |
| Constants.CategoryPathUnder | app/src/main/java/uz/doc/test/utils/Constants.java:39-43 | a null or blank id gives ""; with a null or blank base path the id itself; otherwise base + "/" + id |
| Constants.AssetCategoryPathIsId | app/src/main/java/uz/doc/test/utils/Constants.java:11-42 | with the empty base path, the asset folder of a category is its id ("" for a blank id) |
| Constants.ExtensionsDistinct | app/src/main/java/uz/doc/test/utils/Constants.java:27-29 | the extensions are ".pdf", ".pptx", ".ppt" and pairwise different |
| Documents.Document.FileExtension | app/src/main/java/uz/doc/test/model/Document.java:57-59 | null (the source throws) exactly when the document has no type; otherwise the lower-cased type name, which is the type's extension constant without its dot |
| Documents.Document.WithId | app/src/main/java/uz/doc/test/model/Document.java:34 | setId changes the id and no other field |
| Documents.Document.WithTitle | app/src/main/java/uz/doc/test/model/Document.java:37 | setTitle changes the title and no other field |
| Documents.Document.WithFilePath | app/src/main/java/uz/doc/test/model/Document.java:40 | setFilePath changes the path and no other field |
| Documents.Document.WithCategoryId | app/src/main/java/uz/doc/test/model/Document.java:43 | setCategoryId changes the category and no other field |
| Documents.Document.WithType | app/src/main/java/uz/doc/test/model/Document.java:46 | setType changes the type and no other field |
| Documents.Document.WithFileSize | app/src/main/java/uz/doc/test/model/Document.java:49 | setFileSize changes the size and no other field |
| Documents.Document.WithLastModified | app/src/main/java/uz/doc/test/model/Document.java:52 | setLastModified changes that timestamp and no other field |
| Documents.Document.WithFavorite | app/src/main/java/uz/doc/test/model/Document.java:55 | setFavorite changes the flag and no other field |
| Documents.Document.WithFromAssets | app/src/main/java/uz/doc/test/manager/FileManager.java:70 | setFromAssets changes the asset flag and no other field |
| Documents.NewDocument | app/src/main/java/uz/doc/test/model/Document.java:19-21 | a fresh document is not a favourite, not from assets, has no type and zero size and timestamp |
| Documents.MakeDocument | app/src/main/java/uz/doc/test/model/Document.java:23-30 | the five-argument constructor stores its arguments and starts as not a favourite |
| StringHash.HashCode | app/src/main/java/uz/doc/test/manager/FileManager.java:316 | String.hashCode lies in the signed 32-bit range |
| StringHash.HashCollision | app/src/main/java/uz/doc/test/manager/FileManager.java:314-317 | two different strings ("Aa", "BB") share a hash code (2112) |
| Strings.IntToStringRoundTrip | app/src/main/java/uz/doc/test/manager/FileManager.java:316 | reading back String.valueOf(n) gives n |
| Strings.IntToStringInjective | app/src/main/java/uz/doc/test/manager/FileManager.java:316 | String.valueOf is one-to-one on ints |
| Strings.TrimShape | app/src/main/java/uz/doc/test/manager/FileManager.java:143 | trim removes a blank prefix and a blank suffix and leaves a string with no space at either end |
| Strings.TrimEmptyIffBlank | app/src/main/java/uz/doc/test/ui/search/SearchFragment.java:122-132 | the trimmed text is empty exactly when the text is blank |
| Strings.LastIndexOf | app/src/main/java/uz/doc/test/manager/FileManager.java:303 | lastIndexOf gives -1 or an index of the character with none after it |
| FileManager.DocumentTypeBySuffix | app/src/main/java/uz/doc/test/manager/FileManager.java:285-297 | a file name has type t exactly when its lower-cased form ends with t's extension |
| FileManager.DocumentTypeNone | app/src/main/java/uz/doc/test/manager/FileManager.java:285-297 | no type exactly when the lower-cased name ends with none of the three extensions |
| FileManager.ExtensionsExclusive | app/src/main/java/uz/doc/test/manager/FileManager.java:288-293 | no name ends with two different extensions, so the order of the tests does not matter |
| FileManager.TitleOf | app/src/main/java/uz/doc/test/manager/FileManager.java:302-308 | the title is a prefix of the name, cut before the last dot when that dot is not the first character, else the whole name |
| FileManager.StableIdMatchesHash | app/src/main/java/uz/doc/test/manager/FileManager.java:314-317 | two paths get the same id exactly when their hash codes are equal |
| FileManager.StableIdCollides | app/src/main/java/uz/doc/test/manager/FileManager.java:314-317 | two different paths can get the same id |
| FileManager.AssetDocsMembers | app/src/main/java/uz/doc/test/manager/FileManager.java:50-78 | a document is in the asset scan exactly when some listed name that is not hidden and has a known type yields it |
| FileManager.UserDocsMembers | app/src/main/java/uz/doc/test/manager/FileManager.java:81-106 | a document is in the user-folder scan exactly when some plain file with a known type yields it |
| FileManager.CategoryListingMembers | app/src/main/java/uz/doc/test/manager/FileManager.java:46-112 | a category lists a document exactly when the asset scan or the user scan yields it |
| FileManager.CategoryListingFields | app/src/main/java/uz/doc/test/manager/FileManager.java:57-99 | every listed document has the category, a type, a hashed id, the title of its name, and the asset or user path and flag |
| FileManager.CategoryListingOrdered | app/src/main/java/uz/doc/test/manager/FileManager.java:109 | the listing is sorted by title ignoring case, is a permutation of the scan, and keeps scan order among equal titles |
| FileManager.ScanAssetFolder | app/src/main/java/uz/doc/test/manager/FileManager.java:52-75 | the asset loop returns the asset scan: one document per visible, recognised name, in listing order |
| FileManager.ScanUserFolder | app/src/main/java/uz/doc/test/manager/FileManager.java:83-105 | the user loop appends the user scan to the asset documents: one per regular file of a recognised type |
| FileManager.DocumentsFromCategory | app/src/main/java/uz/doc/test/manager/FileManager.java:46-112 | the scanning loops return exactly the sorted category listing |
| FileManager.ListingsMembers | app/src/main/java/uz/doc/test/manager/FileManager.java:129-131 | the concatenated listings hold exactly the documents of the given categories |
| FileManager.LibraryMembers | app/src/main/java/uz/doc/test/manager/FileManager.java:117-134 | the library holds exactly the documents of the six categories, each tagged with one of them |
| FileManager.AllDocuments | app/src/main/java/uz/doc/test/manager/FileManager.java:117-134 | the loop over the six categories returns the library |
| FileManager.SearchResultsMembers | app/src/main/java/uz/doc/test/manager/FileManager.java:139-152 | a document is a result exactly when it is in the library and its lower-cased title contains the lower-cased, trimmed query |
| FileManager.SearchBlankReturnsAll | app/src/main/java/uz/doc/test/manager/FileManager.java:143-149 | a blank query returns every document, in order |
| FileManager.SearchFindsSubstring | app/src/main/java/uz/doc/test/manager/FileManager.java:143-149 | a trimmed query contained in a title ignoring case finds that document |
| FileManager.SearchDocuments | app/src/main/java/uz/doc/test/manager/FileManager.java:139-152 | the search loop returns the matching library documents in library order |
| FileManager.IdLookup | app/src/main/java/uz/doc/test/manager/FileManager.java:157-167 | null exactly when no document has the id; otherwise the first document with it |
| FileManager.DocumentById | app/src/main/java/uz/doc/test/manager/FileManager.java:157-167 | the loop returns the id lookup over the library |
| FileManager.IdFilterMembers | app/src/main/java/uz/doc/test/manager/FileManager.java:172-183 | a document is returned exactly when it is in the library and its id is in the set |
| FileManager.DocumentsByIds | app/src/main/java/uz/doc/test/manager/FileManager.java:172-183 | the loop returns the library filtered by the id set |
| FileManager.PathLookup | app/src/main/java/uz/doc/test/manager/FileManager.java:188-198 | null exactly when no document has the path; otherwise the first document with it |
| FileManager.DocumentByPath | app/src/main/java/uz/doc/test/manager/FileManager.java:188-198 | the loop returns the path lookup over the library |
| FileManager.ResolvePathsBound | app/src/main/java/uz/doc/test/manager/FileManager.java:203-214 | at most one document per path, each a library document whose path was asked for |
| FileManager.ResolvePathsAllKnown | app/src/main/java/uz/doc/test/manager/FileManager.java:203-214 | when every path is known, the i-th result is the lookup of the i-th path |
| FileManager.KnownPathsMembers | app/src/main/java/uz/doc/test/manager/FileManager.java:206-210 | the known paths are exactly the given paths that some library document has |
| FileManager.ResolveKnownOnly | app/src/main/java/uz/doc/test/manager/FileManager.java:206-210 | unknown paths are dropped: resolving all paths gives the same list as resolving only the known ones |
| FileManager.ResolvePathsInOrder | app/src/main/java/uz/doc/test/manager/FileManager.java:203-214 | for any mix of known and unknown paths, result i is the document of the i-th known path, and every known path's document is returned |
| FileManager.DocumentsByPaths | app/src/main/java/uz/doc/test/manager/FileManager.java:203-214 | the loop returns the known paths' documents, in the order of the paths |
| FileManager.DeleteUserFile | app/src/main/java/uz/doc/test/manager/FileManager.java:332-345 | an asset is refused; a user file reports deleted exactly when it exists and File.delete succeeds |
| FileManager.RemoveNamed | app/src/main/java/uz/doc/test/manager/FileManager.java:339 | deleting a file removes exactly the entries with that name from the folder |
| FileManager.RescanAfterDelete | app/src/main/java/uz/doc/test/manager/FileManager.java:332-345 | after a user file is deleted, no user document in a rescan of its category has its path |
| CategoryManager.RegistryShape | app/src/main/java/uz/doc/test/manager/CategoryManager.java:32-88 | six categories with distinct ids, in the library order, each with an icon |
| CategoryManager.RegistryFolderUnused | app/src/main/java/uz/doc/test/manager/CategoryManager.java:41 | the recorded folder path is "/" + id, never the folder the asset scan reads |
| CategoryManager.FindCategory | app/src/main/java/uz/doc/test/manager/CategoryManager.java:100-107 | null exactly when no category has the id; otherwise the first one with it |
| CategoryManager.RegistryLookup | app/src/main/java/uz/doc/test/manager/CategoryManager.java:100-107 | an id is found exactly when it is one of the six, and the lookup gives the registry entry with that id |
| CategoryManager.Manager.constructor | app/src/main/java/uz/doc/test/manager/CategoryManager.java:17-20 | construction leaves the list equal to the registry, the invariant every lookup relies on |
| CategoryManager.Manager.InitializeCategories | app/src/main/java/uz/doc/test/manager/CategoryManager.java:32-88 | the six appends build the registry |
| CategoryManager.Manager.AllCategories | app/src/main/java/uz/doc/test/manager/CategoryManager.java:93-95 | returns the six registry categories in order |
| CategoryManager.Manager.CategoryById | app/src/main/java/uz/doc/test/manager/CategoryManager.java:100-107 | the loop returns the first category with the id, or null; found exactly when the id is one of the six |
| CategoryManager.Manager.CategoryNameUz | app/src/main/java/uz/doc/test/manager/CategoryManager.java:112-115 | the Uzbek name of the first category with the id; "" exactly when the id is not one of the six |
| CategoryManager.Manager.CategoryIcon | app/src/main/java/uz/doc/test/manager/CategoryManager.java:120-123 | the icon of the first category with the id; resource 0 exactly when the id is not one of the six |
| SharedPrefs.RemoveFirstShape | app/src/main/java/uz/doc/test/utils/SharedPrefsHelper.java:56 | List.remove drops exactly the first occurrence, or changes nothing when there is none |
| SharedPrefs.RemoveFirstNoDup | app/src/main/java/uz/doc/test/utils/SharedPrefsHelper.java:56 | on a list without duplicates, removal leaves exactly the other entries |
| SharedPrefs.MoveToFrontShape | app/src/main/java/uz/doc/test/utils/SharedPrefsHelper.java:52-64 | the path is first, the list is at most 20 long, and the rest is the old list without the path, cut to fit |
| SharedPrefs.MoveToFrontNoDup | app/src/main/java/uz/doc/test/utils/SharedPrefsHelper.java:52-64 | a list without duplicates stays without duplicates |
| SharedPrefs.MoveToFrontKeepsAll | app/src/main/java/uz/doc/test/utils/SharedPrefsHelper.java:52-64 | below the cap nothing is lost: the new list is the old entries plus the path |
| SharedPrefs.MoveToFrontIdempotent | app/src/main/java/uz/doc/test/utils/SharedPrefsHelper.java:52-64 | opening the same file twice in a row leaves the list as after once |
| SharedPrefs.Store.constructor | app/src/main/java/uz/doc/test/utils/SharedPrefsHelper.java:18-21 | a store over empty preferences has no favourites and no stored recent list |
| SharedPrefs.Store.AddFavorite | app/src/main/java/uz/doc/test/utils/SharedPrefsHelper.java:31-35 | the favourites gain the id; the recent list is unchanged |
| SharedPrefs.Store.RemoveFavorite | app/src/main/java/uz/doc/test/utils/SharedPrefsHelper.java:37-41 | the favourites lose the id; the recent list is unchanged |
| SharedPrefs.Store.GetFavorites | app/src/main/java/uz/doc/test/utils/SharedPrefsHelper.java:43-45 | returns the stored favourites |
| SharedPrefs.Store.IsFavorite | app/src/main/java/uz/doc/test/utils/SharedPrefsHelper.java:47-49 | true exactly when the id is a favourite |
| SharedPrefs.Store.GetRecentFiles | app/src/main/java/uz/doc/test/utils/SharedPrefsHelper.java:70-74 | returns the stored list, or the empty list when nothing is stored |
| SharedPrefs.Store.AddRecentFile | app/src/main/java/uz/doc/test/utils/SharedPrefsHelper.java:52-68 | stores the old list with the path moved to the front, at most 20 long, still without duplicates; favourites unchanged |
| SharedPrefs.Store.ClearRecentFiles | app/src/main/java/uz/doc/test/utils/SharedPrefsHelper.java:76-78 | the stored list is removed and reads back empty; favourites unchanged |
| Search.ShowResults | app/src/main/java/uz/doc/test/ui/search/SearchFragment.java:166-180 | the no-results panel, echoing the query in quotes, exactly when there are no results; otherwise the list of results |
| Search.TextChangedEffect | app/src/main/java/uz/doc/test/ui/search/SearchFragment.java:121-141 | blank text: initial panel, icon hidden, queue cleared, token kept; other text: token + 1 and the trimmed text queued under it |
| Search.StepInv | app/src/main/java/uz/doc/test/ui/search/SearchFragment.java:121-158 | every event keeps the queued search on the current token and no in-flight search newer than it |
| Search.RunInv | app/src/main/java/uz/doc/test/ui/search/SearchFragment.java:121-158 | the invariant holds after any sequence of events |
| Search.RunTokenMonotone | app/src/main/java/uz/doc/test/ui/search/SearchFragment.java:138 | the search token never decreases |
| Search.StaleResultsIgnored | app/src/main/java/uz/doc/test/ui/search/SearchFragment.java:154 | results of a search older than the current token never change the panel, whatever events come after |
| Search.DetachedIgnoresResults | app/src/main/java/uz/doc/test/ui/search/SearchFragment.java:154 | results arriving after the fragment is detached change nothing on screen |
| Search.DestroyViewSilencesEarlier | app/src/main/java/uz/doc/test/ui/search/SearchFragment.java:203-210 | after onDestroyView nothing is queued and every in-flight search is stale |
| Search.CurrentResultsShown | app/src/main/java/uz/doc/test/ui/search/SearchFragment.java:143-158 | current results show the no-results panel exactly when the search threw or nothing matched, else exactly the matching documents |
| Search.TypeAllShape | app/src/main/java/uz/doc/test/ui/search/SearchFragment.java:121-141 | after n non-blank keystrokes the token has moved by n and only the last text is queued |
| Search.BurstDispatchesLast | app/src/main/java/uz/doc/test/ui/search/SearchFragment.java:127-140 | a burst of keystrokes within one debounce window sends one search: the last text's, under the latest token |
| Search.ClearKeepsInFlightLive | app/src/main/java/uz/doc/test/ui/search/SearchFragment.java:132-134 | clearing the box shows the initial panel, but a search already running for the previous text still replaces it |
| Search.SearchFragment.constructor | app/src/main/java/uz/doc/test/ui/search/SearchFragment.java:101-119 | starts on the initial panel with token 0 and nothing queued |
| Search.SearchFragment.ShowInitialState | app/src/main/java/uz/doc/test/ui/search/SearchFragment.java:160-164 | shows the initial panel and changes nothing else |
| Search.SearchFragment.ScheduleSearch | app/src/main/java/uz/doc/test/ui/search/SearchFragment.java:121-141 | updates the fields as a text change does |
| Search.SearchFragment.RunPending | app/src/main/java/uz/doc/test/ui/search/SearchFragment.java:139-144 | the debounce timer hands the queued search to the executor |
| Search.SearchFragment.CompleteSearch | app/src/main/java/uz/doc/test/ui/search/SearchFragment.java:144-156 | the oldest search returns, and is shown only when attached and current |
| Search.SearchFragment.OnDestroyView | app/src/main/java/uz/doc/test/ui/search/SearchFragment.java:203-210 | cancels the queued search and moves the token on |
| Lru.RemoveKey | app/src/main/java/uz/doc/test/viewer/PdfPageAdapter.java:43 | exactly the other keys, without duplicates, one shorter when the key was there, unchanged when it was not |
| Lru.RemoveKeyAt | app/src/main/java/uz/doc/test/viewer/PdfPageAdapter.java:43 | a key that occurs once is cut out at its position; the keys before and after it keep their order |
| Lru.GetSpec | app/src/main/java/uz/doc/test/viewer/PdfPageAdapter.java:43 | get returns the stored value or null and keeps the entries; a hit moves the key from its place to the most recent end, the others keeping their order; a miss changes nothing |
| Lru.PutSpec | app/src/main/java/uz/doc/test/viewer/PdfPageAdapter.java:56 | put stores the value as most recent; nothing is evicted unless a new key meets a full cache, which evicts exactly the eldest |
| Lru.PutOrder | app/src/main/java/uz/doc/test/viewer/PdfPageAdapter.java:56 | after put, a present key moves to the most recent end; a new key is appended, and in a full cache the eldest key drops off the front; the other keys keep their order |
| PdfPages.CacheCapacity | app/src/main/java/uz/doc/test/viewer/PdfPageAdapter.java:30 | the capacity is max(4, pageCount) |
| PdfPages.RenderCountAppend | app/src/main/java/uz/doc/test/viewer/PdfPageAdapter.java:49-54 | renders are counted across the renderer calls in order |
| PdfPages.HitCoherent | app/src/main/java/uz/doc/test/viewer/PdfPageAdapter.java:43-47 | a hit returns that page's render and keeps the cache coherent |
| PdfPages.MissCoherent | app/src/main/java/uz/doc/test/viewer/PdfPageAdapter.java:49-57 | a miss adds that page's render, evicts nothing and renders no other page |
| PdfPages.PdfPageAdapter.constructor | app/src/main/java/uz/doc/test/viewer/PdfPageAdapter.java:25-32 | an empty cache of capacity max(4, pageCount) and the screen width as target width |
| PdfPages.PdfPageAdapter.ItemCount | app/src/main/java/uz/doc/test/viewer/PdfPageAdapter.java:61-63 | one item per page |
| PdfPages.PdfPageAdapter.OnBindViewHolder | app/src/main/java/uz/doc/test/viewer/PdfPageAdapter.java:42-58 | shows the page rendered at the target width; a hit calls nothing; a miss opens, renders and closes the page and caches it; no page is rendered twice |
| Slides.NewSlideItem | app/src/main/java/uz/doc/test/viewer/PptxSlideAdapter.java:27-31 | stores the number and image bytes; a null text becomes "" |
| Slides.FirstImageSpec | app/src/main/java/uz/doc/test/viewer/DocumentViewerActivity.java:244-250 | no image exactly when no picture could be read; otherwise the first readable picture's bytes |
| Slides.SlideTextSpec | app/src/main/java/uz/doc/test/viewer/DocumentViewerActivity.java:231-243 | the slide text is trimmed at both ends and empty exactly when no text shape has non-blank text |
| Slides.ExtractSlide | app/src/main/java/uz/doc/test/viewer/DocumentViewerActivity.java:231-251 | the loop over the shapes computes the slide text and the first image |
| Slides.ParsedCount | app/src/main/java/uz/doc/test/viewer/DocumentViewerActivity.java:225-257 | all slides are kept unless parsing throws at slide k, which keeps the first k |
| Slides.ExtractSlides | app/src/main/java/uz/doc/test/viewer/DocumentViewerActivity.java:223-257 | one item per slide parsed before a failure, item i numbered i + 1 with its text and first image |
| Slides.Bind | app/src/main/java/uz/doc/test/viewer/PptxSlideAdapter.java:75-98 | the text is shown exactly when it is not blank; the image exactly when there are bytes and they decode |
| Slides.SlideTitle | app/src/main/java/uz/doc/test/viewer/PptxSlideAdapter.java:76 | the title is "Slide " followed by the slide number, which reads back |
| Slides.ExtractedSlideShown | app/src/main/java/uz/doc/test/viewer/DocumentViewerActivity.java:253 | an extracted slide shows text exactly when one of its text shapes has non-blank text |
| Slides.SlideList.constructor | app/src/main/java/uz/doc/test/viewer/PptxSlideAdapter.java:35-39 | starts with no slides |
| Slides.SlideList.SetSlides | app/src/main/java/uz/doc/test/viewer/PptxSlideAdapter.java:41-44 | stores the list, or the empty list for null |
| Slides.SlideList.ItemCount | app/src/main/java/uz/doc/test/viewer/PptxSlideAdapter.java:58-60 | one item per slide |
| Slides.SlideList.BindRow | app/src/main/java/uz/doc/test/viewer/PptxSlideAdapter.java:54-56 | binds the slide at the position |
| Viewer.ResolveFile | app/src/main/java/uz/doc/test/viewer/DocumentViewerActivity.java:150-157 | an asset opens its internal-storage copy; a user file opens its own path |
| Viewer.LoadDocument | app/src/main/java/uz/doc/test/viewer/DocumentViewerActivity.java:138-216 | a missing file shows the error; otherwise a PDF opens its pages (or errors when the renderer fails), a PPTX starts extraction, and anything else gets the placeholder |
| Viewer.CompleteExtraction | app/src/main/java/uz/doc/test/viewer/DocumentViewerActivity.java:259-269 | dropped when finishing; the error for no slides; otherwise the slides are installed |
| Viewer.ExtractionOutcome | app/src/main/java/uz/doc/test/viewer/DocumentViewerActivity.java:223-269 | extraction ends in the error state exactly when the deck is empty or fails at its first slide; installed rows are numbered from 1 |

## Left out

- Copying an asset to internal storage, opening asset streams and the asset existence check are file I/O. The model takes their outcome as an input: the file `Viewer.LoadDocument` receives, or whether it exists.
- Folder listings come from a `FileManager.Storage` value. `File.delete` and `File.exists` are boolean parameters.
- The human-readable file size (`getFileSizeString`) uses floating-point logarithms and is not modelled. So is the page height, a rounded float ratio; a bitmap is identified by page and width.
- Threads are not modelled: the 250 ms timer, the single-thread executors and `runOnUiThread`. They appear as `Search.Event`s in the order they fire. Shutting the executors down in `onDestroy` is not modelled.
- Persistence is not modelled: SharedPreferences storage and the Gson encoding of the recent list. `SharedPrefs.Store` keeps the stored values as fields, and a missing key is `None`.
- The adapters' view inflation, visibility toggling, the WebView placeholder HTML, sharing, downloading and the favourite button are not modelled. Neither are the favourites and recent screens that join these stores with the index.
- `Strings.Lower` folds ASCII letters only. `String.toLowerCase` follows the default locale and all of Unicode.
- StringHash.HashCode: hashes UTF-16 code units taken as the Dafny characters, with no surrogate handling.
- Null strings in a `Document` are modelled as the empty string. A null query is not modelled.
- `List.sort` is modelled as a stable insertion sort (`TitleSort.SortByTitle`). It is specified by its sortedness, permutation and stability, which is what TimSort also guarantees.
- Search.SearchState: the token is an unbounded integer. The source's `int` would wrap after 2^31 searches.
- The clear icon's visibility before the first keystroke is a layout attribute and is not modelled.
- `LruCache` is a pure value (`Lru.Cache`) with every entry of size one. Its internal locking and hit/miss statistics are not modelled.
- The Apache POI slide parser and `BitmapFactory` are abstract:
  - a deck is a list of shape lists;
  - a failing parse is the index of the slide where it throws;
  - decoding is a predicate parameter.
- FileManager's `categoryCache` field is never read or written after construction, so it is not modelled.
- The singletons (`getInstance`) are not modelled; each class is constructed directly.
