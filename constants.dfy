/** Fixed names: category folders, file extensions, the asset base path. */
module Constants {
  import opened Wrappers
  import opened Strings

  /** Category folders sit directly under the asset root. */
  const AssetsBasePath: string := ""

  const CategoryMaruzalar: string := "maruzalar"
  const CategoryAdabiyotlar: string := "adabiyotlar"
  const CategoryLabaratoriya: string := "labaratoriya"
  const CategoryAmaliyMashgulot: string := "amaliy"
  const CategoryMasalalar: string := "masalalar"
  const CategorySillabus: string := "sillabus"

  const ExtPdf: string := ".pdf"
  const ExtPptx: string := ".pptx"
  const ExtPpt: string := ".ppt"

  /** The six categories, in the order the whole-library listing visits them. */
  const CategoryOrder: seq<string> := [CategoryMaruzalar, CategoryAdabiyotlar, CategoryLabaratoriya,
                                       CategoryAmaliyMashgulot, CategoryMasalalar, CategorySillabus]

  /** No two category ids are equal. */
  lemma CategoryIdsDistinct()
    ensures |CategoryOrder| == 6
    ensures forall i, j :: 0 <= i < j < |CategoryOrder| ==> CategoryOrder[i] != CategoryOrder[j]
  {
  }

  /**
   * assetCategoryPath over an arbitrary base path: "" for a null or blank
   * id, the id itself when the base is null or blank, otherwise base/id.
   */
  function CategoryPathUnder(base: Option<string>, categoryId: Option<string>): (r: string)
    ensures (categoryId.None? || IsBlank(categoryId.value)) ==> r == ""
    ensures categoryId.Some? && !IsBlank(categoryId.value) && (base.None? || IsBlank(base.value)) ==>
              r == categoryId.value
    ensures categoryId.Some? && !IsBlank(categoryId.value) && base.Some? && !IsBlank(base.value) ==>
              r == base.value + "/" + categoryId.value
  {
    TrimEmptyIffBlank(if categoryId.Some? then categoryId.value else "");
    TrimEmptyIffBlank(if base.Some? then base.value else "");
    if categoryId.None? || Trim(categoryId.value) == "" then ""
    else if base.None? || Trim(base.value) == "" then categoryId.value
    else base.value + "/" + categoryId.value
  }

  /** The AssetManager-relative folder of a category. */
  function AssetCategoryPath(categoryId: Option<string>): string
  {
    CategoryPathUnder(Some(AssetsBasePath), categoryId)
  }

  /** With the empty base, the asset folder of every non-blank id is the id itself. */
  lemma AssetCategoryPathIsId(categoryId: string)
    ensures AssetCategoryPath(Some(categoryId)) == if IsBlank(categoryId) then "" else categoryId
  {
  }

  /** The three recognised extensions, none a suffix of another. */
  lemma ExtensionsDistinct()
    ensures ExtPdf == ".pdf" && ExtPptx == ".pptx" && ExtPpt == ".ppt"
    ensures ExtPdf != ExtPptx && ExtPptx != ExtPpt && ExtPdf != ExtPpt
  {
  }
}
