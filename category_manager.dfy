/**
 * The category registry: six fixed categories built once, looked up by id.
 */
module CategoryManager {
  import opened Wrappers
  import Constants

  /** The drawable resources of the six categories; `NoIcon` stands for resource id 0. */
  datatype Icon = NoIcon | IcLecture | IcBook | IcLab | IcPractise | IcProblem | IcSyllabus

  /** A category: id, English name, Uzbek name, icon and folder path. */
  datatype Category = Category(id: string, name: string, nameUz: string, icon: Icon, folderPath: string)

  /** The folder path a registry entry records: ASSETS_BASE_PATH + "/" + id. */
  function RegistryFolder(id: string): string
  {
    Constants.AssetsBasePath + "/" + id
  }

  /** The six registry entries, in the order they are added. */
  function Registry(): seq<Category>
  {
    [ Category(Constants.CategoryMaruzalar, "Lectures", "Ma'ruzalar", IcLecture, RegistryFolder(Constants.CategoryMaruzalar)),
      Category(Constants.CategoryAdabiyotlar, "Literature", "Adabiyotlar", IcBook, RegistryFolder(Constants.CategoryAdabiyotlar)),
      Category(Constants.CategoryLabaratoriya, "Laboratory", "Labaratoriya", IcLab, RegistryFolder(Constants.CategoryLabaratoriya)),
      Category(Constants.CategoryAmaliyMashgulot, "Practical", "Amaliy mashg'ulot", IcPractise,
               RegistryFolder(Constants.CategoryAmaliyMashgulot)),
      Category(Constants.CategoryMasalalar, "Problems", "Masalalar", IcProblem, RegistryFolder(Constants.CategoryMasalalar)),
      Category(Constants.CategorySillabus, "Syllabus", "Sillabus", IcSyllabus, RegistryFolder(Constants.CategorySillabus)) ]
  }

  /** The ids of a list of categories, in order. */
  function Ids(cs: seq<Category>): (r: seq<string>)
    ensures |r| == |cs| && forall i :: 0 <= i < |cs| ==> r[i] == cs[i].id
  {
    if |cs| == 0 then [] else [cs[0].id] + Ids(cs[1..])
  }

  /**
   * The registry holds six categories with pairwise distinct ids, in the
   * order the whole-library listing visits them; every one has an icon.
   */
  lemma RegistryShape()
    ensures |Registry()| == 6
    ensures Ids(Registry()) == Constants.CategoryOrder
    ensures forall i, j :: 0 <= i < j < |Registry()| ==> Registry()[i].id != Registry()[j].id
    ensures forall c :: c in Registry() ==> c.icon != NoIcon
  {
    Constants.CategoryIdsDistinct();
  }

  /**
   * The folder path a category records is "/" + id, which is never the
   * folder the asset scan reads (the id itself).
   */
  lemma RegistryFolderUnused(c: Category)
    requires c in Registry()
    ensures c.folderPath == "/" + c.id
    ensures c.folderPath != Constants.AssetCategoryPath(Some(c.id))
  {
    Constants.AssetCategoryPathIsId(c.id);
    assert c.folderPath[0] == '/';
    assert c.id[0] != '/';
  }

  /** Position `k` holds the first category of `cs` with this id. */
  predicate FirstWithId(cs: seq<Category>, id: string, k: int)
  {
    0 <= k < |cs| && cs[k].id == id && forall j :: 0 <= j < k ==> cs[j].id != id
  }

  /** The first category of `cs` with this id. */
  function FindCategory(cs: seq<Category>, id: string): (r: Option<Category>)
    ensures r.None? <==> forall c :: c in cs ==> c.id != id
    ensures r.Some? ==> exists k :: 0 <= k < |cs| && cs[k] == r.value && r.value.id == id
                          && forall j :: 0 <= j < k ==> cs[j].id != id
  {
    if |cs| == 0 then None
    else if cs[0].id == id then Some(cs[0])
    else
      var r := FindCategory(cs[1..], id);
      assert forall c :: c in cs ==> c == cs[0] || c in cs[1..];
      if r.Some? then
        var k :| 0 <= k < |cs[1..]| && cs[1..][k] == r.value && r.value.id == id
                   && forall j :: 0 <= j < k ==> cs[1..][j].id != id;
        assert cs[k + 1] == r.value;
        assert forall j :: 1 <= j < k + 1 ==> cs[j] == cs[1..][j - 1];
        r
      else r
  }

  /** In the registry an id is found exactly when it is one of the six, and then at its own position. */
  lemma RegistryLookup(id: string)
    ensures FindCategory(Registry(), id).Some? <==> id in Constants.CategoryOrder
    ensures forall i :: 0 <= i < 6 && Constants.CategoryOrder[i] == id ==> FindCategory(Registry(), id) == Some(Registry()[i])
  {
    RegistryShape();
    var r := FindCategory(Registry(), id);
    if r.Some? {
      var k :| 0 <= k < 6 && Registry()[k] == r.value && r.value.id == id;
      assert Constants.CategoryOrder[k] == id;
    } else {
      assert forall i :: 0 <= i < 6 ==> Registry()[i].id != id;
    }
  }

  class Manager {
    var categories: seq<Category>

    /** The list is the registry: only initializeCategories writes it. */
    ghost predicate Valid()
      reads this
    {
      categories == Registry()
    }

    /** The single instance: the registry as initializeCategories builds it. */
    constructor ()
      ensures Valid() && categories == Registry()
    {
      categories := [];
      new;
      InitializeCategories();
    }

    /** initializeCategories: a new list, then the six entries appended one by one. */
    method InitializeCategories()
      modifies this
      ensures Valid() && categories == Registry()
    {
      categories := [];
      categories := categories + [Category(Constants.CategoryMaruzalar, "Lectures", "Ma'ruzalar", IcLecture,
                                           RegistryFolder(Constants.CategoryMaruzalar))];
      categories := categories + [Category(Constants.CategoryAdabiyotlar, "Literature", "Adabiyotlar", IcBook,
                                           RegistryFolder(Constants.CategoryAdabiyotlar))];
      categories := categories + [Category(Constants.CategoryLabaratoriya, "Laboratory", "Labaratoriya", IcLab,
                                           RegistryFolder(Constants.CategoryLabaratoriya))];
      categories := categories + [Category(Constants.CategoryAmaliyMashgulot, "Practical", "Amaliy mashg'ulot", IcPractise,
                                           RegistryFolder(Constants.CategoryAmaliyMashgulot))];
      categories := categories + [Category(Constants.CategoryMasalalar, "Problems", "Masalalar", IcProblem,
                                           RegistryFolder(Constants.CategoryMasalalar))];
      categories := categories + [Category(Constants.CategorySillabus, "Syllabus", "Sillabus", IcSyllabus,
                                           RegistryFolder(Constants.CategorySillabus))];
    }

    /** getAllCategories: a copy of the list; the caller's copy is a separate value. */
    method AllCategories() returns (r: seq<Category>)
      requires Valid()
      ensures r == categories && r == Registry()
    {
      r := categories;
    }

    /** getCategoryById: the first category with this id, or null. */
    method CategoryById(categoryId: string) returns (r: Option<Category>)
      requires Valid()
      ensures r == FindCategory(categories, categoryId)
      ensures r.Some? <==> categoryId in Constants.CategoryOrder
      ensures r.Some? ==> r.value in Registry() && r.value.id == categoryId
    {
      RegistryLookup(categoryId);
      for i := 0 to |categories|
        invariant FindCategory(categories[i..], categoryId) == FindCategory(categories, categoryId)
      {
        assert categories[i..][1..] == categories[i + 1..];
        if categories[i].id == categoryId {
          return Some(categories[i]);
        }
      }
      return None;
    }

    /** getCategoryNameUz: the Uzbek name of the category, or "" for an unknown id. */
    method CategoryNameUz(categoryId: string) returns (r: string)
      requires Valid()
      ensures r == "" <==> categoryId !in Constants.CategoryOrder
      ensures (forall c :: c in categories ==> c.id != categoryId) ==> r == ""
      ensures forall k :: FirstWithId(categories, categoryId, k) ==> r == categories[k].nameUz
    {
      var category := CategoryById(categoryId);
      r := if category.Some? then category.value.nameUz else "";
    }

    /** getCategoryIcon: the icon of the category, or 0 for an unknown id. */
    method CategoryIcon(categoryId: string) returns (r: Icon)
      requires Valid()
      ensures r == NoIcon <==> categoryId !in Constants.CategoryOrder
      ensures (forall c :: c in categories ==> c.id != categoryId) ==> r == NoIcon
      ensures forall k :: FirstWithId(categories, categoryId, k) ==> r == categories[k].icon
    {
      var category := CategoryById(categoryId);
      r := if category.Some? then category.value.icon else NoIcon;
    }
  }
}
