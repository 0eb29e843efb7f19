/** The ad-listing API controller over its store: the three tables (ads,
    categories, types) in key order, the identity counters the store draws new
    keys from, and, apart from the store, the listing-images directory.
    Each handler is the controller's guard chain ending in a status code and
    a table update. */
module PazarApi {
  import opened Models
  import opened Tables
  import opened ImageFiles
  import opened Listings
  import opened Store

  /** The HTTP results the handlers produce: 200, 204, 400, 404 and 500. */
  datatype Status = Ok | NoContent | BadRequest | NotFound | ServerError

  function FileSet(f: Option<string>): set<string>
  {
    match f
    case None => {}
    case Some(p) => {p}
  }

  /** The listing-images directory on disk, as the set of the paths of the
      files in it. */
  class ImageDirectory {
    var files: set<string>

    constructor ()
      ensures files == {}
    {
      files := {};
    }

    /** `File.Exists(path)`: the directory abstraction itself, a file
        exists exactly when it is in `files`. */
    predicate Exists(path: string)
      reads this
    {
      path in files
    }

    /** `File.Delete(path)`. */
    method Delete(path: string)
      modifies this
      ensures files == old(files) - {path}
    {
      files := files - {path};
    }

    /** `HttpPostedFile.SaveAs(path)`: the file is written, replacing any file
        of that name. */
    method SaveAs(path: string)
      modifies this
      ensures files == old(files) + {path}
    {
      files := files + {path};
    }
  }

  class PazarApiController {
    var ads: seq<AdModel>
    var categories: seq<CategoryModel>
    var types: seq<TypeModel>
    /** The next values of the three identity columns. */
    var nextAdId: int
    var nextCategoryId: int
    var nextTypeId: int
    /** Where the listings' images are stored. */
    const imageDirectory: ImageDirectory

    /** The store's integrity: keys unique and in order, below the identity
        counters; every ad's CategoryId and TypeId name existing rows (the
        foreign keys); every row passed its model validation when written. */
    ghost predicate Valid()
      reads this
    {
      && AdsValid(ads, categories, types, nextAdId)
      && CategoriesValid(categories, nextCategoryId)
      && TypesValid(types, nextTypeId)
    }

    /** A freshly migrated store: empty tables, identity columns starting at 1. */
    constructor (directory: ImageDirectory)
      ensures Valid()
      ensures ads == [] && categories == [] && types == [] && imageDirectory == directory
      ensures nextAdId == 1 && nextCategoryId == 1 && nextTypeId == 1
    {
      ads, categories, types := [], [], [];
      nextAdId, nextCategoryId, nextTypeId := 1, 1, 1;
      imageDirectory := directory;
    }

    /** `AdExists`: `db.Ads.Count(e => e.AdId == id) > 0`. */
    predicate AdExists(id: int)
      reads this
      ensures AdExists(id) <==> Find(ads, AdKey, id).Some?
    {
      Count(ads, AdKey, id) > 0
    }

    /** `CategoryExists`: `db.Categories.Count(e => e.CategoryId == id) > 0`. */
    predicate CategoryExists(id: int)
      reads this
      ensures CategoryExists(id) <==> Find(categories, CategoryKey, id).Some?
    {
      Count(categories, CategoryKey, id) > 0
    }

    /** `TypeExists`: `db.Types.Count(e => e.TypeId == id) > 0`. */
    predicate TypeExists(id: int)
      reads this
      ensures TypeExists(id) <==> Find(types, TypeKey, id).Some?
    {
      Count(types, TypeKey, id) > 0
    }

    /** The projection loop every list endpoint repeats: one DTO per row, the
        category and type names looked up by id, ImagePath left unset. */
    method ProjectRows(rows: seq<AdModel>) returns (list: seq<AdDTO>)
      requires Valid()
      requires forall i :: 0 <= i < |rows| ==> ReferencesResolve(rows[i], categories, types)
      ensures list == ProjectAll(rows, categories, types)
    {
      list := [];
      for i := 0 to |rows|
        invariant |list| == i
        invariant forall k :: 0 <= k < i ==> list[k] == Project(rows[k], categories, types, false)
      {
        var element := rows[i];
        var category := Find(categories, CategoryKey, element.categoryId).value;
        var adType := Find(types, TypeKey, element.typeId).value;
        list := list + [ToDTO(element, category.name, adType.name, false)];
      }
    }

    /** `GetAllAds`: every ad, projected, in table order. */
    method GetAllAds() returns (status: Status, list: seq<AdDTO>)
      requires Valid()
      ensures status == Ok
      ensures list == ProjectAll(ads, categories, types)
    {
      list := ProjectRows(ads);
      status := Ok;
    }

    /** `Search`: the ads whose title or description contains the query,
        projected, in table order. */
    method Search(queryParameter: string) returns (status: Status, list: seq<AdDTO>)
      requires Valid()
      ensures status == Ok
      ensures forall i :: 0 <= i < |SearchHits(ads, queryParameter)| ==>
                ReferencesResolve(SearchHits(ads, queryParameter)[i], categories, types)
      ensures list == ProjectAll(SearchHits(ads, queryParameter), categories, types)
    {
      FilterResolves(ads, categories, types, nextAdId, (a: AdModel) => MatchesQuery(a, queryParameter));
      list := ProjectRows(SearchHits(ads, queryParameter));
      status := Ok;
    }

    /** `GetUserAds`: for role "User" the caller's own ads, for "Admin" every
        ad whatever the user id, for any other role NotFound. */
    method GetUserAds(userId: string, userRole: string) returns (status: Status, list: seq<AdDTO>)
      requires Valid()
      ensures userRole == "User" ==>
                status == Ok
                && (forall i :: 0 <= i < |OwnedBy(ads, userId)| ==>
                      ReferencesResolve(OwnedBy(ads, userId)[i], categories, types))
                && list == ProjectAll(OwnedBy(ads, userId), categories, types)
      ensures userRole == "Admin" ==> status == Ok && list == ProjectAll(ads, categories, types)
      ensures userRole != "User" && userRole != "Admin" ==> status == NotFound && list == []
    {
      var userAds: seq<AdModel>;
      if userRole == "User" {
        FilterResolves(ads, categories, types, nextAdId, (a: AdModel) => a.applicationUserId == Some(userId));
        userAds := OwnedBy(ads, userId);
      } else if userRole == "Admin" {
        userAds := ads;
      } else {
        return NotFound, [];
      }
      list := ProjectRows(userAds);
      status := Ok;
    }

    /** `GetOneAd`: the one ad with its ImagePath copied. A missing id
        dereferences null, which the framework reports as a 500. */
    method GetOneAd(id: int) returns (status: Status, dto: Option<AdDTO>)
      requires Valid()
      ensures id !in Keys(ads, AdKey) ==> status == ServerError && dto == None
      ensures id in Keys(ads, AdKey) ==>
                var ad := Find(ads, AdKey, id).value;
                status == Ok && dto.Some? && FromDTO(dto.value) == ad
                && dto.value.categoryName == CategoryName(categories, ad.categoryId)
                && dto.value.typeName == TypeName(types, ad.typeId)
    {
      var oneAd := Find(ads, AdKey, id);
      if oneAd.None? {
        return ServerError, None;
      }
      var ad := oneAd.value;
      ghost var j :| 0 <= j < |ads| && ads[j] == ad;
      var category := Find(categories, CategoryKey, ad.categoryId).value;
      var adType := Find(types, TypeKey, ad.typeId).value;
      status, dto := Ok, Some(ToDTO(ad, category.name, adType.name, true));
    }

    /** `GetAllCategories`: every category as a DTO, in table order. */
    method GetAllCategories() returns (status: Status, list: seq<CategoryDTO>)
      ensures status == Ok && |list| == |categories|
      ensures forall i :: 0 <= i < |list| ==>
                list[i].categoryId == categories[i].categoryId && list[i].name == categories[i].name
    {
      list := [];
      for i := 0 to |categories|
        invariant |list| == i
        invariant forall k :: 0 <= k < i ==>
                    list[k].categoryId == categories[k].categoryId && list[k].name == categories[k].name
      {
        list := list + [CategoryDTO(categories[i].categoryId, categories[i].name)];
      }
      status := Ok;
    }

    /** `GetAllTypes`: every type as a DTO, in table order. */
    method GetAllTypes() returns (status: Status, list: seq<TypeDTO>)
      ensures status == Ok && |list| == |types|
      ensures forall i :: 0 <= i < |list| ==>
                list[i].typeId == types[i].typeId && list[i].name == types[i].name
    {
      list := [];
      for i := 0 to |types|
        invariant |list| == i
        invariant forall k :: 0 <= k < i ==> list[k].typeId == types[k].typeId && list[k].name == types[k].name
      {
        list := list + [TypeDTO(types[i].typeId, types[i].name)];
      }
      status := Ok;
    }

    /** `AddAd`: an invalid payload is refused; otherwise the row is inserted
        under the next identity value (the payload's AdId is ignored). A
        CategoryId or TypeId naming no row violates a foreign key when the
        store saves, an exception nothing catches: 500 and no row, but the
        identity value the failed insert drew is used up. */
    method AddAd(newAd: AdModel) returns (status: Status)
      requires Valid()
      modifies this`ads, this`nextAdId
      ensures Valid()
      ensures !AdModelValid(newAd) ==> status == BadRequest && ads == old(ads) && nextAdId == old(nextAdId)
      ensures AdModelValid(newAd) && !ReferencesResolve(newAd, old(categories), old(types)) ==>
                status == ServerError && ads == old(ads) && nextAdId == old(nextAdId) + 1
      ensures AdModelValid(newAd) && ReferencesResolve(newAd, old(categories), old(types)) ==>
                && status == Ok
                && ads == old(ads) + [newAd.(adId := old(nextAdId))]
                && Find(ads, AdKey, old(nextAdId)) == Some(newAd.(adId := old(nextAdId)))
                && (forall k :: k != old(nextAdId) ==> Find(ads, AdKey, k) == Find(old(ads), AdKey, k))
                && nextAdId == old(nextAdId) + 1
    {
      if !AdModelValid(newAd) {
        return BadRequest;
      }
      if !ReferencesResolve(newAd, categories, types) {
        nextAdId := nextAdId + 1;
        return ServerError;
      }
      var row := newAd.(adId := nextAdId);
      assert AdsValid(ads + [row], categories, types, nextAdId + 1) by {
        AddAdKeepsValid(ads, categories, types, nextAdId, newAd);
      }
      assert Find(ads + [row], AdKey, row.adId) == Some(row)
             && forall k :: k != row.adId ==> Find(ads + [row], AdKey, k) == Find(ads, AdKey, k) by {
        forall x | x in ads ensures AdKey(x) < AdKey(row) {
          var i :| 0 <= i < |ads| && ads[i] == x;
        }
        AppendSpec(ads, AdKey, row);
      }
      ads := ads + [row];
      nextAdId := nextAdId + 1;
      status := Ok;
    }

    /** `db.Ads.Remove(ad)` and `SaveChanges`: the row with that AdId goes,
        every other row stays where it was. */
    method RemoveAdRow(adId: int)
      requires Valid() && adId in Keys(ads, AdKey)
      modifies this`ads
      ensures Valid()
      ensures ads == Remove(old(ads), AdKey, adId)
      ensures |ads| == |old(ads)| - 1 && Find(ads, AdKey, adId) == None
      ensures forall k :: k != adId ==> Find(ads, AdKey, k) == Find(old(ads), AdKey, k)
    {
      RemoveSpec(ads, AdKey, adId);
      RemoveShrinksByOne(ads, AdKey, adId);
      RemoveAdKeepsValid(ads, categories, types, nextAdId, adId);
      ads := Remove(ads, AdKey, adId);
    }

    /** The image step of DeleteAd: the file the ad's ImagePath names in the
        listing-images directory is deleted if it exists. */
    method DeleteImageOf(ad: AdModel)
      modifies imageDirectory
      ensures imageDirectory.files == old(imageDirectory.files) - FileSet(ImageFileToDelete(ad.imagePath))
    {
      var imageFile := ImageFileToDelete(ad.imagePath);
      if imageFile.Some? && imageDirectory.Exists(imageFile.value) {
        imageDirectory.Delete(imageFile.value);
      } else {
        assert imageDirectory.files - FileSet(imageFile) == imageDirectory.files;
      }
    }

    /** `DeleteAd`: NotFound for a missing id, BadRequest for a caller who may
        not mutate the ad; otherwise the ad's image file goes and the row
        goes, and nothing else changes. */
    method DeleteAd(adId: int, userId: string, userRole: string) returns (status: Status)
      requires Valid()
      modifies this`ads, imageDirectory
      ensures Valid()
      ensures adId !in Keys(old(ads), AdKey) ==> status == NotFound && ads == old(ads) && imageDirectory.files == old(imageDirectory.files)
      ensures adId in Keys(old(ads), AdKey) ==>
                var ad := Find(old(ads), AdKey, adId).value;
                if !MayMutate(ad, userId, userRole) then status == BadRequest && ads == old(ads) && imageDirectory.files == old(imageDirectory.files)
                else
                  && status == Ok
                  && ads == Remove(old(ads), AdKey, adId)
                  && |ads| == |old(ads)| - 1
                  && Find(ads, AdKey, adId) == None
                  && imageDirectory.files == old(imageDirectory.files) - FileSet(ImageFileToDelete(ad.imagePath))
      ensures status == Ok ==>
                forall k :: k != adId ==> Find(ads, AdKey, k) == Find(old(ads), AdKey, k)
    {
      var oneAd := Find(ads, AdKey, adId);
      if oneAd.None? {
        return NotFound;
      }
      var ad := oneAd.value;
      if ad.applicationUserId != Some(userId) && userRole != "Admin" {
        return BadRequest;
      }
      DeleteImageOf(ad);
      RemoveAdRow(adId);
      status := Ok;
    }

    /** `db.Entry(ad).State = EntityState.Modified` and `SaveChanges`: the
        modified row replaces the stored row with the same AdId. */
    method WriteBackAd(row: AdModel)
      requires Valid()
      requires row.adId in Keys(ads, AdKey)
      requires AdModelValid(row) && ReferencesResolve(row, categories, types)
      modifies this`ads
      ensures Valid()
      ensures ads == Replace(old(ads), AdKey, row)
      ensures Find(ads, AdKey, row.adId) == Some(row)
      ensures forall k :: k != row.adId ==> Find(ads, AdKey, k) == Find(old(ads), AdKey, k)
    {
      ReplaceSpec(ads, AdKey, row);
      ReplaceAdKeepsValid(ads, categories, types, nextAdId, row);
      ads := Replace(ads, AdKey, row);
    }

    /** `UpdateAd`: checks in order the payload's validity (BadRequest), the
        id's presence (NotFound), that the payload names the same AdId
        (BadRequest) and the caller's right to mutate (BadRequest); each
        refusal changes nothing. Then CategoryId, TypeId, Title, Description,
        Price, Timestamp and Location are copied from the payload, and the
        result is NoContent; a copied reference naming no row fails the
        save's foreign key check, which is not caught: 500, nothing changes. */
    method UpdateAd(adId: int, userId: string, userRole: string, updatedAd: AdModel) returns (status: Status)
      requires Valid()
      modifies this`ads
      ensures Valid()
      ensures !AdModelValid(updatedAd) ==> status == BadRequest && ads == old(ads)
      ensures AdModelValid(updatedAd) && adId !in Keys(old(ads), AdKey) ==> status == NotFound && ads == old(ads)
      ensures AdModelValid(updatedAd) && adId in Keys(old(ads), AdKey) ==>
                var ad := Find(old(ads), AdKey, adId).value;
                if updatedAd.adId != adId then status == BadRequest && ads == old(ads)
                else if !MayMutate(ad, userId, userRole) then status == BadRequest && ads == old(ads)
                else if !ReferencesResolve(updatedAd, old(categories), old(types)) then
                  status == ServerError && ads == old(ads)
                else
                  && status == NoContent
                  && ads == Replace(old(ads), AdKey, ApplyUpdate(ad, updatedAd))
                  && Find(ads, AdKey, adId) == Some(ApplyUpdate(ad, updatedAd))
      ensures status == NoContent ==>
                forall k :: k != adId ==> Find(ads, AdKey, k) == Find(old(ads), AdKey, k)
    {
      if !AdModelValid(updatedAd) {
        return BadRequest;
      }
      var existing := Find(ads, AdKey, adId);
      if !AdExists(adId) {
        return NotFound;
      }
      var existingAd := existing.value;
      if existingAd.adId != adId || existingAd.adId != updatedAd.adId {
        return BadRequest;
      }
      if existingAd.applicationUserId != Some(userId) && userRole != "Admin" {
        return BadRequest;
      }
      if !ReferencesResolve(updatedAd, categories, types) {
        return ServerError;
      }
      var row := ApplyUpdate(existingAd, updatedAd);
      ApplyUpdateIsPayloadWithKeptFields(existingAd, updatedAd);
      WriteBackAd(row);
      status := NoContent;
    }

    /** `InsertImageToAd`: NotFound for a missing id, BadRequest for a caller
        who may not mutate the ad. Then an upload that is not exactly one
        non-empty multipart file with an allowed extension is ignored (200,
        no change); a file name without an extension makes `Substring(1)`
        throw (500, no change); an accepted file is written as
        `{adId}.{ext}` in the listing-images directory, replacing any file of
        that name, and its path becomes the ad's ImagePath. */
    method InsertImageToAd(adId: int, userId: string, userRole: string, upload: ImageUpload) returns (status: Status)
      requires Valid()
      modifies this`ads, imageDirectory
      ensures Valid()
      ensures adId !in Keys(old(ads), AdKey) ==> status == NotFound && ads == old(ads) && imageDirectory.files == old(imageDirectory.files)
      ensures adId in Keys(old(ads), AdKey) ==>
                var ad := Find(old(ads), AdKey, adId).value;
                if !MayMutate(ad, userId, userRole) then status == BadRequest && ads == old(ads) && imageDirectory.files == old(imageDirectory.files)
                else match ClassifyUpload(upload)
                  case Ignored => status == Ok && ads == old(ads) && imageDirectory.files == old(imageDirectory.files)
                  case Unreadable => status == ServerError && ads == old(ads) && imageDirectory.files == old(imageDirectory.files)
                  case Accepted(ext) =>
                    && status == Ok
                    && ads == Replace(old(ads), AdKey, ad.(imagePath := Some(StoredImagePath(adId, ext))))
                    && Find(ads, AdKey, adId) == Some(ad.(imagePath := Some(StoredImagePath(adId, ext))))
                    && imageDirectory.files == old(imageDirectory.files) + {StoredImagePath(adId, ext)}
      ensures status == Ok ==>
                forall k :: k != adId ==> Find(ads, AdKey, k) == Find(old(ads), AdKey, k)
    {
      var existing := Find(ads, AdKey, adId);
      if !AdExists(adId) {
        return NotFound;
      }
      var existingAd := existing.value;
      if existingAd.applicationUserId != Some(userId) && userRole != "Admin" {
        return BadRequest;
      }
      match ClassifyUpload(upload)
      case Ignored =>
        status := Ok;
      case Unreadable =>
        status := ServerError;
      case Accepted(ext) =>
        var fullImagePath := StoredImagePath(adId, ext);
        imageDirectory.SaveAs(fullImagePath);
        WriteBackAd(existingAd.(imagePath := Some(fullImagePath)));
        status := Ok;
    }

    /** `UpdateCategory`: an invalid payload is refused (BadRequest), a
        missing id is NotFound; otherwise only the category's name changes
        and the result is NoContent. */
    method UpdateCategory(editedCategory: CategoryModel) returns (status: Status)
      requires Valid()
      modifies this`categories
      ensures Valid()
      ensures !CategoryValid(editedCategory) ==> status == BadRequest && categories == old(categories)
      ensures CategoryValid(editedCategory) && editedCategory.categoryId !in Keys(old(categories), CategoryKey) ==>
                status == NotFound && categories == old(categories)
      ensures CategoryValid(editedCategory) && editedCategory.categoryId in Keys(old(categories), CategoryKey) ==>
                && status == NoContent
                && categories == Replace(old(categories), CategoryKey, editedCategory)
                && Find(categories, CategoryKey, editedCategory.categoryId) == Some(editedCategory)
                && (forall k :: k != editedCategory.categoryId ==>
                      Find(categories, CategoryKey, k) == Find(old(categories), CategoryKey, k))
    {
      if !CategoryValid(editedCategory) {
        return BadRequest;
      }
      if !CategoryExists(editedCategory.categoryId) {
        return NotFound;
      }
      var existingCategory := Find(categories, CategoryKey, editedCategory.categoryId).value;
      var row := existingCategory.(name := editedCategory.name);
      assert row == editedCategory;
      ReplaceSpec(categories, CategoryKey, row);
      ReplaceCategoryKeepsValid(ads, categories, types, nextAdId, nextCategoryId, row);
      categories := Replace(categories, CategoryKey, row);
      status := NoContent;
    }

    /** `AddCategory`: an invalid payload is refused; otherwise the category
        is inserted under the next identity value. */
    method AddCategory(newCategory: CategoryModel) returns (status: Status)
      requires Valid()
      modifies this`categories, this`nextCategoryId
      ensures Valid()
      ensures !CategoryValid(newCategory) ==> status == BadRequest && categories == old(categories) && nextCategoryId == old(nextCategoryId)
      ensures CategoryValid(newCategory) ==>
                && status == Ok
                && categories == old(categories) + [newCategory.(categoryId := old(nextCategoryId))]
                && nextCategoryId == old(nextCategoryId) + 1
    {
      if !CategoryValid(newCategory) {
        return BadRequest;
      }
      var row := newCategory.(categoryId := nextCategoryId);
      AddCategoryKeepsValid(ads, categories, types, nextAdId, nextCategoryId, newCategory);
      categories := categories + [row];
      nextCategoryId := nextCategoryId + 1;
      status := Ok;
    }

    /** `DeleteCategory`: a missing id is NotFound; otherwise the category goes
        and, through the cascading foreign key, every ad filed under it. Their
        image files stay on disk. */
    method DeleteCategory(id: int) returns (status: Status)
      requires Valid()
      modifies this`categories, this`ads
      ensures Valid()
      ensures id !in Keys(old(categories), CategoryKey) ==> status == NotFound && categories == old(categories) && ads == old(ads)
      ensures id in Keys(old(categories), CategoryKey) ==>
                && status == Ok
                && categories == Remove(old(categories), CategoryKey, id)
                && Keys(categories, CategoryKey) == Keys(old(categories), CategoryKey) - {id}
                && ads == CascadeCategory(old(ads), id)
    {
      var deleteCategory := Find(categories, CategoryKey, id);
      if deleteCategory.None? {
        return NotFound;
      }
      RemoveSpec(categories, CategoryKey, id);
      DeleteCategoryKeepsValid(ads, categories, types, nextAdId, nextCategoryId, id);
      categories := Remove(categories, CategoryKey, id);
      ads := CascadeCategory(ads, id);
      status := Ok;
    }

    /** `UpdateType`: an invalid payload is refused (BadRequest), a missing id
        is NotFound; otherwise only the type's name changes and the result is
        NoContent. */
    method UpdateType(editedType: TypeModel) returns (status: Status)
      requires Valid()
      modifies this`types
      ensures Valid()
      ensures !TypeValid(editedType) ==> status == BadRequest && types == old(types)
      ensures TypeValid(editedType) && editedType.typeId !in Keys(old(types), TypeKey) ==>
                status == NotFound && types == old(types)
      ensures TypeValid(editedType) && editedType.typeId in Keys(old(types), TypeKey) ==>
                && status == NoContent
                && types == Replace(old(types), TypeKey, editedType)
                && Find(types, TypeKey, editedType.typeId) == Some(editedType)
                && (forall k :: k != editedType.typeId ==> Find(types, TypeKey, k) == Find(old(types), TypeKey, k))
    {
      if !TypeValid(editedType) {
        return BadRequest;
      }
      if !TypeExists(editedType.typeId) {
        return NotFound;
      }
      var existingType := Find(types, TypeKey, editedType.typeId).value;
      var row := existingType.(name := editedType.name);
      assert row == editedType;
      ReplaceSpec(types, TypeKey, row);
      ReplaceTypeKeepsValid(ads, categories, types, nextAdId, nextTypeId, row);
      types := Replace(types, TypeKey, row);
      status := NoContent;
    }

    /** `AddType`: an invalid payload is refused; otherwise the type is
        inserted under the next identity value. */
    method AddType(newType: TypeModel) returns (status: Status)
      requires Valid()
      modifies this`types, this`nextTypeId
      ensures Valid()
      ensures !TypeValid(newType) ==> status == BadRequest && types == old(types) && nextTypeId == old(nextTypeId)
      ensures TypeValid(newType) ==>
                && status == Ok
                && types == old(types) + [newType.(typeId := old(nextTypeId))]
                && nextTypeId == old(nextTypeId) + 1
    {
      if !TypeValid(newType) {
        return BadRequest;
      }
      var row := newType.(typeId := nextTypeId);
      AddTypeKeepsValid(ads, categories, types, nextAdId, nextTypeId, newType);
      types := types + [row];
      nextTypeId := nextTypeId + 1;
      status := Ok;
    }

    /** `DeleteType`: a missing id is NotFound; otherwise the type goes and,
        through the cascading foreign key, every ad filed under it. */
    method DeleteType(id: int) returns (status: Status)
      requires Valid()
      modifies this`types, this`ads
      ensures Valid()
      ensures id !in Keys(old(types), TypeKey) ==> status == NotFound && types == old(types) && ads == old(ads)
      ensures id in Keys(old(types), TypeKey) ==>
                && status == Ok
                && types == Remove(old(types), TypeKey, id)
                && Keys(types, TypeKey) == Keys(old(types), TypeKey) - {id}
                && ads == CascadeType(old(ads), id)
    {
      var deleteType := Find(types, TypeKey, id);
      if deleteType.None? {
        return NotFound;
      }
      RemoveSpec(types, TypeKey, id);
      DeleteTypeKeepsValid(ads, categories, types, nextAdId, nextTypeId, id);
      types := Remove(types, TypeKey, id);
      ads := CascadeType(ads, id);
      status := Ok;
    }
  }
}
