/** The records of the listing store (AdModel, CategoryModel, TypeModel), the
    transfer objects the API hands out (AdDTO, CategoryDTO, TypeDTO) and the
    validation that the `[Required]` annotations impose on incoming payloads. */
module Models {

  datatype Option<+T> = None | Some(value: T)

  /** An ad listing row. Nullable strings are `Option<string>`; the decimal price
      is an exact `real` (nothing computes with it); the timestamp is an opaque
      tick count. `adId` is the table's key. The navigation properties
      (ApplicationUser, Category, Type) are not represented; only their
      foreign-key ids are. */
  datatype AdModel = AdModel(
    adId: int,
    applicationUserId: Option<string>,
    categoryId: int,
    typeId: int,
    title: Option<string>,
    description: Option<string>,
    price: Option<real>,
    timestamp: int,
    location: Option<string>,
    imagePath: Option<string>)

  /** A listing category; `name` is the `Category` column. */
  datatype CategoryModel = CategoryModel(categoryId: int, name: Option<string>)

  /** A listing type ("For Sale" / "Wanted"); `name` is the `Type` column. */
  datatype TypeModel = TypeModel(typeId: int, name: Option<string>)

  /** The flat projection of an ad, with the category and type display names. */
  datatype AdDTO = AdDTO(
    adId: int,
    applicationUserId: Option<string>,
    categoryId: int,
    categoryName: Option<string>,
    typeId: int,
    typeName: Option<string>,
    title: Option<string>,
    description: Option<string>,
    price: Option<real>,
    timestamp: int,
    location: Option<string>,
    imagePath: Option<string>)

  datatype CategoryDTO = CategoryDTO(categoryId: int, name: Option<string>)

  datatype TypeDTO = TypeDTO(typeId: int, name: Option<string>)

  /** The characters .NET's `Char.IsWhiteSpace` accepts, which `String.Trim`
      strips: the control characters 9 to 13 and 133, and the Unicode space,
      line and paragraph separators. */
  predicate IsWhiteSpace(c: char) {
    var n := c as int;
    (9 <= n <= 13) || n == 0x20 || n == 0x85 || n == 0xA0 || n == 0x1680
    || (0x2000 <= n <= 0x200A) || n == 0x2028 || n == 0x2029 || n == 0x202F
    || n == 0x205F || n == 0x3000
  }

  /** True when trimming `s` leaves nothing. */
  predicate IsBlank(s: string) {
    forall i :: 0 <= i < |s| ==> IsWhiteSpace(s[i])
  }

  /** `[Required]` on a string property: present, and not empty once trimmed
      (the default `AllowEmptyStrings = false`). */
  predicate RequiredString(s: Option<string>) {
    s.Some? && !IsBlank(s.value)
  }

  /** `ModelState.IsValid` for an AdModel payload: Title, Description and
      Location are `[Required]`; Timestamp is `[Required]` but a non-nullable
      value, so it always passes; the other properties carry no annotation. */
  predicate AdModelValid(a: AdModel) {
    RequiredString(a.title) && RequiredString(a.description) && RequiredString(a.location)
  }

  /** `ModelState.IsValid` for a CategoryModel payload: the name is `[Required]`. */
  predicate CategoryValid(c: CategoryModel) {
    RequiredString(c.name)
  }

  /** `ModelState.IsValid` for a TypeModel payload: the name is `[Required]`. */
  predicate TypeValid(t: TypeModel) {
    RequiredString(t.name)
  }

  /** A [Required] string that is present and has one non-white character passes. */
  lemma RequiredStringWitness(s: string, i: nat)
    requires i < |s| && !IsWhiteSpace(s[i])
    ensures RequiredString(Some(s))
  {
  }

  /** Absent strings, and present strings made only of white space (the
      empty string among them), fail [Required]; with RequiredStringWitness
      this is the whole rule. */
  lemma RequiredStringRejects(s: Option<string>)
    ensures s == None ==> !RequiredString(s)
    ensures s.Some? && IsBlank(s.value) ==> !RequiredString(s)
  {
  }

  /** Validity of an ad depends on Title, Description and Location only: Price
      and ImagePath are optional, and so are the owner and the references. */
  lemma AdValidityIgnoresOptionalFields(a: AdModel, b: AdModel)
    requires a.title == b.title && a.description == b.description && a.location == b.location
    ensures AdModelValid(a) <==> AdModelValid(b)
  {
  }

  /** Builds the DTO from a row and the looked-up display names; `withImage`
      says whether ImagePath is copied (only GetOneAd copies it). */
  function ToDTO(a: AdModel, categoryName: Option<string>, typeName: Option<string>, withImage: bool): AdDTO
  {
    AdDTO(a.adId, a.applicationUserId, a.categoryId, categoryName, a.typeId, typeName,
          a.title, a.description, a.price, a.timestamp, a.location,
          if withImage then a.imagePath else None)
  }

  /** The AdModel a DTO describes, dropping the two display names. */
  function FromDTO(d: AdDTO): AdModel
  {
    AdModel(d.adId, d.applicationUserId, d.categoryId, d.typeId, d.title, d.description,
            d.price, d.timestamp, d.location, d.imagePath)
  }

  /** The DTO carries every scalar field of the row unchanged: reading it back
      gives the row, without ImagePath unless it was copied. */
  lemma DTORoundTrip(a: AdModel, categoryName: Option<string>, typeName: Option<string>, withImage: bool)
    ensures FromDTO(ToDTO(a, categoryName, typeName, withImage))
            == if withImage then a else a.(imagePath := None)
    ensures ToDTO(a, categoryName, typeName, withImage).categoryName == categoryName
    ensures ToDTO(a, categoryName, typeName, withImage).typeName == typeName
  {
  }
}
