/** The rules the API controller applies to listings: the ownership policy,
    the DTO projection with category and type names looked up by id, the
    text search, the per-owner view, the field copy of an update and the
    cascade that deleting a category or type performs on the ads table. */
module Listings {
  import opened Models
  import opened Tables

  function AdKey(a: AdModel): int { a.adId }
  function CategoryKey(c: CategoryModel): int { c.categoryId }
  function TypeKey(t: TypeModel): int { t.typeId }

  /** The foreign keys of an ad point at existing rows. */
  predicate ReferencesResolve(a: AdModel, categories: seq<CategoryModel>, types: seq<TypeModel>)
  {
    a.categoryId in Keys(categories, CategoryKey) && a.typeId in Keys(types, TypeKey)
  }

  /** The ownership policy shared by DeleteAd, UpdateAd and InsertImageToAd:
      the caller owns the ad, or the caller's role is exactly "Admin". */
  predicate MayMutate(ad: AdModel, userId: string, userRole: string)
  {
    ad.applicationUserId == Some(userId) || userRole == "Admin"
  }

  /** A caller who neither owns the ad nor holds the "Admin" role (in that
      spelling) is refused; a null owner matches no caller. */
  lemma MayMutateCases(ad: AdModel, userId: string, userRole: string)
    ensures ad.applicationUserId == None && userRole != "Admin" ==> !MayMutate(ad, userId, userRole)
    ensures userRole == "admin" && ad.applicationUserId != Some(userId) ==> !MayMutate(ad, userId, userRole)
    ensures MayMutate(ad, userId, "Admin")
  {
  }

  /** `db.Categories.Find(id).Category`. */
  function CategoryName(categories: seq<CategoryModel>, id: int): Option<string>
    requires id in Keys(categories, CategoryKey)
  {
    Find(categories, CategoryKey, id).value.name
  }

  /** `db.Types.Find(id).Type`. */
  function TypeName(types: seq<TypeModel>, id: int): Option<string>
    requires id in Keys(types, TypeKey)
  {
    Find(types, TypeKey, id).value.name
  }

  /** The DTO of one ad, with the display names of its category and type. */
  function Project(a: AdModel, categories: seq<CategoryModel>, types: seq<TypeModel>, withImage: bool): AdDTO
    requires ReferencesResolve(a, categories, types)
  {
    ToDTO(a, CategoryName(categories, a.categoryId), TypeName(types, a.typeId), withImage)
  }

  /** The DTO list a read endpoint returns for `rows`: one DTO per row, in the
      same order, ImagePath left unset. */
  function ProjectAll(rows: seq<AdModel>, categories: seq<CategoryModel>, types: seq<TypeModel>): (r: seq<AdDTO>)
    requires forall i :: 0 <= i < |rows| ==> ReferencesResolve(rows[i], categories, types)
    ensures |r| == |rows|
    ensures forall i :: 0 <= i < |rows| ==> FromDTO(r[i]) == rows[i].(imagePath := None)
  {
    seq(|rows|, i requires 0 <= i < |rows| => Project(rows[i], categories, types, false))
  }

  /** Each DTO carries the display names of its own row's category and type. */
  lemma ProjectAllNames(rows: seq<AdModel>, categories: seq<CategoryModel>, types: seq<TypeModel>, i: nat)
    requires forall i :: 0 <= i < |rows| ==> ReferencesResolve(rows[i], categories, types)
    requires i < |rows|
    ensures ProjectAll(rows, categories, types)[i].categoryName
            == Find(categories, CategoryKey, rows[i].categoryId).value.name
    ensures ProjectAll(rows, categories, types)[i].typeName
            == Find(types, TypeKey, rows[i].typeId).value.name
  {
  }

  /** `q` occurs in `s` starting at position `i`. */
  predicate OccursAt(s: string, q: string, i: int)
  {
    0 <= i && i + |q| <= |s| && s[i..i + |q|] == q
  }

  /** Ordinal, case-sensitive substring containment; a null column never
      matches. */
  predicate Contains(s: Option<string>, q: string)
  {
    s.Some? && exists i | 0 <= i <= |s.value| :: OccursAt(s.value, q, i)
  }

  /** The search condition: the query occurs in the title or the description. */
  predicate MatchesQuery(a: AdModel, q: string)
  {
    Contains(a.title, q) || Contains(a.description, q)
  }

  /** `db.Ads.Where(a => a.Title.Contains(q) || a.Description.Contains(q))`. */
  function SearchHits(ads: seq<AdModel>, q: string): seq<AdModel>
  {
    Filter(ads, (a: AdModel) => MatchesQuery(a, q))
  }

  /** `db.Ads.Where(a => a.ApplicationUserId == userId)`. */
  function OwnedBy(ads: seq<AdModel>, userId: string): seq<AdModel>
  {
    Filter(ads, (a: AdModel) => a.applicationUserId == Some(userId))
  }

  /** The ads that survive deleting category `id` (cascade on CategoryId). */
  function CascadeCategory(ads: seq<AdModel>, id: int): seq<AdModel>
  {
    Filter(ads, (a: AdModel) => a.categoryId != id)
  }

  /** The ads that survive deleting type `id` (cascade on TypeId). */
  function CascadeType(ads: seq<AdModel>, id: int): seq<AdModel>
  {
    Filter(ads, (a: AdModel) => a.typeId != id)
  }

  /** Search keeps exactly the ads whose title or description contains the
      query, in table order. */
  lemma SearchExact(ads: seq<AdModel>, q: string, a: AdModel)
    ensures a in SearchHits(ads, q) <==> a in ads && MatchesQuery(a, q)
  {
    var r := SearchHits(ads, q);
    if a in r {
      var i :| 0 <= i < |r| && r[i] == a;
    }
    if a in ads && MatchesQuery(a, q) {
      var i :| 0 <= i < |ads| && ads[i] == a;
      FilterKeeps(ads, (a: AdModel) => MatchesQuery(a, q), i);
    }
  }

  /** The "User" view keeps exactly the caller's own ads. */
  lemma OwnedByExact(ads: seq<AdModel>, userId: string, a: AdModel)
    ensures a in OwnedBy(ads, userId) <==> a in ads && a.applicationUserId == Some(userId)
  {
    var r := OwnedBy(ads, userId);
    if a in r {
      var i :| 0 <= i < |r| && r[i] == a;
    }
    if a in ads && a.applicationUserId == Some(userId) {
      var i :| 0 <= i < |ads| && ads[i] == a;
      FilterKeeps(ads, (a: AdModel) => a.applicationUserId == Some(userId), i);
    }
  }

  /** Deleting a category removes exactly the ads filed under it. */
  lemma CascadeCategoryExact(ads: seq<AdModel>, id: int, a: AdModel)
    ensures a in CascadeCategory(ads, id) <==> a in ads && a.categoryId != id
  {
    var r := CascadeCategory(ads, id);
    if a in r {
      var i :| 0 <= i < |r| && r[i] == a;
    }
    if a in ads && a.categoryId != id {
      var i :| 0 <= i < |ads| && ads[i] == a;
      FilterKeeps(ads, (a: AdModel) => a.categoryId != id, i);
    }
  }

  /** Deleting a type removes exactly the ads filed under it. */
  lemma CascadeTypeExact(ads: seq<AdModel>, id: int, a: AdModel)
    ensures a in CascadeType(ads, id) <==> a in ads && a.typeId != id
  {
    var r := CascadeType(ads, id);
    if a in r {
      var i :| 0 <= i < |r| && r[i] == a;
    }
    if a in ads && a.typeId != id {
      var i :| 0 <= i < |ads| && ads[i] == a;
      FilterKeeps(ads, (a: AdModel) => a.typeId != id, i);
    }
  }

  /** Without the cascade, an ad filed under the deleted category would point
      at a missing row. */
  lemma CascadeNeeded(a: AdModel, categories: seq<CategoryModel>, types: seq<TypeModel>)
    requires KeysIncreasing(categories, CategoryKey)
    ensures !ReferencesResolve(a, Remove(categories, CategoryKey, a.categoryId), types)
  {
    RemoveSpec(categories, CategoryKey, a.categoryId);
  }

  /** The record UpdateAd writes back: CategoryId, TypeId, Title, Description,
      Price, Timestamp and Location from the payload, the rest from the stored
      row. */
  function ApplyUpdate(existing: AdModel, payload: AdModel): AdModel
  {
    existing.(categoryId := payload.categoryId, typeId := payload.typeId,
              title := payload.title, description := payload.description,
              price := payload.price, timestamp := payload.timestamp,
              location := payload.location)
  }

  /** Read the other way round, an update is the payload with the key, the
      owner and the image path kept from the stored row; so the result is
      valid whenever the payload is, and applying the same payload twice
      changes nothing more. */
  lemma ApplyUpdateIsPayloadWithKeptFields(existing: AdModel, payload: AdModel)
    ensures ApplyUpdate(existing, payload)
            == payload.(adId := existing.adId, applicationUserId := existing.applicationUserId,
                        imagePath := existing.imagePath)
    ensures AdModelValid(payload) ==> AdModelValid(ApplyUpdate(existing, payload))
    ensures ApplyUpdate(ApplyUpdate(existing, payload), payload) == ApplyUpdate(existing, payload)
  {
  }
}
