/** The integrity the listing store keeps between requests: each table keyed
    in increasing order below its identity counter, every row valid as its
    model demands, and every ad's CategoryId and TypeId naming existing rows
    (the two foreign keys). Each lemma here shows one kind of write the
    controller performs preserves that integrity. */
module Store {
  import opened Models
  import opened Tables
  import opened Listings

  /** The ads table: keyed, ids below the counter, rows valid, references
      resolving. */
  predicate AdsValid(ads: seq<AdModel>, categories: seq<CategoryModel>, types: seq<TypeModel>, nextAdId: int)
  {
    && KeysIncreasing(ads, AdKey)
    && forall i :: 0 <= i < |ads| ==>
         ads[i].adId < nextAdId && AdModelValid(ads[i]) && ReferencesResolve(ads[i], categories, types)
  }

  /** The categories table: keyed, ids below the counter, names present. */
  predicate CategoriesValid(categories: seq<CategoryModel>, nextCategoryId: int)
  {
    && KeysIncreasing(categories, CategoryKey)
    && forall i :: 0 <= i < |categories| ==>
         categories[i].categoryId < nextCategoryId && CategoryValid(categories[i])
  }

  /** The types table: keyed, ids below the counter, names present. */
  predicate TypesValid(types: seq<TypeModel>, nextTypeId: int)
  {
    && KeysIncreasing(types, TypeKey)
    && forall i :: 0 <= i < |types| ==> types[i].typeId < nextTypeId && TypeValid(types[i])
  }

  /** Inserting a valid ad with resolving references under the next identity
      value keeps the ads table valid, with the counter one higher. */
  lemma AddAdKeepsValid(ads: seq<AdModel>, categories: seq<CategoryModel>, types: seq<TypeModel>,
                        nextAdId: int, newAd: AdModel)
    requires AdsValid(ads, categories, types, nextAdId)
    requires AdModelValid(newAd) && ReferencesResolve(newAd, categories, types)
    ensures AdsValid(ads + [newAd.(adId := nextAdId)], categories, types, nextAdId + 1)
  {
    var row := newAd.(adId := nextAdId);
    forall x | x in ads ensures AdKey(x) < AdKey(row) {
      var i :| 0 <= i < |ads| && ads[i] == x;
    }
    AppendSpec(ads, AdKey, row);
    var r := ads + [row];
    forall i | 0 <= i < |r|
      ensures r[i].adId < nextAdId + 1 && AdModelValid(r[i]) && ReferencesResolve(r[i], categories, types)
    {
      if i < |ads| {
        assert r[i] == ads[i];
      }
    }
  }

  /** Removing one ad keeps the ads table valid. */
  lemma RemoveAdKeepsValid(ads: seq<AdModel>, categories: seq<CategoryModel>, types: seq<TypeModel>,
                           nextAdId: int, id: int)
    requires AdsValid(ads, categories, types, nextAdId)
    ensures AdsValid(Remove(ads, AdKey, id), categories, types, nextAdId)
  {
    RemoveSpec(ads, AdKey, id);
    var r := Remove(ads, AdKey, id);
    forall i | 0 <= i < |r|
      ensures r[i].adId < nextAdId && AdModelValid(r[i]) && ReferencesResolve(r[i], categories, types)
    {
      var j :| 0 <= j < |ads| && ads[j] == r[i];
    }
  }

  /** Writing back an ad under a present key keeps the ads table valid when
      the new row is valid and its references resolve. */
  lemma ReplaceAdKeepsValid(ads: seq<AdModel>, categories: seq<CategoryModel>, types: seq<TypeModel>,
                            nextAdId: int, row: AdModel)
    requires AdsValid(ads, categories, types, nextAdId)
    requires row.adId in Keys(ads, AdKey)
    requires AdModelValid(row) && ReferencesResolve(row, categories, types)
    ensures AdsValid(Replace(ads, AdKey, row), categories, types, nextAdId)
  {
    ReplaceSpec(ads, AdKey, row);
  }

  /** Inserting a named category under the next identity value keeps the
      categories table valid, and every ad still resolves. */
  lemma AddCategoryKeepsValid(ads: seq<AdModel>, categories: seq<CategoryModel>, types: seq<TypeModel>,
                              nextAdId: int, nextCategoryId: int, newCategory: CategoryModel)
    requires CategoriesValid(categories, nextCategoryId) && CategoryValid(newCategory)
    requires AdsValid(ads, categories, types, nextAdId)
    ensures CategoriesValid(categories + [newCategory.(categoryId := nextCategoryId)], nextCategoryId + 1)
    ensures AdsValid(ads, categories + [newCategory.(categoryId := nextCategoryId)], types, nextAdId)
  {
    var row := newCategory.(categoryId := nextCategoryId);
    forall x | x in categories ensures CategoryKey(x) < CategoryKey(row) {
      var i :| 0 <= i < |categories| && categories[i] == x;
    }
    AppendSpec(categories, CategoryKey, row);
    var r := categories + [row];
    forall i | 0 <= i < |r| ensures r[i].categoryId < nextCategoryId + 1 && CategoryValid(r[i]) {
      if i < |categories| {
        assert r[i] == categories[i];
      }
    }
  }

  /** Renaming a present category keeps the categories table valid, and every
      ad still resolves. */
  lemma ReplaceCategoryKeepsValid(ads: seq<AdModel>, categories: seq<CategoryModel>, types: seq<TypeModel>,
                                  nextAdId: int, nextCategoryId: int, row: CategoryModel)
    requires CategoriesValid(categories, nextCategoryId) && CategoryValid(row)
    requires row.categoryId in Keys(categories, CategoryKey)
    requires AdsValid(ads, categories, types, nextAdId)
    ensures CategoriesValid(Replace(categories, CategoryKey, row), nextCategoryId)
    ensures AdsValid(ads, Replace(categories, CategoryKey, row), types, nextAdId)
  {
    ReplaceSpec(categories, CategoryKey, row);
    var r := Replace(categories, CategoryKey, row);
    forall i | 0 <= i < |r| ensures r[i].categoryId < nextCategoryId && CategoryValid(r[i]) {
      assert categories[i] in categories;
    }
  }

  /** Deleting a category together with the ads filed under it keeps both
      tables valid: the cascade is what keeps the foreign key intact. */
  lemma DeleteCategoryKeepsValid(ads: seq<AdModel>, categories: seq<CategoryModel>,
                                 types: seq<TypeModel>, nextAdId: int,
                                 nextCategoryId: int, id: int)
    requires CategoriesValid(categories, nextCategoryId)
    requires AdsValid(ads, categories, types, nextAdId)
    ensures CategoriesValid(Remove(categories, CategoryKey, id), nextCategoryId)
    ensures AdsValid(CascadeCategory(ads, id), Remove(categories, CategoryKey, id), types, nextAdId)
  {
    RemoveSpec(categories, CategoryKey, id);
    var cs := Remove(categories, CategoryKey, id);
    forall i | 0 <= i < |cs| ensures cs[i].categoryId < nextCategoryId && CategoryValid(cs[i]) {
      var j :| 0 <= j < |categories| && categories[j] == cs[i];
    }
    FilterKeepsKeysIncreasing(ads, AdKey, (a: AdModel) => a.categoryId != id);
    var r := CascadeCategory(ads, id);
    forall i | 0 <= i < |r|
      ensures r[i].adId < nextAdId && AdModelValid(r[i]) && ReferencesResolve(r[i], cs, types)
    {
      var j :| 0 <= j < |ads| && ads[j] == r[i];
    }
  }

  /** Inserting a named type under the next identity value keeps the types
      table valid, and every ad still resolves. */
  lemma AddTypeKeepsValid(ads: seq<AdModel>, categories: seq<CategoryModel>, types: seq<TypeModel>,
                          nextAdId: int, nextTypeId: int, newType: TypeModel)
    requires TypesValid(types, nextTypeId) && TypeValid(newType)
    requires AdsValid(ads, categories, types, nextAdId)
    ensures TypesValid(types + [newType.(typeId := nextTypeId)], nextTypeId + 1)
    ensures AdsValid(ads, categories, types + [newType.(typeId := nextTypeId)], nextAdId)
  {
    var row := newType.(typeId := nextTypeId);
    forall x | x in types ensures TypeKey(x) < TypeKey(row) {
      var i :| 0 <= i < |types| && types[i] == x;
    }
    AppendSpec(types, TypeKey, row);
    var r := types + [row];
    forall i | 0 <= i < |r| ensures r[i].typeId < nextTypeId + 1 && TypeValid(r[i]) {
      if i < |types| {
        assert r[i] == types[i];
      }
    }
  }

  /** Renaming a present type keeps the types table valid, and every ad still
      resolves. */
  lemma ReplaceTypeKeepsValid(ads: seq<AdModel>, categories: seq<CategoryModel>, types: seq<TypeModel>,
                              nextAdId: int, nextTypeId: int, row: TypeModel)
    requires TypesValid(types, nextTypeId) && TypeValid(row)
    requires row.typeId in Keys(types, TypeKey)
    requires AdsValid(ads, categories, types, nextAdId)
    ensures TypesValid(Replace(types, TypeKey, row), nextTypeId)
    ensures AdsValid(ads, categories, Replace(types, TypeKey, row), nextAdId)
  {
    ReplaceSpec(types, TypeKey, row);
    var r := Replace(types, TypeKey, row);
    forall i | 0 <= i < |r| ensures r[i].typeId < nextTypeId && TypeValid(r[i]) {
      assert types[i] in types;
    }
  }

  /** Deleting a type together with the ads filed under it keeps both tables
      valid. */
  lemma DeleteTypeKeepsValid(ads: seq<AdModel>, categories: seq<CategoryModel>,
                             types: seq<TypeModel>, nextAdId: int, nextTypeId: int, id: int)
    requires TypesValid(types, nextTypeId)
    requires AdsValid(ads, categories, types, nextAdId)
    ensures TypesValid(Remove(types, TypeKey, id), nextTypeId)
    ensures AdsValid(CascadeType(ads, id), categories, Remove(types, TypeKey, id), nextAdId)
  {
    RemoveSpec(types, TypeKey, id);
    var ts := Remove(types, TypeKey, id);
    forall i | 0 <= i < |ts| ensures ts[i].typeId < nextTypeId && TypeValid(ts[i]) {
      var j :| 0 <= j < |types| && types[j] == ts[i];
    }
    FilterKeepsKeysIncreasing(ads, AdKey, (a: AdModel) => a.typeId != id);
    var r := CascadeType(ads, id);
    forall i | 0 <= i < |r|
      ensures r[i].adId < nextAdId && AdModelValid(r[i]) && ReferencesResolve(r[i], categories, ts)
    {
      var j :| 0 <= j < |ads| && ads[j] == r[i];
    }
  }

  /** Every ad of a valid table, and so every ad a filter keeps, resolves: the
      precondition of projecting a search result or a user's view. */
  lemma FilterResolves(ads: seq<AdModel>, categories: seq<CategoryModel>, types: seq<TypeModel>,
                       nextAdId: int, p: AdModel -> bool)
    requires AdsValid(ads, categories, types, nextAdId)
    ensures forall i :: 0 <= i < |Filter(ads, p)| ==> ReferencesResolve(Filter(ads, p)[i], categories, types)
  {
    var r := Filter(ads, p);
    forall i | 0 <= i < |r| ensures ReferencesResolve(r[i], categories, types) {
      var j :| 0 <= j < |ads| && ads[j] == r[i];
    }
  }
}
