# Pazar listing service — a Dafny model

Pazar is a classified-ads marketplace. Its HTTP API controller
(`PazarApiController`) serves ad listings filed under a category and a type.
It lets callers browse and search them, create them, and edit or delete them.
The role-based rule is that a caller may change a listing only when they own
it or hold the role "Admin". A listing can also carry one image file, kept
in a `ListingImages` directory under the name `{adId}.{ext}`.

The project models that controller on a state of three keyed tables (ads,
categories, types) with their identity counters, plus the image directory.

- `models.dfy` (module `Models`) holds the records, the transfer objects and
  the `[Required]` validation.
- `tables.dfy` (module `Tables`) holds the keyed-table operations the ORM
  performs: `Find`, `Count`, `Filter` (the `Where` clause), `Remove`,
  `Replace` (the write-back of one modified row) and, as the lemma
  `AppendSpec`, the identity insert.
- `listings.dfy` (module `Listings`) holds the pure rules the handlers
  share:
  - the ownership policy;
  - the projection into `AdDTO`;
  - the search and owner filters;
  - the cascading deletes;
  - the update field copy.
- `image_files.dfy` (module `ImageFiles`) holds .NET's `Path.GetFileName`
  and `Path.GetExtension`, the `{adId}.{ext}` file name and the upload
  checks.
- `store.dfy` (module `Store`) holds the integrity the store keeps:
  - keys increasing and below the counter;
  - rows valid;
  - every ad's foreign keys resolving.

  Each of its lemmas shows that one kind of write preserves it.
- `pazar_api.dfy` (module `PazarApi`) holds the controller as a class whose
  handlers are methods. Each handler has the same guard order, status codes
  and effects as the C# handler. The image directory is a separate class
  whose file set the handlers change.

The handlers' HTTP results become a `Status` value:

| `Status` | HTTP |
|---|---|
| `Ok` | 200 |
| `NoContent` | 204 |
| `BadRequest` | 400 |
| `NotFound` | 404 |
| `ServerError` | 500, including an exception the handler does not catch |

Three behaviours of the controller that the model keeps:

- The timestamp of a new ad is the one in the payload.
- A refused ownership check answers 400.
- `GetOneAd` on a missing id dereferences null, which the framework
  answers with 500.

## Model

| member | source | states |
|---|---|---|
| Models.RequiredString | Pazar/Models/AdModel.cs:28-40 | definition of `[Required]` on a string: present and not empty once trimmed of .NET white space; RequiredStringWitness and RequiredStringRejects prove both directions |
| Models.AdModelValid | Pazar/Models/AdModel.cs:28-40 | definition of `ModelState.IsValid` for an ad: Title, Description and Location are `[Required]`; AdValidityIgnoresOptionalFields shows nothing else matters |
| Models.CategoryValid | Pazar/Models/CategoryModel.cs:16-17 | definition of `ModelState.IsValid` for a category: its name is `[Required]` |
| Models.TypeValid | Pazar/Models/TypeModel.cs:16-17 | definition of `ModelState.IsValid` for a type: its name is `[Required]` |
| Models.RequiredStringWitness | Pazar/Models/AdModel.cs:28-40 | a string with one non-white-space character satisfies `[Required]` |
| Models.RequiredStringRejects | Pazar/Models/AdModel.cs:28-40 | null, empty and all-white-space strings fail `[Required]` |
| Models.AdValidityIgnoresOptionalFields | Pazar/Models/AdModel.cs:13-42 | an ad's validity depends only on Title, Description and Location; ids, owner, price and image path do not affect it |
| Models.ToDTO | Pazar/Controllers/PazarApiController.cs:41-54 | definition of the AdDTO construction of 41-54 (without ImagePath) and 245-256 (with it); DTORoundTrip proves it loses no field |
| Models.DTORoundTrip | Pazar/Models/AdModel.cs:46-74 | an ad projected into an AdDTO is recovered exactly from it (the image path only when it is copied), and the DTO carries the given category and type names |
| Tables.Count | Pazar/Controllers/PazarApiController.cs:655-668 | the count of rows with a key is positive exactly when the key is present, and never exceeds the table size |
| Tables.CountAtMostOne | Pazar/Migrations/202102071915214_FirstMigration.cs:14-24 | in a keyed table at most one row has a given key |
| Tables.Find | Pazar/Controllers/PazarApiController.cs:278 | a lookup succeeds exactly for present keys and returns a row of the table with that key |
| Tables.FindAt | Pazar/Controllers/PazarApiController.cs:278 | looking up any row's key returns that very row |
| Tables.Filter | Pazar/Controllers/PazarApiController.cs:72-76 | a `Where` result is no longer than the table and holds only table rows satisfying the predicate |
| Tables.FilterKeeps | Pazar/Controllers/PazarApiController.cs:72-76 | every table row satisfying the predicate is in the `Where` result |
| Tables.FilterAll | Pazar/Controllers/PazarApiController.cs:301-302 | a predicate every row satisfies keeps the table as it is, the step by which removing a present key drops exactly one row |
| Tables.FilterKeepsKeysIncreasing | Pazar/Migrations/202102071915214_FirstMigration.cs:26-27 | filtering rows out of a keyed table leaves it keyed |
| Tables.Remove | Pazar/Controllers/PazarApiController.cs:301 | definition of `db.Ads.Remove` (and of `db.Types.Remove` at 590 and `db.Categories.Remove` at 617) followed by SaveChanges: the rows whose key differs; RemoveSpec and RemoveShrinksByOne state its effect on keys, lookups and size |
| Tables.RemoveSpec | Pazar/Controllers/PazarApiController.cs:301-302 | removing a key leaves a keyed table whose keys are the old ones minus that key, where that key is absent and every other lookup is unchanged |
| Tables.RemoveShrinksByOne | Pazar/Controllers/PazarApiController.cs:301-302 | removing a present key removes exactly one row |
| Tables.Replace | Pazar/Controllers/PazarApiController.cs:345-355 | writing a row back keeps the table size |
| Tables.ReplaceSpec | Pazar/Controllers/PazarApiController.cs:345-355 | writing a row back under a present key keeps the keys, makes that key find the new row and leaves every other lookup unchanged |
| Tables.AppendSpec | Pazar/Controllers/PazarApiController.cs:168-169 | inserting under a key above every present one keeps the table keyed, adds exactly that key and changes no other lookup |
| Listings.ReferencesResolve | Pazar/Migrations/202102071915214_FirstMigration.cs:26-27 | definition of the two foreign keys of an ad: its CategoryId and TypeId name existing rows; a payload failing it is the 500 of AddAd and UpdateAd, CascadeNeeded shows a delete without cascade would break it, and the Store.*KeepsValid lemmas show every write keeps it |
| Listings.MayMutate | Pazar/Controllers/PazarApiController.cs:287 | definition of the ownership test of DeleteAd, UpdateAd (340) and InsertImageToAd (390): the caller owns the ad or the role is exactly "Admin"; MayMutateCases states its consequences |
| Listings.MayMutateCases | Pazar/Controllers/PazarApiController.cs:287 | an ad without owner can be changed only by "Admin"; the role "admin" in lower case grants nothing; "Admin" may change any ad |
| Listings.CategoryName | Pazar/Controllers/PazarApiController.cs:46 | definition of `db.Categories.Find(id).Category` for an id the foreign key guarantees present; ProjectAllNames states that each DTO carries it |
| Listings.TypeName | Pazar/Controllers/PazarApiController.cs:48 | definition of `db.Types.Find(id).Type` for an id the foreign key guarantees present; ProjectAllNames states that each DTO carries it |
| Listings.ProjectAll | Pazar/Controllers/PazarApiController.cs:36-58 | the projected list has one DTO per row, in order, each recovering its row with the image path dropped |
| Listings.ProjectAllNames | Pazar/Controllers/PazarApiController.cs:46-48 | each projected DTO carries the names of its ad's category and type |
| Listings.SearchHits | Pazar/Controllers/PazarApiController.cs:72-76 | definition of the search `Where`: the ads whose title or description contains the query, in table order; SearchExact proves the membership if and only if |
| Listings.OwnedBy | Pazar/Controllers/PazarApiController.cs:192-194 | definition of the owner `Where` of GetUserAds; OwnedByExact proves the membership if and only if |
| Listings.CascadeCategory | Pazar/Migrations/202102071915214_FirstMigration.cs:26 | definition of the cascade a category delete performs: the ads filed under other categories; CascadeCategoryExact proves the membership if and only if |
| Listings.CascadeType | Pazar/Migrations/202102071915214_FirstMigration.cs:27 | definition of the cascade a type delete performs: the ads filed under other types; CascadeTypeExact proves the membership if and only if |
| Listings.SearchExact | Pazar/Controllers/PazarApiController.cs:70-76 | an ad is a search hit if and only if it is in the table and the query occurs in its title or its description |
| Listings.OwnedByExact | Pazar/Controllers/PazarApiController.cs:190-194 | an ad is in a user's view if and only if it is in the table and that user owns it |
| Listings.CascadeCategoryExact | Pazar/Migrations/202102071915214_FirstMigration.cs:26 | an ad survives a category delete if and only if it is filed under another category |
| Listings.CascadeTypeExact | Pazar/Migrations/202102071915214_FirstMigration.cs:27 | an ad survives a type delete if and only if it is filed under another type |
| Listings.CascadeNeeded | Pazar/Migrations/202102071915214_FirstMigration.cs:26-27 | without the cascade, an ad of a deleted category would no longer resolve |
| Listings.ApplyUpdate | Pazar/Controllers/PazarApiController.cs:345-351 | definition of the field copy of UpdateAd: seven fields from the payload onto the stored row; ApplyUpdateIsPayloadWithKeptFields states what is kept |
| Listings.ApplyUpdateIsPayloadWithKeptFields | Pazar/Controllers/PazarApiController.cs:345-355 | an update is the payload with the id, the owner and the image path kept from the stored row; it is valid when the payload is, and applying it twice changes nothing more |
| ImageFiles.GetFileName | Pazar/Controllers/PazarApiController.cs:292 | the file name is the longest separator-free suffix of the path |
| ImageFiles.GetFileNameOfJoin | Pazar/Controllers/PazarApiController.cs:420 | the file name of a directory joined with a bare name is that name |
| ImageFiles.AfterLastDot | Pazar/Controllers/PazarApiController.cs:410 | definition of the text after the last dot of the final path component, the part `Path.GetExtension` finds; AfterLastDotSpec characterises it |
| ImageFiles.AfterLastDotSpec | Pazar/Controllers/PazarApiController.cs:410 | the extension found is the dot-free, separator-free text after the last dot; none is found only when the file name has no dot |
| ImageFiles.GetExtension | Pazar/Controllers/PazarApiController.cs:410 | an extension is empty or a dot followed by at least one character |
| ImageFiles.ExtensionWithoutDot | Pazar/Controllers/PazarApiController.cs:410 | definition of `Path.GetExtension(name).Substring(1)`, None where `Substring(1)` throws; ExtensionOfName and NoExtensionThrows state both outcomes |
| ImageFiles.ExtensionOfName | Pazar/Controllers/PazarApiController.cs:410 | the extension read from `stem.ext` is `ext` |
| ImageFiles.AfterLastDotOfName | Pazar/Controllers/PazarApiController.cs:410 | the text after the last dot of `stem.ext` is `ext` |
| ImageFiles.NoExtensionThrows | Pazar/Controllers/PazarApiController.cs:410 | a file name without a dot, or ending in one, has no extension to take `Substring(1)` of |
| ImageFiles.NoDotNoExtension | Pazar/Controllers/PazarApiController.cs:410 | whenever the file name has no dot, nothing follows a last dot |
| ImageFiles.DecimalString | Pazar/Controllers/PazarApiController.cs:417 | definition of the decimal text of an id in `$"{adId}"`; DecimalRoundTrip proves it reads back as the id |
| ImageFiles.ImageFileName | Pazar/Controllers/PazarApiController.cs:417 | definition of the file name `{adId}.{ext}` |
| ImageFiles.StoredImagePath | Pazar/Controllers/PazarApiController.cs:420 | definition of `Path.Combine` of the listing-images directory with that file name; StoredImagePathsDistinct and StoredImageIsDeleted state its properties |
| ImageFiles.ImageFileToDelete | Pazar/Controllers/PazarApiController.cs:292-293 | definition of the file DeleteAd targets: `MapPath` of the listing-images directory with `Path.GetFileName` of the stored ImagePath, none when that name is empty; StoredImageIsDeleted ties it to StoredImagePath |
| ImageFiles.NatDigits | Pazar/Controllers/PazarApiController.cs:417 | a natural number prints as a non-empty digit string |
| ImageFiles.ParseNatDigits | Pazar/Controllers/PazarApiController.cs:417 | reading back the digits of a natural number gives that number |
| ImageFiles.DecimalRoundTrip | Pazar/Controllers/PazarApiController.cs:417 | the decimal text of any ad id reads back as that id |
| ImageFiles.NegativeRoundTrip | Pazar/Controllers/PazarApiController.cs:417 | the decimal text of a negative id reads back as that id |
| ImageFiles.NonNegativeRoundTrip | Pazar/Controllers/PazarApiController.cs:417 | the decimal text of a non-negative id reads back as that id |
| ImageFiles.UnsignedParse | Pazar/Controllers/PazarApiController.cs:417 | a digit string parses as its unsigned value |
| ImageFiles.SignedParse | Pazar/Controllers/PazarApiController.cs:417 | a minus sign negates the parsed value |
| ImageFiles.DecimalStringPlain | Pazar/Controllers/PazarApiController.cs:417 | an id's decimal text holds no dot and no separator |
| ImageFiles.AllowedExtensionPlain | Pazar/Controllers/PazarApiController.cs:409 | every allowed extension is non-empty, dot-free and separator-free |
| ImageFiles.StoredImageIsDeleted | Pazar/Controllers/PazarApiController.cs:292-299 | the file DeleteAd removes for a stored image path is the file InsertImageToAd wrote there |
| ImageFiles.StoredImagePathsDistinct | Pazar/Controllers/PazarApiController.cs:417-420 | the files InsertImageToAd writes for two different ads have different paths, whatever the extensions |
| ImageFiles.ClassifyUpload | Pazar/Controllers/PazarApiController.cs:395-412 | only an allowed extension is ever accepted |
| ImageFiles.AcceptsAllowedImage | Pazar/Controllers/PazarApiController.cs:395-412 | one non-empty multipart file named `stem.ext` with an allowed ext is accepted with that ext |
| ImageFiles.WrongExtensionIgnored | Pazar/Controllers/PazarApiController.cs:409-412 | a readable extension that is not on the list is ignored |
| ImageFiles.UnlistedExtensionsIgnored | Pazar/Controllers/PazarApiController.cs:409-412 | a `.txt` file is ignored, and so is a `.PNG` file, because the comparison with the list is case-sensitive |
| ImageFiles.MalformedUploadsIgnored | Pazar/Controllers/PazarApiController.cs:395-407 | an empty file, a count other than one and a non-multipart body are each ignored |
| ImageFiles.AcceptedExactly | Pazar/Controllers/PazarApiController.cs:395-412 | an upload is accepted with ext if and only if it is one non-empty multipart file whose extension is ext and ext is allowed |
| Store.AddAdKeepsValid | Pazar/Controllers/PazarApiController.cs:168-169 | inserting a valid, resolving ad under the next identity value keeps the ads table valid |
| Store.RemoveAdKeepsValid | Pazar/Controllers/PazarApiController.cs:301-302 | removing an ad keeps the ads table valid |
| Store.ReplaceAdKeepsValid | Pazar/Controllers/PazarApiController.cs:345-355 | writing back a valid, resolving ad under its key keeps the ads table valid |
| Store.AddCategoryKeepsValid | Pazar/Controllers/PazarApiController.cs:502-503 | inserting a named category under the next identity value keeps the categories valid and every ad resolving |
| Store.ReplaceCategoryKeepsValid | Pazar/Controllers/PazarApiController.cs:470-475 | renaming a present category keeps the categories valid and every ad resolving |
| Store.DeleteCategoryKeepsValid | Pazar/Migrations/202102071915214_FirstMigration.cs:26 | deleting a category together with its ads keeps both tables valid |
| Store.AddTypeKeepsValid | Pazar/Controllers/PazarApiController.cs:563-564 | inserting a named type under the next identity value keeps the types valid and every ad resolving |
| Store.ReplaceTypeKeepsValid | Pazar/Controllers/PazarApiController.cs:531-536 | renaming a present type keeps the types valid and every ad resolving |
| Store.DeleteTypeKeepsValid | Pazar/Migrations/202102071915214_FirstMigration.cs:27 | deleting a type together with its ads keeps both tables valid |
| Store.FilterResolves | Pazar/Controllers/PazarApiController.cs:84-86 | every ad a filter keeps from a valid table resolves its category and type |
| PazarApi.ImageDirectory.constructor | Pazar/Controllers/PazarApiController.cs:293 | the listing-images directory starts empty |
| PazarApi.ImageDirectory.Delete | Pazar/Controllers/PazarApiController.cs:298 | `File.Delete` removes exactly that file |
| PazarApi.ImageDirectory.SaveAs | Pazar/Controllers/PazarApiController.cs:423 | `SaveAs` adds exactly that file, replacing one of the same name |
| PazarApi.PazarApiController.Valid | Pazar/Migrations/202102071915214_FirstMigration.cs:14-106 | definition of the store's integrity: the primary keys of the three tables, their identity counters, the `[Required]` columns and the two foreign keys of the ads; every handler keeps it |
| PazarApi.PazarApiController.constructor | Pazar/Migrations/202102071915214_FirstMigration.cs:10-106 | the store starts with empty, valid tables and every identity counter at 1 |
| PazarApi.PazarApiController.AdExists | Pazar/Controllers/PazarApiController.cs:655-658 | holds exactly when a lookup of the ad id succeeds |
| PazarApi.PazarApiController.CategoryExists | Pazar/Controllers/PazarApiController.cs:660-663 | holds exactly when a lookup of the category id succeeds |
| PazarApi.PazarApiController.TypeExists | Pazar/Controllers/PazarApiController.cs:665-668 | holds exactly when a lookup of the type id succeeds |
| PazarApi.PazarApiController.ProjectRows | Pazar/Controllers/PazarApiController.cs:39-56 | the loop builds exactly the projection of the rows |
| PazarApi.PazarApiController.GetAllAds | Pazar/Controllers/PazarApiController.cs:34-58 | answers 200 with every ad projected, in table order |
| PazarApi.PazarApiController.Search | Pazar/Controllers/PazarApiController.cs:70-98 | answers 200 with the projection of exactly the ads whose title or description contains the query |
| PazarApi.PazarApiController.GetAllCategories | Pazar/Controllers/PazarApiController.cs:108-123 | answers 200 with one DTO per category, in order, carrying its id and name |
| PazarApi.PazarApiController.GetAllTypes | Pazar/Controllers/PazarApiController.cs:133-148 | answers 200 with one DTO per type, in order, carrying its id and name |
| PazarApi.PazarApiController.AddAd | Pazar/Controllers/PazarApiController.cs:159-171 | an invalid payload is 400 with no change; unresolved references are 500 with no row added but the identity value used up; otherwise the ad is appended under the next id, the counter advances, other lookups stay unchanged and the store stays valid |
| PazarApi.PazarApiController.GetUserAds | Pazar/Controllers/PazarApiController.cs:184-226 | role "User" sees exactly its own ads, "Admin" every ad, and any other role gets 404 and nothing |
| PazarApi.PazarApiController.GetOneAd | Pazar/Controllers/PazarApiController.cs:237-258 | a missing id is 500; otherwise 200 with a DTO recovering the whole ad, image path included, and its category and type names |
| PazarApi.PazarApiController.RemoveAdRow | Pazar/Controllers/PazarApiController.cs:301-302 | removes exactly the one row with the id, keeps the store valid and leaves every other lookup unchanged |
| PazarApi.PazarApiController.DeleteImageOf | Pazar/Controllers/PazarApiController.cs:292-299 | removes the ad's image file when present and nothing else |
| PazarApi.PazarApiController.DeleteAd | Pazar/Controllers/PazarApiController.cs:274-305 | missing is 404; a caller who neither owns the ad nor is "Admin" gets 400; otherwise 200 with the row removed, its image file deleted, other lookups unchanged and the store valid; nothing changes on an error |
| PazarApi.PazarApiController.WriteBackAd | Pazar/Controllers/PazarApiController.cs:345-355 | replaces the row under its key, keeps the store valid and leaves other lookups unchanged |
| PazarApi.PazarApiController.UpdateAd | Pazar/Controllers/PazarApiController.cs:318-362 | guards in the source's order: invalid payload 400, missing 404, id mismatch 400, neither owner nor "Admin" 400, unresolved references 500, each with no change; otherwise 204 with the stored row updated as ApplyUpdate and other lookups unchanged |
| PazarApi.PazarApiController.InsertImageToAd | Pazar/Controllers/PazarApiController.cs:378-441 | missing is 404 and unauthorized is 400; an ignored upload is 200 with no change and a name without an extension is 500 with no change; an accepted upload writes `{adId}.{ext}` and stores its path in that ad alone |
| PazarApi.PazarApiController.UpdateCategory | Pazar/Controllers/PazarApiController.cs:455-482 | an invalid name is 400 and a missing id 404, with no change; otherwise 204 with that category renamed and every other one unchanged |
| PazarApi.PazarApiController.AddCategory | Pazar/Controllers/PazarApiController.cs:493-505 | an invalid name is 400 with no change; otherwise 200 with the category appended under the next id and the counter advanced |
| PazarApi.PazarApiController.DeleteCategory | Pazar/Controllers/PazarApiController.cs:605-620 | a missing id is 404 with no change; otherwise 200 with the category removed and exactly the ads filed under it deleted |
| PazarApi.PazarApiController.UpdateType | Pazar/Controllers/PazarApiController.cs:516-543 | an invalid name is 400 and a missing id 404, with no change; otherwise 204 with that type renamed and every other one unchanged |
| PazarApi.PazarApiController.AddType | Pazar/Controllers/PazarApiController.cs:554-566 | an invalid name is 400 with no change; otherwise 200 with the type appended under the next id and the counter advanced |
| PazarApi.PazarApiController.DeleteType | Pazar/Controllers/PazarApiController.cs:578-593 | a missing id is 404 with no change; otherwise 200 with the type removed and exactly the ads filed under it deleted |

## Left out

- `DbUpdateConcurrencyException` (the 500 branches of UpdateAd,
  UpdateCategory and UpdateType) is not modelled. Requests run one at a
  time, so a save never meets a stale row.
- Database failures at `SaveChanges` other than a foreign-key violation
  (connection loss, constraint errors) are not modelled. A foreign-key
  violation is modelled as an uncaught exception: 500 and no change.
- GetUserAds: `Listings.OwnedByExact` matches the owner by exact, ordinal
  equality. The source's `==` inside `Where` runs in SQL under the column
  collation, which by default ignores case and trailing spaces. A stored
  owner "abc" is then returned to user "ABC", but the model returns
  nothing. The ownership test of DeleteAd, UpdateAd and InsertImageToAd
  is a C# comparison and is exact in both.
- Row order: every table is kept in primary-key order, and the lists
  GetAllAds, Search, GetUserAds, GetAllCategories and GetAllTypes return
  follow it. `ToList()` without `OrderBy` promises no order; the model
  fixes this one.
- Search compares strings case-sensitively and ordinally. The real
  comparison is the database collation's `LIKE`, often case-insensitive,
  which is not part of this model.
- The foreign key to `AspNetUsers` and the 128-character limit of
  ApplicationUserId are not modelled. The identity store is outside the
  model, so the owner is an arbitrary optional string.
- Identity values: the counters advance by one per insert attempted. The
  attempts include AddAd's insert that fails on a foreign key, which uses
  up its value as SQL Server does. Jumps the server makes on its own, for
  example after a restart with its identity cache, are not modelled. After
  one, the keys the contracts of AddAd, AddCategory and AddType state are
  lower than the source's.
- The Timestamp `[Required]` is always satisfied by a non-nullable
  `DateTime`, so it is not checked. The timestamp itself is an opaque
  integer.
- Price is an exact `real` standing for `decimal?`. Its precision and
  scale (18, 2) are not modelled.
- AddAd, AddCategory, AddType: the navigation properties are not modelled
  (ApplicationUser, Category and Type of an ad; the Ads collection of a
  category or type). With Entity Framework, `Add` inserts every new object
  reachable from the payload as well. A category posted with a list of ads
  would insert those ads too, and an ad posted with a new Category object
  would insert that category. The model inserts only the payload's own
  row, so AddCategory and AddType leave the ads table unchanged.
- DeleteAd, DeleteImageOf: file names are compared exactly, as strings.
  `File.Exists` and `File.Delete` on the Windows server ignore case. An ad
  whose ImagePath ends in `1.PNG` would then delete the file `1.png` that
  InsertImageToAd wrote for ad 1, but the model keeps that file. SaveAs in
  InsertImageToAd likewise overwrites a file whose name differs only in
  case, where the model adds a second name to the set.
- DeleteAd: `File.Delete` at PazarApiController.cs:298 is outside any try.
  When it throws (the file in use, or read-only), the handler answers 500
  before `db.Ads.Remove` and the row stays. This is not modelled: DeleteAd
  always removes the file and the row once the guards pass.
- Model binding is not modelled. The handlers receive already-bound
  values, and a payload that fails to bind is not represented.
- `HttpContext`, `MapPath` and the `Debug` output are not modelled. The
  listing-images directory is a fixed string ending in a separator.
- I/O failures of `SaveAs` inside InsertImageToAd's catch (answering 500)
  are not modelled. Only the successful write is represented.
- `Path.GetFileName` and `Path.GetExtension` throw on characters that are
  invalid in a path; this is not modelled, and every string is a
  well-formed path.
- The `Files[0] != null` test is not modelled. A posted file is never
  null.
- Image files left behind are not cleaned up, as in the source. This
  covers the ads a category or type delete cascades over, and the earlier
  file when an ad's image is replaced by one with another extension.
  `ImageDirectory.files` shows these files remaining.
- DeleteAd trusts the stored ImagePath and deletes by its file name, as
  the source does. No rule ties a stored path to the ad's own id.
- Projecting an ad whose category or type row is missing would dereference
  null. The store invariant rules this out, so the handlers require
  `Valid()` and the case is not modelled.
- The server-rendered view controller (`PazarViewController`) and its view
  model (`AdCrudModel`) are not part of this model.
- Concurrency between requests is not modelled: a handler runs alone, and
  two uploads for the same ad do not race.
