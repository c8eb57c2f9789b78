# ManjaBook core in Dafny

ManjaBook is a recipe book: users build recipes from catalogue products and
see the nutrients of each recipe. This project models the parts of it whose
behaviour can be stated exactly:

- **Nutrient calculation** (`NutrientCalc`, on `FixedPoint` and `Catalog`).
  Saving a recipe line item (`RecipeProduct.save`) does three things:
  - it picks a conversion rate, where a custom unit wins over the unit;
  - it rounds the normalised quantity half-up to 0.01;
  - it scales the eight per-100 product nutrients by that quantity and rounds each half-up to 0.01.

  A recipe's totals (`Recipe.calculate_total_nutrients`) are the plain
  field-wise sums over its line items. Every decimal is an integer at a fixed
  scale:
  - rates are in thousandths; custom rates are in hundredths;
  - quantities are in hundredths;
  - product nutrients are in hundredths, except whole calories and salt in thousandths;
  - line columns are in hundredths, except salt in thousandths.
- **Recipe create and update** (`RecipeStore`). The database is a set of
  maps from id to row, each with an auto-increment counter.
  - Create is atomic. It either writes the recipe and every line or returns the error.
    A quantity that is not a whole number arrives from the raw JSON field as a float.
    The Decimal rate cannot be multiplied by it, so such an entry fails the whole create.
  - Update works in three steps:
    - it runs `update_or_create` on the full tuple (recipe, product, unit, custom unit, quantity) for each incoming entry;
    - it stops at the first error and leaves the rows written so far (there is no transaction);
    - only on success does it delete the recipe's earlier rows that no entry returned.

    A row that matches an entry is returned as stored. With no `defaults`, the
    framework (Django 5.1) saves it with an empty set of fields, which writes
    nothing. Only new rows get freshly computed nutrients.
    No view serves this serializer: `RecipeDetailView`
    (`inventory/views.py:146`) writes through `RecipeDetailSerializer`, whose
    `products` is read-only. The update path is modelled as the serializer
    defines it.
- **Get-or-create tables** (`Registry`):
  - custom units are keyed on (unit, rate), and only customizable units are accepted;
  - saving a (user, collection) pair that is already saved is refused.
- **The recipe editor's product list** (`Selection`, from the React
  component): add (merge or append), delete by key, edit (replace or merge),
  the keys given to a loaded recipe's entries, and the products payload.
- **Access rules** (`Access`):
  - the collection visibility filter of a profile;
  - the owner-or-admin permission;
  - the profile's `is_owner` flag;
  - the profile update's username and picture handling.

Four behaviours of the code that are easy to misread:

- Salt is rounded to 0.01 like every other field (`models.py:138` calls the same
  `quantize_value`), although its column has three decimals. A stored line salt is
  therefore always a multiple of 10 thousandths
  (`NutrientCalc.ComputeLine`, `NutrientCalc.ExampleSaltRoundedToHundredths`).
- Update does not edit an existing line in place when only its quantity
  changes. The lookup key includes the quantity, so a changed quantity inserts a
  new row and the old one is pruned.
- A matched line is not recomputed: it keeps the nutrients it was first saved
  with (`RecipeStore.UpdateKeepsMatchedRow`). It equals a fresh computation
  only while no product, unit or custom unit has changed
  (`RecipeStore.UpdateOfFreshRowsStoresEntries`).
- Several validator limits are float literals: the quantity's 0.01 and
  1000.01, the custom rate's 0.01, and the 111.11 for fats. A Decimal is
  compared with a float exactly. The float 0.01 lies just above the decimal
  0.01, and 1000.01 and 111.11 lie just below their decimals. So the accepted
  quantities are 0.02 to 1000.00, the smallest custom rate is 0.02, and the
  largest fats value is 111.10.

## Model

| member | source | states |
|---|---|---|
| `FixedPoint.RoundHalfUp` | manjabook-backend/ManjaBook/inventory/models.py:127-128 | the result is the integer nearest to n/d, with halves going away from zero (ROUND_HALF_UP), and it keeps the sign of n |
| `FixedPoint.HalfUpUnique` | manjabook-backend/ManjaBook/inventory/models.py:127-128 | exactly one integer meets the half-up specification, so the rounding is determined |
| `FixedPoint.RoundExact` | manjabook-backend/ManjaBook/inventory/models.py:127-128 | a value already on the 0.01 grid is left unchanged by `quantize_value` |
| `FixedPoint.RoundMonotone` | manjabook-backend/ManjaBook/inventory/models.py:127-128 | half-up rounding never reverses the order of two values |
| `Catalog.ProductBounds` | manjabook-backend/ManjaBook/inventory/abstract_classes.py:14-58 | a valid product field lies in [0, validator maximum], where the float 111.11 limit on fats admits at most 111.10; for salt the 5-digit, 3-decimal column (99.999) binds before the validator's 100 |
| `NutrientCalc.ResolveRate` | manjabook-backend/ManjaBook/inventory/models.py:121-124 | the rate is the custom unit's when one is set, otherwise the unit's; for valid units and custom units it is within the unit-rate range |
| `NutrientCalc.RatePrecedence` | manjabook-backend/ManjaBook/inventory/models.py:121-124 | with a custom unit, the line's own unit does not affect the rate (nothing checks that the two belong together); without one, the unit's rate is used |
| `NutrientCalc.NormalisedQuantity` | manjabook-backend/ManjaBook/inventory/models.py:130 | the result is the half-up rounding to 0.01 of rate × quantity / 100, and it is non-negative for non-negative inputs |
| `NutrientCalc.LineValueRounds` | manjabook-backend/ManjaBook/inventory/models.py:132-139 | one line field, read at 0.01, is the half-up rounding of normalised × product field, and sits on the 0.01 grid of its column |
| `NutrientCalc.ComputeLine` | manjabook-backend/ManjaBook/inventory/models.py:138 | the stored salt is always a multiple of 0.01, because it is rounded like the others; the rounding law for all eight fields is stated by `NutrientCalc.LineRoundingLaw` |
| `NutrientCalc.LineRoundingLaw` | manjabook-backend/ManjaBook/inventory/models.py:126-139 | every one of the eight fields satisfies the two-step rounding law: first the quantity, then the product with the product field |
| `NutrientCalc.LineNonNegative` | manjabook-backend/ManjaBook/inventory/models.py:130-139 | non-negative rate, quantity and valid product nutrients give non-negative line values |
| `NutrientCalc.LineMonotoneInQuantity` | manjabook-backend/ManjaBook/inventory/models.py:130-139 | a larger quantity never gives a smaller value in any field |
| `NutrientCalc.SmallLinesFit` | manjabook-backend/ManjaBook/inventory/abstract_classes.py:65-88 | a normalised quantity up to 9.99 with valid product nutrients never overflows a 6-digit line column |
| `NutrientCalc.OverflowPassesValidators` | manjabook-backend/ManjaBook/inventory/models.py:112-115 | 1000.00 g, the largest quantity the float validators let through, of a 1000 kcal product gives 10000.00 kcal, which does not fit the calories column |
| `NutrientCalc.ExampleGrams` | manjabook-backend/ManjaBook/inventory/models.py:130-132 | 150 g of a 200 kcal product at rate 1.000 normalises to 1.50 and gives 300.00 kcal |
| `NutrientCalc.ExampleCustomHalfUp` | manjabook-backend/ManjaBook/inventory/models.py:121-132 | custom rate 0.50 with quantity 33 gives 0.165, which rounds to 0.17, and 0.17 × 200 kcal gives 34.00 kcal |
| `NutrientCalc.ExampleSaltRoundedToHundredths` | manjabook-backend/ManjaBook/inventory/models.py:138 | salt 2.345 at normalised 1.00 is stored as 2.350, not 2.345 |
| `NutrientCalc.ZeroQuantityZeroLine` | manjabook-backend/ManjaBook/inventory/models.py:130-139 | a zero rate or a zero quantity gives all eight fields zero |
| `NutrientCalc.Totals` | manjabook-backend/ManjaBook/inventory/models.py:75-85 | every total equals the plain sum of that field over the lines, with no re-rounding |
| `NutrientCalc.CalculateTotalNutrients` | manjabook-backend/ManjaBook/inventory/models.py:63-85 | the loop from the all-zero dictionary returns the field-wise sums |
| `NutrientCalc.TotalsOfNoLines` | manjabook-backend/ManjaBook/inventory/models.py:64-73 | a recipe with no line items totals to all zeros |
| `NutrientCalc.TotalsOrderIndependent` | manjabook-backend/ManjaBook/inventory/models.py:75 | the totals do not depend on the order in which `recipe_products.all()` returns the rows |
| `NutrientCalc.TotalsConcat` | manjabook-backend/ManjaBook/inventory/models.py:75-85 | the totals of two groups of lines add up field by field |
| `RecipeStore.UpdateOrCreate` | manjabook-backend/ManjaBook/inventory/serializers.py:168-174 | two matching rows are an error. One matching row is returned, and the table is left exactly as it was: the save after the lookup updates no fields, so nothing is recomputed and nothing can overflow. With no match, a row that does not fit raises the product/quantity/unit error; otherwise the row `save` computes is inserted under the next id. The returned row is the only one carrying the tuple, and the rows stay well-formed |
| `RecipeStore.UpdateOrCreateCases` | manjabook-backend/ManjaBook/inventory/serializers.py:168-174 | the outcome by the number of rows carrying the tuple: two or more is an error; one is returned with the table unchanged; with none, the fit check decides between the error and an insert |
| `RecipeStore.UpsertAll` | manjabook-backend/ManjaBook/inventory/serializers.py:166-182 | the upsert loop returns one id per entry or stops at an index; it never deletes or changes an existing row, it only adds rows |
| `RecipeStore.UpsertWritesFreshRows` | manjabook-backend/ManjaBook/inventory/serializers.py:166-175 | every row after the loop is unchanged, or was inserted for this recipe with its nutrients computed by `save` (new rows lie at or above the old counter) |
| `RecipeStore.UpsertStopsOnError` | manjabook-backend/ManjaBook/inventory/serializers.py:176-182 | the loop stops only on a duplicate lookup, or on an entry at the stop index whose new row does not fit; that error names the entry's product, quantity and unit |
| `RecipeStore.OtherRecipesUntouched` | manjabook-backend/ManjaBook/inventory/serializers.py:166-174 | every row of another recipe after the loop was there before and is unchanged: the loop adds rows only to this recipe |
| `RecipeStore.UpsertStoresEntry` | manjabook-backend/ManjaBook/inventory/serializers.py:166-175 | after success, entry i's returned row carries the entry's tuple. A row that existed is returned exactly as it was stored, and a new row holds what `save` computes for the entry |
| `RecipeStore.UpsertKeepsMatchedId` | manjabook-backend/ManjaBook/inventory/serializers.py:166-175 | an existing row whose tuple matches an entry is the row that entry returns, so it keeps its id |
| `RecipeStore.UpsertCollapsesDuplicates` | manjabook-backend/ManjaBook/inventory/serializers.py:166-175 | equal incoming entries return the same id |
| `RecipeStore.UpdateRecipe` | manjabook-backend/ManjaBook/inventory/serializers.py:154-185 | an empty list is refused before anything is written. A failure deletes nothing and leaves the recipe's fields alone. Success gives one id per entry, deletes the earlier rows of the recipe that were not returned, and saves the fields, with the slug recomputed exactly when a name is given. An earlier row that survives is never changed, and other recipes neither lose nor gain rows |
| `RecipeStore.Prune` | manjabook-backend/ManjaBook/inventory/serializers.py:183-184 | removes exactly the recipe's earlier ids that are not among the returned ones, and keeps every other row as it is |
| `RecipeStore.UpdateLeavesExactlyEntries` | manjabook-backend/ManjaBook/inventory/serializers.py:162-184 | after success, the recipe's line ids are exactly the returned ids. Entry i's row carries its tuple. A matched row keeps what it stored, and a new row holds what `save` computes |
| `RecipeStore.UpdateKeepsMatchedRow` | manjabook-backend/ManjaBook/inventory/serializers.py:168-175 | a row that already carries entry i's tuple is the row that entry returns, and it keeps the nutrients it was stored with, even if its product has changed since |
| `RecipeStore.UpdateOfFreshRowsStoresEntries` | manjabook-backend/ManjaBook/inventory/serializers.py:166-175 | when every stored row is what saving it now computes, each entry's row after success is exactly what `save` computes for the entry, whether matched or new |
| `RecipeStore.UpdateTooLargeNamesEntry` | manjabook-backend/ManjaBook/inventory/serializers.py:176-182 | a failed update reports no products, a duplicate lookup, or the too-large error naming an entry whose row does not fit |
| `RecipeStore.UpdateKeepsRowsFresh` | manjabook-backend/ManjaBook/inventory/models.py:126-141 | if every row held what `save` computes before an update, every row still does afterwards, whether or not the update succeeded |
| `RecipeStore.InsertAll` | manjabook-backend/ManjaBook/inventory/serializers.py:213-230 | the create loop writes each entry as a new row under consecutive ids, without merging equal entries, and keeps every earlier row. An unknown id, a fractional quantity or an overflow aborts the loop |
| `RecipeStore.InsertAllSucceedsIff` | manjabook-backend/ManjaBook/inventory/serializers.py:213-230 | the loop succeeds exactly when every entry resolves, has a whole-number quantity and fits its columns. A fractional quantity arrives as a JSON float, and the Decimal × float product raises TypeError |
| `RecipeStore.InsertAllStoresEntry` | manjabook-backend/ManjaBook/inventory/serializers.py:213-223 | entry i is stored under its id exactly as `save` computes it |
| `RecipeStore.InsertAllFailsAtFirstBadEntry` | manjabook-backend/ManjaBook/inventory/serializers.py:213-230 | a failure reports the first entry that cannot be written, as an unknown id, a fractional quantity or an overflow, in that order; every entry before it was fine |
| `RecipeStore.CreateRecipe` | manjabook-backend/ManjaBook/inventory/serializers.py:205-232 | an empty list is refused. Success happens exactly when every entry resolves, has a whole-number quantity and fits its columns; a fractional quantity arrives as a JSON float and raises TypeError. On success the new recipe, with its slug taken from the name, holds exactly the new distinct ids, and every earlier row is unchanged. A failure returns only the error, so nothing is written |
| `RecipeStore.CreateStoresEntry` | manjabook-backend/ManjaBook/inventory/serializers.py:213-223 | after a create, entry i's row is what `save` computes for it |
| `RecipeStore.CreateFailsAtFirstBadEntry` | manjabook-backend/ManjaBook/inventory/serializers.py:213-230 | a failed create names the first entry that has an unknown id, a fractional quantity, or a row that does not fit |
| `Registry.CreateCustomUnit` | manjabook-backend/ManjaBook/inventory/serializers.py:62-76 | a unit that is not selectable (missing or not customizable) or a rate outside 0.02..9999.99 is refused, naming each bad field; the float limit 0.01 lies just above the decimal 0.01, so 0.01 is refused. Otherwise it returns the one row with that (unit, rate), adding it only when none exists. The table stays free of duplicates |
| `Registry.CreateCustomUnitIdempotent` | manjabook-backend/ManjaBook/inventory/serializers.py:71-76 | asking again for the same pair returns the same row, and the table does not grow |
| `Registry.CreateCustomUnitReturnsTheRow` | manjabook-backend/ManjaBook/inventory/serializers.py:71-76 | an existing row with the pair is returned as is |
| `Registry.SaveCollection` | manjabook-backend/ManjaBook/inventory/serializers.py:277-282 | an unknown user or collection is a field error. A pair already saved is refused. Otherwise a row is added under the next id, and no pair is ever stored twice |
| `Registry.SaveTwiceRejected` | manjabook-backend/ManjaBook/inventory/serializers.py:277-282 | saving the same pair a second time is refused |
| `Selection.FindIndex` | manjabook-frontend/src/components/recipeCreator/RecipeCreator.jsx:210-214 | `findIndex`: the first position that satisfies the test, or none |
| `Selection.AddAppendsNewPair` | manjabook-frontend/src/components/recipeCreator/RecipeCreator.jsx:216-220 | a pick with a new (product, unit) is appended under key `${total+1}-${product}`; the counter grows and earlier entries are unchanged |
| `Selection.AddMergesExistingPair` | manjabook-frontend/src/components/recipeCreator/RecipeCreator.jsx:222-241 | a pick onto an existing pair either adds its quantity to that entry (an exact sum in hundredths), leaving the rest unchanged, or is refused with the message and leaves the list unchanged |
| `Selection.AddAsWrittenRefusesOnlyMixed` | manjabook-frontend/src/components/recipeCreator/RecipeCreator.jsx:222-232 | as written, a pick is refused exactly when one side has a custom unit and the other has none |
| `Selection.AddRefusesDifferentRates` | manjabook-frontend/src/components/recipeCreator/RecipeCreator.jsx:223 | with the intended comparison, two custom units merge exactly when their rates agree |
| `Selection.MixedRatesMerged` | manjabook-frontend/src/components/recipeCreator/RecipeCreator.jsx:223 | a concrete list where the code as written adds 1.00 at rate 2.00 onto 1.00 at rate 0.50, while the intended rule refuses it |
| `Selection.AddKeepsKeysSound` | manjabook-frontend/src/components/recipeCreator/RecipeCreator.jsx:216-219 | adding keeps keys unique and no higher than the counter |
| `Selection.AddKeepsPairsUnique` | manjabook-frontend/src/components/recipeCreator/RecipeCreator.jsx:208-243 | adding never creates two entries with the same product and unit |
| `Selection.Delete` | manjabook-frontend/src/components/recipeCreator/RecipeCreator.jsx:245-251 | the survivors are exactly the entries whose key differs, and the counter is unchanged |
| `Selection.DeleteKeepsOrder` | manjabook-frontend/src/components/recipeCreator/RecipeCreator.jsx:250-251 | deleting commutes with splitting the list, so the survivors keep their order |
| `Selection.DeleteAbsentKey` | manjabook-frontend/src/components/recipeCreator/RecipeCreator.jsx:250-251 | deleting a key not in use changes nothing |
| `Selection.DeleteRemovesOne` | manjabook-frontend/src/components/recipeCreator/RecipeCreator.jsx:250-251 | with unique keys, deleting entry i's key removes exactly entry i |
| `Selection.ReplaceKeyed` | manjabook-frontend/src/components/recipeCreator/RecipeCreator.jsx:282-290 | every entry with the key becomes the edited entry, and the others stay |
| `Selection.Edit` | manjabook-frontend/src/components/recipeCreator/RecipeCreator.jsx:256-293 | an edit never changes the key counter |
| `Selection.EditReplacesInPlace` | manjabook-frontend/src/components/recipeCreator/RecipeCreator.jsx:282-290 | when no other entry has the new pair, only the edited entry's unit, custom unit and quantity change |
| `Selection.EditMergesIntoOther` | manjabook-frontend/src/components/recipeCreator/RecipeCreator.jsx:256-279 | editing into another entry's pair merges when the custom-unit ids match or both are absent: that entry grows by the edited quantity (an exact sum in hundredths) and the edited one disappears. Otherwise "Invalid edit!" is shown and the list is unchanged |
| `Selection.EditKeepsKeysSound` | manjabook-frontend/src/components/recipeCreator/RecipeCreator.jsx:256-290 | editing keeps keys unique and no higher than the counter |
| `Selection.LoadAsWritten` | manjabook-frontend/src/components/recipeCreator/RecipeCreator.jsx:182-187 | every loaded entry gets key `${n}-${product}`, where n is the number of loaded products |
| `Selection.Load` | manjabook-frontend/src/components/recipeCreator/RecipeCreator.jsx:182-187 | the corrected loading keys entry i as `${i}-${product}` |
| `Selection.LoadKeysSound` | manjabook-frontend/src/components/recipeCreator/RecipeCreator.jsx:182-187 | the corrected keys are unique and lie below the counter that later additions draw from |
| `Selection.LoadedDuplicatesDeletedTogether` | manjabook-frontend/src/components/recipeCreator/RecipeCreator.jsx:182-187 | as written, two lines of the same product share a key and one delete removes both; with positional keys only one is removed |
| `Selection.CustomId` | manjabook-frontend/src/components/recipeCreator/RecipeCreator.jsx:80 | `custom_unit?.id \|\| null` sends the id when there is a custom unit with a nonzero id, and null otherwise |
| `Selection.PayloadCarriesEntries` | manjabook-frontend/src/components/recipeCreator/RecipeCreator.jsx:74-82 | request i carries entry i's product, unit and quantity, and its custom unit id when the entry has one (database ids start at 1) |
| `Selection.PayloadOfDelete` | manjabook-frontend/src/components/recipeCreator/RecipeCreator.jsx:74-82 | the payload follows the list order: deleting an entry removes just its request |
| `Access.OwnedCollections` | manjabook-backend/ManjaBook/accounts/serializers.py:95-110 | only collections that the profile created are ever listed |
| `Access.OwnedCollectionsIff` | manjabook-backend/ManjaBook/accounts/serializers.py:99-110 | a collection is listed exactly when the profile created it and it is public or the requester may see private ones |
| `Access.OthersSeePublicOnly` | manjabook-backend/ManjaBook/accounts/serializers.py:101-110 | a requester who is missing, anonymous, or signed in without being owner, superuser or admin sees exactly the public subset, in order |
| `Access.PrivilegedSeeAll` | manjabook-backend/ManjaBook/accounts/serializers.py:101-106 | the owner, a superuser or an Admins member sees every collection the profile created |
| `Access.VisibleToOwnerToo` | manjabook-backend/ManjaBook/accounts/serializers.py:99-110 | what anyone sees is contained in what the owner sees |
| `Access.OwnerOrAdmin` | manjabook-backend/ManjaBook/accounts/permissions.py:8-11 | a signed-in staff or Admins member is always granted. For anyone else, an object with no creator makes the check raise; otherwise they are granted exactly when they are signed in and created the object. An anonymous requester is never granted |
| `Access.OnlyOwnersOrAdmins` | manjabook-backend/ManjaBook/accounts/permissions.py:5-11 | permission is granted exactly to signed-in staff, Admins members and creators |
| `Access.ProfileIsOwner` | manjabook-backend/ManjaBook/accounts/serializers.py:112-117 | `is_owner` is false without a signed-in requester; when true, the permission test agreed |
| `Access.SignedInIsOwner` | manjabook-backend/ManjaBook/accounts/serializers.py:112-117 | for a signed-in requester, the flag is exactly the permission test |
| `Access.UpdateProfile` | manjabook-backend/ManjaBook/accounts/serializers.py:63-78 | a username over 20 characters, or one another account holds, fails and changes nothing. Otherwise a supplied username is set, and a missing or null picture keeps the stored one |
| `Access.NullPictureKept` | manjabook-backend/ManjaBook/accounts/serializers.py:75-76 | a null picture keeps the stored picture, and an update without a username or picture leaves the profile as it is |

## Left out

- HTTP views, routing, JWT authentication, cookies, settings and admin: these are framework wiring.
- `slugify(unidecode(name))`: this is a foreign library. It is a function parameter `slugify`.
- The permission test `is_allowed` that `ProfileSerializer.get_is_owner` calls: it is not defined in `permissions.py` and is not part of this model. It is a parameter.
- Kilojoules (`calories * 4.184`): this is float arithmetic.
- The other recipe fields (description, times, preparation) and image uploads: only the name, slug and portions are modelled.
- The `post_save` hook that saves a new collection for its creator: it is a one-line framework hook.
- Concurrency: two requests racing through `get_or_create`, `update_or_create` or the saved-collection check can each insert a row. The model runs one request at a time.
- Database errors: a value too large for its column is modelled as the explicit `Storable` check (6 digits for the quantity and the eight nutrient columns), not as a Postgres DataError. The recipe's own columns are not checked for overflow.
- JSON numbers: on create the products arrive through a raw JSON field, and the editor sends quantities through `Number(...)`. The model keeps quantities in hundredths. A whole number stays an integer and is exact. Any other value is a float, and the model treats it as the TypeError it raises. A JSON quantity with more than two decimals has no hundredths value and is not modelled; it raises the same TypeError.
- Selection.AddUsing: merging a pick into an existing entry adds the two quantities exactly, in hundredths. The editor adds them as JavaScript doubles (`RecipeCreator.jsx:237`), so a sum that is not a whole number can carry binary noise into the editor's state and the payload (0.10 + 0.20 is stored as 0.30000000000000004). The noise lies in the last binary digits. Create accepts only whole numbers, so a noisy fraction fails create in both the source and the model. A sum whose exact value is whole but whose double is not would fail create only in the source. On the update serializer's path a noisy fraction would be refused for having more than two decimals.
- Selection.AddMergesExistingPair: states the merged quantity as the exact sum, for the reason given for `Selection.AddUsing`.
- Selection.Edit: merging an edit into another entry adds the quantities exactly through `Grow`, whereas the editor adds doubles (`RecipeCreator.jsx:275`). The same binary noise is left out as for `Selection.AddUsing`.
- Selection.EditMergesIntoOther: states the other entry's growth as the exact sum, for the reason given for `Selection.Edit`.
- React rendering, state batching and closures: each handler is a pure function of the list and counter it sees. The edit path stores `quantityValue` as given (it does not pass through `Number`).
- Field-level validation by the serializers is not modelled: blank or trimmed usernames, the ASCII and minimum-length username validators (not run on this path), and the recipe's name (3 to 100 characters) and portions (1 to 100) validators, which reject a request before create or update runs. Create validates none of its entries: they are a raw JSON field, and `save` does not run the model's validators. Only the checks the modelled code performs are modelled.
- RecipeStore.UpdateRecipe: requires every entry's product, unit and custom unit to exist, because the update serializer's primary-key fields reject unknown ids before `update` runs.
- RecipeStore.UpdateRecipe: an entry that omits `custom_unit_id` is treated as one with a null custom unit. The field is optional in the nested serializer, but `update` reads `product_data['custom_unit']`, so the source raises KeyError there, after the earlier entries were upserted. The editor always sends the field.
- RecipeStore.UpdateRecipe: the per-field quantity validators of the nested serializer (0.02 to 1000.00, at most six digits) are not modelled. A quantity they reject fails validation before `update` runs, so nothing is written.
- RecipeStore.UpsertAll: requires every entry to resolve, for the same reason as `UpdateRecipe`.
- Registry.CreateCustomUnit: the `is_customizable` check in `validate` cannot fail, because the unit field only offers customizable units. The model has one check, the field's.
- Registry.CreateCustomUnit: `get_or_create` raising on two rows with the same pair is not modelled. The table invariant (no duplicate pairs, kept by this operation) rules it out.

## Findings

| source | as written | input that shows it | evidently intended | confidence | as-written member | corrected member |
|---|---|---|---|---|---|---|
| manjabook-frontend/src/components/recipeCreator/RecipeCreator.jsx:223 | the custom-unit check compares `data.custom_unit.custom_convert_to_base_rate` with itself, so any two custom units merge | an entry of 1.00 in a custom unit of rate 0.50, then add 1.00 of the same product and unit in a custom unit of rate 2.00: the result is one entry of 2.00 at rate 0.50 | compare against `oldValues[existingIndex].custom_unit`'s rate, and refuse the pick when the rates differ | not executed | `Selection.MixedRatesMerged` | `Selection.AddRefusesDifferentRates` |
| manjabook-frontend/src/components/recipeCreator/RecipeCreator.jsx:182-187 | every loaded entry gets key `${totalProducts}-${product.id}`, so two lines of the same product share one key | load a recipe with the same product in two units, then delete one of them: both disappear (`filter` by key) | a distinct key per loaded entry, such as its position | not executed | `Selection.LoadedDuplicatesDeletedTogether` | `Selection.LoadKeysSound` |
