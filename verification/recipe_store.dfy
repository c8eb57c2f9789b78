/** Writing a recipe's line items: `RecipeCreateSerializer.create`, which is
    atomic, and `RecipeUpdateSerializer.update`, which is not. The database is
    a map from id to row with an auto-increment counter; every new line item
    is inserted through `RecipeProduct.save`, which computes its nutrients. */
module RecipeStore {
  import opened Base
  import opened Catalog
  import opened NutrientCalc

  /** A `RecipeProduct` row. */
  datatype LineItem = LineItem(
    recipe: nat, product: nat, unit: nat, customUnit: Option<nat>, quantity: int, nutrients: Nutrients)

  /** One entry of the incoming `products` list: product, unit, optional
      custom unit and quantity (in hundredths). */
  datatype LineRequest = LineRequest(product: nat, unit: nat, customUnit: Option<nat>, quantity: int)

  /** The tables line items refer to; read-only for these operations. */
  datatype Catalogue = Catalogue(
    products: map<nat, Product>, units: map<nat, Unit>, customUnits: map<nat, CustomUnit>)

  datatype Db = Db(recipes: map<nat, RecipeInfo>, lines: map<nat, LineItem>, nextRecipe: nat, nextLine: nat)

  datatype StoreError =
    | NoProducts
      /** The DataError turned into "Product .. - Quantity .. too large for the specified unit - ..!". */
    | TooLarge(product: string, quantity: int, unit: string)
      /** `update_or_create` met two rows with the same tuple (MultipleObjectsReturned, not caught). */
    | MultipleLines
      /** A product, unit or custom unit id that does not exist (DoesNotExist, not caught). */
    | UnknownReference
      /** A create entry whose JSON quantity is not a whole number: it arrives
          as a float, and multiplying the Decimal rate by it raises TypeError
          (not caught). */
    | FloatQuantity

  /** Every id lies below its auto-increment counter, and every line item
      belongs to a recipe that exists (the foreign key, with cascading
      deletes). */
  predicate WellFormed(db: Db) {
    && (forall id :: id in db.lines ==> id < db.nextLine && db.lines[id].recipe in db.recipes)
    && (forall id :: id in db.recipes ==> id < db.nextRecipe)
  }

  predicate Resolves(cat: Catalogue, req: LineRequest) {
    && req.product in cat.products
    && req.unit in cat.units
    && (req.customUnit.Some? ==> req.customUnit.value in cat.customUnits)
  }

  function CustomOf(cat: Catalogue, req: LineRequest): Option<CustomUnit>
    requires Resolves(cat, req)
  {
    match req.customUnit
    case Some(c) => Some(cat.customUnits[c])
    case None => None
  }

  /** The row `RecipeProduct.save` writes for a request: the identifying
      fields as given and the eight nutrients computed from them. */
  function Build(cat: Catalogue, recipe: nat, req: LineRequest): (item: LineItem)
    requires Resolves(cat, req)
  {
    var rate := ResolveRate(cat.units[req.unit], CustomOf(cat, req));
    LineItem(recipe, req.product, req.unit, req.customUnit, req.quantity,
             ComputeLine(cat.products[req.product].nutrients, rate, req.quantity))
  }

  /** The identifying fields of a row, as a request. */
  function RequestOf(item: LineItem): LineRequest {
    LineRequest(item.product, item.unit, item.customUnit, item.quantity)
  }

  /** A row whose stored nutrients are exactly what saving it now computes. */
  predicate Fresh(cat: Catalogue, item: LineItem) {
    Resolves(cat, RequestOf(item)) && item == Build(cat, item.recipe, RequestOf(item))
  }

  /** The columns can hold the row: quantity and nutrients within 6 digits. */
  predicate Storable(item: LineItem) {
    FitsColumn(item.quantity) && FitsLineColumns(item.nutrients)
  }

  function TooLargeFor(cat: Catalogue, req: LineRequest): StoreError
    requires Resolves(cat, req)
  {
    TooLarge(cat.products[req.product].name, req.quantity, cat.units[req.unit].name)
  }

  /** The lookup `update_or_create` filters on: (recipe, product, unit, custom_unit, quantity). */
  predicate SameTuple(item: LineItem, recipe: nat, req: LineRequest) {
    item.recipe == recipe && RequestOf(item) == req
  }

  predicate NoMatch(db: Db, recipe: nat, req: LineRequest) {
    forall k :: k in db.lines ==> !SameTuple(db.lines[k], recipe, req)
  }

  predicate OnlyMatch(db: Db, recipe: nat, req: LineRequest, id: nat) {
    && id in db.lines && SameTuple(db.lines[id], recipe, req)
    && forall k :: k in db.lines && SameTuple(db.lines[k], recipe, req) ==> k == id
  }

  predicate TwoMatches(db: Db, recipe: nat, req: LineRequest) {
    exists a, b :: a in db.lines && b in db.lines && a != b
      && SameTuple(db.lines[a], recipe, req) && SameTuple(db.lines[b], recipe, req)
  }

  /** The ids of a recipe's line items (`instance.recipe_products`). */
  function LineIdsOf(db: Db, recipe: nat): set<nat> {
    set id | id in db.lines && db.lines[id].recipe == recipe
  }

  datatype Saved = Saved(db: Db, id: nat)

  /** `RecipeProduct.objects.update_or_create(recipe=.., quantity=..,
      unit=.., custom_unit=.., product=..)` with no `defaults`. The full
      tuple is looked up. Two rows fail. One row is returned as it is
      stored: the save that follows is given an empty set of fields to
      update, so it writes nothing, recomputes nothing that reaches the
      table, and cannot overflow. With no row a fresh one is inserted through
      `save`, which raises and writes nothing when its values do not fit. */
  function UpdateOrCreate(db: Db, cat: Catalogue, recipe: nat, req: LineRequest): (r: Result<Saved, StoreError>)
    requires WellFormed(db) && recipe in db.recipes
    requires Resolves(cat, req)
    ensures r.Err? ==> r.error == MultipleLines
                       || (r.error == TooLargeFor(cat, req) && !Storable(Build(cat, recipe, req)) && NoMatch(db, recipe, req))
    ensures r.Ok? ==> r.value.id in r.value.db.lines && SameTuple(r.value.db.lines[r.value.id], recipe, req)
    ensures r.Ok? ==> forall k :: k in db.lines && SameTuple(db.lines[k], recipe, req) ==> k == r.value.id
    ensures r.Ok? && r.value.id in db.lines ==> r.value.db == db
    ensures r.Ok? && r.value.id !in db.lines ==>
              && r.value.id == db.nextLine && Storable(Build(cat, recipe, req))
              && r.value.db == db.(lines := db.lines[db.nextLine := Build(cat, recipe, req)], nextLine := db.nextLine + 1)
    ensures r.Ok? ==> WellFormed(r.value.db)
  {
    RequestOfBuild(cat, recipe, req);
    var matches := (it: LineItem) => SameTuple(it, recipe, req);
    var first := FirstKeyFrom(db.lines, matches, 0, db.nextLine);
    if first.Some? then
      if FirstKeyFrom(db.lines, matches, first.value + 1, db.nextLine).Some? then Err(MultipleLines)
      else Ok(Saved(db, first.value))
    else
      var item := Build(cat, recipe, req);
      if !Storable(item) then Err(TooLargeFor(cat, req))
      else Ok(Saved(db.(lines := db.lines[db.nextLine := item], nextLine := db.nextLine + 1), db.nextLine))
  }

  /** The outcomes of `update_or_create`, by how many rows carry the tuple:
      two or more is an error; exactly one is returned with the table as it
      was, whatever nutrients that row holds; with none a row that does not
      fit is an error and one that fits is inserted under the next id. */
  lemma UpdateOrCreateCases(db: Db, cat: Catalogue, recipe: nat, req: LineRequest)
    requires WellFormed(db) && recipe in db.recipes && Resolves(cat, req)
    ensures var r := UpdateOrCreate(db, cat, recipe, req);
      && (TwoMatches(db, recipe, req) ==> r == Err(MultipleLines))
      && (forall id :: OnlyMatch(db, recipe, req, id) ==> r == Ok(Saved(db, id)))
      && (NoMatch(db, recipe, req) && !Storable(Build(cat, recipe, req)) ==> r == Err(TooLargeFor(cat, req)))
      && (NoMatch(db, recipe, req) && Storable(Build(cat, recipe, req)) ==>
            r == Ok(Saved(db.(lines := db.lines[db.nextLine := Build(cat, recipe, req)], nextLine := db.nextLine + 1), db.nextLine)))
  {
    var matches := (it: LineItem) => SameTuple(it, recipe, req);
    var first := FirstKeyFrom(db.lines, matches, 0, db.nextLine);
    if first.Some? && FirstKeyFrom(db.lines, matches, first.value + 1, db.nextLine).Some? {
      assert !NoMatch(db, recipe, req);
      assert forall id :: !OnlyMatch(db, recipe, req, id);
    } else if first.Some? {
      assert OnlyMatch(db, recipe, req, first.value);
      assert !TwoMatches(db, recipe, req);
    } else {
      assert NoMatch(db, recipe, req);
      assert !TwoMatches(db, recipe, req);
    }
  }

  /** A request rebuilt from a row built for it is that request. */
  lemma RequestOfBuild(cat: Catalogue, recipe: nat, req: LineRequest)
    requires Resolves(cat, req)
    ensures RequestOf(Build(cat, recipe, req)) == req
    ensures Build(cat, recipe, req).recipe == recipe
    ensures Fresh(cat, Build(cat, recipe, req))
  {
  }

  /** Row `id` of `after` is either unchanged from `before`, or was written by
      a save for `recipe`; a row that did not exist before lies at or above
      the old counter. */
  predicate WrittenFor(before: Db, after: Db, cat: Catalogue, recipe: nat, id: nat)
    requires id in after.lines
  {
    || (id in before.lines && after.lines[id] == before.lines[id])
    || (after.lines[id].recipe == recipe && Fresh(cat, after.lines[id]) && (id !in before.lines ==> id >= before.nextLine))
  }

  datatype Upserted = AllSaved(db: Db, ids: seq<nat>) | StoppedAt(db: Db, index: nat, error: StoreError)

  predicate AllResolve(cat: Catalogue, reqs: seq<LineRequest>) {
    forall i :: 0 <= i < |reqs| ==> Resolves(cat, reqs[i])
  }

  /** The loop of `update`: `update_or_create` each incoming entry in order,
      collecting the ids; the first exception ends the loop with the rows
      written so far left in place. No row is deleted or changed: rows that
      match are left as stored and only new rows are added. */
  function UpsertAll(db: Db, cat: Catalogue, recipe: nat, reqs: seq<LineRequest>): (r: Upserted)
    requires WellFormed(db) && recipe in db.recipes
    requires AllResolve(cat, reqs)
    decreases |reqs|
    ensures WellFormed(r.db) && r.db.recipes == db.recipes && r.db.nextLine >= db.nextLine
    ensures r.AllSaved? ==> |r.ids| == |reqs|
    ensures r.StoppedAt? ==> r.index < |reqs|
    ensures forall id :: id in db.lines ==> id in r.db.lines && r.db.lines[id] == db.lines[id]
  {
    if |reqs| == 0 then AllSaved(db, [])
    else
      match UpdateOrCreate(db, cat, recipe, reqs[0])
      case Err(e) => StoppedAt(db, 0, e)
      case Ok(s) =>
        match UpsertAll(s.db, cat, recipe, reqs[1..])
        case StoppedAt(d, k, e) => StoppedAt(d, k + 1, e)
        case AllSaved(d, ids) => AllSaved(d, [s.id] + ids)
  }

  /** Every row the loop leaves is either as it was or was inserted for this
      recipe by `save`, with its nutrients computed; rows it added lie at or
      above the old counter. This holds whether the loop stopped or not. */
  lemma {:induction false} UpsertWritesFreshRows(db: Db, cat: Catalogue, recipe: nat, reqs: seq<LineRequest>, id: nat)
    requires WellFormed(db) && recipe in db.recipes && AllResolve(cat, reqs)
    ensures var r := UpsertAll(db, cat, recipe, reqs);
      id in r.db.lines ==> WrittenFor(db, r.db, cat, recipe, id)
    decreases |reqs|
  {
    if |reqs| > 0 {
      var u := UpdateOrCreate(db, cat, recipe, reqs[0]);
      if u.Ok? {
        var s := u.value;
        RequestOfBuild(cat, recipe, reqs[0]);
        UpsertWritesFreshRows(s.db, cat, recipe, reqs[1..], id);
        var rest := UpsertAll(s.db, cat, recipe, reqs[1..]);
        assert rest.db == UpsertAll(db, cat, recipe, reqs).db;
        if id in rest.db.lines && id == s.id && id !in db.lines {
          assert Fresh(cat, s.db.lines[s.id]);
        }
      }
    }
  }

  /** The loop stops only on a lookup that found two rows or on a new entry
      whose values do not fit their columns. */
  lemma {:induction false} UpsertStopsOnError(db: Db, cat: Catalogue, recipe: nat, reqs: seq<LineRequest>)
    requires WellFormed(db) && recipe in db.recipes && AllResolve(cat, reqs)
    ensures var r := UpsertAll(db, cat, recipe, reqs);
      r.StoppedAt? ==> (r.error == MultipleLines
        || (r.error == TooLargeFor(cat, reqs[r.index]) && !Storable(Build(cat, recipe, reqs[r.index]))))
    decreases |reqs|
  {
    if |reqs| > 0 {
      var u := UpdateOrCreate(db, cat, recipe, reqs[0]);
      if u.Ok? {
        UpsertStopsOnError(u.value.db, cat, recipe, reqs[1..]);
        var r := UpsertAll(u.value.db, cat, recipe, reqs[1..]);
        if r.StoppedAt? {
          assert reqs[1..][r.index] == reqs[r.index + 1];
        }
      }
    }
  }

  /** The loop adds rows only to this recipe: every row of another recipe
      after it was there before, unchanged. */
  lemma OtherRecipesUntouched(db: Db, cat: Catalogue, recipe: nat, reqs: seq<LineRequest>)
    requires WellFormed(db) && recipe in db.recipes && AllResolve(cat, reqs)
    ensures var r := UpsertAll(db, cat, recipe, reqs);
      forall id :: id in r.db.lines && r.db.lines[id].recipe != recipe ==> id in db.lines && r.db.lines[id] == db.lines[id]
  {
    var r := UpsertAll(db, cat, recipe, reqs);
    forall id | id in r.db.lines && r.db.lines[id].recipe != recipe
      ensures id in db.lines && r.db.lines[id] == db.lines[id]
    {
      UpsertWritesFreshRows(db, cat, recipe, reqs, id);
    }
  }

  /** On success entry `i`'s returned row carries the entry's tuple. A row
      that existed before is returned exactly as it was stored; a new row
      holds what `save` computes for the entry. */
  lemma {:induction false} UpsertStoresEntry(db: Db, cat: Catalogue, recipe: nat, reqs: seq<LineRequest>, i: nat)
    requires WellFormed(db) && recipe in db.recipes && AllResolve(cat, reqs) && i < |reqs|
    ensures var r := UpsertAll(db, cat, recipe, reqs);
      r.AllSaved? ==>
        && r.ids[i] in r.db.lines && SameTuple(r.db.lines[r.ids[i]], recipe, reqs[i])
        && (r.ids[i] in db.lines ==> r.db.lines[r.ids[i]] == db.lines[r.ids[i]])
        && (r.ids[i] !in db.lines ==> r.db.lines[r.ids[i]] == Build(cat, recipe, reqs[i]))
    decreases |reqs|
  {
    var r := UpsertAll(db, cat, recipe, reqs);
    var u := UpdateOrCreate(db, cat, recipe, reqs[0]);
    if u.Ok? {
      var s := u.value;
      var rest := UpsertAll(s.db, cat, recipe, reqs[1..]);
      if rest.AllSaved? {
        assert r == AllSaved(rest.db, [s.id] + rest.ids);
        if i > 0 {
          UpsertStoresEntry(s.db, cat, recipe, reqs[1..], i - 1);
          assert reqs[1..][i - 1] == reqs[i];
        }
        assert SameTuple(r.db.lines[r.ids[i]], recipe, reqs[i]);
        UpsertWritesFreshRows(db, cat, recipe, reqs, r.ids[i]);
      }
    }
  }

  /** On success every row that did not exist before is one of the returned ids. */
  lemma {:induction false} UpsertListsNewRows(db: Db, cat: Catalogue, recipe: nat, reqs: seq<LineRequest>, id: nat)
    requires WellFormed(db) && recipe in db.recipes && AllResolve(cat, reqs)
    ensures var r := UpsertAll(db, cat, recipe, reqs);
      r.AllSaved? && id in r.db.lines && id !in db.lines ==> id in r.ids
    decreases |reqs|
  {
    if |reqs| > 0 {
      var u := UpdateOrCreate(db, cat, recipe, reqs[0]);
      if u.Ok? && u.value.id != id {
        UpsertListsNewRows(u.value.db, cat, recipe, reqs[1..], id);
      }
    }
  }

  /** The first entry returns the row that already carried its tuple. */
  lemma FirstEntryKeepsMatchedId(db: Db, cat: Catalogue, recipe: nat, reqs: seq<LineRequest>, id: nat)
    requires WellFormed(db) && recipe in db.recipes && AllResolve(cat, reqs) && 0 < |reqs|
    requires id in db.lines && SameTuple(db.lines[id], recipe, reqs[0])
    ensures var r := UpsertAll(db, cat, recipe, reqs);
      r.AllSaved? ==> r.ids[0] == id
  {
    var u := UpdateOrCreate(db, cat, recipe, reqs[0]);
    if u.Ok? {
      var rest := UpsertAll(u.value.db, cat, recipe, reqs[1..]);
      if rest.AllSaved? {
        assert UpsertAll(db, cat, recipe, reqs) == AllSaved(rest.db, [u.value.id] + rest.ids);
      }
    }
  }

  /** On success a row that already carried entry `i`'s tuple is the row that
      entry returns: matched rows keep their ids. */
  lemma {:induction false} UpsertKeepsMatchedId(db: Db, cat: Catalogue, recipe: nat, reqs: seq<LineRequest>, i: nat, id: nat)
    requires WellFormed(db) && recipe in db.recipes && AllResolve(cat, reqs) && i < |reqs|
    requires id in db.lines && SameTuple(db.lines[id], recipe, reqs[i])
    ensures var r := UpsertAll(db, cat, recipe, reqs);
      r.AllSaved? ==> r.ids[i] == id
    decreases |reqs|
  {
    if i == 0 {
      FirstEntryKeepsMatchedId(db, cat, recipe, reqs, id);
    } else {
      var u := UpdateOrCreate(db, cat, recipe, reqs[0]);
      if u.Ok? {
        var s := u.value;
        var rest := UpsertAll(s.db, cat, recipe, reqs[1..]);
        if rest.AllSaved? {
          assert reqs[1..][i - 1] == reqs[i];
          assert s.db.lines[id] == db.lines[id];
          UpsertKeepsMatchedId(s.db, cat, recipe, reqs[1..], i - 1, id);
        }
      }
    }
  }

  /** A later entry equal to the first returns the first entry's row. */
  lemma RepeatOfFirstEntry(db: Db, cat: Catalogue, recipe: nat, reqs: seq<LineRequest>, j: nat)
    requires WellFormed(db) && recipe in db.recipes && AllResolve(cat, reqs) && 0 < j < |reqs|
    requires reqs[0] == reqs[j]
    ensures var r := UpsertAll(db, cat, recipe, reqs);
      r.AllSaved? ==> r.ids[0] == r.ids[j]
  {
    var u := UpdateOrCreate(db, cat, recipe, reqs[0]);
    if u.Ok? {
      var s := u.value;
      var rest := UpsertAll(s.db, cat, recipe, reqs[1..]);
      if rest.AllSaved? {
        assert reqs[1..][j - 1] == reqs[0];
        UpsertKeepsMatchedId(s.db, cat, recipe, reqs[1..], j - 1, s.id);
      }
    }
  }

  /** One step of the loop: with the first entry saved and the rest saved,
      the loop returns the rest's table with the first id in front. */
  lemma UpsertStep(db: Db, cat: Catalogue, recipe: nat, reqs: seq<LineRequest>)
    requires WellFormed(db) && recipe in db.recipes && AllResolve(cat, reqs) && 0 < |reqs|
    requires UpdateOrCreate(db, cat, recipe, reqs[0]).Ok?
    ensures var s := UpdateOrCreate(db, cat, recipe, reqs[0]).value;
            var rest := UpsertAll(s.db, cat, recipe, reqs[1..]);
            rest.AllSaved? ==> UpsertAll(db, cat, recipe, reqs) == AllSaved(rest.db, [s.id] + rest.ids)
  {
  }

  /** On success equal entries collapse onto one row: duplicates in the
      incoming list return the same id. */
  lemma {:induction false} UpsertCollapsesDuplicates(db: Db, cat: Catalogue, recipe: nat, reqs: seq<LineRequest>, i: nat, j: nat)
    requires WellFormed(db) && recipe in db.recipes && AllResolve(cat, reqs) && i < |reqs| && j < |reqs|
    requires reqs[i] == reqs[j]
    ensures var r := UpsertAll(db, cat, recipe, reqs);
      r.AllSaved? ==> r.ids[i] == r.ids[j]
    decreases |reqs|, 1
  {
    if i == 0 && j > 0 {
      RepeatOfFirstEntry(db, cat, recipe, reqs, j);
    } else if j == 0 && i > 0 {
      RepeatOfFirstEntry(db, cat, recipe, reqs, i);
    } else if i > 0 && j > 0 {
      CollapseLaterDuplicates(db, cat, recipe, reqs, i, j);
    }
  }

  /** Two equal entries after the first: the first entry's save is one step,
      and the rest of the loop collapses them. */
  lemma {:induction false} CollapseLaterDuplicates(db: Db, cat: Catalogue, recipe: nat, reqs: seq<LineRequest>, i: nat, j: nat)
    requires WellFormed(db) && recipe in db.recipes && AllResolve(cat, reqs) && 0 < i < |reqs| && 0 < j < |reqs|
    requires reqs[i] == reqs[j]
    ensures var r := UpsertAll(db, cat, recipe, reqs);
      r.AllSaved? ==> r.ids[i] == r.ids[j]
    decreases |reqs|, 0
  {
    var u := UpdateOrCreate(db, cat, recipe, reqs[0]);
    if u.Ok? {
      var s := u.value;
      var rest := UpsertAll(s.db, cat, recipe, reqs[1..]);
      UpsertStep(db, cat, recipe, reqs);
      if rest.AllSaved? {
        var tail := reqs[1..];
        assert tail[i - 1] == tail[j - 1];
        UpsertCollapsesDuplicates(s.db, cat, recipe, tail, i - 1, j - 1);
        var r := UpsertAll(db, cat, recipe, reqs);
        assert r.ids[i] == rest.ids[i - 1] && r.ids[j] == rest.ids[j - 1];
      }
    }
  }

  datatype UpdateOutcome = Updated(db: Db, ids: seq<nat>) | Rejected(db: Db, error: StoreError)

  /** The recipe fields after `update`: the slug is recomputed from the name
      exactly when a name is supplied. */
  function EditedInfo(prior: RecipeInfo, name: Option<string>, portions: Option<int>, slugify: string -> string): RecipeInfo {
    RecipeInfo(
      if name.Some? then name.value else prior.name,
      if name.Some? then slugify(name.value) else prior.slug,
      if portions.Some? then portions.value else prior.portions)
  }

  /** `RecipeUpdateSerializer.update`. An empty product list is refused
      before anything is written. Otherwise each entry is upserted; on the
      first error the rows written so far stay (there is no transaction) and
      no row is deleted. On success every earlier row of the recipe that no
      entry returned is deleted and the recipe's fields are saved. No earlier
      row is ever changed. */
  function UpdateRecipe(db: Db, cat: Catalogue, recipe: nat, name: Option<string>, portions: Option<int>,
                        reqs: seq<LineRequest>, slugify: string -> string): (r: UpdateOutcome)
    requires WellFormed(db)
    requires recipe in db.recipes
    requires AllResolve(cat, reqs)
    ensures WellFormed(r.db)
    ensures |reqs| == 0 ==> r == Rejected(db, NoProducts)
    // a failed update deletes nothing and does not save the recipe's fields
    ensures r.Rejected? ==> db.lines.Keys <= r.db.lines.Keys && r.db.recipes == db.recipes
    // an earlier row that is still there is unchanged
    ensures forall id :: id in db.lines && id in r.db.lines ==> r.db.lines[id] == db.lines[id]
    // rows of other recipes are never touched, and none is added
    ensures forall id :: id in db.lines && db.lines[id].recipe != recipe ==> id in r.db.lines
    ensures forall id :: id in r.db.lines && r.db.lines[id].recipe != recipe ==> id in db.lines
    // after success: one id per entry, earlier rows of the recipe not returned are gone, fields saved
    ensures r.Updated? ==> |r.ids| == |reqs|
    ensures r.Updated? ==> forall id :: id in LineIdsOf(db, recipe) && id !in r.ids ==> id !in r.db.lines
    ensures r.Updated? ==> r.db.recipes == db.recipes[recipe := EditedInfo(db.recipes[recipe], name, portions, slugify)]
  {
    OtherRecipesUntouched(db, cat, recipe, reqs);
    if |reqs| == 0 then Rejected(db, NoProducts)
    else
      match UpsertAll(db, cat, recipe, reqs)
      case StoppedAt(d, k, e) => Rejected(d, e)
      case AllSaved(d, ids) => Updated(Prune(db, d, recipe, ids, EditedInfo(d.recipes[recipe], name, portions, slugify)), ids)
  }

  /** The end of a successful `update`: delete the recipe's earlier rows
      whose ids are not among `ids`, and save the recipe's fields. */
  function Prune(before: Db, after: Db, recipe: nat, ids: seq<nat>, info: RecipeInfo): (r: Db)
    ensures r.lines.Keys == after.lines.Keys - (LineIdsOf(before, recipe) - set i | i in ids)
    ensures forall id :: id in r.lines ==> r.lines[id] == after.lines[id]
  {
    after.(lines := after.lines - (LineIdsOf(before, recipe) - set i | i in ids),
           recipes := after.recipes[recipe := info])
  }

  /** After a successful update the recipe has exactly the rows returned for
      the entries. Entry `i`'s row carries its tuple; a row that matched is
      kept exactly as it was stored, with the nutrients it was saved with,
      and a new row holds what `save` computes for the entry. */
  lemma UpdateLeavesExactlyEntries(db: Db, cat: Catalogue, recipe: nat, name: Option<string>, portions: Option<int>,
                                   reqs: seq<LineRequest>, slugify: string -> string, i: nat)
    requires WellFormed(db) && recipe in db.recipes && AllResolve(cat, reqs)
    ensures var r := UpdateRecipe(db, cat, recipe, name, portions, reqs, slugify);
      r.Updated? ==> LineIdsOf(r.db, recipe) == (set id | id in r.ids)
    ensures var r := UpdateRecipe(db, cat, recipe, name, portions, reqs, slugify);
      r.Updated? && i < |reqs| ==>
        && r.ids[i] in r.db.lines && SameTuple(r.db.lines[r.ids[i]], recipe, reqs[i])
        && (r.ids[i] in db.lines ==> r.db.lines[r.ids[i]] == db.lines[r.ids[i]])
        && (r.ids[i] !in db.lines ==> r.db.lines[r.ids[i]] == Build(cat, recipe, reqs[i]))
  {
    var r := UpdateRecipe(db, cat, recipe, name, portions, reqs, slugify);
    if r.Updated? {
      if i < |reqs| {
        UpsertStoresEntry(db, cat, recipe, reqs, i);
      }
      forall id | id in r.ids ensures id in LineIdsOf(r.db, recipe) {
        var k :| 0 <= k < |r.ids| && r.ids[k] == id;
        UpsertStoresEntry(db, cat, recipe, reqs, k);
      }
      forall id | id in LineIdsOf(r.db, recipe) ensures id in r.ids {
        if id !in db.lines {
          UpsertListsNewRows(db, cat, recipe, reqs, id);
        }
      }
    }
  }

  /** A row that already carries entry `i`'s tuple is the row the entry
      returns, and it keeps the nutrients it was saved with even when its
      product or unit has changed since: the update does not refresh it. */
  lemma UpdateKeepsMatchedRow(db: Db, cat: Catalogue, recipe: nat, name: Option<string>, portions: Option<int>,
                              reqs: seq<LineRequest>, slugify: string -> string, i: nat, id: nat)
    requires WellFormed(db) && recipe in db.recipes && AllResolve(cat, reqs) && i < |reqs|
    requires id in db.lines && SameTuple(db.lines[id], recipe, reqs[i])
    ensures var r := UpdateRecipe(db, cat, recipe, name, portions, reqs, slugify);
      r.Updated? ==> r.ids[i] == id && id in r.db.lines && r.db.lines[id] == db.lines[id]
  {
    UpsertKeepsMatchedId(db, cat, recipe, reqs, i, id);
  }

  /** When every stored row is what saving it now computes, each entry's row
      after a successful update holds what `save` computes for the entry,
      whether it matched or was inserted. */
  lemma UpdateOfFreshRowsStoresEntries(db: Db, cat: Catalogue, recipe: nat, name: Option<string>, portions: Option<int>,
                                       reqs: seq<LineRequest>, slugify: string -> string, i: nat)
    requires WellFormed(db) && recipe in db.recipes && AllResolve(cat, reqs) && i < |reqs|
    requires forall id :: id in db.lines ==> Fresh(cat, db.lines[id])
    ensures var r := UpdateRecipe(db, cat, recipe, name, portions, reqs, slugify);
      r.Updated? ==> r.ids[i] in r.db.lines && r.db.lines[r.ids[i]] == Build(cat, recipe, reqs[i])
  {
    UpdateLeavesExactlyEntries(db, cat, recipe, name, portions, reqs, slugify, i);
    var r := UpdateRecipe(db, cat, recipe, name, portions, reqs, slugify);
    if r.Updated? && r.ids[i] in db.lines {
      var row := db.lines[r.ids[i]];
      assert Fresh(cat, row);
      assert row.recipe == recipe && RequestOf(row) == reqs[i];
    }
  }

  /** A failed update names the entry whose values did not fit. */
  lemma UpdateTooLargeNamesEntry(db: Db, cat: Catalogue, recipe: nat, name: Option<string>, portions: Option<int>,
                                 reqs: seq<LineRequest>, slugify: string -> string)
    requires WellFormed(db) && recipe in db.recipes && AllResolve(cat, reqs)
    ensures var r := UpdateRecipe(db, cat, recipe, name, portions, reqs, slugify);
      r.Rejected? ==> (r.error == NoProducts || r.error == MultipleLines
        || exists i :: 0 <= i < |reqs| && r.error == TooLargeFor(cat, reqs[i]) && !Storable(Build(cat, recipe, reqs[i])))
  {
    if |reqs| > 0 {
      UpsertStopsOnError(db, cat, recipe, reqs);
    }
  }

  /** Saving keeps every row consistent: if every row was fresh before an
      update, every row is fresh after it, whether it succeeded or not. */
  lemma UpdateKeepsRowsFresh(db: Db, cat: Catalogue, recipe: nat, name: Option<string>, portions: Option<int>,
                             reqs: seq<LineRequest>, slugify: string -> string)
    requires WellFormed(db) && recipe in db.recipes && AllResolve(cat, reqs)
    requires forall id :: id in db.lines ==> Fresh(cat, db.lines[id])
    ensures var r := UpdateRecipe(db, cat, recipe, name, portions, reqs, slugify);
            forall id :: id in r.db.lines ==> Fresh(cat, r.db.lines[id])
  {
    if |reqs| > 0 {
      var u := UpsertAll(db, cat, recipe, reqs);
      forall id | id in u.db.lines ensures Fresh(cat, u.db.lines[id]) {
        UpsertWritesFreshRows(db, cat, recipe, reqs, id);
      }
    }
  }

  datatype Created = Created(db: Db, recipe: nat, ids: seq<nat>)

  /** `create` reads `products` as raw JSON, and the editor sends each
      quantity through `Number(..)`: a whole quantity arrives as a Python int,
      any other as a float. */
  predicate WholeQuantity(req: LineRequest) {
    req.quantity % 100 == 0
  }

  /** `create` can write the entry: its ids resolve, its quantity is a whole
      number and its row fits its columns. */
  predicate Insertable(cat: Catalogue, recipe: nat, req: LineRequest) {
    Resolves(cat, req) && WholeQuantity(req) && Storable(Build(cat, recipe, req))
  }

  predicate AllInsertable(cat: Catalogue, recipe: nat, reqs: seq<LineRequest>) {
    forall i :: 0 <= i < |reqs| ==> Insertable(cat, recipe, reqs[i])
  }

  /** The loop of `create`: each entry becomes a new row under the next id
      (there is no lookup, so equal entries give separate rows). An unknown
      id, a fractional quantity or a value too large for its column aborts
      the whole loop, in that order for one entry. */
  function InsertAll(db: Db, cat: Catalogue, recipe: nat, reqs: seq<LineRequest>): (r: Result<Created, StoreError>)
    requires WellFormed(db) && recipe in db.recipes
    decreases |reqs|
    ensures r.Ok? ==>
      && WellFormed(r.value.db) && r.value.db.recipes == db.recipes && r.value.recipe == recipe
      && |r.value.ids| == |reqs| && r.value.db.nextLine == db.nextLine + |reqs|
      && (forall i :: 0 <= i < |reqs| ==> r.value.ids[i] == db.nextLine + i && r.value.ids[i] in r.value.db.lines)
      && (forall id :: id in db.lines ==> id in r.value.db.lines && r.value.db.lines[id] == db.lines[id])
      && (forall id :: id in r.value.db.lines && id !in db.lines ==>
            db.nextLine <= id < db.nextLine + |reqs| && r.value.db.lines[id].recipe == recipe)
  {
    if |reqs| == 0 then Ok(Created(db, recipe, []))
    else if !Resolves(cat, reqs[0]) then Err(UnknownReference)
    else if !WholeQuantity(reqs[0]) then Err(FloatQuantity)
    else
      var item := Build(cat, recipe, reqs[0]);
      if !Storable(item) then Err(TooLargeFor(cat, reqs[0]))
      else
        var db1 := db.(lines := db.lines[db.nextLine := item], nextLine := db.nextLine + 1);
        match InsertAll(db1, cat, recipe, reqs[1..])
        case Err(e) => Err(e)
        case Ok(c) => Ok(Created(c.db, recipe, [db.nextLine] + c.ids))
  }

  /** The loop of `create` succeeds exactly when every entry resolves, has a
      whole quantity and fits. */
  lemma {:induction false} InsertAllSucceedsIff(db: Db, cat: Catalogue, recipe: nat, reqs: seq<LineRequest>)
    requires WellFormed(db) && recipe in db.recipes
    ensures InsertAll(db, cat, recipe, reqs).Ok? <==> AllInsertable(cat, recipe, reqs)
    decreases |reqs|
  {
    if |reqs| > 0 && Insertable(cat, recipe, reqs[0]) {
      var item := Build(cat, recipe, reqs[0]);
      var db1 := db.(lines := db.lines[db.nextLine := item], nextLine := db.nextLine + 1);
      InsertAllSucceedsIff(db1, cat, recipe, reqs[1..]);
      assert forall i :: 1 <= i < |reqs| ==> reqs[1..][i - 1] == reqs[i];
      assert AllInsertable(cat, recipe, reqs[1..]) ==> AllInsertable(cat, recipe, reqs) by {
        if AllInsertable(cat, recipe, reqs[1..]) {
          forall i | 0 < i < |reqs| ensures Insertable(cat, recipe, reqs[i]) {
            assert reqs[1..][i - 1] == reqs[i];
          }
        }
      }
    }
  }

  /** The row `create` writes for its first entry. */
  lemma InsertAllStoresFirst(db: Db, cat: Catalogue, recipe: nat, reqs: seq<LineRequest>)
    requires WellFormed(db) && recipe in db.recipes && 0 < |reqs|
    ensures var r := InsertAll(db, cat, recipe, reqs);
      r.Ok? ==> Resolves(cat, reqs[0]) && r.value.db.lines[r.value.ids[0]] == Build(cat, recipe, reqs[0])
  {
    if Insertable(cat, recipe, reqs[0]) {
      var item := Build(cat, recipe, reqs[0]);
      var db1 := db.(lines := db.lines[db.nextLine := item], nextLine := db.nextLine + 1);
      var rest := InsertAll(db1, cat, recipe, reqs[1..]);
      if rest.Ok? {
        assert rest.value.db.lines[db.nextLine] == item;
      }
    }
  }

  /** The row `create` writes for entry `i` is the entry as `save` computes it. */
  lemma {:induction false} InsertAllStoresEntry(db: Db, cat: Catalogue, recipe: nat, reqs: seq<LineRequest>, i: nat)
    requires WellFormed(db) && recipe in db.recipes && i < |reqs|
    ensures var r := InsertAll(db, cat, recipe, reqs);
      r.Ok? ==> Resolves(cat, reqs[i]) && r.value.db.lines[r.value.ids[i]] == Build(cat, recipe, reqs[i])
    decreases |reqs|
  {
    if i == 0 {
      InsertAllStoresFirst(db, cat, recipe, reqs);
    } else if Insertable(cat, recipe, reqs[0]) {
      var db1 := db.(lines := db.lines[db.nextLine := Build(cat, recipe, reqs[0])], nextLine := db.nextLine + 1);
      InsertAllStep(db, cat, recipe, reqs);
      InsertAllStoresEntry(db1, cat, recipe, reqs[1..], i - 1);
      var r := InsertAll(db, cat, recipe, reqs);
      var rest := InsertAll(db1, cat, recipe, reqs[1..]);
      if r.Ok? {
        assert r.value.ids[i] == rest.value.ids[i - 1];
        assert reqs[1..][i - 1] == reqs[i];
      }
    }
  }

  /** A failed `create` reports the first entry that could not be written:
      every entry before it was fine, and it names an unknown id, has a
      fractional quantity or does not fit its columns. */
  lemma {:induction false} InsertAllFailsAtFirstBadEntry(db: Db, cat: Catalogue, recipe: nat, reqs: seq<LineRequest>)
    requires WellFormed(db) && recipe in db.recipes
    requires InsertAll(db, cat, recipe, reqs).Err?
    ensures var e := InsertAll(db, cat, recipe, reqs).error;
      exists i :: 0 <= i < |reqs| && AllInsertable(cat, recipe, reqs[..i]) && FailsWith(cat, recipe, reqs[i], e)
    decreases |reqs|
  {
    if Insertable(cat, recipe, reqs[0]) {
      var item := Build(cat, recipe, reqs[0]);
      var db1 := db.(lines := db.lines[db.nextLine := item], nextLine := db.nextLine + 1);
      InsertAllStep(db, cat, recipe, reqs);
      var e := InsertAll(db1, cat, recipe, reqs[1..]).error;
      InsertAllFailsAtFirstBadEntry(db1, cat, recipe, reqs[1..]);
      var i :| 0 <= i < |reqs| - 1 && AllInsertable(cat, recipe, reqs[1..][..i]) && FailsWith(cat, recipe, reqs[1..][i], e);
      InsertablePrefix(cat, recipe, reqs, i);
      assert reqs[1..][i] == reqs[i + 1];
    } else {
      assert AllInsertable(cat, recipe, reqs[..0]);
    }
  }

  /** With a writable first entry, `create`'s loop fails exactly as the rest
      of the entries do. */
  lemma InsertAllStep(db: Db, cat: Catalogue, recipe: nat, reqs: seq<LineRequest>)
    requires WellFormed(db) && recipe in db.recipes && 0 < |reqs|
    requires Insertable(cat, recipe, reqs[0])
    ensures var db1 := db.(lines := db.lines[db.nextLine := Build(cat, recipe, reqs[0])], nextLine := db.nextLine + 1);
            var r := InsertAll(db, cat, recipe, reqs);
            var rest := InsertAll(db1, cat, recipe, reqs[1..]);
            r.Err? == rest.Err? && (r.Err? ==> r.error == rest.error)
            && (r.Ok? ==> r.value.db == rest.value.db && r.value.ids == [db.nextLine] + rest.value.ids)
  {
  }

  /** A writable first entry followed by a writable prefix of the rest is a
      writable prefix. */
  lemma InsertablePrefix(cat: Catalogue, recipe: nat, reqs: seq<LineRequest>, i: nat)
    requires i < |reqs| && Insertable(cat, recipe, reqs[0])
    requires AllInsertable(cat, recipe, reqs[1..][..i])
    ensures AllInsertable(cat, recipe, reqs[..i + 1])
  {
    var p := reqs[..i + 1];
    var q := reqs[1..][..i];
    forall k | 0 <= k < |p|
      ensures Insertable(cat, recipe, p[k])
    {
      if k > 0 {
        assert p[k] == q[k - 1];
      }
    }
  }

  /** Entry `req` cannot be written, and `e` is the error `create` raises for it. */
  predicate FailsWith(cat: Catalogue, recipe: nat, req: LineRequest, e: StoreError) {
    || (!Resolves(cat, req) && e == UnknownReference)
    || (Resolves(cat, req) && !WholeQuantity(req) && e == FloatQuantity)
    || (Resolves(cat, req) && WholeQuantity(req) && !Storable(Build(cat, recipe, req)) && e == TooLargeFor(cat, req))
  }

  /** `RecipeCreateSerializer.create`. An empty product list is refused.
      Otherwise the recipe (slug taken from its name) and all its rows are
      written inside one transaction: either all of them exist afterwards,
      with the new recipe holding exactly those rows, or the error is
      returned and nothing was written. */
  function CreateRecipe(db: Db, cat: Catalogue, name: string, portions: int,
                        reqs: seq<LineRequest>, slugify: string -> string): (r: Result<Created, StoreError>)
    requires WellFormed(db)
    ensures |reqs| == 0 ==> r == Err(NoProducts)
    ensures r.Ok? <==> |reqs| > 0 && AllInsertable(cat, db.nextRecipe, reqs)
    ensures r.Ok? ==>
      && WellFormed(r.value.db)
      && r.value.recipe == db.nextRecipe && r.value.recipe !in db.recipes
      && r.value.db.recipes == db.recipes[r.value.recipe := RecipeInfo(name, slugify(name), portions)]
      && |r.value.ids| == |reqs|
      && (forall id :: id in db.lines ==> id in r.value.db.lines && r.value.db.lines[id] == db.lines[id])
      && (forall i :: 0 <= i < |reqs| ==> r.value.ids[i] !in db.lines && r.value.ids[i] in r.value.db.lines)
      && (forall i, j :: 0 <= i < j < |reqs| ==> r.value.ids[i] != r.value.ids[j])
      && LineIdsOf(r.value.db, r.value.recipe) == (set id | id in r.value.ids)
  {
    if |reqs| == 0 then Err(NoProducts)
    else
      var rid := db.nextRecipe;
      var db1 := db.(recipes := db.recipes[rid := RecipeInfo(name, slugify(name), portions)], nextRecipe := rid + 1);
      InsertAllSucceedsIff(db1, cat, rid, reqs);
      var r := InsertAll(db1, cat, rid, reqs);
      if r.Ok? then
        assert LineIdsOf(r.value.db, rid) == (set id | id in r.value.ids) by {
          var c := r.value;
          forall id | id in LineIdsOf(c.db, rid) ensures id in c.ids {
            assert id !in db.lines;
            assert c.ids[id - db.nextLine] == id;
          }
        }
        r
      else r
  }

  /** After a successful create entry `i` is stored as `save` computes it;
      equal entries are not merged, each has its own row. */
  lemma CreateStoresEntry(db: Db, cat: Catalogue, name: string, portions: int,
                          reqs: seq<LineRequest>, slugify: string -> string, i: nat)
    requires WellFormed(db)
    ensures var r := CreateRecipe(db, cat, name, portions, reqs, slugify);
      r.Ok? && i < |reqs| ==> Resolves(cat, reqs[i]) && r.value.db.lines[r.value.ids[i]] == Build(cat, r.value.recipe, reqs[i])
  {
    if |reqs| > 0 && i < |reqs| {
      var rid := db.nextRecipe;
      var db1 := db.(recipes := db.recipes[rid := RecipeInfo(name, slugify(name), portions)], nextRecipe := rid + 1);
      assert CreateRecipe(db, cat, name, portions, reqs, slugify) == InsertAll(db1, cat, rid, reqs);
      InsertAllStoresEntry(db1, cat, rid, reqs, i);
    }
  }

  /** A failed create names the first entry that could not be written. */
  lemma CreateFailsAtFirstBadEntry(db: Db, cat: Catalogue, name: string, portions: int,
                                   reqs: seq<LineRequest>, slugify: string -> string)
    requires WellFormed(db)
    ensures var r := CreateRecipe(db, cat, name, portions, reqs, slugify);
      r.Err? ==> (r.error == NoProducts
        || exists i :: 0 <= i < |reqs| && AllInsertable(cat, db.nextRecipe, reqs[..i]) && FailsWith(cat, db.nextRecipe, reqs[i], r.error))
  {
    if |reqs| > 0 {
      var rid := db.nextRecipe;
      var db1 := db.(recipes := db.recipes[rid := RecipeInfo(name, slugify(name), portions)], nextRecipe := rid + 1);
      if InsertAll(db1, cat, rid, reqs).Err? {
        InsertAllFailsAtFirstBadEntry(db1, cat, rid, reqs);
      }
    }
  }
}
