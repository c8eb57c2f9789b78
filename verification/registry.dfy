/** The two small "register once" tables of the inventory app: custom units,
    created get-or-create on (unit, rate), and saved collections, where saving
    a (user, collection) pair that is already saved is refused. */
module Registry {
  import opened Base
  import opened Catalog

  // ---------------------------------------------------------------- custom units

  /** The custom-unit table: rows by id and the next id the table hands out. */
  datatype CustomUnits = CustomUnits(rows: map<nat, CustomUnit>, nextId: nat)

  /** Rows sit under their own id, below the counter, with a rate their
      validators accept, and no two rows share a (unit, rate) pair. */
  predicate CustomUnitsWellFormed(t: CustomUnits) {
    (forall k :: k in t.rows ==> k < t.nextId && t.rows[k].id == k && ValidCustomUnit(t.rows[k]))
    && (forall a, b :: a in t.rows && b in t.rows ==>
          (t.rows[a].unit == t.rows[b].unit && t.rows[a].rate == t.rows[b].rate ==> a == b))
  }

  /** The unit field only offers units whose `is_customizable` is set. */
  predicate Selectable(units: map<nat, Unit>, unit: nat) {
    unit in units && units[unit].customizable
  }

  /** The rate field: at most six digits with two decimals, and not below the
      float 0.01; as that float exceeds the decimal 0.01, the smallest rate
      accepted is 0.02. */
  predicate RateAccepted(rate: int) {
    2 <= rate <= 999_999
  }

  /** Field validation reports every rejected field at once. */
  datatype CustomUnitError = InvalidFields(unitRejected: bool, rateRejected: bool)

  datatype Got = Got(table: CustomUnits, row: CustomUnit)

  function HasPair(unit: nat, rate: int): CustomUnit -> bool {
    (c: CustomUnit) => c.unit == unit && c.rate == rate
  }

  /** Whether some row already carries the pair. */
  predicate PairStored(t: CustomUnits, unit: nat, rate: int) {
    exists k :: k in t.rows && t.rows[k].unit == unit && t.rows[k].rate == rate
  }

  /** Creating a custom unit: the unit must be selectable and the rate in
      range; then the row with that (unit, rate) is returned, inserted under a
      fresh id when there is none yet. */
  function CreateCustomUnit(units: map<nat, Unit>, t: CustomUnits, unit: nat, rate: int): (r: Result<Got, CustomUnitError>)
    requires CustomUnitsWellFormed(t)
    ensures r.Err? <==> !Selectable(units, unit) || !RateAccepted(rate)
    ensures r.Err? ==> r.error == InvalidFields(!Selectable(units, unit), !RateAccepted(rate))
    ensures r.Ok? ==> CustomUnitsWellFormed(r.value.table)
    ensures r.Ok? ==> r.value.row.unit == unit && r.value.row.rate == rate
    ensures r.Ok? ==> r.value.row.id in r.value.table.rows && r.value.table.rows[r.value.row.id] == r.value.row
    ensures r.Ok? ==> r.value.table.rows.Keys == t.rows.Keys + {r.value.row.id}
    ensures r.Ok? ==> forall k :: k in t.rows ==> r.value.table.rows[k] == t.rows[k]
    ensures r.Ok? ==> (r.value.table == t <==> PairStored(t, unit, rate))
  {
    if !Selectable(units, unit) || !RateAccepted(rate) then
      Err(InvalidFields(!Selectable(units, unit), !RateAccepted(rate)))
    else
      match FirstKeyFrom(t.rows, HasPair(unit, rate), 0, t.nextId)
      case Some(k) =>
        Ok(Got(t, t.rows[k]))
      case None =>
        var row := CustomUnit(t.nextId, unit, rate);
        var t' := CustomUnits(t.rows[t.nextId := row], t.nextId + 1);
        assert !PairStored(t, unit, rate) by {
          forall k | k in t.rows
            ensures !(t.rows[k].unit == unit && t.rows[k].rate == rate)
          {
            assert !HasPair(unit, rate)(t.rows[k]);
          }
        }
        assert t' != t by { assert t.nextId !in t.rows; }
        Ok(Got(t', row))
  }

  /** Get-or-create: asking again for a pair just created or found returns the
      same row and leaves the table as it is. */
  lemma CreateCustomUnitIdempotent(units: map<nat, Unit>, t: CustomUnits, unit: nat, rate: int)
    requires CustomUnitsWellFormed(t)
    requires CreateCustomUnit(units, t, unit, rate).Ok?
    ensures var first := CreateCustomUnit(units, t, unit, rate).value;
            var again := CreateCustomUnit(units, first.table, unit, rate);
            again == Ok(Got(first.table, first.row))
  {
    var first := CreateCustomUnit(units, t, unit, rate).value;
    assert PairStored(first.table, unit, rate) by {
      assert first.table.rows[first.row.id] == first.row;
    }
  }

  /** Whatever table one starts from, the row returned for a pair is the one
      row that carries it. */
  lemma CreateCustomUnitReturnsTheRow(units: map<nat, Unit>, t: CustomUnits, unit: nat, rate: int, k: nat)
    requires CustomUnitsWellFormed(t)
    requires Selectable(units, unit) && RateAccepted(rate)
    requires k in t.rows && t.rows[k].unit == unit && t.rows[k].rate == rate
    ensures CreateCustomUnit(units, t, unit, rate) == Ok(Got(t, t.rows[k]))
  {
    var r := CreateCustomUnit(units, t, unit, rate);
    assert r.value.table == t;
    assert r.value.row.id in t.rows && t.rows[r.value.row.id].unit == unit;
  }

  // ---------------------------------------------------------------- saved collections

  datatype Saved = Saved(id: nat, user: nat, collection: nat)

  /** The saved-collection table: rows by id and the next id to hand out. */
  datatype SavedTable = SavedTable(rows: map<nat, Saved>, nextId: nat)

  /** Rows sit under their own id below the counter, and no pair is saved twice. */
  predicate SavedWellFormed(s: SavedTable) {
    (forall k :: k in s.rows ==> k < s.nextId && s.rows[k].id == k)
    && (forall a, b :: a in s.rows && b in s.rows ==>
          (s.rows[a].user == s.rows[b].user && s.rows[a].collection == s.rows[b].collection ==> a == b))
  }

  predicate IsSaved(s: SavedTable, user: nat, collection: nat) {
    exists k :: k in s.rows && s.rows[k].user == user && s.rows[k].collection == collection
  }

  /** Unknown references are field errors, reported together; a known pair
      that is already saved fails the serializer's own validation. */
  datatype SaveError = UnknownReference(userRejected: bool, collectionRejected: bool) | AlreadySaved

  datatype Stored = Stored(table: SavedTable, row: Saved)

  function SavesPair(user: nat, collection: nat): Saved -> bool {
    (x: Saved) => x.user == user && x.collection == collection
  }

  /** Saving a collection for a user: `profiles` and `collections` are the ids
      that exist. */
  function SaveCollection(profiles: set<nat>, collections: set<nat>, s: SavedTable, user: nat, collection: nat): (r: Result<Stored, SaveError>)
    requires SavedWellFormed(s)
    ensures r == Err(AlreadySaved) <==> user in profiles && collection in collections && IsSaved(s, user, collection)
    ensures r.Err? && r.error.UnknownReference? <==> user !in profiles || collection !in collections
    ensures r.Err? && r.error.UnknownReference? ==> r.error == UnknownReference(user !in profiles, collection !in collections)
    ensures r.Ok? ==> SavedWellFormed(r.value.table)
    ensures r.Ok? ==> r.value.row == Saved(s.nextId, user, collection)
    ensures r.Ok? ==> r.value.table.rows == s.rows[s.nextId := r.value.row]
  {
    if user !in profiles || collection !in collections then
      Err(UnknownReference(user !in profiles, collection !in collections))
    else
      match FirstKeyFrom(s.rows, SavesPair(user, collection), 0, s.nextId)
      case Some(k) =>
        Err(AlreadySaved)
      case None =>
        assert !IsSaved(s, user, collection) by {
          forall k | k in s.rows
            ensures !(s.rows[k].user == user && s.rows[k].collection == collection)
          {
            assert !SavesPair(user, collection)(s.rows[k]);
          }
        }
        var row := Saved(s.nextId, user, collection);
        Ok(Stored(SavedTable(s.rows[s.nextId := row], s.nextId + 1), row))
  }

  /** Saving the same pair a second time is refused. */
  lemma SaveTwiceRejected(profiles: set<nat>, collections: set<nat>, s: SavedTable, user: nat, collection: nat)
    requires SavedWellFormed(s)
    requires SaveCollection(profiles, collections, s, user, collection).Ok?
    ensures var first := SaveCollection(profiles, collections, s, user, collection).value;
            SaveCollection(profiles, collections, first.table, user, collection) == Err(AlreadySaved)
  {
    var first := SaveCollection(profiles, collections, s, user, collection).value;
    assert first.table.rows[s.nextId] == first.row;
  }
}
