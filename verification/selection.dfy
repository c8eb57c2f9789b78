/** The recipe editor's list of selected products: adding a product (merge
    into an entry with the same product and unit, or append), deleting by key,
    editing (replace, or merge into another entry), the keys given to a loaded
    recipe's entries, and the products payload sent to the backend. */
module Selection {
  import opened Base
  import RecipeStore

  /** `uniqueKey`, the string `${counter}-${productId}`. Both parts are digit
      strings joined by a dash, so equal strings mean equal pairs. */
  datatype Key = Key(counter: nat, product: nat)

  /** A chosen custom unit as the list holds it: its id and its rate in hundredths. */
  datatype CustomRef = CustomRef(id: nat, rate: int)

  /** One selected product; the quantity is in hundredths. */
  datatype Entry = Entry(key: Key, product: nat, unit: nat, customUnit: Option<CustomRef>, quantity: int)

  /** What the add dialog hands over: an entry that has no key yet. */
  datatype Pick = Pick(product: nat, unit: nat, customUnit: Option<CustomRef>, quantity: int)

  /** The editor state: the list and `totalProducts`, the counter new keys are drawn from. */
  datatype Form = Form(entries: seq<Entry>, total: nat)

  /** A change, or an error message shown while the list stays as it was. */
  datatype Outcome = Changed(form: Form) | Refused(message: string)

  /** The state after an outcome. */
  function After(f: Form, o: Outcome): Form {
    if o.Changed? then o.form else f
  }

  const AddRefusal: string := "Cannot set custom unit to a product with an existing custom unit!"
  const EditRefusal: string := "Invalid edit!"

  function SamePair(product: nat, unit: nat): Entry -> bool {
    (e: Entry) => e.product == product && e.unit == unit
  }

  function NotKey(key: Key): Entry -> bool {
    (e: Entry) => e.key != key
  }

  /** JavaScript's `findIndex`: the first position whose entry satisfies `p`. */
  function FindIndex(s: seq<Entry>, p: Entry -> bool): (r: Option<nat>)
    ensures r.Some? ==> r.value < |s| && p(s[r.value]) && forall j :: 0 <= j < r.value ==> !p(s[j])
    ensures r.None? ==> forall j :: 0 <= j < |s| ==> !p(s[j])
  {
    if |s| == 0 then None
    else if p(s[0]) then Some(0)
    else match FindIndex(s[1..], p)
      case None => None
      case Some(j) => Some(j + 1)
  }

  // ---------------------------------------------------------------- keys

  predicate UniqueKeys(s: seq<Entry>) {
    forall i, j :: 0 <= i < |s| && 0 <= j < |s| && i != j ==> s[i].key != s[j].key
  }

  /** Every key was drawn from the counter at or below its current value. */
  predicate KeysDrawn(f: Form) {
    forall i :: 0 <= i < |f.entries| ==> f.entries[i].key.counter <= f.total
  }

  /** The invariant the keys are meant to keep. */
  predicate KeysSound(f: Form) {
    UniqueKeys(f.entries) && KeysDrawn(f)
  }

  /** No two entries share a product and unit. */
  predicate UniquePairs(s: seq<Entry>) {
    forall i, j :: 0 <= i < |s| && 0 <= j < |s| && i != j ==>
      !(s[i].product == s[j].product && s[i].unit == s[j].unit)
  }

  // ---------------------------------------------------------------- add

  /** How an added pick is checked against the entry with its product and unit. */
  datatype MergeRule = SelfComparison | RateComparison

  /** Whether the pick may be added onto the existing entry: both without a
      custom unit, or both with one and an equal-rate test. The editor as
      written compares the pick's rate with itself; the comparison it means
      is against the existing entry's rate. */
  predicate AddCompatible(rule: MergeRule, incoming: Option<CustomRef>, existing: Option<CustomRef>) {
    match rule
    case SelfComparison =>
      (incoming.Some? && existing.Some? && incoming.value.rate == incoming.value.rate)
      || (incoming.None? && existing.None?)
    case RateComparison =>
      (incoming.Some? && existing.Some? && incoming.value.rate == existing.value.rate)
      || (incoming.None? && existing.None?)
  }

  function AddUsing(rule: MergeRule, f: Form, pick: Pick): (o: Outcome)
    ensures o.Changed? ==> |o.form.entries| >= |f.entries|
  {
    match FindIndex(f.entries, SamePair(pick.product, pick.unit))
    case None =>
      var e := Entry(Key(f.total + 1, pick.product), pick.product, pick.unit, pick.customUnit, pick.quantity);
      Changed(Form(f.entries + [e], f.total + 1))
    case Some(i) =>
      if !AddCompatible(rule, pick.customUnit, f.entries[i].customUnit) then
        Refused(AddRefusal)
      else
        var merged := f.entries[i].(quantity := f.entries[i].quantity + pick.quantity);
        Changed(f.(entries := f.entries[i := merged]))
  }

  /** `handleSelectedProducts` as written. */
  function AddAsWritten(f: Form, pick: Pick): Outcome {
    AddUsing(SelfComparison, f, pick)
  }

  /** `handleSelectedProducts` with the rate compared against the existing entry. */
  function Add(f: Form, pick: Pick): Outcome {
    AddUsing(RateComparison, f, pick)
  }

  /** A pick whose product and unit are not in the list is appended under a
      fresh key, and every earlier entry stays where it was. */
  lemma AddAppendsNewPair(rule: MergeRule, f: Form, pick: Pick)
    requires forall i :: 0 <= i < |f.entries| ==> !(f.entries[i].product == pick.product && f.entries[i].unit == pick.unit)
    ensures var o := AddUsing(rule, f, pick);
            o.Changed? && o.form.total == f.total + 1
            && |o.form.entries| == |f.entries| + 1
            && o.form.entries[..|f.entries|] == f.entries
            && o.form.entries[|f.entries|] == Entry(Key(f.total + 1, pick.product), pick.product, pick.unit, pick.customUnit, pick.quantity)
  {
    var r := FindIndex(f.entries, SamePair(pick.product, pick.unit));
  }

  /** A pick whose product and unit are at position `i` (the first such) is
      added onto that entry when compatible and refused otherwise; the length,
      the counter and every other entry are unchanged either way. */
  lemma AddMergesExistingPair(rule: MergeRule, f: Form, pick: Pick, i: nat)
    requires i < |f.entries| && f.entries[i].product == pick.product && f.entries[i].unit == pick.unit
    requires forall j :: 0 <= j < i ==> !(f.entries[j].product == pick.product && f.entries[j].unit == pick.unit)
    ensures var o := AddUsing(rule, f, pick);
            (o.Changed? <==> AddCompatible(rule, pick.customUnit, f.entries[i].customUnit))
            && (o.Refused? ==> o.message == AddRefusal && After(f, o) == f)
            && (o.Changed? ==>
                  o.form.total == f.total && |o.form.entries| == |f.entries|
                  && o.form.entries[i].quantity == f.entries[i].quantity + pick.quantity
                  && o.form.entries[i].(quantity := f.entries[i].quantity) == f.entries[i]
                  && forall j :: 0 <= j < |f.entries| && j != i ==> o.form.entries[j] == f.entries[j])
  {
    var r := FindIndex(f.entries, SamePair(pick.product, pick.unit));
    assert SamePair(pick.product, pick.unit)(f.entries[i]);
  }

  /** As written, a pick meeting an entry with the same product and unit is
      refused exactly when one of the two has a custom unit and the other has
      not: any two custom units are added together, whatever their rates. */
  lemma AddAsWrittenRefusesOnlyMixed(incoming: Option<CustomRef>, existing: Option<CustomRef>)
    ensures !AddCompatible(SelfComparison, incoming, existing) <==> incoming.Some? != existing.Some?
  {
  }

  /** With the intended comparison, two custom units are added together
      exactly when their rates agree. */
  lemma AddRefusesDifferentRates(incoming: CustomRef, existing: CustomRef)
    ensures AddCompatible(RateComparison, Some(incoming), Some(existing)) <==> incoming.rate == existing.rate
  {
  }

  /** The self-comparison in action: an entry of 1.00 in a custom unit of rate
      0.50 and a pick of 1.00 in a custom unit of rate 2.00 are added into one
      entry of 2.00 at rate 0.50, though the pick alone weighed four times as
      much as the entry; the intended rule refuses the pick. */
  lemma MixedRatesMerged()
    ensures var f := Form([Entry(Key(1, 7), 7, 3, Some(CustomRef(10, 50)), 100)], 1);
            var pick := Pick(7, 3, Some(CustomRef(11, 200)), 100);
            AddAsWritten(f, pick) == Changed(Form([Entry(Key(1, 7), 7, 3, Some(CustomRef(10, 50)), 200)], 1))
            && Add(f, pick) == Refused(AddRefusal)
  {
    var f := Form([Entry(Key(1, 7), 7, 3, Some(CustomRef(10, 50)), 100)], 1);
    var pick := Pick(7, 3, Some(CustomRef(11, 200)), 100);
    assert FindIndex(f.entries, SamePair(7, 3)) == Some(0);
  }

  /** Adding keeps keys unique and drawn from the counter: a new key takes
      the incremented counter, above every key in use. */
  lemma AddKeepsKeysSound(rule: MergeRule, f: Form, pick: Pick)
    requires KeysSound(f)
    ensures KeysSound(After(f, AddUsing(rule, f, pick)))
  {
    var o := AddUsing(rule, f, pick);
    var r := FindIndex(f.entries, SamePair(pick.product, pick.unit));
    if r.Some? && o.Changed? {
      var s := o.form.entries;
      forall i, j | 0 <= i < |s| && 0 <= j < |s| && i != j
        ensures s[i].key != s[j].key
      {
        assert s[i].key == f.entries[i].key && s[j].key == f.entries[j].key;
      }
    }
  }

  /** Adding keeps product-unit pairs unique: a pick either lands on the entry
      that already has its pair or is appended because none has. */
  lemma AddKeepsPairsUnique(rule: MergeRule, f: Form, pick: Pick)
    requires UniquePairs(f.entries)
    ensures UniquePairs(After(f, AddUsing(rule, f, pick)).entries)
  {
    var o := AddUsing(rule, f, pick);
    var r := FindIndex(f.entries, SamePair(pick.product, pick.unit));
    if o.Changed? {
      var s := o.form.entries;
      forall i, j | 0 <= i < |s| && 0 <= j < |s| && i != j
        ensures !(s[i].product == s[j].product && s[i].unit == s[j].unit)
      {
        if r.None? {
          if i == |f.entries| {
            assert !SamePair(pick.product, pick.unit)(f.entries[j]);
          } else if j == |f.entries| {
            assert !SamePair(pick.product, pick.unit)(f.entries[i]);
          }
        }
      }
    }
  }

  // ---------------------------------------------------------------- delete

  /** `handleDeleteProduct`: keeps the entries whose key differs. */
  function Delete(f: Form, key: Key): (g: Form)
    ensures g.total == f.total
    ensures forall e :: e in g.entries <==> e in f.entries && e.key != key
  {
    f.(entries := Filter(f.entries, NotKey(key)))
  }

  /** Deleting keeps the survivors in their order: removing the key from a
      list split anywhere is removing it from both halves. */
  lemma DeleteKeepsOrder(a: seq<Entry>, b: seq<Entry>, key: Key, total: nat)
    ensures Delete(Form(a + b, total), key).entries
         == Delete(Form(a, total), key).entries + Delete(Form(b, total), key).entries
  {
    FilterConcat(a, b, NotKey(key));
  }

  /** Removing a key that is not in use leaves the list as it is. */
  lemma DeleteAbsentKey(f: Form, key: Key)
    requires forall i :: 0 <= i < |f.entries| ==> f.entries[i].key != key
    ensures Delete(f, key) == f
  {
    FilterAllKept(f.entries, NotKey(key));
  }

  /** With unique keys, deleting the key of entry `i` removes exactly that
      entry. */
  lemma DeleteRemovesOne(f: Form, i: nat)
    requires UniqueKeys(f.entries) && i < |f.entries|
    ensures Delete(f, f.entries[i].key).entries == f.entries[..i] + f.entries[i + 1..]
  {
    FilterRemovesOnly(f.entries, i, f.entries[i].key);
  }

  lemma {:induction false} FilterRemovesOnly(s: seq<Entry>, i: nat, key: Key)
    requires i < |s| && s[i].key == key
    requires forall j :: 0 <= j < |s| && j != i ==> s[j].key != key
    ensures Filter(s, NotKey(key)) == s[..i] + s[i + 1..]
  {
    if i == 0 {
      FilterDropsHead(s, key);
    } else {
      var t := s[1..];
      forall j | 0 <= j < |t| && j != i - 1
        ensures t[j].key != key
      {
        assert t[j] == s[j + 1];
      }
      FilterRemovesOnly(t, i - 1, key);
      assert Filter(s, NotKey(key)) == [s[0]] + Filter(t, NotKey(key));
      assert s[..i] == [s[0]] + t[..i - 1];
      assert s[i + 1..] == t[i..];
    }
  }

  lemma FilterDropsHead(s: seq<Entry>, key: Key)
    requires |s| > 0 && s[0].key == key
    requires forall j :: 0 < j < |s| ==> s[j].key != key
    ensures Filter(s, NotKey(key)) == s[1..]
  {
    FilterAllKept(s[1..], NotKey(key));
  }

  // ---------------------------------------------------------------- edit

  /** Whether an edit may fold into another entry with the same product and
      unit: both without a custom unit, or both with the same custom unit id. */
  predicate EditCompatible(incoming: Option<CustomRef>, existing: Option<CustomRef>) {
    (incoming.Some? && existing.Some? && incoming.value.id == existing.value.id)
    || (incoming.None? && existing.None?)
  }

  /** Every entry carrying `key` becomes `edited`; the rest are left alone. */
  function ReplaceKeyed(s: seq<Entry>, key: Key, edited: Entry): (r: seq<Entry>)
    ensures |r| == |s|
    ensures forall i :: 0 <= i < |s| ==> r[i] == (if s[i].key == key then edited else s[i])
  {
    if |s| == 0 then []
    else [if s[0].key == key then edited else s[0]] + ReplaceKeyed(s[1..], key, edited)
  }

  /** Entry `k` with `extra` added to its quantity. The editor adds the two
      quantities as JavaScript doubles; here they are added exactly, in
      hundredths. */
  function Grow(s: seq<Entry>, k: nat, extra: int): (r: seq<Entry>)
    requires k < |s|
    ensures |r| == |s| && r[k].quantity == s[k].quantity + extra
    ensures forall j :: 0 <= j < |s| ==> r[j].key == s[j].key
    ensures forall j :: 0 <= j < |s| && j != k ==> r[j] == s[j]
  {
    s[k := s[k].(quantity := s[k].quantity + extra)]
  }

  /** `handleEditProduct(data, quantity, unit, customUnit)`: `data` is the
      entry being edited. */
  function Edit(f: Form, data: Entry, quantity: int, unit: nat, customUnit: Option<CustomRef>): (o: Outcome)
    ensures o.Changed? ==> o.form.total == f.total
  {
    var found := FindIndex(f.entries, SamePair(data.product, unit));
    if found.Some? && f.entries[found.value].key != data.key then
      var i := found.value;
      if !EditCompatible(customUnit, f.entries[i].customUnit) then
        Refused(EditRefusal)
      else
        Changed(f.(entries := Filter(Grow(f.entries, i, quantity), NotKey(data.key))))
    else
      Changed(f.(entries := ReplaceKeyed(f.entries, data.key, Entry(data.key, data.product, unit, customUnit, quantity))))
  }

  /** Two lists with the same keys position by position are equally sound. */
  lemma SameKeysSound(a: seq<Entry>, b: seq<Entry>, total: nat)
    requires |a| == |b| && forall j :: 0 <= j < |a| ==> a[j].key == b[j].key
    requires KeysSound(Form(a, total))
    ensures KeysSound(Form(b, total))
  {
    forall x, y | 0 <= x < |b| && 0 <= y < |b| && x != y
      ensures b[x].key != b[y].key
    {
      assert a[x].key != a[y].key;
    }
    forall x | 0 <= x < |b|
      ensures b[x].key.counter <= total
    {
      assert a[x].key == b[x].key;
    }
  }

  /** The first entry with `product` and `unit` is entry `k`. */
  lemma FirstPairAt(s: seq<Entry>, product: nat, unit: nat, k: nat)
    requires k < |s| && s[k].product == product && s[k].unit == unit
    requires forall j :: 0 <= j < k ==> !(s[j].product == product && s[j].unit == unit)
    ensures FindIndex(s, SamePair(product, unit)) == Some(k)
  {
    var r := FindIndex(s, SamePair(product, unit));
    assert SamePair(product, unit)(s[k]);
  }

  /** When no entry other than the edited one has the new product and unit,
      the edit rewrites the edited entry's unit, custom unit and quantity and
      leaves every other entry, and the order, as it was. */
  lemma EditReplacesInPlace(f: Form, i: nat, quantity: int, unit: nat, customUnit: Option<CustomRef>)
    requires UniqueKeys(f.entries) && i < |f.entries|
    requires forall j :: 0 <= j < |f.entries| && j != i ==>
               !(f.entries[j].product == f.entries[i].product && f.entries[j].unit == unit)
    ensures var d := f.entries[i];
            Edit(f, d, quantity, unit, customUnit)
              == Changed(f.(entries := f.entries[i := d.(unit := unit, customUnit := customUnit, quantity := quantity)]))
  {
    var d := f.entries[i];
    var found := FindIndex(f.entries, SamePair(d.product, unit));
    var r := ReplaceKeyed(f.entries, d.key, Entry(d.key, d.product, unit, customUnit, quantity));
    assert r == f.entries[i := d.(unit := unit, customUnit := customUnit, quantity := quantity)];
  }

  /** The edit when the first entry with the new pair is entry `k`, which is
      not the edited one: merge into it or refuse. */
  lemma EditFoundOther(f: Form, data: Entry, k: nat, quantity: int, unit: nat, customUnit: Option<CustomRef>)
    requires k < |f.entries| && FindIndex(f.entries, SamePair(data.product, unit)) == Some(k)
    requires f.entries[k].key != data.key
    ensures Edit(f, data, quantity, unit, customUnit)
         == if EditCompatible(customUnit, f.entries[k].customUnit)
            then Changed(f.(entries := Filter(Grow(f.entries, k, quantity), NotKey(data.key))))
            else Refused(EditRefusal)
  {
  }

  /** Editing entry `i` into the product and unit of entry `k` (the first
      such): with compatible custom units, entry `k` grows by the edited
      quantity and entry `i` disappears; otherwise the edit is refused and the
      list stays as it was. */
  lemma EditMergesIntoOther(f: Form, i: nat, k: nat, quantity: int, unit: nat, customUnit: Option<CustomRef>)
    requires UniqueKeys(f.entries) && i < |f.entries| && k < |f.entries| && i != k
    requires f.entries[k].product == f.entries[i].product && f.entries[k].unit == unit
    requires forall j :: 0 <= j < k ==> !(f.entries[j].product == f.entries[i].product && f.entries[j].unit == unit)
    ensures var o := Edit(f, f.entries[i], quantity, unit, customUnit);
            var grown := Grow(f.entries, k, quantity);
            (o.Changed? <==> EditCompatible(customUnit, f.entries[k].customUnit))
            && (o.Refused? ==> o.message == EditRefusal && After(f, o) == f)
            && (o.Changed? ==> o.form.entries == grown[..i] + grown[i + 1..])
  {
    var d := f.entries[i];
    FirstPairAt(f.entries, d.product, unit, k);
    EditFoundOther(f, d, k, quantity, unit, customUnit);
    if EditCompatible(customUnit, f.entries[k].customUnit) {
      var grown := Grow(f.entries, k, quantity);
      FilterRemovesOnly(grown, i, d.key);
    }
  }

  /** Editing keeps keys unique and drawn from the counter. */
  lemma EditKeepsKeysSound(f: Form, data: Entry, quantity: int, unit: nat, customUnit: Option<CustomRef>)
    requires KeysSound(f)
    ensures KeysSound(After(f, Edit(f, data, quantity, unit, customUnit)))
  {
    var found := FindIndex(f.entries, SamePair(data.product, unit));
    if found.Some? && f.entries[found.value].key != data.key {
      var i := found.value;
      EditFoundOther(f, data, i, quantity, unit, customUnit);
      if EditCompatible(customUnit, f.entries[i].customUnit) {
        var grown := Grow(f.entries, i, quantity);
        SameKeysSound(f.entries, grown, f.total);
        SubsequenceKeepsKeysSound(grown, Filter(grown, NotKey(data.key)), f.total, data.key);
      }
    } else {
      var edited := Entry(data.key, data.product, unit, customUnit, quantity);
      SameKeysSound(f.entries, ReplaceKeyed(f.entries, data.key, edited), f.total);
    }
  }

  /** Filtering a list with sound keys keeps them sound. */
  lemma {:induction false} SubsequenceKeepsKeysSound(s: seq<Entry>, r: seq<Entry>, total: nat, key: Key)
    requires KeysSound(Form(s, total))
    requires r == Filter(s, NotKey(key))
    ensures KeysSound(Form(r, total))
    decreases |s|
  {
    if |s| > 0 {
      var rest := Filter(s[1..], NotKey(key));
      assert KeysSound(Form(s[1..], total)) by {
        forall a, b | 0 <= a < |s[1..]| && 0 <= b < |s[1..]| && a != b
          ensures s[1..][a].key != s[1..][b].key
        {
          assert s[1..][a] == s[a + 1] && s[1..][b] == s[b + 1];
        }
        forall a | 0 <= a < |s[1..]|
          ensures s[1..][a].key.counter <= total
        {
          assert s[1..][a] == s[a + 1];
        }
      }
      SubsequenceKeepsKeysSound(s[1..], rest, total, key);
      if s[0].key != key {
        assert r == [s[0]] + rest;
        forall b | 0 <= b < |rest|
          ensures rest[b].key != s[0].key
        {
          assert rest[b] in s[1..];
          var c :| 0 <= c < |s[1..]| && s[1..][c] == rest[b];
          assert s[c + 1] == rest[b];
        }
      }
    }
  }

  // ---------------------------------------------------------------- loading a recipe

  /** The list a saved recipe is loaded into, keys as the editor assigns
      them: every entry gets `${totalProducts}-${productId}` with the counter
      at the number of loaded products. */
  function LoadAsWritten(items: seq<Pick>): (f: Form)
    ensures |f.entries| == |items| && f.total == |items|
    ensures forall i :: 0 <= i < |items| ==> f.entries[i].key == Key(|items|, items[i].product)
  {
    Form(Keyed(items, (i: nat) => |items|), |items|)
  }

  /** The list a saved recipe is loaded into, each entry keyed by its
      position, below the counter later additions draw from. */
  function Load(items: seq<Pick>): (f: Form)
    ensures |f.entries| == |items| && f.total == |items|
    ensures forall i :: 0 <= i < |items| ==> f.entries[i].key == Key(i, items[i].product)
  {
    Form(Keyed(items, (i: nat) => i), |items|)
  }

  /** Entry `i` carries pick `i` under key `Key(counter(i), product)`. */
  function Keyed(items: seq<Pick>, counter: nat -> nat): (s: seq<Entry>)
    ensures |s| == |items|
    ensures forall i :: 0 <= i < |items| ==>
              s[i] == Entry(Key(counter(i), items[i].product), items[i].product, items[i].unit, items[i].customUnit, items[i].quantity)
  {
    seq(|items|, (i: int) requires 0 <= i < |items| =>
      Entry(Key(counter(i), items[i].product), items[i].product, items[i].unit, items[i].customUnit, items[i].quantity))
  }

  /** Positional keys are sound, and every loaded pick is in the list. */
  lemma LoadKeysSound(items: seq<Pick>)
    ensures KeysSound(Load(items))
  {
  }

  /** As written, a recipe with two lines of the same product (say the same
      product in two units) loads with one key for both, and deleting either
      one deletes both; positional keys delete only the one. */
  lemma LoadedDuplicatesDeletedTogether()
    ensures var items := [Pick(7, 1, None, 100), Pick(7, 2, None, 50)];
            var f := LoadAsWritten(items);
            !UniqueKeys(f.entries) && Delete(f, f.entries[0].key).entries == []
            && |Delete(Load(items), Load(items).entries[0].key).entries| == 1
  {
    var items := [Pick(7, 1, None, 100), Pick(7, 2, None, 50)];
    var f := LoadAsWritten(items);
    assert f.entries[0].key == f.entries[1].key;
    DeleteRemovesOne(Load(items), 0);
  }

  // ---------------------------------------------------------------- payload

  /** `custom_unit?.id || null`: a missing custom unit, and the falsy id 0, become null. */
  function CustomId(c: Option<CustomRef>): (r: Option<nat>)
    ensures r.Some? <==> c.Some? && c.value.id != 0
    ensures r.Some? ==> r.value == c.value.id
  {
    if c.Some? && c.value.id != 0 then Some(c.value.id) else None
  }

  /** The `products` payload: one request per entry, in order. */
  function Payload(entries: seq<Entry>): (r: seq<RecipeStore.LineRequest>)
    ensures |r| == |entries|
  {
    seq(|entries|, (i: int) requires 0 <= i < |entries| =>
      RecipeStore.LineRequest(entries[i].product, entries[i].unit, CustomId(entries[i].customUnit), entries[i].quantity))
  }

  /** Each request carries its entry's product, unit and quantity, and its
      custom unit when the entry has one with a nonzero id (database ids
      start at 1, so every stored custom unit is sent). */
  lemma PayloadCarriesEntries(entries: seq<Entry>, i: nat)
    requires i < |entries|
    ensures var r := Payload(entries)[i];
            r.product == entries[i].product && r.unit == entries[i].unit && r.quantity == entries[i].quantity
            && (entries[i].customUnit.Some? && entries[i].customUnit.value.id >= 1 ==>
                  r.customUnit == Some(entries[i].customUnit.value.id))
            && (entries[i].customUnit.None? ==> r.customUnit.None?)
  {
  }

  /** The payload follows the list's order: deleting an entry deletes its
      request and keeps the others' order. */
  lemma PayloadOfDelete(f: Form, i: nat)
    requires UniqueKeys(f.entries) && i < |f.entries|
    ensures Payload(Delete(f, f.entries[i].key).entries) == Payload(f.entries)[..i] + Payload(f.entries)[i + 1..]
  {
    DeleteRemovesOne(f, i);
  }
}
