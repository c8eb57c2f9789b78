/** The stored entities of the inventory app and the value ranges their
    columns and validators impose. Every decimal is an integer at a fixed scale:
      - a product's calories are whole numbers, its salt is in thousandths and
        its other six nutrients are in hundredths (per 100 g or 100 ml);
      - a line item's eight nutrient columns are in hundredths, except salt,
        whose column keeps thousandths;
      - a unit's conversion rate is in thousandths, a custom unit's in hundredths;
      - a line item's quantity is in hundredths. */
module Catalog {

  /** What a product's nutrient profile is measured per 100 of. */
  datatype Basis = Grams | Millilitres

  datatype Nutrient = Calories | Protein | Carbohydrates | Sugars | Fats | SaturatedFats | Salt | Fibre

  /** The eight nutrient fields shared by products and line items. */
  datatype Nutrients = Nutrients(
    calories: int, protein: int, carbohydrates: int, sugars: int,
    fats: int, saturatedFats: int, salt: int, fibre: int)
  {
    function Get(n: Nutrient): int {
      match n
      case Calories => calories
      case Protein => protein
      case Carbohydrates => carbohydrates
      case Sugars => sugars
      case Fats => fats
      case SaturatedFats => saturatedFats
      case Salt => salt
      case Fibre => fibre
    }
  }

  /** The vector whose every field is `f` of that field. */
  function Tabulate(f: Nutrient -> int): (v: Nutrients)
    ensures forall n :: v.Get(n) == f(n)
  {
    Nutrients(f(Calories), f(Protein), f(Carbohydrates), f(Sugars),
              f(Fats), f(SaturatedFats), f(Salt), f(Fibre))
  }

  /** Two vectors are equal exactly when every field is. */
  lemma NutrientsExt(a: Nutrients, b: Nutrients)
    requires forall n :: a.Get(n) == b.Get(n)
    ensures a == b
  {
    assert a.calories == b.calories by { assert a.Get(Calories) == b.Get(Calories); }
    assert a.protein == b.protein by { assert a.Get(Protein) == b.Get(Protein); }
    assert a.carbohydrates == b.carbohydrates by { assert a.Get(Carbohydrates) == b.Get(Carbohydrates); }
    assert a.sugars == b.sugars by { assert a.Get(Sugars) == b.Get(Sugars); }
    assert a.fats == b.fats by { assert a.Get(Fats) == b.Get(Fats); }
    assert a.saturatedFats == b.saturatedFats by { assert a.Get(SaturatedFats) == b.Get(SaturatedFats); }
    assert a.salt == b.salt by { assert a.Get(Salt) == b.Get(Salt); }
    assert a.fibre == b.fibre by { assert a.Get(Fibre) == b.Get(Fibre); }
  }

  /** Units per 1 of a product field: calories are a SmallIntegerField, salt
      has 3 decimal places, the others 2. */
  function ProductScale(n: Nutrient): nat {
    match n
    case Calories => 1
    case Salt => 1000
    case _ => 100
  }

  /** The largest value each product field's MaxValueValidator lets through,
      at that field's scale. The fats limits are the float literal 111.11,
      which lies just below the decimal 111.11; a Decimal is compared with a
      float exactly, so 111.11 itself is refused and 111.10 is the largest
      accepted value. */
  function ProductMax(n: Nutrient): nat {
    match n
    case Calories => 1000
    case Protein | Carbohydrates | Sugars => 25_000
    case Fats | SaturatedFats => 11_110
    case Salt => 100_000
    case Fibre => 5_000
  }

  /** The largest value each product column holds: `max_digits` 5 (4 for
      fibre) at the field's decimal places; calories is a 16-bit integer. */
  function ProductColumnMax(n: Nutrient): nat {
    match n
    case Calories => 32_767
    case Fibre => 9_999
    case _ => 99_999
  }

  /** Every product field passes its MinValueValidator(0), its
      MaxValueValidator and the digit limit of its column. */
  predicate ValidProductNutrients(p: Nutrients) {
    forall n :: 0 <= p.Get(n) <= ProductMax(n) && p.Get(n) <= ProductColumnMax(n)
  }

  /** Units per 1 of a line-item column: 2 decimal places, salt 3. */
  function LineScale(n: Nutrient): nat {
    if n == Salt then 1000 else 100
  }

  /** A `DecimalField(max_digits=6, ...)` holds at most six digits, so at its
      own scale its magnitude is at most 999999 (9999.99, or 999.999 for salt). */
  const ColumnMax: int := 999_999

  predicate FitsColumn(v: int) {
    -ColumnMax <= v <= ColumnMax
  }

  /** Every line-item nutrient column can hold its value. */
  predicate FitsLineColumns(v: Nutrients) {
    forall n :: FitsColumn(v.Get(n))
  }

  /** Line-item quantity validators, the float literals 0.01 and 1000.01. The
      float 0.01 lies just above the decimal 0.01 and the float 1000.01 just
      below the decimal 1000.01, and a Decimal is compared with a float
      exactly, so the accepted quantities run from 0.02 to 1000.00. */
  predicate ValidQuantity(q: int) {
    2 <= q <= 100_000
  }

  datatype Product = Product(id: nat, name: string, brand: string, per: Basis, nutrients: Nutrients)

  datatype Unit = Unit(id: nat, name: string, abbreviation: string, base: Basis, rate: int, customizable: bool)

  /** `convert_to_base_rate`: at least 0.001, at most 7 digits with 3 decimals. */
  predicate ValidUnit(u: Unit) {
    1 <= u.rate <= 9_999_999
  }

  datatype CustomUnit = CustomUnit(id: nat, unit: nat, rate: int)

  /** `custom_convert_to_base_rate`: at most 6 digits with 2 decimals, and
      above the float literal 0.01, which lies just above the decimal 0.01, so
      the smallest rate accepted is 0.02. */
  predicate ValidCustomUnit(c: CustomUnit) {
    2 <= c.rate <= 999_999
  }

  /** The recipe fields this model follows; the slug is derived from the name. */
  datatype RecipeInfo = RecipeInfo(name: string, slug: string, portions: int)

  /** The first ensures spells out `ValidProductNutrients` field by field for
      readers; the second is the new fact.
      For every field but salt the MaxValueValidator is the binding bound.
      Salt's column (5 digits, 3 decimals) stops at 99.999, so the validator's
      100 can never be stored. */
  lemma ProductBounds(p: Nutrients)
    requires ValidProductNutrients(p)
    ensures forall n :: n != Salt ==> 0 <= p.Get(n) <= ProductMax(n)
    ensures 0 <= p.salt <= 99_999 < ProductMax(Salt)
  {
    assert p.Get(Salt) <= ProductColumnMax(Salt);
  }
}
