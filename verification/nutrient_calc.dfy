/** The calculation a recipe line item performs when it is saved
    (`RecipeProduct.get_unit_convert_to_base_rate` and `RecipeProduct.save`)
    and the recipe totals computed on every read
    (`Recipe.calculate_total_nutrients`). */
module NutrientCalc {
  import opened Base
  import opened Catalog
  import FixedPoint

  /** The conversion rate a line item uses, in thousandths. A custom unit's
      rate (hundredths) wins over the unit's own rate; nothing checks that the
      custom unit was made for this unit. */
  function ResolveRate(unit: Unit, custom: Option<CustomUnit>): (rate: int)
    ensures ValidUnit(unit) && (custom.Some? ==> ValidCustomUnit(custom.value)) ==> 1 <= rate <= 9_999_999
  {
    match custom
    case Some(c) => 10 * c.rate
    case None => unit.rate
  }

  /** With a custom unit the line's own unit does not matter at all; without
      one, the unit's rate is used unchanged. */
  lemma RatePrecedence(u1: Unit, u2: Unit, c: CustomUnit)
    ensures ResolveRate(u1, Some(c)) == ResolveRate(u2, Some(c)) == 10 * c.rate
    ensures ResolveRate(u1, None) == u1.rate
  {
  }

  /** `quantize_value(rate * quantity / 100)`: the line's quantity in hundreds
      of base units, in hundredths. With the rate in thousandths and the
      quantity in hundredths, `rate * quantity / 100` is `rate * qty / 10^7`,
      which is `rate * qty / 10^5` hundredths. */
  function NormalisedQuantity(rate: int, qty: int): (n: int)
    ensures FixedPoint.IsHalfUp(rate * qty, 100_000, n)
    ensures rate >= 0 && qty >= 0 ==> n >= 0
  {
    assert rate >= 0 && qty >= 0 ==> rate * qty >= 0;
    FixedPoint.RoundHalfUp(rate * qty, 100_000)
  }

  /** How many column units one hundredth is: 10 for the salt column, 1 elsewhere. */
  function LineFactor(n: Nutrient): (f: nat)
    ensures f * 100 == LineScale(n)
  {
    if n == Salt then 10 else 1
  }

  /** One line nutrient: `quantize_value(normalised * product.field)`, i.e.
      rounded half-up to 0.01 for every field (salt included), then stored at
      the scale of its column. */
  function LineValue(norm: int, p: Nutrients, n: Nutrient): int {
    FixedPoint.RoundHalfUp(norm * p.Get(n), ProductScale(n)) * LineFactor(n)
  }

  /** A line value is the half-up rounding to 0.01 of its exact product,
      scaled up to its column. */
  lemma LineValueRounds(norm: int, p: Nutrients, n: Nutrient)
    ensures LineValue(norm, p, n) % LineFactor(n) == 0
    ensures FixedPoint.IsHalfUp(norm * p.Get(n), ProductScale(n), LineValue(norm, p, n) / LineFactor(n))
  {
    var r := FixedPoint.RoundHalfUp(norm * p.Get(n), ProductScale(n));
    if n == Salt {
      assert LineValue(norm, p, n) == r * 10;
    } else {
      assert LineValue(norm, p, n) == r;
    }
  }

  /** The eight nutrient values a saved line item holds, from the product's
      per-100 profile, the resolved rate and the quantity. Each field is the
      half-up rounding to 0.01 of the rounded normalised quantity times the
      product field; salt is rounded to 0.01 as well, so its 3-decimal column
      always ends in 0. */
  function ComputeLine(p: Nutrients, rate: int, qty: int): (v: Nutrients)
    ensures v.salt % 10 == 0
  {
    var norm := NormalisedQuantity(rate, qty);
    LineValueRounds(norm, p, Salt);
    Nutrients(LineValue(norm, p, Calories), LineValue(norm, p, Protein),
              LineValue(norm, p, Carbohydrates), LineValue(norm, p, Sugars),
              LineValue(norm, p, Fats), LineValue(norm, p, SaturatedFats),
              LineValue(norm, p, Salt), LineValue(norm, p, Fibre))
  }

  lemma ComputeLineField(p: Nutrients, rate: int, qty: int, n: Nutrient)
    ensures ComputeLine(p, rate, qty).Get(n) == LineValue(NormalisedQuantity(rate, qty), p, n)
  {
  }

  /** The rounding law of a saved line: every field, read at 0.01, is the
      half-up rounding of (rounded normalised quantity) x (product field), and
      so sits on the 0.01 grid of its column. */
  lemma LineRoundingLaw(p: Nutrients, rate: int, qty: int)
    ensures forall n :: ComputeLine(p, rate, qty).Get(n) % LineFactor(n) == 0
    ensures forall n :: FixedPoint.IsHalfUp(NormalisedQuantity(rate, qty) * p.Get(n), ProductScale(n),
                                            ComputeLine(p, rate, qty).Get(n) / LineFactor(n))
  {
    var norm := NormalisedQuantity(rate, qty);
    forall n
      ensures ComputeLine(p, rate, qty).Get(n) % LineFactor(n) == 0
      ensures FixedPoint.IsHalfUp(norm * p.Get(n), ProductScale(n), ComputeLine(p, rate, qty).Get(n) / LineFactor(n))
    {
      ComputeLineField(p, rate, qty, n);
      LineValueRounds(norm, p, n);
    }
  }

  /** Line values are non-negative whenever the rate, the quantity and the
      product's nutrients are, as the validators on all three guarantee. */
  lemma LineNonNegative(p: Nutrients, rate: int, qty: int)
    requires ValidProductNutrients(p)
    requires rate >= 0 && qty >= 0
    ensures forall n :: ComputeLine(p, rate, qty).Get(n) >= 0
  {
    var norm := NormalisedQuantity(rate, qty);
    forall n
      ensures ComputeLine(p, rate, qty).Get(n) >= 0
    {
      ComputeLineField(p, rate, qty, n);
      LineValueNonNegative(norm, p, n);
    }
  }

  lemma LineValueNonNegative(norm: int, p: Nutrients, n: Nutrient)
    requires norm >= 0 && p.Get(n) >= 0
    ensures LineValue(norm, p, n) >= 0
  {
    FixedPoint.MulMonotone(0, norm, p.Get(n));
  }

  /** More of a product never yields less of any nutrient. */
  lemma LineMonotoneInQuantity(p: Nutrients, rate: int, q1: int, q2: int)
    requires ValidProductNutrients(p)
    requires rate >= 0 && 0 <= q1 <= q2
    ensures forall n :: ComputeLine(p, rate, q1).Get(n) <= ComputeLine(p, rate, q2).Get(n)
  {
    var n1 := NormalisedQuantity(rate, q1);
    var n2 := NormalisedQuantity(rate, q2);
    FixedPoint.MulMonotone(q1, q2, rate);
    FixedPoint.RoundMonotone(rate * q1, rate * q2, 100_000);
    forall n
      ensures ComputeLine(p, rate, q1).Get(n) <= ComputeLine(p, rate, q2).Get(n)
    {
      ComputeLineField(p, rate, q1, n);
      ComputeLineField(p, rate, q2, n);
      FixedPoint.MulMonotone(n1, n2, p.Get(n));
      FixedPoint.RoundMonotone(n1 * p.Get(n), n2 * p.Get(n), ProductScale(n));
    }
  }

  /** Up to 9.99 hundreds of base units (a normalised quantity of at most
      999 hundredths) no product the validators admit overflows a line column. */
  lemma SmallLinesFit(p: Nutrients, rate: int, qty: int)
    requires ValidProductNutrients(p)
    requires 0 <= NormalisedQuantity(rate, qty) <= 999
    ensures FitsLineColumns(ComputeLine(p, rate, qty))
  {
    var norm := NormalisedQuantity(rate, qty);
    forall n
      ensures FitsColumn(ComputeLine(p, rate, qty).Get(n))
    {
      ComputeLineField(p, rate, qty, n);
      SmallLineFieldFits(norm, p, n);
    }
  }

  lemma SmallLineFieldFits(norm: int, p: Nutrients, n: Nutrient)
    requires 0 <= norm <= 999
    requires 0 <= p.Get(n) <= ProductMax(n)
    ensures FitsColumn(LineValue(norm, p, n))
  {
    var x := norm * p.Get(n);
    var top := 999 * ProductMax(n);
    assert 0 <= x <= top by {
      FixedPoint.MulMonotone(norm, 999, p.Get(n));
      FixedPoint.MulMonotone(p.Get(n), ProductMax(n), 999);
      FixedPoint.MulMonotone(0, norm, p.Get(n));
    }
    FixedPoint.RoundMonotone(x, top, ProductScale(n));
    FixedPoint.RoundMonotone(0, x, ProductScale(n));
    LargestSmallLineFits(n);
  }

  /** The largest value a 9.99 normalised quantity can give for each field
      still fits its column. */
  lemma LargestSmallLineFits(n: Nutrient)
    ensures FixedPoint.RoundHalfUp(999 * ProductMax(n), ProductScale(n)) * LineFactor(n) <= ColumnMax
  {
    match n
    case Calories => assert FixedPoint.RoundHalfUp(999_000, 1) == 999_000;
    case Protein => assert FixedPoint.RoundHalfUp(24_975_000, 100) == 249_750;
    case Carbohydrates => assert FixedPoint.RoundHalfUp(24_975_000, 100) == 249_750;
    case Sugars => assert FixedPoint.RoundHalfUp(24_975_000, 100) == 249_750;
    case Fats => assert FixedPoint.RoundHalfUp(11_098_890, 100) == 110_989;
    case SaturatedFats => assert FixedPoint.RoundHalfUp(11_098_890, 100) == 110_989;
    case Salt => assert FixedPoint.RoundHalfUp(99_900_000, 1000) == 99_900;
    case Fibre => assert FixedPoint.RoundHalfUp(4_995_000, 100) == 49_950;
  }

  /** The validators do not keep a line inside its columns: 1000.00 g, the
      largest quantity they accept, of a 1000 kcal product gives 10000.00 kcal,
      one digit too many. This is the overflow the recipe serializers turn
      into a user-facing error. */
  lemma OverflowPassesValidators(p: Nutrients, g: Unit, qty: int)
    requires ValidProductNutrients(p) && p.calories == 1000
    requires g.rate == 1000 && qty == 100_000
    ensures ValidUnit(g) && ValidQuantity(qty)
    ensures ComputeLine(p, ResolveRate(g, None), qty).calories == 1_000_000
    ensures !FitsLineColumns(ComputeLine(p, ResolveRate(g, None), qty))
  {
    assert NormalisedQuantity(1000, qty) == 1000;
    assert ComputeLine(p, 1000, qty).Get(Calories) == 1_000_000;
  }

  /** 150 g of a 200 kcal product at rate 1.000: normalised 1.50, 300.00 kcal. */
  lemma ExampleGrams(p: Nutrients, rate: int, qty: int)
    requires p.calories == 200 && rate == 1000 && qty == 15_000
    ensures NormalisedQuantity(rate, qty) == 150
    ensures ComputeLine(p, rate, qty).calories == 30_000
  {
    assert NormalisedQuantity(rate, qty) == 150;
  }

  /** Quantity 33 with a custom rate 0.50 on a unit of rate 1.000: 0.165
      rounds half-up to 0.17, and 0.17 times 200 kcal is 34.00 kcal. */
  lemma ExampleCustomHalfUp(p: Nutrients, u: Unit, c: CustomUnit, qty: int)
    requires p.calories == 200 && u.rate == 1000 && c.rate == 50 && qty == 3_300
    ensures NormalisedQuantity(ResolveRate(u, Some(c)), qty) == 17
    ensures ComputeLine(p, ResolveRate(u, Some(c)), qty).calories == 3_400
  {
    assert ResolveRate(u, Some(c)) == 500;
    assert NormalisedQuantity(500, qty) == 17;
  }

  /** Salt 2.345 per 100 g at normalised quantity 1.00 is stored as 2.350:
      the value is rounded to 0.01 although its column has three decimals. */
  lemma ExampleSaltRoundedToHundredths(p: Nutrients, rate: int, qty: int)
    requires p.salt == 2_345 && rate == 1000 && qty == 10_000
    ensures NormalisedQuantity(rate, qty) == 100
    ensures ComputeLine(p, rate, qty).salt == 2_350
  {
    assert NormalisedQuantity(rate, qty) == 100;
    assert FixedPoint.RoundHalfUp(234_500, 1000) == 235;
  }

  lemma LineValueOfZero(p: Nutrients, n: Nutrient)
    ensures LineValue(0, p, n) == 0
  {
    assert 0 * p.Get(n) == 0;
    assert FixedPoint.RoundHalfUp(0, ProductScale(n)) == 0;
  }

  /** A zero quantity or a zero rate gives the all-zero vector. */
  lemma ZeroQuantityZeroLine(p: Nutrients, rate: int, qty: int)
    requires rate == 0 || qty == 0
    ensures ComputeLine(p, rate, qty) == Zero()
  {
    assert NormalisedQuantity(rate, qty) == 0 by {
      assert rate * qty == 0;
    }
    forall n
      ensures ComputeLine(p, rate, qty).Get(n) == Zero().Get(n)
    {
      ComputeLineField(p, rate, qty, n);
      LineValueOfZero(p, n);
    }
    NutrientsExt(ComputeLine(p, rate, qty), Zero());
  }

  // ---- recipe totals ----

  function Zero(): (z: Nutrients)
    ensures forall n :: z.Get(n) == 0
  {
    Nutrients(0, 0, 0, 0, 0, 0, 0, 0)
  }

  function Add(a: Nutrients, b: Nutrients): (c: Nutrients)
    ensures forall n :: c.Get(n) == a.Get(n) + b.Get(n)
  {
    Nutrients(a.calories + b.calories, a.protein + b.protein,
              a.carbohydrates + b.carbohydrates, a.sugars + b.sugars,
              a.fats + b.fats, a.saturatedFats + b.saturatedFats,
              a.salt + b.salt, a.fibre + b.fibre)
  }

  /** The plain sum of one field over the line items, head first. */
  function FieldSum(lines: seq<Nutrients>, n: Nutrient): int {
    if |lines| == 0 then 0 else lines[0].Get(n) + FieldSum(lines[1..], n)
  }

  lemma {:induction false} FieldSumConcat(s: seq<Nutrients>, t: seq<Nutrients>, n: Nutrient)
    ensures FieldSum(s + t, n) == FieldSum(s, n) + FieldSum(t, n)
  {
    if |s| == 0 {
      assert s + t == t;
    } else {
      assert (s + t)[1..] == s[1..] + t;
      FieldSumConcat(s[1..], t, n);
    }
  }

  /** The recipe totals, accumulated in iteration order as the loop in
      `calculate_total_nutrients` does: each field is the plain sum of that
      field over the lines, with no rounding applied on top. */
  function Totals(lines: seq<Nutrients>): (t: Nutrients)
    ensures forall n :: t.Get(n) == FieldSum(lines, n)
  {
    if |lines| == 0 then Zero()
    else
      var init := lines[..|lines| - 1];
      var t := Add(Totals(init), lines[|lines| - 1]);
      assert lines == init + [lines[|lines| - 1]];
      forall n ensures t.Get(n) == FieldSum(lines, n) {
        FieldSumConcat(init, [lines[|lines| - 1]], n);
      }
      t
  }

  /** `calculate_total_nutrients`: start from all zeros and add every line. */
  method CalculateTotalNutrients(lines: seq<Nutrients>) returns (t: Nutrients)
    ensures t == Totals(lines)
    ensures forall n :: t.Get(n) == FieldSum(lines, n)
  {
    t := Zero();
    var i := 0;
    while i < |lines|
      invariant 0 <= i <= |lines|
      invariant t == Totals(lines[..i])
    {
      assert lines[..i + 1][..i] == lines[..i];
      t := Add(t, lines[i]);
      i := i + 1;
    }
    assert lines[..|lines|] == lines;
  }

  /** A recipe with no line items totals to all zeros. */
  lemma TotalsOfNoLines()
    ensures Totals([]) == Zero()
  {
  }

  lemma {:induction false} FieldSumPermutation(a: seq<Nutrients>, b: seq<Nutrients>, n: Nutrient)
    requires multiset(a) == multiset(b)
    ensures FieldSum(a, n) == FieldSum(b, n)
    decreases |a|
  {
    if |a| == 0 {
      assert |b| == |multiset(b)| == 0;
    } else {
      var x := a[0];
      assert x in multiset(b);
      var i :| 0 <= i < |b| && b[i] == x;
      var rest := b[..i] + b[i + 1..];
      assert FieldSum(b, n) == x.Get(n) + FieldSum(rest, n) by {
        FieldSumRemove(b, i, n);
      }
      assert multiset(a[1..]) == multiset(rest) by {
        MultisetWithout(a, 0);
        MultisetWithout(b, i);
      }
      FieldSumPermutation(a[1..], rest, n);
    }
  }

  lemma MultisetWithout<T>(s: seq<T>, i: nat)
    requires i < |s|
    ensures multiset(s[..i] + s[i + 1..]) == multiset(s) - multiset{s[i]}
  {
    assert s == s[..i] + [s[i]] + s[i + 1..];
  }

  lemma FieldSumRemove(b: seq<Nutrients>, i: nat, n: Nutrient)
    requires i < |b|
    ensures FieldSum(b, n) == b[i].Get(n) + FieldSum(b[..i] + b[i + 1..], n)
  {
    assert b == b[..i] + [b[i]] + b[i + 1..];
    FieldSumConcat(b[..i] + [b[i]], b[i + 1..], n);
    FieldSumConcat(b[..i], [b[i]], n);
    FieldSumConcat(b[..i], b[i + 1..], n);
  }

  /** The recipe's line items come back from the database in no guaranteed
      order; the totals do not depend on it. */
  lemma TotalsOrderIndependent(a: seq<Nutrients>, b: seq<Nutrients>)
    requires multiset(a) == multiset(b)
    ensures Totals(a) == Totals(b)
  {
    forall n ensures Totals(a).Get(n) == Totals(b).Get(n) {
      FieldSumPermutation(a, b, n);
    }
    NutrientsExt(Totals(a), Totals(b));
  }

  /** Totals of two groups of lines add up field by field. */
  lemma TotalsConcat(a: seq<Nutrients>, b: seq<Nutrients>)
    ensures Totals(a + b) == Add(Totals(a), Totals(b))
  {
    forall n ensures Totals(a + b).Get(n) == Add(Totals(a), Totals(b)).Get(n) {
      FieldSumConcat(a, b, n);
    }
    NutrientsExt(Totals(a + b), Add(Totals(a), Totals(b)));
  }
}
