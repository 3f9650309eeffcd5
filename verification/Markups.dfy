/** The two roundings of a price with a markup, one for the catalogue and one for a position, agree. */
module Markups {
  import opened Wrappers
  import opened Rounding
  import opened Prices

  /** A purchase price with the markup for another price unit, in whole numbers without a bound. */
  function UnitCentsFrom(purchaseCents: nat, priceBase: int, lineBase: nat, basisPoints: nat): int
    requires priceBase > 0
  {
    var above := purchaseCents * lineBase * (10_000 + basisPoints);
    var below := priceBase * 10_000;
    (above * 2 + below) / (below * 2)
  }

  lemma RoundOfScaled(a: int, b: int, k: int)
    requires b > 0 && k > 0
    ensures b * k > 0 && RoundOver(a * k, b * k) == RoundOver(a, b)
  {
    var r := RoundOver(a, b);
    var d := 2 * a - 2 * b * r;
    TimesMonotone(-b, d, k);
    TimesStrict(d, b, k);
    Spread(a, b, r, k);
    TimesStrict(0, b, k);
    RoundIsTheNearest(a * k, b * k, r);
  }

  lemma Spread(a: int, b: int, r: int, k: int)
    ensures (2 * a - 2 * b * r) * k == 2 * (a * k) - 2 * (b * k) * r
    ensures -b * k == -(b * k)
  {
    assert b * r * k == b * k * r;
  }

  /** The selling price is the nearest cent to the price with the markup, half a cent up, or none above the largest. */
  lemma SellingIsRounded(purchaseCents: int, basisPoints: int)
    ensures var cents := RoundOver(purchaseCents * (10_000 + basisPoints), 10_000);
      SellingCents(purchaseCents, basisPoints) == if cents > 99_999_999 then None else Some(cents)
  {
    var x := purchaseCents * (10_000 + basisPoints);
    RoundIsTheNearest(x, 10_000, (x + 5_000) / 10_000);
  }

  /** For any price unit of the position: the nearest cent to the price of so much with the markup, half a cent up. */
  lemma UnitIsRounded(purchaseCents: nat, priceBase: nat, lineBase: nat, basisPoints: nat)
    requires priceBase > 0
    ensures var above, below := purchaseCents * lineBase * (10_000 + basisPoints), priceBase * 10_000;
      -below <= 2 * above - 2 * below * UnitCentsFrom(purchaseCents, priceBase, lineBase, basisPoints) < below
  {
    var above, below := purchaseCents * lineBase * (10_000 + basisPoints), priceBase * 10_000;
    assert UnitCentsFrom(purchaseCents, priceBase, lineBase, basisPoints) == RoundOver(above, below);
  }

  /** In which measure both units are counted does not matter. */
  lemma OnlyTheRatioOfTheUnitsMatters(purchaseCents: nat, priceBase: nat, lineBase: nat, basisPoints: nat, k: nat)
    requires priceBase > 0 && k > 0
    ensures priceBase * k > 0
    ensures UnitCentsFrom(purchaseCents, priceBase * k, lineBase * k, basisPoints)
         == UnitCentsFrom(purchaseCents, priceBase, lineBase, basisPoints)
  {
    var above, below := purchaseCents * lineBase * (10_000 + basisPoints), priceBase * 10_000;
    TimesStrict(0, priceBase, k);
    Regrouped(purchaseCents, lineBase, k, 10_000 + basisPoints);
    Ordered(priceBase, k, 10_000);
    RoundOfBoth(above, below, above * k, below * k, k);
  }

  lemma Regrouped(a: int, b: int, k: int, c: int)
    ensures a * (b * k) * c == a * b * c * k
  {
    assert a * (b * k) == a * b * k;
    Ordered(a * b, k, c);
  }

  lemma RoundOfBoth(above: int, below: int, moreAbove: int, moreBelow: int, k: int)
    requires below > 0 && k > 0 && moreAbove == above * k && moreBelow == below * k
    ensures moreBelow > 0
    ensures (moreAbove * 2 + moreBelow) / (moreBelow * 2) == (above * 2 + below) / (below * 2)
  {
    RoundOfScaled(above, below, k);
    assert RoundOver(moreAbove, moreBelow) == RoundOver(above, below);
  }

  /** In the same price unit a position costs what the selling price says. */
  lemma SameUnitSamePrice(purchaseCents: nat, priceBase: nat, basisPoints: nat)
    requires priceBase > 0
    requires SellingCents(purchaseCents, basisPoints).Some?
    ensures Some(UnitCentsFrom(purchaseCents, priceBase, priceBase, basisPoints)) == SellingCents(purchaseCents, basisPoints)
  {
    var x := purchaseCents * (10_000 + basisPoints);
    SellingIsRounded(purchaseCents, basisPoints);
    RoundOfScaled(x, 10_000, priceBase);
    Ordered(purchaseCents, priceBase, 10_000 + basisPoints);
  }

  lemma Ordered(a: int, b: int, c: int)
    ensures a * b * c == a * c * b
  {}

  /** A dearer purchase never sells for less, and a higher markup never for less either. */
  lemma SellingNeverFalls(purchaseCents: nat, dearer: nat, basisPoints: nat, higher: nat)
    requires purchaseCents <= dearer && basisPoints <= higher && SellingCents(dearer, higher).Some?
    ensures SellingCents(purchaseCents, basisPoints).Some?
    ensures SellingCents(purchaseCents, basisPoints).value <= SellingCents(dearer, higher).value
  {
    SellingIsRounded(purchaseCents, basisPoints);
    SellingIsRounded(dearer, higher);
    TimesMonotone(purchaseCents, dearer, 10_000 + basisPoints);
    TimesMonotone(10_000 + basisPoints, 10_000 + higher, dearer);
    RoundMonotone(purchaseCents * (10_000 + basisPoints), dearer * (10_000 + higher), 10_000);
  }
}
