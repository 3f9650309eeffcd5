/** Payments shared out over the rates of an invoice, and what a final invoice asks for after them. */
module ReceivedShares {
  import opened Wrappers
  import opened Rounding
  import opened Invoices
  import opened InvoiceChains

  /** A gross amount of a rate, divided in the proportion of the rate's net to its gross. */
  function DividedLike(entry: RateTotal, grossCents: int): (share: RateTotal)
    ensures share.rate == entry.rate && share.grossCents == grossCents == share.netCents + share.taxCents
  {
    var netCents := if entry.grossCents == 0 then grossCents else MathRound(grossCents * entry.netCents, entry.grossCents);
    entry.(netCents := netCents, taxCents := grossCents - netCents, grossCents := grossCents)
  }

  type Divide = (RateTotal, int) -> RateTotal

  /** The nearest cent of a rate's proportion of the payment. */
  function PartOf(billed: Amount, received: int): Figure
    requires billed.grossCents != 0
  {
    (entry: RateTotal) => MathRound(received * entry.grossCents, billed.grossCents)
  }

  /** The shares of some rates, the last of which takes what is left. */
  function Shares(entries: seq<RateTotal>, part: Figure, divide: Divide, left: int): (shares: seq<RateTotal>)
    ensures |shares| == |entries|
  {
    if entries == [] then []
    else
      var grossCents := if |entries| == 1 then left else part(entries[0]);
      [divide(entries[0], grossCents)] + Shares(entries[1..], part, divide, left - grossCents)
  }

  /** The share as a function of the invoice and the payment. */
  function Share(billed: Amount, received: int): Amount {
    if received == billed.grossCents then billed
    else if billed.byRate == [] || billed.grossCents == 0 then
      var netCents := if billed.grossCents == 0 then 0 else MathRound(billed.netCents * received, billed.grossCents);
      Amount(netCents, received - netCents, received, [])
    else
      var byRate := Shares(billed.byRate, PartOf(billed, received), DividedLike, received);
      Amount(Sum(byRate, Net), Sum(byRate, Tax), received, byRate)
  }

  method SumOf(entries: seq<RateTotal>) returns (netCents: int, taxCents: int)
    ensures netCents == Sum(entries, Net) && taxCents == Sum(entries, Tax)
  {
    netCents, taxCents := 0, 0;
    for i := 0 to |entries|
      invariant netCents == Sum(entries[..i], Net) && taxCents == Sum(entries[..i], Tax)
    {
      assert entries[..i + 1][..i] == entries[..i];
      netCents, taxCents := netCents + entries[i].netCents, taxCents + entries[i].taxCents;
    }
    assert entries[..|entries|] == entries;
  }

  method ReceivedShare(billed: Amount, received: int) returns (share: Amount)
    ensures share == Share(billed, received)
  {
    if received == billed.grossCents {
      return billed;
    }
    if billed.byRate == [] || billed.grossCents == 0 {
      var netCents := if billed.grossCents == 0 then 0 else MathRound(billed.netCents * received, billed.grossCents);
      return Amount(netCents, received - netCents, received, []);
    }
    var byRate := SharesOf(billed, received);
    var netCents, taxCents := SumOf(byRate);
    share := Amount(netCents, taxCents, received, byRate);
  }

  method SharesOf(billed: Amount, received: int) returns (byRate: seq<RateTotal>)
    requires billed.grossCents != 0
    ensures byRate == Shares(billed.byRate, PartOf(billed, received), DividedLike, received)
  {
    ghost var part := PartOf(billed, received);
    var left := received;
    byRate := [];
    for i := 0 to |billed.byRate|
      invariant byRate + Shares(billed.byRate[i..], part, DividedLike, left) == Shares(billed.byRate, part, DividedLike, received)
    {
      var entry := billed.byRate[i];
      var grossCents := if i == |billed.byRate| - 1 then left else MathRound(received * entry.grossCents, billed.grossCents);
      assert billed.byRate[i..][1..] == billed.byRate[i + 1..];
      left := left - grossCents;
      byRate := byRate + [DividedLike(entry, grossCents)];
    }
  }

  lemma {:induction false} SumFromTheFront(entries: seq<RateTotal>, figure: Figure)
    requires entries != []
    ensures Sum(entries, figure) == figure(entries[0]) + Sum(entries[1..], figure)
  {
    assert entries == entries[..1] + entries[1..];
    assert entries[..1][..0] == [];
    SumOfBoth(entries[..1], entries[1..], figure);
  }

  ghost predicate Divides(divide: Divide) {
    forall entry, grossCents {:trigger divide(entry, grossCents)} ::
      var share := divide(entry, grossCents);
      share.rate == entry.rate && share.grossCents == grossCents == share.netCents + share.taxCents
  }

  lemma {:induction false} SharesConserve(entries: seq<RateTotal>, part: Figure, divide: Divide, left: int)
    requires Divides(divide)
    ensures var shares := Shares(entries, part, divide, left);
      && (entries != [] ==> Sum(shares, Gross) == left)
      && Sum(shares, Gross) == Sum(shares, Net) + Sum(shares, Tax)
      && forall i :: 0 <= i < |shares| ==>
           shares[i].rate == entries[i].rate && shares[i].grossCents == shares[i].netCents + shares[i].taxCents
  {
    if entries != [] {
      var grossCents := if |entries| == 1 then left else part(entries[0]);
      var shares := Shares(entries, part, divide, left);
      SharesConserve(entries[1..], part, divide, left - grossCents);
      SumFromTheFront(shares, Gross);
      SumFromTheFront(shares, Net);
      SumFromTheFront(shares, Tax);
    }
  }

  /** Paid in full is the invoice itself. */
  lemma FullPayment(billed: Amount)
    ensures Share(billed, billed.grossCents) == billed
  {}

  lemma TaxedShareAddsUp(billed: Amount, received: int)
    requires AddsUp(billed, StandardTax) && billed.grossCents != 0
    ensures AddsUp(Share(billed, received), StandardTax) && Share(billed, received).grossCents == received
  {
    if received != billed.grossCents {
      var part := PartOf(billed, received);
      SharesConserve(billed.byRate, part, DividedLike, received);
      var shares := Shares(billed.byRate, part, DividedLike, received);
      forall i, j | 0 <= i < j < |shares| ensures Place(shares[i].rate) < Place(shares[j].rate) {
        assert shares[i].rate == billed.byRate[i].rate && shares[j].rate == billed.byRate[j].rate;
      }
    }
  }

  lemma UntaxedShareAddsUp(billed: Amount, received: int, treatment: Treatment)
    requires AddsUp(billed, treatment) && treatment != StandardTax && billed.grossCents != 0
    ensures AddsUp(Share(billed, received), treatment) && Share(billed, received).grossCents == received
  {
    if received != billed.grossCents {
      MathRoundOfWhole(received, billed.grossCents);
      assert billed.netCents == billed.grossCents;
      assert Share(billed, received) == Amount(received, 0, received, []);
    }
  }

  lemma AllTaxDoesNotAddUp(received: int, treatment: Treatment)
    requires received != 0
    ensures !AddsUp(Amount(0, received, received, []), treatment)
  {
    assert Sum([], Tax) == 0;
  }

  lemma ShareOfNothing(billed: Amount, received: int)
    requires billed.grossCents == 0 && received != 0
    ensures Share(billed, received) == Amount(0, received, received, [])
  {}

  /**
   * The parts of a payment are the payment: in the header and in every rate net
   * and tax make the gross, and the rates make the payment. It fails in one case
   * alone, a payment on an invoice that comes to nothing: it goes to no rate,
   * even where the invoice has some, and is called tax.
   */
  lemma ShareAddsUp(billed: Amount, received: int, treatment: Treatment)
    requires AddsUp(billed, treatment)
    ensures Share(billed, received).grossCents == received
    ensures AddsUp(Share(billed, received), treatment) <==> billed.grossCents != 0 || received == 0
  {
    if billed.grossCents == 0 {
      if received == 0 {
        FullPayment(billed);
      } else {
        ShareOfNothing(billed, received);
        AllTaxDoesNotAddUp(received, treatment);
      }
    } else if treatment == StandardTax {
      TaxedShareAddsUp(billed, received);
    } else {
      UntaxedShareAddsUp(billed, received, treatment);
    }
  }

  lemma {:induction false} NoSharesOfNothing(entries: seq<RateTotal>, part: Figure, divide: Divide)
    requires forall entry :: part(entry) == 0
    requires forall entry {:trigger divide(entry, 0)} ::
      divide(entry, 0).netCents == 0 && divide(entry, 0).taxCents == 0 && divide(entry, 0).grossCents == 0
    ensures forall share :: share in Shares(entries, part, divide, 0) ==>
      share.netCents == 0 && share.taxCents == 0 && share.grossCents == 0
  {
    if entries != [] {
      NoSharesOfNothing(entries[1..], part, divide);
    }
  }

  lemma NothingDivided(entry: RateTotal)
    ensures var share := DividedLike(entry, 0); share.netCents == 0 && share.taxCents == 0
  {
    if entry.grossCents != 0 {
      MathRoundOfWhole(0, entry.grossCents);
    }
  }

  predicate NoFigure(entry: RateTotal) {
    entry.netCents == 0 && entry.taxCents == 0 && entry.grossCents == 0
  }

  /** Zero in the header and in every rate. */
  predicate IsNothing(amount: Amount) {
    amount.netCents == 0 && amount.taxCents == 0 && amount.grossCents == 0
    && forall i :: 0 <= i < |amount.byRate| ==> NoFigure(amount.byRate[i])
  }

  lemma NothingOfSomething(billed: Amount)
    requires billed.grossCents != 0
    ensures IsNothing(Share(billed, 0))
  {
    MathRoundOfWhole(0, billed.grossCents);
    if billed.byRate != [] {
      forall entry ensures DividedLike(entry, 0).netCents == 0 && DividedLike(entry, 0).taxCents == 0 {
        NothingDivided(entry);
      }
      NoSharesOfNothing(billed.byRate, PartOf(billed, 0), DividedLike);
      SumOfNothing(Share(billed, 0).byRate);
    }
  }

  /**
   * A payment of nothing is nothing, in the header and in every rate, just where
   * the invoice asks for something or is itself zero throughout: on an invoice
   * of gross zero it is taken for a payment in full and gives its figures back.
   */
  lemma NoPayment(billed: Amount)
    ensures IsNothing(Share(billed, 0)) <==> billed.grossCents != 0 || IsNothing(billed)
    ensures billed.grossCents != 0 ==> var share := Share(billed, 0);
      && share.netCents == 0 && share.taxCents == 0 && share.grossCents == 0
      && forall entry :: entry in share.byRate ==> entry.netCents == 0 && entry.taxCents == 0 && entry.grossCents == 0
  {
    if billed.grossCents != 0 {
      NothingOfSomething(billed);
    }
  }

  lemma {:induction false} SumOfTwo(a: RateTotal, b: RateTotal, figure: Figure)
    ensures Sum([a, b], figure) == figure(a) + figure(b)
  {
    assert [a][..0] == [] && Sum([a], figure) == figure(a);
    assert [a, b][..1] == [a];
  }

  /** Such an invoice: its rates cancel out, and none of them is zero. */
  lemma NoPaymentOnRatesThatCancelOut() returns (billed: Amount)
    ensures AddsUp(billed, StandardTax) && billed.grossCents == 0
    ensures Share(billed, 0).netCents == 10 && Share(billed, 0).taxCents == -10
    ensures Share(billed, 0).byRate == [RateTotal(Reduced, 700, 100, 7, 107), RateTotal(Standard, 1900, -90, -17, -107)]
  {
    var reduced, standard := RateTotal(Reduced, 700, 100, 7, 107), RateTotal(Standard, 1900, -90, -17, -107);
    billed := Amount(10, -10, 0, [reduced, standard]);
    SumOfTwo(reduced, standard, Net);
    SumOfTwo(reduced, standard, Tax);
  }

  lemma {:induction false} SumOfNothing(entries: seq<RateTotal>)
    requires forall entry :: entry in entries ==> entry.netCents == 0 && entry.taxCents == 0
    ensures Sum(entries, Net) == 0 && Sum(entries, Tax) == 0
  {
    if entries != [] {
      assert entries[|entries| - 1] in entries;
      SumOfNothing(entries[..|entries| - 1]);
    }
  }

  function Abs(x: int): int {
    if x < 0 then -x else x
  }

  /** How far a gross share is from its exact proportion, times twice the gross of the invoice. */
  function Off(shareCents: int, entryCents: int, received: int, grossCents: int): int {
    2 * grossCents * shareCents - 2 * received * entryCents
  }

  lemma OffIsAdditive(share: int, entry: int, otherShare: int, otherEntry: int, received: int, grossCents: int)
    ensures Off(share + otherShare, entry + otherEntry, received, grossCents)
         == Off(share, entry, received, grossCents) + Off(otherShare, otherEntry, received, grossCents)
  {
    assert grossCents * (share + otherShare) == grossCents * share + grossCents * otherShare;
    assert received * (entry + otherEntry) == received * entry + received * otherEntry;
  }

  /** Half a cent for each of `n` rates, times twice the gross of the invoice. */
  function HalfCents(n: nat, grossCents: int): int {
    if n == 0 then 0 else HalfCents(n - 1, grossCents) + Abs(grossCents)
  }

  /**
   * Before the last rate each share is as near as its rounding; the last is off
   * by what all together are off and by what the others are.
   */
  lemma {:induction false} SharesAreNear(entries: seq<RateTotal>, part: Figure, divide: Divide,
                                         left: int, received: int, grossCents: int)
    requires entries != [] && Divides(divide)
    requires IsNear(part, received, grossCents)
    ensures var shares, n := Shares(entries, part, divide, left), |entries|;
      && (forall i :: 0 <= i < n - 1 ==>
            Abs(Off(shares[i].grossCents, entries[i].grossCents, received, grossCents)) <= Abs(grossCents))
      && Abs(Off(shares[n - 1].grossCents, entries[n - 1].grossCents, received, grossCents))
         <= Abs(Off(left, Sum(entries, Gross), received, grossCents)) + HalfCents(n - 1, grossCents)
  {
    var n := |entries|;
    SumFromTheFront(entries, Gross);
    if n > 1 {
      var first := part(entries[0]);
      SharesAreNear(entries[1..], part, divide, left - first, received, grossCents);
      OffIsAdditive(first, entries[0].grossCents, left - first, Sum(entries[1..], Gross), received, grossCents);
      var shares, rest := Shares(entries, part, divide, left), Shares(entries[1..], part, divide, left - first);
      assert shares[1..] == rest;
    } else {
      assert entries[1..] == [];
    }
  }

  ghost predicate IsNear(part: Figure, received: int, grossCents: int) {
    forall entry :: Abs(Off(part(entry), entry.grossCents, received, grossCents)) <= Abs(grossCents)
  }

  lemma PartsAreNear(billed: Amount, received: int)
    requires billed.grossCents != 0
    ensures IsNear(PartOf(billed, received), received, billed.grossCents)
  {
    forall entry: RateTotal
      ensures Abs(Off(PartOf(billed, received)(entry), entry.grossCents, received, billed.grossCents)) <= Abs(billed.grossCents)
    {
      RoundingIsNear(entry.grossCents, received, billed.grossCents);
    }
  }

  lemma RoundingIsNear(entryCents: int, received: int, grossCents: int)
    requires grossCents != 0
    ensures Abs(Off(MathRound(received * entryCents, grossCents), entryCents, received, grossCents)) <= Abs(grossCents)
  {
    var r := MathRound(received * entryCents, grossCents);
    assert 2 * (received * entryCents) == 2 * received * entryCents;
  }

  lemma {:induction false} HalfCentsAre(n: nat, grossCents: int)
    ensures HalfCents(n, grossCents) == n * Abs(grossCents)
  {
    if n > 0 {
      HalfCentsAre(n - 1, grossCents);
    }
  }

  /**
   * Every rate but the last is within half a cent of its proportional share of
   * the payment, and the last within half a cent for each of the others.
   */
  lemma SharesAreProportional(billed: Amount, received: int)
    requires AddsUp(billed, StandardTax) && billed.grossCents != 0
    ensures var shares, n, grossCents := Share(billed, received).byRate, |billed.byRate|, billed.grossCents;
      && |shares| == n > 0
      && (forall i :: 0 <= i < n - 1 ==>
            Abs(Off(shares[i].grossCents, billed.byRate[i].grossCents, received, grossCents)) <= Abs(grossCents))
      && Abs(Off(shares[n - 1].grossCents, billed.byRate[n - 1].grossCents, received, grossCents)) <= (n - 1) * Abs(grossCents)
  {
    assert billed.byRate != [];
    if received == billed.grossCents {
      forall entry: RateTotal ensures Off(entry.grossCents, entry.grossCents, received, received) == 0 {
        FullIsNotOff(entry.grossCents, received);
      }
      TimesMonotone(0, |billed.byRate| - 1, Abs(billed.grossCents));
    } else {
      GrossOfRates(billed.byRate);
      PartsAreNear(billed, received);
      SharesAreNear(billed.byRate, PartOf(billed, received), DividedLike, received, received, billed.grossCents);
      HalfCentsAre(|billed.byRate| - 1, billed.grossCents);
      NothingOff(received, billed.grossCents);
    }
  }

  lemma FullIsNotOff(entryCents: int, grossCents: int)
    ensures Off(entryCents, entryCents, grossCents, grossCents) == 0
  {}

  lemma NothingOff(received: int, grossCents: int)
    ensures Off(received, grossCents, received, grossCents) == 0
  {}

  lemma {:induction false} GrossOfRates(entries: seq<RateTotal>)
    requires forall i :: 0 <= i < |entries| ==> entries[i].grossCents == entries[i].netCents + entries[i].taxCents
    ensures Sum(entries, Gross) == Sum(entries, Net) + Sum(entries, Tax)
  {
    if entries != [] {
      GrossOfRates(entries[..|entries| - 1]);
    }
  }

  // --- Net and tax of a share ------------------------------------------------------------------------

  /** `cents` is the nearest whole number to `part * of / whole`, a half upwards. */
  ghost predicate IsProportion(cents: int, part: int, of: int, whole: int) {
    && (whole > 0 ==> -whole <= 2 * (part * of) - 2 * whole * cents < whole)
    && (whole < 0 ==> whole < 2 * (part * of) - 2 * whole * cents <= -whole)
  }

  /** The share of a rate is net and tax in the proportion of the rate; where the rate has no gross it is all net. */
  ghost predicate IsSplitLike(share: RateTotal, entry: RateTotal) {
    && share.rate == entry.rate && share.basisPoints == entry.basisPoints
    && share.taxCents == share.grossCents - share.netCents
    && IsProportion(share.netCents, share.grossCents, entry.netCents, entry.grossCents)
    && (entry.grossCents == 0 ==> share.netCents == share.grossCents)
  }

  lemma DividedIsSplit(entry: RateTotal, grossCents: int)
    ensures IsSplitLike(DividedLike(entry, grossCents), entry)
  {}

  lemma {:induction false} SharesAreSplit(entries: seq<RateTotal>, part: Figure, divide: Divide, left: int, i: nat)
    requires i < |entries| && forall entry, cents :: IsSplitLike(divide(entry, cents), entry)
    ensures IsSplitLike(Shares(entries, part, divide, left)[i], entries[i])
  {
    if i > 0 {
      var grossCents := if |entries| == 1 then left else part(entries[0]);
      SharesAreSplit(entries[1..], part, divide, left - grossCents, i - 1);
    }
  }

  /**
   * A payment in full is the invoice, one on an invoice of zero is all tax, and
   * any other is divided: by rates, each split like the rate, or without rates
   * in the proportion of the header.
   */
  lemma SharesAreSplitLikeTheirRates(billed: Amount, received: int)
    ensures var share := Share(billed, received);
      && share.grossCents == received
      && (received == billed.grossCents ==> share == billed)
      && (received != billed.grossCents && billed.grossCents == 0 ==> share.netCents == 0 && share.taxCents == received)
      && (received != billed.grossCents && billed.grossCents != 0 && billed.byRate == [] ==>
            share.byRate == [] && share.taxCents == received - share.netCents
            && IsProportion(share.netCents, billed.netCents, received, billed.grossCents))
      && (received != billed.grossCents && billed.grossCents != 0 ==>
            |share.byRate| == |billed.byRate|
            && forall i :: 0 <= i < |billed.byRate| ==> IsSplitLike(share.byRate[i], billed.byRate[i]))
  {
    if received != billed.grossCents && billed.grossCents != 0 {
      forall entry, cents ensures IsSplitLike(DividedLike(entry, cents), entry) {
        DividedIsSplit(entry, cents);
      }
      forall i | 0 <= i < |billed.byRate| ensures IsSplitLike(Share(billed, received).byRate[i], billed.byRate[i]) {
        SharesAreSplit(billed.byRate, PartOf(billed, received), DividedLike, received, i);
      }
    }
  }

  // --- The final invoice -----------------------------------------------------------------------------

  function SumOfAll(payments: seq<int>): int {
    if payments == [] then 0 else SumOfAll(payments[..|payments| - 1]) + payments[|payments| - 1]
  }

  /** What is taken off a final invoice: the share of each progress invoice that its payment covers. */
  ghost predicate TakesOffReceived(deductions: seq<Deducted>, payments: seq<int>) {
    |deductions| == |payments|
    && forall i :: 0 <= i < |deductions| ==> deductions[i].received == Some(Share(deductions[i].billed, payments[i]))
  }

  ghost predicate AllAddUp(deductions: seq<Deducted>, treatment: Treatment) {
    forall i :: 0 <= i < |deductions| ==> AddsUp(deductions[i].billed, treatment)
  }

  /** What was paid on invoices that come to zero, and so goes to no rate. */
  function Stray(deductions: seq<Deducted>, payments: seq<int>): int
    requires |deductions| == |payments|
  {
    var n := |deductions|;
    if n == 0 then 0
    else Stray(deductions[..n - 1], payments[..n - 1]) + if deductions[n - 1].billed.grossCents == 0 then payments[n - 1] else 0
  }

  /** What a part lacks of adding up: so much tax of the header is in no rate. */
  ghost predicate ShortOf(part: Amount, stray: int, treatment: Treatment) {
    && part.grossCents == part.netCents + part.taxCents
    && part.taxCents == Sum(part.byRate, Tax) + stray
    && if treatment == StandardTax then part.netCents == Sum(part.byRate, Net) else part.byRate == []
  }

  lemma AllTaxIsShort(payment: int, treatment: Treatment)
    ensures ShortOf(Amount(0, payment, payment, []), payment, treatment)
  {
    assert Sum([], Tax) == 0 && Sum([], Net) == 0;
  }

  lemma FullIsNotShort(part: Amount, treatment: Treatment)
    requires AddsUp(part, treatment)
    ensures ShortOf(part, 0, treatment)
  {}

  lemma PartIsShort(billed: Amount, payment: int, treatment: Treatment)
    requires AddsUp(billed, treatment)
    ensures Share(billed, payment).grossCents == payment
    ensures ShortOf(Share(billed, payment), if billed.grossCents == 0 then payment else 0, treatment)
  {
    ShareAddsUp(billed, payment, treatment);
    if billed.grossCents == 0 && payment != 0 {
      ShareOfNothing(billed, payment);
      AllTaxIsShort(payment, treatment);
    } else {
      FullIsNotShort(Share(billed, payment), treatment);
    }
  }

  ghost predicate PartsAreShort(deductions: seq<Deducted>, payments: seq<int>, treatment: Treatment) {
    |deductions| == |payments|
    && forall i :: 0 <= i < |deductions| ==>
      && DeductedPart(deductions[i]).grossCents == payments[i]
      && ShortOf(DeductedPart(deductions[i]), if deductions[i].billed.grossCents == 0 then payments[i] else 0, treatment)
  }

  lemma SharesAreShort(deductions: seq<Deducted>, payments: seq<int>, treatment: Treatment)
    requires TakesOffReceived(deductions, payments) && AllAddUp(deductions, treatment)
    ensures PartsAreShort(deductions, payments, treatment)
  {
    forall i | 0 <= i < |deductions|
      ensures DeductedPart(deductions[i]).grossCents == payments[i]
      ensures ShortOf(DeductedPart(deductions[i]), if deductions[i].billed.grossCents == 0 then payments[i] else 0, treatment)
    {
      PartIsShort(deductions[i].billed, payments[i], treatment);
    }
  }

  lemma {:induction false} TakenIsReceived(deductions: seq<Deducted>, payments: seq<int>, treatment: Treatment)
    requires PartsAreShort(deductions, payments, treatment)
    ensures TakenNet(deductions) + TakenTax(deductions) == SumOfAll(payments)
    ensures TakenTax(deductions) == Sum(Taken(deductions), Tax) + Stray(deductions, payments)
    ensures if treatment == StandardTax then Sum(Taken(deductions), Net) == TakenNet(deductions) else Taken(deductions) == []
  {
    var n := |deductions|;
    if n > 0 {
      var front, part := deductions[..n - 1], DeductedPart(deductions[n - 1]);
      TakenIsReceived(front, payments[..n - 1], treatment);
      SumOfBoth(Taken(front), part.byRate, Tax);
      SumOfBoth(Taken(front), part.byRate, Net);
    }
  }

  lemma {:induction false} AddsUpButForStray(netCents: int, taxCents: int, left: seq<RateTotal>, stray: int, treatment: Treatment)
    requires EntriesAddUp(left) && taxCents == Sum(left, Tax) - stray
    requires if treatment == StandardTax then netCents == Sum(left, Net) else left == []
    ensures AddsUp(Amount(netCents, taxCents, netCents + taxCents, left), treatment) <==> stray == 0
  {}

  lemma {:induction false} LeftAddsUp(totals: Amount, taken: seq<RateTotal>, takenNet: int, takenTax: int, stray: int,
                                      treatment: Treatment)
    requires AddsUp(totals, treatment) && takenTax == Sum(taken, Tax) + stray
    requires if treatment == StandardTax then Sum(taken, Net) == takenNet else taken == []
    ensures var netCents, taxCents := totals.netCents - takenNet, totals.taxCents - takenTax;
      AddsUp(Amount(netCents, taxCents, netCents + taxCents, Listed(LeftOver(totals.byRate, taken))), treatment) <==> stray == 0
  {
    RatesLeftAddUp(totals.byRate, taken, treatment);
    AddsUpButForStray(totals.netCents - takenNet, totals.taxCents - takenTax, Listed(LeftOver(totals.byRate, taken)), stray,
                      treatment);
  }

  lemma {:induction false} BilledIsTheRest(totals: Amount, deductions: seq<Deducted>, payments: seq<int>, treatment: Treatment)
    requires AddsUp(totals, treatment) && deductions != [] && PartsAreShort(deductions, payments, treatment)
    ensures Billed(totals, deductions).grossCents + SumOfAll(payments) == totals.grossCents
    ensures AddsUp(Billed(totals, deductions), treatment) <==> Stray(deductions, payments) == 0
  {
    var taken, net, tax := Taken(deductions), TakenNet(deductions), TakenTax(deductions);
    TakenIsReceived(deductions, payments, treatment);
    LeftAddsUp(totals, taken, net, tax, Stray(deductions, payments), treatment);
    assert Billed(totals, deductions)
        == Amount(totals.netCents - net, totals.taxCents - tax, totals.netCents - net + (totals.taxCents - tax),
                  Listed(LeftOver(totals.byRate, taken)));
  }

  /**
   * The final invoice asks for the rest to the cent, whatever came in on which
   * invoice: its gross amount and all payments make the gross amount of the
   * work. Its figures add up too, just where the payments on invoices that come
   * to zero come to nothing together.
   */
  lemma {:induction false} FinalInvoiceAsksTheRest(totals: Amount, deductions: seq<Deducted>, payments: seq<int>,
                                                   treatment: Treatment)
    requires AddsUp(totals, treatment)
    requires TakesOffReceived(deductions, payments) && AllAddUp(deductions, treatment)
    ensures Billed(totals, deductions).grossCents + SumOfAll(payments) == totals.grossCents
    ensures AddsUp(Billed(totals, deductions), treatment) <==> Stray(deductions, payments) == 0
  {
    if deductions != [] {
      SharesAreShort(deductions, payments, treatment);
      BilledIsTheRest(totals, deductions, payments, treatment);
    }
  }
}
