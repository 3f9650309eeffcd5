/** Progress invoices and the final one after them: what they bill together. */
module InvoiceChains {
  import opened Wrappers
  import opened Invoices

  lemma {:induction false} LeftOverIs(own: seq<RateTotal>, taken: seq<RateTotal>, rate: VatRate)
    ensures var left := Listed(LeftOver(own, taken));
      && OfRate(left, rate, Net) == OfRate(own, rate, Net) - OfRate(taken, rate, Net)
      && OfRate(left, rate, Tax) == OfRate(own, rate, Tax) - OfRate(taken, rate, Tax)
  {
    ListedHas(LeftOver(own, taken), rate, Net);
    ListedHas(LeftOver(own, taken), rate, Tax);
    AbsentIsNothing(own, rate, Net);
    AbsentIsNothing(own, rate, Tax);
    AbsentIsNothing(taken, rate, Net);
    AbsentIsNothing(taken, rate, Tax);
  }

  function TakenGross(deductions: seq<Deducted>): int {
    if deductions == [] then 0
    else TakenGross(deductions[..|deductions| - 1]) + DeductedPart(deductions[|deductions| - 1]).grossCents
  }

  ghost predicate PartsAddUp(deductions: seq<Deducted>, treatment: Treatment) {
    forall i :: 0 <= i < |deductions| ==> AddsUp(DeductedPart(deductions[i]), treatment)
  }

  /**
   * Nothing is lost and nothing billed twice: what a document bills and what
   * its deductions take off make its totals, in every rate and in the header.
   */
  lemma {:induction false} BilledAndTakenMakeTheTotals(totals: Amount, deductions: seq<Deducted>, rate: VatRate)
    ensures var billed, taken := Billed(totals, deductions), Taken(deductions);
      && OfRate(billed.byRate, rate, Net) + OfRate(taken, rate, Net) == OfRate(totals.byRate, rate, Net)
      && OfRate(billed.byRate, rate, Tax) + OfRate(taken, rate, Tax) == OfRate(totals.byRate, rate, Tax)
      && billed.netCents + TakenNet(deductions) == totals.netCents
      && billed.taxCents + TakenTax(deductions) == totals.taxCents
  {
    if deductions != [] {
      LeftOverIs(totals.byRate, Taken(deductions), rate);
    }
  }

  lemma {:induction false} TakenSums(deductions: seq<Deducted>, treatment: Treatment)
    requires PartsAddUp(deductions, treatment)
    ensures TakenGross(deductions) == TakenNet(deductions) + TakenTax(deductions)
    ensures Sum(Taken(deductions), Tax) == TakenTax(deductions)
    ensures if treatment == StandardTax then Sum(Taken(deductions), Net) == TakenNet(deductions) else Taken(deductions) == []
  {
    if deductions != [] {
      var front, part := deductions[..|deductions| - 1], DeductedPart(deductions[|deductions| - 1]);
      TakenSums(front, treatment);
      SumOfBoth(Taken(front), part.byRate, Tax);
      SumOfBoth(Taken(front), part.byRate, Net);
    }
  }

  lemma {:induction false} SumOfBoth(a: seq<RateTotal>, b: seq<RateTotal>, figure: Figure)
    ensures Sum(a + b, figure) == Sum(a, figure) + Sum(b, figure)
  {
    if b == [] {
      assert a + b == a;
    } else {
      SumOfBoth(a, b[..|b| - 1], figure);
      assert (a + b)[..|a + b| - 1] == a + b[..|b| - 1];
    }
  }

  lemma {:induction false} SumsOfWhatIsLeft(left: seq<RateTotal>, own: seq<RateTotal>, taken: seq<RateTotal>, figure: Figure)
    requires forall rate :: OfRate(left, rate, figure) == OfRate(own, rate, figure) - OfRate(taken, rate, figure)
    ensures Sum(left, figure) == Sum(own, figure) - Sum(taken, figure)
  {
    SumIsOverTheRates(own, figure);
    SumIsOverTheRates(taken, figure);
    SumIsOverTheRates(left, figure);
  }

  lemma {:induction false} LeftOverSums(own: seq<RateTotal>, taken: seq<RateTotal>)
    ensures var left := Listed(LeftOver(own, taken));
      && Sum(left, Net) == Sum(own, Net) - Sum(taken, Net)
      && Sum(left, Tax) == Sum(own, Tax) - Sum(taken, Tax)
  {
    forall rate ensures var left := Listed(LeftOver(own, taken));
      && OfRate(left, rate, Net) == OfRate(own, rate, Net) - OfRate(taken, rate, Net)
      && OfRate(left, rate, Tax) == OfRate(own, rate, Tax) - OfRate(taken, rate, Tax)
    {
      LeftOverIs(own, taken, rate);
    }
    SumsOfWhatIsLeft(Listed(LeftOver(own, taken)), own, taken, Net);
    SumsOfWhatIsLeft(Listed(LeftOver(own, taken)), own, taken, Tax);
  }

  lemma LeftOverEntriesAddUp(own: seq<RateTotal>, taken: seq<RateTotal>)
    ensures EntriesAddUp(Listed(LeftOver(own, taken)))
  {
    var of := LeftOver(own, taken);
    ListedHas(of, Reduced, Net);
    forall i | 0 <= i < |Listed(of)| ensures Listed(of)[i].grossCents == Listed(of)[i].netCents + Listed(of)[i].taxCents {
      assert of(Listed(of)[i].rate) == Some(Listed(of)[i]);
    }
  }

  lemma NothingLeftOfNothing()
    ensures Listed(LeftOver([], [])) == []
  {}

  /** Where the totals and every deduction add up, so does what is billed, and the gross figures are conserved too. */
  lemma {:induction false} BilledAddsUp(totals: Amount, deductions: seq<Deducted>, treatment: Treatment)
    requires AddsUp(totals, treatment) && PartsAddUp(deductions, treatment)
    ensures AddsUp(Billed(totals, deductions), treatment)
    ensures Billed(totals, deductions).grossCents + TakenGross(deductions) == totals.grossCents
  {
    TakenSums(deductions, treatment);
    if deductions != [] {
      RatesLessAddUp(totals, Taken(deductions), TakenNet(deductions), TakenTax(deductions), treatment);
    }
  }

  lemma {:induction false} RatesLessAddUp(totals: Amount, taken: seq<RateTotal>, netCents: int, taxCents: int, treatment: Treatment)
    requires AddsUp(totals, treatment) && Sum(taken, Tax) == taxCents
    requires if treatment == StandardTax then Sum(taken, Net) == netCents else taken == []
    ensures var net, tax := totals.netCents - netCents, totals.taxCents - taxCents;
      && AddsUp(Amount(net, tax, net + tax, Listed(LeftOver(totals.byRate, taken))), treatment)
      && net + tax + (netCents + taxCents) == totals.grossCents
  {
    RatesLeftAddUp(totals.byRate, taken, treatment);
    LessAddsUp(totals, netCents, taxCents, Listed(LeftOver(totals.byRate, taken)), treatment);
  }

  lemma {:induction false} LessAddsUp(totals: Amount, netCents: int, taxCents: int, left: seq<RateTotal>, treatment: Treatment)
    requires AddsUp(totals, treatment) && EntriesAddUp(left) && Sum(left, Tax) == Sum(totals.byRate, Tax) - taxCents
    requires if treatment == StandardTax then Sum(left, Net) == Sum(totals.byRate, Net) - netCents else left == []
    ensures var net, tax := totals.netCents - netCents, totals.taxCents - taxCents;
      AddsUp(Amount(net, tax, net + tax, left), treatment) && net + tax + (netCents + taxCents) == totals.grossCents
  {}

  lemma {:induction false} RatesLeftAddUp(own: seq<RateTotal>, taken: seq<RateTotal>, treatment: Treatment)
    requires treatment != StandardTax ==> own == [] && taken == []
    ensures var left := Listed(LeftOver(own, taken));
      && EntriesAddUp(left)
      && Sum(left, Net) == Sum(own, Net) - Sum(taken, Net)
      && Sum(left, Tax) == Sum(own, Tax) - Sum(taken, Tax)
      && (treatment != StandardTax ==> left == [])
  {
    LeftOverSums(own, taken);
    LeftOverEntriesAddUp(own, taken);
    NothingLeftOfNothing();
  }

  lemma {:induction false} FirstWithRate(own: seq<RateTotal>, taken: seq<RateTotal>, rate: VatRate)
    ensures HasRate(own, rate) ==> FirstBasisPoints(own + taken, rate) == FirstBasisPoints(own, rate)
    ensures !HasRate(own, rate) ==> FirstBasisPoints(own + taken, rate) == FirstBasisPoints(taken, rate)
  {
    if own == [] {
      assert own + taken == taken;
    } else {
      assert (own + taken)[1..] == own[1..] + taken && (own + taken)[0] == own[0];
      RestHasRate(own, rate);
      FirstWithRate(own[1..], taken, rate);
    }
  }

  lemma RestHasRate(own: seq<RateTotal>, rate: VatRate)
    requires own != []
    ensures HasRate(own, rate) <==> own[0].rate == rate || HasRate(own[1..], rate)
  {
    if i :| 0 <= i < |own| && own[i].rate == rate {
      assert i > 0 ==> own[1..][i - 1] == own[i];
    }
    if i :| 0 <= i < |own[1..]| && own[1..][i].rate == rate {
      assert own[i + 1] == own[1..][i];
    }
  }

  lemma {:induction false} OnlyOneWithRate(own: seq<RateTotal>, i: nat)
    requires InOrder(own) && i < |own|
    ensures FirstBasisPoints(own, own[i].rate) == own[i].basisPoints
  {
    if i > 0 {
      assert own[0].rate != own[i].rate;
      OnlyOneWithRate(own[1..], i - 1);
    }
  }

  /** The figure printed for a rate is the document's own, whatever it was on the invoices before. */
  lemma {:induction false} BilledKeepsItsRates(totals: Amount, deductions: seq<Deducted>, i: nat, k: nat)
    requires InOrder(totals.byRate) && i < |totals.byRate| && k < |Billed(totals, deductions).byRate|
    requires Billed(totals, deductions).byRate[k].rate == totals.byRate[i].rate
    ensures Billed(totals, deductions).byRate[k].basisPoints == totals.byRate[i].basisPoints
  {
    if deductions == [] {
      assert k == i;
    } else {
      var rate := totals.byRate[i].rate;
      ListedInOrder(LeftOver(totals.byRate, Taken(deductions)), rate);
      OnlyOneWithRate(totals.byRate, i);
      FirstWithRate(totals.byRate, Taken(deductions), rate);
      assert HasRate(totals.byRate, rate);
    }
  }

  // --- The chain ---------------------------------------------------------------------------------

  /** A progress invoice as far as the chain goes: its number and the totals of the work so far. */
  datatype Progress = Progress(number: string, totals: Amount)

  /** What each invoice of a chain bills, every one taking off what all before it billed; the last, what is next taken off. */
  function Chain(steps: seq<Progress>, treatment: Treatment): (chain: seq<Deducted>)
    ensures |chain| == |steps|
  {
    if steps == [] then []
    else
      var before, last := Chain(steps[..|steps| - 1], treatment), steps[|steps| - 1];
      before + [Deducted(last.number, treatment, Billed(last.totals, before), None)]
  }

  lemma {:induction false} ChainAddsUp(steps: seq<Progress>, treatment: Treatment)
    requires forall i :: 0 <= i < |steps| ==> AddsUp(steps[i].totals, treatment)
    ensures PartsAddUp(Chain(steps, treatment), treatment)
  {
    if steps != [] {
      var front := steps[..|steps| - 1];
      ChainAddsUp(front, treatment);
      BilledAddsUp(steps[|steps| - 1].totals, Chain(front, treatment), treatment);
    }
  }

  lemma {:induction false} OneMoreTaken(before: seq<Deducted>, next: Deducted, rate: VatRate, figure: Figure)
    ensures OfRate(Taken(before + [next]), rate, figure)
         == OfRate(Taken(before), rate, figure) + OfRate(DeductedPart(next).byRate, rate, figure)
    ensures TakenNet(before + [next]) == TakenNet(before) + DeductedPart(next).netCents
    ensures TakenTax(before + [next]) == TakenTax(before) + DeductedPart(next).taxCents
    ensures TakenGross(before + [next]) == TakenGross(before) + DeductedPart(next).grossCents
  {
    assert (before + [next])[..|before|] == before;
    OfRateOfBoth(Taken(before), DeductedPart(next).byRate, rate, figure);
  }

  /**
   * One deduction more takes off what was received for its invoice once that
   * is on record, and until then what the invoice billed.
   */
  lemma {:induction false} OneDeductionMore(totals: Amount, before: seq<Deducted>, next: Deducted, rate: VatRate)
    ensures var billed, less := Billed(totals, before), Billed(totals, before + [next]);
      var off := if next.received.Some? then next.received.value else next.billed;
      && less.netCents == billed.netCents - off.netCents
      && less.taxCents == billed.taxCents - off.taxCents
      && less.grossCents == less.netCents + less.taxCents
      && OfRate(less.byRate, rate, Net) == OfRate(billed.byRate, rate, Net) - OfRate(off.byRate, rate, Net)
      && OfRate(less.byRate, rate, Tax) == OfRate(billed.byRate, rate, Tax) - OfRate(off.byRate, rate, Tax)
  {
    OneMoreTaken(before, next, rate, Net);
    OneMoreTaken(before, next, rate, Tax);
    BilledAndTakenMakeTheTotals(totals, before, rate);
    BilledAndTakenMakeTheTotals(totals, before + [next], rate);
  }

  /**
   * However each of them rounded, the invoices of a chain bill together exactly
   * the totals of the last one: per rate and in the header, net, tax and gross.
   */
  lemma {:induction false} ChainBillsTheLastTotals(steps: seq<Progress>, treatment: Treatment, rate: VatRate)
    requires steps != [] && forall i :: 0 <= i < |steps| ==> AddsUp(steps[i].totals, treatment)
    ensures var chain, last := Chain(steps, treatment), steps[|steps| - 1].totals;
      && PartsAddUp(chain, treatment)
      && OfRate(Taken(chain), rate, Net) == OfRate(last.byRate, rate, Net)
      && OfRate(Taken(chain), rate, Tax) == OfRate(last.byRate, rate, Tax)
      && TakenNet(chain) == last.netCents && TakenTax(chain) == last.taxCents && TakenGross(chain) == last.grossCents
  {
    var front, last := steps[..|steps| - 1], steps[|steps| - 1];
    var before := Chain(front, treatment);
    var next := Deducted(last.number, treatment, Billed(last.totals, before), None);
    assert Chain(steps, treatment) == before + [next];
    ChainAddsUp(steps, treatment);
    ChainAddsUp(front, treatment);
    assert TakenGross(before + [next]) == last.totals.grossCents by {
      BilledAddsUp(last.totals, before, treatment);
      OneMoreTaken(before, next, rate, Net);
    }
    BilledAndTakenMakeTheTotals(last.totals, before, rate);
    OneMoreTaken(before, next, rate, Net);
    OneMoreTaken(before, next, rate, Tax);
  }
}
