/** What a document adds up to, and what it bills once the invoices before it are taken off. */
module Invoices {
  import opened Wrappers
  import opened Rounding

  /** The rates by name, in the order `sort` puts them. */
  datatype VatRate = Reduced | Standard | Zero

  const RATES: seq<VatRate> := [Reduced, Standard, Zero]

  datatype Treatment = StandardTax | SmallBusiness | ReverseCharge

  datatype LineKind = Item | Title

  datatype Line = Line(
    kind: LineKind,
    designation: string,
    quantityMilli: int,
    unitPriceCents: int,
    priceBase: int,
    vatRate: VatRate,
    netCents: int
  )

  datatype RateTotal = RateTotal(rate: VatRate, basisPoints: int, netCents: int, taxCents: int, grossCents: int)

  /** A net, tax and gross figure with its parts per rate: the totals of a document, or what it bills. */
  datatype Amount = Amount(netCents: int, taxCents: int, grossCents: int, byRate: seq<RateTotal>)

  datatype Deducted = Deducted(number: string, treatment: Treatment, billed: Amount, received: Option<Amount>)

  /** The rates of a day, in basis points. */
  type Rates = VatRate -> int

  // --- Figures per rate ----------------------------------------------------------------------------

  type Figure = RateTotal -> int

  function Net(entry: RateTotal): int { entry.netCents }

  function Tax(entry: RateTotal): int { entry.taxCents }

  function Gross(entry: RateTotal): int { entry.grossCents }

  /** A figure of one rate, summed over all entries with it; zero where none has it. */
  function OfRate(entries: seq<RateTotal>, rate: VatRate, figure: Figure): int {
    if entries == [] then 0
    else
      var last := entries[|entries| - 1];
      OfRate(entries[..|entries| - 1], rate, figure) + if last.rate == rate then figure(last) else 0
  }

  function Sum(entries: seq<RateTotal>, figure: Figure): int {
    if entries == [] then 0 else Sum(entries[..|entries| - 1], figure) + figure(entries[|entries| - 1])
  }

  predicate HasRate(entries: seq<RateTotal>, rate: VatRate) {
    exists i :: 0 <= i < |entries| && entries[i].rate == rate
  }

  lemma {:induction false} OfRateOfBoth(a: seq<RateTotal>, b: seq<RateTotal>, rate: VatRate, figure: Figure)
    ensures OfRate(a + b, rate, figure) == OfRate(a, rate, figure) + OfRate(b, rate, figure)
  {
    if b == [] {
      assert a + b == a;
    } else {
      OfRateOfBoth(a, b[..|b| - 1], rate, figure);
      assert (a + b)[..|a + b| - 1] == a + b[..|b| - 1];
    }
  }

  lemma {:induction false} SumIsOverTheRates(entries: seq<RateTotal>, figure: Figure)
    ensures Sum(entries, figure)
         == OfRate(entries, Reduced, figure) + OfRate(entries, Standard, figure) + OfRate(entries, Zero, figure)
  {
    if entries != [] {
      SumIsOverTheRates(entries[..|entries| - 1], figure);
    }
  }

  /** One entry for each rate that has one, in the fixed order of the rates. */
  function Listed(of: VatRate -> Option<RateTotal>): seq<RateTotal> {
    One(of(Reduced)) + One(of(Standard)) + One(of(Zero))
  }

  function One(entry: Option<RateTotal>): seq<RateTotal> {
    if entry.Some? then [entry.value] else []
  }

  lemma {:induction false} ListedHas(of: VatRate -> Option<RateTotal>, rate: VatRate, figure: Figure)
    requires forall r :: of(r).Some? ==> of(r).value.rate == r
    ensures OfRate(Listed(of), rate, figure) == if of(rate).Some? then figure(of(rate).value) else 0
    ensures HasRate(Listed(of), rate) <==> of(rate).Some?
    ensures InOrder(Listed(of))
    ensures forall i :: 0 <= i < |Listed(of)| ==> of(Listed(of)[i].rate) == Some(Listed(of)[i])
  {
    ListedOfRate(of(Reduced), of(Standard), of(Zero), rate, figure);
    ListedInOrder(of, rate);
  }

  /** Three entries, each of its own rate or missing. */
  lemma {:induction false} ListedOfRate(reduced: Option<RateTotal>, standard: Option<RateTotal>, zero: Option<RateTotal>,
                                        rate: VatRate, figure: Figure)
    requires reduced.Some? ==> reduced.value.rate == Reduced
    requires standard.Some? ==> standard.value.rate == Standard
    requires zero.Some? ==> zero.value.rate == Zero
    ensures var entry := match rate case Reduced => reduced case Standard => standard case Zero => zero;
      OfRate(One(reduced) + One(standard) + One(zero), rate, figure) == if entry.Some? then figure(entry.value) else 0
  {
    OfRateOfBoth(One(reduced) + One(standard), One(zero), rate, figure);
    OfRateOfBoth(One(reduced), One(standard), rate, figure);
    OfOne(reduced, rate, figure);
    OfOne(standard, rate, figure);
    OfOne(zero, rate, figure);
  }

  lemma ListedInOrder(of: VatRate -> Option<RateTotal>, rate: VatRate)
    requires forall r :: of(r).Some? ==> of(r).value.rate == r
    ensures InOrder(Listed(of))
    ensures HasRate(Listed(of), rate) <==> of(rate).Some?
    ensures forall i :: 0 <= i < |Listed(of)| ==> of(Listed(of)[i].rate) == Some(Listed(of)[i])
  {
    if of(rate).Some? {
      assert of(rate).value in Listed(of);
    }
  }

  lemma {:induction false} OfOne(entry: Option<RateTotal>, rate: VatRate, figure: Figure)
    ensures OfRate(One(entry), rate, figure)
         == if entry.Some? && entry.value.rate == rate then figure(entry.value) else 0
  {
    if entry.Some? {
      assert One(entry)[..0] == [];
    }
  }

  function Place(rate: VatRate): int {
    match rate
    case Reduced => 0
    case Standard => 1
    case Zero => 2
  }

  predicate InOrder(entries: seq<RateTotal>) {
    forall i, j :: 0 <= i < j < |entries| ==> Place(entries[i].rate) < Place(entries[j].rate)
  }

  ghost predicate EntriesAddUp(entries: seq<RateTotal>) {
    InOrder(entries) && forall i :: 0 <= i < |entries| ==> entries[i].grossCents == entries[i].netCents + entries[i].taxCents
  }

  /** The parts and the header agree: under tax the rates sum to the header, without tax there are none. */
  ghost predicate AddsUp(amount: Amount, treatment: Treatment) {
    && amount.grossCents == amount.netCents + amount.taxCents
    && EntriesAddUp(amount.byRate)
    && amount.taxCents == Sum(amount.byRate, Tax)
    && if treatment == StandardTax then amount.netCents == Sum(amount.byRate, Net) else amount.byRate == []
  }

  // --- The totals of a document --------------------------------------------------------------------

  /** Quantity times unit price over the price unit, in whole cents, rounded once and away from zero. */
  function LineNetCents(line: Line): int
    requires line.priceBase > 0
  {
    HalfAway(line.quantityMilli * line.unitPriceCents, 1000 * line.priceBase)
  }

  function ApplyRate(cents: int, basisPoints: int): int {
    HalfAway(cents * basisPoints, 10_000)
  }

  /** The tax on the sum of a rate. */
  function VatOn(rates: Rates, rate: VatRate, netCents: int): RateTotal {
    var taxCents := ApplyRate(netCents, rates(rate));
    RateTotal(rate, rates(rate), netCents, taxCents, netCents + taxCents)
  }

  function NetOfLines(lines: seq<Line>): int {
    if lines == [] then 0
    else
      var last := lines[|lines| - 1];
      NetOfLines(lines[..|lines| - 1]) + if last.kind == Title then 0 else last.netCents
  }

  function NetOfLinesAt(lines: seq<Line>, rate: VatRate): int {
    if lines == [] then 0
    else
      var last := lines[|lines| - 1];
      NetOfLinesAt(lines[..|lines| - 1], rate) + if last.kind == Title || last.vatRate != rate then 0 else last.netCents
  }

  predicate PositionAt(lines: seq<Line>, rate: VatRate) {
    exists i :: 0 <= i < |lines| && lines[i].kind != Title && lines[i].vatRate == rate
  }

  function TaxedRate(rates: Rates, lines: seq<Line>): VatRate -> Option<RateTotal> {
    rate => if PositionAt(lines, rate) then Some(VatOn(rates, rate, NetOfLinesAt(lines, rate))) else None
  }

  /** The totals as a function of the lines: titles count nothing, and tax is worked out once per rate. */
  function Totals(rates: Rates, lines: seq<Line>, treatment: Treatment): Amount {
    var netCents := NetOfLines(lines);
    if treatment != StandardTax then Amount(netCents, 0, netCents, [])
    else
      var byRate := Listed(TaxedRate(rates, lines));
      Amount(netCents, Sum(byRate, Tax), netCents + Sum(byRate, Tax), byRate)
  }

  lemma {:induction false} LinesAreTheirRates(lines: seq<Line>)
    ensures NetOfLines(lines) == NetOfLinesAt(lines, Reduced) + NetOfLinesAt(lines, Standard) + NetOfLinesAt(lines, Zero)
  {
    if lines != [] {
      LinesAreTheirRates(lines[..|lines| - 1]);
    }
  }

  lemma {:induction false} NoPositionNoNet(lines: seq<Line>, rate: VatRate)
    ensures !PositionAt(lines, rate) ==> NetOfLinesAt(lines, rate) == 0
  {
    if lines != [] {
      var front, last := lines[..|lines| - 1], lines[|lines| - 1];
      NoPositionNoNet(front, rate);
      if i :| 0 <= i < |front| && front[i].kind != Title && front[i].vatRate == rate {
        assert lines[i] == front[i];
      }
    }
  }

  lemma NoTaxOnNothing(basisPoints: int)
    ensures ApplyRate(0, basisPoints) == 0
  {
    RoundOfWhole(0, 10_000);
  }

  lemma {:induction false} TaxedRateIs(rates: Rates, lines: seq<Line>, rate: VatRate)
    ensures var byRate := Listed(TaxedRate(rates, lines));
      && OfRate(byRate, rate, Net) == NetOfLinesAt(lines, rate)
      && OfRate(byRate, rate, Tax) == ApplyRate(NetOfLinesAt(lines, rate), rates(rate))
  {
    ListedHas(TaxedRate(rates, lines), rate, Net);
    ListedHas(TaxedRate(rates, lines), rate, Tax);
    if !PositionAt(lines, rate) {
      NoPositionNoNet(lines, rate);
      NoTaxOnNothing(rates(rate));
    }
  }

  lemma TaxedRatesAddUp(rates: Rates, lines: seq<Line>)
    ensures EntriesAddUp(Listed(TaxedRate(rates, lines)))
  {
    ListedHas(TaxedRate(rates, lines), Reduced, Net);
  }

  /** Whatever the lines, the totals add up, and each rate carries the net of its own positions and the tax on it. */
  lemma {:induction false} TotalsAddUp(rates: Rates, lines: seq<Line>, treatment: Treatment)
    ensures AddsUp(Totals(rates, lines, treatment), treatment)
    ensures treatment == StandardTax ==> forall rate ::
      && OfRate(Totals(rates, lines, treatment).byRate, rate, Net) == NetOfLinesAt(lines, rate)
      && IsRateOf(OfRate(Totals(rates, lines, treatment).byRate, rate, Tax), NetOfLinesAt(lines, rate), rates(rate))
  {
    forall rate ensures var byRate := Listed(TaxedRate(rates, lines));
      && OfRate(byRate, rate, Net) == NetOfLinesAt(lines, rate)
      && IsRateOf(OfRate(byRate, rate, Tax), NetOfLinesAt(lines, rate), rates(rate))
    {
      TaxedRateIs(rates, lines, rate);
      RateIsApplied(NetOfLinesAt(lines, rate), rates(rate));
    }
    TaxedRatesAddUp(rates, lines);
    SumIsOverTheRates(Listed(TaxedRate(rates, lines)), Net);
    LinesAreTheirRates(lines);
  }

  /** A figure is so many ten-thousandths of a net amount, to the nearest cent, and of two as near the one further from zero. */
  ghost predicate IsRateOf(taxCents: int, netCents: int, basisPoints: int) {
    && (netCents * basisPoints >= 0 ==> -10_000 <= 2 * (netCents * basisPoints) - 20_000 * taxCents < 10_000)
    && (netCents * basisPoints <= 0 ==> -10_000 < 2 * (netCents * basisPoints) - 20_000 * taxCents <= 10_000)
  }

  lemma RateIsApplied(netCents: int, basisPoints: int)
    ensures IsRateOf(ApplyRate(netCents, basisPoints), netCents, basisPoints)
  {
    HalfAwayIsTheNearest(netCents * basisPoints, 10_000, ApplyRate(netCents, basisPoints));
  }

  lemma VatIsRight(rates: Rates, rate: VatRate, netCents: int, entry: RateTotal)
    requires entry == VatOn(rates, rate, netCents)
    ensures entry.rate == rate && entry.basisPoints == rates(rate) && entry.netCents == netCents
    ensures entry.grossCents == netCents + entry.taxCents && IsRateOf(entry.taxCents, netCents, rates(rate))
  {
    RateIsApplied(netCents, rates(rate));
  }

  /** An entry of the totals: the positions of its rate, and the tax of the day on their sum. */
  ghost predicate IsEntry(rates: Rates, lines: seq<Line>, entry: RateTotal) {
    && PositionAt(lines, entry.rate) && entry.basisPoints == rates(entry.rate)
    && entry.netCents == NetOfLinesAt(lines, entry.rate) && entry.grossCents == entry.netCents + entry.taxCents
    && IsRateOf(entry.taxCents, entry.netCents, rates(entry.rate))
  }

  /** Under tax there is one entry for each rate that a position has, and no other. */
  lemma {:induction false} TaxIsRoundedOncePerRate(rates: Rates, lines: seq<Line>)
    ensures var byRate := Totals(rates, lines, StandardTax).byRate;
      && InOrder(byRate)
      && (forall i :: 0 <= i < |byRate| ==> IsEntry(rates, lines, byRate[i]))
      && (forall rate :: PositionAt(lines, rate) ==> HasRate(byRate, rate))
  {
    var of := TaxedRate(rates, lines);
    ListedInOrder(of, Zero);
    forall rate ensures HasRate(Listed(of), rate) <==> of(rate).Some? {
      ListedInOrder(of, rate);
    }
    forall i | 0 <= i < |Listed(of)| ensures IsEntry(rates, lines, Listed(of)[i]) {
      var entry := Listed(of)[i];
      assert of(entry.rate) == Some(entry);
      VatIsRight(rates, entry.rate, NetOfLinesAt(lines, entry.rate), entry);
    }
  }

  /** Quantities are in thousandths, and a price is for so many units. */
  lemma LineNetIsRoundedOnce(line: Line)
    requires line.priceBase > 0
    ensures var exact, whole, net := line.quantityMilli * line.unitPriceCents, 1000 * line.priceBase, LineNetCents(line);
      && (exact >= 0 ==> -whole <= 2 * exact - 2 * whole * net < whole)
      && (exact <= 0 ==> -whole < 2 * exact - 2 * whole * net <= whole)
  {
    HalfAwayIsTheNearest(line.quantityMilli * line.unitPriceCents, 1000 * line.priceBase, LineNetCents(line));
  }

  method NetPerRate(lines: seq<Line>) returns (netCents: int, netByRate: map<VatRate, int>)
    ensures netCents == NetOfLines(lines)
    ensures forall rate :: rate in netByRate <==> PositionAt(lines, rate)
    ensures forall rate :: rate in netByRate ==> netByRate[rate] == NetOfLinesAt(lines, rate)
  {
    netCents, netByRate := 0, map[];
    for i := 0 to |lines|
      invariant netCents == NetOfLines(lines[..i])
      invariant forall rate :: rate in netByRate <==> PositionAt(lines[..i], rate)
      invariant forall rate :: rate in netByRate ==> netByRate[rate] == NetOfLinesAt(lines[..i], rate)
    {
      NextLine(lines, i);
      var line := lines[i];
      if line.kind != Title {
        netCents := netCents + line.netCents;
        netByRate := netByRate[line.vatRate := (if line.vatRate in netByRate then netByRate[line.vatRate] else 0) + line.netCents];
      }
    }
    assert lines[..|lines|] == lines;
  }

  method SumOfTax(byRate: seq<RateTotal>) returns (taxCents: int)
    ensures taxCents == Sum(byRate, Tax)
  {
    taxCents := 0;
    for k := 0 to |byRate|
      invariant taxCents == Sum(byRate[..k], Tax)
    {
      assert byRate[..k + 1][..k] == byRate[..k];
      taxCents := taxCents + byRate[k].taxCents;
    }
    assert byRate[..|byRate|] == byRate;
  }

  method TotalsFor(rates: Rates, lines: seq<Line>, treatment: Treatment) returns (totals: Amount)
    ensures totals == Totals(rates, lines, treatment)
  {
    var netCents, netByRate := NetPerRate(lines);
    if treatment != StandardTax {
      return Amount(netCents, 0, netCents, []);
    }
    var byRate: seq<RateTotal> := [];
    for k := 0 to |RATES|
      invariant byRate == ListedUpTo(TaxedRate(rates, lines), k)
    {
      if RATES[k] in netByRate {
        byRate := byRate + [VatOn(rates, RATES[k], netByRate[RATES[k]])];
      }
    }
    var taxCents := SumOfTax(byRate);
    totals := Amount(netCents, taxCents, netCents + taxCents, byRate);
  }

  lemma NextLine(lines: seq<Line>, i: nat)
    requires i < |lines|
    ensures var before, upTo, line := lines[..i], lines[..i + 1], lines[i];
      && NetOfLines(upTo) == NetOfLines(before) + (if line.kind == Title then 0 else line.netCents)
      && forall rate ::
           && (PositionAt(upTo, rate) <==> PositionAt(before, rate) || (line.kind != Title && line.vatRate == rate))
           && NetOfLinesAt(upTo, rate)
              == NetOfLinesAt(before, rate) + (if line.kind == Title || line.vatRate != rate then 0 else line.netCents)
           && (!PositionAt(before, rate) ==> NetOfLinesAt(before, rate) == 0)
  {
    var before, upTo, line := lines[..i], lines[..i + 1], lines[i];
    assert upTo[..i] == before && upTo[i] == line;
    forall rate
      ensures PositionAt(upTo, rate) <==> PositionAt(before, rate) || (line.kind != Title && line.vatRate == rate)
      ensures !PositionAt(before, rate) ==> NetOfLinesAt(before, rate) == 0
    {
      NoPositionNoNet(before, rate);
      if PositionAt(before, rate) {
        var j :| 0 <= j < |before| && before[j].kind != Title && before[j].vatRate == rate;
        assert upTo[j] == before[j];
      }
      if PositionAt(upTo, rate) {
        var j :| 0 <= j < |upTo| && upTo[j].kind != Title && upTo[j].vatRate == rate;
        assert j < i ==> before[j] == upTo[j];
      }
    }
  }

  function ListedUpTo(of: VatRate -> Option<RateTotal>, k: nat): seq<RateTotal>
    requires k <= |RATES|
    ensures k == |RATES| ==> ListedUpTo(of, k) == Listed(of)
  {
    (if k > 0 then One(of(Reduced)) else []) + (if k > 1 then One(of(Standard)) else []) + (if k > 2 then One(of(Zero)) else [])
  }

  // --- What a document bills after deductions --------------------------------------------------------

  /** The figures of a deduction that count: payments, once they are on record, come before the bill. */
  function DeductedPart(deduction: Deducted): Amount {
    if deduction.received.Some? then deduction.received.value else deduction.billed
  }

  /** All entries the deductions take off, one after the other. */
  function Taken(deductions: seq<Deducted>): seq<RateTotal> {
    if deductions == [] then []
    else Taken(deductions[..|deductions| - 1]) + DeductedPart(deductions[|deductions| - 1]).byRate
  }

  function TakenNet(deductions: seq<Deducted>): int {
    if deductions == [] then 0
    else TakenNet(deductions[..|deductions| - 1]) + DeductedPart(deductions[|deductions| - 1]).netCents
  }

  function TakenTax(deductions: seq<Deducted>): int {
    if deductions == [] then 0
    else TakenTax(deductions[..|deductions| - 1]) + DeductedPart(deductions[|deductions| - 1]).taxCents
  }

  /** The basis points of the first entry with a rate: the document's own before any deduction's. */
  function FirstBasisPoints(entries: seq<RateTotal>, rate: VatRate): int {
    if entries == [] then 0
    else if entries[0].rate == rate then entries[0].basisPoints
    else FirstBasisPoints(entries[1..], rate)
  }

  /** What is left of a rate, where the document or a deduction has it. */
  function LeftOver(own: seq<RateTotal>, taken: seq<RateTotal>): VatRate -> Option<RateTotal> {
    rate =>
      if !HasRate(own, rate) && !HasRate(taken, rate) then None
      else
        var netCents := OfRate(own, rate, Net) - OfRate(taken, rate, Net);
        var taxCents := OfRate(own, rate, Tax) - OfRate(taken, rate, Tax);
        Some(RateTotal(rate, FirstBasisPoints(own + taken, rate), netCents, taxCents, netCents + taxCents))
  }

  /** What a document bills, as a function of its totals and its deductions. */
  function Billed(totals: Amount, deductions: seq<Deducted>): Amount {
    if deductions == [] then totals
    else
      var netCents, taxCents := totals.netCents - TakenNet(deductions), totals.taxCents - TakenTax(deductions);
      Amount(netCents, taxCents, netCents + taxCents, Listed(LeftOver(totals.byRate, Taken(deductions))))
  }

  datatype Open = Open(basisPoints: int, netCents: int, taxCents: int)

  /** What the map of rates holds once some entries are taken off the document's own. */
  ghost predicate LedgerIs(perRate: map<VatRate, Open>, own: seq<RateTotal>, taken: seq<RateTotal>) {
    forall rate ::
      && (rate in perRate <==> HasRate(own, rate) || HasRate(taken, rate))
      && (rate in perRate ==>
            perRate[rate] == Open(FirstBasisPoints(own + taken, rate), OfRate(own, rate, Net) - OfRate(taken, rate, Net),
                                  OfRate(own, rate, Tax) - OfRate(taken, rate, Tax)))
  }

  lemma {:induction false} FirstOfMore(entries: seq<RateTotal>, entry: RateTotal, rate: VatRate)
    ensures FirstBasisPoints(entries + [entry], rate)
         == if HasRate(entries, rate) then FirstBasisPoints(entries, rate)
            else if entry.rate == rate then entry.basisPoints else 0
  {
    if entries != [] {
      FirstOfMore(entries[1..], entry, rate);
      assert (entries + [entry])[1..] == entries[1..] + [entry];
      if i :| 0 <= i < |entries[1..]| && entries[1..][i].rate == rate {
        assert entries[i + 1].rate == rate;
      }
      if j :| 1 <= j < |entries| && entries[j].rate == rate {
        assert entries[1..][j - 1].rate == rate;
      }
    }
  }

  lemma HasRateOfBoth(a: seq<RateTotal>, b: seq<RateTotal>, rate: VatRate)
    ensures HasRate(a + b, rate) <==> HasRate(a, rate) || HasRate(b, rate)
  {
    if i :| 0 <= i < |a| && a[i].rate == rate {
      assert (a + b)[i] == a[i];
    }
    if i :| 0 <= i < |b| && b[i].rate == rate {
      assert (a + b)[|a| + i] == b[i];
    }
  }

  lemma {:induction false} OneMore(entries: seq<RateTotal>, entry: RateTotal, rate: VatRate, figure: Figure)
    ensures OfRate(entries + [entry], rate, figure)
         == OfRate(entries, rate, figure) + if entry.rate == rate then figure(entry) else 0
    ensures HasRate(entries + [entry], rate) <==> HasRate(entries, rate) || entry.rate == rate
  {
    assert (entries + [entry])[..|entries|] == entries;
    HasRateOfBoth(entries, [entry], rate);
    assert HasRate([entry], rate) <==> [entry][0].rate == rate;
  }

  lemma {:induction false} AbsentIsNothing(entries: seq<RateTotal>, rate: VatRate, figure: Figure)
    ensures !HasRate(entries, rate) ==> OfRate(entries, rate, figure) == 0
  {
    if entries != [] {
      var front, last := entries[..|entries| - 1], entries[|entries| - 1];
      AbsentIsNothing(front, rate, figure);
      assert entries == front + [last];
      OneMore(front, last, rate, figure);
    }
  }

  /** An entry of a deduction taken off what is open of its rate. */
  function TakeOff(perRate: map<VatRate, Open>, entry: RateTotal): map<VatRate, Open> {
    var current := if entry.rate in perRate then perRate[entry.rate] else Open(entry.basisPoints, 0, 0);
    perRate[entry.rate := Open(current.basisPoints, current.netCents - entry.netCents, current.taxCents - entry.taxCents)]
  }

  lemma TakeOffOne(perRate: map<VatRate, Open>, own: seq<RateTotal>, taken: seq<RateTotal>, entry: RateTotal)
    requires LedgerIs(perRate, own, taken)
    ensures LedgerIs(TakeOff(perRate, entry), own, taken + [entry])
  {
    forall rate ensures var m := TakeOff(perRate, entry);
      && (rate in m <==> HasRate(own, rate) || HasRate(taken + [entry], rate))
      && (rate in m ==>
            m[rate] == Open(FirstBasisPoints(own + (taken + [entry]), rate),
                            OfRate(own, rate, Net) - OfRate(taken + [entry], rate, Net),
                            OfRate(own, rate, Tax) - OfRate(taken + [entry], rate, Tax)))
    {
      OneMore(taken, entry, rate, Net);
      OneMore(taken, entry, rate, Tax);
      HasRateOfBoth(own, taken, rate);
      FirstOfMore(own + taken, entry, rate);
      assert own + (taken + [entry]) == own + taken + [entry];
      AbsentIsNothing(own, rate, Net);
      AbsentIsNothing(own, rate, Tax);
      AbsentIsNothing(taken, rate, Net);
      AbsentIsNothing(taken, rate, Tax);
    }
  }

  lemma PutOne(perRate: map<VatRate, Open>, own: seq<RateTotal>, entry: RateTotal)
    requires LedgerIs(perRate, own, []) && !HasRate(own, entry.rate)
    ensures LedgerIs(perRate[entry.rate := Open(entry.basisPoints, entry.netCents, entry.taxCents)], own + [entry], [])
  {
    forall rate ensures var m := perRate[entry.rate := Open(entry.basisPoints, entry.netCents, entry.taxCents)];
      && (rate in m <==> HasRate(own + [entry], rate) || HasRate([], rate))
      && (rate in m ==>
            m[rate] == Open(FirstBasisPoints(own + [entry] + [], rate),
                            OfRate(own + [entry], rate, Net) - OfRate([], rate, Net),
                            OfRate(own + [entry], rate, Tax) - OfRate([], rate, Tax)))
    {
      OneMore(own, entry, rate, Net);
      OneMore(own, entry, rate, Tax);
      FirstOfMore(own, entry, rate);
      assert own + [entry] + [] == own + [entry] && own + [] == own;
      AbsentIsNothing(own, rate, Net);
      AbsentIsNothing(own, rate, Tax);
    }
  }

  method OwnRates(own: seq<RateTotal>) returns (perRate: map<VatRate, Open>)
    requires InOrder(own)
    ensures LedgerIs(perRate, own, [])
  {
    perRate := map[];
    for i := 0 to |own|
      invariant LedgerIs(perRate, own[..i], [])
    {
      assert own[..i + 1] == own[..i] + [own[i]];
      PutOne(perRate, own[..i], own[i]);
      perRate := perRate[own[i].rate := Open(own[i].basisPoints, own[i].netCents, own[i].taxCents)];
    }
    assert own[..|own|] == own;
  }

  method TakeOffAll(own: seq<RateTotal>, start: map<VatRate, Open>, deductions: seq<Deducted>) returns (perRate: map<VatRate, Open>)
    requires LedgerIs(start, own, [])
    ensures LedgerIs(perRate, own, Taken(deductions))
  {
    perRate := start;
    for i := 0 to |deductions|
      invariant LedgerIs(perRate, own, Taken(deductions[..i]))
    {
      ghost var before := Taken(deductions[..i]);
      var part := DeductedPart(deductions[i]).byRate;
      assert before + part[..0] == before;
      for j := 0 to |part|
        invariant LedgerIs(perRate, own, before + part[..j])
      {
        TakeOffOne(perRate, own, before + part[..j], part[j]);
        assert before + part[..j] + [part[j]] == before + part[..j + 1];
        perRate := TakeOff(perRate, part[j]);
      }
      assert part[..|part|] == part && deductions[..i + 1][..i] == deductions[..i];
      assert Taken(deductions[..i + 1]) == before + part;
    }
    assert deductions[..|deductions|] == deductions;
  }

  method HeaderLeft(totals: Amount, deductions: seq<Deducted>) returns (netCents: int, taxCents: int)
    ensures netCents == totals.netCents - TakenNet(deductions) && taxCents == totals.taxCents - TakenTax(deductions)
  {
    netCents, taxCents := totals.netCents, totals.taxCents;
    for i := 0 to |deductions|
      invariant netCents == totals.netCents - TakenNet(deductions[..i])
      invariant taxCents == totals.taxCents - TakenTax(deductions[..i])
    {
      assert deductions[..i + 1][..i] == deductions[..i];
      netCents := netCents - DeductedPart(deductions[i]).netCents;
      taxCents := taxCents - DeductedPart(deductions[i]).taxCents;
    }
    assert deductions[..|deductions|] == deductions;
  }

  method FirstOdd(deductions: seq<Deducted>, treatment: Treatment) returns (i: nat)
    ensures i <= |deductions| && forall j :: 0 <= j < i ==> deductions[j].treatment == treatment
    ensures i < |deductions| ==> deductions[i].treatment != treatment
  {
    i := 0;
    while i < |deductions| && deductions[i].treatment == treatment
      invariant i <= |deductions| && forall j :: 0 <= j < i ==> deductions[j].treatment == treatment
    {
      i := i + 1;
    }
  }

  method RatesLeft(ghost own: seq<RateTotal>, ghost taken: seq<RateTotal>, perRate: map<VatRate, Open>)
    returns (byRate: seq<RateTotal>)
    requires LedgerIs(perRate, own, taken)
    ensures byRate == Listed(LeftOver(own, taken))
  {
    byRate := [];
    for k := 0 to |RATES|
      invariant byRate == ListedUpTo(LeftOver(own, taken), k)
    {
      if RATES[k] in perRate {
        var entry := perRate[RATES[k]];
        byRate := byRate + [RateTotal(RATES[k], entry.basisPoints, entry.netCents, entry.taxCents, entry.netCents + entry.taxCents)];
      }
    }
  }

  /** What a document bills, or the number of the first deduction that is taxed differently. */
  method BilledAfter(totals: Amount, deductions: seq<Deducted>, treatment: Treatment) returns (billed: Result<Amount, string>)
    requires InOrder(totals.byRate)
    ensures match billed
      case Success(amount) =>
        && (forall i :: 0 <= i < |deductions| ==> deductions[i].treatment == treatment)
        && amount == Billed(totals, deductions)
      case Failure(number) =>
        exists i :: 0 <= i < |deductions| && deductions[i].treatment != treatment && deductions[i].number == number
                    && forall j :: 0 <= j < i ==> deductions[j].treatment == treatment
  {
    var odd := FirstOdd(deductions, treatment);
    if odd < |deductions| {
      return Failure(deductions[odd].number);
    }
    if |deductions| == 0 {
      return Success(totals);
    }
    var perRate := OwnRates(totals.byRate);
    perRate := TakeOffAll(totals.byRate, perRate, deductions);
    var byRate := RatesLeft(totals.byRate, Taken(deductions), perRate);
    var netCents, taxCents := HeaderLeft(totals, deductions);
    billed := Success(Amount(netCents, taxCents, netCents + taxCents, byRate));
  }
}
