/** Cancelling an invoice: its mirror image, and why the two come to nothing. */
module Cancellations {
  import opened Wrappers
  import opened Rounding
  import opened Invoices
  import opened InvoiceChains

  datatype DocumentKind =
    | CostEstimate | Quote | OrderConfirmation | DeliveryNote | Report
    | ProgressInvoice | PartialInvoice | FinalInvoice | RecurringInvoice
    | CancellationInvoice | CreditNote

  datatype Correction = Correction(kind: DocumentKind, number: string, documentDate: int)

  /** What a document says, as far as a cancellation changes it or its figures hang together. */
  datatype Content = Content(
    kind: DocumentKind,
    number: Option<string>,
    documentDate: int,
    issuer: string,
    introText: Option<string>,
    closingText: Option<string>,
    treatment: Treatment,
    lines: seq<Line>,
    totals: Amount,
    deductions: seq<Deducted>,
    billed: Amount,
    signature: Option<string>,
    corrects: Option<Correction>,
    paymentTerm: Option<int>,
    instructions: seq<string>
  )

  datatype Facts = Facts(number: Option<string>, documentDate: int, issuer: string)

  predicate IsCancellable(kind: DocumentKind) {
    kind in {ProgressInvoice, PartialInvoice, FinalInvoice, RecurringInvoice}
  }

  function EntryTurned(entry: RateTotal): RateTotal {
    entry.(netCents := -entry.netCents, taxCents := -entry.taxCents, grossCents := -entry.grossCents)
  }

  function EntriesTurned(entries: seq<RateTotal>): (turned: seq<RateTotal>)
    ensures |turned| == |entries| && forall i :: 0 <= i < |entries| ==> turned[i] == EntryTurned(entries[i])
  {
    seq(|entries|, i requires 0 <= i < |entries| => EntryTurned(entries[i]))
  }

  function TurnedRound(amount: Amount): Amount {
    Amount(-amount.netCents, -amount.taxCents, -amount.grossCents, EntriesTurned(amount.byRate))
  }

  function LineTurned(line: Line): Line {
    line.(quantityMilli := -line.quantityMilli, netCents := -line.netCents)
  }

  function LinesTurned(lines: seq<Line>): (turned: seq<Line>)
    ensures |turned| == |lines| && forall i :: 0 <= i < |lines| ==> turned[i] == LineTurned(lines[i])
  {
    seq(|lines|, i requires 0 <= i < |lines| => LineTurned(lines[i]))
  }

  function DeductionTurned(deduction: Deducted): Deducted {
    deduction.(
      billed := TurnedRound(deduction.billed),
      received := if deduction.received.None? then None else Some(TurnedRound(deduction.received.value)))
  }

  function DeductionsTurned(deductions: seq<Deducted>): (turned: seq<Deducted>)
    ensures |turned| == |deductions| && forall i :: 0 <= i < |deductions| ==> turned[i] == DeductionTurned(deductions[i])
  {
    seq(|deductions|, i requires 0 <= i < |deductions| => DeductionTurned(deductions[i]))
  }

  /** The cancellation of a numbered invoice, or nothing for any other document. */
  function CancellationOf(original: Content, facts: Facts): (cancellation: Option<Content>) {
    if !IsCancellable(original.kind) || original.number.None? then None
    else Some(original.(
      kind := CancellationInvoice,
      number := facts.number,
      documentDate := facts.documentDate,
      introText := None,
      closingText := None,
      issuer := facts.issuer,
      lines := LinesTurned(original.lines),
      totals := TurnedRound(original.totals),
      deductions := DeductionsTurned(original.deductions),
      billed := TurnedRound(original.billed),
      signature := None,
      corrects := Some(Correction(original.kind, original.number.value, original.documentDate)),
      paymentTerm := None,
      instructions := []
    ))
  }

  // --- The arithmetic turned round -------------------------------------------------------------------

  lemma {:induction false} OfRateTurned(entries: seq<RateTotal>, rate: VatRate)
    ensures OfRate(EntriesTurned(entries), rate, Net) == -OfRate(entries, rate, Net)
    ensures OfRate(EntriesTurned(entries), rate, Tax) == -OfRate(entries, rate, Tax)
    ensures OfRate(EntriesTurned(entries), rate, Gross) == -OfRate(entries, rate, Gross)
    ensures HasRate(EntriesTurned(entries), rate) <==> HasRate(entries, rate)
    ensures FirstBasisPoints(EntriesTurned(entries), rate) == FirstBasisPoints(entries, rate)
  {
    if entries != [] {
      var n := |entries| - 1;
      OfRateTurned(entries[..n], rate);
      assert EntriesTurned(entries)[..n] == EntriesTurned(entries[..n]);
    }
    RatesTurned(entries, rate);
  }

  lemma {:induction false} RatesTurned(entries: seq<RateTotal>, rate: VatRate)
    ensures HasRate(EntriesTurned(entries), rate) <==> HasRate(entries, rate)
    ensures FirstBasisPoints(EntriesTurned(entries), rate) == FirstBasisPoints(entries, rate)
  {
    var turned := EntriesTurned(entries);
    if i :| 0 <= i < |entries| && entries[i].rate == rate {
      assert turned[i].rate == rate;
    }
    if entries != [] {
      RatesTurned(entries[1..], rate);
      assert turned[1..] == EntriesTurned(entries[1..]);
    }
  }

  lemma {:induction false} SumTurned(entries: seq<RateTotal>)
    ensures Sum(EntriesTurned(entries), Net) == -Sum(entries, Net) && Sum(EntriesTurned(entries), Tax) == -Sum(entries, Tax)
  {
    if entries != [] {
      var n := |entries| - 1;
      SumTurned(entries[..n]);
      assert EntriesTurned(entries)[..n] == EntriesTurned(entries[..n]);
    }
  }

  ghost predicate Mirrors(of: VatRate -> Option<RateTotal>, turned: VatRate -> Option<RateTotal>) {
    forall rate :: turned(rate) == if of(rate).None? then None else Some(EntryTurned(of(rate).value))
  }

  lemma ListedTurned(of: VatRate -> Option<RateTotal>, turned: VatRate -> Option<RateTotal>)
    requires Mirrors(of, turned)
    ensures Listed(turned) == EntriesTurned(Listed(of))
  {
    forall rate ensures One(turned(rate)) == EntriesTurned(One(of(rate))) {}
    BothTurned(One(of(Reduced)), One(of(Standard)));
    BothTurned(One(of(Reduced)) + One(of(Standard)), One(of(Zero)));
  }

  lemma BothTurned(a: seq<RateTotal>, b: seq<RateTotal>)
    ensures EntriesTurned(a + b) == EntriesTurned(a) + EntriesTurned(b)
  {}

  lemma {:induction false} LinesTurnedNet(lines: seq<Line>, rate: VatRate)
    ensures NetOfLines(LinesTurned(lines)) == -NetOfLines(lines)
    ensures NetOfLinesAt(LinesTurned(lines), rate) == -NetOfLinesAt(lines, rate)
  {
    if lines != [] {
      var n := |lines| - 1;
      LinesTurnedNet(lines[..n], rate);
      assert LinesTurned(lines)[..n] == LinesTurned(lines[..n]);
    }
  }

  lemma PositionsTurned(lines: seq<Line>, rate: VatRate)
    ensures PositionAt(LinesTurned(lines), rate) <==> PositionAt(lines, rate)
  {
    var turned := LinesTurned(lines);
    if i :| 0 <= i < |lines| && lines[i].kind != Title && lines[i].vatRate == rate {
      assert turned[i].kind != Title && turned[i].vatRate == rate;
    }
  }

  lemma VatTurned(rates: Rates, rate: VatRate, netCents: int)
    ensures VatOn(rates, rate, -netCents) == EntryTurned(VatOn(rates, rate, netCents))
  {
    HalfAwayIsOdd(netCents * rates(rate), 10_000);
    assert -netCents * rates(rate) == -(netCents * rates(rate));
  }

  /** The net of a line worked out again from the turned quantity is the turned net: the rounding has no side. */
  lemma LineNetTurned(line: Line)
    requires line.priceBase > 0
    ensures LineNetCents(LineTurned(line)) == -LineNetCents(line)
  {
    HalfAwayIsOdd(line.quantityMilli * line.unitPriceCents, 1000 * line.priceBase);
    assert -line.quantityMilli * line.unitPriceCents == -(line.quantityMilli * line.unitPriceCents);
  }

  lemma TaxedRateTurned(rates: Rates, lines: seq<Line>, rate: VatRate)
    ensures TaxedRate(rates, LinesTurned(lines))(rate)
         == var of := TaxedRate(rates, lines)(rate); if of.None? then None else Some(EntryTurned(of.value))
  {
    LinesTurnedNet(lines, rate);
    PositionsTurned(lines, rate);
    VatTurned(rates, rate, NetOfLinesAt(lines, rate));
  }

  /** Totals of turned lines are the turned totals. */
  lemma TotalsTurned(rates: Rates, lines: seq<Line>, treatment: Treatment)
    ensures Totals(rates, LinesTurned(lines), treatment) == TurnedRound(Totals(rates, lines, treatment))
  {
    var of, turned := TaxedRate(rates, lines), TaxedRate(rates, LinesTurned(lines));
    forall rate ensures turned(rate) == if of(rate).None? then None else Some(EntryTurned(of(rate).value)) {
      TaxedRateTurned(rates, lines, rate);
    }
    ListedTurned(of, turned);
    LinesTurnedNet(lines, Standard);
    SumTurned(Listed(of));
  }

  lemma {:induction false} TakenTurned(deductions: seq<Deducted>)
    ensures Taken(DeductionsTurned(deductions)) == EntriesTurned(Taken(deductions))
    ensures TakenNet(DeductionsTurned(deductions)) == -TakenNet(deductions)
    ensures TakenTax(DeductionsTurned(deductions)) == -TakenTax(deductions)
  {
    if deductions != [] {
      var n := |deductions| - 1;
      TakenTurned(deductions[..n]);
      assert DeductionsTurned(deductions)[..n] == DeductionsTurned(deductions[..n]);
      BothTurned(Taken(deductions[..n]), DeductedPart(deductions[n]).byRate);
    }
  }

  lemma LeftOverTurned(own: seq<RateTotal>, taken: seq<RateTotal>, rate: VatRate)
    ensures LeftOver(EntriesTurned(own), EntriesTurned(taken))(rate)
         == var of := LeftOver(own, taken)(rate); if of.None? then None else Some(EntryTurned(of.value))
  {
    OfRateTurned(own, rate);
    OfRateTurned(taken, rate);
    OfRateTurned(own + taken, rate);
    BothTurned(own, taken);
  }

  /** What turned totals bill after turned deductions is the turned bill. */
  lemma BilledTurned(totals: Amount, deductions: seq<Deducted>)
    ensures Billed(TurnedRound(totals), DeductionsTurned(deductions)) == TurnedRound(Billed(totals, deductions))
  {
    TakenTurned(deductions);
    var of := LeftOver(totals.byRate, Taken(deductions));
    var turned := LeftOver(EntriesTurned(totals.byRate), EntriesTurned(Taken(deductions)));
    forall rate ensures turned(rate) == if of(rate).None? then None else Some(EntryTurned(of(rate).value)) {
      LeftOverTurned(totals.byRate, Taken(deductions), rate);
    }
    ListedTurned(of, turned);
  }

  // --- What a cancellation is ------------------------------------------------------------------------

  /** The figures of a document are those its lines and deductions come to by the rates of its day. */
  ghost predicate FiguresFollow(rates: Rates, content: Content) {
    && (forall i :: 0 <= i < |content.lines| ==>
          content.lines[i].priceBase > 0 && content.lines[i].netCents == LineNetCents(content.lines[i]))
    && content.totals == Totals(rates, content.lines, content.treatment)
    && content.billed == Billed(content.totals, content.deductions)
  }

  /**
   * Mirroring commutes with the arithmetic: worked out again from its own
   * quantities and deductions, a cancellation comes to the figures it mirrors.
   */
  lemma CancellationFollows(rates: Rates, original: Content, facts: Facts)
    requires FiguresFollow(rates, original) && CancellationOf(original, facts).Some?
    ensures FiguresFollow(rates, CancellationOf(original, facts).value)
  {
    var lines := LinesTurned(original.lines);
    forall i | 0 <= i < |lines| ensures lines[i].priceBase > 0 && lines[i].netCents == LineNetCents(lines[i]) {
      LineNetTurned(original.lines[i]);
    }
    TotalsTurned(rates, original.lines, original.treatment);
    BilledTurned(original.totals, original.deductions);
  }

  ghost predicate TakesBack(a: Amount, b: Amount) {
    && a.netCents + b.netCents == 0 && a.taxCents + b.taxCents == 0 && a.grossCents + b.grossCents == 0
    && forall rate ::
         && OfRate(a.byRate, rate, Net) + OfRate(b.byRate, rate, Net) == 0
         && OfRate(a.byRate, rate, Tax) + OfRate(b.byRate, rate, Tax) == 0
         && OfRate(a.byRate, rate, Gross) + OfRate(b.byRate, rate, Gross) == 0
         && FirstBasisPoints(a.byRate, rate) == FirstBasisPoints(b.byRate, rate)
  }

  lemma TurnedTakesBack(amount: Amount)
    ensures TakesBack(amount, TurnedRound(amount))
  {
    forall rate
      ensures var turned := EntriesTurned(amount.byRate);
        && OfRate(amount.byRate, rate, Net) + OfRate(turned, rate, Net) == 0
        && OfRate(amount.byRate, rate, Tax) + OfRate(turned, rate, Tax) == 0
        && OfRate(amount.byRate, rate, Gross) + OfRate(turned, rate, Gross) == 0
        && FirstBasisPoints(amount.byRate, rate) == FirstBasisPoints(turned, rate)
    {
      OfRateTurned(amount.byRate, rate);
    }
  }

  /**
   * An invoice and its cancellation come to nothing, in every line, rate,
   * deduction and header, and the cancellation cannot be cancelled again.
   */
  lemma CancellationTakesBack(original: Content, facts: Facts, again: Facts)
    requires CancellationOf(original, facts).Some?
    ensures CancellationOf(CancellationOf(original, facts).value, again).None?
    ensures var c := CancellationOf(original, facts).value;
      && TakesBack(original.totals, c.totals) && TakesBack(original.billed, c.billed)
      && |c.lines| == |original.lines| && |c.deductions| == |original.deductions|
      && (forall i :: 0 <= i < |c.lines| ==>
            && original.lines[i].netCents + c.lines[i].netCents == 0
            && original.lines[i].quantityMilli + c.lines[i].quantityMilli == 0
            && original.lines[i].unitPriceCents == c.lines[i].unitPriceCents)
      && (forall i :: 0 <= i < |c.deductions| ==>
            TakesBack(DeductedPart(original.deductions[i]), DeductedPart(c.deductions[i])))
  {
    TurnedTakesBack(original.totals);
    TurnedTakesBack(original.billed);
    forall i | 0 <= i < |original.deductions|
      ensures var turned := DeductionsTurned(original.deductions);
        TakesBack(DeductedPart(original.deductions[i]), DeductedPart(turned[i]))
    {
      TurnedTakesBack(DeductedPart(original.deductions[i]));
    }
  }
}
