/** Selling prices that follow a purchase price: the edit of the held prices, and what applies after it. */
module Prices {
  import opened Wrappers
  import opened Sorting
  import Calendar

  type Day = Calendar.Day

  datatype Price = Price(validFrom: Day, cents: int, priceBase: int)

  /** A held selling price and the name it is removed by. */
  datatype Held = Held(price: Price, id: string)

  datatype Followed = Followed(price: Price, purchaseCents: int, basisPoints: int)

  datatype Edit = Edit(removed: seq<string>, added: seq<Followed>)

  const PRICE_CENTS_MAX := 99_999_999

  function DayOf(price: Price): Day {
    price.validFrom
  }

  function HeldDay(held: Held): Day {
    held.price.validFrom
  }

  /** The price with the markup on it in whole cents, unless it exceeds the largest price allowed. */
  function SellingCents(purchaseCents: int, basisPoints: int): (cents: Option<int>) {
    var cents := (purchaseCents * (10_000 + basisPoints) + 5_000) / 10_000;
    if cents > PRICE_CENTS_MAX then None else Some(cents)
  }

  /** At most one price a day, as the tables of prices hold it. */
  ghost predicate OneADay(prices: seq<Price>) {
    DistinctKeys(prices, DayOf)
  }

  ghost predicate OneNameEach(selling: seq<Held>) {
    forall i, j :: 0 <= i < j < |selling| ==> selling[i].id != selling[j].id
  }

  function PricesOf(selling: seq<Held>): (prices: seq<Price>)
    ensures |prices| == |selling| && forall i :: 0 <= i < |selling| ==> prices[i] == selling[i].price
  {
    seq(|selling|, i requires 0 <= i < |selling| => selling[i].price)
  }

  // --- The price of a day ------------------------------------------------------------------------

  /** What a lookup by day has to find, in whatever order the prices are held. */
  ghost predicate Applies(prices: seq<Price>, day: Day, found: Option<Price>) {
    match found
    case None => forall p :: p in prices ==> p.validFrom > day
    case Some(price) =>
      && price in prices && price.validFrom <= day
      && forall p :: p in prices && p.validFrom <= day ==> p.validFrom <= price.validFrom
  }

  method PriceOn(prices: seq<Price>, day: Day) returns (found: Option<Price>)
    ensures Applies(prices, day, found)
  {
    found := None;
    for i := 0 to |prices|
      invariant Applies(prices[..i], day, found)
    {
      assert prices[..i + 1] == prices[..i] + [prices[i]];
      if prices[i].validFrom <= day && (found.None? || prices[i].validFrom > found.value.validFrom) {
        found := Some(prices[i]);
      }
    }
    assert prices[..|prices|] == prices;
  }

  /** With one price a day there is one answer. */
  lemma OnePriceApplies(prices: seq<Price>, day: Day, a: Option<Price>, b: Option<Price>)
    requires OneADay(prices) && Applies(prices, day, a) && Applies(prices, day, b)
    ensures a == b
  {
    if a.Some? && b.Some? {
      var i :| 0 <= i < |prices| && prices[i] == a.value;
      var j :| 0 <= j < |prices| && prices[j] == b.value;
      assert DayOf(prices[i]) == DayOf(prices[j]);
    }
  }

  // --- The edit ------------------------------------------------------------------------------------

  /** The last of prices sorted by day that begins on or before a day. */
  function LastUpTo(sorted: seq<Price>, day: Day): Option<Price> {
    if sorted == [] then None
    else if sorted[|sorted| - 1].validFrom <= day then Some(sorted[|sorted| - 1])
    else LastUpTo(sorted[..|sorted| - 1], day)
  }

  /** The days of the sorted prices that begin after a day. */
  function LaterDays(sorted: seq<Price>, from: Day): seq<Day> {
    if sorted == [] then []
    else
      var before, last := LaterDays(sorted[..|sorted| - 1], from), sorted[|sorted| - 1].validFrom;
      if last > from then before + [last] else before
  }

  /** The days a price may change on: the day itself and every later day of a purchase price. */
  function ChangeDays(sorted: seq<Price>, from: Day): seq<Day> {
    [from] + LaterDays(sorted, from)
  }

  /** The price a day should have by its purchase price, with what it comes from, where there is one to be had. */
  function Due(sorted: seq<Price>, markup: int, day: Day): (due: Option<Followed>)
    ensures due.Some? ==> due.value.price.validFrom == day
  {
    match LastUpTo(sorted, day)
    case None => None
    case Some(purchase) =>
      match SellingCents(purchase.cents, markup)
      case None => None
      case Some(cents) => Some(Followed(Price(day, cents, purchase.priceBase), purchase.cents, markup))
  }

  type DueOn = Day -> Option<Followed>

  function DueFrom(sorted: seq<Price>, markup: int): (due: DueOn)
    ensures Dated(due)
  {
    day => Due(sorted, markup, day)
  }

  ghost predicate Dated(due: DueOn) {
    forall day :: due(day).Some? ==> due(day).value.price.validFrom == day
  }

  predicate SameMoney(a: Price, b: Price) {
    a.cents == b.cents && a.priceBase == b.priceBase
  }

  /** The prices wanted on some days, one after the other, after the price in force before them. */
  function Wanted(due: DueOn, days: seq<Day>, last: Option<Price>): seq<Followed> {
    if days == [] then []
    else
      var next := due(days[0]);
      if next.None? || (last.Some? && SameMoney(last.value, next.value.price)) then Wanted(due, days[1..], last)
      else [next.value] + Wanted(due, days[1..], Some(next.value.price))
  }

  function IsHeld(held: seq<Held>, price: Price): Option<Held> {
    if held == [] then None
    else if held[0].price == price then Some(held[0])
    else IsHeld(held[1..], price)
  }

  function Added(held: seq<Held>, wanted: seq<Followed>): seq<Followed> {
    if wanted == [] then []
    else
      var before, last := Added(held, wanted[..|wanted| - 1]), wanted[|wanted| - 1];
      if IsHeld(held, last.price).None? then before + [last] else before
  }

  function Kept(held: seq<Held>, wanted: seq<Followed>): set<string> {
    if wanted == [] then {}
    else
      var before, same := Kept(held, wanted[..|wanted| - 1]), IsHeld(held, wanted[|wanted| - 1].price);
      if same.Some? then before + {same.value.id} else before
  }

  function Removed(held: seq<Held>, from: Day, kept: set<string>): seq<string> {
    if held == [] then []
    else
      var before, last := Removed(held[..|held| - 1], from, kept), held[|held| - 1];
      if last.price.validFrom >= from && last.id !in kept then before + [last.id] else before
  }

  /** The edit as a function of its inputs. */
  function Change(from: Day, purchases: seq<Price>, selling: seq<Held>, markup: Option<int>): Edit {
    var sorted, held := SortBy(purchases, DayOf), SortBy(selling, HeldDay);
    var days := ChangeDays(sorted, from);
    if markup.None? || forall day :: day in days ==> LastUpTo(sorted, day).None? then Edit([], [])
    else
      var wanted := Wanted(DueFrom(sorted, markup.value), days, LastUpTo(PricesOf(held), from - 1));
      Edit(Removed(held, from, Kept(held, wanted)), Added(held, wanted))
  }

  method WantedPrices(sorted: seq<Price>, markup: int, days: seq<Day>, before: Option<Price>) returns (wanted: seq<Followed>)
    ensures wanted == Wanted(DueFrom(sorted, markup), days, before)
  {
    ghost var due := DueFrom(sorted, markup);
    var last := before;
    wanted := [];
    for i := 0 to |days|
      invariant wanted + Wanted(due, days[i..], last) == Wanted(due, days, before)
    {
      assert days[i..][1..] == days[i + 1..];
      var purchase := LastUpTo(sorted, days[i]);
      if purchase.Some? {
        var cents := SellingCents(purchase.value.cents, markup);
        if cents.Some? && !(last.Some? && last.value.cents == cents.value && last.value.priceBase == purchase.value.priceBase) {
          last := Some(Price(days[i], cents.value, purchase.value.priceBase));
          wanted := wanted + [Followed(last.value, purchase.value.cents, markup)];
        }
      }
    }
  }

  method AgainstHeld(held: seq<Held>, wanted: seq<Followed>) returns (added: seq<Followed>, kept: set<string>)
    ensures added == Added(held, wanted) && kept == Kept(held, wanted)
  {
    added, kept := [], {};
    for i := 0 to |wanted|
      invariant added == Added(held, wanted[..i]) && kept == Kept(held, wanted[..i])
    {
      ghost var upTo := wanted[..i + 1];
      assert upTo[..i] == wanted[..i] && upTo[i] == wanted[i];
      var same := IsHeld(held, wanted[i].price);
      if same.Some? {
        kept := kept + {same.value.id};
      } else {
        added := added + [wanted[i]];
      }
    }
    assert wanted[..|wanted|] == wanted;
  }

  method GivingWay(held: seq<Held>, from: Day, kept: set<string>) returns (removed: seq<string>)
    ensures removed == Removed(held, from, kept)
  {
    removed := [];
    for i := 0 to |held|
      invariant removed == Removed(held[..i], from, kept)
    {
      assert held[..i + 1][..i] == held[..i];
      if held[i].price.validFrom >= from && held[i].id !in kept {
        removed := removed + [held[i].id];
      }
    }
    assert held[..|held|] == held;
  }

  method FollowedPrices(from: Day, purchases: seq<Price>, selling: seq<Held>, markup: Option<int>) returns (edit: Edit)
    ensures edit == Change(from, purchases, selling, markup)
  {
    var sorted := SortBy(purchases, DayOf);
    var days := ChangeDays(sorted, from);
    if markup.None? || forall day :: day in days ==> LastUpTo(sorted, day).None? {
      return Edit([], []);
    }
    var held := SortBy(selling, HeldDay);
    var wanted := WantedPrices(sorted, markup.value, days, LastUpTo(PricesOf(held), from - 1));
    var added, kept := AgainstHeld(held, wanted);
    var removed := GivingWay(held, from, kept);
    edit := Edit(removed, added);
  }

  // --- What applies after the edit ------------------------------------------------------------------

  /** The price in force on a day among wanted prices in order, after the one in force before them. */
  function Latest(wanted: seq<Followed>, last: Option<Price>, day: Day): Option<Price> {
    if wanted == [] || wanted[0].price.validFrom > day then last
    else Latest(wanted[1..], Some(wanted[0].price), day)
  }

  ghost predicate InOrderFrom(wanted: seq<Followed>, from: Day) {
    && (forall i :: 0 <= i < |wanted| ==> from <= wanted[i].price.validFrom)
    && (forall i, j :: 0 <= i < j < |wanted| ==> wanted[i].price.validFrom < wanted[j].price.validFrom)
  }

  lemma {:induction false} WantedInOrder(due: DueOn, days: seq<Day>, last: Option<Price>)
    requires Ascending(days) && days != [] && Dated(due)
    ensures InOrderFrom(Wanted(due, days, last), days[0])
  {
    if |days| > 1 {
      WantedInOrder(due, days[1..], last);
      if due(days[0]).Some? {
        WantedInOrder(due, days[1..], Some(due(days[0]).value.price));
      }
    }
  }

  /** The price in force once one change day is dealt with. */
  function Next(due: DueOn, day: Day, last: Option<Price>): Option<Price> {
    if due(day).None? || (last.Some? && SameMoney(last.value, due(day).value.price)) then last
    else Some(due(day).value.price)
  }

  /**
   * Between two change days the price in force is the one due on the first of
   * them, and where none is to be had the one in force the day before.
   */
  lemma {:induction false} BetweenChangeDays(due: DueOn, days: seq<Day>, last: Option<Price>, k: nat, day: Day)
    requires Ascending(days) && Dated(due) && k < |days| && days[k] <= day && (k + 1 < |days| ==> day < days[k + 1])
    ensures var wanted := Wanted(due, days, last);
      if due(days[k]).Some? then
        Latest(wanted, last, day).Some? && SameMoney(Latest(wanted, last, day).value, due(days[k]).value.price)
      else Latest(wanted, last, day) == Latest(wanted, last, days[k] - 1)
    decreases |days|
  {
    var next := Next(due, days[0], last);
    if k > 0 {
      BetweenChangeDays(due, days[1..], next, k - 1, day);
    }
    if |days| > 1 {
      WantedInOrder(due, days[1..], next);
    }
  }

  lemma {:induction false} LastUpToApplies(sorted: seq<Price>, day: Day)
    requires StrictlyInOrder(sorted, DayOf)
    ensures Applies(sorted, day, LastUpTo(sorted, day))
  {
    if sorted != [] {
      var front, last := sorted[..|sorted| - 1], sorted[|sorted| - 1];
      assert sorted == front + [last];
      forall p | p in sorted ensures DayOf(p) <= DayOf(last) {
        var i :| 0 <= i < |sorted| && sorted[i] == p;
      }
      LastUpToApplies(front, day);
    }
  }

  lemma {:induction false} NothingBetween(sorted: seq<Price>, day: Day, later: Day)
    requires day <= later && forall p :: p in sorted ==> p.validFrom <= day || later < p.validFrom
    ensures LastUpTo(sorted, day) == LastUpTo(sorted, later)
  {
    if sorted != [] {
      assert sorted[|sorted| - 1] in sorted;
      NothingBetween(sorted[..|sorted| - 1], day, later);
    }
  }

  lemma {:induction false} LaterDaysAre(sorted: seq<Price>, from: Day)
    requires StrictlyInOrder(sorted, DayOf)
    ensures Ascending(ChangeDays(sorted, from))
    ensures forall d :: d in LaterDays(sorted, from) <==> d > from && exists p :: p in sorted && p.validFrom == d
  {
    if sorted != [] {
      var front, last := sorted[..|sorted| - 1], sorted[|sorted| - 1];
      assert sorted == front + [last];
      LaterDaysAre(front, from);
      var before := LaterDays(front, from);
      forall d | d in before ensures from < d < DayOf(last) {
        var p :| p in front && p.validFrom == d;
        var i :| 0 <= i < |front| && front[i] == p;
        assert DayOf(sorted[i]) < DayOf(last);
      }
      assert forall i | 0 <= i < |before| :: before[i] in before;
      assert DayOf(last) > from ==> ChangeDays(sorted, from) == ChangeDays(front, from) + [DayOf(last)];
    }
  }

  /** The change day a day belongs to. */
  lemma ChangeDayOf(sorted: seq<Price>, from: Day, day: Day) returns (k: nat)
    requires StrictlyInOrder(sorted, DayOf) && from <= day
    ensures var days := ChangeDays(sorted, from);
      && k < |days| && days[k] <= day && (k + 1 < |days| ==> day < days[k + 1])
      && LastUpTo(sorted, days[k]) == LastUpTo(sorted, day)
      && (days[k] == from || exists p :: p in sorted && p.validFrom == days[k] && LastUpTo(sorted, day) == Some(p))
  {
    var days := ChangeDays(sorted, from);
    LaterDaysAre(sorted, from);
    k := |days| - 1;
    while days[k] > day
      invariant k < |days| && (k + 1 < |days| ==> day < days[k + 1])
    {
      k := k - 1;
    }
    forall p | p in sorted ensures p.validFrom <= days[k] || day < p.validFrom {
      if p.validFrom > from {
        assert p.validFrom in LaterDays(sorted, from) && p.validFrom in days;
        var i :| 0 <= i < |days| && days[i] == p.validFrom;
      }
    }
    NothingBetween(sorted, days[k], day);
    if days[k] != from {
      assert days[k] in LaterDays(sorted, from);
      var p :| p in sorted && p.validFrom == days[k];
      LastUpToApplies(sorted, days[k]);
      OnePriceApplies(sorted, days[k], Some(p), LastUpTo(sorted, days[k]));
    }
  }

  // --- The held prices after the edit ----------------------------------------------------------------

  function Staying(selling: seq<Held>, removed: seq<string>): seq<Price> {
    if selling == [] then []
    else
      var before, last := Staying(selling[..|selling| - 1], removed), selling[|selling| - 1];
      if last.id in removed then before else before + [last.price]
  }

  function NewPrices(added: seq<Followed>): (prices: seq<Price>)
    ensures |prices| == |added| && forall i :: 0 <= i < |added| ==> prices[i] == added[i].price
  {
    seq(|added|, i requires 0 <= i < |added| => added[i].price)
  }

  /** The selling prices once the removed are gone and the added have come. */
  function After(selling: seq<Held>, edit: Edit): seq<Price> {
    Staying(selling, edit.removed) + NewPrices(edit.added)
  }

  lemma {:induction false} StayingAre(selling: seq<Held>, removed: seq<string>)
    ensures forall p :: p in Staying(selling, removed) <==> exists h :: h in selling && h.price == p && h.id !in removed
    ensures OneADay(PricesOf(selling)) ==> OneADay(Staying(selling, removed))
  {
    if selling != [] {
      var front, last := selling[..|selling| - 1], selling[|selling| - 1];
      assert selling == front + [last];
      StayingAre(front, removed);
      if OneADay(PricesOf(selling)) {
        var all := PricesOf(selling);
        forall i, j | 0 <= i < j < |front| ensures DayOf(PricesOf(front)[i]) != DayOf(PricesOf(front)[j]) {
          assert DayOf(all[i]) != DayOf(all[j]);
        }
        forall p | p in Staying(front, removed) ensures DayOf(p) != DayOf(last.price) {
          var h :| h in front && h.price == p;
          var i :| 0 <= i < |front| && front[i] == h;
          assert DayOf(all[i]) != DayOf(all[|front|]);
        }
        var before := Staying(front, removed);
        assert forall i | 0 <= i < |before| :: before[i] in before;
      }
    }
  }

  lemma {:induction false} RemovedAre(held: seq<Held>, from: Day, kept: set<string>)
    ensures forall id :: id in Removed(held, from, kept) <==>
      id !in kept && exists h :: h in held && h.id == id && h.price.validFrom >= from
  {
    if held != [] {
      var front, last := held[..|held| - 1], held[|held| - 1];
      assert held == front + [last];
      RemovedAre(front, from, kept);
    }
  }

  lemma {:induction false} IsHeldFinds(held: seq<Held>, price: Price)
    ensures IsHeld(held, price).Some? ==> IsHeld(held, price).value in held && IsHeld(held, price).value.price == price
    ensures IsHeld(held, price).None? <==> forall h :: h in held ==> h.price != price
  {
    if held != [] {
      IsHeldFinds(held[1..], price);
      assert held == [held[0]] + held[1..];
    }
  }

  lemma {:induction false} AddedAre(held: seq<Held>, wanted: seq<Followed>)
    ensures forall w :: w in Added(held, wanted) <==> w in wanted && IsHeld(held, w.price).None?
    ensures forall from :: InOrderFrom(wanted, from) ==> InOrderFrom(Added(held, wanted), from)
  {
    if wanted != [] {
      var front, last := wanted[..|wanted| - 1], wanted[|wanted| - 1];
      assert wanted == front + [last];
      AddedAre(held, front);
      var before := Added(held, front);
      forall from | InOrderFrom(wanted, from) ensures InOrderFrom(Added(held, wanted), from) {
        assert InOrderFrom(front, from);
        forall i | 0 <= i < |before| ensures before[i].price.validFrom < last.price.validFrom {
          assert before[i] in before;
        }
      }
    }
  }

  lemma {:induction false} KeptAre(held: seq<Held>, wanted: seq<Followed>)
    ensures forall id :: id in Kept(held, wanted) <==>
      exists w :: w in wanted && IsHeld(held, w.price).Some? && IsHeld(held, w.price).value.id == id
  {
    if wanted != [] {
      var front, last := wanted[..|wanted| - 1], wanted[|wanted| - 1];
      assert wanted == front + [last];
      KeptAre(held, front);
    }
  }

  ghost predicate Asked(wanted: seq<Followed>, price: Price) {
    exists w :: w in wanted && w.price == price
  }

  /** A held price from the day on stays exactly where it is a wanted one. */
  lemma {:induction false} StaysIfWanted(from: Day, selling: seq<Held>, held: seq<Held>, wanted: seq<Followed>, h: Held)
    requires OneADay(PricesOf(selling)) && OneNameEach(selling) && h in selling
    requires forall g :: g in held <==> g in selling
    ensures h.id !in Removed(held, from, Kept(held, wanted)) <==> h.price.validFrom < from || Asked(wanted, h.price)
  {
    RemovedAre(held, from, Kept(held, wanted));
    KeptAre(held, wanted);
    forall g | g in held && (g.id == h.id || g.price == h.price) ensures g == h {
      var i :| 0 <= i < |selling| && selling[i] == g;
      var j :| 0 <= j < |selling| && selling[j] == h;
      assert DayOf(PricesOf(selling)[i]) == HeldDay(g) && DayOf(PricesOf(selling)[j]) == HeldDay(h);
    }
    forall w | w in wanted ensures IsHeld(held, w.price).Some? ==> (IsHeld(held, w.price).value.id == h.id <==> w.price == h.price) {
      IsHeldFinds(held, w.price);
    }
    if Asked(wanted, h.price) {
      IsHeldFinds(held, h.price);
    }
  }

  lemma {:induction false} AfterHas(from: Day, selling: seq<Held>, held: seq<Held>, wanted: seq<Followed>)
    requires OneADay(PricesOf(selling)) && OneNameEach(selling) && InOrderFrom(wanted, from)
    requires forall g :: g in held <==> g in selling
    ensures var after := After(selling, Edit(Removed(held, from, Kept(held, wanted)), Added(held, wanted)));
      && (forall p :: p in after <==> (p in PricesOf(selling) && p.validFrom < from) || Asked(wanted, p))
      && OneADay(after)
  {
    var removed, added := Removed(held, from, Kept(held, wanted)), Added(held, wanted);
    var staying, coming := Staying(selling, removed), NewPrices(added);
    StayingAre(selling, removed);
    AddedAre(held, wanted);
    forall h | h in selling ensures h.id !in removed <==> h.price.validFrom < from || Asked(wanted, h.price) {
      StaysIfWanted(from, selling, held, wanted, h);
    }
    forall w | w in wanted ensures IsHeld(held, w.price).None? <==> w.price !in PricesOf(selling) {
      IsHeldFinds(held, w.price);
      HeldPrices(selling, w.price);
    }
    forall p ensures p in coming <==> Asked(wanted, p) && p !in PricesOf(selling) {
      NewPricesAre(added, p);
    }
    forall p ensures p in PricesOf(selling) <==> exists h :: h in selling && h.price == p {
      HeldPrices(selling, p);
    }
    OneADayTogether(from, wanted, staying, coming, added);
  }

  lemma HeldPrices(selling: seq<Held>, price: Price)
    ensures price in PricesOf(selling) <==> exists h :: h in selling && h.price == price
  {
    if h :| h in selling && h.price == price {
      var i :| 0 <= i < |selling| && selling[i] == h;
      assert PricesOf(selling)[i] == price;
    }
  }

  lemma NewPricesAre(added: seq<Followed>, price: Price)
    ensures price in NewPrices(added) <==> Asked(added, price)
  {
    if w :| w in added && w.price == price {
      var i :| 0 <= i < |added| && added[i] == w;
      assert NewPrices(added)[i] == price;
    }
  }

  lemma OneADayTogether(from: Day, wanted: seq<Followed>, staying: seq<Price>, coming: seq<Price>, added: seq<Followed>)
    requires InOrderFrom(wanted, from) && InOrderFrom(added, from) && coming == NewPrices(added) && OneADay(staying)
    requires forall p :: p in staying ==> p.validFrom < from || Asked(wanted, p)
    requires forall p :: p in coming ==> Asked(wanted, p) && p !in staying
    ensures OneADay(staying + coming)
  {
    forall p, q | p in staying && q in coming ensures DayOf(p) != DayOf(q) {
      var w :| w in wanted && w.price == q;
      var i :| 0 <= i < |wanted| && wanted[i] == w;
      if p.validFrom >= from {
        var v :| v in wanted && v.price == p;
        var j :| 0 <= j < |wanted| && wanted[j] == v;
      }
    }
    var all := staying + coming;
    forall i, j | 0 <= i < j < |all| ensures DayOf(all[i]) != DayOf(all[j]) {
      if i < |staying| <= j {
        assert all[i] in staying && all[j] in coming;
      }
    }
  }

  // --- What the edit promises ------------------------------------------------------------------------

  ghost predicate Tables(purchases: seq<Price>, selling: seq<Held>) {
    OneADay(purchases) && OneADay(PricesOf(selling)) && OneNameEach(selling)
  }

  ghost function PriceBefore(from: Day, selling: seq<Held>): Option<Price> {
    LastUpTo(PricesOf(SortBy(selling, HeldDay)), from - 1)
  }

  ghost function WantedFrom(from: Day, purchases: seq<Price>, selling: seq<Held>, markup: int): seq<Followed> {
    var sorted := SortBy(purchases, DayOf);
    Wanted(DueFrom(sorted, markup), ChangeDays(sorted, from), PriceBefore(from, selling))
  }

  lemma {:induction false} SortedTables(purchases: seq<Price>, selling: seq<Held>)
    requires Tables(purchases, selling)
    ensures var sorted := SortBy(purchases, DayOf);
      StrictlyInOrder(sorted, DayOf) && forall p :: p in sorted <==> p in purchases
    ensures var held := SortBy(selling, HeldDay);
      && (forall h :: h in held <==> h in selling)
      && StrictlyInOrder(PricesOf(held), DayOf) && (forall p :: p in PricesOf(held) <==> p in PricesOf(selling))
  {
    SortByOrdersStrictly(purchases, DayOf);
    SortByMembers(purchases, DayOf);
    forall i, j | 0 <= i < j < |selling| ensures HeldDay(selling[i]) != HeldDay(selling[j]) {
      assert DayOf(PricesOf(selling)[i]) != DayOf(PricesOf(selling)[j]);
    }
    SortByOrdersStrictly(selling, HeldDay);
    SortByMembers(selling, HeldDay);
    var held := SortBy(selling, HeldDay);
    forall i, j | 0 <= i < j < |held| ensures DayOf(PricesOf(held)[i]) < DayOf(PricesOf(held)[j]) {
      assert HeldDay(held[i]) < HeldDay(held[j]);
    }
    forall p ensures p in PricesOf(held) <==> p in PricesOf(selling) {
      HeldPrices(held, p);
      HeldPrices(selling, p);
    }
  }

  lemma SameMembersApply(a: seq<Price>, b: seq<Price>, day: Day, found: Option<Price>)
    requires forall p: Price :: p.validFrom <= day ==> (p in a <==> p in b)
    ensures Applies(a, day, found) <==> Applies(b, day, found)
  {}

  /** The edit once the prices are in order: empty without a markup or a purchase, else what is wanted. */
  lemma {:induction false} ChangeIs(from: Day, purchases: seq<Price>, selling: seq<Held>, markup: Option<int>)
    requires Tables(purchases, selling)
    ensures markup.None? || purchases == [] ==> Change(from, purchases, selling, markup) == Edit([], [])
    ensures markup.Some? && purchases != [] ==>
      var held, wanted := SortBy(selling, HeldDay), WantedFrom(from, purchases, selling, markup.value);
      Change(from, purchases, selling, markup) == Edit(Removed(held, from, Kept(held, wanted)), Added(held, wanted))
  {
    var sorted := SortBy(purchases, DayOf);
    SortedTables(purchases, selling);
    if purchases != [] {
      var p := purchases[0];
      assert p in sorted;
      var day := if p.validFrom > from then p.validFrom else from;
      LaterDaysAre(sorted, from);
      assert day in ChangeDays(sorted, from) by {
        assert p.validFrom > from ==> p.validFrom in LaterDays(sorted, from);
      }
      LastUpToApplies(sorted, day);
      assert LastUpTo(sorted, day).Some?;
    }
  }

  /** The prices after the edit are those from before the day and the wanted ones, still one a day. */
  lemma AfterChange(from: Day, purchases: seq<Price>, selling: seq<Held>, markup: int)
    requires Tables(purchases, selling) && purchases != []
    ensures var after := After(selling, Change(from, purchases, selling, Some(markup)));
      && OneADay(after)
      && forall p :: p in after <==>
           (p in PricesOf(selling) && p.validFrom < from) || Asked(WantedFrom(from, purchases, selling, markup), p)
    ensures InOrderFrom(WantedFrom(from, purchases, selling, markup), from)
  {
    var sorted := SortBy(purchases, DayOf);
    SortedTables(purchases, selling);
    ChangeIs(from, purchases, selling, Some(markup));
    LaterDaysAre(sorted, from);
    WantedInOrder(DueFrom(sorted, markup), ChangeDays(sorted, from), PriceBefore(from, selling));
    AfterHas(from, selling, SortBy(selling, HeldDay), WantedFrom(from, purchases, selling, markup));
  }

  lemma {:induction false} LatestIs(wanted: seq<Followed>, from: Day, last: Option<Price>, day: Day)
    requires InOrderFrom(wanted, from) && from <= day
    ensures var latest := Latest(wanted, last, day);
      if latest != last || exists w :: w in wanted && w.price.validFrom <= day then
        && latest.Some? && Asked(wanted, latest.value) && latest.value.validFrom <= day
        && forall w :: w in wanted && w.price.validFrom <= day ==> w.price.validFrom <= latest.value.validFrom
      else forall w :: w in wanted ==> w.price.validFrom > day
  {
    if wanted != [] {
      assert wanted[0] in wanted && wanted == [wanted[0]] + wanted[1..];
      if wanted[0].price.validFrom <= day {
        LatestIs(wanted[1..], from, Some(wanted[0].price), day);
      }
    }
  }

  /** All that what applies after the edit hangs on: the sorted purchase prices, and the selling prices before and after. */
  datatype Run = Run(from: Day, sorted: seq<Price>, markup: int, prices: seq<Price>, before: Option<Price>, after: seq<Price>)

  ghost function WantedIn(run: Run): seq<Followed> {
    Wanted(DueFrom(run.sorted, run.markup), ChangeDays(run.sorted, run.from), run.before)
  }

  ghost predicate ValidRun(run: Run) {
    && StrictlyInOrder(run.sorted, DayOf)
    && Applies(run.prices, run.from - 1, run.before)
    && OneADay(run.after)
    && InOrderFrom(WantedIn(run), run.from)
    && (forall p :: p in run.after <==> (p in run.prices && p.validFrom < run.from) || Asked(WantedIn(run), p))
  }

  ghost function RunOf(from: Day, purchases: seq<Price>, selling: seq<Held>, markup: int): Run {
    Run(from, SortBy(purchases, DayOf), markup, PricesOf(selling), PriceBefore(from, selling),
        After(selling, Change(from, purchases, selling, Some(markup))))
  }

  lemma PriceBeforeApplies(from: Day, purchases: seq<Price>, selling: seq<Held>)
    requires Tables(purchases, selling)
    ensures Applies(PricesOf(selling), from - 1, PriceBefore(from, selling))
  {
    SortedTables(purchases, selling);
    LastUpToApplies(PricesOf(SortBy(selling, HeldDay)), from - 1);
    SameMembersApply(PricesOf(SortBy(selling, HeldDay)), PricesOf(selling), from - 1, PriceBefore(from, selling));
  }

  lemma RunIsValid(from: Day, purchases: seq<Price>, selling: seq<Held>, markup: int)
    requires Tables(purchases, selling) && purchases != []
    ensures ValidRun(RunOf(from, purchases, selling, markup))
  {
    AfterChange(from, purchases, selling, markup);
    PriceBeforeApplies(from, purchases, selling);
    assert StrictlyInOrder(SortBy(purchases, DayOf), DayOf) by {
      SortedTables(purchases, selling);
    }
    assert WantedIn(RunOf(from, purchases, selling, markup)) == WantedFrom(from, purchases, selling, markup);
  }

  /** The latest wanted price is the one that applies, from the day before the first change on. */
  lemma {:induction false} LatestApplies(run: Run, day: Day)
    requires ValidRun(run) && run.from - 1 <= day
    ensures Applies(run.after, day, Latest(WantedIn(run), run.before, day))
  {
    if run.from <= day {
      LatestIs(WantedIn(run), run.from, run.before, day);
    }
  }

  /** Days before the change keep the price they had. */
  lemma NeverBackwards(from: Day, purchases: seq<Price>, selling: seq<Held>, markup: Option<int>, day: Day, found: Option<Price>)
    requires Tables(purchases, selling) && day < from
    ensures Applies(After(selling, Change(from, purchases, selling, markup)), day, found)
       <==> Applies(PricesOf(selling), day, found)
  {
    var after := After(selling, Change(from, purchases, selling, markup));
    if markup.Some? && purchases != [] {
      RunIsValid(from, purchases, selling, markup.value);
      SameMembersApply(after, PricesOf(selling), day, found);
    } else {
      ChangeIs(from, purchases, selling, markup);
      StayingAre(selling, []);
      forall p ensures p in after <==> p in PricesOf(selling) {
        HeldPrices(selling, p);
      }
    }
  }

  /** Where the stretch of a purchase price begins, as far as the edit goes. */
  function StretchStart(from: Day, purchase: Option<Price>): Day {
    if purchase.Some? && purchase.value.validFrom > from then purchase.value.validFrom else from
  }

  /**
   * A day follows its purchase price where the markup gives a price that may
   * be asked, in the same unit; where it does not, the day keeps the price in
   * force when the stretch of that purchase price began.
   */
  ghost predicate Follows(after: seq<Price>, from: Day, markup: int, day: Day, purchase: Option<Price>) {
    if purchase.Some? && SellingCents(purchase.value.cents, markup).Some? then
      exists price :: Applies(after, day, Some(price)) && price.priceBase == purchase.value.priceBase
                      && SellingCents(purchase.value.cents, markup) == Some(price.cents)
    else exists found :: Applies(after, day, found) && Applies(after, StretchStart(from, purchase) - 1, found)
  }

  lemma {:induction false} DueApplies(run: Run, day: Day)
    requires ValidRun(run) && run.from <= day
    ensures Follows(run.after, run.from, run.markup, day, LastUpTo(run.sorted, day))
  {
    var days := ChangeDays(run.sorted, run.from);
    LaterDaysAre(run.sorted, run.from);
    var k := ChangeDayOf(run.sorted, run.from, day);
    BetweenChangeDays(DueFrom(run.sorted, run.markup), days, run.before, k, day);
    LatestApplies(run, day);
    LatestApplies(run, days[k] - 1);
    StartIsChangeDay(run.sorted, run.from, day, days[k]);
  }

  lemma {:induction false} StartIsChangeDay(sorted: seq<Price>, from: Day, day: Day, changed: Day)
    requires StrictlyInOrder(sorted, DayOf) && from <= changed <= day && LastUpTo(sorted, changed) == LastUpTo(sorted, day)
    requires changed == from || exists p :: p in sorted && p.validFrom == changed && LastUpTo(sorted, day) == Some(p)
    ensures StretchStart(from, LastUpTo(sorted, day)) == changed
  {
    LastUpToApplies(sorted, changed);
  }

  /** From the day on every day has the price that follows its purchase price. */
  lemma FollowsThePurchase(from: Day, purchases: seq<Price>, selling: seq<Held>, markup: int, day: Day, purchase: Option<Price>)
    requires Tables(purchases, selling) && purchases != [] && from <= day && Applies(purchases, day, purchase)
    ensures var after := After(selling, Change(from, purchases, selling, Some(markup)));
      OneADay(after) && Follows(after, from, markup, day, purchase)
  {
    var run := RunOf(from, purchases, selling, markup);
    RunIsValid(from, purchases, selling, markup);
    SortedTables(purchases, selling);
    LastUpToApplies(run.sorted, day);
    SameMembersApply(run.sorted, purchases, day, LastUpTo(run.sorted, day));
    OnePriceApplies(purchases, day, purchase, LastUpTo(run.sorted, day));
    DueApplies(run, day);
  }

  // --- No more than is needed, and nothing the second time -------------------------------------------

  ghost predicate MoneyDiffers(a: Option<Price>, b: Price) {
    a.None? || !SameMoney(a.value, b)
  }

  lemma {:induction false} NothingRepeats(due: DueOn, days: seq<Day>, last: Option<Price>, price: Price)
    requires Ascending(days) && Dated(due) && Asked(Wanted(due, days, last), price)
    ensures MoneyDiffers(Latest(Wanted(due, days, last), last, price.validFrom - 1), price)
    decreases |days|
  {
    var next := Next(due, days[0], last);
    WantedInOrder(due, days, last);
    if next == last {
      NothingRepeats(due, days[1..], last, price);
    } else if price != next.value {
      AskedLater(Wanted(due, days, last), days[0], price);
      NothingRepeats(due, days[1..], next, price);
    }
  }

  lemma AskedLater(wanted: seq<Followed>, from: Day, price: Price)
    requires InOrderFrom(wanted, from) && Asked(wanted, price) && wanted[0].price != price
    ensures Asked(wanted[1..], price) && wanted[0].price.validFrom < price.validFrom
  {
    var w :| w in wanted && w.price == price;
    var i :| 0 <= i < |wanted| && wanted[i] == w;
    assert wanted[1..][i - 1] == w;
  }

  lemma WantedDiffers(run: Run, price: Price, found: Option<Price>)
    requires ValidRun(run) && Asked(WantedIn(run), price) && run.from <= price.validFrom
    requires Applies(run.after, price.validFrom - 1, found)
    ensures MoneyDiffers(found, price)
  {
    LaterDaysAre(run.sorted, run.from);
    NothingRepeats(DueFrom(run.sorted, run.markup), ChangeDays(run.sorted, run.from), run.before, price);
    LatestApplies(run, price.validFrom - 1);
    OnePriceApplies(run.after, price.validFrom - 1, found, Latest(WantedIn(run), run.before, price.validFrom - 1));
  }

  /** No price from the day on repeats the amount and the price unit in force the day before it. */
  lemma NoPriceRepeats(from: Day, purchases: seq<Price>, selling: seq<Held>, markup: int, price: Price, found: Option<Price>)
    requires Tables(purchases, selling) && purchases != []
    requires price in After(selling, Change(from, purchases, selling, Some(markup))) && from <= price.validFrom
    requires Applies(After(selling, Change(from, purchases, selling, Some(markup))), price.validFrom - 1, found)
    ensures MoneyDiffers(found, price)
  {
    var run := RunOf(from, purchases, selling, markup);
    RunIsValid(from, purchases, selling, markup);
    WantedDiffers(run, price, found);
  }

  ghost predicate SameEveryDay(from: Day, a: seq<Price>, b: seq<Price>) {
    forall day, p, q :: from - 1 <= day && Applies(a, day, p) && Applies(b, day, q) ==>
      (p.None? && q.None?) || (p.Some? && q.Some? && SameMoney(p.value, q.value))
  }

  lemma {:induction false} SomeAnswer(prices: seq<Price>, day: Day) returns (found: Option<Price>)
    ensures Applies(prices, day, found)
  {
    found := None;
    if prices != [] {
      var front, last := prices[..|prices| - 1], prices[|prices| - 1];
      assert prices == front + [last];
      found := SomeAnswer(front, day);
      if last.validFrom <= day && (found.None? || last.validFrom > found.value.validFrom) {
        found := Some(last);
      }
    }
  }

  /** The edit is the smallest: any table with the same price every day holds each of its prices from the day on. */
  lemma NoSmallerTable(from: Day, purchases: seq<Price>, selling: seq<Held>, markup: int, other: seq<Price>, price: Price)
    requires Tables(purchases, selling) && purchases != []
    requires SameEveryDay(from, After(selling, Change(from, purchases, selling, Some(markup))), other)
    requires price in After(selling, Change(from, purchases, selling, Some(markup))) && from <= price.validFrom
    ensures price in other
  {
    var run := RunOf(from, purchases, selling, markup);
    RunIsValid(from, purchases, selling, markup);
    var was := SomeAnswer(run.after, price.validFrom - 1);
    WantedDiffers(run, price, was);
    HoldsWhereItChanges(from, run.after, other, price, was);
  }

  lemma HoldsWhereItChanges(from: Day, after: seq<Price>, other: seq<Price>, price: Price, was: Option<Price>)
    requires SameEveryDay(from, after, other) && from <= price.validFrom && price in after
    requires Applies(after, price.validFrom - 1, was) && MoneyDiffers(was, price)
    ensures price in other
  {
    var day := price.validFrom;
    var at := SomeAnswer(other, day);
    assert Applies(after, day, Some(price));
    assert at.Some? && SameMoney(at.value, price);
    AppliesTheDayBefore(other, day, at);
  }

  lemma AppliesTheDayBefore(prices: seq<Price>, day: Day, found: Option<Price>)
    requires Applies(prices, day, found)
    ensures found.Some? && found.value.validFrom < day ==> Applies(prices, day - 1, found)
  {}
}
