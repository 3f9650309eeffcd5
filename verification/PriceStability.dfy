/** The edit of the selling prices, made again on its own result, on the same day or on a later one. */
module PriceStability {
  import opened Wrappers
  import opened Sorting
  import opened Prices

  lemma {:induction false} WantedSplits(due: DueOn, days: seq<Day>, last: Option<Price>, k: nat, day: Day)
    requires Ascending(days) && Dated(due) && k < |days| && days[k] <= day && (k + 1 < |days| ==> day < days[k + 1])
    ensures Wanted(due, days, last)
         == Wanted(due, days[..k + 1], last) + Wanted(due, days[k + 1..], Latest(Wanted(due, days, last), last, day))
    decreases |days|
  {
    var next := Next(due, days[0], last);
    assert days[..k + 1][1..] == days[1..][..k];
    if k > 0 {
      WantedSplits(due, days[1..], next, k - 1, day);
      assert days[1..][k..] == days[k + 1..];
    } else if |days| > 1 {
      WantedInOrder(due, days[1..], next);
    }
  }

  lemma FirstIsLeast(a: seq<Day>, d: Day)
    requires Ascending(a) && a != []
    ensures a[0] in a
    ensures d in a[1..] <==> d in a && d != a[0]
    ensures d in a ==> a[0] <= d
  {
    assert a == [a[0]] + a[1..];
    if d in a[1..] {
      var i :| 0 <= i < |a[1..]| && a[1..][i] == d;
      assert a[i + 1] == d;
    }
  }

  lemma {:induction false} AscendingIsItsMembers(a: seq<Day>, b: seq<Day>)
    requires Ascending(a) && Ascending(b) && forall d :: d in a <==> d in b
    ensures a == b
  {
    assert |b| > 0 ==> b[0] in b && b[0] in a;
    if a != [] {
      assert a[0] in a && a[0] in b;
      FirstIsLeast(a, b[0]);
      FirstIsLeast(b, a[0]);
      forall d ensures d in a[1..] <==> d in b[1..] {
        FirstIsLeast(a, d);
        FirstIsLeast(b, d);
      }
      AscendingIsItsMembers(a[1..], b[1..]);
      assert a == [a[0]] + a[1..] && b == [b[0]] + b[1..];
    }
  }

  /** The change days after a later day are the rest of the change days. */
  lemma {:induction false} RestOfChangeDays(sorted: seq<Price>, from: Day, later: Day, k: nat)
    requires StrictlyInOrder(sorted, DayOf) && from <= later
    requires var days := ChangeDays(sorted, from); k < |days| && days[k] <= later && (k + 1 < |days| ==> later < days[k + 1])
    ensures LaterDays(sorted, later) == ChangeDays(sorted, from)[k + 1..]
  {
    var days := ChangeDays(sorted, from);
    LaterDaysAre(sorted, from);
    LaterDaysAre(sorted, later);
    assert ChangeDays(sorted, later)[1..] == LaterDays(sorted, later);
    forall d ensures d in LaterDays(sorted, later) <==> d in days[k + 1..] {
      if d in LaterDays(sorted, later) {
        assert d in LaterDays(sorted, from) && d in days;
        var i :| 0 <= i < |days| && days[i] == d;
        assert i > k;
        assert days[k + 1..][i - (k + 1)] == d;
      }
      if d in days[k + 1..] {
        assert d in LaterDays(sorted, from);
      }
    }
    AscendingIsItsMembers(LaterDays(sorted, later), days[k + 1..]);
  }

  lemma {:induction false} WantedOnlyOnItsDays(due: DueOn, days: seq<Day>, last: Option<Price>)
    requires Dated(due)
    ensures forall w :: w in Wanted(due, days, last) ==> w.price.validFrom in days
  {
    if days != [] {
      WantedOnlyOnItsDays(due, days[1..], Next(due, days[0], last));
      assert days == [days[0]] + days[1..];
    }
  }

  ghost predicate SameDue(due: DueOn, day: Day, later: Day) {
    match (due(day), due(later))
    case (None, None) => true
    case (Some(a), Some(b)) => SameMoney(a.price, b.price)
    case _ => false
  }

  /** A day between two change days wants nothing of its own. */
  lemma NotDueAnew(due: DueOn, days: seq<Day>, last: Option<Price>, k: nat, later: Day)
    requires Ascending(days) && Dated(due) && k < |days| && days[k] < later && (k + 1 < |days| ==> later < days[k + 1])
    requires SameDue(due, days[k], later)
    ensures var before := Latest(Wanted(due, days, last), last, later - 1);
      Wanted(due, [later] + days[k + 1..], before) == Wanted(due, days[k + 1..], before)
  {
    BetweenChangeDays(due, days, last, k, later - 1);
    assert ([later] + days[k + 1..])[1..] == days[k + 1..];
  }

  /** What is wanted before the `n`-th change day, and what from it on. */
  lemma WantedInTwo(due: DueOn, days: seq<Day>, last: Option<Price>, n: nat, later: Day)
    requires Ascending(days) && Dated(due) && days != [] && n <= |days|
    requires (n > 0 ==> days[n - 1] < later) && (n < |days| ==> later <= days[n])
    ensures Wanted(due, days, last)
         == Wanted(due, days[..n], last) + Wanted(due, days[n..], Latest(Wanted(due, days, last), last, later - 1))
    ensures forall w :: w in Wanted(due, days[..n], last) ==> w.price.validFrom < later
  {
    if n > 0 {
      WantedSplits(due, days, last, n - 1, later - 1);
    } else {
      WantedInOrder(due, days, last);
      assert days[n..] == days;
    }
    WantedOnlyOnItsDays(due, days[..n], last);
    assert forall d :: d in days[..n] ==> d < later;
  }

  lemma WantedFromTheDay(due: DueOn, days: seq<Day>, last: Option<Price>, k: nat, later: Day) returns (front: seq<Followed>)
    requires Ascending(days) && Dated(due) && k < |days| && days[k] <= later && (k + 1 < |days| ==> later < days[k + 1])
    requires SameDue(due, days[k], later)
    ensures Wanted(due, days, last)
         == front + Wanted(due, [later] + days[k + 1..], Latest(Wanted(due, days, last), last, later - 1))
    ensures forall w :: w in front ==> w.price.validFrom < later
  {
    if days[k] < later {
      WantedInTwo(due, days, last, k + 1, later);
      front := Wanted(due, days[..k + 1], last);
      NotDueAnew(due, days, last, k, later);
    } else {
      WantedInTwo(due, days, last, k, later);
      front := Wanted(due, days[..k], last);
      assert [later] + days[k + 1..] == days[k..];
    }
  }

  lemma {:induction false} SamePurchaseSameDue(sorted: seq<Price>, markup: int, day: Day, later: Day)
    requires LastUpTo(sorted, day) == LastUpTo(sorted, later)
    ensures SameDue(DueFrom(sorted, markup), day, later)
  {}

  /** Begun again on a later day, the wanted prices are those of the first time from that day on. */
  lemma BegunAgain(run: Run, later: Day, before: Option<Price>) returns (front: seq<Followed>)
    requires ValidRun(run) && run.from <= later && Applies(run.after, later - 1, before)
    ensures WantedIn(run) == front + Wanted(DueFrom(run.sorted, run.markup), ChangeDays(run.sorted, later), before)
    ensures forall w :: w in front ==> w.price.validFrom < later
  {
    LatestApplies(run, later - 1);
    OnePriceApplies(run.after, later - 1, before, Latest(WantedIn(run), run.before, later - 1));
    var days := ChangeDays(run.sorted, run.from);
    LaterDaysAre(run.sorted, run.from);
    var k := ChangeDayOf(run.sorted, run.from, later);
    RestOfChangeDays(run.sorted, run.from, later, k);
    SamePurchaseSameDue(run.sorted, run.markup, days[k], later);
    front := WantedFromTheDay(DueFrom(run.sorted, run.markup), days, run.before, k, later);
  }

  /** The selling prices as they stand once the edit is written, with whatever names the new ones got. */
  ghost predicate Written(from: Day, purchases: seq<Price>, selling: seq<Held>, markup: Option<int>, now: seq<Held>) {
    forall p :: p in PricesOf(now) <==> p in After(selling, Change(from, purchases, selling, markup))
  }

  lemma RestIsFromTheDay(all: seq<Followed>, front: seq<Followed>, rest: seq<Followed>, later: Day, price: Price)
    requires all == front + rest && InOrderFrom(rest, later) && forall w :: w in front ==> w.price.validFrom < later
    ensures Asked(rest, price) <==> Asked(all, price) && later <= price.validFrom
  {
    if w :| w in rest && w.price == price {
      var i :| 0 <= i < |rest| && rest[i] == w;
      assert w in all;
    }
    if later <= price.validFrom {
      if w :| w in all && w.price == price {
        assert w in front || w in rest;
      }
    }
  }

  lemma WantedAgain(from: Day, purchases: seq<Price>, selling: seq<Held>, markup: int, now: seq<Held>, later: Day)
    requires Tables(purchases, selling) && Tables(purchases, now) && purchases != [] && from <= later
    requires Written(from, purchases, selling, Some(markup), now)
    ensures forall p :: Asked(WantedFrom(later, purchases, now, markup), p) <==> p in PricesOf(now) && later <= p.validFrom
  {
    var run := RunOf(from, purchases, selling, markup);
    RunIsValid(from, purchases, selling, markup);
    var before := PriceBefore(later, now);
    PriceBeforeApplies(later, purchases, now);
    SameMembersApply(PricesOf(now), run.after, later - 1, before);
    var front := BegunAgain(run, later, before);
    AfterChange(later, purchases, now, markup);
    forall p ensures Asked(WantedFrom(later, purchases, now, markup), p) <==> p in PricesOf(now) && later <= p.validFrom {
      RestIsFromTheDay(WantedIn(run), front, WantedFrom(later, purchases, now, markup), later, p);
    }
  }

  /** Made again on its own result, on the same day or on any later one, the edit removes nothing and adds nothing. */
  lemma ChangesNothingAgain(from: Day, purchases: seq<Price>, selling: seq<Held>, markup: Option<int>, now: seq<Held>, later: Day)
    requires Tables(purchases, selling) && Tables(purchases, now) && from <= later
    requires Written(from, purchases, selling, markup, now)
    ensures Change(later, purchases, now, markup) == Edit([], [])
  {
    ChangeIs(later, purchases, now, markup);
    if markup.Some? && purchases != [] {
      var held, wanted := SortBy(now, HeldDay), WantedFrom(later, purchases, now, markup.value);
      WantedAgain(from, purchases, selling, markup.value, now, later);
      SortedTables(purchases, now);
      AllHeldAllWanted(later, now, held, wanted);
    }
  }

  lemma {:induction false} AllHeldAllWanted(later: Day, now: seq<Held>, held: seq<Held>, wanted: seq<Followed>)
    requires OneADay(PricesOf(now)) && OneNameEach(now) && forall h :: h in held <==> h in now
    requires forall p :: Asked(wanted, p) <==> p in PricesOf(now) && later <= p.validFrom
    ensures Removed(held, later, Kept(held, wanted)) == [] && Added(held, wanted) == []
  {
    var removed, added := Removed(held, later, Kept(held, wanted)), Added(held, wanted);
    RemovedAre(held, later, Kept(held, wanted));
    if removed != [] {
      assert removed[0] in removed;
      var h :| h in held && h.id == removed[0] && h.price.validFrom >= later;
      HeldPrices(now, h.price);
      StaysIfWanted(later, now, held, wanted, h);
      assert false;
    }
    AddedAre(held, wanted);
    if added != [] {
      assert added[0] in added;
      IsHeldFinds(held, added[0].price);
      assert Asked(wanted, added[0].price);
      HeldPrices(now, added[0].price);
      assert false;
    }
  }
}
