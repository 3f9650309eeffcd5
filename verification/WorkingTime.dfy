/** Stretches of work joined where they touch, and the breaks and the longest run between them. */
module WorkingTime {
  import opened Rounding
  import opened Sorting

  /** From one moment to another, in milliseconds. */
  datatype Stretch = Stretch(start: int, end: int)

  function StartOf(stretch: Stretch): int {
    stretch.start
  }

  ghost predicate Forward(stretches: seq<Stretch>) {
    forall i :: 0 <= i < |stretches| ==> stretches[i].start <= stretches[i].end
  }

  /** Time has no gaps between its milliseconds, so a moment is a real number. */
  predicate Holds(stretch: Stretch, at: real) {
    stretch.start as real <= at <= stretch.end as real
  }

  ghost predicate Covered(stretches: seq<Stretch>, at: real) {
    exists i :: 0 <= i < |stretches| && Holds(stretches[i], at)
  }

  ghost predicate SameTime(a: seq<Stretch>, b: seq<Stretch>) {
    forall at :: Covered(a, at) <==> Covered(b, at)
  }

  /** In order, with a real gap between neighbours. */
  ghost predicate Apart(stretches: seq<Stretch>) {
    Forward(stretches) && forall i, j :: 0 <= i < j < |stretches| ==> stretches[i].end < stretches[j].start
  }

  // --- Joining ---------------------------------------------------------------------------------------

  /** One step of the loop: the last stretch grows, or the next one begins. */
  function Join(joined: seq<Stretch>, next: Stretch): (more: seq<Stretch>)
    ensures more != []
  {
    var n := |joined|;
    if n > 0 && next.start <= joined[n - 1].end then
      joined[..n - 1] + [Stretch(joined[n - 1].start, if next.end > joined[n - 1].end then next.end else joined[n - 1].end)]
    else joined + [next]
  }

  lemma JoinCovers(joined: seq<Stretch>, next: Stretch, at: real)
    requires Apart(joined) && next.start <= next.end && (joined != [] ==> joined[|joined| - 1].start <= next.start)
    ensures Covered(Join(joined, next), at) <==> Covered(joined, at) || Holds(next, at)
  {
    var more, n := Join(joined, next), |joined|;
    if i :| 0 <= i < n && Holds(joined[i], at) {
      assert i < n - 1 ==> more[i] == joined[i];
      assert Holds(more[i], at);
    }
    if Holds(next, at) {
      assert Holds(more[|more| - 1], at);
    }
    if i :| 0 <= i < |more| && Holds(more[i], at) {
      if i < n - 1 || (i == n - 1 && |more| > n) {
        assert more[i] == joined[i];
      } else if n > 0 && next.start <= joined[n - 1].end {
        assert Holds(joined[n - 1], at) || Holds(next, at);
      }
    }
  }

  lemma CoveredByMore(stretches: seq<Stretch>, next: Stretch, at: real)
    ensures Covered(stretches + [next], at) <==> Covered(stretches, at) || Holds(next, at)
  {
    var more := stretches + [next];
    if i :| 0 <= i < |stretches| && Holds(stretches[i], at) {
      assert Holds(more[i], at);
    }
    if Holds(next, at) {
      assert Holds(more[|stretches|], at);
    }
  }

  /** Where the loop stands: the stretches so far, joined, and the last of them begun no later than the last that came. */
  ghost predicate JoinedSoFar(joined: seq<Stretch>, part: seq<Stretch>) {
    && Apart(joined)
    && (joined == [] <==> part == [])
    && (part != [] ==> joined[|joined| - 1].start <= part[|part| - 1].start)
    && SameTime(joined, part)
  }

  lemma JoinsOneMore(joined: seq<Stretch>, part: seq<Stretch>, next: Stretch)
    requires JoinedSoFar(joined, part) && next.start <= next.end
    requires part != [] ==> part[|part| - 1].start <= next.start
    ensures JoinedSoFar(Join(joined, next), part + [next])
  {
    forall at ensures Covered(Join(joined, next), at) <==> Covered(part + [next], at) {
      JoinCovers(joined, next, at);
      CoveredByMore(part, next, at);
    }
  }

  function Joined(sorted: seq<Stretch>): (joined: seq<Stretch>) {
    var n := |sorted|;
    if n == 0 then [] else Join(Joined(sorted[..n - 1]), sorted[n - 1])
  }

  lemma {:induction false} JoinedCoversTheSame(sorted: seq<Stretch>)
    requires Forward(sorted) && InOrder(sorted, StartOf)
    ensures JoinedSoFar(Joined(sorted), sorted)
  {
    var n := |sorted|;
    if n > 0 {
      var part := sorted[..n - 1];
      JoinedCoversTheSame(part);
      assert n > 1 ==> StartOf(sorted[n - 2]) <= StartOf(sorted[n - 1]);
      JoinsOneMore(Joined(part), part, sorted[n - 1]);
      assert part + [sorted[n - 1]] == sorted;
    }
  }

  method Merged(stretches: seq<Stretch>) returns (joined: seq<Stretch>)
    requires Forward(stretches)
    ensures Apart(joined)
    ensures SameTime(joined, stretches)
  {
    var sorted := SortBy(stretches, StartOf);
    joined := [];
    for i := 0 to |sorted|
      invariant joined == Joined(sorted[..i])
    {
      assert sorted[..i + 1][..i] == sorted[..i];
      var next, n := sorted[i], |joined|;
      if n > 0 && next.start <= joined[n - 1].end {
        var last := joined[n - 1];
        joined := joined[n - 1 := Stretch(last.start, if next.end > last.end then next.end else last.end)];
      } else {
        joined := joined + [next];
      }
    }
    assert sorted[..|sorted|] == sorted;
    MergedIsRight(stretches, joined);
  }

  lemma {:induction false} MergedIsRight(stretches: seq<Stretch>, joined: seq<Stretch>)
    requires Forward(stretches) && joined == Joined(SortBy(stretches, StartOf))
    ensures Apart(joined) && SameTime(joined, stretches)
  {
    var sorted := SortBy(stretches, StartOf);
    SortByOrders(stretches, StartOf);
    SortedIsTheSame(stretches, sorted);
    JoinedCoversTheSame(sorted);
    assert forall at :: Covered(joined, at) <==> Covered(sorted, at);
  }

  lemma {:induction false} SortedIsTheSame(stretches: seq<Stretch>, sorted: seq<Stretch>)
    requires Forward(stretches) && sorted == SortBy(stretches, StartOf)
    ensures Forward(sorted)
    ensures SameTime(sorted, stretches)
  {
    SortByMembers(stretches, StartOf);
    forall i | 0 <= i < |sorted| ensures sorted[i].start <= sorted[i].end {
      assert sorted[i] in stretches;
    }
    forall at ensures Covered(sorted, at) <==> Covered(stretches, at) {
      if i :| 0 <= i < |sorted| && Holds(sorted[i], at) {
        assert sorted[i] in stretches;
      }
      if i :| 0 <= i < |stretches| && Holds(stretches[i], at) {
        assert stretches[i] in sorted;
      }
    }
  }

  lemma FirstStart(a: seq<Stretch>, b: seq<Stretch>)
    requires Apart(a) && Apart(b) && a != [] && forall at :: Covered(a, at) ==> Covered(b, at)
    ensures b != [] && b[0].start <= a[0].start
  {
    assert Holds(a[0], a[0].start as real) && Covered(a, a[0].start as real);
    var i :| 0 <= i < |b| && Holds(b[i], a[0].start as real);
  }

  lemma FirstEnd(a: seq<Stretch>, b: seq<Stretch>)
    requires Apart(a) && Apart(b) && a != [] && b != [] && a[0].start == b[0].start
    requires forall at :: Covered(b, at) ==> Covered(a, at)
    ensures b[0].end <= a[0].end
  {
    if a[0].end < b[0].end {
      var bound := if |a| > 1 && a[1].start < b[0].end then a[1].start else b[0].end;
      var between := (a[0].end as real + bound as real) / 2.0;
      assert Holds(b[0], between) && Covered(b, between);
      assert forall i :: 0 <= i < |a| ==> !Holds(a[i], between);
    }
  }

  /**
   * There is only one way to cover the same time with stretches that lie apart:
   * the order the entries came in does not matter.
   */
  lemma {:induction false} JoinedInOneWay(a: seq<Stretch>, b: seq<Stretch>)
    requires Apart(a) && Apart(b) && SameTime(a, b)
    ensures a == b
  {
    if a != [] {
      FirstStart(a, b);
      FirstStart(b, a);
      FirstEnd(a, b);
      FirstEnd(b, a);
      forall at ensures Covered(a[1..], at) <==> Covered(b[1..], at) {
        CoveredByTheRest(a, at);
        CoveredByTheRest(b, at);
      }
      assert SameTime(a[1..], b[1..]);
      JoinedInOneWay(a[1..], b[1..]);
      assert a == [a[0]] + a[1..] && b == [b[0]] + b[1..];
    } else if b != [] {
      FirstStart(b, a);
    }
  }

  lemma CoveredByTheRest(a: seq<Stretch>, at: real)
    requires Apart(a) && a != []
    ensures Covered(a[1..], at) <==> Covered(a, at) && !Holds(a[0], at)
  {
    if i :| 0 <= i < |a[1..]| && Holds(a[1..][i], at) {
      assert a[i + 1] == a[1..][i] && a[0].end < a[i + 1].start;
    }
    if i :| 1 <= i < |a| && Holds(a[i], at) {
      assert a[1..][i - 1] == a[i];
    }
  }

  // --- Overlaps --------------------------------------------------------------------------------------

  /** Each begins before the other has ended. */
  predicate Meet(x: Stretch, y: Stretch) {
    x.start < y.end && y.start < x.end
  }

  /** Two different entries of a list meet. */
  ghost predicate TwoMeet(stretches: seq<Stretch>) {
    exists i, j :: 0 <= i < j < |stretches| && Meet(stretches[i], stretches[j])
  }

  ghost predicate TakeTime(stretches: seq<Stretch>) {
    forall i :: 0 <= i < |stretches| ==> stretches[i].start < stretches[i].end
  }

  /** Of two entries in order, the later begun starts before the earlier has ended. */
  ghost predicate Overlapping(sorted: seq<Stretch>, upto: int) {
    exists i, j :: 0 <= i < j < |sorted| && i < upto && sorted[j].start < sorted[i].end
  }

  lemma NeighboursFirst(sorted: seq<Stretch>, n: nat)
    requires InOrder(sorted, StartOf) && n + 1 < |sorted|
    ensures Overlapping(sorted, n + 1) <==> Overlapping(sorted, n) || sorted[n + 1].start < sorted[n].end
  {
    assert forall j :: n < j < |sorted| ==> StartOf(sorted[n + 1]) <= StartOf(sorted[j]);
  }

  lemma TwiceThere(s: seq<Stretch>, i: nat, j: nat)
    requires i < j < |s| && s[i] == s[j]
    ensures multiset(s)[s[i]] >= 2
  {
    assert s == s[..j] + [s[j]] + s[j + 1..];
    assert s[..j][i] in s[..j] && s[i] in multiset(s[..j]);
  }

  lemma FoundTwice(s: seq<Stretch>, x: Stretch) returns (i: nat, j: nat)
    requires multiset(s)[x] >= 2
    ensures i < j < |s| && s[i] == x == s[j]
  {
    assert x in s;
    i :| 0 <= i < |s| && s[i] == x;
    var others := s[..i] + s[i + 1..];
    assert s == s[..i] + [s[i]] + s[i + 1..];
    assert multiset(s) == multiset(others) + multiset{x};
    assert x in others;
    var k :| 0 <= k < |others| && others[k] == x;
    var place := if k < i then k else k + 1;
    assert s[place] == x && place != i;
    i, j := if place < i then place else i, if place < i then i else place;
  }

  lemma TwoMeetInAnyOrder(a: seq<Stretch>, b: seq<Stretch>)
    requires multiset(a) == multiset(b) && TwoMeet(a)
    ensures TwoMeet(b)
  {
    var i, j :| 0 <= i < j < |a| && Meet(a[i], a[j]);
    if a[i] == a[j] {
      TwiceThere(a, i, j);
      var p, q := FoundTwice(b, a[i]);
      assert Meet(b[p], b[q]);
    } else {
      assert a[i] in multiset(b) && a[j] in multiset(b);
      var p :| 0 <= p < |b| && b[p] == a[i];
      var q :| 0 <= q < |b| && b[q] == a[j];
      assert if p < q then Meet(b[p], b[q]) else q < p && Meet(b[q], b[p]);
    }
  }

  lemma OverlappingIsMeeting(stretches: seq<Stretch>, sorted: seq<Stretch>)
    requires multiset(sorted) == multiset(stretches) && InOrder(sorted, StartOf) && TakeTime(stretches)
    ensures Overlapping(sorted, |sorted|) <==> TwoMeet(stretches)
  {
    forall i | 0 <= i < |sorted| ensures sorted[i].start < sorted[i].end {
      assert sorted[i] in multiset(stretches) && sorted[i] in stretches;
    }
    if i, j :| 0 <= i < j < |sorted| && sorted[j].start < sorted[i].end {
      assert StartOf(sorted[i]) <= StartOf(sorted[j]);
      assert Meet(sorted[i], sorted[j]);
      TwoMeetInAnyOrder(sorted, stretches);
    }
    if TwoMeet(stretches) {
      TwoMeetInAnyOrder(stretches, sorted);
      var i, j :| 0 <= i < j < |sorted| && Meet(sorted[i], sorted[j]);
      assert sorted[j].start < sorted[i].end;
    }
  }

  /** Looking at neighbours in order only finds whether any two entries overlap, when each takes some time. */
  method Overlaps(stretches: seq<Stretch>) returns (found: bool)
    ensures var sorted := SortBy(stretches, StartOf); found <==> Overlapping(sorted, |sorted|)
    ensures TakeTime(stretches) ==> (found <==> TwoMeet(stretches))
  {
    var sorted := SortBy(stretches, StartOf);
    SortByOrders(stretches, StartOf);
    if TakeTime(stretches) {
      OverlappingIsMeeting(stretches, sorted);
    }
    found := false;
    var index := 1;
    while index < |sorted|
      invariant 1 <= index && (index <= |sorted| || sorted == [])
      invariant !Overlapping(sorted, index - 1)
    {
      NeighboursFirst(sorted, index - 1);
      if sorted[index].start < sorted[index - 1].end {
        return true;
      }
      index := index + 1;
    }
  }

  // --- Breaks ----------------------------------------------------------------------------------------

  function Minutes(stretch: Stretch): int {
    RoundOver(stretch.end - stretch.start, 60_000)
  }

  /** The minutes without work before stretch `i`. */
  function Gap(work: seq<Stretch>, i: nat): int
    requires 1 <= i < |work|
  {
    RoundOver(work[i].start - work[i - 1].end, 60_000)
  }

  /** What the first `n` stretches come to. */
  function Total(work: seq<Stretch>, n: nat): int
    requires n <= |work|
  {
    if n == 0 then 0 else Total(work, n - 1) + Minutes(work[n - 1])
  }

  /** The gaps between the first `n` stretches that are a break, each at least a block. */
  function Breaks(work: seq<Stretch>, block: int, n: nat): int
    requires n <= |work|
  {
    if n < 2 then 0 else Breaks(work, block, n - 1) + if Gap(work, n - 1) >= block then Gap(work, n - 1) else 0
  }

  /** The gaps between the first `n` stretches that are too short for a break. */
  function ShortGaps(work: seq<Stretch>, block: int, n: nat): int
    requires n <= |work|
  {
    if n < 2 then 0 else ShortGaps(work, block, n - 1) + if Gap(work, n - 1) < block then Gap(work, n - 1) else 0
  }

  /** From the start of stretch `i` through the end of stretch `j`, what lies between them included. */
  function Run(work: seq<Stretch>, i: nat, j: nat): int
    requires i <= j < |work|
  {
    if i == j then Minutes(work[i]) else Run(work, i, j - 1) + Gap(work, j) + Minutes(work[j])
  }

  ghost predicate Unbroken(work: seq<Stretch>, block: int, i: nat, j: nat)
    requires i <= j < |work|
  {
    forall k :: i < k <= j ==> Gap(work, k) < block
  }

  /** `longest` is one run without a break, and no run without a break is longer. */
  ghost predicate IsLongest(work: seq<Stretch>, block: int, longest: int) {
    && (exists i, j :: 0 <= i <= j < |work| && Unbroken(work, block, i, j) && Run(work, i, j) == longest)
    && (forall i, j :: 0 <= i <= j < |work| && Unbroken(work, block, i, j) ==> Run(work, i, j) <= longest)
  }

  /** Where the loop stands before stretch `n`: the run it is in began at `first`, and no earlier run was longer. */
  ghost predicate Looked(work: seq<Stretch>, block: int, n: nat, longest: int, running: int, first: nat)
    requires first < n <= |work|
  {
    && Unbroken(work, block, first, n - 1) && Run(work, first, n - 1) == running
    && (first > 0 ==> Gap(work, first) >= block)
    && (longest == 0 || exists i, j :: 0 <= i <= j < n && Unbroken(work, block, i, j) && Run(work, i, j) == longest)
    && (forall i, j :: 0 <= i <= j < first && Unbroken(work, block, i, j) ==> Run(work, i, j) <= longest)
  }

  lemma {:induction false} LaterStartRunsShorter(work: seq<Stretch>, i: nat, k: nat, j: nat)
    requires Apart(work) && i <= k <= j < |work|
    ensures 0 <= Run(work, k, j) <= Run(work, i, j)
  {
    Long(work, j);
    if k < j {
      LaterStartRunsShorter(work, i, k, j - 1);
    } else if i < j {
      LaterStartRunsShorter(work, i, i, j - 1);
    }
  }

  lemma {:induction false} EarlierEndRunsShorter(work: seq<Stretch>, i: nat, k: nat, j: nat)
    requires Apart(work) && i <= k <= j < |work|
    ensures Run(work, i, k) <= Run(work, i, j)
  {
    Long(work, j);
    if k < j {
      EarlierEndRunsShorter(work, i, k, j - 1);
    }
  }

  lemma Long(work: seq<Stretch>, j: nat)
    requires Apart(work) && j < |work|
    ensures Minutes(work[j]) >= 0 && (j > 0 ==> Gap(work, j) >= 0)
  {
    RoundMonotone(0, work[j].end - work[j].start, 60_000);
  }

  /** A run without a break that ends before stretch `n` lies in the current run or before it. */
  lemma {:induction false} NoLongerRun(work: seq<Stretch>, block: int, n: nat, longest: int, running: int, first: nat,
                                       i: nat, j: nat)
    requires Apart(work) && first < n <= |work| && Looked(work, block, n, longest, running, first)
    requires i <= j < n && Unbroken(work, block, i, j)
    ensures Run(work, i, j) <= if longest > running then longest else running
  {
    if j >= first {
      assert first <= i;
      EarlierEndRunsShorter(work, i, j, n - 1);
      LaterStartRunsShorter(work, first, i, n - 1);
    }
  }

  method BreaksAndLongestRun(work: seq<Stretch>, block: int) returns (total: int, breaks: int, longest: int)
    requires Apart(work) && work != []
    ensures total == Total(work, |work|)
    ensures breaks == Breaks(work, block, |work|)
    ensures IsLongest(work, block, longest)
  {
    total := 0;
    for index := 0 to |work|
      invariant total == Total(work, index)
    {
      total := total + Minutes(work[index]);
    }
    breaks, longest := 0, 0;
    var running := Minutes(work[0]);
    ghost var first := 0;
    for index := 1 to |work|
      invariant breaks == Breaks(work, block, index)
      invariant 0 <= first < index && Looked(work, block, index, longest, running, first)
    {
      var gap := Gap(work, index);
      if gap >= block {
        BreakEndsTheRun(work, block, index, longest, running, first);
        breaks := breaks + gap;
        longest := if longest > running then longest else running;
        running := Minutes(work[index]);
        first := index;
      } else {
        RunGoesOn(work, block, index, longest, running, first);
        running := running + gap + Minutes(work[index]);
      }
    }
    LastRunCounts(work, block, longest, running, first);
    longest := if longest > running then longest else running;
  }

  lemma BreakEndsTheRun(work: seq<Stretch>, block: int, n: nat, longest: int, running: int, first: nat)
    requires Apart(work) && first < n < |work| && Looked(work, block, n, longest, running, first) && Gap(work, n) >= block
    ensures Looked(work, block, n + 1, if longest > running then longest else running, Minutes(work[n]), n)
  {
    forall i, j | 0 <= i <= j < n && Unbroken(work, block, i, j)
      ensures Run(work, i, j) <= if longest > running then longest else running
    {
      NoLongerRun(work, block, n, longest, running, first, i, j);
    }
  }

  lemma RunGoesOn(work: seq<Stretch>, block: int, n: nat, longest: int, running: int, first: nat)
    requires Apart(work) && first < n < |work| && Looked(work, block, n, longest, running, first) && Gap(work, n) < block
    ensures Looked(work, block, n + 1, longest, running + Gap(work, n) + Minutes(work[n]), first)
  {}

  lemma LastRunCounts(work: seq<Stretch>, block: int, longest: int, running: int, first: nat)
    requires Apart(work) && first < |work| && Looked(work, block, |work|, longest, running, first)
    ensures IsLongest(work, block, if longest > running then longest else running)
  {
    var n := |work|;
    forall i, j | 0 <= i <= j < n && Unbroken(work, block, i, j)
      ensures Run(work, i, j) <= if longest > running then longest else running
    {
      NoLongerRun(work, block, n, longest, running, first, i, j);
    }
    LaterStartRunsShorter(work, first, first, n - 1);
  }

  // --- What rounding costs ---------------------------------------------------------------------------

  /** How much longer a length becomes when it is counted in minutes, in milliseconds. */
  function Rounded(length: int): (extra: int)
    ensures -30_000 < extra <= 30_000
  {
    RoundOver(length, 60_000) * 60_000 - length
  }

  /** The same for the stretches from `0` to `j` and the gaps between them, all together. */
  function RoundedUpTo(work: seq<Stretch>, j: nat): int
    requires j < |work|
  {
    Rounded(work[j].end - work[j].start)
    + if j == 0 then 0 else RoundedUpTo(work, j - 1) + Rounded(work[j].start - work[j - 1].end)
  }

  lemma {:induction false} RunIsItsSpanRounded(work: seq<Stretch>, j: nat)
    requires j < |work|
    ensures Run(work, 0, j) * 60_000 == work[j].end - work[0].start + RoundedUpTo(work, j)
    ensures -30_000 * (2 * j + 1) <= RoundedUpTo(work, j) <= 30_000 * (2 * j + 1)
  {
    if j > 0 {
      RunIsItsSpanRounded(work, j - 1);
    }
  }

  lemma {:induction false} RunIsWorkAndGaps(work: seq<Stretch>, block: int, n: nat)
    requires 0 < n <= |work|
    ensures Run(work, 0, n - 1) == Total(work, n) + Breaks(work, block, n) + ShortGaps(work, block, n)
  {
    if n == 1 {
      assert Total(work, 1) == Total(work, 0) + Minutes(work[0]);
    } else {
      RunIsWorkAndGaps(work, block, n - 1);
    }
  }

  /** Work, breaks and gaps too short for one, in milliseconds. */
  function WorkAndGaps(work: seq<Stretch>, block: int): int {
    (Total(work, |work|) + Breaks(work, block, |work|) + ShortGaps(work, block, |work|)) * 60_000
  }

  /**
   * Work, breaks and short gaps make the time from the first start to the last
   * end, but for what is rounded: exactly where the roundings cancel out, and
   * always up to half a minute for each stretch and each gap.
   */
  lemma {:induction false} DayIsWorkAndGaps(work: seq<Stretch>, block: int)
    requires work != []
    ensures var n := |work|;
      var span := work[n - 1].end - work[0].start;
      && WorkAndGaps(work, block) == span + RoundedUpTo(work, n - 1)
      && (WorkAndGaps(work, block) == span <==> RoundedUpTo(work, n - 1) == 0)
      && -30_000 * (2 * n - 1) <= WorkAndGaps(work, block) - span <= 30_000 * (2 * n - 1)
  {
    RunIsItsSpanRounded(work, |work| - 1);
    RunIsWorkAndGaps(work, block, |work|);
  }

  /** Every stretch and every gap takes whole minutes, as when all times lie on the same second. */
  ghost predicate InWholeMinutes(work: seq<Stretch>) {
    && (forall i :: 0 <= i < |work| ==> (work[i].end - work[i].start) % 60_000 == 0)
    && (forall i :: 1 <= i < |work| ==> (work[i].start - work[i - 1].end) % 60_000 == 0)
  }

  lemma WholeMinutesAreKept(length: int)
    requires length % 60_000 == 0
    ensures Rounded(length) == 0
  {
    RoundOfWhole(length / 60_000, 60_000);
  }

  lemma {:induction false} NothingIsRounded(work: seq<Stretch>, j: nat)
    requires InWholeMinutes(work) && j < |work|
    ensures RoundedUpTo(work, j) == 0
  {
    WholeMinutesAreKept(work[j].end - work[j].start);
    if j > 0 {
      WholeMinutesAreKept(work[j].start - work[j - 1].end);
      NothingIsRounded(work, j - 1);
    }
  }

  /** In whole minutes nothing is rounded, and every minute from the first start to the last end is accounted for. */
  lemma WholeMinutesAddUp(work: seq<Stretch>, block: int)
    requires InWholeMinutes(work) && work != []
    ensures WorkAndGaps(work, block) == work[|work| - 1].end - work[0].start
  {
    DayIsWorkAndGaps(work, block);
    NothingIsRounded(work, |work| - 1);
  }

  /** The bound is met: of half minutes each is rounded up, two stretches and a gap by half a minute each. */
  lemma HalfMinutesAreRoundedUp()
    ensures var work := [Stretch(0, 30_000), Stretch(60_000, 90_000)];
      Apart(work) && WorkAndGaps(work, 15) - (work[1].end - work[0].start) == 30_000 * 3
  {
    var work := [Stretch(0, 30_000), Stretch(60_000, 90_000)];
    DayIsWorkAndGaps(work, 15);
    assert RoundedUpTo(work, 0) == 30_000 && Rounded(30_000) == 30_000;
  }
}
