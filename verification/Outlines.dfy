/** How a document is laid out: numbers, section sums, and moving a line or a whole section. */
module Outlines {
  import opened Wrappers
  import opened Invoices
  import opened Text

  datatype Row =
    | TitleRow(number: string, line: Line)
    | ItemRow(number: string, line: Line)
    | SubtotalRow(number: string, designation: string, netCents: int)

  /** The section that is open while the rows are written. */
  datatype Section = Section(number: string, designation: string, netCents: int, items: int)

  // --- Sections --------------------------------------------------------------------------------------

  predicate IsTitle(line: Line) {
    line.kind == Title
  }

  predicate NoTitle(lines: seq<Line>, from: int, end: int)
    requires 0 <= from && end <= |lines|
  {
    forall i :: from <= i < end ==> !IsTitle(lines[i])
  }

  /** `findLastIndex` of a title, -1 where there is none. */
  function LastTitle(lines: seq<Line>): (at: int)
    ensures -1 <= at < |lines|
  {
    var n := |lines|;
    if n == 0 then -1 else if IsTitle(lines[n - 1]) then n - 1 else LastTitle(lines[..n - 1])
  }

  lemma {:induction false} LastTitleHas(lines: seq<Line>)
    ensures var at := LastTitle(lines); (at >= 0 ==> IsTitle(lines[at])) && NoTitle(lines, at + 1, |lines|)
  {
    var n := |lines|;
    if n > 0 && !IsTitle(lines[n - 1]) {
      LastTitleHas(lines[..n - 1]);
    }
  }

  lemma {:induction false} LastTitleIs(lines: seq<Line>, at: nat)
    requires at < |lines| && IsTitle(lines[at]) && NoTitle(lines, at + 1, |lines|)
    ensures LastTitle(lines) == at
  {
    LastTitleHas(lines);
  }

  /** The index behind the last line that belongs under the title at `start`. */
  function SectionEnd(lines: seq<Line>, start: nat): (end: nat)
    requires start < |lines|
    ensures start < end <= |lines|
    decreases |lines| - start
  {
    if start + 1 == |lines| || IsTitle(lines[start + 1]) then start + 1 else SectionEnd(lines, start + 1)
  }

  lemma {:induction false} SectionEndHas(lines: seq<Line>, start: nat)
    requires start < |lines|
    ensures var end := SectionEnd(lines, start); NoTitle(lines, start + 1, end) && (end < |lines| ==> IsTitle(lines[end]))
    decreases |lines| - start
  {
    if start + 1 < |lines| && !IsTitle(lines[start + 1]) {
      SectionEndHas(lines, start + 1);
    }
  }

  lemma {:induction false} SectionEndIs(lines: seq<Line>, start: nat, end: nat)
    requires start < end <= |lines| && NoTitle(lines, start + 1, end) && (end < |lines| ==> IsTitle(lines[end]))
    ensures SectionEnd(lines, start) == end
  {
    SectionEndHas(lines, start);
  }

  // --- The rows --------------------------------------------------------------------------------------

  function TitleCount(lines: seq<Line>): nat {
    if lines == [] then 0 else TitleCount(lines[..|lines| - 1]) + if IsTitle(lines[|lines| - 1]) then 1 else 0
  }

  /** Positions numbered 1, 2, 3 behind what they all begin with. */
  function Numbered(items: seq<Line>, begin: string): (rows: seq<Row>)
    ensures |rows| == |items|
  {
    if items == [] then []
    else Numbered(items[..|items| - 1], begin) + [ItemRow(begin + Decimal(|items|), items[|items| - 1])]
  }

  /** A title, its positions, and their sum where there are any. */
  function SectionRows(title: Line, count: nat, items: seq<Line>): seq<Row> {
    var number := Decimal(count);
    [TitleRow(number, title)] + Numbered(items, number + ".")
    + if items == [] then [] else [SubtotalRow(number, title.designation, NetOfLines(items))]
  }

  /** A document as it reads: what stands before the first title, then section after section. */
  function Layout(lines: seq<Line>): seq<Row> {
    var last := LastTitle(lines);
    if last < 0 then Numbered(lines, "")
    else Layout(lines[..last]) + SectionRows(lines[last], TitleCount(lines[..last]) + 1, lines[last + 1..])
  }

  function Closing(open: Option<Section>): seq<Row> {
    if open.Some? && open.value.items > 0 then [SubtotalRow(open.value.number, open.value.designation, open.value.netCents)]
    else []
  }

  /** What the loop keeps while it reads the lines. */
  datatype Outline = Outline(rows: seq<Row>, titles: nat, loose: nat, open: Option<Section>)

  function After(lines: seq<Line>): Outline {
    if lines == [] then Outline([], 0, 0, None) else Next(After(lines[..|lines| - 1]), lines[|lines| - 1])
  }

  function Next(at: Outline, line: Line): Outline {
    if IsTitle(line) then
      var number := Decimal(at.titles + 1);
      Outline(at.rows + Closing(at.open) + [TitleRow(number, line)], at.titles + 1, at.loose,
              Some(Section(number, line.designation, 0, 0)))
    else if at.open.Some? then
      var Section(number, designation, netCents, items) := at.open.value;
      Outline(at.rows + [ItemRow(number + "." + Decimal(items + 1), line)], at.titles, at.loose,
              Some(Section(number, designation, netCents + line.netCents, items + 1)))
    else Outline(at.rows + [ItemRow(Decimal(at.loose + 1), line)], at.titles, at.loose + 1, None)
  }

  method OutlineRows(lines: seq<Line>) returns (rows: seq<Row>)
    ensures rows == Layout(lines)
  {
    rows := [];
    var titles, loose := 0, 0;
    var open: Option<Section> := None;
    for i := 0 to |lines|
      invariant Outline(rows, titles, loose, open) == After(lines[..i])
    {
      var line := lines[i];
      assert lines[..i + 1][..i] == lines[..i];
      if line.kind == Title {
        rows := rows + Closing(open);
        titles := titles + 1;
        open := Some(Section(Decimal(titles), line.designation, 0, 0));
        rows := rows + [TitleRow(open.value.number, line)];
      } else if open.Some? {
        var section := open.value;
        open := Some(section.(items := section.items + 1, netCents := section.netCents + line.netCents));
        rows := rows + [ItemRow(section.number + "." + Decimal(open.value.items), line)];
      } else {
        loose := loose + 1;
        rows := rows + [ItemRow(Decimal(loose), line)];
      }
    }
    assert lines[..|lines|] == lines;
    AfterIsTheLayout(lines);
    rows := rows + Closing(open);
  }

  /** The open section is the one of the last title, and only its sum is still to be written. */
  ghost predicate Written(lines: seq<Line>, at: Outline) {
    var last := LastTitle(lines);
    && at.titles == TitleCount(lines)
    && if last < 0 then at == Outline(Numbered(lines, ""), 0, |lines|, None)
       else
         var items, number := lines[last + 1..], Decimal(at.titles);
         && at.titles == TitleCount(lines[..last]) + 1
         && at.open == Some(Section(number, lines[last].designation, NetOfLines(items), |items|))
         && at.rows == Layout(lines[..last]) + ([TitleRow(number, lines[last])] + Numbered(items, number + "."))
  }

  lemma {:induction false} ClosedIsTheLayout(lines: seq<Line>, at: Outline)
    requires Written(lines, at)
    ensures at.rows + Closing(at.open) == Layout(lines)
  {}

  lemma TitleOpens(lines: seq<Line>, at: Outline)
    requires lines != [] && IsTitle(lines[|lines| - 1]) && Written(lines[..|lines| - 1], at)
    ensures Written(lines, Next(at, lines[|lines| - 1]))
  {
    var n := |lines|;
    ClosedIsTheLayout(lines[..n - 1], at);
    assert lines[n..] == [];
  }

  lemma {:induction false} LooseItemFollows(lines: seq<Line>, at: Outline)
    requires lines != [] && LastTitle(lines) < 0 && Written(lines[..|lines| - 1], at)
    ensures Written(lines, Next(at, lines[|lines| - 1]))
  {
    var n := |lines|;
    assert at == Outline(Numbered(lines[..n - 1], ""), 0, n - 1, None);
    assert "" + Decimal(n) == Decimal(n);
  }

  lemma {:induction false} ItemFollows(lines: seq<Line>, at: Outline)
    requires lines != [] && !IsTitle(lines[|lines| - 1]) && LastTitle(lines) >= 0 && Written(lines[..|lines| - 1], at)
    ensures Written(lines, Next(at, lines[|lines| - 1]))
  {
    var n, last := |lines|, LastTitle(lines);
    var items, fewer := lines[last + 1..], lines[..n - 1][last + 1..];
    assert lines[..n - 1][..last] == lines[..last];
    assert items[..|items| - 1] == fewer && items[|items| - 1] == lines[n - 1];
    assert NetOfLines(items) == NetOfLines(fewer) + lines[n - 1].netCents;
    assert Numbered(items, Decimal(at.titles) + ".")
        == Numbered(fewer, Decimal(at.titles) + ".") + [ItemRow(Decimal(at.titles) + "." + Decimal(|items|), lines[n - 1])];
  }

  lemma {:induction false} AfterIsWritten(lines: seq<Line>)
    ensures Written(lines, After(lines))
  {
    var n := |lines|;
    if n > 0 {
      AfterIsWritten(lines[..n - 1]);
      if IsTitle(lines[n - 1]) {
        TitleOpens(lines, After(lines[..n - 1]));
      } else if LastTitle(lines) < 0 {
        LooseItemFollows(lines, After(lines[..n - 1]));
      } else {
        ItemFollows(lines, After(lines[..n - 1]));
      }
    }
  }

  lemma {:induction false} AfterIsTheLayout(lines: seq<Line>)
    ensures After(lines).rows + Closing(After(lines).open) == Layout(lines)
  {
    AfterIsWritten(lines);
    ClosedIsTheLayout(lines, After(lines));
  }

  // --- What the rows say -----------------------------------------------------------------------------

  predicate HasTitle(rows: seq<Row>) {
    exists i :: 0 <= i < |rows| && rows[i].TitleRow?
  }

  /** What a reader adds up: the positions before the first title, and the sums below the sections. */
  function ReadOff(rows: seq<Row>): int {
    if rows == [] then 0
    else
      var front := rows[..|rows| - 1];
      ReadOff(front) + match rows[|rows| - 1]
        case TitleRow(_, _) => 0
        case ItemRow(_, line) => if HasTitle(front) then 0 else line.netCents
        case SubtotalRow(_, _, netCents) => netCents
  }

  /** The lines of the rows, sums left out. */
  function LinesOf(rows: seq<Row>): seq<Line> {
    if rows == [] then []
    else
      var last := rows[|rows| - 1];
      LinesOf(rows[..|rows| - 1]) + if last.SubtotalRow? then [] else [last.line]
  }

  lemma {:induction false} OneRowMore(rows: seq<Row>, row: Row)
    ensures LinesOf(rows + [row]) == LinesOf(rows) + if row.SubtotalRow? then [] else [row.line]
    ensures ReadOff(rows + [row]) == ReadOff(rows) + match row
        case TitleRow(_, _) => 0
        case ItemRow(_, line) => if HasTitle(rows) then 0 else line.netCents
        case SubtotalRow(_, _, netCents) => netCents
    ensures HasTitle(rows + [row]) <==> HasTitle(rows) || row.TitleRow?
  {
    var more := rows + [row];
    assert more[..|rows|] == rows && more[|rows|] == row;
    if i :| 0 <= i < |rows| && rows[i].TitleRow? {
      assert more[i].TitleRow?;
    }
  }

  lemma {:induction false} NumberedRows(rows: seq<Row>, items: seq<Line>, begin: string)
    requires NoTitle(items, 0, |items|)
    ensures var more := rows + Numbered(items, begin);
      && LinesOf(more) == LinesOf(rows) + items
      && ReadOff(more) == ReadOff(rows) + (if HasTitle(rows) then 0 else NetOfLines(items))
      && (HasTitle(more) <==> HasTitle(rows))
  {
    var n := |items|;
    if n == 0 {
      assert rows + Numbered(items, begin) == rows;
    } else {
      var front, row := items[..n - 1], ItemRow(begin + Decimal(n), items[n - 1]);
      NumberedRows(rows, front, begin);
      OneRowMore(rows + Numbered(front, begin), row);
      assert rows + Numbered(items, begin) == rows + Numbered(front, begin) + [row];
      assert items == front + [items[n - 1]];
    }
  }

  lemma OneByOne<T>(rows: seq<T>, a: seq<T>, b: seq<T>, c: seq<T>)
    ensures rows + (a + b + c) == ((rows + a) + b) + c
  {}

  /** The same with the number given, so that nothing depends on how it is written. */
  lemma {:induction false} SumBelow(rows: seq<Row>, number: string, title: Line, items: seq<Line>, sum: Row)
    requires NoTitle(items, 0, |items|) && sum == SubtotalRow(number, title.designation, NetOfLines(items))
    ensures var filled := rows + [TitleRow(number, title)] + Numbered(items, number + ".");
      && LinesOf(filled) == LinesOf(rows) + [title] + items && ReadOff(filled) == ReadOff(rows)
      && LinesOf(filled + [sum]) == LinesOf(filled) && ReadOff(filled + [sum]) == ReadOff(rows) + NetOfLines(items)
  {
    var headed := rows + [TitleRow(number, title)];
    OneRowMore(rows, TitleRow(number, title));
    NumberedRows(headed, items, number + ".");
    OneRowMore(headed + Numbered(items, number + "."), sum);
  }

  lemma {:induction false} SectionReads(rows: seq<Row>, title: Line, count: nat, items: seq<Line>)
    requires NoTitle(items, 0, |items|)
    ensures var more := rows + SectionRows(title, count, items);
      LinesOf(more) == LinesOf(rows) + [title] + items && ReadOff(more) == ReadOff(rows) + NetOfLines(items)
  {
    var number := Decimal(count);
    var sum := SubtotalRow(number, title.designation, NetOfLines(items));
    SumBelow(rows, number, title, items, sum);
    OneByOne(rows, [TitleRow(number, title)], Numbered(items, number + "."), if items == [] then [] else [sum]);
  }

  lemma {:induction false} NetOfBoth(a: seq<Line>, b: seq<Line>)
    ensures NetOfLines(a + b) == NetOfLines(a) + NetOfLines(b)
  {
    if b == [] {
      assert a + b == a;
    } else {
      NetOfBoth(a, b[..|b| - 1]);
      assert (a + b)[..|a + b| - 1] == a + b[..|b| - 1];
    }
  }

  lemma {:induction false} NetOfSection(before: seq<Line>, title: Line, items: seq<Line>)
    requires IsTitle(title)
    ensures NetOfLines(before + [title] + items) == NetOfLines(before) + NetOfLines(items)
  {
    assert (before + [title])[..|before|] == before;
    NetOfBoth(before + [title], items);
  }

  lemma Parted<T>(s: seq<T>, i: nat)
    requires i < |s|
    ensures s[..i] + [s[i]] + s[i + 1..] == s
  {}

  ghost predicate ReadsAs(rows: seq<Row>, lines: seq<Line>) {
    LinesOf(rows) == lines && ReadOff(rows) == NetOfLines(lines)
  }

  lemma OneSectionMore(rows: seq<Row>, before: seq<Line>, title: Line, count: nat, items: seq<Line>)
    requires ReadsAs(rows, before) && IsTitle(title) && NoTitle(items, 0, |items|)
    ensures ReadsAs(rows + SectionRows(title, count, items), before + [title] + items)
  {
    SectionReads(rows, title, count, items);
    NetOfSection(before, title, items);
  }

  /**
   * However the lines are ordered: without the sums the rows are the lines, and the sums of the
   * sections with the positions before the first title come to the net total of the document.
   */
  lemma {:induction false} SubtotalsMakeTheNet(lines: seq<Line>)
    ensures ReadsAs(Layout(lines), lines)
    decreases |lines|
  {
    var last := LastTitle(lines);
    LastTitleHas(lines);
    if last < 0 {
      NumberedRows([], lines, "");
      assert [] + Numbered(lines, "") == Layout(lines);
    } else {
      var before := lines[..last];
      SubtotalsMakeTheNet(before);
      OneSectionMore(Layout(before), before, lines[last], TitleCount(before) + 1, lines[last + 1..]);
      Parted(lines, last);
    }
  }

  // --- The numbers -----------------------------------------------------------------------------------

  /** The number of the `k`-th position of the `t`-th title, or of those before the first title. */
  function ItemNumber(t: nat, k: nat): string {
    (if t == 0 then "" else Decimal(t) + ".") + Decimal(k)
  }

  lemma {:induction false} SameDecimal(a: nat, b: nat)
    ensures Decimal(a) == Decimal(b) ==> a == b
  {
    DecimalDigits(a);
    DecimalDigits(b);
  }

  lemma {:induction false} NumberSplits(t: nat, k: nat)
    ensures Split(ItemNumber(t, k), '.') == if t == 0 then [Decimal(k)] else [Decimal(t), Decimal(k)]
  {
    SplitPart(Decimal(k), '.', "");
    if t == 0 {
      assert "" + Decimal(k) == Decimal(k);
    } else {
      SplitPart(Decimal(t), '.', Decimal(k));
    }
  }

  lemma NumberSaysWhere(t: nat, k: nat, u: nat, l: nat)
    requires ItemNumber(t, k) == ItemNumber(u, l)
    ensures t == u && k == l
  {
    NumberSplits(t, k);
    NumberSplits(u, l);
    SameDecimal(t, u);
    SameDecimal(k, l);
  }

  /** Row `i` is no position, or one numbered under one of the first `n` titles. */
  ghost predicate NumberedWithin(rows: seq<Row>, n: nat) {
    forall i :: 0 <= i < |rows| && rows[i].ItemRow? ==> exists t: nat, k: nat :: t <= n && rows[i].number == ItemNumber(t, k)
  }

  ghost predicate NoNumberTwice(rows: seq<Row>) {
    forall i, j :: 0 <= i < j < |rows| && rows[i].ItemRow? && rows[j].ItemRow? ==> rows[i].number != rows[j].number
  }

  lemma {:induction false} NumberedAre(items: seq<Line>, begin: string, i: nat)
    requires i < |items|
    ensures Numbered(items, begin)[i] == ItemRow(begin + Decimal(i + 1), items[i])
  {
    if i < |items| - 1 {
      NumberedAre(items[..|items| - 1], begin, i);
    }
  }

  /** Rows of which each position is the next one under the same title. */
  ghost predicate CountedUnder(rows: seq<Row>, t: nat) {
    forall i :: 0 <= i < |rows| && rows[i].ItemRow? ==> rows[i].number == ItemNumber(t, i)
  }

  lemma CountedOnce(rows: seq<Row>, t: nat)
    requires CountedUnder(rows, t)
    ensures NoNumberTwice(rows) && NumberedWithin(rows, t)
  {
    forall i, j | 0 <= i < j < |rows| && rows[i].ItemRow? && rows[j].ItemRow? ensures rows[i].number != rows[j].number {
      if rows[i].number == rows[j].number {
        NumberSaysWhere(t, i, t, j);
      }
    }
  }

  lemma SectionIsCounted(title: Line, count: nat, items: seq<Line>)
    requires count > 0
    ensures CountedUnder(SectionRows(title, count, items), count)
  {
    var begin := Decimal(count) + ".";
    forall i | 0 <= i < |items| ensures Numbered(items, begin)[i].number == ItemNumber(count, i + 1) {
      NumberedAre(items, begin, i);
    }
  }

  lemma NoNumberTwiceTogether(rows: seq<Row>, section: seq<Row>, n: nat)
    requires NoNumberTwice(rows) && NumberedWithin(rows, n) && CountedUnder(section, n + 1)
    ensures NoNumberTwice(rows + section) && NumberedWithin(rows + section, n + 1)
  {
    var more := rows + section;
    CountedOnce(section, n + 1);
    forall i, j | 0 <= i < j < |more| && more[i].ItemRow? && more[j].ItemRow? ensures more[i].number != more[j].number {
      if i < |rows| <= j {
        var t: nat, k: nat :| t <= n && rows[i].number == ItemNumber(t, k);
        assert more[j] == section[j - |rows|];
        if more[i].number == more[j].number {
          NumberSaysWhere(t, k, n + 1, j - |rows|);
        }
      } else if |rows| <= i {
        assert more[i] == section[i - |rows|] && more[j] == section[j - |rows|];
      }
    }
    forall i | 0 <= i < |more| && more[i].ItemRow?
      ensures exists t: nat, k: nat :: t <= n + 1 && more[i].number == ItemNumber(t, k)
    {
      if i < |rows| {
        var t: nat, k: nat :| t <= n && rows[i].number == ItemNumber(t, k);
      } else {
        assert more[i] == section[i - |rows|];
      }
    }
  }

  lemma {:induction false} LooseAreCounted(lines: seq<Line>)
    ensures NoNumberTwice(Numbered(lines, "")) && NumberedWithin(Numbered(lines, ""), 0)
  {
    var rows := Numbered(lines, "");
    forall i | 0 <= i < |lines| ensures rows[i].number == ItemNumber(0, i + 1) {
      NumberedAre(lines, "", i);
    }
    forall i, j | 0 <= i < j < |rows| ensures rows[i].number != rows[j].number {
      if rows[i].number == rows[j].number {
        NumberSaysWhere(0, i + 1, 0, j + 1);
      }
    }
  }

  /** However the lines are ordered, no two positions of a document have the same number. */
  lemma {:induction false} NumbersAreDistinct(lines: seq<Line>)
    ensures NoNumberTwice(Layout(lines)) && NumberedWithin(Layout(lines), TitleCount(lines))
    decreases |lines|
  {
    var last := LastTitle(lines);
    LastTitleHas(lines);
    if last < 0 {
      LooseAreCounted(lines);
    } else {
      var count := TitleCount(lines[..last]);
      NumbersAreDistinct(lines[..last]);
      SectionIsCounted(lines[last], count + 1, lines[last + 1..]);
      NoNumberTwiceTogether(Layout(lines[..last]), SectionRows(lines[last], count + 1, lines[last + 1..]), count);
      TitlesBefore(lines, last);
    }
  }

  lemma {:induction false} TitlesBefore(lines: seq<Line>, last: nat)
    requires last < |lines| && IsTitle(lines[last]) && NoTitle(lines, last + 1, |lines|)
    ensures TitleCount(lines) == TitleCount(lines[..last]) + 1
  {
    var n := |lines|;
    if last < n - 1 {
      TitlesBefore(lines[..n - 1], last);
      assert lines[..n - 1][..last] == lines[..last];
    }
  }

  // --- Moving ----------------------------------------------------------------------------------------

  /** One step up or down. */
  type Step = step: int | step == -1 || step == 1 witness 1

  function Opposite(step: Step): Step {
    if step == 1 then -1 else 1
  }

  /** Two neighbouring stretches of the lines change places. */
  function Exchanged(lines: seq<Line>, a: nat, b: nat, c: nat): seq<Line>
    requires a <= b <= c <= |lines|
  {
    lines[..a] + lines[b..c] + lines[a..b] + lines[c..]
  }

  /** A step up or down: of a position past one line, of a title with its section past a section; none if blocked. */
  function MovedInOutline(lines: seq<Line>, index: int, step: Step): Option<seq<Line>> {
    if index < 0 || index >= |lines| then None
    else if !IsTitle(lines[index]) then
      var target := index + step;
      if target < 0 || target >= |lines| then None
      else
        var order := lines[..index] + lines[index + 1..];
        Some(order[..target] + [lines[index]] + order[target..])
    else
      var end := SectionEnd(lines, index);
      if step == 1 then
        if end >= |lines| then None else Some(Exchanged(lines, index, end, SectionEnd(lines, end)))
      else
        var previous := LastTitle(lines[..index]);
        if previous < 0 then None else Some(Exchanged(lines, previous, index, end))
  }

  /** Where the line stands after the move. */
  function NewPlace(lines: seq<Line>, index: int, step: Step): int
    requires MovedInOutline(lines, index, step).Some?
  {
    if !IsTitle(lines[index]) then index + step
    else if step == 1 then
      var end := SectionEnd(lines, index);
      index + SectionEnd(lines, end) - end
    else LastTitle(lines[..index])
  }

  lemma ExchangedBack(lines: seq<Line>, a: nat, b: nat, c: nat)
    requires a <= b <= c <= |lines|
    ensures var order := Exchanged(lines, a, b, c);
      |order| == |lines| && Exchanged(order, a, a + c - b, c) == lines
  {
    var order := Exchanged(lines, a, b, c);
    assert order[..a] == lines[..a] && order[a + c - b..c] == lines[a..b];
    assert order[a..a + c - b] == lines[b..c] && order[c..] == lines[c..];
  }

  lemma ExchangedIsThere(lines: seq<Line>, a: nat, b: nat, c: nat)
    requires a <= b <= c <= |lines|
    ensures multiset(Exchanged(lines, a, b, c)) == multiset(lines)
  {
    assert lines == lines[..a] + lines[a..b] + lines[b..c] + lines[c..];
  }

  /** Which stretches change places: a position and its neighbour, or a section and the one beside it. */
  function Moves(lines: seq<Line>, index: int, step: Step): (abc: (nat, nat, nat))
    requires MovedInOutline(lines, index, step).Some?
    ensures abc.0 < abc.1 < abc.2 <= |lines|
  {
    if !IsTitle(lines[index]) then
      if step == 1 then (index, index + 1, index + 2) else (index - 1, index, index + 1)
    else
      var end := SectionEnd(lines, index);
      if step == 1 then (index, end, SectionEnd(lines, end)) else (LastTitle(lines[..index]), index, end)
  }

  lemma MoveExchanges(lines: seq<Line>, index: int, step: Step)
    requires MovedInOutline(lines, index, step).Some?
    ensures var abc := Moves(lines, index, step);
      && MovedInOutline(lines, index, step) == Some(Exchanged(lines, abc.0, abc.1, abc.2))
      && index == (if step == 1 then abc.0 else abc.1)
      && NewPlace(lines, index, step) == (if step == 1 then abc.0 + abc.2 - abc.1 else abc.0)
  {
    if !IsTitle(lines[index]) {
      var order, target := lines[..index] + lines[index + 1..], index + step;
      var abc := Moves(lines, index, step);
      assert order[..target] + [lines[index]] + order[target..] == Exchanged(lines, abc.0, abc.1, abc.2);
    }
  }

  /** From `a` and from `b` two whole sections stand side by side. */
  ghost predicate SideBySide(lines: seq<Line>, a: nat, b: nat, c: nat) {
    && a < b < c <= |lines| && IsTitle(lines[a]) && IsTitle(lines[b]) && (c < |lines| ==> IsTitle(lines[c]))
    && NoTitle(lines, a + 1, b) && NoTitle(lines, b + 1, c)
  }

  lemma SideBySideOnceMore(lines: seq<Line>, a: nat, b: nat, c: nat)
    requires SideBySide(lines, a, b, c)
    ensures SideBySide(Exchanged(lines, a, b, c), a, a + c - b, c)
  {
    var order, d := Exchanged(lines, a, b, c), a + c - b;
    forall i | a < i < c && i != d ensures !IsTitle(order[i]) {
      assert order[i] == if i < d then lines[i + b - a] else lines[i - (c - b)];
    }
    assert order[a] == lines[b] && order[d] == lines[a] && (c < |lines| ==> order[c] == lines[c]);
  }

  lemma {:induction false} SectionsAre(lines: seq<Line>, a: nat, b: nat, c: nat)
    requires SideBySide(lines, a, b, c)
    ensures SectionEnd(lines, a) == b && SectionEnd(lines, b) == c && LastTitle(lines[..b]) == a
  {
    SectionEndIs(lines, a, b);
    SectionEndIs(lines, b, c);
    LastTitleIs(lines[..b], a);
  }

  lemma TitleMovesASection(lines: seq<Line>, index: int, step: Step)
    requires MovedInOutline(lines, index, step).Some? && IsTitle(lines[index])
    ensures var abc := Moves(lines, index, step); SideBySide(lines, abc.0, abc.1, abc.2)
  {
    SectionEndHas(lines, index);
    if step == 1 {
      SectionEndHas(lines, SectionEnd(lines, index));
    } else {
      var previous := LastTitle(lines[..index]);
      LastTitleHas(lines[..index]);
      assert forall i :: previous < i < index ==> !IsTitle(lines[..index][i]) && lines[..index][i] == lines[i];
    }
  }

  /** Moving changes the order and nothing else. */
  lemma MoveKeepsTheLines(lines: seq<Line>, index: int, step: Step)
    requires MovedInOutline(lines, index, step).Some?
    ensures var order := MovedInOutline(lines, index, step).value;
      multiset(order) == multiset(lines) && order[NewPlace(lines, index, step)] == lines[index]
  {
    var abc := Moves(lines, index, step);
    MoveExchanges(lines, index, step);
    ExchangedIsThere(lines, abc.0, abc.1, abc.2);
  }

  lemma DownExchanges(lines: seq<Line>, index: int) returns (end: nat, next: nat)
    requires MovedInOutline(lines, index, 1).Some? && IsTitle(lines[index])
    ensures end == SectionEnd(lines, index) && SideBySide(lines, index, end, next)
    ensures MovedInOutline(lines, index, 1) == Some(Exchanged(lines, index, end, next))
    ensures NewPlace(lines, index, 1) == index + next - end
  {
    end := SectionEnd(lines, index);
    next := SectionEnd(lines, end);
    TitleMovesASection(lines, index, 1);
  }

  lemma UpExchanges(lines: seq<Line>, index: int) returns (previous: nat, end: nat)
    requires MovedInOutline(lines, index, -1).Some? && IsTitle(lines[index])
    ensures previous == LastTitle(lines[..index]) == NewPlace(lines, index, -1) && end == SectionEnd(lines, index)
    ensures SideBySide(lines, previous, index, end)
    ensures MovedInOutline(lines, index, -1) == Some(Exchanged(lines, previous, index, end))
  {
    previous := LastTitle(lines[..index]);
    end := SectionEnd(lines, index);
    TitleMovesASection(lines, index, -1);
  }

  lemma PositionStepsBack(lines: seq<Line>, index: int, step: Step)
    requires MovedInOutline(lines, index, step).Some? && !IsTitle(lines[index])
    ensures MovedInOutline(MovedInOutline(lines, index, step).value, NewPlace(lines, index, step), Opposite(step)) == Some(lines)
  {
    var (a, b, c) := Moves(lines, index, step);
    var order, place := Exchanged(lines, a, b, c), index + step;
    MoveExchanges(lines, index, step);
    ExchangedBack(lines, a, b, c);
    MoveExchanges(order, place, Opposite(step));
  }

  lemma SectionStepsBack(lines: seq<Line>, a: nat, b: nat, c: nat, step: Step, order: seq<Line>, place: int)
    requires SideBySide(lines, a, b, c) && order == Exchanged(lines, a, b, c) && place == if step == 1 then a + c - b else a
    ensures MovedInOutline(order, place, Opposite(step)) == Some(lines)
  {
    SideBySideOnceMore(lines, a, b, c);
    SectionsAre(order, a, a + c - b, c);
    ExchangedBack(lines, a, b, c);
  }

  lemma TitleStepsBack(lines: seq<Line>, index: int, step: Step, order: seq<Line>, place: int)
    requires MovedInOutline(lines, index, step) == Some(order) && place == NewPlace(lines, index, step) && IsTitle(lines[index])
    ensures MovedInOutline(order, place, Opposite(step)) == Some(lines)
  {
    if step == 1 {
      var end, next := DownExchanges(lines, index);
      SectionStepsBack(lines, index, end, next, step, order, place);
    } else {
      var previous, end := UpExchanges(lines, index);
      SectionStepsBack(lines, previous, index, end, step, order, place);
    }
  }

  /** The opposite step at the new place brings the old order back. */
  lemma StepBackRestores(lines: seq<Line>, index: int, step: Step)
    requires MovedInOutline(lines, index, step).Some?
    ensures MovedInOutline(MovedInOutline(lines, index, step).value, NewPlace(lines, index, step), Opposite(step)) == Some(lines)
  {
    if IsTitle(lines[index]) {
      TitleStepsBack(lines, index, step, MovedInOutline(lines, index, step).value, NewPlace(lines, index, step));
    } else {
      PositionStepsBack(lines, index, step);
    }
  }

  /** A title with all that belongs under it. */
  function SectionAt(lines: seq<Line>, start: nat): seq<Line>
    requires start < |lines|
  {
    lines[start..SectionEnd(lines, start)]
  }

  ghost predicate SameSection(lines: seq<Line>, at: int, other: seq<Line>, place: int) {
    0 <= at < |lines| && 0 <= place < |other| && SectionAt(lines, at) == SectionAt(other, place)
  }

  lemma SectionsChangePlaces(lines: seq<Line>, a: nat, b: nat, c: nat, d: nat, order: seq<Line>)
    requires SideBySide(lines, a, b, c) && order == Exchanged(lines, a, b, c) && d == a + c - b
    ensures SameSection(lines, b, order, a) && SameSection(lines, a, order, d)
  {
    SectionsAre(lines, a, b, c);
    SideBySideOnceMore(lines, a, b, c);
    SectionsAre(order, a, d, c);
    assert order[a..d] == lines[b..c] && order[d..c] == lines[a..b];
  }

  /** A title takes its own positions along and no others, and so does the one it passes: on the way down ... */
  lemma {:induction false} TitleMovesDownWhole(lines: seq<Line>, index: int, order: seq<Line>)
    requires MovedInOutline(lines, index, 1) == Some(order) && IsTitle(lines[index])
    ensures SameSection(lines, index, order, NewPlace(lines, index, 1))
    ensures SameSection(lines, SectionEnd(lines, index), order, index)
  {
    var end, next := DownExchanges(lines, index);
    SectionsChangePlaces(lines, index, end, next, NewPlace(lines, index, 1), order);
  }

  /** Where the section that a title passes on its way up begins afterwards. */
  function PassedPlace(lines: seq<Line>, index: int): int
    requires 0 <= index < |lines|
  {
    LastTitle(lines[..index]) + SectionEnd(lines, index) - index
  }

  /** ... and on the way up. */
  lemma TitleMovesUpWhole(lines: seq<Line>, index: int, order: seq<Line>)
    requires MovedInOutline(lines, index, -1) == Some(order) && IsTitle(lines[index])
    ensures SameSection(lines, index, order, NewPlace(lines, index, -1))
    ensures SameSection(lines, LastTitle(lines[..index]), order, PassedPlace(lines, index))
  {
    var previous, end := UpExchanges(lines, index);
    SectionsChangePlaces(lines, previous, index, end, PassedPlace(lines, index), order);
  }

  /** A title cannot move down below the last section, nor up above the first. */
  lemma TitleCanMove(lines: seq<Line>, index: int, step: Step)
    requires 0 <= index < |lines| && IsTitle(lines[index])
    ensures MovedInOutline(lines, index, step).Some? <==>
            if step == 1 then !NoTitle(lines, index + 1, |lines|) else !NoTitle(lines, 0, index)
  {
    SectionEndHas(lines, index);
    if step == -1 {
      var before := lines[..index];
      LastTitleHas(before);
      var previous := LastTitle(before);
      assert forall i :: 0 <= i < index ==> before[i] == lines[i];
      assert previous >= 0 ==> IsTitle(lines[previous]);
    }
  }

  // --- The totals do not depend on the order ---------------------------------------------------------

  function Without(lines: seq<Line>, i: nat): seq<Line>
    requires i < |lines|
  {
    lines[..i] + lines[i + 1..]
  }

  lemma {:induction false} NetOfOneOut(lines: seq<Line>, i: nat, rate: VatRate)
    requires i < |lines|
    ensures var less, line := Without(lines, i), lines[i];
      && multiset(less) == multiset(lines) - multiset{line}
      && NetOfLines(lines) == NetOfLines(less) + (if IsTitle(line) then 0 else line.netCents)
      && NetOfLinesAt(lines, rate) == NetOfLinesAt(less, rate) + (if IsTitle(line) || line.vatRate != rate then 0 else line.netCents)
  {
    var upTo, after := lines[..i + 1], lines[i + 1..];
    assert upTo[..i] == lines[..i] && lines == upTo + after && upTo == lines[..i] + [lines[i]];
    NetOfBoth(upTo, after);
    NetOfBoth(lines[..i], after);
    NetOfBothAt(upTo, after, rate);
    NetOfBothAt(lines[..i], after, rate);
  }

  lemma {:induction false} NetOfBothAt(a: seq<Line>, b: seq<Line>, rate: VatRate)
    ensures NetOfLinesAt(a + b, rate) == NetOfLinesAt(a, rate) + NetOfLinesAt(b, rate)
  {
    if b == [] {
      assert a + b == a;
    } else {
      NetOfBothAt(a, b[..|b| - 1], rate);
      assert (a + b)[..|a + b| - 1] == a + b[..|b| - 1];
    }
  }

  lemma PositionsOfTheSameLines(a: seq<Line>, b: seq<Line>, rate: VatRate)
    requires multiset(a) == multiset(b)
    ensures PositionAt(a, rate) ==> PositionAt(b, rate)
  {
    if i :| 0 <= i < |a| && a[i].kind != Title && a[i].vatRate == rate {
      assert a[i] in multiset(a) && a[i] in b;
    }
  }

  lemma {:induction false} NetOfTheSameLines(a: seq<Line>, b: seq<Line>, rate: VatRate)
    requires multiset(a) == multiset(b)
    ensures NetOfLines(a) == NetOfLines(b) && NetOfLinesAt(a, rate) == NetOfLinesAt(b, rate)
    decreases |a|
  {
    assert |multiset(a)| == |multiset(b)|;
    if a != [] {
      assert a[0] in multiset(a) && a[0] in b;
      var i :| 0 <= i < |b| && b[i] == a[0];
      NetOfOneOut(a, 0, rate);
      NetOfOneOut(b, i, rate);
      NetOfTheSameLines(Without(a, 0), Without(b, i), rate);
    }
  }

  /** The same lines in another order make the same totals, rate by rate. */
  lemma TotalsOfTheSameLines(rates: Rates, a: seq<Line>, b: seq<Line>, treatment: Treatment)
    requires multiset(a) == multiset(b)
    ensures Totals(rates, a, treatment) == Totals(rates, b, treatment)
  {
    NetOfTheSameLines(a, b, Zero);
    forall rate ensures TaxedRate(rates, a)(rate) == TaxedRate(rates, b)(rate) {
      NetOfTheSameLines(a, b, rate);
      PositionsOfTheSameLines(a, b, rate);
      PositionsOfTheSameLines(b, a, rate);
    }
  }

  /** Moving a line or a section changes no figure of the document, and its rows still add up to it. */
  lemma MoveKeepsTheTotals(rates: Rates, lines: seq<Line>, index: int, step: Step, treatment: Treatment)
    requires MovedInOutline(lines, index, step).Some?
    ensures var order := MovedInOutline(lines, index, step).value;
      && Totals(rates, order, treatment) == Totals(rates, lines, treatment)
      && ReadOff(Layout(order)) == Totals(rates, lines, treatment).netCents
  {
    var order := MovedInOutline(lines, index, step).value;
    MoveKeepsTheLines(lines, index, step);
    TotalsOfTheSameLines(rates, order, lines, treatment);
    SubtotalsMakeTheNet(order);
  }
}
