/** A calendar as a text file: values escaped, lines folded, and both undone again by the reader. */
module CalendarFeed {
  import opened Text

  // --- Octets ----------------------------------------------------------------------------------------

  /** The length of one character once it is encoded. */
  function OctetsOf(c: char): nat {
    var point := c as int;
    if point < 0x80 then 1 else if point < 0x800 then 2 else if point < 0x10000 then 3 else 4
  }

  /** The octets of a character, section 3 of RFC 3629. */
  function Utf8(c: char): seq<int> {
    var point := c as int;
    if point < 0x80 then [point]
    else if point < 0x800 then [0xC0 + point / 0x40, 0x80 + point % 0x40]
    else if point < 0x10000 then [0xE0 + point / 0x1000, 0x80 + point / 0x40 % 0x40, 0x80 + point % 0x40]
    else [0xF0 + point / 0x40000, 0x80 + point / 0x1000 % 0x40, 0x80 + point / 0x40 % 0x40, 0x80 + point % 0x40]
  }

  /** The first octet tells how many there are, each further one carries six bits behind its mark. */
  lemma Utf8ReadsBack(c: char)
    ensures var point, o := c as int, Utf8(c);
      && (forall i :: 1 <= i < |o| ==> 0x80 <= o[i] < 0xC0)
      && match |o|
         case 1 => 0 <= o[0] < 0x80 && point == o[0]
         case 2 => 0xC0 <= o[0] < 0xE0 && point == (o[0] - 0xC0) * 64 + (o[1] - 0x80)
         case 3 => 0xE0 <= o[0] < 0xF0 && point == (o[0] - 0xE0) * 4096 + (o[1] - 0x80) * 64 + (o[2] - 0x80)
         case 4 => 0xF0 <= o[0] < 0xF8
                   && point == (o[0] - 0xF0) * 262_144 + (o[1] - 0x80) * 4096 + (o[2] - 0x80) * 64 + (o[3] - 0x80)
         case _ => false
  {
    var point := c as int;
    assert point / 0x40 / 0x40 == point / 0x1000 && point / 0x1000 / 0x40 == point / 0x40000;
  }

  function Encoded(text: string): seq<int> {
    if text == "" then [] else Encoded(text[..|text| - 1]) + Utf8(text[|text| - 1])
  }

  function Octets(text: string): nat {
    if text == "" then 0 else Octets(text[..|text| - 1]) + OctetsOf(text[|text| - 1])
  }

  lemma {:induction false} OctetsAreCounted(text: string)
    ensures |Encoded(text)| == Octets(text)
  {
    if text != "" {
      OctetsAreCounted(text[..|text| - 1]);
    }
  }

  lemma {:induction false} OctetsOfBoth(a: string, b: string)
    ensures Octets(a + b) == Octets(a) + Octets(b)
  {
    if b == "" {
      assert a + b == a;
    } else {
      OctetsOfBoth(a, b[..|b| - 1]);
      assert (a + b)[..|a + b| - 1] == a + b[..|b| - 1];
    }
  }

  // --- Lines -----------------------------------------------------------------------------------------

  function Concat(parts: seq<string>): string {
    if parts == [] then "" else Concat(parts[..|parts| - 1]) + parts[|parts| - 1]
  }

  predicate BreaksAt(text: string, i: int) {
    0 <= i && i + 2 <= |text| && text[i] == '\r' && text[i + 1] == '\n'
  }

  predicate FoldsAt(text: string, i: int) {
    BreaksAt(text, i) && i + 3 <= |text| && text[i + 2] == ' '
  }

  /** `text.replace(/\r\n /g, '')`: the folds undone, as a reader of a calendar does. */
  function Unfolded(text: string): string {
    if text == "" then ""
    else if FoldsAt(text, 0) then Unfolded(text[3..])
    else [text[0]] + Unfolded(text[1..])
  }

  /** `text.split('\r\n')`. */
  function Lines(text: string): (lines: seq<string>)
    ensures lines != []
  {
    if text == "" then [""]
    else if BreaksAt(text, 0) then [""] + Lines(text[2..])
    else
      var rest := Lines(text[1..]);
      [[text[0]] + rest[0]] + rest[1..]
  }

  /** A text on one line: neither half of a line break in it. */
  predicate OneLine(text: string) {
    '\r' !in text && '\n' !in text
  }

  lemma {:induction false} UnfoldedPast(part: string, rest: string)
    requires OneLine(part)
    ensures Unfolded(part + rest) == part + Unfolded(rest)
  {
    if part == "" {
      assert part + rest == rest;
    } else {
      var text := part + rest;
      assert text[1..] == part[1..] + rest && text[0] == part[0];
      UnfoldedPast(part[1..], rest);
    }
  }

  lemma {:induction false} LinesPast(part: string, rest: string)
    requires OneLine(part)
    ensures Lines(part + rest) == [part + Lines(rest)[0]] + Lines(rest)[1..]
  {
    if part == "" {
      assert part + rest == rest && part + Lines(rest)[0] == Lines(rest)[0];
    } else {
      var text := part + rest;
      assert text[1..] == part[1..] + rest && text[0] == part[0];
      LinesPast(part[1..], rest);
      assert [part[0]] + (part[1..] + Lines(rest)[0]) == part + Lines(rest)[0];
    }
  }

  const BREAK := "\r\n"
  const FOLD := "\r\n "

  lemma {:induction false} BreakOpens(rest: string)
    ensures Lines(BREAK + rest) == [""] + Lines(rest)
    ensures Unfolded(FOLD + rest) == Unfolded(rest)
    ensures rest == "" || rest[0] != ' ' ==> Unfolded(BREAK + rest) == BREAK + Unfolded(rest)
  {
    var text, fold := BREAK + rest, FOLD + rest;
    assert text[2..] == rest && BreaksAt(text, 0) && fold[3..] == rest && FoldsAt(fold, 0);
    assert text[1..] == "\n" + rest && text[1..][1..] == rest;
    assert ['\r'] + (['\n'] + Unfolded(rest)) == BREAK + Unfolded(rest);
  }

  lemma {:induction false} LineEnds(part: string, rest: string)
    requires OneLine(part)
    ensures Lines(part + (BREAK + rest)) == [part] + Lines(rest)
  {
    LinesPast(part, BREAK + rest);
    BreakOpens(rest);
    assert part + "" == part;
  }

  // --- Folding ---------------------------------------------------------------------------------------

  /** The room for text on a physical line: all but the first give one octet to their leading space. */
  function Room(i: nat): nat {
    if i == 0 then 75 else 74
  }

  /** A line cut as late as the room allows, and nowhere else. */
  ghost predicate CutLate(parts: seq<string>) {
    && (forall i :: 0 <= i < |parts| ==> Octets(parts[i]) <= Room(i))
    && (forall i :: 1 <= i < |parts| ==> parts[i] != "" && Octets(parts[i - 1]) + OctetsOf(parts[i][0]) > Room(i - 1))
  }

  ghost predicate Folding(line: string, parts: seq<string>) {
    parts != [] && Concat(parts) == line && CutLate(parts)
  }

  ghost predicate IsFolded(line: string, text: string) {
    exists parts :: Folding(line, parts) && text == Join(parts, FOLD)
  }

  /** The loop: the parts so far with the one being filled, and how full that one is. */
  ghost predicate Filling(line: string, parts: seq<string>, part: string, octets: nat, room: nat) {
    && Concat(parts + [part]) == line && CutLate(parts + [part])
    && octets == Octets(part) && room == Room(|parts|) && (part == "" ==> line == "")
  }

  lemma PartGrows(line: string, parts: seq<string>, part: string, octets: nat, room: nat, c: char)
    requires Filling(line, parts, part, octets, room) && octets + OctetsOf(c) <= room
    ensures Filling(line + [c], parts, part + [c], octets + OctetsOf(c), room)
  {
    var grown := part + [c];
    assert grown[..|part|] == part;
    ConcatEnds(parts, part);
    ConcatEnds(parts, grown);
    assert Concat(parts) + grown == Concat(parts) + part + [c];
    assert part != "" ==> grown[0] == part[0];
    var now, more := parts + [part], parts + [grown];
    assert forall i :: 0 <= i < |parts| ==> more[i] == now[i];
  }

  lemma PartIsFull(line: string, parts: seq<string>, part: string, octets: nat, room: nat, c: char)
    requires Filling(line, parts, part, octets, room) && octets + OctetsOf(c) > room
    ensures Filling(line + [c], parts + [part], [c], OctetsOf(c), 74)
  {
    var now := parts + [part];
    ConcatEnds(now, [c]);
    assert Octets([c]) == OctetsOf(c) by { assert [c][..0] == ""; }
    assert forall i :: 0 <= i < |now| ==> (now + [[c]])[i] == now[i];
  }

  lemma {:induction false} ConcatEnds(parts: seq<string>, part: string)
    ensures Concat(parts + [part]) == Concat(parts) + part
  {
    assert (parts + [part])[..|parts|] == parts;
  }

  lemma {:induction false} LastPart(line: string, parts: seq<string>, part: string, octets: nat, room: nat)
    requires Filling(line, parts, part, octets, room)
    ensures IsFolded(line, Join(parts + [part], FOLD))
  {
    assert Folding(line, parts + [part]);
  }

  method Folded(line: string) returns (text: string)
    ensures IsFolded(line, text)
  {
    var parts: seq<string> := [];
    var part, octets, room := "", 0, 75;
    ConcatEnds([], "");
    for i := 0 to |line|
      invariant Filling(line[..i], parts, part, octets, room)
    {
      var size := OctetsOf(line[i]);
      assert line[..i + 1] == line[..i] + [line[i]];
      if octets + size > room {
        PartIsFull(line[..i], parts, part, octets, room, line[i]);
        parts := parts + [part];
        part := "";
        octets := 0;
        room := 74;
      } else {
        PartGrows(line[..i], parts, part, octets, room, line[i]);
      }
      part := part + [line[i]];
      octets := octets + size;
    }
    assert line[..|line|] == line;
    LastPart(line, parts, part, octets, room);
    parts := parts + [part];
    text := Join(parts, FOLD);
  }

  // --- Reading a calendar ----------------------------------------------------------------------------

  ghost predicate AllOneLine(parts: seq<string>) {
    forall i :: 0 <= i < |parts| ==> OneLine(parts[i])
  }

  lemma {:induction false} PartsOfOneLine(parts: seq<string>)
    requires OneLine(Concat(parts))
    ensures AllOneLine(parts)
  {
    if parts != [] {
      var front, last := parts[..|parts| - 1], parts[|parts| - 1];
      assert forall c :: c in Concat(front) || c in last ==> c in Concat(parts);
      PartsOfOneLine(front);
    }
  }

  lemma Regroup<T>(a: seq<T>, b: seq<T>, c: seq<T>, d: seq<T>)
    ensures a + b + c + d == a + (b + (c + d))
  {}

  /** What follows the folded parts is read on its own. */
  lemma {:induction false} FoldsUndone(parts: seq<string>, rest: string)
    requires parts != [] && AllOneLine(parts)
    ensures Unfolded(Join(parts, FOLD) + rest) == Concat(parts) + Unfolded(rest)
  {
    var n := |parts|;
    var front, last := parts[..n - 1], parts[n - 1];
    UnfoldedPast(last, rest);
    if n == 1 {
      OneConcat(parts);
    } else {
      FoldsUndone(front, FOLD + (last + rest));
      Regroup(Join(front, FOLD), FOLD, last, rest);
      BreakOpens(last + rest);
      Regroup(Concat(front), last, Unfolded(rest), "");
    }
  }

  lemma {:induction false} OneConcat(parts: seq<string>)
    requires |parts| == 1
    ensures Concat(parts) == parts[0]
  {
    assert parts[..0] == [] && "" + parts[0] == parts[0];
  }

  /** The physical lines of a folded line. */
  function Physical(parts: seq<string>): seq<string> {
    if parts == [] then []
    else Physical(parts[..|parts| - 1]) + [if |parts| == 1 then parts[0] else " " + parts[|parts| - 1]]
  }

  lemma {:induction false} PhysicalLines(parts: seq<string>, rest: string)
    requires parts != [] && AllOneLine(parts)
    ensures Lines(Join(parts, FOLD) + (BREAK + rest)) == Physical(parts) + Lines(rest)
  {
    var n := |parts|;
    var front, last := parts[..n - 1], parts[n - 1];
    if n == 1 {
      LineEnds(last, rest);
      assert Physical(parts) == [last] by { assert Physical(front) == []; }
    } else {
      LineEnds(" " + last, rest);
      PhysicalLines(front, " " + last + (BREAK + rest));
      FoldIsBreakAndSpace(Join(front, FOLD), last, BREAK + rest);
      Regroup(Physical(front), [" " + last], Lines(rest), []);
    }
  }

  lemma FoldIsBreakAndSpace(before: string, last: string, after: string)
    ensures before + FOLD + last + after == before + (BREAK + (" " + last + after))
  {}

  ghost predicate Short(lines: seq<string>) {
    forall i :: 0 <= i < |lines| ==> Octets(lines[i]) <= 75
  }

  lemma {:induction false} PhysicalLinesAreShort(parts: seq<string>)
    requires CutLate(parts)
    ensures Short(Physical(parts))
  {
    if parts != [] {
      var front, last := parts[..|parts| - 1], parts[|parts| - 1];
      PhysicalLinesAreShort(front);
      OctetsOfBoth(" ", last);
      assert Octets(" ") == 1 by { assert " "[..0] == ""; }
    }
  }

  /** A content line: on one line, and not beginning with the space of a fold. */
  predicate ContentLine(line: string) {
    OneLine(line) && (line == "" || line[0] != ' ')
  }

  /** Every text closed with a line break. */
  function File(texts: seq<string>): string {
    if texts == [] then "" else texts[0] + (BREAK + File(texts[1..]))
  }

  /** A folded line with its line break: read back as the line, and taken apart into short lines. */
  ghost predicate ReadsAs(text: string, line: string, rest: string) {
    && Unfolded(text + (BREAK + rest)) == line + (BREAK + Unfolded(rest))
    && (exists lines :: Short(lines) && Lines(text + (BREAK + rest)) == lines + Lines(rest))
    && (text == "" || text[0] != ' ')
  }

  lemma UnfoldedLine(line: string, text: string, rest: string)
    requires IsFolded(line, text) && ContentLine(line) && (rest == "" || rest[0] != ' ')
    ensures ReadsAs(text, line, rest)
  {
    var parts :| Folding(line, parts) && text == Join(parts, FOLD);
    PartsOfOneLine(parts);
    FoldsUndone(parts, BREAK + rest);
    BreakOpens(rest);
    PhysicalLines(parts, rest);
    PhysicalLinesAreShort(parts);
    FirstOf(parts);
  }

  lemma {:induction false} FirstOf(parts: seq<string>)
    requires parts != [] && CutLate(parts)
    ensures var text, line := Join(parts, FOLD), Concat(parts);
      (text == "" <==> line == "") && (line != "" ==> text[0] == line[0])
  {
    if |parts| == 1 {
      assert Concat(parts) == parts[0] by { assert "" + parts[0] == parts[0]; }
    } else {
      assert Octets(parts[0]) + OctetsOf(parts[1][0]) > Room(0) && parts[0] != "";
      FirstOf(parts[..|parts| - 1]);
    }
  }

  ghost predicate ReadsBack(text: string, lines: seq<string>) {
    Lines(Unfolded(text)) == lines + [""] && Short(Lines(text))
  }

  lemma OneLineMore(text: string, line: string, rest: string, lines: seq<string>)
    requires ReadsBack(rest, lines) && ReadsAs(text, line, rest) && OneLine(line)
    ensures ReadsBack(text + (BREAK + rest), [line] + lines)
  {
    LineEnds(line, Unfolded(rest));
    assert [line] + (lines + [""]) == [line] + lines + [""];
  }

  /**
   * A reader that undoes the folds and takes the lines apart gets the content lines back,
   * and before that no physical line had more than 75 octets.
   */
  lemma {:induction false} FileReadsBack(lines: seq<string>, texts: seq<string>)
    requires |lines| == |texts|
    requires forall i :: 0 <= i < |lines| ==> ContentLine(lines[i]) && IsFolded(lines[i], texts[i])
    ensures ReadsBack(File(texts), lines)
    ensures File(texts) == "" || File(texts)[0] != ' '
  {
    if lines == [] {
      assert Octets("") == 0;
    } else {
      var rest := File(texts[1..]);
      FileReadsBack(lines[1..], texts[1..]);
      UnfoldedLine(lines[0], texts[0], rest);
      OneLineMore(texts[0], lines[0], rest, lines[1..]);
      assert lines == [lines[0]] + lines[1..];
    }
  }

  lemma {:induction false} FileIsJoined(texts: seq<string>)
    requires texts != []
    ensures File(texts) == Join(texts, BREAK) + BREAK
  {
    FileEnds(texts[..|texts| - 1], texts[|texts| - 1]);
    assert texts == texts[..|texts| - 1] + [texts[|texts| - 1]];
    if |texts| > 1 {
      FileIsJoined(texts[..|texts| - 1]);
    }
  }

  lemma LastInside<T>(a: seq<T>, b: seq<T>, c: seq<T>, d: seq<T>, e: seq<T>)
    ensures a + (b + (c + d + e)) == a + (b + c) + d + e
  {}

  lemma {:induction false} FileEnds(texts: seq<string>, text: string)
    ensures File(texts + [text]) == File(texts) + text + BREAK
  {
    if texts == [] {
      assert texts + [text] == [text] && [text][1..] == [];
      assert text + (BREAK + "") == "" + text + BREAK;
    } else {
      assert (texts + [text])[1..] == texts[1..] + [text];
      FileEnds(texts[1..], text);
      LastInside(texts[0], BREAK, File(texts[1..]), text, BREAK);
    }
  }

  method CalendarFile(lines: seq<string>) returns (text: string)
    requires lines != [] && forall i :: 0 <= i < |lines| ==> ContentLine(lines[i])
    ensures ReadsBack(text, lines)
  {
    var texts: seq<string> := [];
    for i := 0 to |lines|
      invariant |texts| == i && forall k :: 0 <= k < i ==> IsFolded(lines[k], texts[k])
    {
      var folded := Folded(lines[i]);
      texts := texts + [folded];
    }
    FileReadsBack(lines, texts);
    FileIsJoined(texts);
    text := Join(texts, BREAK) + BREAK;
  }
}
