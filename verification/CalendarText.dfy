/** Values in a calendar: cleaned, escaped, and what a reader makes of them. */
module CalendarText {
  import opened CalendarFeed

  // --- The steps -------------------------------------------------------------------------------------

  /** `value.replace(/\r\n?/g, '\n')`: every kind of line break becomes the one. */
  function OneKindOfBreak(value: string): string {
    if value == "" then ""
    else if BreaksAt(value, 0) then "\n" + OneKindOfBreak(value[2..])
    else [if value[0] == '\r' then '\n' else value[0]] + OneKindOfBreak(value[1..])
  }

  predicate IsKept(c: char) {
    c as int == 9 || c as int == 10 || (c as int >= 32 && c as int != 127)
  }

  function WithoutControls(value: string): string {
    if value == "" then ""
    else (if IsKept(value[0]) then [value[0]] else "") + WithoutControls(value[1..])
  }

  /** `value.replace(/c/g, with)` of a single character. */
  function Replaced(value: string, c: char, with: string): string {
    if value == "" then ""
    else (if value[0] == c then with else [value[0]]) + Replaced(value[1..], c, with)
  }

  /** What a calendar can carry of a value: its line breaks as one character each, no other control characters. */
  function Cleaned(value: string): string {
    WithoutControls(OneKindOfBreak(value))
  }

  /** The four replacements in their order. */
  function InOrder(text: string): string {
    Replaced(Replaced(Replaced(Replaced(text, '\\', "\\\\"), ';', "\\;"), ',', "\\,"), '\n', "\\n")
  }

  function CalendarText(value: string): string {
    InOrder(Cleaned(value))
  }

  // --- Escaping, character by character --------------------------------------------------------------

  /** Section 3.3.11 of RFC 5545: backslash, semicolon and comma after a backslash, a line break as `\n`. */
  function Escape(c: char): string {
    if c == '\\' || c == ';' || c == ',' then ['\\', c] else if c == '\n' then "\\n" else [c]
  }

  function EscapeAll(text: string): string {
    if text == "" then "" else Escape(text[0]) + EscapeAll(text[1..])
  }

  /** A reader of section 3.3.11 of RFC 5545: `\n` and `\N` are a line break, a backslash gives what follows it. */
  function Unescaped(text: string): string {
    if text == "" then ""
    else if text[0] == '\\' && |text| > 1 then
      [if text[1] == 'n' || text[1] == 'N' then '\n' else text[1]] + Unescaped(text[2..])
    else [text[0]] + Unescaped(text[1..])
  }

  lemma {:induction false} ReplacedInBoth(a: string, b: string, c: char, with: string)
    ensures Replaced(a + b, c, with) == Replaced(a, c, with) + Replaced(b, c, with)
  {
    if a == "" {
      assert a + b == b;
    } else {
      assert (a + b)[1..] == a[1..] + b;
      ReplacedInBoth(a[1..], b, c, with);
    }
  }

  lemma InOrderOfBoth(a: string, b: string)
    ensures InOrder(a + b) == InOrder(a) + InOrder(b)
  {
    ReplacedInBoth(a, b, '\\', "\\\\");
    var a1, b1 := Replaced(a, '\\', "\\\\"), Replaced(b, '\\', "\\\\");
    ReplacedInBoth(a1, b1, ';', "\\;");
    var a2, b2 := Replaced(a1, ';', "\\;"), Replaced(b1, ';', "\\;");
    ReplacedInBoth(a2, b2, ',', "\\,");
    ReplacedInBoth(Replaced(a2, ',', "\\,"), Replaced(b2, ',', "\\,"), '\n', "\\n");
  }

  lemma {:induction false} ReplacedOne(x: char, c: char, with: string)
    ensures Replaced([x], c, with) == if x == c then with else [x]
  {
    assert [x][1..] == "";
  }

  lemma {:induction false} ReplacedTwo(x: char, y: char, c: char, with: string)
    ensures Replaced([x, y], c, with) == (if x == c then with else [x]) + (if y == c then with else [y])
  {
    assert [x, y][1..] == [y];
    ReplacedOne(y, c, with);
  }

  lemma InOrderOfOne(c: char)
    ensures InOrder([c]) == Escape(c)
  {
    ReplacedOne(c, '\\', "\\\\");
    if c == '\\' {
      ReplacedTwo('\\', '\\', ';', "\\;");
      ReplacedTwo('\\', '\\', ',', "\\,");
      ReplacedTwo('\\', '\\', '\n', "\\n");
    } else {
      ReplacedOne(c, ';', "\\;");
      ReplacedTwo('\\', ';', ',', "\\,");
      ReplacedTwo('\\', ';', '\n', "\\n");
      ReplacedOne(c, ',', "\\,");
      ReplacedTwo('\\', ',', '\n', "\\n");
      ReplacedOne(c, '\n', "\\n");
    }
  }

  lemma {:induction false} InOrderIsEscape(text: string)
    ensures InOrder(text) == EscapeAll(text)
  {
    if text != "" {
      assert text == [text[0]] + text[1..];
      InOrderOfBoth([text[0]], text[1..]);
      InOrderOfOne(text[0]);
      InOrderIsEscape(text[1..]);
    }
  }

  lemma {:induction false} UnescapedIsTheText(text: string)
    ensures Unescaped(EscapeAll(text)) == text
  {
    if text != "" {
      var escaped := EscapeAll(text);
      UnescapedIsTheText(text[1..]);
      assert escaped[|Escape(text[0])|..] == EscapeAll(text[1..]);
    }
  }

  // --- What is left ----------------------------------------------------------------------------------

  lemma {:induction false} NoReturnLeft(value: string)
    ensures '\r' !in OneKindOfBreak(value)
  {
    if value != "" {
      NoReturnLeft(if BreaksAt(value, 0) then value[2..] else value[1..]);
    }
  }

  /** Each line break becomes a single one, whatever it was and whatever stands around it. */
  lemma {:induction false} BreaksAreKept(before: string, line: string, after: string)
    requires before == "" || before[|before| - 1] != '\r'
    requires line == "\r\n" || line == "\n" || (line == "\r" && (after == "" || after[0] != '\n'))
    ensures OneKindOfBreak(before + line + after) == OneKindOfBreak(before) + "\n" + OneKindOfBreak(after)
  {
    StepOver(before, line + after);
    BreakInFront(line, after);
    assert before + line + after == before + (line + after);
  }

  lemma {:induction false} BreakInFront(line: string, after: string)
    requires line == "\r\n" || line == "\n" || (line == "\r" && (after == "" || after[0] != '\n'))
    ensures OneKindOfBreak(line + after) == "\n" + OneKindOfBreak(after)
  {
    var text := line + after;
    assert text[|line|..] == after;
    assert BreaksAt(text, 0) <==> |line| == 2;
  }

  lemma {:induction false} StepOver(before: string, after: string)
    requires before == "" || before[|before| - 1] != '\r'
    ensures OneKindOfBreak(before + after) == OneKindOfBreak(before) + OneKindOfBreak(after)
  {
    if before == "" {
      assert before + after == after;
    } else if BreaksAt(before, 0) {
      assert (before + after)[2..] == before[2..] + after;
      StepOver(before[2..], after);
    } else {
      assert |before| > 1 ==> (before + after)[1] == before[1];
      assert !BreaksAt(before + after, 0);
      assert (before + after)[1..] == before[1..] + after;
      StepOver(before[1..], after);
    }
  }

  /** Text without a return stays as it is. */
  lemma {:induction false} NoReturnStays(value: string)
    requires '\r' !in value
    ensures OneKindOfBreak(value) == value
  {
    if value != "" {
      assert value[0] in value;
      NoReturnStays(value[1..]);
    }
  }

  /** What is left of a text is what is left of its parts, in their order. */
  lemma {:induction false} ControlsOfBoth(a: string, b: string)
    ensures WithoutControls(a + b) == WithoutControls(a) + WithoutControls(b)
  {
    if a == "" {
      assert a + b == b;
    } else {
      assert (a + b)[1..] == a[1..] + b;
      ControlsOfBoth(a[1..], b);
    }
  }

  /** Left out on its own is a control character other than the tab and the line break. */
  lemma ControlsOfOne(c: char)
    ensures c as int == 9 || c as int == 10 || 32 <= c as int < 127 || c as int > 127 ==> WithoutControls([c]) == [c]
    ensures c as int < 9 || 10 < c as int < 32 || c as int == 127 ==> WithoutControls([c]) == ""
  {
    assert [c][1..] == "";
  }

  lemma {:induction false} OnlyKeptLeft(value: string)
    ensures forall c :: c in WithoutControls(value) <==> c in value && IsKept(c)
  {
    if value != "" {
      OnlyKeptLeft(value[1..]);
      assert value == [value[0]] + value[1..];
    }
  }

  lemma {:induction false} EscapedCharacters(text: string)
    ensures forall c :: c in EscapeAll(text) ==> c == '\\' || c == 'n' || (c in text && c != '\n')
  {
    if text != "" {
      EscapedCharacters(text[1..]);
    }
  }

  lemma {:induction false} NothingToClean(value: string)
    requires forall c :: c in value ==> IsKept(c)
    ensures OneKindOfBreak(value) == value && WithoutControls(value) == value
  {
    if value != "" {
      assert value[0] in value;
      NothingToClean(value[1..]);
    }
  }

  /** Cleaning changes nothing exactly where there is nothing to clean. */
  lemma CleanedKeeps(value: string)
    ensures Cleaned(value) == value <==> forall c :: c in value ==> IsKept(c)
  {
    OnlyKeptLeft(OneKindOfBreak(value));
    if forall c :: c in value ==> IsKept(c) {
      NothingToClean(value);
    }
  }

  /**
   * The replacements one after another escape every character on its own, a reader gets the cleaned
   * value back, and what is written stays on its line without a control character but the tab.
   */
  lemma TextReadsBack(value: string)
    ensures CalendarText(value) == EscapeAll(Cleaned(value))
    ensures Unescaped(CalendarText(value)) == Cleaned(value)
    ensures OneLine(CalendarText(value))
    ensures forall c :: c in CalendarText(value) ==> IsKept(c)
  {
    var cleaned := Cleaned(value);
    InOrderIsEscape(cleaned);
    UnescapedIsTheText(cleaned);
    NoReturnLeft(value);
    OnlyKeptLeft(OneKindOfBreak(value));
    EscapedCharacters(cleaned);
  }

  /** In another order it would go wrong: with the backslashes last, the ones just written are doubled. */
  lemma BackslashGoesFirst()
    ensures Unescaped(Replaced(Replaced(";", ';', "\\;"), '\\', "\\\\")) == "\\;"
  {
    ReplacedOne(';', ';', "\\;");
    ReplacedTwo('\\', ';', '\\', "\\\\");
    var text := "\\\\;";
    assert text[2..] == ";" && ";"[1..] == "";
  }
}
