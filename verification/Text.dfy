/** Splitting, joining and decimal digits, as the rule of a series needs them. */
module Text {

  /** `parts.join(sep)`. */
  function Join(parts: seq<string>, sep: string): string {
    if parts == [] then ""
    else if |parts| == 1 then parts[0]
    else Join(parts[..|parts| - 1], sep) + sep + parts[|parts| - 1]
  }

  lemma {:induction false} JoinFromTheFront(parts: seq<string>, sep: string)
    requires |parts| > 1
    ensures Join(parts, sep) == parts[0] + sep + Join(parts[1..], sep)
  {
    var n := |parts|;
    var front, rest := parts[..n - 1], parts[1..];
    if n > 2 {
      JoinFromTheFront(front, sep);
      assert rest[..|rest| - 1] == front[1..];
    }
  }

  /** `text.split(sep)`. */
  function Split(text: string, sep: char): (parts: seq<string>)
    ensures |parts| >= 1
  {
    if text == "" then [""]
    else
      var rest := Split(text[1..], sep);
      if text[0] == sep then [""] + rest else [[text[0]] + rest[0]] + rest[1..]
  }

  lemma {:induction false} SplitPart(part: string, sep: char, rest: string)
    requires sep !in part
    ensures Split(part, sep) == [part]
    ensures Split(part + [sep] + rest, sep) == [part] + Split(rest, sep)
  {
    if part == "" {
      assert (part + [sep] + rest)[1..] == rest;
    } else {
      SplitPart(part[1..], sep, rest);
      assert (part + [sep] + rest)[1..] == part[1..] + [sep] + rest;
      assert part == [part[0]] + part[1..];
    }
  }

  lemma {:induction false} SplitUndoesJoin(parts: seq<string>, sep: char)
    requires parts != []
    requires forall part :: part in parts ==> sep !in part
    ensures Split(Join(parts, [sep]), sep) == parts
  {
    if |parts| == 1 {
      SplitPart(parts[0], sep, "");
    } else {
      SplitUndoesJoin(parts[1..], sep);
      SplitPart(parts[0], sep, Join(parts[1..], [sep]));
      JoinFromTheFront(parts, [sep]);
    }
  }

  /** The characters of the keys and values a rule is printed with: none is a separator, none lower case. */
  predicate IsPlain(c: char) {
    'A' <= c <= 'Z' || '0' <= c <= '9' || c == '-' || c == ','
  }

  predicate Plain(s: string) {
    forall c :: c in s ==> IsPlain(c)
  }

  predicate IsDigit(c: char) {
    '0' <= c <= '9'
  }

  function Digit(n: int): (c: char)
    requires 0 <= n < 10
    ensures IsDigit(c) && DigitValue(c) == n
  {
    ('0' as int + n) as char
  }

  function DigitValue(c: char): int {
    c as int - '0' as int
  }

  /** `String(n)` of a whole number. */
  function Decimal(n: int): (s: string)
    ensures Plain(s) && ',' !in s
    decreases n < 0, if n < 0 then -n else n
  {
    if n < 0 then "-" + Decimal(-n)
    else if n < 10 then [Digit(n)]
    else Decimal(n / 10) + [Digit(n % 10)]
  }

  function TwoDigits(n: int): (s: string)
    requires 0 <= n < 100
    ensures |s| == 2 && forall c :: c in s ==> IsDigit(c)
  {
    [Digit(n / 10), Digit(n % 10)]
  }

  function FourDigits(n: int): (s: string)
    requires 0 <= n < 10_000
    ensures |s| == 4 && forall c :: c in s ==> IsDigit(c)
  {
    TwoDigits(n / 100) + TwoDigits(n % 100)
  }

  /** The number a run of digits stands for. */
  function NumberOf(s: string): int {
    if s == "" then 0 else 10 * NumberOf(s[..|s| - 1]) + DigitValue(s[|s| - 1])
  }

  lemma DigitsReadBack(n: int)
    ensures 0 <= n < 100 ==> NumberOf(TwoDigits(n)) == n
    ensures 0 <= n < 10_000 ==> NumberOf(FourDigits(n)) == n
  {
    if 0 <= n < 100 {
      TwoReadBack(n);
    }
    if 0 <= n < 10_000 {
      var s := FourDigits(n);
      assert s[..3][..2] == TwoDigits(n / 100);
      TwoReadBack(n / 100);
    }
  }

  lemma TwoReadBack(n: int)
    requires 0 <= n < 100
    ensures NumberOf(TwoDigits(n)) == n
  {
    var s := TwoDigits(n);
    assert s[..1] == [Digit(n / 10)] && [Digit(n / 10)][..0] == "";
    assert NumberOf([Digit(n / 10)]) == n / 10;
  }

  /** Whole numbers as `Number` reads what `String` writes. */
  function Signed(s: string): int {
    if s != "" && s[0] == '-' then -NumberOf(s[1..]) else NumberOf(s)
  }

  lemma {:induction false} DecimalDigits(n: nat)
    ensures NumberOf(Decimal(n)) == n && Decimal(n) != "" && Decimal(n)[0] != '-'
  {
    var s := Decimal(n);
    if n < 10 {
      assert s[..0] == "";
    } else {
      DecimalDigits(n / 10);
      assert s[..|s| - 1] == Decimal(n / 10);
    }
  }

  lemma {:induction false} DecimalReadsBack(n: int)
    ensures Signed(Decimal(n)) == n
  {
    if n < 0 {
      DecimalDigits(-n);
      assert Decimal(n)[1..] == Decimal(-n);
    } else {
      DecimalDigits(n);
    }
  }
}
