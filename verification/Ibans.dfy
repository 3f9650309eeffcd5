/** The check digits of an IBAN, ISO 13616 with MOD 97-10 of ISO/IEC 7064. */
module Ibans {
  import opened Text

  predicate IsLetter(c: char) {
    'A' <= c <= 'Z'
  }

  predicate IsAlphanumeric(c: char) {
    IsDigit(c) || IsLetter(c)
  }

  predicate AllAlphanumeric(text: string) {
    forall i :: 0 <= i < |text| ==> IsAlphanumeric(text[i])
  }

  /** `/^[A-Z]{2}\d{2}[A-Z0-9]{11,30}$/` */
  predicate WellFormed(compact: string) {
    && 15 <= |compact| <= 34
    && IsLetter(compact[0]) && IsLetter(compact[1]) && IsDigit(compact[2]) && IsDigit(compact[3])
    && AllAlphanumeric(compact)
  }

  /** Country, check digits and account, each with its own characters. */
  lemma FormOfAnIban(country: string, check: string, account: string)
    requires |country| == 2 && |check| == 2
    ensures WellFormed(country + check + account) <==>
      && (forall c :: c in country ==> 'A' <= c <= 'Z') && (forall c :: c in check ==> '0' <= c <= '9')
      && 11 <= |account| <= 30 && (forall c :: c in account ==> '0' <= c <= '9' || 'A' <= c <= 'Z')
  {
    Characters(country + check, account);
    Characters(country, check);
    Characters(account, "");
    assert account + "" == account;
    assert country == [country[0], country[1]] && check == [check[0], check[1]];
    assert country[0] in country && country[1] in country && check[0] in check && check[1] in check;
  }

  lemma Characters(a: string, b: string)
    ensures AllAlphanumeric(a + b) <==> AllAlphanumeric(a) && AllAlphanumeric(b)
    ensures AllAlphanumeric(a) <==> forall c :: c in a ==> '0' <= c <= '9' || 'A' <= c <= 'Z'
  {
    if forall c :: c in a ==> '0' <= c <= '9' || 'A' <= c <= 'Z' {
      forall i | 0 <= i < |a| ensures IsAlphanumeric(a[i]) {
        assert a[i] in a;
      }
    }
    if AllAlphanumeric(a + b) {
      assert forall i :: 0 <= i < |a| ==> (a + b)[i] == a[i];
      assert forall i :: 0 <= i < |b| ==> (a + b)[|a| + i] == b[i];
    }
  }

  /** 0 to 9 for a digit, 10 for A up to 35 for Z. */
  function ValueOf(c: char): (value: int)
    requires IsAlphanumeric(c)
    ensures if IsDigit(c) then 0 <= value <= 9 else 10 <= value <= 35
  {
    if IsDigit(c) then c as int - '0' as int else c as int - 55
  }

  /** The decimal digits of `String(value)`. */
  function DigitsOf(c: char): (digits: seq<int>)
    requires IsAlphanumeric(c)
    ensures forall i :: 0 <= i < |digits| ==> 0 <= digits[i] <= 9
  {
    var value := ValueOf(c);
    if value < 10 then [value] else [value / 10, value % 10]
  }

  function AllDigits(text: string): seq<int>
    requires AllAlphanumeric(text)
  {
    if text == "" then [] else AllDigits(text[..|text| - 1]) + DigitsOf(text[|text| - 1])
  }

  /** The number a run of decimal digits stands for. */
  function NumberOfDigits(digits: seq<int>): int {
    if digits == [] then 0 else 10 * NumberOfDigits(digits[..|digits| - 1]) + digits[|digits| - 1]
  }

  /** What the number of a text leaves when it is divided by 97. */
  function Rest(text: string): int
    requires AllAlphanumeric(text)
  {
    NumberOfDigits(AllDigits(text)) % 97
  }

  function Rearranged(compact: string): string
    requires |compact| >= 4
  {
    compact[4..] + compact[..4]
  }

  /** What the standard asks for: the whole number of the rearranged characters leaves 1. */
  predicate AddsUp(compact: string) {
    WellFormed(compact) && Rest(Rearranged(compact)) == 1
  }

  // --- The loop --------------------------------------------------------------------------------------

  lemma RemainderOfMore(number: int, digit: int)
    ensures (10 * (number % 97) + digit) % 97 == (10 * number + digit) % 97
  {
    var q := number / 97;
    assert 10 * number + digit == 10 * (number % 97) + digit + 97 * (10 * q);
    Congruent(10 * (number % 97) + digit, 10 * q);
  }

  lemma Congruent(a: int, k: int)
    ensures (a + 97 * k) % 97 == a % 97
  {}

  lemma {:induction false} OneDigitMore(before: seq<int>, digits: seq<int>, k: nat)
    requires k < |digits|
    ensures (NumberOfDigits(before + digits[..k]) % 97 * 10 + digits[k]) % 97 == NumberOfDigits(before + digits[..k + 1]) % 97
  {
    assert (before + digits[..k + 1])[..|before| + k] == before + digits[..k];
    RemainderOfMore(NumberOfDigits(before + digits[..k]), digits[k]);
  }

  lemma OneCharacterMore(text: string, i: nat)
    requires AllAlphanumeric(text) && i < |text|
    ensures AllDigits(text[..i + 1]) == AllDigits(text[..i]) + DigitsOf(text[i])
  {
    assert text[..i + 1][..i] == text[..i];
  }

  method Remainder(text: string) returns (remainder: int)
    requires AllAlphanumeric(text)
    ensures remainder == Rest(text)
  {
    remainder := 0;
    for i := 0 to |text|
      invariant remainder == NumberOfDigits(AllDigits(text[..i])) % 97
    {
      OneCharacterMore(text, i);
      remainder := TakeIn(AllDigits(text[..i]), remainder, DigitsOf(text[i]));
    }
    assert text[..|text|] == text;
  }

  /** The inner loop, digit by digit. */
  method TakeIn(ghost before: seq<int>, start: int, digits: seq<int>) returns (remainder: int)
    requires start == NumberOfDigits(before) % 97
    ensures remainder == NumberOfDigits(before + digits) % 97
  {
    remainder := start;
    assert before + digits[..0] == before;
    for k := 0 to |digits|
      invariant remainder == NumberOfDigits(before + digits[..k]) % 97
    {
      OneDigitMore(before, digits, k);
      remainder := (remainder * 10 + digits[k]) % 97;
    }
    assert digits[..|digits|] == digits;
  }

  /** `\s` and `toUpperCase` are what the language makes of them. */
  datatype Reading = Reading(isSpace: char -> bool, upper: string -> string)

  function WithoutSpaces(reading: Reading, value: string): string {
    if value == "" then ""
    else (if reading.isSpace(value[0]) then "" else [value[0]]) + WithoutSpaces(reading, value[1..])
  }

  lemma {:induction false} WithoutSpacesOfBoth(reading: Reading, a: string, b: string)
    ensures WithoutSpaces(reading, a + b) == WithoutSpaces(reading, a) + WithoutSpaces(reading, b)
  {
    if a == "" {
      assert a + b == b;
    } else {
      assert (a + b)[1..] == a[1..] + b;
      WithoutSpacesOfBoth(reading, a[1..], b);
    }
  }

  /** A space anywhere makes no difference to an IBAN, and without any there is nothing to take out. */
  lemma {:induction false} SpacesDoNotMatter(reading: Reading, a: string, space: char, b: string)
    requires reading.isSpace(space)
    ensures WithoutSpaces(reading, a + [space] + b) == WithoutSpaces(reading, a + b)
    ensures (forall c :: c in b ==> !reading.isSpace(c)) ==> WithoutSpaces(reading, b) == b
  {
    WithoutSpacesOfBoth(reading, a + [space], b);
    WithoutSpacesOfBoth(reading, a, [space]);
    WithoutSpacesOfBoth(reading, a, b);
    assert [space][1..] == "";
    NoSpaceStays(reading, b);
  }

  lemma {:induction false} NoSpaceStays(reading: Reading, value: string)
    ensures (forall c :: c in value ==> !reading.isSpace(c)) ==> WithoutSpaces(reading, value) == value
  {
    if value != "" && forall c :: c in value ==> !reading.isSpace(c) {
      assert value[0] in value;
      NoSpaceStays(reading, value[1..]);
    }
  }

  method IbanIsValid(reading: Reading, value: string) returns (valid: bool)
    ensures valid <==> AddsUp(reading.upper(WithoutSpaces(reading, value)))
  {
    var compact := reading.upper(WithoutSpaces(reading, value));
    if !WellFormed(compact) {
      return false;
    }
    var remainder := Remainder(Rearranged(compact));
    valid := remainder == 1;
  }

  // --- What a mistake does to the number -------------------------------------------------------------

  function ScaleOf(c: char): int {
    if IsDigit(c) then 10 else 100
  }

  /** A number with a text written behind it, character by character: a letter takes two decimal places. */
  function Behind(number: int, text: string): int
    requires AllAlphanumeric(text)
  {
    if text == "" then number
    else Behind(number, text[..|text| - 1]) * ScaleOf(text[|text| - 1]) + ValueOf(text[|text| - 1])
  }

  lemma {:induction false} NumberIsBehindNothing(text: string)
    requires AllAlphanumeric(text)
    ensures NumberOfDigits(AllDigits(text)) == Behind(0, text)
  {
    if text != "" {
      var front, digits := AllDigits(text[..|text| - 1]), DigitsOf(text[|text| - 1]);
      NumberIsBehindNothing(text[..|text| - 1]);
      if |digits| == 1 {
        assert (front + digits)[..|front|] == front;
      } else {
        assert (front + digits)[..|front| + 1] == front + [digits[0]];
        assert (front + [digits[0]])[..|front|] == front;
      }
    }
  }

  lemma {:induction false} BehindBoth(number: int, a: string, b: string)
    requires AllAlphanumeric(a) && AllAlphanumeric(b)
    ensures AllAlphanumeric(a + b) && Behind(number, a + b) == Behind(Behind(number, a), b)
  {
    if b == "" {
      assert a + b == a;
    } else {
      BehindBoth(number, a, b[..|b| - 1]);
      assert (a + b)[..|a + b| - 1] == a + b[..|b| - 1];
    }
  }

  lemma SameRemainder(a: int, b: int)
    ensures a % 97 == b % 97 <==> (a - b) % 97 == 0
  {}

  lemma Multiple(x: int, q: int)
    requires x == 97 * q
    ensures x % 97 == 0
  {}

  /** Ten has an inverse modulo 97, which is 68. */
  lemma TenHasAnInverse(x: int)
    ensures (x * 10) % 97 == 0 <==> x % 97 == 0
  {
    if (x * 10) % 97 == 0 {
      var k := x * 10 / 97;
      Multiple(x, 68 * k - 7 * x);
    } else if x % 97 == 0 {
      Multiple(x * 10, 10 * (x / 97));
    }
  }

  /** What is written behind hides no difference. */
  lemma OneMoreDecides(x: int, y: int, value: int)
    ensures (x * 10 + value) % 97 == (y * 10 + value) % 97 <==> x % 97 == y % 97
    ensures (x * 100 + value) % 97 == (y * 100 + value) % 97 <==> x % 97 == y % 97
  {
    SameRemainder(x, y);
    SameRemainder(x * 10 + value, y * 10 + value);
    SameRemainder(x * 100 + value, y * 100 + value);
    TenHasAnInverse(x - y);
    TenHasAnInverse((x - y) * 10);
  }

  lemma {:induction false} WhatIsBehindDecidesNothing(x: int, y: int, text: string)
    requires AllAlphanumeric(text)
    ensures Behind(x, text) % 97 == Behind(y, text) % 97 <==> x % 97 == y % 97
  {
    if text != "" {
      var front, last := text[..|text| - 1], text[|text| - 1];
      WhatIsBehindDecidesNothing(x, y, front);
      OneMoreDecides(Behind(x, front), Behind(y, front), ValueOf(last));
    }
  }

  // --- Mistyped --------------------------------------------------------------------------------------

  lemma {:induction false} OneCharacter(x: int, c: char)
    requires IsAlphanumeric(c)
    ensures Behind(x, [c]) == x * ScaleOf(c) + ValueOf(c)
  {
    assert [c][..0] == "";
  }

  lemma {:induction false} TwoCharacters(x: int, c: char, d: char)
    requires IsAlphanumeric(c) && IsAlphanumeric(d)
    ensures Behind(x, [c, d]) == (x * ScaleOf(c) + ValueOf(c)) * ScaleOf(d) + ValueOf(d)
  {
    assert [c, d][..1] == [c];
    OneCharacter(x, c);
  }

  /** What stands before and after the stretch from `i` to `j` once the first four characters are at the end. */
  function Before(compact: string, i: nat, j: nat): string
    requires 4 <= |compact| && i <= j <= |compact| && (j <= 4 || 4 <= i)
  {
    if j <= 4 then compact[4..] + compact[..i] else compact[4..i]
  }

  function After(compact: string, i: nat, j: nat): string
    requires 4 <= |compact| && i <= j <= |compact| && (j <= 4 || 4 <= i)
  {
    if j <= 4 then compact[j..4] else compact[j..] + compact[..4]
  }

  lemma RearrangedMiddle(compact: string, i: nat, j: nat)
    requires 4 <= |compact| && i <= j <= |compact| && (j <= 4 || 4 <= i) && AllAlphanumeric(compact)
    ensures Rearranged(compact) == Before(compact, i, j) + compact[i..j] + After(compact, i, j)
    ensures AllAlphanumeric(Before(compact, i, j)) && AllAlphanumeric(compact[i..j]) && AllAlphanumeric(After(compact, i, j))
  {
    if j <= 4 {
      assert compact[..4] == compact[..i] + compact[i..j] + compact[j..4];
      FromTheLeft(compact[4..], compact[..i], compact[i..j], compact[j..4]);
    } else {
      assert compact[4..] == compact[4..i] + compact[i..j] + compact[j..];
      FromTheRight(compact[4..i], compact[i..j], compact[j..], compact[..4]);
    }
  }

  lemma FromTheLeft<T>(a: seq<T>, b: seq<T>, c: seq<T>, d: seq<T>)
    ensures a + (b + c + d) == a + b + c + d
  {}

  lemma FromTheRight<T>(a: seq<T>, b: seq<T>, c: seq<T>, d: seq<T>)
    ensures a + b + c + d == a + b + (c + d)
  {}

  ghost predicate SameOutside(compact: string, other: string, i: nat, j: nat) {
    |compact| == |other| && forall k :: 0 <= k < |compact| && (k < i || j <= k) ==> compact[k] == other[k]
  }

  lemma SameNeighbours(compact: string, other: string, i: nat, j: nat)
    requires 4 <= |compact| && i <= j <= |compact| && (j <= 4 || 4 <= i) && SameOutside(compact, other, i, j)
    ensures Before(compact, i, j) == Before(other, i, j) && After(compact, i, j) == After(other, i, j)
  {
    assert compact[..i] == other[..i] && compact[j..] == other[j..];
    if j <= 4 {
      assert compact[4..] == other[4..] && compact[j..4] == other[j..4];
    } else {
      assert compact[4..i] == other[4..i] && compact[..4] == other[..4];
    }
  }

  lemma {:induction false} RestInParts(before: string, middle: string, after: string)
    requires AllAlphanumeric(before) && AllAlphanumeric(middle) && AllAlphanumeric(after)
    ensures AllAlphanumeric(before + middle + after)
    ensures Rest(before + middle + after) == Behind(Behind(Behind(0, before), middle), after) % 97
  {
    BehindBoth(0, before, middle);
    BehindBoth(0, before + middle, after);
    NumberIsBehindNothing(before + middle + after);
  }

  lemma {:induction false} OnlyTheMiddleWeighs(before: string, a: string, b: string, after: string)
    requires AllAlphanumeric(before) && AllAlphanumeric(a) && AllAlphanumeric(b) && AllAlphanumeric(after)
    ensures AllAlphanumeric(before + a + after) && AllAlphanumeric(before + b + after)
    ensures Rest(before + a + after) == Rest(before + b + after) <==> WeighTheSame(Behind(0, before), a, b)
  {
    var x := Behind(0, before);
    RestInParts(before, a, after);
    RestInParts(before, b, after);
    WhatIsBehindDecidesNothing(Behind(x, a), Behind(x, b), after);
  }

  ghost predicate WeighTheSame(before: int, a: string, b: string)
    requires AllAlphanumeric(a) && AllAlphanumeric(b)
  {
    Behind(before, a) % 97 == Behind(before, b) % 97
  }

  /** Two well-formed texts that differ in one stretch only: with one, the other adds up just if the stretches weigh the same. */
  lemma OnlyTheMiddleCounts(compact: string, other: string, i: nat, j: nat, a: string, b: string) returns (before: int)
    requires AddsUp(compact) && WellFormed(other) && SameOutside(compact, other, i, j)
    requires i <= j <= |compact| && (j <= 4 || 4 <= i)
    requires a == compact[i..j] && b == other[i..j] && AllAlphanumeric(a) && AllAlphanumeric(b)
    ensures AddsUp(other) <==> WeighTheSame(before, a, b)
  {
    RearrangedMiddle(compact, i, j);
    RearrangedMiddle(other, i, j);
    SameNeighbours(compact, other, i, j);
    before := Behind(0, Before(compact, i, j));
    OnlyTheMiddleWeighs(Before(compact, i, j), a, b, After(compact, i, j));
  }

  /** A digit for another digit, or a letter for another letter, is always noticed. */
  lemma OneWrongCharacterIsNoticed(compact: string, i: nat, wrong: char)
    requires AddsUp(compact) && i < |compact| && wrong != compact[i]
    requires if IsDigit(compact[i]) then IsDigit(wrong) else IsLetter(wrong)
    ensures !AddsUp(compact[i := wrong])
  {
    var other := compact[i := wrong];
    assert compact[i..i + 1] == [compact[i]] && other[i..i + 1] == [wrong];
    var before := OnlyTheMiddleCounts(compact, other, i, i + 1, [compact[i]], [wrong]);
    AnotherOfItsKind(before, compact[i], wrong);
  }

  lemma {:induction false} AnotherOfItsKind(before: int, c: char, wrong: char)
    requires c != wrong && if IsDigit(c) then IsDigit(wrong) else IsLetter(c) && IsLetter(wrong)
    ensures Behind(before, [c]) % 97 != Behind(before, [wrong]) % 97
  {
    OneCharacter(before, c);
    OneCharacter(before, wrong);
    SmallDifference(ValueOf(c) - ValueOf(wrong));
    SameRemainder(Behind(before, [c]), Behind(before, [wrong]));
  }

  lemma SmallDifference(d: int)
    requires d != 0 && -97 < d < 97
    ensures d % 97 != 0
  {}

  /** A digit beside a letter worth eleven times as much: 1 and B, 2 and M, 3 and X. */
  predicate Twins(c: char, d: char)
    requires IsAlphanumeric(c) && IsAlphanumeric(d)
  {
    ValueOf(c) != 0 && ValueOf(d) != 0 && (ValueOf(c) == 11 * ValueOf(d) || ValueOf(d) == 11 * ValueOf(c))
  }

  lemma SwappedWeigh(before: int, c: char, d: char)
    requires IsAlphanumeric(c) && IsAlphanumeric(d) && c != d
    ensures WeighTheSame(before, [c, d], [d, c]) <==> Twins(c, d)
  {
    TwoCharacters(before, c, d);
    TwoCharacters(before, d, c);
    var x, y := ValueOf(c), ValueOf(d);
    var difference := Behind(before, [c, d]) - Behind(before, [d, c]);
    SameRemainder(Behind(before, [c, d]), Behind(before, [d, c]));
    if IsDigit(c) == IsDigit(d) {
      assert difference == (if IsDigit(c) then 9 else 99) * (x - y);
      SameKind(x - y);
    } else if IsDigit(c) {
      assert difference == 9 * (11 * x - y);
      OtherKind(11 * x - y);
    } else {
      assert difference == 9 * (x - 11 * y);
      OtherKind(x - 11 * y);
    }
  }

  lemma SameKind(d: int)
    requires d != 0 && -26 < d < 26
    ensures 9 * d % 97 != 0 && 99 * d % 97 != 0
  {
    assert 99 * d == 97 * d + 2 * d;
    Congruent(2 * d, d);
    SmallDifference(2 * d);
    OtherKind(d);
  }

  lemma OtherKind(d: int)
    requires -97 < d < 97
    ensures 9 * d % 97 == 0 <==> d == 0
  {
    var k := 9 * d / 97;
    if 9 * d % 97 == 0 {
      assert 9 * d == 97 * k && -9 < k < 9;
    }
  }

  /**
   * Two neighbours that stay neighbours, swapped: noticed, but for one family. Of a digit and a letter
   * worth eleven times as much, behind the check digits, both orders spell the same decimal digits.
   */
  lemma SwappedNeighboursAreNoticed(compact: string, i: nat)
    requires AddsUp(compact) && i + 1 < |compact| && i != 3 && compact[i] != compact[i + 1]
    ensures AddsUp(compact[i := compact[i + 1]][i + 1 := compact[i]]) <==> i >= 4 && Twins(compact[i], compact[i + 1])
  {
    var c, d := compact[i], compact[i + 1];
    var other := compact[i := d][i + 1 := c];
    assert compact[i..i + 2] == [c, d] && other[i..i + 2] == [d, c];
    if i == 1 {
      assert !IsLetter(other[1]);
    } else {
      assert WellFormed(other);
      var before := OnlyTheMiddleCounts(compact, other, i, i + 2, [c, d], [d, c]);
      SwappedWeigh(before, c, d);
    }
  }

  lemma {:induction false} OneBehind(text: string, i: nat)
    requires AllAlphanumeric(text) && i < |text|
    ensures Behind(0, text[..i + 1]) == Behind(0, text[..i]) * ScaleOf(text[i]) + ValueOf(text[i])
  {
    assert text[..i + 1][..i] == text[..i];
  }

  lemma {:induction false} ThreeNoughtsBehind(text: string, i: nat)
    requires AllAlphanumeric(text) && i + 3 <= |text| && text[i] == text[i + 1] == text[i + 2] == '0'
    ensures Behind(0, text[..i + 3]) == Behind(0, text[..i]) * 1000
  {
    OneBehind(text, i);
    OneBehind(text, i + 1);
    OneBehind(text, i + 2);
  }

  lemma {:induction false} NumberWithTwins(text: string)
    requires text == "1B000000000GB67"
    ensures AllAlphanumeric(text) && Behind(0, text) == 111_000_000_000_161_167
  {
    assert Behind(0, text[..2]) == 111 by { TwoCharacters(0, '1', 'B'); assert text[..2] == ['1', 'B']; }
    ThreeNoughtsBehind(text, 2);
    ThreeNoughtsBehind(text, 5);
    ThreeNoughtsBehind(text, 8);
    FourBehind(text, 111_000_000_000);
  }

  lemma {:induction false} FourBehind(text: string, before: int)
    requires AllAlphanumeric(text) && |text| == 15 && text[11] == 'G' && text[12] == 'B' && text[13] == '6' && text[14] == '7'
    requires Behind(0, text[..11]) == before
    ensures Behind(0, text) == (((before * 100 + 16) * 100 + 11) * 10 + 6) * 10 + 7
  {
    OneBehind(text, 11);
    OneBehind(text, 12);
    OneBehind(text, 13);
    OneBehind(text, 14);
    assert text[..15] == text;
  }

  /** The family is not empty: this IBAN and the one with its 1 and B swapped are both valid. */
  lemma {:induction false} TwinsAreNotNoticed(compact: string)
    requires compact == "GB671B000000000"
    ensures AddsUp(compact) && AddsUp(compact[4 := 'B'][5 := '1'])
  {
    var text := Rearranged(compact);
    assert text == "1B000000000GB67";
    NumberWithTwins(text);
    NumberIsBehindNothing(text);
    SwappedNeighboursAreNoticed(compact, 4);
  }
}
