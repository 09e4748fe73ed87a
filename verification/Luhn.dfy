/** Card numbers and the Luhn check digit (Annex B of ISO/IEC 7812-1). */
module Luhn {
  import opened Tables

  predicate IsDigit(c: char) {
    '0' <= c <= '9'
  }

  ghost predicate AllDigits(s: string) {
    forall i | 0 <= i < |s| :: IsDigit(s[i])
  }

  function Value(c: char): int {
    c as int - '0' as int
  }

  function DigitChar(d: int): (c: char)
    requires 0 <= d <= 9
    ensures IsDigit(c) && Value(c) == d
  {
    ('0' as int + d) as char
  }

  /** What a digit adds to the sum, doubled and reduced when `alternate`. */
  function Contribution(c: char, alternate: bool): int {
    if !alternate then Value(c)
    else if 2 * Value(c) > 9 then 2 * Value(c) - 9
    else 2 * Value(c)
  }

  /** The Luhn sum, from the last digit, which is doubled when `alternate`. */
  function LuhnSum(s: string, alternate: bool): int {
    if s == "" then 0
    else
      var n := |s| - 1;
      Contribution(s[n], alternate) + LuhnSum(s[..n], !alternate)
  }

  function CheckDigit(prefix: string): char {
    DigitChar((10 - LuhnSum(prefix, true) % 10) % 10)
  }

  /** The digits of `s`, in order. */
  function Clean(s: string): string {
    if s == "" then ""
    else
      var n := |s| - 1;
      if IsDigit(s[n]) then Clean(s[..n]) + [s[n]] else Clean(s[..n])
  }

  predicate IsValid(cardNumber: string) {
    13 <= |Clean(cardNumber)| <= 19 && LuhnSum(Clean(cardNumber), false) % 10 == 0
  }

  /** The generator's loop reduces any doubled digit above 9. */
  method CalculateLuhnCheckDigit(prefix: string) returns (digit: string)
    requires AllDigits(prefix)
    ensures digit == [CheckDigit(prefix)]
  {
    var sum := 0;
    var alternate := true;
    var i := |prefix| - 1;
    assert prefix[..|prefix|] == prefix;
    while i >= 0
      invariant -1 <= i < |prefix|
      invariant sum + LuhnSum(prefix[..i + 1], alternate) == LuhnSum(prefix, true)
    {
      assert prefix[..i + 1][..i] == prefix[..i];
      var num := Value(prefix[i]);
      if alternate {
        num := num * 2;
      }
      if num > 9 {
        num := num - 9;
      }
      sum := sum + num;
      alternate := !alternate;
      i := i - 1;
    }
    var checkDigit := (10 - sum % 10) % 10;
    return [DigitChar(checkDigit)];
  }

  method ValidateLuhn(cardNumber: string) returns (valid: bool)
    ensures valid == IsValid(cardNumber)
  {
    var cleanNumber := "";
    for k := 0 to |cardNumber|
      invariant cleanNumber == Clean(cardNumber[..k])
    {
      assert cardNumber[..k + 1][..k] == cardNumber[..k];
      if '0' <= cardNumber[k] <= '9' {
        cleanNumber := cleanNumber + [cardNumber[k]];
      }
    }
    assert cardNumber[..|cardNumber|] == cardNumber;
    if |cleanNumber| < 13 || |cleanNumber| > 19 {
      return false;
    }
    var sum := 0;
    var alternate := false;
    var i := |cleanNumber| - 1;
    assert cleanNumber[..|cleanNumber|] == cleanNumber;
    while i >= 0
      invariant -1 <= i < |cleanNumber|
      invariant sum + LuhnSum(cleanNumber[..i + 1], alternate) == LuhnSum(cleanNumber, false)
    {
      assert cleanNumber[..i + 1][..i] == cleanNumber[..i];
      var n := Value(cleanNumber[i]);
      if alternate {
        n := n * 2;
        if n > 9 {
          n := n - 9;
        }
      }
      sum := sum + n;
      alternate := !alternate;
      i := i - 1;
    }
    return sum % 10 == 0;
  }

  /** strconv.FormatInt of a non-negative number. */
  function Decimal(n: nat): string {
    if n < 10 then [DigitChar(n)] else Decimal(n / 10) + [DigitChar(n % 10)]
  }

  function Power10(k: nat): nat {
    if k == 0 then 1 else 10 * Power10(k - 1)
  }

  lemma {:induction false} DecimalLength(n: nat, k: nat)
    requires k >= 1 && n < Power10(k) && (k == 1 || Power10(k - 1) <= n)
    ensures |Decimal(n)| == k && AllDigits(Decimal(n))
  {
    if k > 1 {
      assert Power10(k - 1) >= 10 by {
        PowerIsLarge(k - 1);
      }
      DecimalLength(n / 10, k - 1);
    }
  }

  lemma {:induction false} PowerIsLarge(k: nat)
    requires k >= 1
    ensures Power10(k) >= 10
  {
    if k > 1 {
      PowerIsLarge(k - 1);
    }
  }

  /** The fixed prefix, the nine digits of the drawn number, and the check digit. */
  function CardNumberOf(drawn: nat): string {
    var prefix := "411111" + Decimal(drawn + 100_000_000);
    prefix + [CheckDigit(prefix)]
  }

  /** `random` is the drawn number below 900000000, or None when the source fails. */
  method GenerateCardNumber(random: Option<nat>) returns (cardNumber: string)
    requires random.Some? ==> random.value < 900_000_000
    ensures random.None? ==> cardNumber == ""
    ensures random.Some? ==> |cardNumber| == 16 && AllDigits(cardNumber) && cardNumber[..6] == "411111"
                             && IsValid(cardNumber)
    ensures random.Some? ==> cardNumber == CardNumberOf(random.value)
  {
    if random.None? {
      return "";
    }
    var baseNum := "411111";
    var randomNumber := random.value + 100_000_000;
    assert Power10(9) == 1_000_000_000 && Power10(8) == 100_000_000;
    DecimalLength(randomNumber, 9);
    var prefix := baseNum + Decimal(randomNumber);
    var checkDigit := CalculateLuhnCheckDigit(prefix);
    AppendedDigitIsUnique(prefix, CheckDigit(prefix));
    cardNumber := prefix + checkDigit;
    assert cardNumber[..6] == baseNum;
  }

  lemma {:induction false} DecimalIsInjective(m: nat, n: nat)
    requires Decimal(m) == Decimal(n)
    ensures m == n
  {
    DecimalEnds(m);
    DecimalEnds(n);
    if m >= 10 && n >= 10 {
      assert Decimal(m / 10) == Decimal(m)[..|Decimal(m)| - 1];
      assert Decimal(n / 10) == Decimal(n)[..|Decimal(n)| - 1];
      DecimalIsInjective(m / 10, n / 10);
    }
  }

  /** The last digit is the units, and one digit is written only for numbers below ten. */
  lemma {:induction false} DecimalEnds(n: nat)
    ensures Decimal(n) != "" && Value(Decimal(n)[|Decimal(n)| - 1]) == n % 10
    ensures |Decimal(n)| == 1 <==> n < 10
  {
    if n >= 10 {
      DecimalEnds(n / 10);
    }
  }

  /** Different draws give different card numbers. */
  lemma {:induction false} DifferentDrawsDiffer(m: nat, n: nat)
    requires m < 900_000_000 && n < 900_000_000 && CardNumberOf(m) == CardNumberOf(n)
    ensures m == n
  {
    assert Power10(9) == 1_000_000_000 && Power10(8) == 100_000_000;
    DecimalLength(m + 100_000_000, 9);
    DecimalLength(n + 100_000_000, 9);
    assert Decimal(m + 100_000_000) == CardNumberOf(m)[6..15];
    assert Decimal(n + 100_000_000) == CardNumberOf(n)[6..15];
    DecimalIsInjective(m + 100_000_000, n + 100_000_000);
  }

  /** The sum counts the last digit as it is and the one before it as the digits of its double; and so on to the
      left. */
  lemma {:induction false} SumOfLastTwo(s: string, c: char, d: char)
    requires IsDigit(c) && IsDigit(d)
    ensures LuhnSum("", false) == 0 && LuhnSum([d], false) == Value(d)
    ensures LuhnSum(s + [c, d], false) == LuhnSum(s, false) + 2 * Value(c) / 10 + 2 * Value(c) % 10 + Value(d)
  {
    assert (s + [c, d])[..|s| + 1] == s + [c] && (s + [c])[..|s|] == s;
    assert [d][..0] == "";
  }

  /** A number of fewer than 13 or more than 19 digits is never valid, and every length between is possible. */
  lemma {:induction false} LengthMatters(s: string)
    requires AllDigits(s)
    ensures |s| < 13 || |s| > 19 ==> !IsValid(s)
    ensures 13 <= |s| + 1 <= 19 ==> IsValid(s + [CheckDigit(s)])
  {
    CleanOfDigits(s);
    if 13 <= |s| + 1 <= 19 {
      AppendedDigitIsUnique(s, CheckDigit(s));
    }
  }

  /** A number of which the test is known, a 4 and fifteen ones: it is valid, and with a 2 at the end it is not. */
  lemma {:induction false} KnownNumber()
    ensures IsValid("4" + Ones(14) + "1") && !IsValid("4" + Ones(14) + "2")
  {
    OnesSum(14);
    AppendedDigitIsUnique("4" + Ones(14), '1');
    AppendedDigitIsUnique("4" + Ones(14), '2');
  }

  function Ones(n: nat): string {
    if n == 0 then "" else Ones(n - 1) + "1"
  }

  lemma {:induction false} OnesSum(n: nat)
    requires n % 2 == 0
    ensures |Ones(n)| == n && AllDigits(Ones(n))
    ensures LuhnSum("4" + Ones(n), true) == 8 + 3 * (n / 2)
  {
    if n > 0 {
      OnesSum(n - 2);
      var rest := "4" + Ones(n - 2);
      assert "4" + Ones(n) == rest + ['1', '1'];
      assert (rest + ['1', '1'])[..|rest| + 1] == rest + ['1'] && (rest + ['1'])[..|rest|] == rest;
    } else {
      assert "4" + Ones(0) == "4" && "4"[..0] == "";
    }
  }

  // ----- what the check digit guarantees -----

  lemma {:induction false} CleanOfDigits(s: string)
    requires AllDigits(s)
    ensures Clean(s) == s
  {
    if s != "" {
      var n := |s| - 1;
      CleanOfDigits(s[..n]);
      assert IsDigit(s[n]) && s == s[..n] + [s[n]];
    }
  }

  /** Of the ten digits that can be appended to a prefix, exactly the computed one validates. */
  lemma {:induction false} AppendedDigitIsUnique(prefix: string, d: char)
    requires AllDigits(prefix) && 12 <= |prefix| <= 18 && IsDigit(d)
    ensures IsValid(prefix + [d]) <==> d == CheckDigit(prefix)
  {
    CleanOfDigits(prefix + [d]);
    assert (prefix + [d])[..|prefix|] == prefix;
    assert LuhnSum(prefix + [d], false) == Value(d) + LuhnSum(prefix, true);
  }

  /** Whether the digit at position i is doubled. */
  predicate IsDoubled(s: string, i: nat, alternate: bool)
    requires i < |s|
  {
    ((|s| - 1 - i) % 2 == 0) == alternate
  }

  /** Replacing one digit changes the sum by the change of its contribution. */
  lemma {:induction false} SumAfterReplacement(s: string, i: nat, c: char, alternate: bool)
    requires i < |s|
    ensures LuhnSum(s[i := c], alternate) == LuhnSum(s, alternate)
      - Contribution(s[i], IsDoubled(s, i, alternate)) + Contribution(c, IsDoubled(s, i, alternate))
  {
    var n := |s| - 1;
    if i == n {
      assert s[i := c][..n] == s[..n];
    } else {
      assert s[i := c][..n] == s[..n][i := c];
      SumAfterReplacement(s[..n], i, c, !alternate);
    }
  }

  lemma {:induction false} DifferentContributions(c: char, d: char, alternate: bool)
    requires IsDigit(c) && IsDigit(d) && c != d
    ensures (Contribution(c, alternate) - Contribution(d, alternate)) % 10 != 0
  {
  }

  /** On a string of digits only the length and the sum matter. */
  lemma {:induction false} ValidDigits(s: string)
    requires AllDigits(s)
    ensures IsValid(s) <==> 13 <= |s| <= 19 && LuhnSum(s, false) % 10 == 0
  {
    CleanOfDigits(s);
  }

  lemma {:induction false} MultipleAfterChange(sum: int, change: int)
    requires sum % 10 == 0
    ensures (sum + change) % 10 == 0 <==> change % 10 == 0
  {
  }

  lemma {:induction false} OneChangedOfDigits(s: string, i: nat, c: char)
    requires AllDigits(s) && IsValid(s) && i < |s| && IsDigit(c) && c != s[i]
    ensures !IsValid(s[i := c])
  {
    ValidDigits(s);
    ValidDigits(s[i := c]);
    var doubled := IsDoubled(s, i, false);
    SumAfterReplacement(s, i, c, false);
    DifferentContributions(c, s[i], doubled);
    MultipleAfterChange(LuhnSum(s, false), Contribution(c, doubled) - Contribution(s[i], doubled));
  }

  function Swapped(s: string, i: nat): string
    requires i + 1 < |s|
  {
    s[i := s[i + 1]][i + 1 := s[i]]
  }

  /** What swapping c, doubled or not, with its neighbour d changes. */
  function SwapChange(c: char, d: char, doubled: bool): int {
    Contribution(d, doubled) + Contribution(c, !doubled) - Contribution(c, doubled) - Contribution(d, !doubled)
  }

  lemma {:induction false} SwapChangeIsMultipleIff(c: char, d: char, doubled: bool)
    requires IsDigit(c) && IsDigit(d) && c != d
    ensures SwapChange(c, d, doubled) % 10 == 0 <==> {c, d} == {'0', '9'}
  {
  }

  lemma {:induction false} NeighboursAlternate(s: string, i: nat, c: char)
    requires i + 1 < |s|
    ensures IsDoubled(s[i := c], i + 1, false) == !IsDoubled(s, i, false)
  {
  }

  /** The first half of a swap puts the second digit in both places. */
  function Copied(s: string, i: nat): (copied: string)
    requires i + 1 < |s|
    ensures |copied| == |s| && copied[i + 1] == s[i + 1]
    ensures Swapped(s, i) == copied[i + 1 := s[i]]
  {
    s[i := s[i + 1]]
  }

  lemma {:induction false} SumAfterCopy(s: string, i: nat, doubled: bool)
    requires i + 1 < |s| && doubled == IsDoubled(s, i, false)
    ensures LuhnSum(Copied(s, i), false)
      == LuhnSum(s, false) - Contribution(s[i], doubled) + Contribution(s[i + 1], doubled)
    ensures LuhnSum(Swapped(s, i), false)
      == LuhnSum(Copied(s, i), false) - Contribution(s[i + 1], !doubled) + Contribution(s[i], !doubled)
  {
    NeighboursAlternate(s, i, s[i + 1]);
    SumAfterReplacement(s, i, s[i + 1], false);
    SumAfterReplacement(Copied(s, i), i + 1, s[i], false);
  }

  lemma {:induction false} SumAfterSwap(s: string, i: nat)
    requires i + 1 < |s|
    ensures LuhnSum(Swapped(s, i), false) == LuhnSum(s, false) + SwapChange(s[i], s[i + 1], IsDoubled(s, i, false))
  {
    SumAfterCopy(s, i, IsDoubled(s, i, false));
  }

  lemma {:induction false} SwappedIsDigits(s: string, i: nat)
    requires AllDigits(s) && i + 1 < |s|
    ensures AllDigits(Swapped(s, i)) && |Swapped(s, i)| == |s|
  {
  }

  lemma {:induction false} SwapOfDigits(s: string, i: nat)
    requires AllDigits(s) && IsValid(s) && i + 1 < |s| && s[i] != s[i + 1]
    ensures IsValid(Swapped(s, i)) <==> {s[i], s[i + 1]} == {'0', '9'}
  {
    SwappedIsDigits(s, i);
    ValidDigits(s);
    ValidDigits(Swapped(s, i));
    var doubled := IsDoubled(s, i, false);
    SumAfterSwap(s, i);
    SwapChangeIsMultipleIff(s[i], s[i + 1], doubled);
    MultipleAfterChange(LuhnSum(s, false), SwapChange(s[i], s[i + 1], doubled));
  }

  lemma {:induction false} CleanConcat(a: string, b: string)
    ensures Clean(a + b) == Clean(a) + Clean(b)
  {
    if b == "" {
      assert a + b == a;
    } else {
      var n := |b| - 1;
      assert (a + b)[..|a| + n] == a + b[..n];
      CleanConcat(a, b[..n]);
    }
  }

  lemma {:induction false} CleanIsDigits(s: string)
    ensures AllDigits(Clean(s))
  {
    if s != "" {
      CleanIsDigits(s[..|s| - 1]);
    }
  }

  /** Only the digits of a number matter. */
  lemma {:induction false} ValidIffCleanIs(s: string)
    ensures AllDigits(Clean(s)) && (IsValid(s) <==> IsValid(Clean(s)))
  {
    CleanIsDigits(s);
    CleanOfDigits(Clean(s));
  }

  lemma {:induction false} CleanAround(a: string, c: char, b: string)
    requires IsDigit(c)
    ensures Clean(a + [c] + b) == Clean(a) + [c] + Clean(b)
  {
    CleanConcat(a + [c], b);
    CleanConcat(a, [c]);
    assert [c][..0] == "" && Clean([c]) == [c];
  }

  /** A change of a digit is a change among the digits, at position k. */
  lemma {:induction false} CleanOfChange(s: string, i: nat, c: char) returns (k: nat)
    requires i < |s| && IsDigit(s[i]) && IsDigit(c)
    ensures k < |Clean(s)| && Clean(s)[k] == s[i] && Clean(s[i := c]) == Clean(s)[k := c]
  {
    var a, b := s[..i], s[i + 1..];
    assert s == a + [s[i]] + b && s[i := c] == a + [c] + b;
    CleanAround(a, s[i], b);
    CleanAround(a, c, b);
    k := |Clean(a)|;
  }

  /** Changing any one digit of a valid number, written with any separators, makes it invalid. */
  lemma {:induction false} OneChangedDigitIsDetected(s: string, i: nat, c: char)
    requires IsValid(s) && i < |s| && IsDigit(s[i]) && IsDigit(c) && c != s[i]
    ensures !IsValid(s[i := c])
  {
    var k := CleanOfChange(s, i, c);
    ValidIffCleanIs(s);
    ValidIffCleanIs(s[i := c]);
    OneChangedOfDigits(Clean(s), k, c);
  }

  lemma {:induction false} CleanOfSeparators(s: string)
    requires forall k | 0 <= k < |s| :: !IsDigit(s[k])
    ensures Clean(s) == ""
  {
    if s != "" {
      CleanOfSeparators(s[..|s| - 1]);
    }
  }

  /** Two digits with only separators between them are neighbours among the digits. */
  lemma {:induction false} CleanAroundTwo(a: string, c: char, mid: string, d: char, b: string)
    requires IsDigit(c) && IsDigit(d) && forall k | 0 <= k < |mid| :: !IsDigit(mid[k])
    ensures Clean(a + [c] + mid + [d] + b) == Clean(a) + [c] + [d] + Clean(b)
  {
    CleanAround(a + [c] + mid, d, b);
    CleanAround(a, c, mid);
    CleanOfSeparators(mid);
  }

  /** A swap of two such digits is a swap of neighbours among the digits, at position k. */
  lemma {:induction false} CleanOfSwap(a: string, c: char, mid: string, d: char, b: string) returns (k: nat)
    requires IsDigit(c) && IsDigit(d) && forall j | 0 <= j < |mid| :: !IsDigit(mid[j])
    ensures k + 1 < |Clean(a + [c] + mid + [d] + b)|
    ensures Clean(a + [c] + mid + [d] + b)[k] == c && Clean(a + [c] + mid + [d] + b)[k + 1] == d
    ensures Clean(a + [d] + mid + [c] + b) == Swapped(Clean(a + [c] + mid + [d] + b), k)
  {
    CleanAroundTwo(a, c, mid, d, b);
    CleanAroundTwo(a, d, mid, c, b);
    k := |Clean(a)|;
  }

  lemma {:induction false} SplitAtTwo(s: string, i: nat, j: nat)
    requires i < j < |s|
    ensures s == s[..i] + [s[i]] + s[i + 1..j] + [s[j]] + s[j + 1..]
  {
    assert s[..j] == s[..i] + [s[i]] + s[i + 1..j];
    assert s == s[..j] + [s[j]] + s[j + 1..];
  }

  /** Swapping two different digits of a valid number that have no digit between them, whatever separators it
      is written with, keeps it valid if and only if they are 0 and 9. */
  lemma {:induction false} SwapIsDetectedUnlessZeroNine(s: string, i: nat, j: nat)
    requires IsValid(s) && i < j < |s| && IsDigit(s[i]) && IsDigit(s[j]) && s[i] != s[j]
    requires forall k | i < k < j :: !IsDigit(s[k])
    ensures IsValid(s[i := s[j]][j := s[i]]) <==> {s[i], s[j]} == {'0', '9'}
  {
    var a, mid, b, c, d := s[..i], s[i + 1..j], s[j + 1..], s[i], s[j];
    SplitAtTwo(s, i, j);
    SplitAtTwo(s[i := d][j := c], i, j);
    assert s[i := d][j := c][..i] == a && s[i := d][j := c][i + 1..j] == mid && s[i := d][j := c][j + 1..] == b;
    forall k | 0 <= k < |mid| ensures !IsDigit(mid[k]) {
      assert mid[k] == s[i + 1 + k];
    }
    var k := CleanOfSwap(a, c, mid, d, b);
    ValidIffCleanIs(s);
    ValidIffCleanIs(a + [d] + mid + [c] + b);
    SwapOfDigits(Clean(s), k);
  }

  /** Inserting any character that is not a digit anywhere changes nothing. */
  lemma {:induction false} NonDigitsAreIgnored(a: string, c: char, b: string)
    requires !IsDigit(c)
    ensures IsValid(a + [c] + b) <==> IsValid(a + b)
  {
    CleanConcat(a + [c], b);
    CleanConcat(a, [c]);
    CleanConcat(a, b);
    assert Clean([c]) == "";
  }
}
