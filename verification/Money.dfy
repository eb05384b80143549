// Amounts of money as texts with two decimals, and as whole cents.
module Money {
  import opened Options
  import opened Texts
  import opened LocaleNumbers

  // ----- Printing numbers -----

  function Digit(d: nat): char
    requires d < 10
  {
    (d + 48) as char
  }

  function DigitsOf(n: nat): string {
    if n < 10 then [Digit(n)] else DigitsOf(n / 10) + [Digit(n % 10)]
  }

  function Padded(s: string, n: nat): string
    decreases n - |s|
  {
    if |s| >= n then s else Padded(['0'] + s, n)
  }

  lemma {:induction false} DigitsRead(n: nat)
    ensures AllDigits(DigitsOf(n)) && NatOf(DigitsOf(n)) == n
    ensures n > 0 ==> DigitsOf(n)[0] != '0'
  {
    if n >= 10 {
      DigitsRead(n / 10);
      var front := DigitsOf(n / 10);
      assert DigitsOf(n)[..|front|] == front;
    }
  }

  lemma {:induction false} NonZeroIsPositive(s: string)
    requires AllDigits(s) && s != "" && s[0] != '0'
    ensures NatOf(s) > 0
  {
    if |s| > 1 {
      NonZeroIsPositive(s[..|s| - 1]);
    }
  }

  // A text of digits without leading zeros is what its number prints as.
  lemma {:induction false} NumberPrints(s: string)
    requires AllDigits(s) && s != "" && s[0] != '0'
    ensures DigitsOf(NatOf(s)) == s
  {
    var front, last := s[..|s| - 1], s[|s| - 1] as int - 48;
    assert s == front + [Digit(last)];
    if front != "" {
      NumberPrints(front);
      NonZeroIsPositive(front);
    }
  }

  lemma {:induction false} PaddedAppends(s: string, c: char, n: nat)
    requires n > 0
    ensures Padded(s + [c], n) == Padded(s, n - 1) + [c]
    decreases n - |s|
  {
    if |s| + 1 < n {
      assert ['0'] + (s + [c]) == (['0'] + s) + [c];
      PaddedAppends(['0'] + s, c, n);
    }
  }

  // A text of digits is what its number prints as, padded to the text's length.
  lemma {:induction false} NumberPrintsPadded(s: string)
    requires AllDigits(s) && s != ""
    ensures Padded(DigitsOf(NatOf(s)), |s|) == s
  {
    var front, last := s[..|s| - 1], s[|s| - 1] as int - 48;
    assert s == front + [Digit(last)];
    if front == "" {
      assert NatOf(front) == 0;
    } else {
      NumberPrintsPadded(front);
      if NatOf(front) > 0 {
        PaddedAppends(DigitsOf(NatOf(front)), Digit(last), |s|);
      } else {
        assert DigitsOf(0) == "0";
        PaddedAppends("0", Digit(last), |s|);
        ZeroInFront(Digit(last), |s|);
      }
    }
  }

  lemma ZeroInFront(c: char, n: nat)
    requires n > 1
    ensures Padded([c], n) == Padded("0" + [c], n)
  {
    assert ['0'] + [c] == "0" + [c];
  }

  lemma {:induction false} PaddedIs(s: string, n: nat)
    ensures AllDigits(s) ==> AllDigits(Padded(s, n))
    ensures |Padded(s, n)| == if |s| >= n then |s| else n
    ensures AllDigits(s) ==> NatOf(Padded(s, n)) == NatOf(s)
    ensures |s| < n ==> Padded(s, n)[0] == '0'
    decreases n - |s|
  {
    if |s| < n {
      if AllDigits(s) {
        NatOfJoins("0", s);
        assert NatOf("0") == 0;
      }
      PaddedIs(['0'] + s, n);
      if |s| + 1 == n {
        assert Padded(s, n) == ['0'] + s;
      }
    }
  }

  // ----- Minor units -----

  // Digits without superfluous zeros, a point and two more digits.
  predicate IsCanonical(s: string) {
    && |s| >= 4 && s[|s| - 3] == '.'
    && AllDigits(s[..|s| - 3]) && AllDigits(s[|s| - 2..])
    && (s[0] != '0' || |s| == 4)
  }

  function ToMinorUnits(s: string): Option<nat> {
    if IsCanonical(s) then
      assert AllDigits(s[..|s| - 3] + s[|s| - 2..]);
      Some(NatOf(s[..|s| - 3] + s[|s| - 2..]))
    else None
  }

  function WithPoint(digits: string): string
    requires |digits| >= 2
  {
    digits[..|digits| - 2] + ['.'] + digits[|digits| - 2..]
  }

  function FromMinorUnits(v: int): string {
    var digits := Padded(DigitsOf(if v < 0 then -v else v), 3);
    PaddedIs(DigitsOf(if v < 0 then -v else v), 3);
    if v < 0 then ['-'] + WithPoint(digits) else WithPoint(digits)
  }

  // Every amount prints as a canonical text that reads back as the amount.
  lemma UnitsRoundTrip(n: nat)
    ensures ToMinorUnits(FromMinorUnits(n)) == Some(n)
  {
    var plain := DigitsOf(n);
    var digits := Padded(plain, 3);
    DigitsRead(n);
    PaddedIs(plain, 3);
    var s, k := WithPoint(digits), |digits| - 2;
    assert s[..k] == digits[..k] && s[k] == '.' && s[k + 1..] == digits[k..];
    assert digits[..k] + digits[k..] == digits;
    assert s[0] == digits[0];
    assert |plain| > 3 ==> n > 0;
  }

  // Every canonical text is what its amount prints as.
  lemma TextRoundTrip(s: string)
    requires ToMinorUnits(s).Some?
    ensures FromMinorUnits(ToMinorUnits(s).value) == s
  {
    var digits := s[..|s| - 3] + s[|s| - 2..];
    assert AllDigits(digits);
    assert digits[0] == s[0];
    if s[0] != '0' {
      NumberPrints(digits);
    } else {
      NumberPrintsPadded(digits);
    }
    assert Padded(DigitsOf(NatOf(digits)), 3) == digits;
    assert digits[..|digits| - 2] == s[..|s| - 3] && digits[|digits| - 2..] == s[|s| - 2..];
    assert s == s[..|s| - 3] + ['.'] + s[|s| - 2..];
  }

  // Only amounts that are not negative have canonical texts, and no two the same.
  lemma NegativeIsNotCanonical(v: int)
    requires v < 0
    ensures ToMinorUnits(FromMinorUnits(v)) == None
  {
    PaddedIs(DigitsOf(-v), 3);
    var s := FromMinorUnits(v);
    assert s[0] == '-' && s[..|s| - 3][0] == '-';
  }

  // ----- Rounding -----

  // An amount in whole cents; half a cent is rounded away from zero.
  function Cents(amount: real): int {
    if amount >= 0.0 then (100.0 * amount + 0.5).Floor else -((-100.0 * amount + 0.5).Floor)
  }

  lemma CentsAreNearest(amount: real)
    ensures -0.5 <= Cents(amount) as real - 100.0 * amount <= 0.5
  {
  }

  // No other whole number of cents is nearer, and of two that are equally near it is the larger in size.
  lemma NearestIsCents(amount: real, cents: int)
    requires var d := cents as real - 100.0 * amount;
      if amount >= 0.0 then -0.5 < d <= 0.5 else -0.5 <= d < 0.5
    ensures cents == Cents(amount)
  {
    if amount >= 0.0 {
      assert cents as real <= 100.0 * amount + 0.5 < cents as real + 1.0;
    } else {
      assert -cents as real <= -100.0 * amount + 0.5 < -cents as real + 1.0;
    }
  }

  lemma CentsOfCents(c: int)
    ensures Cents(c as real / 100.0) == c
  {
    NearestIsCents(c as real / 100.0, c);
  }
}
