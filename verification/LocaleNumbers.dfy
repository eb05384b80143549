// Numbers as price lists write them: either "," or "." may be the decimal mark, and the other one
// groups digits.
module LocaleNumbers {
  import opened Options
  import opened Texts

  predicate IsMark(c: char) {
    c == ',' || c == '.'
  }

  function Other(mark: char): char {
    if mark == ',' then '.' else ','
  }

  function Unsigned(s: string): string {
    if s != "" && s[0] == '-' then s[1..] else s
  }

  function NatOf(digits: string): nat
    requires AllDigits(digits)
  {
    if digits == "" then 0
    else
      var last := |digits| - 1;
      10 * NatOf(digits[..last]) + (digits[last] as int - '0' as int)
  }

  function Pow10(n: nat): (p: nat)
    ensures p >= 1
  {
    if n == 0 then 1 else 10 * Pow10(n - 1)
  }

  // The number with an optionally signed whole part and the digits of a fraction.
  function Value(whole: string, fraction: string): real
    requires AllDigits(Unsigned(whole)) && AllDigits(fraction)
  {
    var magnitude := NatOf(Unsigned(whole) + fraction) as real / Pow10(|fraction|) as real;
    if Unsigned(whole) == whole then magnitude else -magnitude
  }

  lemma TenTimes(n: nat, p: nat)
    ensures n * (10 * p) == 10 * (n * p)
  {
  }

  // Digits after the decimal mark count tenths, hundredths and so on.
  lemma {:induction false} NatOfJoins(a: string, b: string)
    requires AllDigits(a) && AllDigits(b)
    ensures AllDigits(a + b) && NatOf(a + b) == NatOf(a) * Pow10(|b|) + NatOf(b)
  {
    if b == "" {
      assert a + b == a;
    } else {
      var last := |b| - 1;
      NatOfJoins(a, b[..last]);
      assert (a + b)[..|a| + last] == a + b[..last];
      TenTimes(NatOf(a), Pow10(last));
    }
  }

  // ----- The meaning of a numeral without spaces -----

  predicate IsWhole(s: string) {
    AllDigits(Unsigned(s))
  }

  // The mark at k separates whole from fraction; the other mark may stand anywhere before it.
  predicate SplitsAt(s: string, k: int) {
    && 0 <= k < |s| - 1 && IsMark(s[k])
    && IsWhole(Without(s[..k], Other(s[k]))) && AllDigits(s[k + 1..])
  }

  ghost predicate Denotes(s: string, v: real) {
    || (IsWhole(s) && Unsigned(s) != "" && v == Value(s, ""))
    || exists k :: SplitsAt(s, k) && v == Value(Without(s[..k], Other(s[k])), s[k + 1..])
  }

  function LastMark(s: string): (k: int)
    ensures -1 <= k < |s|
    ensures k >= 0 ==> IsMark(s[k])
    ensures forall i :: k < i < |s| ==> !IsMark(s[i])
  {
    if s == "" then -1
    else if IsMark(s[|s| - 1]) then |s| - 1
    else LastMark(s[..|s| - 1])
  }

  // The last mark, whichever it is, is the decimal mark.
  function Reading(s: string): Option<real> {
    var k := LastMark(s);
    if k < 0 then WholeReading(s)
    else Joined(Without(s[..k], Other(s[k])), s[k + 1..])
  }

  function WholeReading(s: string): Option<real> {
    if IsWhole(s) && Unsigned(s) != "" then Some(Value(s, "")) else None
  }

  function Joined(whole: string, fraction: string): Option<real> {
    if IsWhole(whole) && fraction != "" && AllDigits(fraction) then Some(Value(whole, fraction)) else None
  }

  lemma SplitsAtTheLastMark(s: string, k: int)
    requires SplitsAt(s, k)
    ensures k == LastMark(s)
  {
    forall i | k < i < |s|
      ensures IsDigit(s[i])
    {
      assert s[i] == s[k + 1..][i - (k + 1)];
    }
  }

  lemma MarkedIsNotWhole(s: string, k: nat)
    requires k < |s| && IsMark(s[k])
    ensures !IsWhole(s)
  {
    if s[0] == '-' {
      assert Unsigned(s)[k - 1] == s[k];
    }
  }

  lemma ReadingDenotes(s: string)
    requires Reading(s).Some?
    ensures Denotes(s, Reading(s).value)
  {
    var k := LastMark(s);
    if k >= 0 {
      assert SplitsAt(s, k);
    }
  }

  lemma DenotedIsRead(s: string, v: real)
    requires Denotes(s, v)
    ensures Reading(s) == Some(v)
  {
    if k :| SplitsAt(s, k) && v == Value(Without(s[..k], Other(s[k])), s[k + 1..]) {
      SplitsAtTheLastMark(s, k);
    } else {
      NoMarkInWhole(s);
      assert LastMark(s) < 0;
    }
  }

  // A numeral denotes at most one number: what its reading yields.
  lemma ReadingMeaning(s: string, v: real)
    ensures Reading(s) == Some(v) <==> Denotes(s, v)
  {
    if Reading(s) == Some(v) {
      ReadingDenotes(s);
    }
    if Denotes(s, v) {
      DenotedIsRead(s, v);
    }
  }

  predicate Unmarked(s: string) {
    forall i :: 0 <= i < |s| ==> !IsMark(s[i])
  }

  predicate NowhereIn(c: char, s: string) {
    forall i :: 0 <= i < |s| ==> s[i] != c
  }

  lemma Parts(a: string, mark: char, b: string)
    ensures var s := a + [mark] + b;
      |s| == |a| + 1 + |b| && s[..|a|] == a && s[|a|] == mark && s[|a| + 1..] == b
    ensures forall i :: 0 <= i < |a| ==> (a + [mark] + b)[i] == a[i]
    ensures forall i :: |a| < i < |a| + 1 + |b| ==> (a + [mark] + b)[i] == b[i - |a| - 1]
  {
  }

  lemma ReadingOfParts(a: string, mark: char, b: string)
    requires IsMark(mark) && Unmarked(b)
    ensures Reading(a + [mark] + b) == Joined(Without(a, Other(mark)), b)
  {
    Parts(a, mark, b);
    assert LastMark(a + [mark] + b) == |a|;
  }

  // ----- Printing -----

  // A signed numeral with its digits, its decimal mark, group marks and spaces put in at will, reads
  // back as the number it was printed from.
  lemma RoundTrip(text: string, whole: string, grouped: string, mark: char, fraction: string)
    requires IsMark(mark) && IsWhole(whole) && Unsigned(whole) != ""
    requires fraction != "" && AllDigits(fraction)
    requires Without(grouped, Other(mark)) == whole
    requires Unspaced(text) == grouped + [mark] + fraction
    ensures Reading(Unspaced(text)) == Some(Value(whole, fraction))
  {
    ReadingOfParts(grouped, mark, fraction);
  }

  // A lone group mark is indistinguishable from a decimal mark: such a text is read as a fraction.
  lemma LoneMarkIsDecimal(thousands: string, mark: char, rest: string)
    requires IsMark(mark) && IsWhole(thousands) && rest != "" && AllDigits(rest)
    ensures Reading(thousands + [mark] + rest) == Some(Value(thousands, rest))
  {
    NoMarkInWhole(thousands);
    ReadingOfParts(thousands, mark, rest);
  }

  // ----- Whole numbers with group marks -----

  // The mark occurs once, between a and the digits b.
  predicate LoneMark(s: string, mark: char, a: string, b: string) {
    s == a + [mark] + b && NowhereIn(mark, a) && b != "" && AllDigits(b)
  }

  // The mark occurs once, and digits and nothing but digits follow it.
  ghost predicate HasLoneMark(s: string, mark: char) {
    exists k :: 0 <= k < |s| && LoneMark(s, mark, s[..k], s[k + 1..])
  }

  lemma {:induction false} WithoutKeepsOthers(s: string, c: char, x: char)
    requires x in s && x != c
    ensures x in Without(s, c)
  {
    if s[0] == c || s[0] != x {
      WithoutKeepsOthers(s[1..], c, x);
    }
  }

  // Where only group marks are to be taken out, the other mark does not occur.
  lemma OnlyOneKind(s: string, mark: char)
    requires IsMark(mark) && IsWhole(Without(s, mark))
    ensures NowhereIn(Other(mark), s)
  {
    NoMarkInWhole(Without(s, mark));
    forall i | 0 <= i < |s|
      ensures s[i] != Other(mark)
    {
      if s[i] == Other(mark) {
        WithoutKeepsOthers(s, mark, Other(mark));
      }
    }
  }

  // The reading around the last group mark.
  lemma GroupedAround(a: string, mark: char, b: string)
    requires IsMark(mark) && NowhereIn(mark, b) && NowhereIn(Other(mark), a + [mark] + b)
    ensures Reading(a + [mark] + b) == Joined(a, b)
  {
    Parts(a, mark, b);
    assert forall i :: 0 <= i < |a| ==> a[i] == (a + [mark] + b)[i];
    assert forall i :: 0 <= i < |b| ==> b[i] == (a + [mark] + b)[|a| + 1 + i];
    assert Unmarked(b) && NowhereIn(Other(mark), a);
    ReadingOfParts(a, mark, b);
  }

  lemma WithoutAround(a: string, mark: char, b: string)
    requires NowhereIn(mark, a) && NowhereIn(mark, b)
    ensures Without(a + [mark] + b, mark) == a + b
  {
    WithoutJoins(a + [mark], b, mark);
    WithoutJoins(a, [mark], mark);
    assert Without([mark], mark) == "";
  }

  // A number with the decimal mark moved to the left of some digits is the same only if it is zero.
  lemma MovedMark(a: string, b: string)
    requires IsWhole(a) && b != "" && AllDigits(b)
    ensures IsWhole(a + b) && Unsigned(a + b) == Unsigned(a) + b
    ensures Value(a, b) == Value(a + b, "") <==> NatOf(Unsigned(a + b)) == 0
  {
    assert Unsigned(a + b) == Unsigned(a) + b;
    assert Unsigned(a + b) + "" == Unsigned(a + b);
    assert Unsigned(a + b) == a + b <==> Unsigned(a) == a;
    QuotientIsSame(NatOf(Unsigned(a) + b), Pow10(|b|));
    QuotientIsSame(NatOf(Unsigned(a) + b), Pow10(0));
  }

  lemma QuotientIsSame(n: nat, d: nat)
    requires d >= 1
    ensures n as real / d as real == n as real <==> n == 0 || d == 1
  {
    var q := n as real / d as real;
    assert q * d as real == n as real;
    if q == n as real && n > 0 {
      assert n as real * (d as real - 1.0) == 0.0;
    }
  }

  lemma LoneMarkReads(grouped: string, mark: char, a: string, b: string)
    requires IsMark(mark) && IsWhole(Without(grouped, mark)) && LoneMark(grouped, mark, a, b)
    ensures IsWhole(a) && Without(grouped, mark) == a + b && Reading(grouped) == Some(Value(a, b))
  {
    assert NowhereIn(mark, b);
    WithoutAround(a, mark, b);
    WholeBefore(a, b);
    OnlyOneKind(grouped, mark);
    GroupedAround(a, mark, b);
  }

  lemma WholeBefore(a: string, b: string)
    requires IsWhole(a + b) && AllDigits(b)
    ensures IsWhole(a)
  {
    var s := a + b;
    assert forall i :: 0 <= i < |a| ==> s[i] == a[i];
    if a != "" && a[0] == '-' {
      assert forall i :: 0 <= i < |a[1..]| ==> a[1..][i] == Unsigned(s)[i];
    } else if a != "" {
      assert Unsigned(s) == s;
    }
  }

  lemma AroundLast(s: string, mark: char) returns (a: string, b: string)
    requires mark in s
    ensures s == a + [mark] + b && NowhereIn(mark, b)
  {
    var k := LastIndexOf(s, mark);
    a, b := s[..k], s[k + 1..];
    assert forall i :: 0 <= i < |b| ==> b[i] == s[k + 1 + i];
  }

  // With group marks, a whole number is read only where a lone mark can be taken for the decimal mark.
  lemma OnlyLoneMarksRead(grouped: string, mark: char) returns (a: string, b: string)
    requires IsMark(mark) && IsWhole(Without(grouped, mark)) && mark in grouped
    ensures grouped == a + [mark] + b && (Reading(grouped).Some? ==> LoneMark(grouped, mark, a, b))
  {
    a, b := AroundLast(grouped, mark);
    OnlyOneKind(grouped, mark);
    GroupedAround(a, mark, b);
    if !NowhereIn(mark, a) {
      var i :| 0 <= i < |a| && a[i] == mark;
      MarkedIsNotWhole(a, i);
    }
  }

  lemma LoneMarkFound(s: string, mark: char, a: string, b: string)
    requires LoneMark(s, mark, a, b)
    ensures HasLoneMark(s, mark)
  {
    Parts(a, mark, b);
    assert LoneMark(s, mark, s[..|a|], s[|a| + 1..]);
  }

  // What becomes of a whole number printed with group marks of one kind: it is read at all exactly when
  // it has none, or a lone one that digits follow.
  lemma GroupedWholeReadsIff(whole: string, grouped: string, mark: char)
    requires IsMark(mark) && IsWhole(whole) && Unsigned(whole) != "" && Without(grouped, mark) == whole
    ensures Reading(grouped).Some? <==> mark !in grouped || HasLoneMark(grouped, mark)
  {
    if mark !in grouped {
      NoMarkInWhole(whole);
    } else {
      var a, b := OnlyLoneMarksRead(grouped, mark);
      if Reading(grouped).Some? {
        LoneMarkFound(grouped, mark, a, b);
      }
      if k :| 0 <= k < |grouped| && LoneMark(grouped, mark, grouped[..k], grouped[k + 1..]) {
        LoneMarkReads(grouped, mark, grouped[..k], grouped[k + 1..]);
      }
    }
  }

  lemma LoneMarkSame(grouped: string, mark: char, a: string, b: string)
    requires IsMark(mark) && IsWhole(Without(grouped, mark)) && LoneMark(grouped, mark, a, b)
    ensures Reading(grouped) == Some(Value(Without(grouped, mark), ""))
       <==> NatOf(Unsigned(Without(grouped, mark))) == 0
  {
    LoneMarkReads(grouped, mark, a, b);
    MovedMark(a, b);
  }

  // A whole number printed with group marks reads back as itself exactly when it has no mark after all,
  // or is zero and has a lone one that digits follow.
  lemma GroupedWholeRoundTrips(whole: string, grouped: string, mark: char)
    requires IsMark(mark) && IsWhole(whole) && Unsigned(whole) != "" && Without(grouped, mark) == whole
    ensures Reading(grouped) == Some(Value(whole, ""))
       <==> mark !in grouped || (NatOf(Unsigned(whole)) == 0 && HasLoneMark(grouped, mark))
  {
    if mark !in grouped {
      NoMarkInWhole(whole);
    } else {
      var a, b := OnlyLoneMarksRead(grouped, mark);
      if Reading(grouped).Some? {
        LoneMarkSame(grouped, mark, a, b);
        LoneMarkFound(grouped, mark, a, b);
      }
      if k :| 0 <= k < |grouped| && LoneMark(grouped, mark, grouped[..k], grouped[k + 1..]) {
        LoneMarkSame(grouped, mark, grouped[..k], grouped[k + 1..]);
      }
    }
  }

  // 1,234 is read as 1.234, not as 1234, and 1,234,567 not at all; 0,000 is unharmed.
  lemma GroupedExample()
    ensures Reading("1,234") == Some(Value("1", "234")) && Reading("1,234") != Some(Value("1234", ""))
  {
    var s := "1" + [','] + "234";
    assert s == "1,234" && "1" + "234" == "1234";
    LoneMarkIsDecimal("1", ',', "234");
    MovedMark("1", "234");
    NatOfJoins("1", "234");
    assert NatOf("1") == 1;
  }

  lemma TwoGroupsExample()
    ensures Reading("1,234,567") == None
  {
    var a, s := "1,234", "1,234" + [','] + "567";
    assert s == "1,234,567";
    assert a[1] == ',';
    MarkedIsNotWhole(a, 1);
    GroupedAround(a, ',', "567");
  }

  lemma ZeroExample()
    ensures Reading("0,000") == Some(Value("0000", ""))
  {
    var s := "0" + [','] + "000";
    assert s == "0,000" && "0" + "000" == "0000";
    LoneMarkIsDecimal("0", ',', "000");
    MovedMark("0", "000");
    assert NatOf("0") == 0 && NatOf("00") == 0 && NatOf("000") == 0 && NatOf("0000") == 0 by {
      assert "00"[..1] == "0" && "000"[..2] == "00" && "0000"[..3] == "000";
    }
  }

  // Digits must follow the mark: a sign behind it spoils even a zero.
  lemma SignBehindMark()
    ensures Without(",-0", ',') == "-0" && Reading(",-0") == None
  {
    var s := "" + [','] + "-0";
    assert s == ",-0";
    assert "-0"[0] == '-' && "-0"[1..] == "0";
    ReadingOfParts("", ',', "-0");
    WithoutAround("", ',', "-0");
  }

  lemma NoMarkInWhole(s: string)
    requires IsWhole(s)
    ensures ',' !in s && '.' !in s
  {
    forall k | 0 <= k < |s|
      ensures !IsMark(s[k])
    {
      if IsMark(s[k]) {
        MarkedIsNotWhole(s, k);
      }
    }
  }

  // ----- As the source computes it -----

  // A plain numeral: the pattern ^-?(\d+|\d*\.\d+)$ and the value that Number() gives it.
  function Plain(s: string): Option<real> {
    var k := IndexOf(s, '.');
    if k < 0 then WholeReading(s) else Joined(s[..k], s[k + 1..])
  }

  lemma FirstIs(a: string, c: char, b: string)
    requires NowhereIn(c, a)
    ensures IndexOf(a + [c] + b, c) == |a|
  {
    Parts(a, c, b);
  }

  lemma PlainOfParts(a: string, mark: char, b: string)
    requires IsMark(mark) && NowhereIn(mark, a) && NowhereIn(Other(mark), a)
    ensures Plain(ReplaceFirst(a + [mark] + b, mark, '.')) == Joined(a, b)
  {
    FirstIs(a, mark, b);
    Parts(a, mark, b);
    FirstIs(a, '.', b);
    Parts(a, '.', b);
  }

  lemma FirstMarkReplaced(a: string, mark: char, b: string)
    requires IsMark(mark) && NowhereIn(Other(mark), a) && Unmarked(b)
    ensures Plain(ReplaceFirst(a + [mark] + b, mark, '.')) == Joined(a, b)
  {
    if k: nat :| k < |a| && a[k] == mark && NowhereIn(mark, a[..k]) {
      var first, second := a[..k], a[k + 1..];
      assert a + [mark] + b == first + [mark] + (second + [mark] + b);
      PlainOfParts(first, mark, second + [mark] + b);
      Parts(second, mark, b);
      MarkedIsNotWhole(a, k);
    } else {
      var k := IndexOf(a, mark);
      PlainOfParts(a, mark, b);
    }
  }

  // Replacing the first decimal mark, once the group marks are gone, computes the reading, also
  // where the decimal mark occurs more than once and there is none.
  lemma LastMarkDecides(a: string, mark: char, b: string)
    requires IsMark(mark) && Unmarked(b)
    ensures Plain(ReplaceFirst(Without(a + [mark] + b, Other(mark)), mark, '.')) == Reading(a + [mark] + b)
  {
    var other := Other(mark);
    WithoutJoins(a + [mark], b, other);
    WithoutJoins(a, [mark], other);
    assert Without([mark], other) == [mark];
    assert Without(b, other) == b;
    FirstMarkReplaced(Without(a, other), mark, b);
    ReadingOfParts(a, mark, b);
  }

  lemma LastOfBoth(s: string)
    ensures var comma, dot, k := LastIndexOf(s, ','), LastIndexOf(s, '.'), LastMark(s);
      && k == (if comma > dot then comma else dot)
      && (k >= 0 ==> s[k] == if comma > dot then ',' else '.')
  {
  }

  lemma DotForDot(s: string)
    ensures ReplaceFirst(s, '.', '.') == s
  {
  }

  method ParseLocaleNumber(text: string) returns (number: Option<real>)
    ensures number == Reading(Unspaced(text))
  {
    var normalized := Unspaced(text);
    var comma, dot := LastIndexOf(normalized, ','), LastIndexOf(normalized, '.');
    LastOfBoth(normalized);
    if comma >= 0 || dot >= 0 {
      ghost var k := LastMark(normalized);
      assert normalized == normalized[..k] + [normalized[k]] + normalized[k + 1..];
      LastMarkDecides(normalized[..k], normalized[k], normalized[k + 1..]);
    }
    if comma >= 0 && dot >= 0 {
      var decimal := if comma > dot then ',' else '.';
      normalized := ReplaceFirst(Without(normalized, Other(decimal)), decimal, '.');
    } else if comma >= 0 {
      normalized := ReplaceFirst(normalized, ',', '.');
    } else {
      DotForDot(normalized);
    }
    number := Plain(normalized);
  }
}
