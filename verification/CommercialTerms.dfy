// What an order costs: line totals, their sum, and what keeps an order from having a price.
module CommercialTerms {
  import opened Options
  import opened Texts
  import opened Money
  import opened SeqSums

  // A line with its exact unit price; the source's decimals are modelled as real numbers.
  datatype Line = Line(item: nat, quantity: int, unitPrice: Option<real>, currency: Option<string>)

  datatype PricedLine = PricedLine(line: Line, currency: Option<string>, total: Option<int>)

  datatype Issue = PriceMissing | CurrencyMissing | MixedCurrencies

  // Totals are whole cents.
  datatype Terms = Terms(ready: bool, currency: Option<string>, total: Option<int>, issues: seq<Issue>, lines: seq<PricedLine>)

  predicate IsCode(s: string) {
    |s| == 3 && forall i :: 0 <= i < 3 ==> 'A' <= s[i] <= 'Z'
  }

  function NormalCurrency(upper: string -> string, c: Option<string>): Option<string> {
    var code := upper(Trim(c.GetOr("")));
    if IsCode(code) then Some(code) else None
  }

  // The exact value of a line, and its total in cents.
  function Exact(l: Line): real {
    if l.unitPrice.Some? then l.unitPrice.value * l.quantity as real else 0.0
  }

  function LineTotal(l: Line): Option<int> {
    if l.unitPrice.Some? then Some(Cents(Exact(l))) else None
  }

  function LineCents(l: Line): int {
    LineTotal(l).GetOr(0)
  }

  function Priced(upper: string -> string, l: Line): PricedLine {
    PricedLine(l, NormalCurrency(upper, l.currency), LineTotal(l))
  }

  // ----- The meaning of the issues -----

  ghost predicate HasIssue(upper: string -> string, lines: seq<Line>, issue: Issue) {
    match issue
    case PriceMissing => exists l :: l in lines && l.unitPrice.None?
    case CurrencyMissing => exists l :: l in lines && NormalCurrency(upper, l.currency).None?
    case MixedCurrencies =>
      exists k, l :: k in lines && l in lines
                     && NormalCurrency(upper, k.currency).Some? && NormalCurrency(upper, l.currency).Some?
                     && NormalCurrency(upper, k.currency) != NormalCurrency(upper, l.currency)
  }

  // Issues are listed in a fixed order.
  ghost predicate IssuesAre(upper: string -> string, lines: seq<Line>, issues: seq<Issue>) {
    issues == (if HasIssue(upper, lines, PriceMissing) then [PriceMissing] else [])
              + (if HasIssue(upper, lines, CurrencyMissing) then [CurrencyMissing] else [])
              + (if HasIssue(upper, lines, MixedCurrencies) then [MixedCurrencies] else [])
  }

  // A currency of the lines, if they have one.
  ghost predicate CurrencyIs(upper: string -> string, lines: seq<Line>, currency: Option<string>) {
    if lines == [] then currency == None
    else forall l :: l in lines ==> NormalCurrency(upper, l.currency) == currency
  }

  function SumOfLines(lines: seq<Line>): int {
    SumBy(lines, l => LineCents(l))
  }

  // What the terms of an order are.
  ghost predicate TermsAre(upper: string -> string, lines: seq<Line>, t: Terms) {
    && IssuesAre(upper, lines, t.issues)
    && t.ready == (t.issues == [])
    && t.lines == seq(|lines|, i requires 0 <= i < |lines| => Priced(upper, lines[i]))
    && if t.ready then CurrencyIs(upper, lines, t.currency) && t.total == Some(SumOfLines(lines))
       else t.currency == None && t.total == None
  }

  // ----- As the source computes it -----

  ghost function CurrenciesOf(upper: string -> string, lines: seq<Line>): set<string> {
    set l | l in lines && NormalCurrency(upper, l.currency).Some? :: NormalCurrency(upper, l.currency).value
  }

  lemma MixedIffTwo(upper: string -> string, lines: seq<Line>)
    ensures |CurrenciesOf(upper, lines)| > 1 <==> HasIssue(upper, lines, MixedCurrencies)
  {
    var codes := CurrenciesOf(upper, lines);
    if HasIssue(upper, lines, MixedCurrencies) {
      var k, l :| k in lines && l in lines
                  && NormalCurrency(upper, k.currency).Some? && NormalCurrency(upper, l.currency).Some?
                  && NormalCurrency(upper, k.currency) != NormalCurrency(upper, l.currency);
      var a, b := NormalCurrency(upper, k.currency).value, NormalCurrency(upper, l.currency).value;
      assert {a, b} <= codes;
      Within({a, b}, codes);
    } else if codes != {} {
      var code :| code in codes;
      assert codes == {code};
    }
  }

  lemma Within(a: set<string>, b: set<string>)
    requires a <= b
    ensures |a| <= |b|
  {
    assert b == a + (b - a);
  }

  lemma OnlyCurrency(upper: string -> string, lines: seq<Line>, code: string)
    requires !HasIssue(upper, lines, CurrencyMissing) && !HasIssue(upper, lines, MixedCurrencies)
    requires code in CurrenciesOf(upper, lines)
    ensures CurrencyIs(upper, lines, Some(code))
  {
    var k :| k in lines && NormalCurrency(upper, k.currency) == Some(code);
    forall l | l in lines
      ensures NormalCurrency(upper, l.currency) == Some(code)
    {
      assert NormalCurrency(upper, l.currency).Some?;
    }
  }

  lemma SomeCurrency(upper: string -> string, lines: seq<Line>)
    requires !HasIssue(upper, lines, CurrencyMissing) && lines != []
    ensures CurrenciesOf(upper, lines) != {}
  {
    assert lines[0] in lines;
    assert NormalCurrency(upper, lines[0].currency).value in CurrenciesOf(upper, lines);
  }

  lemma OneMoreLine(upper: string -> string, lines: seq<Line>, line: Line)
    ensures HasIssue(upper, lines + [line], PriceMissing)
       <==> HasIssue(upper, lines, PriceMissing) || line.unitPrice.None?
    ensures HasIssue(upper, lines + [line], CurrencyMissing)
       <==> HasIssue(upper, lines, CurrencyMissing) || NormalCurrency(upper, line.currency).None?
    ensures CurrenciesOf(upper, lines + [line])
         == CurrenciesOf(upper, lines)
            + var c := NormalCurrency(upper, line.currency); if c.Some? then {c.value} else {}
  {
    assert forall l :: l in lines + [line] <==> l in lines || l == line;
  }

  method PriceLines(upper: string -> string, lines: seq<Line>)
      returns (priced: seq<PricedLine>, issues: set<Issue>, currencies: set<string>)
    ensures priced == seq(|lines|, i requires 0 <= i < |lines| => Priced(upper, lines[i]))
    ensures currencies == CurrenciesOf(upper, lines)
    ensures PriceMissing in issues <==> HasIssue(upper, lines, PriceMissing)
    ensures CurrencyMissing in issues <==> HasIssue(upper, lines, CurrencyMissing)
    ensures MixedCurrencies !in issues
  {
    priced, issues, currencies := [], {}, {};
    for i := 0 to |lines|
      invariant |priced| == i && forall k :: 0 <= k < i ==> priced[k] == Priced(upper, lines[k])
      invariant currencies == CurrenciesOf(upper, lines[..i])
      invariant PriceMissing in issues <==> HasIssue(upper, lines[..i], PriceMissing)
      invariant CurrencyMissing in issues <==> HasIssue(upper, lines[..i], CurrencyMissing)
      invariant MixedCurrencies !in issues
    {
      var line := lines[i];
      assert lines[..i + 1] == lines[..i] + [line];
      OneMoreLine(upper, lines[..i], line);
      var currency := NormalCurrency(upper, line.currency);
      if line.unitPrice.None? {
        issues := issues + {PriceMissing};
      }
      if currency.None? {
        issues := issues + {CurrencyMissing};
      }
      if currency.Some? {
        currencies := currencies + {currency.value};
      }
      priced := priced + [PricedLine(line, currency, LineTotal(line))];
    }
    assert lines[..|lines|] == lines;
  }

  method Subtotal(upper: string -> string, lines: seq<Line>, priced: seq<PricedLine>) returns (subtotal: int)
    requires priced == seq(|lines|, i requires 0 <= i < |lines| => Priced(upper, lines[i]))
    ensures subtotal == SumOfLines(lines)
  {
    subtotal := 0;
    for i := 0 to |priced|
      invariant subtotal == SumOfLines(lines[..i])
    {
      assert lines[..i + 1] == lines[..i] + [lines[i]];
      SumByAppends(lines[..i], lines[i], l => LineCents(l));
      subtotal := subtotal + priced[i].total.GetOr(0);
    }
    assert lines[..|lines|] == lines;
  }

  method CalculateCommercialTerms(upper: string -> string, lines: seq<Line>) returns (terms: Terms)
    ensures TermsAre(upper, lines, terms)
  {
    var priced, issues, currencies := PriceLines(upper, lines);
    MixedIffTwo(upper, lines);
    if |currencies| > 1 {
      issues := issues + {MixedCurrencies};
    }
    var issueCodes := OrderedIssues(issues);
    assert IssuesAre(upper, lines, issueCodes);
    if issueCodes != [] {
      return Terms(false, None, None, issueCodes, priced);
    }
    var subtotal := Subtotal(upper, lines, priced);
    var currency := None;
    if currencies != {} {
      var code :| code in currencies;
      OnlyCurrency(upper, lines, code);
      currency := Some(code);
    }
    if lines != [] {
      SomeCurrency(upper, lines);
    }
    terms := Terms(true, currency, Some(subtotal), [], priced);
  }

  function OrderedIssues(issues: set<Issue>): seq<Issue> {
    (if PriceMissing in issues then [PriceMissing] else [])
    + (if CurrencyMissing in issues then [CurrencyMissing] else [])
    + (if MixedCurrencies in issues then [MixedCurrencies] else [])
  }

  // ----- What the terms promise -----

  // An order has a price exactly when every line has a price and a currency, and they are all the same.
  lemma ReadyIff(upper: string -> string, lines: seq<Line>, t: Terms)
    requires TermsAre(upper, lines, t)
    ensures t.ready <==>
      && (forall l :: l in lines ==> l.unitPrice.Some? && NormalCurrency(upper, l.currency).Some?)
      && (forall k, l :: k in lines && l in lines ==>
            NormalCurrency(upper, k.currency) == NormalCurrency(upper, l.currency))
    ensures t.ready && lines != [] ==> t.currency.Some? && IsCode(t.currency.value)
  {
    if t.ready && lines != [] {
      assert lines[0] in lines;
    }
  }

  // An order without lines has a price, of nothing, and no currency.
  lemma EmptyOrderIsReady(upper: string -> string, t: Terms)
    requires TermsAre(upper, [], t)
    ensures t.ready && t.currency == None && t.total == Some(0)
  {
  }

  function ExactSum(lines: seq<Line>): real {
    if lines == [] then 0.0 else ExactSum(lines[..|lines| - 1]) + Exact(lines[|lines| - 1])
  }

  // The total is off by at most half a cent for each line.
  lemma {:induction false} TotalIsNear(lines: seq<Line>)
    requires forall l :: l in lines ==> l.unitPrice.Some?
    ensures var off := SumOfLines(lines) as real - 100.0 * ExactSum(lines);
      -(|lines| as real) / 2.0 <= off <= |lines| as real / 2.0
  {
    if lines != [] {
      var last := lines[|lines| - 1];
      TotalIsNear(lines[..|lines| - 1]);
      CentsAreNearest(Exact(last));
    }
  }

  predicate IsWholeCents(amount: real) {
    (100.0 * amount).Floor as real == 100.0 * amount
  }

  // With prices in whole cents nothing is rounded.
  lemma {:induction false} WholeCentsAreExact(lines: seq<Line>)
    requires forall l :: l in lines ==> l.unitPrice.Some? && IsWholeCents(Exact(l))
    ensures SumOfLines(lines) as real == 100.0 * ExactSum(lines)
  {
    if lines != [] {
      var last := lines[|lines| - 1];
      WholeCentsAreExact(lines[..|lines| - 1]);
      assert last in lines;
      CentsOfCents((100.0 * Exact(last)).Floor);
    }
  }

  // The order of the lines changes neither total, nor currency, nor issues.
  lemma TermsIgnoreOrder(upper: string -> string, a: seq<Line>, b: seq<Line>, s: Terms, t: Terms)
    requires multiset(a) == multiset(b) && TermsAre(upper, a, s) && TermsAre(upper, b, t)
    ensures s.ready == t.ready && s.total == t.total && s.currency == t.currency && s.issues == t.issues
  {
    forall l: Line
      ensures l in a <==> l in b
    {
      assert l in a <==> l in multiset(a);
      assert l in b <==> l in multiset(b);
    }
    SumByPermutes(a, b, l => LineCents(l));
    assert |a| == |multiset(a)| == |multiset(b)| == |b|;
    forall issue: Issue
      ensures HasIssue(upper, a, issue) <==> HasIssue(upper, b, issue)
    {
    }
    if a != [] {
      assert a[0] in a && a[0] in b;
    }
  }
}
