// Headers of a sheet made distinct, and the letters that name its columns.
module SheetHeaders {
  import opened Texts

  // ----- Column names -----

  function Letter(digit: nat): char
    requires 1 <= digit <= 26
  {
    (64 + digit) as char
  }

  predicate IsLetter(c: char) {
    'A' <= c <= 'Z'
  }

  predicate IsColumnName(s: string) {
    forall i :: 0 <= i < |s| ==> IsLetter(s[i])
  }

  function ColumnNameOf(n: nat): string {
    if n == 0 then "" else ColumnNameOf((n - 1) / 26) + [Letter((n - 1) % 26 + 1)]
  }

  // The number a column name stands for, with A = 1 to Z = 26 as digits.
  function ColumnNumber(name: string): nat
    requires IsColumnName(name)
  {
    if name == "" then 0
    else 26 * ColumnNumber(name[..|name| - 1]) + (name[|name| - 1] as int - 64)
  }

  method ColumnName(count: nat) returns (result: string)
    ensures result == ColumnNameOf(count)
  {
    result := "";
    var value := count;
    while value > 0
      invariant ColumnNameOf(count) == ColumnNameOf(value) + result
    {
      result := [(65 + (value - 1) % 26) as char] + result;
      value := (value - 1) / 26;
    }
  }

  lemma {:induction false} NumberOfName(n: nat)
    ensures IsColumnName(ColumnNameOf(n)) && ColumnNumber(ColumnNameOf(n)) == n
  {
    if n > 0 {
      NumberOfName((n - 1) / 26);
      var front, last := ColumnNameOf((n - 1) / 26), Letter((n - 1) % 26 + 1);
      assert (front + [last])[..|front|] == front;
    }
  }

  // Every sequence of letters names a column, and no other one names the same.
  lemma {:induction false} NameOfNumber(name: string)
    requires IsColumnName(name)
    ensures ColumnNameOf(ColumnNumber(name)) == name
  {
    if name != "" {
      var front, last := name[..|name| - 1], name[|name| - 1];
      NameOfNumber(front);
      var n, digit := ColumnNumber(name), last as int - 64;
      assert (n - 1) / 26 == ColumnNumber(front) && (n - 1) % 26 == digit - 1;
      assert name == front + [last];
    }
  }

  lemma NamesAreDistinct(m: nat, n: nat)
    requires ColumnNameOf(m) == ColumnNameOf(n)
    ensures m == n
  {
    NumberOfName(m);
    NumberOfName(n);
  }

  // ----- Normal forms -----

  function Lower(s: string): (r: string)
    ensures |r| == |s|
  {
    seq(|s|, i requires 0 <= i < |s| => if 'A' <= s[i] <= 'Z' then (s[i] as int + 32) as char else s[i])
  }

  // Every run of spaces as one.
  function Collapse(s: string): string {
    if s == "" then ""
    else if IsSpace(s[0]) && |s| > 1 && IsSpace(s[1]) then Collapse(s[1..])
    else [if IsSpace(s[0]) then ' ' else s[0]] + Collapse(s[1..])
  }

  function Normalize(s: string): string {
    Lower(Collapse(Trim(s)))
  }

  const SUFFIX: string := " [duplicate]"

  // A normal form that a label with one more suffix makes longer.
  ghost predicate Grows(normalize: string -> string) {
    forall title: string :: title != "" && title[|title| - 1] == ']' ==>
      |normalize(title + SUFFIX)| > |normalize(title)|
  }

  // ----- Labels -----

  function Candidate(header: string, i: nat, suffixes: nat): string {
    if suffixes == 0 then Trim(header) + " [" + ColumnNameOf(i + 1) + "]"
    else Candidate(header, i, suffixes - 1) + SUFFIX
  }

  // Some other header has the same normal form.
  ghost predicate Repeated(normalize: string -> string, headers: seq<string>, i: nat)
    requires i < |headers|
  {
    exists j: nat :: j < |headers| && j != i && normalize(headers[j]) == normalize(headers[i])
  }

  // The normal forms that are taken when the header at i gets its label.
  ghost function Taken(normalize: string -> string, headers: seq<string>, labels: seq<string>, i: nat): set<string>
    requires i <= |headers| && i <= |labels|
  {
    (set j: nat | j < |headers| :: normalize(headers[j]))
    + (set j: nat | j < i && Repeated(normalize, headers, j) :: normalize(labels[j]))
  }

  // A repeated header gets its column's name and as few suffixes as make it new.
  ghost predicate FirstFree(normalize: string -> string, taken: set<string>, header: string, i: nat, title: string) {
    && normalize(title) !in taken
    && exists k: nat :: title == Candidate(header, i, k)
                        && forall m: nat :: m < k ==> normalize(Candidate(header, i, m)) in taken
  }

  ghost predicate Labelled(normalize: string -> string, headers: seq<string>, labels: seq<string>, i: nat)
    requires i < |headers| && i < |labels|
  {
    if Repeated(normalize, headers, i)
    then FirstFree(normalize, Taken(normalize, headers, labels, i), headers[i], i, labels[i])
    else labels[i] == headers[i]
  }

  ghost predicate AllLabelled(normalize: string -> string, headers: seq<string>, labels: seq<string>) {
    && |labels| == |headers|
    && forall i: nat :: i < |headers| ==> Labelled(normalize, headers, labels, i)
  }

  // The labels have pairwise distinct normal forms.
  lemma LabelsAreDistinct(normalize: string -> string, headers: seq<string>, labels: seq<string>, i: nat, j: nat)
    requires AllLabelled(normalize, headers, labels) && i < j < |headers|
    ensures normalize(labels[i]) != normalize(labels[j])
  {
    assert Labelled(normalize, headers, labels, i) && Labelled(normalize, headers, labels, j);
    assert normalize(headers[i]) in Taken(normalize, headers, labels, j);
    assert normalize(headers[j]) in Taken(normalize, headers, labels, i);
  }

  // No label given to a repeated header looks like any header of the sheet.
  lemma LabelsAreNew(normalize: string -> string, headers: seq<string>, labels: seq<string>, i: nat, j: nat)
    requires AllLabelled(normalize, headers, labels) && i < |headers| && j < |headers|
    ensures Repeated(normalize, headers, i) ==> normalize(labels[i]) != normalize(headers[j])
  {
    assert Labelled(normalize, headers, labels, i);
    assert normalize(headers[j]) in Taken(normalize, headers, labels, i);
  }

  // The labels are determined by the headers.
  lemma {:induction false} LabelsAreDetermined(normalize: string -> string, headers: seq<string>, a: seq<string>, b: seq<string>, i: nat)
    requires AllLabelled(normalize, headers, a) && AllLabelled(normalize, headers, b) && i <= |headers|
    ensures a[..i] == b[..i]
  {
    if i > 0 {
      LabelsAreDetermined(normalize, headers, a, b, i - 1);
      assert forall j :: 0 <= j < i - 1 ==> a[j] == a[..i - 1][j] && b[j] == b[..i - 1][j];
      assert Labelled(normalize, headers, a, i - 1) && Labelled(normalize, headers, b, i - 1);
      assert Taken(normalize, headers, a, i - 1) == Taken(normalize, headers, b, i - 1);
      assert a[i - 1] == b[i - 1];
    }
  }

  // ----- The normal form of the model grows -----

  predicate EndsInText(s: string) {
    s != "" && !IsSpace(s[|s| - 1])
  }

  lemma {:induction false} TrimStartAppends(s: string, t: string)
    requires EndsInText(s)
    ensures TrimStart(s + t) == TrimStart(s) + t && EndsInText(TrimStart(s))
  {
    assert (s + t)[0] == s[0];
    if IsSpace(s[0]) {
      assert (s + t)[1..] == s[1..] + t;
      TrimStartAppends(s[1..], t);
    }
  }

  lemma {:induction false} CollapseJoins(s: string, t: string)
    requires s == "" || EndsInText(s)
    ensures Collapse(s + t) == Collapse(s) + Collapse(t)
  {
    if s == "" {
      assert s + t == t;
    } else {
      assert (s + t)[1..] == s[1..] + t;
      if |s| > 1 {
        assert (s + t)[1] == s[1];
      }
      CollapseJoins(s[1..], t);
    }
  }

  lemma NormalizeGrows()
    ensures Grows(Normalize)
  {
    forall title: string | title != "" && title[|title| - 1] == ']'
      ensures |Normalize(title + SUFFIX)| > |Normalize(title)|
    {
      TrimStartAppends(title, SUFFIX);
      TrimStartAppends(title, "");
      var start := TrimStart(title);
      assert TrimEnd(start) == start;
      assert TrimEnd(start + SUFFIX) == start + SUFFIX;
      CollapseJoins(start, SUFFIX);
      assert Collapse(SUFFIX) != "";
    }
  }

  // ----- As the source computes it -----

  ghost function Positions(forms: seq<string>, n: nat, form: string): set<nat>
    requires n <= |forms|
  {
    set i: nat | i < n && forms[i] == form
  }

  ghost predicate Counted(forms: seq<string>, n: nat, counts: map<string, nat>)
    requires n <= |forms|
  {
    && (forall form :: form in counts ==> counts[form] == |Positions(forms, n, form)|)
    && (forall form: string :: form !in counts ==> Positions(forms, n, form) == {})
  }

  function CountOf(counts: map<string, nat>, form: string): nat {
    if form in counts then counts[form] else 0
  }

  lemma CountedGrows(forms: seq<string>, n: nat, counts: map<string, nat>)
    requires n < |forms| && Counted(forms, n, counts)
    ensures Counted(forms, n + 1, counts[forms[n] := CountOf(counts, forms[n]) + 1])
  {
    var more := counts[forms[n] := CountOf(counts, forms[n]) + 1];
    forall form: string
      ensures CountOf(more, form) == |Positions(forms, n + 1, form)|
      ensures form !in more ==> Positions(forms, n + 1, form) == {}
    {
      PositionsGrow(forms, n, form);
    }
    assert forall form :: form in more ==> CountOf(more, form) == more[form];
  }

  lemma PositionsGrow(forms: seq<string>, n: nat, form: string)
    requires n < |forms|
    ensures Positions(forms, n + 1, form) == Positions(forms, n, form) + if forms[n] == form then {n} else {}
    ensures |Positions(forms, n + 1, form)| == |Positions(forms, n, form)| + if forms[n] == form then 1 else 0
  {
    assert Positions(forms, n + 1, form) == Positions(forms, n, form) + if forms[n] == form then {n} else {};
  }

  lemma CountIsOne(forms: seq<string>, i: nat)
    requires i < |forms|
    ensures |Positions(forms, |forms|, forms[i])| == 1
       <==> forall j: nat :: j < |forms| && j != i ==> forms[j] != forms[i]
  {
    var positions := Positions(forms, |forms|, forms[i]);
    assert i in positions;
    assert |positions - {i}| == |positions| - 1;
    if j: nat :| j < |forms| && j != i && forms[j] == forms[i] {
      assert j in positions - {i};
    } else {
      assert positions - {i} == {};
    }
  }

  function SetOf(forms: seq<string>): set<string> {
    set i: nat | i < |forms| :: forms[i]
  }

  // As many different forms as forms means that none is repeated.
  lemma {:induction false} AllDifferent(forms: seq<string>)
    ensures |SetOf(forms)| <= |forms|
    ensures |SetOf(forms)| == |forms| ==> forall i, j :: 0 <= i < j < |forms| ==> forms[i] != forms[j]
  {
    if forms != [] {
      var n := |forms| - 1;
      AllDifferent(forms[..n]);
      assert forall i: nat :: i < n ==> forms[..n][i] == forms[i];
      assert SetOf(forms) == SetOf(forms[..n]) + {forms[n]};
      if forms[n] !in SetOf(forms[..n]) {
        assert forall i :: 0 <= i < n ==> forms[..n][i] in SetOf(forms[..n]);
      }
    }
  }

  lemma CandidateEnds(header: string, i: nat, suffixes: nat)
    ensures var c := Candidate(header, i, suffixes); c != "" && c[|c| - 1] == ']'
  {
  }

  ghost function AtLeastAsLong(taken: set<string>, n: nat): set<string> {
    set s | s in taken && |s| >= n
  }

  // The first free label; the search ends because the labels get longer and the taken forms are finitely many.
  method FreeLabel(normalize: string -> string, reserved: set<string>, header: string, i: nat) returns (title: string)
    requires Grows(normalize)
    ensures FirstFree(normalize, reserved, header, i, title)
  {
    var column := ColumnName(i + 1);
    title := Trim(header) + " [" + column + "]";
    ghost var k: nat := 0;
    while normalize(title) in reserved
      invariant title == Candidate(header, i, k)
      invariant forall m: nat :: m < k ==> normalize(Candidate(header, i, m)) in reserved
      decreases |AtLeastAsLong(reserved, |normalize(title)|)|
    {
      CandidateEnds(header, i, k);
      ghost var was := title;
      title := title + SUFFIX;
      k := k + 1;
      Fewer(reserved, normalize(was), |normalize(title)|);
    }
  }

  lemma Fewer(reserved: set<string>, form: string, n: nat)
    requires form in reserved && n > |form|
    ensures |AtLeastAsLong(reserved, n)| < |AtLeastAsLong(reserved, |form|)|
  {
    var few, more := AtLeastAsLong(reserved, n), AtLeastAsLong(reserved, |form|);
    assert form in more && form !in few;
    SmallerSet(few, more);
  }

  lemma SmallerSet(a: set<string>, b: set<string>)
    requires a < b
    ensures |a| < |b|
  {
    assert b == a + (b - a);
  }

  function Forms(normalize: string -> string, headers: seq<string>): (forms: seq<string>)
    ensures |forms| == |headers|
  {
    seq(|headers|, i requires 0 <= i < |headers| => normalize(headers[i]))
  }

  lemma CountedOnceIff(normalize: string -> string, headers: seq<string>, counts: map<string, nat>, i: nat)
    requires i < |headers| && Counted(Forms(normalize, headers), |headers|, counts)
    ensures normalize(headers[i]) in counts
    ensures counts[normalize(headers[i])] == 1 <==> !Repeated(normalize, headers, i)
  {
    var forms := Forms(normalize, headers);
    CountIsOne(forms, i);
    assert i in Positions(forms, |forms|, forms[i]);
    if Repeated(normalize, headers, i) {
      var j: nat :| j < |headers| && j != i && normalize(headers[j]) == normalize(headers[i]);
      assert forms[j] == forms[i];
    }
  }

  lemma NothingLabelled(normalize: string -> string, headers: seq<string>)
    ensures SetOf(Forms(normalize, headers)) == Taken(normalize, headers, [], 0)
  {
    var forms := Forms(normalize, headers);
    forall form: string
      ensures form in SetOf(forms) <==> form in Taken(normalize, headers, [], 0)
    {
      if form in SetOf(forms) {
        var i: nat :| i < |forms| && forms[i] == form;
        assert normalize(headers[i]) == form;
      }
      if form in Taken(normalize, headers, [], 0) {
        var j: nat :| j < |headers| && normalize(headers[j]) == form;
        assert forms[j] == form;
      }
    }
  }

  lemma DistinctAreLabelled(normalize: string -> string, headers: seq<string>)
    requires |SetOf(Forms(normalize, headers))| == |headers|
    ensures AllLabelled(normalize, headers, headers)
  {
    var forms := Forms(normalize, headers);
    AllDifferent(forms);
    forall i: nat, j: nat | i < |headers| && j < |headers| && i != j
      ensures normalize(headers[i]) != normalize(headers[j])
    {
      assert forms[i] == normalize(headers[i]) && forms[j] == normalize(headers[j]);
    }
  }

  method CountForms(forms: seq<string>) returns (counts: map<string, nat>)
    ensures Counted(forms, |forms|, counts)
  {
    counts := map[];
    for i := 0 to |forms|
      invariant Counted(forms, i, counts)
    {
      CountedGrows(forms, i, counts);
      counts := counts[forms[i] := CountOf(counts, forms[i]) + 1];
    }
  }

  method LabelOne(
    normalize: string -> string, headers: seq<string>, counts: map<string, nat>, reserved: set<string>, i: nat)
      returns (title: string, taken: set<string>)
    requires Grows(normalize) && i < |headers| && Counted(Forms(normalize, headers), |headers|, counts)
    ensures Fits(normalize, headers, reserved, i, title)
    ensures taken == reserved + NewForms(normalize, headers, i, title)
  {
    CountedOnceIff(normalize, headers, counts, i);
    if counts[normalize(headers[i])] == 1 {
      return headers[i], reserved;
    }
    title := FreeLabel(normalize, reserved, headers[i], i);
    taken := reserved + {normalize(title)};
  }

  method LabelRepeated(normalize: string -> string, headers: seq<string>) returns (labels: seq<string>)
    requires Grows(normalize)
    ensures AllLabelled(normalize, headers, labels)
  {
    var forms := Forms(normalize, headers);
    var reserved := SetOf(forms);
    var counts := CountForms(forms);
    labels := [];
    NothingLabelled(normalize, headers);
    for i := 0 to |headers|
      invariant |labels| == i && reserved == Taken(normalize, headers, labels, i)
      invariant FirstLabelled(normalize, headers, labels)
    {
      var title, taken := LabelOne(normalize, headers, counts, reserved, i);
      OneMoreLabelled(normalize, headers, labels, title);
      labels, reserved := labels + [title], taken;
    }
  }

  method Disambiguate(normalize: string -> string, headers: seq<string>) returns (labels: seq<string>)
    requires Grows(normalize)
    ensures AllLabelled(normalize, headers, labels)
  {
    var forms := Forms(normalize, headers);
    if |SetOf(forms)| != |forms| {
      labels := LabelRepeated(normalize, headers);
    } else {
      DistinctAreLabelled(normalize, headers);
      labels := headers;
    }
  }

  ghost predicate Fits(normalize: string -> string, headers: seq<string>, taken: set<string>, i: nat, title: string)
    requires i < |headers|
  {
    if Repeated(normalize, headers, i) then FirstFree(normalize, taken, headers[i], i, title) else title == headers[i]
  }

  ghost function NewForms(normalize: string -> string, headers: seq<string>, i: nat, title: string): set<string>
    requires i < |headers|
  {
    if Repeated(normalize, headers, i) then {normalize(title)} else {}
  }

  ghost predicate FirstLabelled(normalize: string -> string, headers: seq<string>, labels: seq<string>) {
    |labels| <= |headers| && forall k: nat :: k < |labels| ==> Labelled(normalize, headers, labels, k)
  }

  // Labels given do not change what earlier ones had to avoid.
  lemma TakenStays(normalize: string -> string, headers: seq<string>, labels: seq<string>, title: string, k: nat)
    requires k <= |labels| < |headers|
    ensures Taken(normalize, headers, labels + [title], k) == Taken(normalize, headers, labels, k)
  {
  }

  lemma OneMoreLabelled(normalize: string -> string, headers: seq<string>, labels: seq<string>, title: string)
    requires FirstLabelled(normalize, headers, labels) && |labels| < |headers|
    requires Fits(normalize, headers, Taken(normalize, headers, labels, |labels|), |labels|, title)
    ensures FirstLabelled(normalize, headers, labels + [title])
    ensures Taken(normalize, headers, labels + [title], |labels| + 1)
         == Taken(normalize, headers, labels, |labels|) + NewForms(normalize, headers, |labels|, title)
  {
    var i, more := |labels|, labels + [title];
    forall k: nat | k <= i
      ensures Labelled(normalize, headers, more, k)
    {
      TakenStays(normalize, headers, labels, title, k);
      assert k < i ==> Labelled(normalize, headers, labels, k);
    }
    TakenStays(normalize, headers, labels, title, i);
    assert Taken(normalize, headers, more, i + 1)
        == Taken(normalize, headers, more, i) + NewForms(normalize, headers, i, title);
  }
}
