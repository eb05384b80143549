// One row of a catalogue table: from its cells to a product.
module CatalogueRows {
  import opened Options
  import opened Texts
  import opened Tables
  import LocaleNumbers

  datatype Target =
    | Sku | Name | Description | Price | Currency | StockQuantity | Category | Brand | Aliases
    | Color | Size | ImageUrls | Active | Attributes | Ignore

  // The targets that end up in a product's fields, in the order in which the source reads them.
  const FIELDS: seq<Target> := [
    Description, Category, Brand, Color, Size, Currency, Price, StockQuantity, Aliases, ImageUrls, Active, Attributes
  ]

  predicate IsField(t: Target) {
    t != Sku && t != Name && t != Ignore
  }

  // A cell; a number comes with its printed form, and without a value when it is not finite.
  datatype Cell = Missing | Null | Text(text: string) | Number(printed: string, number: Option<real>) | Flag(on: bool)

  datatype Value = Empty | Str(text: string) | Num(number: real) | Strs(items: seq<string>) | Obj(json: string) | Bool(on: bool)

  datatype Code =
    | EmptyRow | CategoryRow | NameRequired | PriceInvalid | StockInvalid | ImageUrlsInvalid
    | ActiveInvalid | AttributesInvalid | SkuDuplicate

  datatype Column = Column(source: string, target: Target)

  type Id = nat

  // What the source leaves to the platform: case conversion, header normalization, hashing, parsing
  // of JSON objects and of URLs.
  datatype Library = Library(
    upper: string -> string, lower: string -> string, header: string -> string,
    autoSku: (Id, string, Option<string>) -> string,
    parseObject: string -> Option<string>, isHttpUrl: string -> bool)
  {
    ghost predicate Sane() {
      && (forall s: string :: s != "" ==> upper(s) != "")
      && (forall id: Id, s: string, d: Option<string> :: autoSku(id, s, d) != "")
    }
  }

  datatype Product = Product(sku: string, name: string, fields: map<Target, Value>)

  // Problems are reported as codes; every code but the two for skipped rows stands for an error.
  datatype Row = Row(number: nat, product: Option<Product>, codes: seq<Code>, present: set<Target>)

  predicate IsError(c: Code) {
    c != EmptyRow && c != CategoryRow
  }

  // ----- Reading one cell -----

  function Printed(c: Cell): string {
    match c
    case Missing => ""
    case Null => ""
    case Text(t) => t
    case Number(t, _) => t
    case Flag(on) => if on then "true" else "false"
  }

  function TextOf(c: Cell): Option<string> {
    var t := Trim(Printed(c));
    if t == "" then None else Some(t)
  }

  predicate NonEmpty(c: Cell) {
    TextOf(c).Some?
  }

  function NumberOf(c: Cell): Option<real> {
    match c
    case Number(_, v) => v
    case _ => if NonEmpty(c) then LocaleNumbers.Reading(Unspaced(TextOf(c).value)) else None
  }

  predicate IsInteger(r: real) {
    r == r.Floor as real
  }

  predicate IsSeparator(c: char) {
    c == ';' || c == ',' || c == '|' || c == '\n'
  }

  // The text between separators, trimmed, without what is empty and without repetitions.
  function SplitList(s: string, item: string): seq<string> {
    if s == "" then Kept(item, [])
    else if IsSeparator(s[0]) then Kept(item, SplitList(s[1..], ""))
    else SplitList(s[1..], item + [s[0]])
  }

  // An item in front of later ones: of equal items the first one is kept.
  function Kept(item: string, later: seq<string>): seq<string> {
    var t := Trim(item);
    if t == "" then later else [t] + Dropped(later, t)
  }

  function Dropped(items: seq<string>, t: string): seq<string> {
    if items == [] then []
    else if items[0] == t then Dropped(items[1..], t)
    else [items[0]] + Dropped(items[1..], t)
  }

  function FlagOf(lib: Library, c: Cell): Option<bool> {
    match c
    case Flag(on) => Some(on)
    case _ =>
      var t := lib.lower(TextOf(c).GetOr(""));
      if t in ["true", "1", "yes"] then Some(true)
      else if t in ["false", "0", "no"] then Some(false)
      else None
  }

  datatype Reading = Absent | Bad(code: Code) | Good(value: Value)

  function Checked(value: Option<Value>, code: Code): Reading {
    if value.Some? then Good(value.value) else Bad(code)
  }

  function ReadPrice(c: Cell): Option<Value> {
    var n := NumberOf(c);
    if n.None? || n.value < 0.0 then None else Some(Num(n.value))
  }

  function ReadStock(c: Cell): Option<Value> {
    var n := NumberOf(c);
    if n.None? || !IsInteger(n.value) then None else Some(Num(n.value))
  }

  function ReadUrls(lib: Library, text: string): Option<Value> {
    var urls := SplitList(text, "");
    if exists i :: 0 <= i < |urls| && !lib.isHttpUrl(urls[i]) then None else Some(Strs(urls))
  }

  function ReadFlag(lib: Library, c: Cell): Option<Value> {
    var on := FlagOf(lib, c);
    if on.None? then None else Some(Bool(on.value))
  }

  function ReadObject(lib: Library, text: string): Option<Value> {
    var json := lib.parseObject(text);
    if json.None? then None else Some(Obj(json.value))
  }

  function ReadCell(lib: Library, t: Target, c: Cell): Reading {
    if !NonEmpty(c) then Absent else
      match t
      case Currency => Good(Str(lib.upper(TextOf(c).value)))
      case Price => Checked(ReadPrice(c), PriceInvalid)
      case StockQuantity => Checked(ReadStock(c), StockInvalid)
      case Aliases => Good(Strs(SplitList(TextOf(c).value, "")))
      case ImageUrls => Checked(ReadUrls(lib, TextOf(c).value), ImageUrlsInvalid)
      case Active => Checked(ReadFlag(lib, c), ActiveInvalid)
      case Attributes => Checked(ReadObject(lib, TextOf(c).value), AttributesInvalid)
      case _ => Good(Str(TextOf(c).value))
  }

  // ----- The cells of a row -----

  function CellAt(values: seq<Cell>, indexes: map<string, nat>, source: string): Cell {
    if source in indexes && indexes[source] < |values| then values[indexes[source]] else Missing
  }

  // Of several columns for one target the last one counts.
  function Mapped(values: seq<Cell>, indexes: map<string, nat>, mapping: seq<Column>): map<Target, Cell> {
    if mapping == [] then map[]
    else
      var last := |mapping| - 1;
      var before := Mapped(values, indexes, mapping[..last]);
      if mapping[last].target == Ignore then before
      else before[mapping[last].target := CellAt(values, indexes, mapping[last].source)]
  }

  function Get(mapped: map<Target, Cell>, t: Target): Cell {
    if t in mapped then mapped[t] else Missing
  }

  predicate Blank(c: Cell) {
    c == Missing || c == Null || c == Text("")
  }

  // ----- What a row becomes -----

  // A field that the row says nothing about.
  function Initial(t: Target): Option<Value> {
    match t
    case Aliases => Some(Strs([]))
    case ImageUrls => Some(Strs([]))
    case Attributes => Some(Obj("{}"))
    case Active => Some(Bool(true))
    case _ => None
  }

  // A field that the row leaves empty, where empty cells clear.
  function Cleared(t: Target): Value {
    Initial(t).GetOr(Empty)
  }

  type Readings = map<Target, Reading>

  // How the cell of every field reads.
  function ReadAll(lib: Library, mapped: map<Target, Cell>): Readings {
    map t: Target | IsField(t) :: ReadCell(lib, t, Get(mapped, t))
  }

  function ReadingOf(readings: Readings, t: Target): Reading {
    if t in readings then readings[t] else Absent
  }

  // What the row says about a field, if anything.
  function FieldValue(readings: Readings, clear: set<Target>, t: Target): Option<Value> {
    match ReadingOf(readings, t)
    case Good(v) => Some(v)
    case Absent => if t in clear then Some(Cleared(t)) else Initial(t)
    case Bad(_) => Initial(t)
  }

  function Fields(readings: Readings, clear: set<Target>): map<Target, Value> {
    map t: Target | IsField(t) && FieldValue(readings, clear, t).Some? :: FieldValue(readings, clear, t).value
  }

  // The targets that the row sets: with a cell that reads well, or by clearing.
  function Present(readings: Readings, mapped: map<Target, Cell>, clear: set<Target>): set<Target> {
    set t: Target | ReadingOf(readings, t).Good? || (t in clear && !NonEmpty(Get(mapped, t)))
  }

  function FaultsOf(readings: Readings, targets: seq<Target>): (codes: seq<Code>) {
    if targets == [] then []
    else
      var last := |targets| - 1;
      var before := FaultsOf(readings, targets[..last]);
      var r := ReadingOf(readings, targets[last]);
      if r.Bad? then before + [r.code] else before
  }

  function NameOf(mapped: map<Target, Cell>): Option<string> {
    TextOf(Get(mapped, Name))
  }

  predicate HasTarget(mapping: seq<Column>, t: Target) {
    exists i :: 0 <= i < |mapping| && mapping[i].target == t
  }

  function SkuOf(lib: Library, source: Id, mapped: map<Target, Cell>, mapping: seq<Column>): string {
    var supplied := TextOf(Get(mapped, Sku));
    if supplied.Some? then lib.upper(supplied.value)
    else if NameOf(mapped).Some? then
      lib.autoSku(source, NameOf(mapped).value,
                  if HasTarget(mapping, Price) then TextOf(Get(mapped, Price)) else None)
    else ""
  }

  predicate IsEmptyRow(mapped: map<Target, Cell>) {
    forall t :: t in mapped ==> Blank(mapped[t])
  }

  predicate IsCategoryRow(mapped: map<Target, Cell>, mapping: seq<Column>) {
    !HasTarget(mapping, Sku) && HasTarget(mapping, Price) && !NonEmpty(Get(mapped, Price))
  }

  function Faults(name: Option<string>, readings: Readings): seq<Code> {
    (if name.None? then [NameRequired] else []) + FaultsOf(readings, FIELDS)
  }

  function Assembled(
    number: nat, sku: string, name: Option<string>, readings: Readings, clear: set<Target>, present: set<Target>): Row
  {
    var codes := Faults(name, readings);
    var product := if codes == [] then Some(Product(sku, name.GetOr(""), Fields(readings, clear))) else None;
    Row(number, product, codes, present)
  }

  function MappedRow(
    lib: Library, source: Id, number: nat, mapped: map<Target, Cell>, mapping: seq<Column>, clear: set<Target>): Row
  {
    if IsEmptyRow(mapped) then Row(number, None, [EmptyRow], {})
    else if IsCategoryRow(mapped, mapping) then Row(number, None, [CategoryRow], {})
    else
      var readings := ReadAll(lib, mapped);
      Assembled(number, SkuOf(lib, source, mapped, mapping), NameOf(mapped), readings, clear,
                Present(readings, mapped, clear))
  }

  // ----- What holds of every mapped row -----

  // A row is skipped for one reason, or fails for some, or yields a product.
  predicate Classified(row: Row) {
    if row.product.Some? then row.codes == []
    else || row.codes == [EmptyRow] || row.codes == [CategoryRow]
         || (row.codes != [] && forall c :: c in row.codes ==> IsError(c))
  }

  // A product has a name and a SKU, and a value for every field that its row sets.
  predicate Complete(row: Row) {
    row.product.Some? ==>
      && row.product.value.sku != "" && row.product.value.name != ""
      && forall t :: t in row.present && IsField(t) ==> t in row.product.value.fields
  }

  predicate ErrorsOnly(readings: Readings) {
    forall t :: t in readings && readings[t].Bad? ==> IsError(readings[t].code) && readings[t].code != SkuDuplicate
  }

  lemma {:induction false} FaultsAreErrors(readings: Readings, targets: seq<Target>)
    requires ErrorsOnly(readings)
    ensures forall c :: c in FaultsOf(readings, targets) ==> IsError(c) && c != SkuDuplicate
  {
    if targets != [] {
      FaultsAreErrors(readings, targets[..|targets| - 1]);
    }
  }

  lemma {:induction false} NoFaultsIff(readings: Readings, targets: seq<Target>)
    ensures FaultsOf(readings, targets) == [] <==> forall t :: t in targets ==> !ReadingOf(readings, t).Bad?
  {
    if targets != [] {
      var last := |targets| - 1;
      NoFaultsIff(readings, targets[..last]);
      assert targets == targets[..last] + [targets[last]];
    }
  }

  // A set target either reads well or is cleared, and so has a value.
  predicate PresentIsRead(readings: Readings, clear: set<Target>, present: set<Target>) {
    forall t :: t in present && IsField(t) ==>
      ReadingOf(readings, t).Good? || (ReadingOf(readings, t).Absent? && t in clear)
  }

  lemma AssembledIsClassified(
    number: nat, sku: string, name: Option<string>, readings: Readings, clear: set<Target>, present: set<Target>)
    requires sku != "" || name.None?
    requires name != Some("") && ErrorsOnly(readings) && PresentIsRead(readings, clear, present)
    ensures var row := Assembled(number, sku, name, readings, clear, present);
      Classified(row) && Complete(row) && SkuDuplicate !in row.codes
  {
    FaultsAreErrors(readings, FIELDS);
    var codes := Faults(name, readings);
    assert forall c :: c in codes ==> c == NameRequired || c in FaultsOf(readings, FIELDS);
    assert name.None? ==> codes[0] == NameRequired;
  }

  lemma ReadCellIs(lib: Library, t: Target, c: Cell)
    ensures var r := ReadCell(lib, t, c);
      (r.Absent? <==> !NonEmpty(c)) && (r.Bad? ==> IsError(r.code) && r.code != SkuDuplicate)
  {
  }

  lemma ReadAllIsRead(lib: Library, mapped: map<Target, Cell>, clear: set<Target>)
    ensures ErrorsOnly(ReadAll(lib, mapped))
    ensures PresentIsRead(ReadAll(lib, mapped), clear, Present(ReadAll(lib, mapped), mapped, clear))
  {
    forall t: Target
      ensures var r := ReadCell(lib, t, Get(mapped, t));
        (r.Absent? <==> !NonEmpty(Get(mapped, t))) && (r.Bad? ==> IsError(r.code) && r.code != SkuDuplicate)
    {
      ReadCellIs(lib, t, Get(mapped, t));
    }
  }

  lemma MappedRowIsClassified(
    lib: Library, source: Id, number: nat, mapped: map<Target, Cell>, mapping: seq<Column>, clear: set<Target>)
    requires lib.Sane()
    ensures var row := MappedRow(lib, source, number, mapped, mapping, clear);
      Classified(row) && Complete(row) && row.number == number && SkuDuplicate !in row.codes
  {
    ReadAllIsRead(lib, mapped, clear);
    var readings := ReadAll(lib, mapped);
    var sku := SkuOf(lib, source, mapped, mapping);
    AssembledIsClassified(number, sku, NameOf(mapped), readings, clear, Present(readings, mapped, clear));
  }

  lemma FieldsAreAll(t: Target)
    ensures IsField(t) <==> t in FIELDS
  {
    assert FIELDS[0] == Description && FIELDS[1] == Category && FIELDS[2] == Brand && FIELDS[3] == Color;
    assert FIELDS[4] == Size && FIELDS[5] == Currency && FIELDS[6] == Price && FIELDS[7] == StockQuantity;
    assert FIELDS[8] == Aliases && FIELDS[9] == ImageUrls && FIELDS[10] == Active && FIELDS[11] == Attributes;
  }

  // A row yields a product exactly when it is neither empty nor a heading, is named, and each of its
  // cells reads as what its column is for.
  lemma ProductIff(
    lib: Library, source: Id, number: nat, mapped: map<Target, Cell>, mapping: seq<Column>, clear: set<Target>)
    ensures MappedRow(lib, source, number, mapped, mapping, clear).product.Some?
       <==> && !IsEmptyRow(mapped) && !IsCategoryRow(mapped, mapping) && NonEmpty(Get(mapped, Name))
            && forall t :: IsField(t) ==> !ReadCell(lib, t, Get(mapped, t)).Bad?
  {
    forall t: Target
      ensures IsField(t) <==> t in FIELDS
    {
      FieldsAreAll(t);
    }
    NoFaultsIff(ReadAll(lib, mapped), FIELDS);
  }

  // A text cell is read as a price exactly when it denotes one that is not negative, and as a stock
  // quantity exactly when it denotes a whole number.
  lemma NumbersReadIff(text: string, n: real)
    ensures ReadPrice(Text(text)) == Some(Num(n)) <==> LocaleNumbers.Denotes(Unspaced(text), n) && n >= 0.0
    ensures ReadStock(Text(text)) == Some(Num(n)) <==> LocaleNumbers.Denotes(Unspaced(text), n) && IsInteger(n)
  {
    NumberOfText(text);
    LocaleNumbers.ReadingMeaning(Unspaced(text), n);
  }

  lemma NumberOfText(text: string)
    ensures NumberOf(Text(text)) == LocaleNumbers.Reading(Unspaced(text))
  {
    UnspacedTrims(text);
    if Trim(text) == "" {
      assert Unspaced("") == "";
    }
  }

  // A split list repeats nothing and leaves nothing empty.
  lemma {:induction false} SplitListIsDistinct(s: string, item: string)
    ensures Distinct(SplitList(s, item)) && "" !in SplitList(s, item)
  {
    if s == "" {
    } else if IsSeparator(s[0]) {
      SplitListIsDistinct(s[1..], "");
      KeptIsDistinct(item, SplitList(s[1..], ""));
    } else {
      SplitListIsDistinct(s[1..], item + [s[0]]);
    }
  }

  lemma KeptIsDistinct(item: string, later: seq<string>)
    requires Distinct(later) && "" !in later
    ensures Distinct(Kept(item, later)) && "" !in Kept(item, later)
  {
    var t := Trim(item);
    DroppedIsDistinct(later, t);
    DroppedIs(later, t);
    DistinctInFront(t, Dropped(later, t));
  }

  lemma DistinctInFront(t: string, items: seq<string>)
    requires Distinct(items) && t !in items
    ensures Distinct([t] + items)
  {
  }

  lemma {:induction false} DroppedIs(items: seq<string>, t: string)
    ensures forall x :: x in Dropped(items, t) <==> x in items && x != t
  {
    if items != [] {
      DroppedIs(items[1..], t);
      assert forall x :: x in items <==> x == items[0] || x in items[1..];
    }
  }

  lemma {:induction false} DroppedIsDistinct(items: seq<string>, t: string)
    requires Distinct(items)
    ensures Distinct(Dropped(items, t))
  {
    if items != [] {
      DroppedIsDistinct(items[1..], t);
      DroppedIs(items[1..], t);
      DistinctInFront(items[0], Dropped(items[1..], t));
    }
  }
}
