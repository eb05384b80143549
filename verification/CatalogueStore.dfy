// The catalogue import step by step: rows are mapped, duplicates are found and refused, and products
// are written one row at a time.
module CatalogueStore {
  import opened Options
  import opened Tables
  import opened Texts
  import opened CatalogueRows
  import opened CataloguePlans
  import opened CatalogueUpserts
  import LocaleNumbers

  // ----- Mapping a row -----

  method ReadNumber(c: Cell) returns (number: Option<real>)
    ensures number == NumberOf(c)
  {
    if c.Number? {
      return c.number;
    }
    if !NonEmpty(c) {
      return None;
    }
    number := LocaleNumbers.ParseLocaleNumber(TextOf(c).value);
  }

  method MapCells(values: seq<Cell>, indexes: map<string, nat>, mapping: seq<Column>) returns (mapped: map<Target, Cell>)
    ensures mapped == Mapped(values, indexes, mapping)
  {
    mapped := map[];
    for i := 0 to |mapping|
      invariant mapped == Mapped(values, indexes, mapping[..i])
    {
      assert mapping[..i + 1][..i] == mapping[..i];
      if mapping[i].target != Ignore {
        mapped := mapped[mapping[i].target := CellAt(values, indexes, mapping[i].source)];
      }
    }
    assert mapping[..|mapping|] == mapping;
  }

  // The targets that are cleared: those to be cleared when empty, if they are.
  function ClearedTargets(mapped: map<Target, Cell>, clear: set<Target>): set<Target> {
    set t | t in clear && !NonEmpty(Get(mapped, t))
  }

  function Unread(cleared: set<Target>, t: Target): Option<Value> {
    if t in cleared then Some(Cleared(t)) else Initial(t)
  }

  ghost function StageValue(readings: Readings, clear: set<Target>, cleared: set<Target>, done: set<Target>, t: Target): Option<Value> {
    if !IsField(t) then None else if t in done then FieldValue(readings, clear, t) else Unread(cleared, t)
  }

  // The fields as they are once the targets in `done` have been read, after the clearing of empty ones.
  ghost predicate Stage(
    readings: Readings, clear: set<Target>, cleared: set<Target>, done: set<Target>,
    fields: map<Target, Value>, present: set<Target>)
  {
    && (forall t: Target :: Lookup(fields, t) == StageValue(readings, clear, cleared, done, t))
    && (forall t: Target :: t in present <==> (t in done && ReadingOf(readings, t).Good?) || t in cleared)
  }

  const DEFAULTS: map<Target, Value> :=
    map[Aliases := Strs([]), ImageUrls := Strs([]), Attributes := Obj("{}"), Active := Bool(true)]

  function ClearedField(fields: map<Target, Value>, target: Target): map<Target, Value> {
    if target == Aliases then fields[Aliases := Strs([])]
    else if target == ImageUrls then fields[ImageUrls := Strs([])]
    else if target == Attributes then fields[Attributes := Obj("{}")]
    else if target != Sku && target != Name && target != Active && target != Ignore then fields[target := Empty]
    else fields
  }

  method ApplyExplicitClears(mapped: map<Target, Cell>, clear: set<Target>)
      returns (fields: map<Target, Value>, present: set<Target>)
    ensures forall t: Target ::
              Lookup(fields, t) == (if !IsField(t) then None else Unread(ClearedTargets(mapped, clear), t))
    ensures present == ClearedTargets(mapped, clear)
  {
    fields, present := DEFAULTS, {};
    var rest := clear;
    while rest != {}
      invariant rest <= clear
      invariant forall t: Target :: Lookup(fields, t) == (if !IsField(t) then None else Unread(present, t))
      invariant present == ClearedTargets(mapped, clear) - rest
    {
      var target :| target in rest;
      rest := rest - {target};
      if !NonEmpty(Get(mapped, target)) {
        ClearOne(fields, present, target);
        present := present + {target};
        fields := ClearedField(fields, target);
      }
    }
  }

  lemma ClearOne(fields: map<Target, Value>, present: set<Target>, target: Target)
    requires forall t: Target :: Lookup(fields, t) == (if !IsField(t) then None else Unread(present, t))
    ensures forall t: Target ::
              Lookup(ClearedField(fields, target), t) == (if !IsField(t) then None else Unread(present + {target}, t))
  {
    var after := ClearedField(fields, target);
    forall t: Target
      ensures Lookup(after, t) == (if !IsField(t) then None else Unread(present + {target}, t))
    {
      assert t != target ==> Lookup(after, t) == Lookup(fields, t);
    }
  }

  // Reads the fields one after the other, in the source's order.
  method ReadFields(lib: Library, mapped: map<Target, Cell>, clear: set<Target>, targets: seq<Target>)
      returns (fields: map<Target, Value>, present: set<Target>, codes: seq<Code>)
    requires forall t: Target :: IsField(t) <==> t in targets
    ensures var readings := ReadAll(lib, mapped);
      && fields == Fields(readings, clear) && present == Present(readings, mapped, clear)
      && codes == FaultsOf(readings, targets)
  {
    ghost var readings := ReadAll(lib, mapped);
    ghost var done: set<Target> := {};
    fields, present := ApplyExplicitClears(mapped, clear);
    ghost var cleared := present;
    ReadingsAgree(lib, mapped, clear);
    codes := [];
    for i := 0 to |targets|
      invariant forall t :: t in done <==> t in targets[..i]
      invariant Stage(readings, clear, cleared, done, fields, present)
      invariant codes == FaultsOf(readings, targets[..i])
    {
      var target := targets[i];
      var reading := ReadField(lib, target, Get(mapped, target));
      assert reading == ReadingOf(readings, target);
      StageStep(readings, clear, cleared, done, fields, present, target);
      assert targets[..i + 1] == targets[..i] + [target];
      if reading.Good? {
        fields, present := fields[target := reading.value], present + {target};
      } else if reading.Bad? {
        codes := codes + [reading.code];
      }
      done := done + {target};
    }
    assert targets[..|targets|] == targets;
    AllRead(readings, clear, cleared, done, fields, present);
  }

  ghost predicate Agree(readings: Readings, clear: set<Target>, cleared: set<Target>) {
    forall t :: (t in readings <==> IsField(t)) && (IsField(t) ==> (t in cleared <==> t in clear && ReadingOf(readings, t).Absent?))
  }

  lemma ReadingsAgree(lib: Library, mapped: map<Target, Cell>, clear: set<Target>)
    ensures Agree(ReadAll(lib, mapped), clear, ClearedTargets(mapped, clear))
  {
    forall t | IsField(t)
      ensures ReadingOf(ReadAll(lib, mapped), t).Absent? <==> !NonEmpty(Get(mapped, t))
    {
      ReadCellIs(lib, t, Get(mapped, t));
    }
  }

  lemma StageStep(readings: Readings, clear: set<Target>, cleared: set<Target>, done: set<Target>,
                  fields: map<Target, Value>, present: set<Target>, t: Target)
    requires Agree(readings, clear, cleared) && IsField(t)
    requires Stage(readings, clear, cleared, done, fields, present)
    ensures var r := ReadingOf(readings, t);
      if r.Good? then Stage(readings, clear, cleared, done + {t}, fields[t := r.value], present + {t})
      else Stage(readings, clear, cleared, done + {t}, fields, present)
  {
    var r := ReadingOf(readings, t);
    assert Lookup(fields, t) == StageValue(readings, clear, cleared, done, t);
    assert r.Absent? ==> (t in cleared <==> t in clear);
    assert r.Bad? ==> t !in cleared;
    if r.Good? {
      var after := fields[t := r.value];
      forall u: Target
        ensures Lookup(after, u) == StageValue(readings, clear, cleared, done + {t}, u)
      {
        assert u != t ==> Lookup(after, u) == Lookup(fields, u);
      }
    }
  }

  lemma AllRead(readings: Readings, clear: set<Target>, cleared: set<Target>, done: set<Target>,
                fields: map<Target, Value>, present: set<Target>)
    requires Agree(readings, clear, cleared)
    requires Stage(readings, clear, cleared, done, fields, present)
    requires forall t: Target :: t in done <==> IsField(t)
    ensures fields == Fields(readings, clear)
    ensures forall t :: t in present <==> ReadingOf(readings, t).Good? || t in cleared
  {
    SameByLookup(fields, Fields(readings, clear));
  }

  method ReadField(lib: Library, target: Target, c: Cell) returns (reading: Reading)
    ensures reading == ReadCell(lib, target, c)
  {
    if !NonEmpty(c) {
      return Absent;
    }
    if target == Price {
      var price := ReadNumber(c);
      return if price.None? || price.value < 0.0 then Bad(PriceInvalid) else Good(Num(price.value));
    }
    if target == StockQuantity {
      var stock := ReadNumber(c);
      return if stock.None? || !IsInteger(stock.value) then Bad(StockInvalid) else Good(Num(stock.value));
    }
    reading := ReadCell(lib, target, c);
  }

  method MapRow(lib: Library, source: Id, values: seq<Cell>, number: nat, indexes: map<string, nat>,
                mapping: seq<Column>, clear: set<Target>) returns (row: Row)
    ensures row == MappedRow(lib, source, number, Mapped(values, indexes, mapping), mapping, clear)
  {
    var mapped := MapCells(values, indexes, mapping);
    if IsEmptyRow(mapped) {
      return Row(number, None, [EmptyRow], {});
    }
    var hasSkuMapping, hasPriceMapping := HasTarget(mapping, Sku), HasTarget(mapping, Price);
    if !hasSkuMapping && hasPriceMapping && !NonEmpty(Get(mapped, Price)) {
      return Row(number, None, [CategoryRow], {});
    }
    var name := TextOf(Get(mapped, Name));
    var errors := if name.None? then [NameRequired] else [];
    var supplied := TextOf(Get(mapped, Sku));
    var discriminator := if hasPriceMapping then TextOf(Get(mapped, Price)) else None;
    var sku :=
      if supplied.Some? then lib.upper(supplied.value)
      else if name.Some? then lib.autoSku(source, name.value, discriminator)
      else "";
    forall t: Target
      ensures IsField(t) <==> t in FIELDS
    {
      FieldsAreAll(t);
    }
    var fields, present, codes := ReadFields(lib, mapped, clear, FIELDS);
    errors := errors + codes;
    row := Row(number, if errors == [] then Some(Product(sku, name.GetOr(""), fields)) else None, errors, present);
  }

  // ----- Finding duplicates -----

  method IndexHeaders(lib: Library, headers: seq<string>) returns (indexes: map<string, nat>)
    ensures indexes == HeaderIndex(lib, headers)
  {
    indexes := map[];
    for i := 0 to |headers|
      invariant indexes == HeaderIndex(lib, headers[..i])
    {
      assert headers[..i + 1][..i] == headers[..i];
      indexes := indexes[lib.header(headers[i]) := i];
    }
    assert headers[..|headers|] == headers;
  }

  // The positions, among the first n rows, of those with the given SKU.
  ghost function Holders(rows: seq<Row>, n: nat, sku: string): set<nat>
    requires n <= |rows|
  {
    set i: nat | i < n && HasSku(rows[i], sku)
  }

  ghost predicate Grouped(rows: seq<Row>, n: nat, skuRows: map<string, seq<nat>>)
    requires n <= |rows|
  {
    && (forall sku :: sku in skuRows ==> |skuRows[sku]| == |Holders(rows, n, sku)|)
    && (forall sku: string :: sku !in skuRows ==> Holders(rows, n, sku) == {})
  }

  lemma HoldersGrow(rows: seq<Row>, n: nat, sku: string)
    requires n < |rows|
    ensures Holders(rows, n + 1, sku) == Holders(rows, n, sku) + if HasSku(rows[n], sku) then {n} else {}
    ensures |Holders(rows, n + 1, sku)| == |Holders(rows, n, sku)| + if HasSku(rows[n], sku) then 1 else 0
  {
    assert Holders(rows, n + 1, sku) == Holders(rows, n, sku) + if HasSku(rows[n], sku) then {n} else {};
  }

  lemma GroupedGrows(rows: seq<Row>, n: nat, skuRows: map<string, seq<nat>>)
    requires n < |rows| && Grouped(rows, n, skuRows)
    ensures var row := rows[n];
      if row.product.None? || row.product.value.sku == "" then Grouped(rows, n + 1, skuRows)
      else
        var sku := row.product.value.sku;
        Grouped(rows, n + 1, skuRows[sku := Lookup(skuRows, sku).GetOr([]) + [row.number]])
  {
    forall sku: string
      ensures |Holders(rows, n + 1, sku)| == |Holders(rows, n, sku)| + if HasSku(rows[n], sku) then 1 else 0
      ensures !HasSku(rows[n], sku) ==> Holders(rows, n + 1, sku) == Holders(rows, n, sku)
    {
      HoldersGrow(rows, n, sku);
    }
  }

  // A row shares its SKU exactly when at least two rows have it.
  lemma SharedIffTwo(rows: seq<Row>, i: nat)
    requires i < |rows| && rows[i].product.Some?
    ensures Shared(rows, i) <==> |Holders(rows, |rows|, rows[i].product.value.sku)| >= 2
  {
    var sku := rows[i].product.value.sku;
    var holders := Holders(rows, |rows|, sku);
    if sku == "" {
      assert holders == {};
      return;
    }
    assert i in holders;
    assert |holders - {i}| == |holders| - 1;
    if j: nat :| j < |rows| && j != i && HasSku(rows[j], sku) {
      assert j in holders - {i};
    } else {
      assert holders - {i} == {};
    }
  }

  method GroupBySku(rows: seq<Row>) returns (skuRows: map<string, seq<nat>>)
    ensures Grouped(rows, |rows|, skuRows)
  {
    skuRows := map[];
    for i := 0 to |rows|
      invariant Grouped(rows, i, skuRows)
    {
      GroupedGrows(rows, i, skuRows);
      if rows[i].product.Some? && rows[i].product.value.sku != "" {
        var sku := rows[i].product.value.sku;
        var numbers := Lookup(skuRows, sku).GetOr([]);
        skuRows := skuRows[sku := numbers + [rows[i].number]];
      }
    }
  }

  method RefuseDuplicates(rows: seq<Row>) returns (marked: seq<Row>)
    ensures marked == WithoutDuplicates(rows)
  {
    var skuRows := GroupBySku(rows);
    marked := [];
    for i := 0 to |rows|
      invariant |marked| == i && forall k :: 0 <= k < i ==> marked[k] == WithoutDuplicates(rows)[k]
    {
      var row := rows[i];
      if row.product.Some? {
        SharedIffTwo(rows, i);
        if |Lookup(skuRows, row.product.value.sku).GetOr([])| >= 2 {
          row := Row(row.number, None, row.codes + [SkuDuplicate], row.present);
        }
      }
      marked := marked + [row];
    }
  }

  // ----- The products -----

  class Catalogue {
    var products: Products

    constructor ()
      ensures products == map[]
    {
      products := map[];
    }

    method BuildPlan(lib: Library, table: Table) returns (plan: Plan)
      ensures plan == PlanOf(lib, table, products.Keys)
    {
      var indexes := IndexHeaders(lib, table.headers);
      var mapping := NormalizedMapping(lib, table.mapping);
      var rows: seq<Row> := [];
      for i := 0 to |table.rows|
        invariant |rows| == i && forall k :: 0 <= k < i ==> rows[k] == MappedAt(lib, table, k)
      {
        var row := MapRow(lib, table.source, table.rows[i], RowNumber(table, i), indexes, mapping, table.clear);
        rows := rows + [row];
      }
      assert rows == MappedRows(lib, table);
      rows := RefuseDuplicates(rows);
      plan := Plan(rows, TotalsOf(rows, products.Keys));
    }

    // A field while the targets in `rest` are still to be written.
    static ghost function Partly(current: Stored, row: ImportRow, rest: set<Target>, t: Target): Option<Value> {
      if t in Written(row) && t !in rest then Some(Written(row)[t]) else Lookup(current.fields, t)
    }

    method ProductUpdate(current: Stored, source: Id, row: ImportRow) returns (updated: Stored)
      ensures updated == Updated(current, source, row)
    {
      var fields := current.fields;
      var rest := row.present;
      while rest != {}
        invariant rest <= row.present
        invariant forall t: Target :: Lookup(fields, t) == Partly(current, row, rest, t)
      {
        var target :| target in rest;
        rest := rest - {target};
        ghost var was := fields;
        if IsField(target) && target in row.product.fields {
          fields := fields[target := row.product.fields[target]];
        }
        assert forall t: Target :: t != target ==> Lookup(fields, t) == Lookup(was, t);
      }
      assert forall t: Target :: Lookup(fields, t) == Lookup(current.fields + Written(row), t);
      SameByLookup(fields, current.fields + Written(row));
      updated := Stored(Some(source), Some(row.number), row.product.name, fields);
    }

    method UpsertProducts(source: Id, rows: seq<ImportRow>, policy: Policy, lease: Option<LeaseChecks>)
        returns (outcome: Outcome)
      modifies this
      ensures outcome == UpsertOutcome(old(products), source, rows, policy, lease)
      ensures products == if outcome == Imported then Upserts(old(products), source, rows) else old(products)
    {
      var before := products;
      if lease.Some? && !lease.value.before {
        return LeaseLost;
      }
      if policy == FenceCrossSource && AnyForeign(products, source, rows) {
        return ForeignSku;
      }
      for i := 0 to |rows|
        invariant products == Upserts(before, source, rows[..i])
      {
        assert rows[..i + 1][..i] == rows[..i];
        var sku := rows[i].product.sku;
        if sku in products {
          var updated := ProductUpdate(products[sku], source, rows[i]);
          products := products[sku := updated];
        } else {
          products := products[sku := Created(source, rows[i])];
        }
      }
      assert rows[..|rows|] == rows;
      if lease.Some? && !lease.value.after {
        // The transaction is rolled back.
        products := before;
        return LeaseLost;
      }
      outcome := Imported;
    }

    method ImportTable(lib: Library, table: Table, policy: Policy, lease: Option<LeaseChecks>)
        returns (outcome: Outcome, totals: Totals)
      modifies this
      ensures outcome == ImportOutcome(lib, old(products), table, policy, lease)
      ensures products == AfterImport(lib, old(products), table, policy, lease)
      ensures totals == PlanFor(lib, old(products), table).totals
    {
      var plan := BuildPlan(lib, table);
      totals := plan.totals;
      outcome := UpsertProducts(table.source, ValidRows(plan.rows), policy, lease);
    }
  }
}
