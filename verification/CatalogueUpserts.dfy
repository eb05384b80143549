// Writing planned rows to the products of a catalogue, and importing a table as a whole.
module CatalogueUpserts {
  import opened Options
  import opened Tables
  import opened CatalogueRows
  import opened CataloguePlans

  // A stored product, under its SKU; the fields of a product in the table are never undefined.
  datatype Stored = Stored(source: Option<Id>, rowKey: Option<nat>, name: string, fields: map<Target, Value>)

  type Products = map<string, Stored>

  datatype Policy = Reassign | FenceCrossSource

  // What the two checks of an import's lease find, before the first write and before the commit.
  datatype LeaseChecks = LeaseChecks(before: bool, after: bool)

  datatype Outcome = Imported | ForeignSku | LeaseLost

  // ----- One row -----

  function Created(source: Id, row: ImportRow): Stored {
    Stored(Some(source), Some(row.number), row.product.name,
           map t: Target | IsField(t) :: Lookup(row.product.fields, t).GetOr(Empty))
  }

  function Written(row: ImportRow): map<Target, Value> {
    map t | t in row.present && IsField(t) && t in row.product.fields :: row.product.fields[t]
  }

  function Updated(p: Stored, source: Id, row: ImportRow): Stored {
    Stored(Some(source), Some(row.number), row.product.name, p.fields + Written(row))
  }

  function Upserted(p: Option<Stored>, source: Id, row: ImportRow): Stored {
    if p.Some? then Updated(p.value, source, row) else Created(source, row)
  }

  // An update replaces the fields that the row sets, with what it sets them to, and no other.
  lemma UpdateIsPartial(p: Stored, source: Id, row: ImportRow, t: Target)
    requires Writable(row)
    ensures var after := Updated(p, source, row);
      && after.source == Some(source) && after.rowKey == Some(row.number) && after.name == row.product.name
      && Lookup(after.fields, t)
         == if IsField(t) && t in row.present then Some(row.product.fields[t]) else Lookup(p.fields, t)
  {
  }

  // What the cells of a row do to the product that was there: a cell that says something replaces its
  // field, an empty one clears it if it is to be cleared, and any other field stays.
  lemma CellDecidesField(
    lib: Library, source: Id, number: nat, mapped: map<Target, Cell>, mapping: seq<Column>, clear: set<Target>,
    p: Stored, t: Target)
    requires IsField(t)
    ensures var row := MappedRow(lib, source, number, mapped, mapping, clear);
      row.product.Some? ==>
      Lookup(Updated(p, source, ImportRow(row.number, row.product.value, row.present)).fields, t)
      == match ReadCell(lib, t, Get(mapped, t)) {
           case Good(v) => Some(v)
           case Absent => if t in clear then Some(Cleared(t)) else Lookup(p.fields, t)
           case Bad(_) => None
         }
  {
    var readings := ReadAll(lib, mapped);
    ReadCellIs(lib, t, Get(mapped, t));
    if MappedRow(lib, source, number, mapped, mapping, clear).product.Some? {
      ReadingDecidesField(number, SkuOf(lib, source, mapped, mapping), NameOf(mapped), readings, clear,
                          Present(readings, mapped, clear), p, source, t);
    }
  }

  lemma ReadingDecidesField(
    number: nat, sku: string, name: Option<string>, readings: Readings, clear: set<Target>, present: set<Target>,
    p: Stored, source: Id, t: Target)
    requires IsField(t) && Assembled(number, sku, name, readings, clear, present).product.Some?
    requires t in present <==> ReadingOf(readings, t).Good? || (t in clear && ReadingOf(readings, t).Absent?)
    ensures var row := Assembled(number, sku, name, readings, clear, present);
      Lookup(Updated(p, source, ImportRow(row.number, row.product.value, row.present)).fields, t)
      == match ReadingOf(readings, t) {
           case Good(v) => Some(v)
           case Absent => if t in clear then Some(Cleared(t)) else Lookup(p.fields, t)
           case Bad(_) => None
         }
  {
    NoFaultsIff(readings, FIELDS);
    FieldsAreAll(t);
    assert !ReadingOf(readings, t).Bad?;
  }

  // Writing a row again changes nothing.
  lemma UpsertTwice(p: Option<Stored>, source: Id, row: ImportRow)
    ensures var once := Upserted(p, source, row); Upserted(Some(once), source, row) == once
  {
    var once := Upserted(p, source, row);
    var twice := Upserted(Some(once), source, row);
    assert forall t :: t in Written(row) ==> t in once.fields && once.fields[t] == Written(row)[t];
    assert twice.fields == once.fields;
  }

  // ----- All rows -----

  function Upserts(products: Products, source: Id, rows: seq<ImportRow>): Products {
    if rows == [] then products
    else
      var last := rows[|rows| - 1];
      var before := Upserts(products, source, rows[..|rows| - 1]);
      before[last.product.sku := Upserted(Lookup(before, last.product.sku), source, last)]
  }

  // Products that no row names are left alone.
  lemma {:induction false} UpsertsElsewhere(products: Products, source: Id, rows: seq<ImportRow>, sku: string)
    requires forall row :: row in rows ==> row.product.sku != sku
    ensures Lookup(Upserts(products, source, rows), sku) == Lookup(products, sku)
  {
    if rows != [] {
      UpsertsElsewhere(products, source, rows[..|rows| - 1], sku);
    }
  }

  ghost predicate OneSkuEach(rows: seq<ImportRow>) {
    forall i, j :: 0 <= i < j < |rows| ==> rows[i].product.sku != rows[j].product.sku
  }

  // Each row acts on the product that was there before, whatever the other rows do.
  lemma {:induction false} UpsertsAt(products: Products, source: Id, rows: seq<ImportRow>, k: nat)
    requires OneSkuEach(rows) && k < |rows|
    ensures var sku := rows[k].product.sku;
      Lookup(Upserts(products, source, rows), sku) == Some(Upserted(Lookup(products, sku), source, rows[k]))
  {
    var last := |rows| - 1;
    if k < last {
      assert rows[..last][k] == rows[k];
      UpsertsAt(products, source, rows[..last], k);
    } else {
      forall row | row in rows[..last]
        ensures row.product.sku != rows[k].product.sku
      {
      }
      UpsertsElsewhere(products, source, rows[..last], rows[k].product.sku);
    }
  }

  // Writing all rows again changes nothing.
  lemma UpsertsTwice(products: Products, source: Id, rows: seq<ImportRow>)
    requires OneSkuEach(rows)
    ensures var once := Upserts(products, source, rows); Upserts(once, source, rows) == once
  {
    var once := Upserts(products, source, rows);
    var twice := Upserts(once, source, rows);
    forall sku: string
      ensures Lookup(twice, sku) == Lookup(once, sku)
    {
      if k :| 0 <= k < |rows| && rows[k].product.sku == sku {
        UpsertsAt(products, source, rows, k);
        UpsertsAt(once, source, rows, k);
        UpsertTwice(Lookup(products, sku), source, rows[k]);
      } else {
        UpsertsElsewhere(once, source, rows, sku);
      }
    }
    SameByLookup(twice, once);
  }

  function NewSkus(products: Products, rows: seq<ImportRow>): nat {
    if rows == [] then 0
    else NewSkus(products, rows[..|rows| - 1]) + if rows[|rows| - 1].product.sku in products then 0 else 1
  }

  // The catalogue grows by one product for every row with a SKU it did not have.
  lemma {:induction false} UpsertsGrow(products: Products, source: Id, rows: seq<ImportRow>)
    requires OneSkuEach(rows)
    ensures |Upserts(products, source, rows)| == |products| + NewSkus(products, rows)
  {
    if rows != [] {
      var last := |rows| - 1;
      var sku, before := rows[last].product.sku, Upserts(products, source, rows[..last]);
      UpsertsGrow(products, source, rows[..last]);
      UpsertsElsewhere(products, source, rows[..last], sku);
      assert Lookup(before, sku) == Lookup(products, sku);
      var after := Upserts(products, source, rows);
      assert after.Keys == before.Keys + {sku};
      assert |after| == |after.Keys| && |before| == |before.Keys|;
    }
  }

  // ----- The whole import -----

  predicate IsForeign(products: Products, source: Id, sku: string) {
    sku in products && products[sku].source.Some? && products[sku].source.value != source
  }

  predicate AnyForeign(products: Products, source: Id, rows: seq<ImportRow>) {
    exists i :: 0 <= i < |rows| && IsForeign(products, source, rows[i].product.sku)
  }

  function UpsertOutcome(products: Products, source: Id, rows: seq<ImportRow>, policy: Policy, lease: Option<LeaseChecks>): Outcome {
    if lease.Some? && !lease.value.before then LeaseLost
    else if policy == FenceCrossSource && AnyForeign(products, source, rows) then ForeignSku
    else if lease.Some? && !lease.value.after then LeaseLost
    else Imported
  }

  ghost function ImportedRows(lib: Library, table: Table): seq<ImportRow> {
    ValidRows(WithoutDuplicates(MappedRows(lib, table)))
  }

  ghost function ImportOutcome(lib: Library, products: Products, table: Table, policy: Policy, lease: Option<LeaseChecks>): Outcome {
    UpsertOutcome(products, table.source, ImportedRows(lib, table), policy, lease)
  }

  // A committed import writes the valid rows; any other leaves the products as they were.
  ghost function AfterImport(lib: Library, products: Products, table: Table, policy: Policy, lease: Option<LeaseChecks>): Products {
    if ImportOutcome(lib, products, table, policy, lease) == Imported
    then Upserts(products, table.source, ImportedRows(lib, table))
    else products
  }

  ghost function PlanFor(lib: Library, products: Products, table: Table): Plan {
    PlanOf(lib, table, products.Keys)
  }

  // ----- What imports promise -----

  lemma ImportedRowsAre(lib: Library, table: Table)
    requires lib.Sane()
    ensures OneSkuEach(ImportedRows(lib, table))
    ensures forall row :: row in ImportedRows(lib, table) ==> Writable(row)
  {
    PlanImportsDistinctSkus(lib, table, {});
    var rows := ImportedRows(lib, table);
    forall i, j | 0 <= i < j < |rows|
      ensures rows[i].product.sku != rows[j].product.sku
    {
      assert Skus(rows)[i] != Skus(rows)[j];
    }
  }

  // Importing a table again under the same policy commits again, changes nothing and creates nothing.
  lemma ImportTwice(lib: Library, products: Products, table: Table, policy: Policy,
                    first: Option<LeaseChecks>, second: Option<LeaseChecks>)
    requires lib.Sane() && ImportOutcome(lib, products, table, policy, first) == Imported
    requires second.Some? ==> second.value.before && second.value.after
    ensures var once := AfterImport(lib, products, table, policy, first);
      && ImportOutcome(lib, once, table, policy, second) == Imported
      && AfterImport(lib, once, table, policy, second) == once
      && PlanFor(lib, once, table).totals.created == 0
  {
    var rows, once := ImportedRows(lib, table), AfterImport(lib, products, table, policy, first);
    ImportedRowsAre(lib, table);
    UpsertsTwice(products, table.source, rows);
    forall i | 0 <= i < |rows|
      ensures !IsForeign(once, table.source, rows[i].product.sku) && rows[i].product.sku in once
    {
      UpsertsAt(products, table.source, rows, i);
    }
    NoneCreated(WithoutDuplicates(MappedRows(lib, table)), once.Keys);
  }

  lemma {:induction false} NoneCreated(rows: seq<Row>, existing: set<string>)
    requires forall i :: 0 <= i < |ValidRows(rows)| ==> ValidRows(rows)[i].product.sku in existing
    ensures Count(rows, IsCreated(existing)) == 0
  {
    if rows != [] {
      var before := rows[..|rows| - 1];
      assert forall i :: 0 <= i < |ValidRows(before)| ==> ValidRows(before)[i] == ValidRows(rows)[i];
      NoneCreated(before, existing);
      if IsValid(rows[|rows| - 1]) {
        assert ValidRows(rows)[|ValidRows(before)|].product == rows[|rows| - 1].product.value;
      }
    }
  }

  lemma {:induction false} CreatedAreNew(rows: seq<Row>, products: Products)
    ensures Count(rows, IsCreated(products.Keys)) == NewSkus(products, ValidRows(rows))
    ensures Count(rows, IsCreated(products.Keys)) + Count(rows, IsUpdated(products.Keys)) == |ValidRows(rows)|
  {
    if rows != [] {
      CreatedAreNew(rows[..|rows| - 1], products);
      var before := ValidRows(rows[..|rows| - 1]);
      assert IsValid(rows[|rows| - 1]) ==> ValidRows(rows)[..|before|] == before;
    }
  }

  // The catalogue grows by exactly the number of rows that the plan calls created, and the rest of the
  // valid rows are the updated ones.
  lemma ImportGrows(lib: Library, products: Products, table: Table, policy: Policy, lease: Option<LeaseChecks>)
    requires lib.Sane() && ImportOutcome(lib, products, table, policy, lease) == Imported
    ensures var totals := PlanFor(lib, products, table).totals;
      && |AfterImport(lib, products, table, policy, lease)| == |products| + totals.created
      && |ImportedRows(lib, table)| == totals.created + totals.updated
  {
    ImportedRowsAre(lib, table);
    UpsertsGrow(products, table.source, ImportedRows(lib, table));
    CreatedAreNew(WithoutDuplicates(MappedRows(lib, table)), products);
  }

  // Exactly what an import does to the product with one SKU.
  lemma ImportIsFramed(lib: Library, products: Products, table: Table, policy: Policy, lease: Option<LeaseChecks>, sku: string)
    requires lib.Sane()
    ensures var after, rows := AfterImport(lib, products, table, policy, lease), ImportedRows(lib, table);
      && (ImportOutcome(lib, products, table, policy, lease) != Imported || sku !in Skus(rows) ==>
            Lookup(after, sku) == Lookup(products, sku))
      && forall i :: 0 <= i < |rows| && rows[i].product.sku == sku
                     && ImportOutcome(lib, products, table, policy, lease) == Imported ==>
           Lookup(after, sku) == Some(Upserted(Lookup(products, sku), table.source, rows[i]))
  {
    var rows := ImportedRows(lib, table);
    ImportedRowsAre(lib, table);
    if i :| 0 <= i < |rows| && rows[i].product.sku == sku {
      assert Skus(rows)[i] == sku;
      UpsertsAt(products, table.source, rows, i);
    } else {
      UpsertsElsewhere(products, table.source, rows, sku);
    }
  }

  // ----- Ownership -----

  // Under the fence an import leaves every product of another source as it was, and does not commit
  // at all when one of its rows names such a product.
  lemma FenceProtects(lib: Library, products: Products, table: Table, lease: Option<LeaseChecks>, sku: string)
    requires lib.Sane() && IsForeign(products, table.source, sku)
    ensures Lookup(AfterImport(lib, products, table, FenceCrossSource, lease), sku) == Lookup(products, sku)
    ensures sku in Skus(ImportedRows(lib, table)) ==>
      ImportOutcome(lib, products, table, FenceCrossSource, lease) != Imported
  {
    var rows := ImportedRows(lib, table);
    if i :| 0 <= i < |rows| && rows[i].product.sku == sku {
      assert AnyForeign(products, table.source, rows);
    } else {
      UpsertsElsewhere(products, table.source, rows, sku);
    }
  }

  datatype Import = Import(table: Table, policy: Policy, lease: Option<LeaseChecks>)

  ghost function RunImports(lib: Library, products: Products, imports: seq<Import>): Products {
    if imports == [] then products
    else
      var last := imports[|imports| - 1];
      AfterImport(lib, RunImports(lib, products, imports[..|imports| - 1]), last.table, last.policy, last.lease)
  }

  // Over any run of imports in which only its own source may reassign, a product that a source owns
  // stays with that source.
  lemma {:induction false} OwnerIsKept(lib: Library, products: Products, imports: seq<Import>, sku: string, owner: Id)
    requires lib.Sane() && sku in products && products[sku].source == Some(owner)
    requires forall i :: 0 <= i < |imports| ==> imports[i].table.source == owner || imports[i].policy == FenceCrossSource
    ensures sku in RunImports(lib, products, imports) && RunImports(lib, products, imports)[sku].source == Some(owner)
  {
    if imports != [] {
      var last := imports[|imports| - 1];
      OwnerIsKept(lib, products, imports[..|imports| - 1], sku, owner);
      var before := RunImports(lib, products, imports[..|imports| - 1]);
      assert Lookup(before, sku).Some?;
      if last.table.source != owner {
        FenceProtects(lib, before, last.table, last.lease, sku);
        assert Lookup(RunImports(lib, products, imports), sku) == Lookup(before, sku);
      } else {
        OwnImportKeeps(lib, before, last, sku);
      }
    }
  }

  lemma OwnImportKeeps(lib: Library, products: Products, i: Import, sku: string)
    requires lib.Sane() && sku in products && products[sku].source == Some(i.table.source)
    ensures var after := AfterImport(lib, products, i.table, i.policy, i.lease);
      sku in after && after[sku].source == Some(i.table.source)
  {
    var rows := ImportedRows(lib, i.table);
    var after := AfterImport(lib, products, i.table, i.policy, i.lease);
    ImportIsFramed(lib, products, i.table, i.policy, i.lease, sku);
    assert sku in Skus(rows) ==> exists k :: 0 <= k < |rows| && Skus(rows)[k] == sku;
    assert Lookup(after, sku).Some? && Lookup(after, sku).value.source == Some(i.table.source);
  }
}
