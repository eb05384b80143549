// From a table of cells to a plan: every row classified, and rows that claim the same SKU refused.
module CataloguePlans {
  import opened Options
  import opened Tables
  import opened CatalogueRows
  import SheetHeaders

  // A table as an import gets it; row numbers are given when rows were moved before.
  datatype Table = Table(
    source: Id, headers: seq<string>, rows: seq<seq<Cell>>, numbers: Option<seq<nat>>,
    mapping: seq<Column>, clear: set<Target>)

  // Of equal headers the last one counts.
  function HeaderIndex(lib: Library, headers: seq<string>): map<string, nat> {
    if headers == [] then map[]
    else HeaderIndex(lib, headers[..|headers| - 1])[lib.header(headers[|headers| - 1]) := |headers| - 1]
  }

  lemma {:induction false} LastHeaderCounts(lib: Library, headers: seq<string>, i: nat)
    requires i < |headers| && forall j :: i < j < |headers| ==> lib.header(headers[j]) != lib.header(headers[i])
    ensures lib.header(headers[i]) in HeaderIndex(lib, headers)
    ensures HeaderIndex(lib, headers)[lib.header(headers[i])] == i
  {
    if i < |headers| - 1 {
      LastHeaderCounts(lib, headers[..|headers| - 1], i);
    }
  }

  // Once a sheet's headers are disambiguated, every column is found under its own header.
  lemma LabelledColumnsAreFound(lib: Library, headers: seq<string>, labels: seq<string>, i: nat)
    requires SheetHeaders.AllLabelled(lib.header, headers, labels) && i < |labels|
    ensures lib.header(labels[i]) in HeaderIndex(lib, labels)
    ensures HeaderIndex(lib, labels)[lib.header(labels[i])] == i
  {
    forall j | i < j < |labels|
      ensures lib.header(labels[j]) != lib.header(labels[i])
    {
      SheetHeaders.LabelsAreDistinct(lib.header, headers, labels, i, j);
    }
    LastHeaderCounts(lib, labels, i);
  }

  function NormalizedMapping(lib: Library, mapping: seq<Column>): seq<Column> {
    seq(|mapping|, i requires 0 <= i < |mapping| => Column(lib.header(mapping[i].source), mapping[i].target))
  }

  function RowNumber(table: Table, i: nat): nat {
    if table.numbers.Some? && i < |table.numbers.value| then table.numbers.value[i] else i + 2
  }

  function MappedAt(lib: Library, table: Table, i: nat): Row
    requires i < |table.rows|
  {
    var mapping := NormalizedMapping(lib, table.mapping);
    MappedRow(lib, table.source, RowNumber(table, i),
              Mapped(table.rows[i], HeaderIndex(lib, table.headers), mapping), mapping, table.clear)
  }

  function MappedRows(lib: Library, table: Table): (rows: seq<Row>)
    ensures |rows| == |table.rows|
  {
    seq(|table.rows|, i requires 0 <= i < |table.rows| => MappedAt(lib, table, i))
  }

  // ----- Duplicates -----

  // A product without a SKU shares it with nothing.
  predicate HasSku(row: Row, sku: string) {
    row.product.Some? && row.product.value.sku == sku && sku != ""
  }

  ghost predicate Shared(rows: seq<Row>, i: nat)
    requires i < |rows|
  {
    rows[i].product.Some? && exists j: nat :: j < |rows| && j != i && HasSku(rows[j], rows[i].product.value.sku)
  }

  function Refused(row: Row): Row {
    row.(product := None, codes := row.codes + [SkuDuplicate])
  }

  // Every row that shares its SKU with another one is refused.
  ghost function WithoutDuplicates(rows: seq<Row>): (r: seq<Row>)
    ensures |r| == |rows|
  {
    seq(|rows|, i requires 0 <= i < |rows| => if Shared(rows, i) then Refused(rows[i]) else rows[i])
  }

  // ----- Totals -----

  predicate IsValid(row: Row) {
    row.product.Some? && row.codes == []
  }

  predicate IsSkipped(row: Row) {
    EmptyRow in row.codes || CategoryRow in row.codes
  }

  predicate IsFailed(row: Row) {
    exists i :: 0 <= i < |row.codes| && IsError(row.codes[i])
  }

  function Count(rows: seq<Row>, p: Row -> bool): nat {
    if rows == [] then 0
    else Count(rows[..|rows| - 1], p) + if p(rows[|rows| - 1]) then 1 else 0
  }

  datatype Totals = Totals(created: nat, updated: nat, skipped: nat, failed: nat)

  function IsCreated(existing: set<string>): Row -> bool {
    row => IsValid(row) && row.product.value.sku !in existing
  }

  function IsUpdated(existing: set<string>): Row -> bool {
    row => IsValid(row) && row.product.value.sku in existing
  }

  function TotalsOf(rows: seq<Row>, existing: set<string>): Totals {
    Totals(Count(rows, IsCreated(existing)), Count(rows, IsUpdated(existing)),
           Count(rows, row => IsSkipped(row)), Count(rows, row => IsFailed(row)))
  }

  datatype Plan = Plan(rows: seq<Row>, totals: Totals)

  ghost function PlanOf(lib: Library, table: Table, existing: set<string>): Plan {
    var rows := WithoutDuplicates(MappedRows(lib, table));
    Plan(rows, TotalsOf(rows, existing))
  }

  // ----- What plans promise -----

  // A row that came through the search for duplicates.
  ghost predicate Settled(row: Row) {
    Complete(row) && (Classified(row) || (row.product.None? && row.codes == [SkuDuplicate]))
  }

  lemma PlannedRow(lib: Library, table: Table, i: nat)
    requires lib.Sane() && i < |table.rows|
    ensures var before, after := MappedRows(lib, table), WithoutDuplicates(MappedRows(lib, table));
      && Settled(after[i]) && after[i].number == RowNumber(table, i)
      && (SkuDuplicate in after[i].codes <==> Shared(before, i))
      && (IsValid(after[i]) <==> before[i].product.Some? && !Shared(before, i))
  {
    var mapping := NormalizedMapping(lib, table.mapping);
    MappedRowIsClassified(lib, table.source, RowNumber(table, i),
                          Mapped(table.rows[i], HeaderIndex(lib, table.headers), mapping), mapping, table.clear);
  }

  // A settled row is exactly one of valid, skipped and failed.
  lemma SettledIsOne(row: Row)
    requires Settled(row)
    ensures (if IsValid(row) then 1 else 0) + (if IsSkipped(row) then 1 else 0) + (if IsFailed(row) then 1 else 0) == 1
  {
    if row.codes != [] {
      assert row.codes[0] in row.codes;
      assert IsError(row.codes[0]) ==> IsFailed(row);
    }
  }

  lemma {:induction false} TotalsPartition(rows: seq<Row>, existing: set<string>)
    requires forall i :: 0 <= i < |rows| ==> Settled(rows[i])
    ensures var t := TotalsOf(rows, existing); t.created + t.updated + t.skipped + t.failed == |rows|
  {
    if rows != [] {
      TotalsPartition(rows[..|rows| - 1], existing);
      SettledIsOne(rows[|rows| - 1]);
    }
  }

  // Created, updated, skipped and failed rows make up all rows of the table.
  lemma PlanPartitionsTheRows(lib: Library, table: Table, existing: set<string>)
    requires lib.Sane()
    ensures var t := PlanOf(lib, table, existing).totals;
      t.created + t.updated + t.skipped + t.failed == |table.rows|
  {
    forall i | 0 <= i < |table.rows|
      ensures Settled(WithoutDuplicates(MappedRows(lib, table))[i])
    {
      PlannedRow(lib, table, i);
    }
    TotalsPartition(WithoutDuplicates(MappedRows(lib, table)), existing);
  }

  // ----- The rows that are imported -----

  datatype ImportRow = ImportRow(number: nat, product: Product, present: set<Target>)

  function ValidRows(rows: seq<Row>): seq<ImportRow> {
    if rows == [] then []
    else
      var last := rows[|rows| - 1];
      var before := ValidRows(rows[..|rows| - 1]);
      if IsValid(last) then before + [ImportRow(last.number, last.product.value, last.present)] else before
  }

  function Skus(rows: seq<ImportRow>): (skus: seq<string>)
    ensures |skus| == |rows|
  {
    seq(|rows|, i requires 0 <= i < |rows| => rows[i].product.sku)
  }

  // The row is complete enough to be written: named, with a SKU, and with a value for every set field.
  predicate Writable(row: ImportRow) {
    && row.product.sku != "" && row.product.name != ""
    && forall t :: t in row.present && IsField(t) ==> t in row.product.fields
  }

  predicate ValidWith(row: Row, sku: string) {
    IsValid(row) && row.product.value.sku == sku
  }

  ghost predicate Claimed(rows: seq<Row>, sku: string) {
    exists i :: 0 <= i < |rows| && ValidWith(rows[i], sku)
  }

  lemma {:induction false} ValidRowsAreWritable(rows: seq<Row>)
    requires forall i :: 0 <= i < |rows| ==> Settled(rows[i])
    ensures forall row :: row in ValidRows(rows) ==> Writable(row)
  {
    if rows != [] {
      ValidRowsAreWritable(rows[..|rows| - 1]);
    }
  }

  lemma {:induction false} ValidSkusAreClaimed(rows: seq<Row>, sku: string)
    requires sku in Skus(ValidRows(rows))
    ensures Claimed(rows, sku)
  {
    if rows != [] {
      var n := |rows| - 1;
      var before := ValidRows(rows[..n]);
      if sku in Skus(before) {
        ValidSkusAreClaimed(rows[..n], sku);
        var i :| 0 <= i < n && ValidWith(rows[..n][i], sku);
        assert ValidWith(rows[i], sku);
      } else {
        assert Skus(ValidRows(rows))[..|before|] == Skus(before);
        assert ValidWith(rows[n], sku);
      }
    }
  }

  // No two of the rows carry the same SKU.
  ghost predicate OneEach(rows: seq<Row>) {
    forall i, j :: 0 <= i < j < |rows| && IsValid(rows[i]) && IsValid(rows[j]) ==>
      rows[i].product.value.sku != rows[j].product.value.sku
  }

  lemma {:induction false} ValidSkusAreDistinct(rows: seq<Row>)
    requires OneEach(rows)
    ensures Distinct(Skus(ValidRows(rows)))
  {
    if rows != [] {
      var n := |rows| - 1;
      ValidSkusAreDistinct(rows[..n]);
      if IsValid(rows[n]) {
        var before, sku := Skus(ValidRows(rows[..n])), rows[n].product.value.sku;
        assert Skus(ValidRows(rows)) == before + [sku];
        if sku in before {
          ValidSkusAreClaimed(rows[..n], sku);
        }
      }
    }
  }

  lemma PlanHasOneEach(lib: Library, table: Table)
    requires lib.Sane()
    ensures OneEach(WithoutDuplicates(MappedRows(lib, table)))
  {
    var before, after := MappedRows(lib, table), WithoutDuplicates(MappedRows(lib, table));
    forall i, j | 0 <= i < j < |after| && IsValid(after[i]) && IsValid(after[j])
      ensures after[i].product.value.sku != after[j].product.value.sku
    {
      PlannedRow(lib, table, i);
      PlannedRow(lib, table, j);
      assert HasSku(before[j], before[j].product.value.sku);
    }
  }

  // The rows that a plan imports have names and pairwise distinct, non-empty SKUs.
  lemma PlanImportsDistinctSkus(lib: Library, table: Table, existing: set<string>)
    requires lib.Sane()
    ensures var rows := ValidRows(PlanOf(lib, table, existing).rows);
      Distinct(Skus(rows)) && forall row :: row in rows ==> Writable(row)
  {
    var rows := WithoutDuplicates(MappedRows(lib, table));
    forall i | 0 <= i < |rows|
      ensures Settled(rows[i])
    {
      PlannedRow(lib, table, i);
    }
    PlanHasOneEach(lib, table);
    ValidSkusAreDistinct(rows);
    ValidRowsAreWritable(rows);
  }

  // A row is refused as a duplicate exactly when another otherwise valid row has its SKU, and is
  // imported exactly when it is otherwise valid and not refused.
  lemma DuplicateIff(lib: Library, table: Table, existing: set<string>, i: nat)
    requires lib.Sane() && i < |table.rows|
    ensures var before, after := MappedRows(lib, table), PlanOf(lib, table, existing).rows;
      && (SkuDuplicate in after[i].codes
          <==> before[i].product.Some?
               && exists j: nat :: j < |before| && j != i && HasSku(before[j], before[i].product.value.sku))
      && (IsValid(after[i]) <==> before[i].product.Some? && SkuDuplicate !in after[i].codes)
  {
    PlannedRow(lib, table, i);
  }
}
