// The lease of one source and the products of the catalogue together: the imports of the source commit
// under its lease, while other sources import what they like.
module LeasedImports {
  import opened Options
  import opened CatalogueRows
  import opened CataloguePlans
  import opened CatalogueUpserts
  import Lease = SourceLease

  // A committed import, with the version of the lease it was committed under; those of other sources
  // have none here.
  datatype Entry = Entry(version: Option<nat>, imported: Import)

  datatype Shop = Shop(source: Id, lease: Lease.State, products: Products, log: seq<Entry>)

  datatype Step =
    // Claims, heartbeats, failures, edits and so on: everything about the lease but a commit.
    | AboutLease(step: Lease.Step)
    // The product transaction of the holder of a version reaches its end, with this table.
    | ImportUnderLease(version: nat, table: Table)
    // Some other source imports a table.
    | ImportElsewhere(imported: Import)

  // What the holder's product transaction found when it opened, and finds at its fence.
  function Checks(s: Shop, version: nat): LeaseChecks {
    LeaseChecks(Lease.AtPhase(s.lease, version, Lease.Writing), Lease.Owns(s.lease, version))
  }

  function LeasedImport(s: Shop, version: nat, table: Table): Import {
    Import(table, FenceCrossSource, Some(Checks(s, version)))
  }

  ghost function Committing(lib: Library, s: Shop, i: Import): Outcome {
    ImportOutcome(lib, s.products, i.table, i.policy, i.lease)
  }

  ghost function Logged(lib: Library, s: Shop, version: Option<nat>, i: Import): Shop {
    if Committing(lib, s, i) == Imported
    then s.(products := AfterImport(lib, s.products, i.table, i.policy, i.lease), log := s.log + [Entry(version, i)])
    else s
  }

  // A foreign SKU, like a lost lease, rolls the transaction back and leaves the holder to fail.
  ghost function AfterFence(s: Shop, version: nat, outcome: Outcome): Lease.State {
    if !Lease.AtPhase(s.lease, version, Lease.Writing) then s.lease
    else if outcome == ForeignSku then Lease.Move(s.lease, version, Lease.Failing)
    else Lease.Commit(s.lease, version)
  }

  ghost function Apply(lib: Library, s: Shop, step: Step): Shop {
    match step
    case AboutLease(l) => if l.DoCommit? then s else s.(lease := Lease.Apply(s.lease, l))
    case ImportUnderLease(version, table) =>
      if table.source != s.source then s
      else
        var i := LeasedImport(s, version, table);
        Logged(lib, s, Some(version), i).(lease := AfterFence(s, version, Committing(lib, s, i)))
    case ImportElsewhere(i) => if i.table.source == s.source then s else Logged(lib, s, None, i)
  }

  ghost function Run(lib: Library, s: Shop, steps: seq<Step>): Shop {
    if steps == [] then s else Apply(lib, Run(lib, s, steps[..|steps| - 1]), steps[|steps| - 1])
  }

  // ----- The log -----

  function Imports(log: seq<Entry>): seq<Import> {
    if log == [] then [] else Imports(log[..|log| - 1]) + [log[|log| - 1].imported]
  }

  // The versions of the leased imports, in the order in which they were committed.
  function Versions(log: seq<Entry>): seq<nat> {
    if log == [] then []
    else
      var last := log[|log| - 1];
      Versions(log[..|log| - 1]) + if last.version.Some? then [last.version.value] else []
  }

  lemma OneMoreEntry(log: seq<Entry>, e: Entry)
    ensures Imports(log + [e]) == Imports(log) + [e.imported]
    ensures Versions(log + [e]) == Versions(log) + if e.version.Some? then [e.version.value] else []
  {
    assert (log + [e])[..|log|] == log;
  }

  ghost predicate Invariant(lib: Library, start: Products, s: Shop) {
    && Lease.Invariant(s.lease)
    && Versions(s.log) == s.lease.commits
    && s.products == RunImports(lib, start, Imports(s.log))
  }

  // ----- What every step keeps -----

  lemma RunsOneMore(lib: Library, start: Products, imports: seq<Import>, i: Import)
    ensures RunImports(lib, start, imports + [i])
         == AfterImport(lib, RunImports(lib, start, imports), i.table, i.policy, i.lease)
  {
    var more := imports + [i];
    assert more[..|more| - 1] == imports;
  }

  lemma ReplaysOneMore(lib: Library, start: Products, s: Shop, version: Option<nat>, i: Import)
    requires s.products == RunImports(lib, start, Imports(s.log))
    ensures Logged(lib, s, version, i).products == RunImports(lib, start, Imports(Logged(lib, s, version, i).log))
    ensures Versions(Logged(lib, s, version, i).log)
         == if Committing(lib, s, i) == Imported && version.Some? then Versions(s.log) + [version.value]
            else Versions(s.log)
    ensures Logged(lib, s, version, i).lease == s.lease
  {
    if Committing(lib, s, i) == Imported {
      OneMoreEntry(s.log, Entry(version, i));
      RunsOneMore(lib, start, Imports(s.log), i);
      assert version.None? ==> Versions(s.log) + [] == Versions(s.log);
    }
  }

  lemma FailingKeeps(s: Lease.State, version: nat)
    requires Lease.Invariant(s) && Lease.AtPhase(s, version, Lease.Writing)
    ensures Lease.Invariant(Lease.Move(s, version, Lease.Failing))
  {
  }

  // The transaction commits its products exactly when the lease machine logs the commit.
  lemma CommitsTogether(lib: Library, s: Shop, version: nat, table: Table)
    requires Lease.Invariant(s.lease)
    ensures var outcome := Committing(lib, s, LeasedImport(s, version, table));
      && Lease.Invariant(AfterFence(s, version, outcome))
      && AfterFence(s, version, outcome).commits
         == if outcome == Imported then s.lease.commits + [version] else s.lease.commits
  {
    if Lease.AtPhase(s.lease, version, Lease.Writing) {
      Lease.ApplyKeeps(s.lease, Lease.DoCommit(version));
      FailingKeeps(s.lease, version);
    }
  }

  lemma LeaseStepLogsNothing(s: Lease.State, step: Lease.Step)
    requires !step.DoCommit?
    ensures Lease.Apply(s, step).commits == s.commits
  {
    Lease.CommitOnlyWhileOwned(s, step);
  }

  lemma LeaseStepKeeps(lib: Library, start: Products, s: Shop, step: Lease.Step)
    requires Invariant(lib, start, s)
    ensures Invariant(lib, start, Apply(lib, s, AboutLease(step)))
  {
    Lease.ApplyKeeps(s.lease, step);
    if !step.DoCommit? {
      LeaseStepLogsNothing(s.lease, step);
    }
  }

  lemma LeasedImportKeeps(lib: Library, start: Products, s: Shop, version: nat, table: Table)
    requires Invariant(lib, start, s)
    ensures Invariant(lib, start, Apply(lib, s, ImportUnderLease(version, table)))
  {
    CommitsTogether(lib, s, version, table);
    ReplaysOneMore(lib, start, s, Some(version), LeasedImport(s, version, table));
  }

  lemma ImportElsewhereKeeps(lib: Library, start: Products, s: Shop, i: Import)
    requires Invariant(lib, start, s)
    ensures Invariant(lib, start, Apply(lib, s, ImportElsewhere(i)))
  {
    if i.table.source != s.source {
      ReplaysOneMore(lib, start, s, None, i);
    }
  }

  lemma ApplyKeeps(lib: Library, start: Products, s: Shop, step: Step)
    requires Invariant(lib, start, s)
    ensures Invariant(lib, start, Apply(lib, s, step))
  {
    match step
    case AboutLease(l) => LeaseStepKeeps(lib, start, s, l);
    case ImportUnderLease(version, table) => LeasedImportKeeps(lib, start, s, version, table);
    case ImportElsewhere(i) => ImportElsewhereKeeps(lib, start, s, i);
  }

  lemma {:induction false} RunKeeps(lib: Library, start: Products, s: Shop, steps: seq<Step>)
    requires Invariant(lib, start, s)
    ensures Invariant(lib, start, Run(lib, s, steps))
  {
    if steps != [] {
      RunKeeps(lib, start, s, steps[..|steps| - 1]);
      ApplyKeeps(lib, start, Run(lib, s, steps[..|steps| - 1]), steps[|steps| - 1]);
    }
  }

  // ----- Over whole runs -----

  ghost predicate Starts(s: Shop) {
    && s.log == [] && s.lease.holders == map[] && s.lease.commits == [] && s.lease.leaseId.None?
    && Lease.VersionsReached(s.lease)
  }

  // On every interleaving the products are what the committed imports make of the first ones, one after
  // the other, and the imports of the source among them are those that the lease machine committed, in
  // strictly increasing order of version.
  lemma ProductsFollowTheVersions(lib: Library, s: Shop, steps: seq<Step>)
    requires Starts(s)
    ensures var after := Run(lib, s, steps);
      && after.products == RunImports(lib, s.products, Imports(after.log))
      && Versions(after.log) == after.lease.commits
      && (forall i, j :: 0 <= i < j < |Versions(after.log)| ==> Versions(after.log)[i] < Versions(after.log)[j])
  {
    RunKeeps(lib, s.products, s, steps);
  }

  // Entries are committed imports and nothing else: under the lease only tables of the source, and
  // otherwise none of its.
  ghost predicate OwnUnderLease(s: Shop) {
    forall i :: 0 <= i < |s.log| ==> (s.log[i].version.Some? <==> s.log[i].imported.table.source == s.source)
  }

  lemma {:induction false} SourceImportsOnlyUnderLease(lib: Library, s: Shop, steps: seq<Step>)
    requires OwnUnderLease(s)
    ensures OwnUnderLease(Run(lib, s, steps)) && Run(lib, s, steps).source == s.source
  {
    if steps != [] {
      SourceImportsOnlyUnderLease(lib, s, steps[..|steps| - 1]);
    }
  }

  // A holder that does not own its lease changes no product, now or later.
  lemma {:induction false} LoserWritesNothing(lib: Library, start: Products, s: Shop, steps: seq<Step>, version: nat, table: Table)
    requires Invariant(lib, start, s) && version in s.lease.holders && !Lease.Owns(s.lease, version)
    ensures var after := Run(lib, s, steps);
      && version in after.lease.holders && !Lease.Owns(after.lease, version)
      && Apply(lib, after, ImportUnderLease(version, table)).products == after.products
  {
    if steps != [] {
      var front, step := steps[..|steps| - 1], steps[|steps| - 1];
      var before := Run(lib, s, front);
      LoserWritesNothing(lib, start, s, front, version, table);
      RunKeeps(lib, start, s, front);
      NeverOwnedAgain(lib, before, step, version);
    }
  }

  lemma NeverOwnedAgain(lib: Library, s: Shop, step: Step, version: nat)
    requires Lease.Invariant(s.lease) && version in s.lease.holders && !Lease.Owns(s.lease, version)
    ensures version in Apply(lib, s, step).lease.holders && !Lease.Owns(Apply(lib, s, step).lease, version)
  {
    match step
    case AboutLease(l) => Lease.NeverOwnedAgain(s.lease, l, version);
    case ImportUnderLease(v, _) => Lease.NeverOwnedAgain(s.lease, Lease.DoCommit(v), version);
    case ImportElsewhere(_) =>
  }
}
