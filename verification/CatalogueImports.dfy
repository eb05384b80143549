// The catalogue import service over one source row: each method is one transaction, written as
// the guarded updates it performs.
module CatalogueImports {
  import opened Options
  import opened SourceLease

  datatype Claim = Granted(version: nat) | AlreadyCompleted | NotFound | CannotConfirm | SourceChanged

  class Service {
    var clock: Time
    var syncLeaseId: Option<Id>
    var syncLeaseExpiresAt: Option<Time>
    var syncVersion: nat
    var runs: map<Id, ImportRun>
    // The processes that were granted a lease, by the version they hold.
    var holders: map<nat, Holder>
    ghost var commits: seq<nat>

    ghost function State(): State
      reads this
    {
      SourceLease.State(clock, syncLeaseId, syncLeaseExpiresAt, syncVersion, runs, holders, commits)
    }

    constructor (clock: Time, syncVersion: nat, runs: map<Id, ImportRun>)
      ensures State() == SourceLease.State(clock, None, None, syncVersion, runs, map[], [])
    {
      this.clock, this.syncVersion, this.runs := clock, syncVersion, runs;
      syncLeaseId, syncLeaseExpiresAt, holders, commits := None, None, map[], [];
    }

    method Wait(elapsed: nat)
      modifies this`clock
      ensures State() == Apply(old(State()), DoTick(elapsed))
    {
      clock := clock + elapsed;
    }

    // UPDATE catalogue_sources SET lease, version + 1 WHERE version matches AND the lease is free
    method ClaimSource(expected: nat, newId: Id, runId: Option<Id>) returns (count: nat)
      modifies this`syncLeaseId, this`syncLeaseExpiresAt, this`syncVersion, this`holders
      ensures count == if old(Free(State())) && old(syncVersion) == expected then 1 else 0
      ensures State() == if count == 1 then Grant(old(State()), newId, runId) else old(State())
    {
      var now := clock;
      if syncVersion == expected
         && (syncLeaseId.None? || (syncLeaseExpiresAt.Some? && syncLeaseExpiresAt.value <= now)) {
        syncLeaseId, syncLeaseExpiresAt := Some(newId), Some(now + LEASE_MS);
        syncVersion := syncVersion + 1;
        holders := holders[syncVersion := Holder(newId, runId, Claimed, false)];
        count := 1;
      } else {
        count := 0;
      }
    }

    method ClaimConfirmation(runId: Id, newId: Id) returns (claim: Claim)
      modifies this
      ensures State() == Confirm(old(State()), runId, newId)
      ensures claim.Granted? <==> old(CanConfirm(State(), runId))
      ensures claim.Granted? ==> claim.version == old(syncVersion) + 1 == syncVersion
      ensures claim == AlreadyCompleted <==> runId in runs && runs[runId].status == Completed
      ensures claim == NotFound <==> runId !in runs
    {
      if runId !in runs {
        return NotFound;
      }
      var run := runs[runId];
      if run.status == Completed {
        return AlreadyCompleted;
      }
      if run.status != PreviewReady {
        return CannotConfirm;
      }
      if run.sourceSyncVersion.None? || run.sourceSyncVersion.value != syncVersion {
        return SourceChanged;
      }
      var version := run.sourceSyncVersion.value + 1;
      var claimed := ClaimSource(run.sourceSyncVersion.value, newId, Some(runId));
      if claimed != 1 {
        return SourceChanged;
      }
      runs := runs[runId := ImportRun(Processing, Some(version))];
      claim := Granted(version);
    }

    method ClaimSynchronization(newId: Id) returns (claim: Claim)
      modifies this
      ensures State() == ClaimSync(old(State()), newId)
      ensures claim.Granted? <==> old(Free(State()))
      ensures claim.Granted? ==> claim.version == syncVersion == old(syncVersion) + 1
    {
      var read := syncVersion;
      var claimed := ClaimSource(read, newId, None);
      claim := if claimed == 1 then Granted(read + 1) else CannotConfirm;
    }

    // The WHERE clause every fenced update repeats.
    predicate Matches(version: nat)
      requires version in holders
      reads this
    {
      && syncLeaseId == Some(holders[version].leaseId) && syncVersion == version
      && syncLeaseExpiresAt.Some? && syncLeaseExpiresAt.value > clock
    }

    method Heartbeat(version: nat)
      requires version in holders && holders[version].phase != Done
      modifies this`syncLeaseExpiresAt, this`holders
      ensures State() == Renew(old(State()), version)
      ensures old(Matches(version)) ==> syncLeaseExpiresAt == Some(clock + LEASE_MS) && holders == old(holders)
      ensures old(!Matches(version)) ==>
        syncLeaseExpiresAt == old(syncLeaseExpiresAt) && version in holders && holders[version].lost
    {
      var now := clock;
      if Matches(version) {
        syncLeaseExpiresAt := Some(now + LEASE_MS);
      } else {
        holders := holders[version := holders[version].(lost := true)];
      }
    }

    method SetPhase(version: nat, phase: Phase)
      requires version in holders
      modifies this`holders
      ensures State() == Move(old(State()), version, phase)
    {
      holders := holders[version := holders[version].(phase := phase)];
    }

    // heartbeat.assertOwned, then the lease assertion that opens the product transaction
    method OpenProductTransaction(version: nat) returns (ok: bool)
      requires AtPhase(State(), version, Claimed)
      modifies this`holders
      ensures State() == BeginWrite(old(State()), version)
      ensures ok <==> AtPhase(State(), version, Writing)
      ensures ok <==> old(!holders[version].lost && Matches(version))
    {
      ok := !holders[version].lost && Matches(version);
      SetPhase(version, if ok then Writing else Failing);
    }

    // The final fence: a no-op update of the source row that must touch exactly one row.
    method CommitProducts(version: nat) returns (ok: bool)
      requires AtPhase(State(), version, Writing)
      modifies this`holders, this`commits
      ensures State() == Commit(old(State()), version)
      ensures ok <==> AtPhase(State(), version, Committed)
      ensures ok <==> old(Matches(version))
      ensures commits == if ok then old(commits) + [version] else old(commits)
    {
      ok := Matches(version);
      if ok {
        SetPhase(version, Committed);
        commits := commits + [version];
      } else {
        SetPhase(version, Failing);
      }
    }

    method CompleteConfirmation(version: nat) returns (ok: bool)
      requires AtPhase(State(), version, Committed)
      modifies this
      ensures State() == Complete(old(State()), version)
      ensures ok <==> AtPhase(State(), version, Done)
      ensures ok ==> old(Matches(version)) && syncLeaseId.None? && syncLeaseExpiresAt.None?
      ensures ok && old(holders[version].runId).Some? ==>
        var runId := old(holders[version].runId).value;
        && runId in old(runs) && old(runs)[runId] == ImportRun(Processing, Some(version))
        && runs == old(runs)[runId := ImportRun(Completed, Some(version))]
      ensures !ok ==>
        runs == old(runs) && syncLeaseId == old(syncLeaseId) && syncLeaseExpiresAt == old(syncLeaseExpiresAt)
      ensures syncVersion == old(syncVersion) && commits == old(commits)
    {
      ok := false;
      var runId := holders[version].runId;
      if holders[version].lost || !Matches(version) {
        SetPhase(version, Failing);
        return;
      }
      if runId.Some? {
        if runId.value !in runs || runs[runId.value] != ImportRun(Processing, Some(version)) {
          SetPhase(version, Failing);
          return;
        }
        runs := runs[runId.value := ImportRun(Completed, Some(version))];
      }
      syncLeaseId, syncLeaseExpiresAt := None, None;
      SetPhase(version, Done);
      ok := true;
    }

    // The catch block of a confirmation.
    method FailConfirmation(version: nat)
      requires version in holders && holders[version].phase != Done
      modifies this
      ensures State() == Fail(old(State()), version)
      // A successor has another version: its lease is left alone, and so are all runs but this one.
      ensures syncVersion == old(syncVersion) && commits == old(commits)
      ensures syncVersion != version ==>
        syncLeaseId == old(syncLeaseId) && syncLeaseExpiresAt == old(syncLeaseExpiresAt)
      ensures syncVersion == version && old(syncLeaseId) == Some(old(holders)[version].leaseId) ==>
        syncLeaseId.None? && syncLeaseExpiresAt.None?
      ensures forall r: Id :: Some(r) != old(holders)[version].runId ==> Lookup(runs, r) == Lookup(old(runs), r)
      ensures forall r: Id :: r in runs && runs[r] != ImportRun(Failed, Some(version)) ==> Lookup(old(runs), r) == Some(runs[r])
    {
      var runId := holders[version].runId;
      if runId.Some? && runId.value in runs && runs[runId.value] == ImportRun(Processing, Some(version)) {
        runs := runs[runId.value := ImportRun(Failed, Some(version))];
      }
      if syncLeaseId == Some(holders[version].leaseId) && syncVersion == version {
        syncLeaseId, syncLeaseExpiresAt := None, None;
      }
      SetPhase(version, Done);
    }

    method PublishPreview(version: nat, runId: Id, mapped: bool)
      requires AtPhase(State(), version, Claimed) && holders[version].runId.None?
      modifies this
      ensures State() == Publish(old(State()), version, runId, mapped)
      ensures syncVersion == old(syncVersion)
      ensures syncVersion != version ==>
        syncLeaseId == old(syncLeaseId) && syncLeaseExpiresAt == old(syncLeaseExpiresAt)
    {
      if runId !in runs || Waiting(runs[runId].status) {
        runs := runs[runId := ImportRun(if mapped then PreviewReady else Unmapped, Some(version))];
      }
      if syncLeaseId == Some(holders[version].leaseId) && syncVersion == version {
        syncLeaseId, syncLeaseExpiresAt := None, None;
      }
      SetPhase(version, Done);
    }

    // The mapping transaction of updateMapping.
    method UpdateMapping(runId: Id) returns (ok: bool)
      modifies this`runs
      ensures State() == Remap(old(State()), runId)
      ensures ok <==> old(runId in runs && Waiting(runs[runId].status))
      ensures ok ==> runId in runs && runs[runId] == ImportRun(PreviewReady, old(runs)[runId].sourceSyncVersion)
    {
      ok := runId in runs && (runs[runId].status == Unmapped || runs[runId].status == PreviewReady);
      if ok {
        runs := runs[runId := runs[runId].(status := PreviewReady)];
      }
    }

    // CatalogueSourcesService.update
    method UpdateSource() returns (updated: bool)
      modifies this`syncVersion
      ensures State() == Edit(old(State()))
      ensures updated <==> old(Free(State()))
      ensures syncVersion == old(syncVersion) + if updated then 1 else 0
    {
      var now := clock;
      updated := syncLeaseId.None? || (syncLeaseExpiresAt.Some? && syncLeaseExpiresAt.value <= now);
      if updated {
        syncVersion := syncVersion + 1;
      }
    }
  }
}
