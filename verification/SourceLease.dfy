// The lease on one Google catalogue source: who may write its products, and until when.
// Claimants, heartbeats, product commits, completions, failures, source edits and the clock
// interleave freely; every database transaction is one step.
module SourceLease {
  import opened Options

  type Id = nat
  type Time = nat

  const LEASE_MS: nat := 300_000

  // Unmapped stands for the three statuses before a preview: UPLOADED, MAPPING and MAPPING_REVIEW.
  datatype RunStatus = Unmapped | PreviewReady | Processing | Completed | Failed
  datatype ImportRun = ImportRun(status: RunStatus, sourceSyncVersion: Option<nat>)

  // How far the process behind a lease has come. `lost` is the flag of its heartbeat.
  datatype Phase = Claimed | Writing | Committed | Failing | Done
  datatype Holder = Holder(leaseId: Id, runId: Option<Id>, phase: Phase, lost: bool)

  // `holders` has an entry for every claim ever granted, under the version it was granted;
  // `commits` logs the versions under which products were committed.
  datatype State = State(
    clock: Time, leaseId: Option<Id>, expiresAt: Option<Time>, syncVersion: nat,
    runs: map<Id, ImportRun>, holders: map<nat, Holder>, commits: seq<nat>)

  // The guard of every fenced update: this very lease id, this very version, not yet expired.
  predicate Owns(s: State, version: nat) {
    && version in s.holders
    && s.leaseId == Some(s.holders[version].leaseId)
    && version == s.syncVersion
    && s.expiresAt.Some? && s.clock < s.expiresAt.value
  }

  predicate Free(s: State) {
    s.leaseId.None? || (s.expiresAt.Some? && s.expiresAt.value <= s.clock)
  }

  predicate AtPhase(s: State, version: nat, phase: Phase) {
    version in s.holders && s.holders[version].phase == phase
  }

  function Move(s: State, version: nat, phase: Phase): State
    requires version in s.holders
  {
    s.(holders := s.holders[version := s.holders[version].(phase := phase)])
  }

  function Grant(s: State, newId: Id, runId: Option<Id>): State {
    s.(leaseId := Some(newId), expiresAt := Some(s.clock + LEASE_MS), syncVersion := s.syncVersion + 1,
       holders := s.holders[s.syncVersion + 1 := Holder(newId, runId, Claimed, false)])
  }

  function Unlease(s: State): State {
    s.(leaseId := None, expiresAt := None)
  }

  // ----- The steps -----

  predicate CanConfirm(s: State, runId: Id) {
    && runId in s.runs && s.runs[runId].status == PreviewReady
    && s.runs[runId].sourceSyncVersion == Some(s.syncVersion)
    && Free(s)
  }

  // Confirming a preview: only the version it was made from may be claimed.
  function Confirm(s: State, runId: Id, newId: Id): State {
    if !CanConfirm(s, runId) then s
    else Grant(s, newId, Some(runId)).(
      runs := s.runs[runId := ImportRun(Processing, Some(s.syncVersion + 1))])
  }

  // The worker's own synchronization is one more claimant under the same contract.
  function ClaimSync(s: State, newId: Id): State {
    if Free(s) then Grant(s, newId, None) else s
  }

  // One heartbeat: renews the expiry, or notices that the lease is gone.
  function Renew(s: State, version: nat): State {
    if version !in s.holders || s.holders[version].phase == Done then s
    else if Owns(s, version) then s.(expiresAt := Some(s.clock + LEASE_MS))
    else s.(holders := s.holders[version := s.holders[version].(lost := true)])
  }

  // The product transaction opens: the heartbeat must not have lost the lease, and the source
  // row must still show it.
  function BeginWrite(s: State, version: nat): State {
    if !AtPhase(s, version, Claimed) then s
    else if !s.holders[version].lost && Owns(s, version) then Move(s, version, Writing)
    else Move(s, version, Failing)
  }

  // The fence just before the product transaction commits; a failed fence rolls it back.
  function Commit(s: State, version: nat): State {
    if !AtPhase(s, version, Writing) then s
    else if Owns(s, version) then Move(s, version, Committed).(commits := s.commits + [version])
    else Move(s, version, Failing)
  }

  predicate RunIsOurs(s: State, version: nat)
    requires version in s.holders
  {
    var runId := s.holders[version].runId;
    runId.Some? ==> runId.value in s.runs && s.runs[runId.value] == ImportRun(Processing, Some(version))
  }

  function FinishRun(s: State, version: nat, status: RunStatus): map<Id, ImportRun>
    requires version in s.holders
  {
    var runId := s.holders[version].runId;
    if runId.Some? && RunIsOurs(s, version) then s.runs[runId.value := ImportRun(status, Some(version))] else s.runs
  }

  // Completing: the lease is given up and the run completed together, or neither.
  function Complete(s: State, version: nat): State {
    if !AtPhase(s, version, Committed) then s
    else if s.holders[version].lost || !Owns(s, version) || !RunIsOurs(s, version) then Move(s, version, Failing)
    else Unlease(Move(s, version, Done)).(runs := FinishRun(s, version, Completed))
  }

  function GiveUpLease(s: State, version: nat): State
    requires version in s.holders
  {
    if s.leaseId == Some(s.holders[version].leaseId) && s.syncVersion == version then Unlease(s) else s
  }

  // The failure path, open to an unfinished holder at any time: it fails its own run and clears
  // its own lease, expired or not, but never a successor's.
  function Fail(s: State, version: nat): State {
    if version !in s.holders || s.holders[version].phase == Done then s
    else GiveUpLease(Move(s, version, Done).(runs := FinishRun(s, version, Failed)), version)
  }

  predicate Waiting(status: RunStatus) {
    status == Unmapped || status == PreviewReady
  }

  // The worker attaches a run, with a preview or one that still needs a mapping, to the version it holds,
  // then gives the lease up. It writes the run without looking at the source row.
  function Publish(s: State, version: nat, runId: Id, mapped: bool): State {
    if !AtPhase(s, version, Claimed) || s.holders[version].runId.Some? then s
    else
      var runs := if runId in s.runs && !Waiting(s.runs[runId].status) then s.runs
                  else s.runs[runId := ImportRun(if mapped then PreviewReady else Unmapped, Some(version))];
      GiveUpLease(Move(s, version, Done).(runs := runs), version)
  }

  // Mapping a run again makes it ready for confirmation, at the version it had.
  function Remap(s: State, runId: Id): State {
    if runId in s.runs && Waiting(s.runs[runId].status)
    then s.(runs := s.runs[runId := s.runs[runId].(status := PreviewReady)]) else s
  }

  // Editing the source: refused while a lease is live; leaves an expired lease id in place.
  function Edit(s: State): State {
    if Free(s) then s.(syncVersion := s.syncVersion + 1) else s
  }

  // Lease ids are random, but nothing below needs them to be distinct: the version already fences.
  datatype Step =
    | DoTick(elapsed: nat)
    | DoConfirm(runId: Id, newId: Id)
    | DoClaimSync(newId: Id)
    | DoRenew(version: nat)
    | DoBeginWrite(version: nat)
    | DoCommit(version: nat)
    | DoComplete(version: nat)
    | DoFail(version: nat)
    | DoPublish(version: nat, runId: Id, mapped: bool)
    | DoRemap(runId: Id)
    | DoEdit

  function Apply(s: State, step: Step): State {
    match step
    case DoTick(elapsed) => s.(clock := s.clock + elapsed)
    case DoConfirm(runId, newId) => Confirm(s, runId, newId)
    case DoClaimSync(newId) => ClaimSync(s, newId)
    case DoRenew(version) => Renew(s, version)
    case DoBeginWrite(version) => BeginWrite(s, version)
    case DoCommit(version) => Commit(s, version)
    case DoComplete(version) => Complete(s, version)
    case DoFail(version) => Fail(s, version)
    case DoPublish(version, runId, mapped) => Publish(s, version, runId, mapped)
    case DoRemap(runId) => Remap(s, runId)
    case DoEdit => Edit(s)
  }

  function Run(s: State, steps: seq<Step>): State
    decreases |steps|
  {
    if steps == [] then s else Run(Apply(s, steps[0]), steps[1..])
  }

  // ----- Invariant -----

  ghost predicate VersionsReached(s: State) {
    && (forall v :: v in s.holders ==> v <= s.syncVersion)
    && (forall r :: r in s.runs && s.runs[r].sourceSyncVersion.Some? ==>
          s.runs[r].sourceSyncVersion.value <= s.syncVersion)
  }

  ghost predicate CommitsOrdered(s: State) {
    && (forall i :: 0 <= i < |s.commits| ==>
          s.commits[i] in s.holders && s.holders[s.commits[i]].phase in {Committed, Failing, Done})
    && (forall i, j :: 0 <= i < j < |s.commits| ==> s.commits[i] < s.commits[j])
  }

  ghost predicate CommittedAreLogged(s: State) {
    forall v :: v in s.holders && s.holders[v].phase == Committed ==> v in s.commits
  }

  // A run completed under a claim's version had its products committed under that claim.
  ghost predicate CompletedWereCommitted(s: State) {
    forall r | r in s.runs && s.runs[r].status == Completed && s.runs[r].sourceSyncVersion.Some? ::
      s.runs[r].sourceSyncVersion.value in s.holders ==> s.runs[r].sourceSyncVersion.value in s.commits
  }

  ghost predicate Invariant(s: State) {
    && VersionsReached(s) && CommitsOrdered(s) && CommittedAreLogged(s) && CompletedWereCommitted(s)
    && (s.leaseId.Some? ==> s.expiresAt.Some?)
  }

  lemma ApplyKeepsVersions(s: State, step: Step)
    requires VersionsReached(s)
    ensures VersionsReached(Apply(s, step))
  {
  }

  // A step moves phases only forward: what was committed stays committed, failing or done.
  lemma PhasesMoveOn(s: State, step: Step, version: nat)
    requires VersionsReached(s) && version in s.holders && s.holders[version].phase in {Committed, Failing, Done}
    ensures version in Apply(s, step).holders
    ensures Apply(s, step).holders[version].phase in {Committed, Failing, Done}
  {
  }

  lemma ApplyKeepsCommits(s: State, step: Step)
    requires VersionsReached(s) && CommitsOrdered(s)
    ensures CommitsOrdered(Apply(s, step))
  {
    var after := Apply(s, step);
    CommitOnlyWhileOwned(s, step);
    forall i | 0 <= i < |s.commits|
      ensures after.commits[i] == s.commits[i]
      ensures s.commits[i] in after.holders && after.holders[s.commits[i]].phase in {Committed, Failing, Done}
      ensures after.commits != s.commits ==> s.commits[i] < after.commits[|s.commits|]
    {
      PhasesMoveOn(s, step, s.commits[i]);
    }
  }

  lemma LogStays(s: State, step: Step)
    ensures s.commits <= Apply(s, step).commits
    ensures forall v :: v in s.commits ==> v in Apply(s, step).commits
  {
    var after := Apply(s, step);
    CommitOnlyWhileOwned(s, step);
    forall v | v in s.commits
      ensures v in after.commits
    {
      var i :| 0 <= i < |s.commits| && s.commits[i] == v;
      assert after.commits[i] == v;
    }
  }

  lemma ApplyKeepsLogged(s: State, step: Step)
    requires VersionsReached(s) && CommittedAreLogged(s)
    ensures CommittedAreLogged(Apply(s, step))
  {
    LogStays(s, step);
  }

  lemma ApplyKeepsCompletions(s: State, step: Step)
    requires Invariant(s)
    ensures CompletedWereCommitted(Apply(s, step))
  {
    LogStays(s, step);
  }

  lemma ApplyKeeps(s: State, step: Step)
    requires Invariant(s)
    ensures Invariant(Apply(s, step))
  {
    ApplyKeepsVersions(s, step);
    ApplyKeepsCommits(s, step);
    ApplyKeepsLogged(s, step);
    ApplyKeepsCompletions(s, step);
  }

  // ----- Over one step -----

  // A claim always gets a version that no earlier claim had.
  lemma ClaimsNeverShareAVersion(s: State, step: Step)
    requires Invariant(s)
    ensures var after := Apply(s, step);
      && s.holders.Keys <= after.holders.Keys
      && forall v :: v in after.holders && v !in s.holders ==>
           && v == after.syncVersion == s.syncVersion + 1
           && forall w :: w in s.holders ==> w < v
  {
  }

  // A product commit is logged only by the current, unexpired holder, in its write phase.
  lemma CommitOnlyWhileOwned(s: State, step: Step)
    ensures Apply(s, step).commits == s.commits
         || (step.DoCommit? && Owns(s, step.version) && AtPhase(s, step.version, Writing)
             && Apply(s, step).commits == s.commits + [step.version])
  {
  }

  // Losing a lease is for ever.
  lemma NeverOwnedAgain(s: State, step: Step, version: nat)
    requires Invariant(s) && version in s.holders && !Owns(s, version)
    ensures version in Apply(s, step).holders && !Owns(Apply(s, step), version)
  {
  }

  // ----- Over whole runs -----

  // On every interleaving the versions of logged product commits strictly increase, each belongs
  // to a claim that was granted, and no run of a claim was completed without its commit.
  lemma {:induction false} CommitsAreFenced(s: State, steps: seq<Step>)
    requires Invariant(s)
    ensures Invariant(Run(s, steps))
    decreases |steps|
  {
    if steps != [] {
      ApplyKeeps(s, steps[0]);
      CommitsAreFenced(Apply(s, steps[0]), steps[1..]);
    }
  }

  // The same from a source that never granted a lease, spelled out.
  lemma FencedFromTheStart(s: State, steps: seq<Step>)
    requires s.holders == map[] && s.commits == [] && s.leaseId.None? && VersionsReached(s)
    ensures var after := Run(s, steps);
      && (forall i, j :: 0 <= i < j < |after.commits| ==> after.commits[i] < after.commits[j])
      && (forall i :: 0 <= i < |after.commits| ==> after.commits[i] in after.holders)
      && (forall r | r in after.runs && after.runs[r].status == Completed && after.runs[r].sourceSyncVersion.Some? ::
            after.runs[r].sourceSyncVersion.value in after.holders ==>
            after.runs[r].sourceSyncVersion.value in after.commits)
  {
    assert Invariant(s);
    CommitsAreFenced(s, steps);
  }

  // The version of the source and the logs of claims and commits only grow.
  lemma {:induction false} HistoryGrows(s: State, steps: seq<Step>)
    requires VersionsReached(s)
    ensures var after := Run(s, steps);
      && s.syncVersion <= after.syncVersion
      && s.holders.Keys <= after.holders.Keys
      && s.commits <= after.commits
    decreases |steps|
  {
    if steps != [] {
      ApplyKeepsVersions(s, steps[0]);
      CommitOnlyWhileOwned(s, steps[0]);
      HistoryGrows(Apply(s, steps[0]), steps[1..]);
    }
  }

  // A holder that does not own its lease never owns it again and commits nothing more, whatever
  // happens afterwards: every later commit is by someone else.
  lemma {:induction false} LosersNeverCommit(s: State, steps: seq<Step>, version: nat)
    requires Invariant(s) && version in s.holders && !Owns(s, version)
    ensures var after := Run(s, steps);
      && version in after.holders && !Owns(after, version)
      && |s.commits| <= |after.commits|
      && forall i :: |s.commits| <= i < |after.commits| ==> after.commits[i] != version
    decreases |steps|
  {
    if steps != [] {
      var next := Apply(s, steps[0]);
      ApplyKeeps(s, steps[0]);
      NeverOwnedAgain(s, steps[0], version);
      CommitOnlyWhileOwned(s, steps[0]);
      LosersNeverCommit(next, steps[1..], version);
      HistoryGrows(next, steps[1..]);
    }
  }

  // A run that waits to be mapped or confirmed is stale when the source has moved past the version it was
  // made from.
  predicate Stale(s: State, runId: Id) {
    && runId in s.runs && Waiting(s.runs[runId].status)
    && (s.runs[runId].sourceSyncVersion.None? || s.runs[runId].sourceSyncVersion.value < s.syncVersion)
  }

  predicate Publishes(step: Step, runId: Id) {
    step.DoPublish? && step.runId == runId
  }

  lemma StaleStaysStale(s: State, step: Step, runId: Id)
    requires Stale(s, runId) && !Publishes(step, runId)
    ensures Stale(Apply(s, step), runId)
    ensures Apply(s, step).runs[runId].sourceSyncVersion == s.runs[runId].sourceSyncVersion
  {
  }

  // A preview that has fallen behind is never confirmed: unless the worker publishes it anew, it
  // stays stale on every run, however often it is mapped again.
  lemma {:induction false} StalePreviewIsDead(s: State, steps: seq<Step>, runId: Id)
    requires Stale(s, runId) && forall i :: 0 <= i < |steps| ==> !Publishes(steps[i], runId)
    ensures Stale(Run(s, steps), runId) && !CanConfirm(Run(s, steps), runId)
    decreases |steps|
  {
    if steps != [] {
      StaleStaysStale(s, steps[0], runId);
      StalePreviewIsDead(Apply(s, steps[0]), steps[1..], runId);
    }
  }

  // Every other way of moving past the version of a current preview makes it stale.
  lemma PreviewGoesStale(s: State, step: Step, runId: Id)
    requires runId in s.runs && s.runs[runId] == ImportRun(PreviewReady, Some(s.syncVersion))
    requires Apply(s, step).syncVersion != s.syncVersion && !(step.DoConfirm? && step.runId == runId)
    ensures Stale(Apply(s, step), runId)
  {
  }
}
