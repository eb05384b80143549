// What holds of a lead's notification over whole runs.
module LeadNotificationRuns {
  import opened Options
  import opened LeadNotifications

  ghost predicate FreshRun(s: State, steps: seq<Step>)
    requires Invariant(s)
    decreases |steps|
  {
    steps == [] || (
      Fresh(s, steps[0]) && (ApplyKeeps(s, steps[0]); FreshRun(Apply(s, steps[0]), steps[1..])))
  }

  ghost function Run(s: State, steps: seq<Step>): State
    requires Invariant(s) && FreshRun(s, steps)
    decreases |steps|
  {
    if steps == [] then s
    else
      ApplyKeeps(s, steps[0]);
      Run(Apply(s, steps[0]), steps[1..])
  }

  // Attempts stay within 0 to 4, a sent lead holds no lease, a leased lead has a due time and at
  // least one attempt, and the last attempt never ends in a waiting state, on every run.
  lemma {:induction false} RunKeeps(s: State, steps: seq<Step>)
    requires Invariant(s) && FreshRun(s, steps)
    ensures Invariant(Run(s, steps))
    decreases |steps|
  {
    if steps != [] {
      ApplyKeeps(s, steps[0]);
      RunKeeps(Apply(s, steps[0]), steps[1..]);
    }
  }

  // ----- Sent is final -----

  predicate Recreates(step: Step, id: Id) {
    step.DoCreate? && step.id == id
  }

  lemma {:induction false} SentIsFinal(s: State, steps: seq<Step>, id: Id)
    requires Invariant(s) && FreshRun(s, steps) && id in s.leads && s.leads[id].status == Sent
    requires forall i :: 0 <= i < |steps| ==> !Recreates(steps[i], id)
    ensures id in Run(s, steps).leads ==> Run(s, steps).leads[id] == s.leads[id]
    decreases |steps|
  {
    if steps != [] {
      var next := Apply(s, steps[0]);
      ApplyKeeps(s, steps[0]);
      if id in next.leads {
        SentIsFinal(next, steps[1..], id);
      } else {
        GoneIsGone(next, steps[1..], id);
      }
    }
  }

  lemma {:induction false} GoneIsGone(s: State, steps: seq<Step>, id: Id)
    requires Invariant(s) && FreshRun(s, steps) && id !in s.leads
    requires forall i :: 0 <= i < |steps| ==> !Recreates(steps[i], id)
    ensures id !in Run(s, steps).leads
    decreases |steps|
  {
    if steps != [] {
      ApplyKeeps(s, steps[0]);
      GoneIsGone(Apply(s, steps[0]), steps[1..], id);
    }
  }

  // ----- Progress -----

  // The moment from which something can be done about an unsent lead that has a due time.
  function WakesAt(l: Lead): Time
    requires l.nextAttemptAt.Some?
  {
    var due := if l.attempts < MAX_ATTEMPTS then l.nextAttemptAt.value else 0;
    if l.leaseExpiresAt.Some? && l.leaseExpiresAt.value > due then l.leaseExpiresAt.value else due
  }

  // No lead is stuck: in every reachable state an unsent lead with a due time can be claimed or
  // finalized exactly from its wake time on, whatever else waits.
  lemma NeverStuck(s: State, id: Id, now: Time)
    requires Invariant(s) && id in s.leads && Unsent(s.leads[id]) && s.leads[id].nextAttemptAt.Some?
    ensures Claimable(s.leads[id], now) || Finalizable(s.leads[id], now) <==> now >= WakesAt(s.leads[id])
    ensures !(Claimable(s.leads[id], now) && Finalizable(s.leads[id], now))
  {
    assert LeadOk(s.leads[id]);
  }

  // ----- Bounded work between requeues -----

  // What is left to happen to a lead before it is sent or given up.
  function Rank(l: Lead): int {
    if l.nextAttemptAt.None? then 0
    else 2 * (MAX_ATTEMPTS - l.attempts) + if l.leaseId.Some? then 1 else 0
  }

  predicate Resets(step: Step, id: Id) {
    (step.DoRequeue? || step.DoCreate?) && step.id == id
  }

  // A step that changes the notification state of the lead.
  ghost predicate Moves(s: State, step: Step, id: Id)
    requires Invariant(s)
  {
    id in s.leads && id in Apply(s, step).leads && Apply(s, step).leads[id] != s.leads[id]
  }

  lemma EveryMoveCounts(s: State, step: Step, id: Id)
    requires Invariant(s) && Fresh(s, step) && Moves(s, step, id) && !Resets(step, id)
    ensures 0 <= Rank(Apply(s, step).leads[id]) < Rank(s.leads[id]) <= 8
  {
    ApplyKeeps(s, step);
    assert LeadOk(s.leads[id]);
    assert LeadOk(Apply(s, step).leads[id]);
  }

  ghost function CountMoves(s: State, steps: seq<Step>, id: Id): nat
    requires Invariant(s) && FreshRun(s, steps)
    decreases |steps|
  {
    if steps == [] then 0
    else
      ApplyKeeps(s, steps[0]);
      (if Moves(s, steps[0], id) then 1 else 0) + CountMoves(Apply(s, steps[0]), steps[1..], id)
  }

  ghost predicate Claims(s: State, step: Step, id: Id)
    requires Invariant(s)
  {
    step.DoClaim? && step.id == id && id in s.leads && Claimable(s.leads[id], s.clock)
  }

  ghost function CountClaims(s: State, steps: seq<Step>, id: Id): nat
    requires Invariant(s) && FreshRun(s, steps)
    decreases |steps|
  {
    if steps == [] then 0
    else
      ApplyKeeps(s, steps[0]);
      (if Claims(s, steps[0], id) then 1 else 0) + CountClaims(Apply(s, steps[0]), steps[1..], id)
  }

  function RankOf(s: State, id: Id): int {
    if id in s.leads then Rank(s.leads[id]) else 0
  }

  // Between requeues a lead changes at most eight times, however many steps the run takes.
  lemma {:induction false} WorkIsBounded(s: State, steps: seq<Step>, id: Id)
    requires Invariant(s) && FreshRun(s, steps)
    requires forall i :: 0 <= i < |steps| ==> !Resets(steps[i], id)
    ensures CountMoves(s, steps, id) <= RankOf(s, id) <= 8
    decreases |steps|
  {
    RankIsSmall(s, id);
    if steps != [] {
      var next := Apply(s, steps[0]);
      ApplyKeeps(s, steps[0]);
      if Moves(s, steps[0], id) {
        EveryMoveCounts(s, steps[0], id);
      }
      WorkIsBounded(next, steps[1..], id);
    }
  }

  lemma RankIsSmall(s: State, id: Id)
    requires Invariant(s)
    ensures 0 <= RankOf(s, id) <= 8
  {
    if id in s.leads {
      assert LeadOk(s.leads[id]);
    }
  }

  function AttemptsLeft(s: State, id: Id): int {
    if id in s.leads then MAX_ATTEMPTS - s.leads[id].attempts else 0
  }

  lemma ClaimUsesAnAttempt(s: State, step: Step, id: Id)
    requires Invariant(s) && Fresh(s, step) && !Resets(step, id)
    ensures 0 <= AttemptsLeft(Apply(s, step), id) + (if Claims(s, step, id) then 1 else 0) <= AttemptsLeft(s, id) <= 4
  {
    ApplyKeeps(s, step);
    if id in s.leads {
      assert LeadOk(s.leads[id]);
    }
    if id in Apply(s, step).leads {
      assert LeadOk(Apply(s, step).leads[id]);
    }
  }

  // Between requeues a lead is claimed at most as often as it has attempts left: four times at most.
  lemma {:induction false} ClaimsAreBounded(s: State, steps: seq<Step>, id: Id)
    requires Invariant(s) && FreshRun(s, steps)
    requires forall i :: 0 <= i < |steps| ==> !Resets(steps[i], id)
    ensures CountClaims(s, steps, id) <= AttemptsLeft(s, id) <= 4
    decreases |steps|
  {
    ClaimUsesAnAttempt(s, DoTick(0), id);
    if steps != [] {
      ApplyKeeps(s, steps[0]);
      ClaimUsesAnAttempt(s, steps[0], id);
      ClaimsAreBounded(Apply(s, steps[0]), steps[1..], id);
    }
  }

  // ----- Superseded holders -----

  // The lease is not, or no longer, the lead's.
  ghost predicate Superseded(s: State, id: Id, lease: Id) {
    lease in s.usedLeases && (id in s.leads ==> s.leads[id].leaseId != Some(lease))
  }

  lemma SupersededStays(s: State, step: Step, id: Id, lease: Id)
    requires Invariant(s) && Fresh(s, step) && Superseded(s, id, lease)
    ensures Superseded(Apply(s, step), id, lease)
  {
  }

  // The two reports a lease holder can make about a lead.
  predicate ReportsOn(step: Step, id: Id, lease: Id) {
    (step.DoMarkSent? || step.DoWriteFailure?) && step.id == id && step.lease == lease
  }

  // Once another claim, a failure report or a finalization has taken the lease away, its holder
  // can neither mark the lead sent nor mark it failed, on any continuation.
  lemma {:induction false} SupersededNeverReports(s: State, steps: seq<Step>, id: Id, lease: Id)
    requires Invariant(s) && FreshRun(s, steps) && Superseded(s, id, lease)
    ensures Invariant(Run(s, steps)) && Superseded(Run(s, steps), id, lease)
    ensures forall step :: ReportsOn(step, id, lease) ==> Apply(Run(s, steps), step).leads == Run(s, steps).leads
    decreases |steps|
  {
    if steps != [] {
      ApplyKeeps(s, steps[0]);
      SupersededStays(s, steps[0], id, lease);
      SupersededNeverReports(Apply(s, steps[0]), steps[1..], id, lease);
    }
  }

  // A later claim supersedes every earlier lease of the lead.
  lemma ClaimSupersedes(s: State, id: Id, newLease: Id, lease: Id)
    requires Invariant(s) && newLease !in s.usedLeases && lease in s.usedLeases
    requires id in s.leads && Claimable(s.leads[id], s.clock)
    ensures Superseded(Apply(s, DoClaim(id, newLease)), id, lease)
  {
  }

  // ----- The claim as one step -----

  // Whoever holds the lead under this lease does so at this attempt.
  ghost predicate ClaimedAs(s: State, id: Id, lease: Id, attempt: int) {
    lease in s.usedLeases && (ClaimedAttempt(s, id, lease).Some? ==> ClaimedAttempt(s, id, lease) == Some(attempt))
  }

  lemma ClaimedStays(s: State, step: Step, id: Id, lease: Id, attempt: int)
    requires Invariant(s) && Fresh(s, step) && ClaimedAs(s, id, lease, attempt)
    ensures ClaimedAs(Apply(s, step), id, lease, attempt)
  {
  }

  lemma {:induction false} ClaimedStaysOn(s: State, steps: seq<Step>, id: Id, lease: Id, attempt: int)
    requires Invariant(s) && FreshRun(s, steps) && ClaimedAs(s, id, lease, attempt)
    ensures ClaimedAs(Run(s, steps), id, lease, attempt)
    decreases |steps|
  {
    if steps != [] {
      ApplyKeeps(s, steps[0]);
      ClaimedStays(s, steps[0], id, lease, attempt);
      ClaimedStaysOn(Apply(s, steps[0]), steps[1..], id, lease, attempt);
    }
  }

  // Whatever happens between its update and its read, a claim reads the attempt that its update made,
  // or, once its lease is gone, nothing.
  lemma ClaimReadsItsAttempt(s: State, id: Id, newLease: Id, steps: seq<Step>)
    requires Invariant(s) && newLease !in s.usedLeases && id in s.leads && Claimable(s.leads[id], s.clock)
    requires Invariant(Apply(s, DoClaim(id, newLease))) && FreshRun(Apply(s, DoClaim(id, newLease)), steps)
    ensures var after := Run(Apply(s, DoClaim(id, newLease)), steps);
      && Invariant(after)
      && ClaimedAttempt(after, id, newLease)
         == if Superseded(after, id, newLease) then None else Some(s.leads[id].attempts + 1)
  {
    var claimed := Apply(s, DoClaim(id, newLease));
    ClaimedStaysOn(claimed, steps, id, newLease, s.leads[id].attempts + 1);
    RunKeeps(claimed, steps);
  }

  // ----- The failure report as one step -----

  // What a failure report would do if it read and wrote at once.
  function MarkFailedAtOnce(l: Lead, lease: Id, code: FailureCode, terminal: bool, at: Time): Lead
    requires HeldBy(l, lease) ==> l.attempts >= 1
  {
    if HeldBy(l, lease) then MarkedFailed(l, DueAt(l.attempts, terminal, at), code) else l
  }

  // Whatever happened between the two halves of a failure report, its write does to the lead
  // exactly what one atomic report would do: the attempt count it read is still the current one.
  lemma ReportActsAtOnce(s: State, id: Id, lease: Id, code: FailureCode, terminal: bool, at: Time)
    requires Invariant(s) && Reported(s, id, lease, at) && id in s.leads
    ensures HeldBy(s.leads[id], lease) ==>
      s.leads[id].attempts >= 1 && s.leads[id].attempts == s.readings[lease].attempts
    ensures Apply(s, DoWriteFailure(id, lease, code, terminal, at)).leads
         == s.leads[id := MarkFailedAtOnce(s.leads[id], lease, code, terminal, at)]
  {
    assert ReadingOk(s, s.readings[lease], lease);
    assert s.leads[id := s.leads[id]] == s.leads;
  }

  // ----- Deletion -----

  // A lead under a live lease is never deleted.
  lemma LiveLeaseIsNeverDeleted(s: State, step: Step, id: Id)
    requires Invariant(s) && id in s.leads
    requires s.leads[id].leaseId.Some? && s.leads[id].leaseExpiresAt.Some?
    requires s.leads[id].leaseExpiresAt.value > s.clock
    ensures id in Apply(s, step).leads
  {
  }
}
