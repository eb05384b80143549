// Delivering the notification of a demo lead: bounded retries under a lease, with a failure
// report that reads and writes in two separate steps.
module LeadNotifications {
  import opened Options

  type Id = nat
  type Time = nat

  const LEASE_MS: nat := 120_000
  const MAX_ATTEMPTS: nat := 4

  datatype Status = Pending | Sent | Failed
  datatype FailureCode = DeliveryFailed | RecipientRejected | NotConfigured | DeliveryUnknown

  datatype Lead = Lead(
    status: Status, attempts: int, nextAttemptAt: Option<Time>,
    leaseId: Option<Id>, leaseExpiresAt: Option<Time>,
    notifiedAt: Option<Time>, lastError: Option<FailureCode>)

  // What a failure report has read and not yet written, by lease.
  datatype Reading = Reading(leadId: Id, attempts: int, readAt: Time)

  datatype State = State(
    clock: Time, leads: map<Id, Lead>, usedLeases: set<Id>, readings: map<Id, Reading>)

  const NEW_LEAD := Lead(Pending, 0, Some(0), None, None, None, None)

  // ----- The guards the queries repeat -----

  predicate Unsent(l: Lead) {
    l.status in {Pending, Failed}
  }

  predicate Expired(l: Lead, now: Time) {
    l.leaseExpiresAt.Some? && l.leaseExpiresAt.value <= now
  }

  predicate Claimable(l: Lead, now: Time) {
    && Unsent(l) && l.attempts < MAX_ATTEMPTS
    && l.nextAttemptAt.Some? && l.nextAttemptAt.value <= now
    && (l.leaseId.None? || Expired(l, now))
  }

  predicate Finalizable(l: Lead, now: Time) {
    Unsent(l) && l.attempts >= MAX_ATTEMPTS && l.leaseId.Some? && Expired(l, now)
  }

  predicate HeldBy(l: Lead, lease: Id) {
    l.leaseId == Some(lease) && Unsent(l)
  }

  predicate Requeueable(l: Lead, now: Time) {
    l.status == Failed && l.notifiedAt.None? && l.nextAttemptAt.None? && (l.leaseId.None? || Expired(l, now))
  }

  predicate Deletable(l: Lead, now: Time) {
    l.leaseId.None? || Expired(l, now)
  }

  // What a claimant reads back about the lease it took.
  function ClaimedAttempt(s: State, id: Id, lease: Id): Option<int> {
    if id in s.leads && s.leads[id].leaseId == Some(lease) then Some(s.leads[id].attempts) else None
  }

  // ----- What each update writes -----

  function Claimed(l: Lead, lease: Id, now: Time): Lead {
    l.(leaseId := Some(lease), leaseExpiresAt := Some(now + LEASE_MS), attempts := l.attempts + 1)
  }

  function MarkedSent(l: Lead, now: Time): Lead {
    Lead(Sent, l.attempts, None, None, None, Some(now), None)
  }

  // The retry delays, by the number of attempts made so far.
  function Delay(attempts: int): nat
    requires 1 <= attempts <= 3
  {
    [60_000, 300_000, 900_000][attempts - 1]
  }

  function DueAt(attempts: int, terminal: bool, at: Time): Option<Time>
    requires 1 <= attempts
  {
    if terminal || attempts >= MAX_ATTEMPTS then None else Some(at + Delay(attempts))
  }

  function MarkedFailed(l: Lead, dueAt: Option<Time>, code: FailureCode): Lead {
    l.(status := Failed, nextAttemptAt := dueAt, leaseId := None, leaseExpiresAt := None, lastError := Some(code))
  }

  function Requeued(l: Lead, now: Time): Lead {
    l.(status := Pending, attempts := 0, nextAttemptAt := Some(now), leaseId := None, leaseExpiresAt := None,
       lastError := None)
  }

  // ----- Steps -----

  datatype Step =
    | DoTick(elapsed: nat)
    | DoCreate(id: Id)
    | DoClaim(id: Id, newLease: Id)
    | DoMarkSent(id: Id, lease: Id)
    | DoReadFailure(id: Id, lease: Id)
    // `at` is the clock value the report used, between its read and its write
    | DoWriteFailure(id: Id, lease: Id, code: FailureCode, terminal: bool, at: Time)
    | DoFinalize
    | DoRequeue(id: Id)
    | DoDelete(id: Id)

  function Write(s: State, id: Id, l: Lead): State {
    s.(leads := s.leads[id := l])
  }

  function FinalizeOne(l: Lead, now: Time): Lead {
    if Finalizable(l, now) then MarkedFailed(l, None, DeliveryUnknown) else l
  }

  // The write half of a failure report can only follow its own read half.
  predicate Reported(s: State, id: Id, lease: Id, at: Time) {
    lease in s.readings && s.readings[lease].leadId == id && s.readings[lease].readAt <= at <= s.clock
  }

  // Lease ids are random: a new one was never used before.
  predicate Fresh(s: State, step: Step) {
    step.DoClaim? ==> step.newLease !in s.usedLeases
  }

  function Apply(s: State, step: Step): State
    requires Invariant(s)
  {
    match step
    case DoTick(elapsed) => s.(clock := s.clock + elapsed)
    case DoCreate(id) => if id in s.leads then s else Write(s, id, NEW_LEAD.(nextAttemptAt := Some(s.clock)))
    case DoClaim(id, newLease) =>
      if id in s.leads && Claimable(s.leads[id], s.clock)
      then Write(s, id, Claimed(s.leads[id], newLease, s.clock)).(usedLeases := s.usedLeases + {newLease}) else s
    case DoMarkSent(id, lease) =>
      if id in s.leads && HeldBy(s.leads[id], lease) then Write(s, id, MarkedSent(s.leads[id], s.clock)) else s
    case DoReadFailure(id, lease) =>
      if id in s.leads && HeldBy(s.leads[id], lease)
      then s.(readings := s.readings[lease := Reading(id, s.leads[id].attempts, s.clock)]) else s
    case DoWriteFailure(id, lease, code, terminal, at) =>
      if !Reported(s, id, lease, at) then s
      else
        var dueAt := DueAt(s.readings[lease].attempts, terminal, at);
        var written := if id in s.leads && HeldBy(s.leads[id], lease)
                       then Write(s, id, MarkedFailed(s.leads[id], dueAt, code)) else s;
        written.(readings := s.readings - {lease})
    case DoFinalize => s.(leads := map id | id in s.leads :: FinalizeOne(s.leads[id], s.clock))
    case DoRequeue(id) =>
      if id in s.leads && Requeueable(s.leads[id], s.clock) then Write(s, id, Requeued(s.leads[id], s.clock)) else s
    case DoDelete(id) =>
      if id in s.leads && Deletable(s.leads[id], s.clock) then s.(leads := s.leads - {id}) else s
  }

  // ----- Invariant -----

  ghost predicate LeadOk(l: Lead) {
    && 0 <= l.attempts <= MAX_ATTEMPTS
    && (l.leaseId.Some? <==> l.leaseExpiresAt.Some?)
    && (l.status == Sent <==> l.notifiedAt.Some?)
    && (l.status == Sent ==> l.leaseId.None? && l.nextAttemptAt.None?)
    && (l.leaseId.Some? ==> l.attempts >= 1 && l.nextAttemptAt.Some?)
    && (l.status == Pending ==> l.nextAttemptAt.Some?)
    // the last attempt is either still under way or over for good
    && (l.attempts == MAX_ATTEMPTS && l.nextAttemptAt.Some? ==> l.leaseId.Some?)
  }

  ghost predicate Invariant(s: State) {
    && (forall id :: id in s.leads ==> LeadOk(s.leads[id]))
    && (forall id :: id in s.leads && s.leads[id].leaseId.Some? ==> s.leads[id].leaseId.value in s.usedLeases)
    && (forall lease :: lease in s.readings ==> lease in s.usedLeases && ReadingOk(s, s.readings[lease], lease))
  }

  // What was read is what is still there, as long as the lease is.
  ghost predicate ReadingOk(s: State, r: Reading, lease: Id) {
    && 1 <= r.attempts <= MAX_ATTEMPTS && r.readAt <= s.clock
    && (r.leadId in s.leads && s.leads[r.leadId].leaseId == Some(lease) ==> s.leads[r.leadId].attempts == r.attempts)
  }

  lemma ApplyKeeps(s: State, step: Step)
    requires Invariant(s) && Fresh(s, step)
    ensures Invariant(Apply(s, step))
  {
  }
}
