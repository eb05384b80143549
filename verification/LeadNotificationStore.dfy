// The demo-lead notification store, with the operator's requeue and delete: guarded updates of
// one row, or of every matching row.
module LeadNotificationStore {
  import opened Options
  import opened LeadNotifications

  datatype DeleteResult = Deleted | NotFound | Busy

  class Store {
    var clock: Time
    var leads: map<Id, Lead>
    ghost var usedLeases: set<Id>
    // The failure reports that have read and not yet written, by lease.
    var readings: map<Id, Reading>

    ghost function State(): LeadNotifications.State
      reads this
    {
      LeadNotifications.State(clock, leads, usedLeases, readings)
    }

    constructor (clock: Time)
      ensures State() == LeadNotifications.State(clock, map[], {}, map[]) && Invariant(State())
    {
      this.clock := clock;
      leads, usedLeases, readings := map[], {}, map[];
    }

    // The guarded UPDATE of claim.
    method Claim(id: Id, newLease: Id) returns (count: nat)
      requires Invariant(State())
      modifies this`leads, this`usedLeases
      ensures State() == Apply(old(State()), DoClaim(id, newLease))
      ensures count == if old(id in leads && Claimable(leads[id], clock)) then 1 else 0
      ensures count == 1 ==> id in leads && leads[id].leaseId == Some(newLease)
    {
      var now := clock;
      count := 0;
      if id in leads {
        var lead := leads[id];
        if (lead.status == Pending || lead.status == Failed) && lead.attempts < MAX_ATTEMPTS
           && lead.nextAttemptAt.Some? && lead.nextAttemptAt.value <= now
           && (lead.leaseId.None? || Expired(lead, now)) {
          leads := leads[id := lead.(leaseId := Some(newLease), leaseExpiresAt := Some(now + LEASE_MS),
                                     attempts := lead.attempts + 1)];
          usedLeases := usedLeases + {newLease};
          count := 1;
        }
      }
    }

    // The SELECT of claim, which may come after anything else happened to the lead.
    method ReadClaim(id: Id, lease: Id) returns (attempt: Option<int>)
      ensures attempt == ClaimedAttempt(State(), id, lease)
    {
      attempt := None;
      if id in leads && leads[id].leaseId == Some(lease) {
        attempt := Some(leads[id].attempts);
      }
    }

    method MarkSent(id: Id, lease: Id) returns (ok: bool)
      requires Invariant(State())
      modifies this`leads
      ensures State() == Apply(old(State()), DoMarkSent(id, lease))
      ensures ok <==> old(id in leads && HeldBy(leads[id], lease))
    {
      ok := id in leads && leads[id].leaseId == Some(lease) && leads[id].status in {Pending, Failed};
      if ok {
        leads := leads[id := leads[id].(
          status := Sent, notifiedAt := Some(clock), nextAttemptAt := None,
          leaseId := None, leaseExpiresAt := None, lastError := None)];
      }
    }

    // The SELECT of markFailed.
    method ReadFailure(id: Id, lease: Id) returns (attempts: Option<int>)
      requires Invariant(State())
      modifies this`readings
      ensures State() == Apply(old(State()), DoReadFailure(id, lease))
      ensures attempts.Some? <==> id in leads && HeldBy(leads[id], lease)
      ensures attempts.Some? ==> lease in readings && readings[lease] == Reading(id, attempts.value, clock)
    {
      attempts := None;
      if id in leads && leads[id].leaseId == Some(lease) && leads[id].status in {Pending, Failed} {
        attempts := Some(leads[id].attempts);
        readings := readings[lease := Reading(id, leads[id].attempts, clock)];
      }
    }

    // The rest of markFailed: the delay from the attempts read earlier, then the guarded UPDATE.
    method WriteFailure(id: Id, lease: Id, code: FailureCode, terminal: bool, at: Time) returns (dueAt: Option<Time>)
      requires Invariant(State()) && Reported(State(), id, lease, at)
      modifies this`leads, this`readings
      ensures State() == Apply(old(State()), DoWriteFailure(id, lease, code, terminal, at))
      ensures dueAt == if old(id in leads && HeldBy(leads[id], lease)) then leads[id].nextAttemptAt else None
    {
      var attempts := readings[lease].attempts;
      assert ReadingOk(State(), readings[lease], lease);
      dueAt := None;
      if !(terminal || attempts >= 4) {
        var delays := [60_000, 300_000, 900_000];
        dueAt := Some(at + delays[attempts - 1]);
      }
      if id in leads && leads[id].leaseId == Some(lease) && leads[id].status in {Pending, Failed} {
        leads := leads[id := leads[id].(
          status := Failed, nextAttemptAt := dueAt, leaseId := None, leaseExpiresAt := None, lastError := Some(code))];
      } else {
        dueAt := None;
      }
      readings := readings - {lease};
    }

    // One UPDATE over every row, row by row.
    method FinalizeExpiredLeases() returns (count: nat)
      requires Invariant(State())
      modifies this`leads
      ensures State() == Apply(old(State()), DoFinalize)
      ensures count == |set id | id in old(leads) && Finalizable(old(leads)[id], clock)|
    {
      var now := clock;
      count := 0;
      var left := leads.Keys;
      ghost var done: set<Id> := {};
      while left != {}
        invariant left <= old(leads).Keys
        invariant leads == map id | id in old(leads) ::
          if id in left then old(leads)[id] else FinalizeOne(old(leads)[id], now)
        invariant done == set id | id in old(leads) && id !in left && Finalizable(old(leads)[id], now)
        invariant count == |done|
        decreases left
      {
        var id :| id in left;
        left := left - {id};
        var lead := leads[id];
        if lead.status in {Pending, Failed} && lead.attempts >= MAX_ATTEMPTS && lead.leaseId.Some?
           && Expired(lead, now) {
          leads := leads[id := lead.(
            status := Failed, nextAttemptAt := None, leaseId := None, leaseExpiresAt := None,
            lastError := Some(DeliveryUnknown))];
          count := count + 1;
          done := done + {id};
        }
      }
      assert done == set id | id in old(leads) && Finalizable(old(leads)[id], clock);
    }

    method Requeue(id: Id) returns (ok: bool)
      requires Invariant(State())
      modifies this`leads
      ensures State() == Apply(old(State()), DoRequeue(id))
      ensures ok <==> old(id in leads && Requeueable(leads[id], clock))
    {
      var now := clock;
      ok := false;
      if id in leads {
        var lead := leads[id];
        if lead.status == Failed && lead.notifiedAt.None? && lead.nextAttemptAt.None?
           && (lead.leaseId.None? || Expired(lead, now)) {
          leads := leads[id := lead.(
            status := Pending, attempts := 0, nextAttemptAt := Some(now), leaseId := None, leaseExpiresAt := None,
            lastError := None)];
          ok := true;
        }
      }
    }

    method DeleteOne(id: Id) returns (r: DeleteResult)
      requires Invariant(State())
      modifies this`leads
      ensures State() == Apply(old(State()), DoDelete(id))
      ensures r == NotFound <==> old(id !in leads)
      ensures r == Deleted <==> old(id in leads) && id !in leads
    {
      if id !in leads {
        return NotFound;
      }
      var lead := leads[id];
      if lead.leaseId.Some? && (lead.leaseExpiresAt.None? || lead.leaseExpiresAt.value > clock) {
        return Busy;
      }
      assert LeadOk(lead);
      leads := leads - {id};
      r := Deleted;
    }

    // The leads a worker should look at: ORDER BY next attempt, id, at most 50.
    method ListDue(limit: int) returns (ids: seq<Id>)
      requires Invariant(State())
      ensures ListsDue(leads, clock, ids)
      ensures |ids| == if |DueIds(leads, clock)| < Take(limit) then |DueIds(leads, clock)| else Take(limit)
    {
      var left := DueIds(leads, clock);
      ghost var due := left;
      ids := [];
      while |ids| < Take(limit) && left != {}
        invariant left <= due && (forall id :: id in due <==> id in left || id in ids)
        invariant |ids| + |left| == |due| && |ids| <= Take(limit)
        invariant forall i :: 0 <= i < |ids| ==> ids[i] in due && ids[i] !in left
        invariant forall i, j :: 0 <= i < j < |ids| ==> DueBefore(leads, ids[i], ids[j])
        invariant forall i, id :: 0 <= i < |ids| && id in left ==> DueBefore(leads, ids[i], id)
        decreases left
      {
        var first := FirstDue(left);
        ids := ids + [first];
        left := left - {first};
      }
    }

    method FirstDue(candidates: set<Id>) returns (first: Id)
      requires candidates != {} && forall id :: id in candidates ==> id in leads && leads[id].nextAttemptAt.Some?
      ensures first in candidates
      ensures forall id :: id in candidates && id != first ==> DueBefore(leads, first, id)
    {
      first :| first in candidates;
      var left := candidates - {first};
      while left != {}
        invariant left < candidates && first in candidates && first !in left
        invariant forall id :: id in candidates && id !in left && id != first ==> DueBefore(leads, first, id)
        decreases left
      {
        var id :| id in left;
        left := left - {id};
        if DueBefore(leads, id, first) {
          first := id;
        }
      }
    }
  }

  function Take(limit: int): nat {
    var atLeastOne := if limit < 1 then 1 else limit;
    if atLeastOne > 50 then 50 else atLeastOne
  }

  function DueIds(leads: map<Id, Lead>, now: Time): set<Id> {
    set id | id in leads && Claimable(leads[id], now)
  }

  // ORDER BY notification_next_attempt_at ASC, id ASC
  predicate DueBefore(leads: map<Id, Lead>, a: Id, b: Id) {
    && a in leads && b in leads && leads[a].nextAttemptAt.Some? && leads[b].nextAttemptAt.Some?
    && (leads[a].nextAttemptAt.value < leads[b].nextAttemptAt.value
        || (leads[a].nextAttemptAt.value == leads[b].nextAttemptAt.value && a < b))
  }

  // Every listed lead can be claimed right now, the list is in due order, and no claimable lead
  // that is earlier than a listed one is missing from it.
  ghost predicate ListsDue(leads: map<Id, Lead>, now: Time, ids: seq<Id>) {
    && (forall i :: 0 <= i < |ids| ==> ids[i] in leads && Claimable(leads[ids[i]], now))
    && (forall i, j :: 0 <= i < j < |ids| ==> DueBefore(leads, ids[i], ids[j]))
    && (forall i, id :: 0 <= i < |ids| && id in leads && Claimable(leads[id], now) && id !in ids ==>
          DueBefore(leads, ids[i], id))
  }
}
