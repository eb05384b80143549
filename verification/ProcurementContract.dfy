// The procurement summary of an order and the shipment gate that rests on the same statuses.
module ProcurementContract {
  datatype ProcurementStatus =
    Unassessed | InStock | ToOrder | Sending | Ordered | SupplierConfirmed | Received | Unavailable

  datatype ProcurementSummary =
    NotAssessed | Ready | PartiallyReady | NeedsOrder | SendingToSupplier | AwaitingSupplier | Blocked | HandedOff

  datatype OrderStatus = AiProcessing | AiFailed | NeedsReview | AutoApproved | Approved | Cancelled

  datatype ShipmentReadiness = Allowed | OrderNotApproved | ProcurementIncomplete

  const READY_STATUSES: set<ProcurementStatus> := {InStock, Received}
  const AWAITING_STATUSES: set<ProcurementStatus> := {Ordered, SupplierConfirmed}

  function CountIn(statuses: seq<ProcurementStatus>, wanted: set<ProcurementStatus>): nat {
    if statuses == [] then 0
    else (if statuses[0] in wanted then 1 else 0) + CountIn(statuses[1..], wanted)
  }

  function SummaryFor(statuses: seq<ProcurementStatus>, handedOff: bool): ProcurementSummary {
    if handedOff then HandedOff
    else if |statuses| == 0 || Unassessed in statuses then NotAssessed
    else if Unavailable in statuses then Blocked
    else if Sending in statuses then SendingToSupplier
    else
      var ready := CountIn(statuses, READY_STATUSES);
      var toOrder := CountIn(statuses, {ToOrder});
      var awaiting := CountIn(statuses, AWAITING_STATUSES);
      if ready == |statuses| then Ready
      else if ready > 0 then PartiallyReady
      else if toOrder == |statuses| then NeedsOrder
      else if awaiting == |statuses| then AwaitingSupplier
      else if awaiting > 0 && toOrder == 0 then AwaitingSupplier
      else PartiallyReady
  }

  predicate IsApproved(status: OrderStatus) {
    status in {Approved, AutoApproved}
  }

  function Readiness(status: OrderStatus, statuses: seq<ProcurementStatus>): ShipmentReadiness {
    if !IsApproved(status) then OrderNotApproved
    else if forall s :: s in statuses ==> s in READY_STATUSES then Allowed
    else ProcurementIncomplete
  }

  lemma {:induction false} CountBounds(statuses: seq<ProcurementStatus>, wanted: set<ProcurementStatus>)
    ensures CountIn(statuses, wanted) <= |statuses|
    ensures CountIn(statuses, wanted) == |statuses| <==> forall s :: s in statuses ==> s in wanted
    ensures CountIn(statuses, wanted) == 0 <==> forall s :: s in statuses ==> s !in wanted
  {
    if statuses != [] {
      CountBounds(statuses[1..], wanted);
      assert statuses == [statuses[0]] + statuses[1..];
    }
  }

  // What each summary means for the statuses of an order that has not been handed off.
  lemma SummaryMeaning(statuses: seq<ProcurementStatus>)
    ensures SummaryFor(statuses, true) == HandedOff
    ensures var summary := SummaryFor(statuses, false);
      && summary != HandedOff
      && (summary == NotAssessed <==> statuses == [] || Unassessed in statuses)
      && (summary == Ready <==> statuses != [] && forall s :: s in statuses ==> s in READY_STATUSES)
      && (summary == NeedsOrder <==> statuses != [] && forall s :: s in statuses ==> s == ToOrder)
      && (summary == AwaitingSupplier <==> statuses != [] && forall s :: s in statuses ==> s in AWAITING_STATUSES)
      && (summary == Blocked <==> Unassessed !in statuses && Unavailable in statuses)
      && (summary == SendingToSupplier <==>
            Unassessed !in statuses && Unavailable !in statuses && Sending in statuses)
  {
    CountBounds(statuses, READY_STATUSES);
    CountBounds(statuses, {ToOrder});
    CountBounds(statuses, AWAITING_STATUSES);
    if statuses != [] {
      assert statuses[0] in statuses;
    }
  }

  // The summary depends only on which statuses occur: reordering or repeating items changes nothing.
  lemma SummaryIgnoresOrder(a: seq<ProcurementStatus>, b: seq<ProcurementStatus>, handedOff: bool)
    requires forall s :: s in a <==> s in b
    ensures SummaryFor(a, handedOff) == SummaryFor(b, handedOff)
  {
    SummaryMeaning(a);
    SummaryMeaning(b);
    if a != [] {
      assert a[0] in b;
    }
    if b != [] {
      assert b[0] in a;
    }
  }

  // The shipment gate and the summary agree except on an approved order without items,
  // which the gate lets through although its summary is not READY.
  lemma ReadinessMatchesSummary(status: OrderStatus, statuses: seq<ProcurementStatus>)
    ensures (Readiness(status, statuses) == Allowed <==>
               IsApproved(status) && SummaryFor(statuses, false) == Ready)
       <==> !(IsApproved(status) && statuses == [])
  {
    SummaryMeaning(statuses);
  }
}
