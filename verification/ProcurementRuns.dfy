// Whole runs: any sequence of the four transactions over any orders that share products.
module ProcurementRuns {
  import opened Options
  import opened MapSums
  import opened ProcurementContract
  import opened ProcurementModel
  import opened ProcurementProofs

  datatype Step =
    | DoAssess(orderId: Id, now: Time)
    | DoSetStatus(orderId: Id, itemId: Id, next: ProcurementStatus, now: Time)
    | DoRelease(orderId: Id, now: Time)
    | DoHandOff(orderId: Id, now: Time)

  // A transaction that throws leaves every row as it was.
  ghost function Apply(rows: Rows, step: Step): Rows
    requires WellFormed(rows)
  {
    var result := match step
      case DoAssess(o, now) => Assess(rows, o, now)
      case DoSetStatus(o, i, next, now) => SetStatus(rows, o, i, next, now)
      case DoRelease(o, now) => Success(Release(rows, o, now))
      case DoHandOff(o, now) => HandOff(rows, o, now);
    if result.Success? then result.value else rows
  }

  ghost predicate Good(rows: Rows) {
    Invariant(rows) && InIdOrder(rows)
  }

  // What no transaction touches: which orders and items exist, and what the items ask for.
  ghost predicate SameShape(rows: Rows, after: Rows) {
    && after.products.Keys == rows.products.Keys
    && after.orders.Keys == rows.orders.Keys
    && (forall o :: o in rows.orders ==> after.orders[o].items == rows.orders[o].items)
  }

  lemma ApplyKeepsShape(rows: Rows, step: Step)
    requires WellFormed(rows)
    ensures SameShape(rows, Apply(rows, step))
  {
    if step.DoHandOff? && CanHandOff(rows, step.orderId) {
      StockAfterTaking(rows.products, rows.reservations, rows.orders[step.orderId].items, 0);
    }
  }

  lemma ApplyKeepsInvariant(rows: Rows, step: Step)
    requires Good(rows)
    ensures Invariant(Apply(rows, step))
  {
    match step
    case DoAssess(o, now) =>
      AssessKeeps(rows, o, now);
    case DoSetStatus(o, i, next, now) =>
      SetStatusKeeps(rows, o, i, next, now);
    case DoRelease(o, now) =>
      ReleaseKeeps(rows, o, now);
    case DoHandOff(o, now) =>
      if CanHandOff(rows, o) {
        HandOffKeeps(rows, o, now);
      }
  }

  lemma ApplyKeeps(rows: Rows, step: Step)
    requires Good(rows)
    ensures Good(Apply(rows, step)) && SameShape(rows, Apply(rows, step))
  {
    ApplyKeepsInvariant(rows, step);
    ApplyKeepsShape(rows, step);
  }

  lemma ApplyKeepsStock(rows: Rows, step: Step)
    requires Good(rows) && StockNeverNegative(rows)
    ensures StockNeverNegative(Apply(rows, step))
  {
    if step.DoHandOff? && CanHandOff(rows, step.orderId) {
      HandOffKeeps(rows, step.orderId, step.now);
    } else {
      assert Apply(rows, step).products == rows.products;
    }
  }

  ghost function Run(rows: Rows, steps: seq<Step>): (after: Rows)
    requires Good(rows)
    decreases |steps|
  {
    if steps == [] then rows
    else
      ApplyKeeps(rows, steps[0]);
      Run(Apply(rows, steps[0]), steps[1..])
  }

  // A shop in which nothing is reserved yet is a good one to start from.
  lemma NothingReservedIsGood(rows: Rows)
    requires WellFormed(rows) && InIdOrder(rows)
    requires forall i :: i in rows.reservations ==> rows.reservations[i].status != Active
    ensures Good(rows)
  {
    forall p | p in rows.products
      ensures ActiveTotal(rows.reservations, p) == 0
    {
      SumZero(HeldRows(rows.reservations, p));
    }
  }

  // Every invariant of a single transaction is an invariant of every run.
  lemma {:induction false} RunKeeps(rows: Rows, steps: seq<Step>)
    requires Good(rows)
    ensures Good(Run(rows, steps)) && SameShape(rows, Run(rows, steps))
    decreases |steps|
  {
    if steps != [] {
      ApplyKeeps(rows, steps[0]);
      RunKeeps(Apply(rows, steps[0]), steps[1..]);
    }
  }

  // No overselling on any run: what ACTIVE reservations hold of a product never exceeds its
  // stock, nothing is reserved from a product of unknown stock, and no stock turns negative.
  lemma {:induction false} NeverOversold(rows: Rows, steps: seq<Step>)
    requires Good(rows) && StockNeverNegative(rows)
    ensures Good(Run(rows, steps))
    ensures var after := Run(rows, steps);
      && (forall p :: p in after.products && after.products[p].stock.Some? ==>
            ActiveTotal(after.reservations, p) <= after.products[p].stock.value)
      && (forall i :: i in after.reservations && after.reservations[i].status == Active ==>
            && after.reservations[i].productId in after.products
            && after.products[after.reservations[i].productId].stock.Some?)
      && StockNeverNegative(after)
    decreases |steps|
  {
    if steps == [] {
      GoodMeans(rows);
    } else {
      ApplyKeeps(rows, steps[0]);
      ApplyKeepsStock(rows, steps[0]);
      NeverOversold(Apply(rows, steps[0]), steps[1..]);
    }
  }

  lemma GoodMeans(rows: Rows)
    requires Invariant(rows) && StockNeverNegative(rows)
    ensures forall p :: p in rows.products && rows.products[p].stock.Some? ==>
      ActiveTotal(rows.reservations, p) <= rows.products[p].stock.value
    ensures forall i :: i in rows.reservations && rows.reservations[i].status == Active ==>
      && rows.reservations[i].productId in rows.products
      && rows.products[rows.reservations[i].productId].stock.Some?
  {
    forall p | p in rows.products && rows.products[p].stock.Some?
      ensures ActiveTotal(rows.reservations, p) <= rows.products[p].stock.value
    {
      assert ActiveTotal(rows.reservations, p) <= Capacity(rows.products[p].stock);
    }
    forall i | i in rows.reservations && rows.reservations[i].status == Active
      ensures rows.products[rows.reservations[i].productId].stock.Some?
    {
      ReservedMeansStocked(rows, i);
    }
  }

  lemma ReservedMeansStocked(rows: Rows, i: Id)
    requires Invariant(rows) && i in rows.reservations && rows.reservations[i].status == Active
    ensures rows.products[rows.reservations[i].productId].stock.Some?
  {
    var p := rows.reservations[i].productId;
    RowWithinTotal(rows.reservations, i);
    assert ActiveTotal(rows.reservations, p) <= Capacity(rows.products[p].stock);
  }

  // On every run an ACTIVE reservation serves an item that is in stock, at the item's quantity.
  lemma ActiveMeansInStock(rows: Rows, steps: seq<Step>, i: Id)
    requires Good(rows) && i in Run(rows, steps).reservations
    requires Run(rows, steps).reservations[i].status == Active
    ensures var after := Run(rows, steps);
      i in after.items && after.items[i].status == InStock && after.items[i].quantity == after.reservations[i].quantity
  {
    RunKeeps(rows, steps);
  }

  // The converse fails: releasing an order takes its reservations but leaves its items, and so its
  // cached summary, as they were. An item that was in stock stays so, with nothing reserved for it.
  lemma InStockMayBeUnreserved(rows: Rows, orderId: Id, now: Time, i: Id)
    requires Good(rows) && orderId in rows.orders && i in rows.orders[orderId].items && rows.items[i].status == InStock
    ensures var after := Apply(rows, DoRelease(orderId, now));
      && i in after.items && after.items[i].status == InStock && after.orders == rows.orders
      && !(i in after.reservations && after.reservations[i].status == Active)
  {
  }

  // ----- The hand-off ledger -----

  // What one step takes from a product's stock.
  ghost function Takes(rows: Rows, step: Step, p: Id): int
    requires WellFormed(rows)
  {
    if step.DoHandOff? && CanHandOff(rows, step.orderId) then HeldByOrder(rows, step.orderId, p) else 0
  }

  ghost function Taken(rows: Rows, steps: seq<Step>, p: Id): int
    requires Good(rows)
    decreases |steps|
  {
    if steps == [] then 0
    else
      ApplyKeeps(rows, steps[0]);
      Takes(rows, steps[0], p) + Taken(Apply(rows, steps[0]), steps[1..], p)
  }

  ghost function StockAt(rows: Rows, p: Id): Option<int> {
    if p in rows.products then rows.products[p].stock else None
  }

  lemma ApplyTakes(rows: Rows, step: Step, p: Id)
    requires Good(rows)
    ensures StockAt(Apply(rows, step), p) == Decrement(StockAt(rows, p), Takes(rows, step, p))
    ensures Takes(rows, step, p) >= 0
  {
    if step.DoHandOff? && CanHandOff(rows, step.orderId) {
      HandOffTakes(rows, step.orderId, step.now, p);
    }
  }

  lemma {:induction false} TakenIsNatural(rows: Rows, steps: seq<Step>, p: Id)
    requires Good(rows)
    ensures Taken(rows, steps, p) >= 0
    decreases |steps|
  {
    if steps != [] {
      ApplyKeeps(rows, steps[0]);
      ApplyTakes(rows, steps[0], p);
      TakenIsNatural(Apply(rows, steps[0]), steps[1..], p);
    }
  }

  // Between two states a product lost exactly this quantity; an unknown stock stays unknown.
  ghost predicate Lost(rows: Rows, after: Rows, p: Id, quantity: int) {
    StockAt(after, p) == Decrement(StockAt(rows, p), quantity)
  }

  // Conservation: over any run a product loses exactly what the hand-offs took.
  lemma {:induction false} StockIsConserved(rows: Rows, steps: seq<Step>, p: Id)
    requires Good(rows)
    ensures Lost(rows, Run(rows, steps), p, Taken(rows, steps, p))
    decreases |steps|
  {
    if steps != [] {
      ApplyKeeps(rows, steps[0]);
      ApplyTakes(rows, steps[0], p);
      StockIsConserved(Apply(rows, steps[0]), steps[1..], p);
    }
  }

  // How many steps of a run actually hand an order off.
  ghost function HandOffs(rows: Rows, steps: seq<Step>, orderId: Id): nat
    requires Good(rows)
    decreases |steps|
  {
    if steps == [] then 0
    else
      ApplyKeeps(rows, steps[0]);
      (if steps[0].DoHandOff? && steps[0].orderId == orderId && CanHandOff(rows, orderId) then 1 else 0)
      + HandOffs(Apply(rows, steps[0]), steps[1..], orderId)
  }

  lemma HandOffTimeStays(rows: Rows, step: Step, orderId: Id)
    requires Good(rows) && orderId in rows.orders && rows.orders[orderId].handedOffAt.Some?
    ensures orderId in Apply(rows, step).orders
    ensures Apply(rows, step).orders[orderId].handedOffAt == rows.orders[orderId].handedOffAt
  {
  }

  // An order takes stock at most once. Once it has, its hand-off time never changes again, and
  // handing it off again changes no row at all.
  lemma {:induction false} HandedOffAtMostOnce(rows: Rows, steps: seq<Step>, orderId: Id, now: Time)
    requires Good(rows) && orderId in rows.orders
    ensures HandOffs(rows, steps, orderId) <= if rows.orders[orderId].handedOffAt.None? then 1 else 0
    ensures Good(Run(rows, steps))
    ensures var after := Run(rows, steps);
      && orderId in after.orders
      && (rows.orders[orderId].handedOffAt.Some? ==>
            after.orders[orderId].handedOffAt == rows.orders[orderId].handedOffAt)
      && (HandOffs(rows, steps, orderId) == 1 ==> after.orders[orderId].handedOffAt.Some?)
      && (after.orders[orderId].handedOffAt.Some? ==> Apply(after, DoHandOff(orderId, now)) == after)
    decreases |steps|
  {
    if steps != [] {
      var next := Apply(rows, steps[0]);
      ApplyKeeps(rows, steps[0]);
      if rows.orders[orderId].handedOffAt.Some? {
        HandOffTimeStays(rows, steps[0], orderId);
      }
      HandedOffAtMostOnce(next, steps[1..], orderId, now);
    }
  }

  // ----- The cached summary -----

  ghost predicate Cached(rows: Rows, orderId: Id)
    requires WellFormed(rows) && orderId in rows.orders
  {
    var order := rows.orders[orderId];
    order.summary == SummaryFor(Statuses(rows.items, order.items), order.handedOffAt.Some?)
  }

  ghost predicate AllCached(rows: Rows) {
    WellFormed(rows) && forall o :: o in rows.orders ==> Cached(rows, o)
  }

  // Assessing writes the summary of an order not handed off; so the cached summary of the order
  // is right afterwards exactly when the order had not been handed off.
  lemma AssessCaches(rows: Rows, orderId: Id, now: Time)
    requires Good(rows) && Assess(rows, orderId, now).Success?
    ensures WellFormed(Assess(rows, orderId, now).value)
    ensures Cached(Assess(rows, orderId, now).value, orderId) <==> rows.orders[orderId].handedOffAt.None?
  {
    AssessKeepsRows(rows, orderId, now);
    var after := Assess(rows, orderId, now).value;
    var ids := rows.orders[orderId].items;
    forall k | 0 <= k < |ids|
      ensures ids[k] in after.items && after.items[ids[k]].status == Decide(rows, orderId, k).status
    {
      AssessedRow(rows, orderId, now, ids[k]);
    }
    assert Statuses(after.items, ids) == AssessedStatuses(rows, orderId);
    SummaryMeaning(AssessedStatuses(rows, orderId));
  }

  ghost predicate Reassesses(rows: Rows, step: Step) {
    step.DoAssess? && step.orderId in rows.orders && rows.orders[step.orderId].handedOffAt.Some?
  }

  lemma OtherOrderCached(rows: Rows, after: Rows, o: Id)
    requires WellFormed(rows) && WellFormed(after) && o in rows.orders && Cached(rows, o)
    requires o in after.orders && after.orders[o] == rows.orders[o]
    requires forall i :: i in rows.orders[o].items ==> i in after.items && after.items[i].status == rows.items[i].status
    ensures Cached(after, o)
  {
    assert Statuses(after.items, rows.orders[o].items) == Statuses(rows.items, rows.orders[o].items);
  }

  lemma AssessKeepsCaches(rows: Rows, orderId: Id, now: Time)
    requires Good(rows) && AllCached(rows) && !Reassesses(rows, DoAssess(orderId, now))
    requires Assess(rows, orderId, now).Success?
    ensures AllCached(Assess(rows, orderId, now).value)
  {
    AssessCaches(rows, orderId, now);
    var after := Assess(rows, orderId, now).value;
    forall o | o in after.orders && o != orderId
      ensures Cached(after, o)
    {
      forall i | i in rows.orders[o].items
        ensures i in after.items && after.items[i].status == rows.items[i].status
      {
        assert rows.items[i].orderId == o;
        AssessedRow(rows, orderId, now, i);
        assert i !in rows.orders[orderId].items;
      }
      OtherOrderCached(rows, after, o);
    }
  }

  lemma SetStatusKeepsCaches(rows: Rows, orderId: Id, itemId: Id, next: ProcurementStatus, now: Time)
    requires Good(rows) && AllCached(rows)
    ensures var result := SetStatus(rows, orderId, itemId, next, now);
      result.Success? ==> AllCached(result.value)
  {
    if SetStatus(rows, orderId, itemId, next, now).Failure? {
      return;
    }
    SetStatusKeeps(rows, orderId, itemId, next, now);
    var after := SetStatus(rows, orderId, itemId, next, now).value;
    forall o | o in after.orders && o != orderId
      ensures Cached(after, o)
    {
      assert itemId !in rows.orders[o].items;
      OtherOrderCached(rows, after, o);
    }
  }

  lemma HandOffKeepsCaches(rows: Rows, orderId: Id, now: Time)
    requires Good(rows) && AllCached(rows) && CanHandOff(rows, orderId)
    ensures AllCached(HandedOffRows(rows, orderId, now))
  {
    HandOffKeepsRows(rows, orderId, now);
    var after := HandedOffRows(rows, orderId, now);
    forall o | o in after.orders && o != orderId
      ensures Cached(after, o)
    {
      OtherOrderCached(rows, after, o);
    }
  }

  lemma ApplyKeepsCaches(rows: Rows, step: Step)
    requires Good(rows) && AllCached(rows) && !Reassesses(rows, step)
    ensures AllCached(Apply(rows, step))
  {
    match step
    case DoAssess(o, now) =>
      if Assess(rows, o, now).Success? {
        AssessKeepsCaches(rows, o, now);
      }
    case DoSetStatus(o, i, next, now) =>
      SetStatusKeepsCaches(rows, o, i, next, now);
    case DoRelease(o, now) =>
      ReleaseKeeps(rows, o, now);
      forall other | other in rows.orders
        ensures Cached(Release(rows, o, now), other)
      {
        OtherOrderCached(rows, Release(rows, o, now), other);
      }
    case DoHandOff(o, now) =>
      if CanHandOff(rows, o) {
        HandOffKeepsCaches(rows, o, now);
      }
  }

  ghost predicate NeverReassesses(rows: Rows, steps: seq<Step>)
    requires Good(rows)
    decreases |steps|
  {
    steps == [] || (
      && !Reassesses(rows, steps[0])
      && (ApplyKeeps(rows, steps[0]); NeverReassesses(Apply(rows, steps[0]), steps[1..])))
  }

  // On runs that never assess an order after its hand-off, every cached summary stays right.
  lemma {:induction false} SummariesStayRight(rows: Rows, steps: seq<Step>)
    requires Good(rows) && AllCached(rows) && NeverReassesses(rows, steps)
    ensures AllCached(Run(rows, steps))
    decreases |steps|
  {
    if steps != [] {
      ApplyKeeps(rows, steps[0]);
      ApplyKeepsCaches(rows, steps[0]);
      SummariesStayRight(Apply(rows, steps[0]), steps[1..]);
    }
  }
}
