// The procurement store itself: four methods that change the rows step by step.
module ProcurementStore {
  import opened Options
  import opened MapSums
  import opened Tables
  import opened ProcurementContract
  import opened ProcurementModel
  import opened ProcurementProofs

  datatype AssessedItem = AssessedItem(id: Id, decision: Decision)
  datatype Assessment = Assessment(orderId: Id, summary: ProcurementSummary, items: seq<AssessedItem>)
  datatype Receipt = Receipt(orderId: Id, summary: ProcurementSummary, handedOffAt: Time)

  class Store {
    var products: map<Id, Product>
    var skuIndex: map<Sku, Id>
    var items: map<Id, Item>
    var reservations: map<Id, Reservation>
    var orders: map<Id, Order>

    function State(): Rows
      reads this
    {
      Rows(products, skuIndex, items, reservations, orders)
    }

    constructor (rows: Rows)
      ensures State() == rows
    {
      products, skuIndex := rows.products, rows.skuIndex;
      items, reservations, orders := rows.items, rows.reservations, rows.orders;
    }

    // SELECT product_id, SUM(quantity) ... WHERE status = 'ACTIVE' GROUP BY product_id
    method SumActive() returns (totals: map<Id, int>)
      ensures forall p: Id :: Lookup(totals, p).GetOr(0) == ActiveTotal(reservations, p)
    {
      totals := map[];
      var seen: map<Id, Reservation>, left := map[], reservations.Keys;
      forall p: Id
        ensures ActiveTotal(map[], p) == 0
      {
        SumZero(HeldRows(map[], p));
      }
      while left != {}
        invariant left <= reservations.Keys
        invariant seen == map i | i in reservations && i !in left :: reservations[i]
        invariant forall p: Id :: Lookup(totals, p).GetOr(0) == ActiveTotal(seen, p)
        decreases left
      {
        var i :| i in left;
        var row := reservations[i];
        forall p: Id
          ensures ActiveTotal(seen[i := row], p) == ActiveTotal(seen, p) + Held(row, p)
        {
          ActiveAfterActivation(seen, i, row, p);
        }
        if row.status == Active {
          totals := totals[row.productId := Lookup(totals, row.productId).GetOr(0) + row.quantity];
        }
        seen, left := seen[i := row], left - {i};
      }
      assert seen == reservations;
    }

    // UPDATE inventory_reservations SET status = 'RELEASED' WHERE order_item_id IN ids AND status = 'ACTIVE'
    method ReleaseActive(ids: seq<Id>, now: Time, clearConsumed: bool)
      modifies this`reservations
      ensures reservations == ReleaseAll(old(reservations), ids, now, clearConsumed)
    {
      var left := reservations.Keys;
      while left != {}
        invariant left <= reservations.Keys == old(reservations).Keys
        invariant reservations == map i | i in old(reservations) ::
          if i in ids && i !in left then ReleaseRow(old(reservations)[i], now, clearConsumed)
          else old(reservations)[i]
        decreases left
      {
        var i :| i in left;
        left := left - {i};
        if i in ids && reservations[i].status == Active {
          reservations := reservations[i := ReleaseRow(reservations[i], now, clearConsumed)];
        }
      }
      assert reservations == ReleaseAll(old(reservations), ids, now, clearConsumed);
    }

    // The decision the assessment loop takes for one item.
    method DecideItem(ghost rows: Rows, item: Item, reservedByProduct: map<Id, int>)
      returns (product: Option<Id>, decision: Decision)
      requires WellFormed(rows) && products == rows.products && skuIndex == rows.skuIndex
      ensures product == Match(rows, item.catalogId)
      ensures decision == Judge(Inputs(
        product, StockOf(rows, product),
        if product.Some? then Lookup(reservedByProduct, product.value).GetOr(0) else 0, item.quantity))
    {
      var status, reason := ToOrder, ProductUnmatched;
      var stockAtDecision: Option<int>, availableAtDecision: Option<int>, reservedQuantity := None, None, 0;
      product := None;
      if item.catalogId.Some? && item.catalogId.value in skuIndex && products[skuIndex[item.catalogId.value]].active {
        product := Some(skuIndex[item.catalogId.value]);
      }
      if product.Some? {
        stockAtDecision := products[product.value].stock;
        if stockAtDecision.None? {
          reason := StockUnknown;
        } else {
          var alreadyReserved := Lookup(reservedByProduct, product.value).GetOr(0);
          var available := Available(stockAtDecision.value, alreadyReserved);
          availableAtDecision := Some(available);
          if available >= item.quantity {
            status, reason, reservedQuantity := InStock, StockAvailable, item.quantity;
          } else {
            reason := if stockAtDecision.value >= item.quantity then ReservationConflict else StockInsufficient;
          }
        }
      }
      decision := Decision(status, reason, stockAtDecision, availableAtDecision, reservedQuantity);
    }

    // Upsert the reservation of an accepted item and write the decision to the item.
    method RecordDecision(id: Id, item: Item, product: Option<Id>, decision: Decision, now: Time)
      requires decision.status == InStock ==> product.Some?
      modifies this`items, this`reservations
      ensures items == old(items)[id := DecidedItem(item, decision, now)]
      ensures reservations ==
        if decision.status == InStock
        then old(reservations)[id := Reservation(product.value, item.quantity, Active, None, None)]
        else old(reservations)
    {
      if decision.status == InStock {
        reservations := reservations[id := Reservation(product.value, item.quantity, Active, None, None)];
      }
      items := items[id := item.(status := decision.status, source := Some(Auto), reason := Some(decision.reason),
        stockAtDecision := decision.stockAtDecision, availableAtDecision := decision.availableAtDecision,
        updatedAt := Some(now))];
    }

    // The greedy loop of an assessment, in item order over running totals. It stops at the first
    // accepted item whose reservation the table refuses.
    method AssessItems(ghost before: Rows, orderId: Id, totals: map<Id, int>, now: Time)
      returns (rejected: bool, assessed: seq<AssessedItem>)
      requires WellFormed(before) && InIdOrder(before) && orderId in before.orders
      requires State() == before.(reservations := AssessedReservations(before, orderId, 0, now))
      requires ReservedSoFar(before, orderId, 0, totals)
      modifies this`items, this`reservations
      ensures rejected == Rejects(before, orderId)
      ensures !rejected ==>
        var n := |before.orders[orderId].items|;
        && items == AssessedItems(before, orderId, n, now)
        && reservations == AssessedReservations(before, orderId, n, now)
        && assessed == AssessedUpTo(before, orderId, n)
    {
      var ids := orders[orderId].items;
      var reservedByProduct: map<Id, int> := totals;
      assessed := [];
      for k := 0 to |ids|
        invariant State() == before.(items := AssessedItems(before, orderId, k, now),
                                     reservations := AssessedReservations(before, orderId, k, now))
        invariant ReservedSoFar(before, orderId, k, reservedByProduct)
        invariant assessed == AssessedUpTo(before, orderId, k)
        invariant NoneRejected(before, orderId, k)
      {
        ItemStillThere(before, orderId, k, now);
        var item := items[ids[k]];
        var product, decision := DecideItem(before, item, reservedByProduct);
        SameInputsAt(before, orderId, k, item, product, reservedByProduct);
        if decision.status == InStock {
          if item.quantity <= 0 {
            return true, assessed;
          }
          reservedByProduct := reservedByProduct[
            product.value := Lookup(reservedByProduct, product.value).GetOr(0) + item.quantity];
        }
        RecordDecision(ids[k], item, product, decision, now);
        AssessStep(before, orderId, k, now);
        AssessedOneMore(before, orderId, k);
        assessed := assessed + [AssessedItem(ids[k], decision)];
      }
      rejected := false;
    }

    method AssessApprovedOrder(orderId: Id, now: Time) returns (r: Result<Assessment, ProcurementError>)
      requires WellFormed(State()) && InIdOrder(State())
      modifies this
      ensures r.Failure? ==> Assess(old(State()), orderId, now) == Failure(r.error) && State() == old(State())
      ensures r.Success? ==>
        && Assess(old(State()), orderId, now) == Success(State())
        && r.value == AssessmentOf(old(State()), orderId)
    {
      if orderId !in orders || !IsApproved(orders[orderId].approval) {
        return Failure(NotApproved);
      }
      ghost var before := State();
      var savedItems, savedReservations := items, reservations;
      ReleaseActive(orders[orderId].items, now, true);
      var totals := SumActive();
      TotalsOfOthers(before, orderId, totals, now);
      var rejected, assessed := AssessItems(before, orderId, totals, now);
      if rejected {
        items, reservations := savedItems, savedReservations;
        return Failure(QuantityRejected);
      }
      var statuses := seq(|assessed|, k requires 0 <= k < |assessed| => assessed[k].decision.status);
      assert statuses == AssessedStatuses(before, orderId);
      var summary := SummaryFor(statuses, false);
      orders := orders[orderId := orders[orderId].(summary := summary)];
      r := Success(Assessment(orderId, summary, assessed));
    }

    method ReleaseOrderReservations(orderId: Id, now: Time)
      requires WellFormed(State())
      modifies this`reservations
      ensures State() == Release(old(State()), orderId, now)
    {
      if orderId !in orders {
        return;
      }
      ReleaseActive(orders[orderId].items, now, false);
    }

    // SELECT SUM(quantity) ... WHERE product_id = product AND status = 'ACTIVE' AND order_item_id <> itemId
    method SumHeldByOthers(product: Id, itemId: Id) returns (total: int)
      ensures total == HeldByOthers(reservations, product, itemId)
    {
      total := 0;
      var left := reservations.Keys;
      ghost var seen: map<Id, int> := map[];
      var others := OtherRows(reservations, [itemId], product);
      while left != {}
        invariant left <= reservations.Keys
        invariant seen == map i | i in others && i !in left :: others[i]
        invariant total == Sum(seen)
        decreases left
      {
        var i :| i in left;
        left := left - {i};
        SumAdd(seen, i, others[i]);
        seen := seen[i := others[i]];
        if i != itemId && reservations[i].productId == product && reservations[i].status == Active {
          total := total + reservations[i].quantity;
        }
      }
      assert seen == others;
    }

    method SetItemStatus(orderId: Id, itemId: Id, next: ProcurementStatus, now: Time)
      returns (r: Result<ProcurementSummary, ProcurementError>)
      requires WellFormed(State())
      modifies this
      ensures r.Failure? ==> SetStatus(old(State()), orderId, itemId, next, now) == Failure(r.error)
                             && State() == old(State())
      ensures r.Success? ==> SetStatus(old(State()), orderId, itemId, next, now) == Success(State())
                             && r.value == State().orders[orderId].summary
    {
      if itemId !in items || items[itemId].orderId != orderId {
        return Failure(ItemNotFound);
      }
      var item := items[itemId];
      if item.status != next && next !in AllowedTransitions(item.status) {
        return Failure(InvalidTransition);
      }
      var reason, stockAtDecision, availableAtDecision := item.reason, item.stockAtDecision, item.availableAtDecision;
      if next == InStock {
        var product := Match(State(), item.catalogId);
        if product.None? || products[product.value].stock.None? {
          return Failure(OrderNotReady);
        }
        var stock := products[product.value].stock.value;
        var alreadyReserved := SumHeldByOthers(product.value, itemId);
        var available := Available(stock, alreadyReserved);
        if available < item.quantity {
          return Failure(OrderNotReady);
        }
        if item.quantity <= 0 {
          return Failure(QuantityRejected);
        }
        reservations := reservations[itemId := Reservation(product.value, item.quantity, Active, None, None)];
        reason, stockAtDecision, availableAtDecision := Some(ManualInStock), Some(stock), Some(available);
      } else if next == ToOrder || next == Unavailable {
        ReleaseActive([itemId], now, false);
        reason := if next == ToOrder then Some(ManualToOrder) else reason;
      }
      items := items[itemId := item.(status := next, source := Some(Manual), reason := reason,
        stockAtDecision := stockAtDecision, availableAtDecision := availableAtDecision, updatedAt := Some(now))];
      var order := orders[orderId];
      var summary := SummaryFor(Statuses(items, order.items), order.handedOffAt.Some?);
      orders := orders[orderId := order.(summary := summary)];
      r := Success(summary);
    }

    // The order's ACTIVE reservations, in item order.
    method ActiveReservations(ids: seq<Id>) returns (active: seq<Reservation>)
      ensures active == ActiveAmong(reservations, ids)
    {
      active := [];
      for k := 0 to |ids|
        invariant active == ActiveAmong(reservations, ids[..k])
      {
        assert ids[..k + 1][..k] == ids[..k];
        if ids[k] in reservations && reservations[ids[k]].status == Active {
          active := active + [reservations[ids[k]]];
        }
      }
      assert ids[..|ids|] == ids;
    }

    method GroupByProduct(active: seq<Reservation>) returns (quantityByProduct: map<Id, int>)
      ensures forall p: Id :: Lookup(quantityByProduct, p).GetOr(0) == HeldBy(active, p)
    {
      quantityByProduct := map[];
      for k := 0 to |active|
        invariant forall p: Id :: Lookup(quantityByProduct, p).GetOr(0) == HeldBy(active[..k], p)
      {
        assert active[..k + 1][..k] == active[..k];
        var p := active[k].productId;
        quantityByProduct := quantityByProduct[p := Lookup(quantityByProduct, p).GetOr(0) + active[k].quantity];
      }
      assert active[..|active|] == active;
    }

    method DecrementStock(quantityByProduct: map<Id, int>)
      modifies this`products
      ensures products.Keys == old(products).Keys
      ensures forall p: Id :: p in products ==>
        products[p] == old(products)[p].(
          stock := Decrement(old(products)[p].stock, Lookup(quantityByProduct, p).GetOr(0)))
    {
      var left := quantityByProduct.Keys;
      while left != {}
        invariant left <= quantityByProduct.Keys
        invariant products.Keys == old(products).Keys
        invariant forall p: Id :: p in products ==>
          products[p] == old(products)[p].(stock := Decrement(old(products)[p].stock,
            if p in left then 0 else Lookup(quantityByProduct, p).GetOr(0)))
        decreases left
      {
        var p :| p in left;
        left := left - {p};
        if p in products {
          products := products[p := products[p].(stock := Decrement(products[p].stock, quantityByProduct[p]))];
        }
      }
    }

    method HandOffOrder(orderId: Id, now: Time) returns (r: Result<Receipt, ProcurementError>)
      requires WellFormed(State()) && InIdOrder(State())
      modifies this
      ensures r.Failure? ==> HandOff(old(State()), orderId, now) == Failure(r.error) && State() == old(State())
      ensures r.Success? ==>
        && HandOff(old(State()), orderId, now) == Success(State())
        && orderId in State().orders
        && State().orders[orderId].handedOffAt.Some?
        && r.value == Receipt(orderId, HandedOff, State().orders[orderId].handedOffAt.value)
    {
      if orderId !in orders {
        return Failure(ItemNotFound);
      }
      var order := orders[orderId];
      if order.handedOffAt.Some? {
        return Success(Receipt(orderId, HandedOff, order.handedOffAt.value));
      }
      var summary := SummaryFor(Statuses(items, order.items), false);
      if summary != Ready {
        return Failure(OrderNotReady);
      }
      ghost var before := State();
      var active := ActiveReservations(order.items);
      var quantityByProduct := GroupByProduct(active);
      TotalsOfOrder(before, orderId, active, quantityByProduct);
      DecrementStock(quantityByProduct);
      SameStock(before, products, orderId);
      ConsumeActive(order.items, now);
      orders := orders[orderId := order.(handedOffAt := Some(now), summary := HandedOff)];
      r := Success(Receipt(orderId, HandedOff, now));
    }

    // UPDATE inventory_reservations SET status = 'CONSUMED' for the ACTIVE reservations of the order
    method ConsumeActive(ids: seq<Id>, now: Time)
      modifies this`reservations
      ensures reservations == ConsumeAll(old(reservations), ids, now)
    {
      for k := 0 to |ids|
        invariant reservations == ConsumeAll(old(reservations), ids[..k], now)
      {
        assert forall i :: i in ids[..k + 1] <==> i in ids[..k] || i == ids[k];
        if ids[k] in reservations && reservations[ids[k]].status == Active {
          reservations := reservations[ids[k] := ConsumeRow(reservations[ids[k]], now)];
        }
      }
      assert ids[..|ids|] == ids;
    }
  }

  // ----- What the assessment loop computes -----

  ghost function AssessedUpTo(rows: Rows, orderId: Id, n: nat): seq<AssessedItem>
    requires WellFormed(rows) && orderId in rows.orders && n <= |rows.orders[orderId].items|
  {
    seq(n, k requires 0 <= k < n => AssessedItem(rows.orders[orderId].items[k], Decide(rows, orderId, k)))
  }

  lemma AssessedOneMore(rows: Rows, orderId: Id, k: nat)
    requires WellFormed(rows) && orderId in rows.orders && k < |rows.orders[orderId].items|
    ensures AssessedUpTo(rows, orderId, k + 1)
         == AssessedUpTo(rows, orderId, k) + [AssessedItem(rows.orders[orderId].items[k], Decide(rows, orderId, k))]
  {
  }

  ghost function AssessmentOf(rows: Rows, orderId: Id): Assessment
    requires WellFormed(rows) && orderId in rows.orders
  {
    Assessment(orderId, SummaryFor(AssessedStatuses(rows, orderId), false),
               AssessedUpTo(rows, orderId, |rows.orders[orderId].items|))
  }

  ghost predicate ReservedSoFar(rows: Rows, orderId: Id, k: nat, reservedByProduct: map<Id, int>)
    requires WellFormed(rows) && orderId in rows.orders && k <= |rows.orders[orderId].items|
  {
    forall p: Id ::
      Lookup(reservedByProduct, p).GetOr(0) == OthersHold(rows, orderId, p) + AcceptedBefore(rows, orderId, p, k)
  }

  // Once the order's own rows are released, the ACTIVE totals are what other orders hold.
  lemma TotalsOfOthers(rows: Rows, orderId: Id, totals: map<Id, int>, now: Time)
    requires WellFormed(rows) && orderId in rows.orders
    requires forall p: Id ::
      Lookup(totals, p).GetOr(0) ==
      ActiveTotal(ReleaseAll(rows.reservations, rows.orders[orderId].items, now, true), p)
    ensures ReservedSoFar(rows, orderId, 0, totals)
    ensures AssessedReservations(rows, orderId, 0, now)
         == ReleaseAll(rows.reservations, rows.orders[orderId].items, now, true)
  {
    forall p: Id
      ensures Lookup(totals, p).GetOr(0) == OthersHold(rows, orderId, p)
    {
      HeldAfterRelease(rows.reservations, rows.orders[orderId].items, now, true, p);
    }
  }

  ghost predicate NoneRejected(rows: Rows, orderId: Id, n: nat)
    requires WellFormed(rows) && orderId in rows.orders && n <= |rows.orders[orderId].items|
  {
    forall k :: 0 <= k < n && Accepts(rows, orderId, k) ==> InputsAt(rows, orderId, k).quantity > 0
  }

  lemma ItemStillThere(rows: Rows, orderId: Id, k: nat, now: Time)
    requires WellFormed(rows) && InIdOrder(rows) && orderId in rows.orders && k < |rows.orders[orderId].items|
    ensures Lookup(AssessedItems(rows, orderId, k, now), rows.orders[orderId].items[k])
         == Some(ItemAt(rows, orderId, k))
  {
    OutsideAssessment(rows, orderId, k, now, rows.orders[orderId].items[k]);
  }

  // The running totals of the loop are the totals of the reference meaning, before and after.
  lemma SameInputsAt(rows: Rows, orderId: Id, k: nat, item: Item, product: Option<Id>, reservedByProduct: map<Id, int>)
    requires WellFormed(rows) && orderId in rows.orders && k < |rows.orders[orderId].items|
    requires item == ItemAt(rows, orderId, k) && product == Match(rows, item.catalogId)
    requires ReservedSoFar(rows, orderId, k, reservedByProduct)
    ensures InputsAt(rows, orderId, k) == Inputs(
      product, StockOf(rows, product),
      if product.Some? then Lookup(reservedByProduct, product.value).GetOr(0) else 0, item.quantity)
    ensures Accepts(rows, orderId, k) ==>
      ReservedSoFar(rows, orderId, k + 1, reservedByProduct[
        product.value := Lookup(reservedByProduct, product.value).GetOr(0) + item.quantity])
    ensures !Accepts(rows, orderId, k) ==> ReservedSoFar(rows, orderId, k + 1, reservedByProduct)
  {
  }

  // ----- What the loops of the hand-off compute -----

  function ActiveAmong(reservations: map<Id, Reservation>, ids: seq<Id>): seq<Reservation> {
    if ids == [] then []
    else
      var last := ids[|ids| - 1];
      ActiveAmong(reservations, ids[..|ids| - 1])
      + if last in reservations && reservations[last].status == Active then [reservations[last]] else []
  }

  function HeldBy(rows: seq<Reservation>, product: Id): int {
    if rows == [] then 0
    else HeldBy(rows[..|rows| - 1], product) + QuantityFor(rows[|rows| - 1], product)
  }

  function QuantityFor(row: Reservation, product: Id): int {
    if row.productId == product then row.quantity else 0
  }

  lemma {:induction false} HeldByActive(reservations: map<Id, Reservation>, ids: seq<Id>, product: Id)
    ensures HeldBy(ActiveAmong(reservations, ids), product) == HeldIn(reservations, ids, product)
  {
    if ids != [] {
      HeldByActive(reservations, ids[..|ids| - 1], product);
      var last := ids[|ids| - 1];
      var front := ActiveAmong(reservations, ids[..|ids| - 1]);
      assert front + [] == front;
      if last in reservations && reservations[last].status == Active {
        assert (front + [reservations[last]])[..|front|] == front;
      }
    }
  }

  lemma TotalsOfOrder(rows: Rows, orderId: Id, active: seq<Reservation>, totals: map<Id, int>)
    requires orderId in rows.orders && active == ActiveAmong(rows.reservations, rows.orders[orderId].items)
    requires forall p: Id :: Lookup(totals, p).GetOr(0) == HeldBy(active, p)
    ensures forall p: Id :: Lookup(totals, p).GetOr(0) == HeldByOrder(rows, orderId, p)
  {
    forall p: Id
      ensures HeldBy(active, p) == HeldByOrder(rows, orderId, p)
    {
      HeldByActive(rows.reservations, rows.orders[orderId].items, p);
    }
  }

  // The grouped decrement is the same as taking the reservations out one at a time.
  lemma SameStock(before: Rows, products: map<Id, Product>, orderId: Id)
    requires orderId in before.orders && products.Keys == before.products.Keys
    requires forall p :: p in products ==>
      products[p] == before.products[p].(
        stock := Decrement(before.products[p].stock, HeldByOrder(before, orderId, p)))
    ensures products == TakeFromStock(before.products, before.reservations, before.orders[orderId].items)
  {
    forall p: Id
      ensures Lookup(products, p)
           == Lookup(TakeFromStock(before.products, before.reservations, before.orders[orderId].items), p)
    {
      StockAfterTaking(before.products, before.reservations, before.orders[orderId].items, p);
    }
    SameByLookup(products, TakeFromStock(before.products, before.reservations, before.orders[orderId].items));
  }
}
