// Items in stock and the reservations behind them: when every such item is backed by one, and what a
// hand-off takes when some are not.
module ProcurementBacking {
  import opened Options
  import opened MapSums
  import opened ProcurementContract
  import opened ProcurementModel
  import opened ProcurementProofs
  import opened ProcurementRuns

  predicate HasActive(reservations: map<Id, Reservation>, i: Id) {
    i in reservations && reservations[i].status == Active
  }

  predicate InStockAt(items: map<Id, Item>, i: Id) {
    i in items && items[i].status == InStock
  }

  // Every item in stock of this order has an ACTIVE reservation.
  ghost predicate OrderBacked(rows: Rows, orderId: Id)
    requires orderId in rows.orders
  {
    forall i :: i in rows.orders[orderId].items && InStockAt(rows.items, i) ==> HasActive(rows.reservations, i)
  }

  // So it is for every order that was not handed off.
  ghost predicate Backed(rows: Rows) {
    forall o :: o in rows.orders && rows.orders[o].handedOffAt.None? ==> OrderBacked(rows, o)
  }

  // Releasing an order that was not handed off and has an item in stock.
  ghost predicate Strands(rows: Rows, step: Step) {
    && step.DoRelease? && step.orderId in rows.orders && rows.orders[step.orderId].handedOffAt.None?
    && exists i :: i in rows.orders[step.orderId].items && InStockAt(rows.items, i)
  }

  // ----- One transaction -----

  // An order whose items, reservations and hand-off time did not change stays backed.
  lemma UntouchedOrderBacked(rows: Rows, after: Rows, o: Id)
    requires o in rows.orders && o in after.orders && after.orders[o].items == rows.orders[o].items
    requires forall i :: i in rows.orders[o].items ==>
      Lookup(after.items, i) == Lookup(rows.items, i) && Lookup(after.reservations, i) == Lookup(rows.reservations, i)
    requires OrderBacked(rows, o)
    ensures OrderBacked(after, o)
  {
    forall i | i in after.orders[o].items && InStockAt(after.items, i)
      ensures HasActive(after.reservations, i)
    {
      assert Lookup(after.items, i) == Lookup(rows.items, i);
      assert Lookup(after.reservations, i) == Lookup(rows.reservations, i);
    }
  }

  lemma AssessedOrderBacked(rows: Rows, orderId: Id, now: Time)
    requires Good(rows) && Assess(rows, orderId, now).Success?
    ensures OrderBacked(Assess(rows, orderId, now).value, orderId)
  {
    var after := Assess(rows, orderId, now).value;
    forall i | i in rows.orders[orderId].items && InStockAt(after.items, i)
      ensures HasActive(after.reservations, i)
    {
      var k :| 0 <= k < |rows.orders[orderId].items| && rows.orders[orderId].items[k] == i;
      AssessMeaning(rows, orderId, now, k);
    }
  }

  lemma AssessBacks(rows: Rows, orderId: Id, now: Time)
    requires Good(rows) && Backed(rows)
    ensures Backed(Apply(rows, DoAssess(orderId, now)))
  {
    if Assess(rows, orderId, now).Success? {
      var after := Assess(rows, orderId, now).value;
      AssessedOrderBacked(rows, orderId, now);
      forall o | o in after.orders && after.orders[o].handedOffAt.None? && o != orderId
        ensures OrderBacked(after, o)
      {
        forall i | i in rows.orders[o].items
          ensures Lookup(after.items, i) == Lookup(rows.items, i)
          ensures Lookup(after.reservations, i) == Lookup(rows.reservations, i)
        {
          assert rows.items[i].orderId == o;
          assert i !in rows.orders[orderId].items;
          AssessedRow(rows, orderId, now, i);
        }
        UntouchedOrderBacked(rows, after, o);
      }
    }
  }

  lemma SetStatusBacks(rows: Rows, orderId: Id, itemId: Id, next: ProcurementStatus, now: Time)
    requires Good(rows) && Backed(rows)
    ensures Backed(Apply(rows, DoSetStatus(orderId, itemId, next, now)))
  {
    var result := SetStatus(rows, orderId, itemId, next, now);
    if result.Success? {
      var after := result.value;
      forall o | o in after.orders && after.orders[o].handedOffAt.None?
        ensures OrderBacked(after, o)
      {
        forall i | i in after.orders[o].items && InStockAt(after.items, i)
          ensures HasActive(after.reservations, i)
        {
          SetStatusMeaning(rows, orderId, itemId, next, now, i);
          if i != itemId {
            assert InStockAt(rows.items, i);
            assert OrderBacked(rows, o);
            assert HasActive(rows.reservations, i);
          }
        }
      }
    }
  }

  lemma HandOffBacks(rows: Rows, orderId: Id, now: Time)
    requires Good(rows) && Backed(rows)
    ensures Backed(Apply(rows, DoHandOff(orderId, now)))
  {
    if CanHandOff(rows, orderId) {
      var after := HandedOffRows(rows, orderId, now);
      forall o | o in after.orders && after.orders[o].handedOffAt.None?
        ensures OrderBacked(after, o)
      {
        OthersNotListed(rows, orderId, o);
        UntouchedOrderBacked(rows, after, o);
      }
    }
  }

  // No item is listed by two orders.
  lemma OthersNotListed(rows: Rows, orderId: Id, other: Id)
    requires WellFormed(rows) && orderId in rows.orders && other in rows.orders && other != orderId
    ensures forall i :: i in rows.orders[other].items ==> i !in rows.orders[orderId].items
  {
    forall i | i in rows.orders[other].items
      ensures i !in rows.orders[orderId].items
    {
      assert rows.items[i].orderId == other;
    }
  }

  lemma ReleaseBacks(rows: Rows, orderId: Id, now: Time)
    requires Good(rows) && Backed(rows)
    ensures Backed(Apply(rows, DoRelease(orderId, now))) <==> !Strands(rows, DoRelease(orderId, now))
  {
    var after := Release(rows, orderId, now);
    if Strands(rows, DoRelease(orderId, now)) {
      var i :| i in rows.orders[orderId].items && InStockAt(rows.items, i);
      assert !HasActive(after.reservations, i);
      assert !OrderBacked(after, orderId);
    } else if orderId in rows.orders {
      forall o | o in after.orders && after.orders[o].handedOffAt.None?
        ensures OrderBacked(after, o)
      {
        if o != orderId {
          OthersNotListed(rows, orderId, o);
          UntouchedOrderBacked(rows, after, o);
        }
      }
    }
  }

  // A step leaves every item in stock backed exactly when it does not release an order, not handed
  // off, that has an item in stock.
  lemma StaysBackedIff(rows: Rows, step: Step)
    requires Good(rows) && Backed(rows)
    ensures Backed(Apply(rows, step)) <==> !Strands(rows, step)
  {
    match step
    case DoAssess(o, now) => AssessBacks(rows, o, now);
    case DoSetStatus(o, i, next, now) => SetStatusBacks(rows, o, i, next, now);
    case DoRelease(o, now) => ReleaseBacks(rows, o, now);
    case DoHandOff(o, now) => HandOffBacks(rows, o, now);
  }

  // ----- Runs -----

  ghost predicate NeverStrands(rows: Rows, steps: seq<Step>)
    requires Good(rows)
    decreases |steps|
  {
    steps == [] || (
      && !Strands(rows, steps[0])
      && (ApplyKeeps(rows, steps[0]); NeverStrands(Apply(rows, steps[0]), steps[1..])))
  }

  // Every state of the run, the first included, is backed.
  ghost predicate BackedThroughout(rows: Rows, steps: seq<Step>)
    requires Good(rows)
    decreases |steps|
  {
    Backed(rows) && (steps == [] || (ApplyKeeps(rows, steps[0]); BackedThroughout(Apply(rows, steps[0]), steps[1..])))
  }

  // Items in stock stay backed throughout a run exactly when it has no such release.
  lemma {:induction false} BackedThroughoutIff(rows: Rows, steps: seq<Step>)
    requires Good(rows) && Backed(rows)
    ensures BackedThroughout(rows, steps) <==> NeverStrands(rows, steps)
    decreases |steps|
  {
    if steps != [] {
      ApplyKeeps(rows, steps[0]);
      StaysBackedIff(rows, steps[0]);
      if Backed(Apply(rows, steps[0])) {
        BackedThroughoutIff(Apply(rows, steps[0]), steps[1..]);
      }
    }
  }

  lemma {:induction false} EndsBacked(rows: Rows, steps: seq<Step>)
    requires Good(rows) && Backed(rows) && NeverStrands(rows, steps)
    ensures Backed(Run(rows, steps))
    decreases |steps|
  {
    if steps != [] {
      ApplyKeeps(rows, steps[0]);
      StaysBackedIff(rows, steps[0]);
      EndsBacked(Apply(rows, steps[0]), steps[1..]);
    }
  }

  // ----- What a hand-off takes -----

  // The quantity of the items in stock, and of those among them that nothing is reserved for.
  function InStockQuantity(rows: Rows, ids: seq<Id>): int {
    if ids == [] then 0
    else
      var last := ids[|ids| - 1];
      InStockQuantity(rows, ids[..|ids| - 1]) + if InStockAt(rows.items, last) then rows.items[last].quantity else 0
  }

  function UnbackedQuantity(rows: Rows, ids: seq<Id>): int {
    if ids == [] then 0
    else
      var last := ids[|ids| - 1];
      UnbackedQuantity(rows, ids[..|ids| - 1])
      + if InStockAt(rows.items, last) && !HasActive(rows.reservations, last) then rows.items[last].quantity else 0
  }

  // What some items hold of all products together.
  ghost function HeldOfAll(rows: Rows, ids: seq<Id>): int {
    Sum(map p | p in rows.products :: HeldIn(rows.reservations, ids, p))
  }

  ghost function HeldByRow(rows: Rows, i: Id): map<Id, int> {
    map p | p in rows.products :: if i in rows.reservations then Held(rows.reservations[i], p) else 0
  }

  // A reservation holds its quantity of one product.
  lemma RowHolds(rows: Rows, i: Id)
    requires WellFormed(rows)
    ensures Sum(HeldByRow(rows, i)) == if HasActive(rows.reservations, i) then rows.reservations[i].quantity else 0
  {
    var held := HeldByRow(rows, i);
    if HasActive(rows.reservations, i) {
      var p := rows.reservations[i].productId;
      SumPick(held, p);
      SumZero(held - {p});
    } else {
      SumZero(held);
    }
  }

  lemma {:induction false} HeldOfAllIs(rows: Rows, ids: seq<Id>)
    requires WellFormed(rows) && Coupled(rows)
    ensures HeldOfAll(rows, ids) == InStockQuantity(rows, ids) - UnbackedQuantity(rows, ids)
  {
    var whole := map p | p in rows.products :: HeldIn(rows.reservations, ids, p);
    if ids == [] {
      SumZero(whole);
    } else {
      var front, last := ids[..|ids| - 1], ids[|ids| - 1];
      HeldOfAllIs(rows, front);
      RowHolds(rows, last);
      SumSplit(whole, map p | p in rows.products :: HeldIn(rows.reservations, front, p), HeldByRow(rows, last));
    }
  }

  // What a hand-off takes of all products together.
  ghost function TakesOfAll(rows: Rows, step: Step): int
    requires WellFormed(rows)
  {
    Sum(map p | p in rows.products :: Takes(rows, step, p))
  }

  // A hand-off falls short of its items in stock by exactly the quantity of those that nothing is
  // reserved for.
  lemma HandOffFallsShort(rows: Rows, orderId: Id, now: Time)
    requires Good(rows) && CanHandOff(rows, orderId)
    ensures var ids := rows.orders[orderId].items;
      TakesOfAll(rows, DoHandOff(orderId, now)) == InStockQuantity(rows, ids) - UnbackedQuantity(rows, ids)
  {
    var ids := rows.orders[orderId].items;
    HeldOfAllIs(rows, ids);
    assert (map p | p in rows.products :: Takes(rows, DoHandOff(orderId, now), p))
        == (map p | p in rows.products :: HeldIn(rows.reservations, ids, p));
  }

  lemma {:induction false} NothingUnbacked(rows: Rows, ids: seq<Id>)
    requires forall i :: i in ids && InStockAt(rows.items, i) ==> HasActive(rows.reservations, i)
    ensures UnbackedQuantity(rows, ids) == 0
  {
    if ids != [] {
      NothingUnbacked(rows, ids[..|ids| - 1]);
    }
  }

  // Where items in stock are backed, a hand-off takes the full quantity of each of them.
  lemma BackedHandOffTakesAll(rows: Rows, orderId: Id, now: Time)
    requires Good(rows) && Backed(rows) && CanHandOff(rows, orderId)
    ensures TakesOfAll(rows, DoHandOff(orderId, now)) == InStockQuantity(rows, rows.orders[orderId].items)
    ensures forall i :: i in rows.orders[orderId].items && InStockAt(rows.items, i) ==>
      HasActive(rows.reservations, i) && rows.reservations[i].quantity == rows.items[i].quantity
  {
    assert OrderBacked(rows, orderId);
    HandOffFallsShort(rows, orderId, now);
    NothingUnbacked(rows, rows.orders[orderId].items);
  }

  lemma {:induction false} ReleasedHoldNothing(reservations: map<Id, Reservation>, all: seq<Id>, ids: seq<Id>, now: Time, p: Id)
    requires forall i :: i in ids ==> i in all
    ensures HeldIn(ReleaseAll(reservations, all, now, false), ids, p) == 0
  {
    if ids != [] {
      ReleasedHoldNothing(reservations, all, ids[..|ids| - 1], now, p);
    }
  }

  // A released order that was ready is still handed off, and takes nothing from any stock.
  lemma ReleasedOrderTakesNothing(rows: Rows, orderId: Id, released: Time, now: Time, p: Id)
    requires Good(rows) && CanHandOff(rows, orderId)
    ensures var after := Apply(rows, DoRelease(orderId, released));
      && Good(after) && CanHandOff(after, orderId)
      && Takes(after, DoHandOff(orderId, now), p) == 0
      && StockAt(Apply(after, DoHandOff(orderId, now)), p) == StockAt(rows, p)
      && Apply(after, DoHandOff(orderId, now)).orders[orderId].handedOffAt == Some(now)
  {
    var after, ids := Apply(rows, DoRelease(orderId, released)), rows.orders[orderId].items;
    ApplyKeeps(rows, DoRelease(orderId, released));
    assert Statuses(after.items, ids) == Statuses(rows.items, ids);
    ReleasedHoldNothing(rows.reservations, ids, ids, released, p);
    ApplyTakes(after, DoHandOff(orderId, now), p);
  }
}
