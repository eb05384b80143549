// What every procurement transaction keeps.
module ProcurementProofs {
  import opened Options
  import opened MapSums
  import opened Tables
  import opened ProcurementContract
  import opened ProcurementModel

  // ----- Invariants -----

  // Nothing can be reserved from an unknown or negative stock.
  function Capacity(stock: Option<int>): nat {
    if stock.Some? && stock.value > 0 then stock.value else 0
  }

  ghost predicate NoOversell(rows: Rows) {
    forall p {:trigger ActiveTotal(rows.reservations, p)} ::
      p in rows.products ==> ActiveTotal(rows.reservations, p) <= Capacity(rows.products[p].stock)
  }

  // An ACTIVE reservation always serves an item that is in stock, at the item's own quantity.
  ghost predicate Coupled(rows: Rows) {
    forall i :: i in rows.reservations && rows.reservations[i].status == Active ==>
      i in rows.items && rows.items[i].status == InStock && rows.items[i].quantity == rows.reservations[i].quantity
  }

  ghost predicate StockNeverNegative(rows: Rows) {
    forall p :: p in rows.products && rows.products[p].stock.Some? ==> rows.products[p].stock.value >= 0
  }

  ghost predicate Invariant(rows: Rows) {
    WellFormed(rows) && NoOversell(rows) && Coupled(rows)
  }

  // ----- Assessing -----

  lemma AssessStep(rows: Rows, orderId: Id, n: nat, now: Time)
    requires WellFormed(rows) && orderId in rows.orders && n < |rows.orders[orderId].items|
    ensures var id := rows.orders[orderId].items[n];
      && AssessedItems(rows, orderId, n + 1, now)
         == AssessedItems(rows, orderId, n, now)[
              id := DecidedItem(ItemAt(rows, orderId, n), Decide(rows, orderId, n), now)]
      && AssessedReservations(rows, orderId, n + 1, now)
         == (if Accepts(rows, orderId, n)
             then AssessedReservations(rows, orderId, n, now)[id := AcceptedRow(rows, ItemAt(rows, orderId, n))]
             else AssessedReservations(rows, orderId, n, now))
  {
    var ids := rows.orders[orderId].items;
    var id := ids[n];
    assert ids[..n + 1] == ids[..n] + [id];
    var itemRow := Some(DecidedItem(ItemAt(rows, orderId, n), Decide(rows, orderId, n), now));
    assert ItemWrites(rows, orderId, n + 1, now) == ItemWrites(rows, orderId, n, now) + [itemRow];
    WriteOneMore(rows.items, ids[..n], ItemWrites(rows, orderId, n, now), id, itemRow);
    var released := ReleaseAll(rows.reservations, ids, now, true);
    var row := if Accepts(rows, orderId, n) then Some(AcceptedRow(rows, ItemAt(rows, orderId, n))) else None;
    assert ReservationWrites(rows, orderId, n + 1) == ReservationWrites(rows, orderId, n) + [row];
    WriteOneMore(released, ids[..n], ReservationWrites(rows, orderId, n), id, row);
  }

  // What an assessment leaves of a row outside the order, and of the order's k-th row.
  lemma OutsideAssessment(rows: Rows, orderId: Id, n: nat, now: Time, i: Id)
    requires InIdOrder(rows)
    requires WellFormed(rows) && orderId in rows.orders && n <= |rows.orders[orderId].items|
    requires i !in rows.orders[orderId].items[..n]
    ensures Lookup(AssessedItems(rows, orderId, n, now), i) == Lookup(rows.items, i)
    ensures Lookup(AssessedReservations(rows, orderId, n, now), i)
         == Lookup(ReleaseAll(rows.reservations, rows.orders[orderId].items, now, true), i)
  {
    var ids := rows.orders[orderId].items;
    WrittenElsewhere(rows.items, ids[..n], ItemWrites(rows, orderId, n, now), i);
    WrittenElsewhere(ReleaseAll(rows.reservations, ids, now, true), ids[..n], ReservationWrites(rows, orderId, n), i);
  }

  lemma InsideAssessment(rows: Rows, orderId: Id, now: Time, k: nat)
    requires InIdOrder(rows)
    requires WellFormed(rows) && orderId in rows.orders && k < |rows.orders[orderId].items|
    ensures var ids := rows.orders[orderId].items;
      && Lookup(AssessedItems(rows, orderId, |ids|, now), ids[k])
         == Some(DecidedItem(ItemAt(rows, orderId, k), Decide(rows, orderId, k), now))
      && Lookup(AssessedReservations(rows, orderId, |ids|, now), ids[k])
         == if Accepts(rows, orderId, k) then Some(AcceptedRow(rows, ItemAt(rows, orderId, k)))
            else Lookup(ReleaseAll(rows.reservations, ids, now, true), ids[k])
  {
    var ids := rows.orders[orderId].items;
    assert ids[..|ids|] == ids;
    assert Distinct(ids);
    WrittenAt(rows.items, ids, ItemWrites(rows, orderId, |ids|, now), k);
    WrittenAt(ReleaseAll(rows.reservations, ids, now, true), ids, ReservationWrites(rows, orderId, |ids|), k);
  }

  // Both at once, for any row of the two tables.
  lemma AssessedRow(rows: Rows, orderId: Id, now: Time, i: Id)
    requires InIdOrder(rows)
    requires WellFormed(rows) && orderId in rows.orders
    ensures var ids := rows.orders[orderId].items;
      var items := AssessedItems(rows, orderId, |ids|, now);
      var reservations := AssessedReservations(rows, orderId, |ids|, now);
      var released := ReleaseAll(rows.reservations, ids, now, true);
      && (i !in ids ==> Lookup(items, i) == Lookup(rows.items, i)
                        && Lookup(reservations, i) == Lookup(rows.reservations, i))
      && (forall k :: 0 <= k < |ids| && ids[k] == i ==>
            && Lookup(items, i) == Some(DecidedItem(ItemAt(rows, orderId, k), Decide(rows, orderId, k), now))
            && Lookup(reservations, i)
               == if Accepts(rows, orderId, k) then Some(AcceptedRow(rows, ItemAt(rows, orderId, k)))
                  else Lookup(released, i))
  {
    var ids := rows.orders[orderId].items;
    assert ids[..|ids|] == ids;
    if i !in ids {
      OutsideAssessment(rows, orderId, |ids|, now, i);
    } else {
      forall k | 0 <= k < |ids| && ids[k] == i
        ensures Lookup(AssessedItems(rows, orderId, |ids|, now), i)
             == Some(DecidedItem(ItemAt(rows, orderId, k), Decide(rows, orderId, k), now))
        ensures Lookup(AssessedReservations(rows, orderId, |ids|, now), i)
             == if Accepts(rows, orderId, k) then Some(AcceptedRow(rows, ItemAt(rows, orderId, k)))
                else Lookup(ReleaseAll(rows.reservations, ids, now, true), i)
      {
        InsideAssessment(rows, orderId, now, k);
      }
    }
  }

  // Writing a row for an item that holds nothing adds exactly what the row holds.
  lemma ActiveAfterActivation(before: map<Id, Reservation>, id: Id, row: Reservation, product: Id)
    requires id in before ==> before[id].status != Active
    ensures ActiveTotal(before[id := row], product) == ActiveTotal(before, product) + Held(row, product)
  {
    var held := HeldRows(before, product);
    assert HeldRows(before[id := row], product) == held[id := Held(row, product)];
    if id in before {
      SumUpdate(held, id, Held(row, product));
    } else {
      SumAdd(held, id, Held(row, product));
    }
  }

  lemma HeldSplits(reservations: map<Id, Reservation>, ids: seq<Id>, product: Id)
    ensures Sum(OtherRows(reservations, ids, product)) + Sum(OwnRows(reservations, ids, product))
         == ActiveTotal(reservations, product)
    ensures (forall i :: i in reservations ==> reservations[i].quantity > 0) ==>
      Sum(OtherRows(reservations, ids, product)) >= 0 && Sum(OwnRows(reservations, ids, product)) >= 0
  {
    var others := OtherRows(reservations, ids, product);
    var own := OwnRows(reservations, ids, product);
    SumSplit(HeldRows(reservations, product), others, own);
    if forall i :: i in reservations ==> reservations[i].quantity > 0 {
      var none := map i | i in reservations :: 0;
      SumZero(none);
      SumMonotone(none, others);
      SumMonotone(none, own);
    }
  }

  lemma HeldAfterRelease(reservations: map<Id, Reservation>, ids: seq<Id>, now: Time, clear: bool, product: Id)
    ensures ActiveTotal(ReleaseAll(reservations, ids, now, clear), product)
         == Sum(OtherRows(reservations, ids, product))
  {
    assert HeldRows(ReleaseAll(reservations, ids, now, clear), product) == OtherRows(reservations, ids, product);
  }

  lemma {:induction false} ActiveWhileAssessing(rows: Rows, orderId: Id, n: nat, now: Time, product: Id)
    requires InIdOrder(rows)
    requires WellFormed(rows) && orderId in rows.orders && n <= |rows.orders[orderId].items|
    ensures ActiveTotal(AssessedReservations(rows, orderId, n, now), product)
         == OthersHold(rows, orderId, product) + AcceptedBefore(rows, orderId, product, n)
  {
    var ids := rows.orders[orderId].items;
    if n == 0 {
      HeldAfterRelease(rows.reservations, ids, now, true, product);
    } else {
      ActiveWhileAssessing(rows, orderId, n - 1, now, product);
      AssessStep(rows, orderId, n - 1, now);
      OutsideAssessment(rows, orderId, n - 1, now, ids[n - 1]);
      if Accepts(rows, orderId, n - 1) {
        var before := AssessedReservations(rows, orderId, n - 1, now);
        ActiveAfterActivation(before, ids[n - 1], AcceptedRow(rows, ItemAt(rows, orderId, n - 1)), product);
      }
    }
  }

  lemma {:induction false} AcceptedFits(rows: Rows, orderId: Id, n: nat, product: Id)
    requires WellFormed(rows) && orderId in rows.orders && n <= |rows.orders[orderId].items|
    requires !Rejects(rows, orderId) && product in rows.products
    requires ActiveTotal(rows.reservations, product) <= Capacity(rows.products[product].stock)
    ensures OthersHold(rows, orderId, product) + AcceptedBefore(rows, orderId, product, n)
         <= Capacity(rows.products[product].stock)
  {
    HeldSplits(rows.reservations, rows.orders[orderId].items, product);
    if n > 0 {
      AcceptedFits(rows, orderId, n - 1, product);
      if Accepts(rows, orderId, n - 1) {
        assert InputsAt(rows, orderId, n - 1).quantity > 0;
      }
    }
  }

  lemma AssessKeeps(rows: Rows, orderId: Id, now: Time)
    requires InIdOrder(rows)
    requires Invariant(rows)
    ensures Assess(rows, orderId, now).Success? ==> Invariant(Assess(rows, orderId, now).value)
  {
    if Assess(rows, orderId, now).Success? {
      var after := Assess(rows, orderId, now).value;
      var n := |rows.orders[orderId].items|;
      AssessKeepsRows(rows, orderId, now);
      forall p | p in after.products
        ensures ActiveTotal(after.reservations, p) <= Capacity(after.products[p].stock)
      {
        ActiveWhileAssessing(rows, orderId, n, now, p);
        AcceptedFits(rows, orderId, n, p);
      }
    }
  }

  // The structural guarantees survive when keys and cross-references stay as they are.
  lemma WellFormedKept(rows: Rows, after: Rows)
    requires WellFormed(rows)
    requires after.skuIndex == rows.skuIndex && after.products.Keys == rows.products.Keys
    requires forall p :: p in rows.products ==> after.products[p].sku == rows.products[p].sku
    requires after.orders.Keys == rows.orders.Keys
    requires forall o :: o in rows.orders ==> after.orders[o].items == rows.orders[o].items
    requires after.items.Keys == rows.items.Keys
    requires forall i :: i in rows.items ==> after.items[i].orderId == rows.items[i].orderId
    requires forall i :: i in after.reservations ==>
      i in rows.items && after.reservations[i].productId in rows.products && after.reservations[i].quantity > 0
    ensures WellFormed(after)
  {
  }

  lemma AssessKeepsRows(rows: Rows, orderId: Id, now: Time)
    requires InIdOrder(rows)
    requires WellFormed(rows) && Coupled(rows)
    requires Assess(rows, orderId, now).Success?
    ensures WellFormed(Assess(rows, orderId, now).value) && Coupled(Assess(rows, orderId, now).value)
  {
    var after := Assess(rows, orderId, now).value;
    forall i
      ensures i in after.items <==> i in rows.items
      ensures i in rows.items ==> after.items[i].orderId == rows.items[i].orderId
      ensures i in after.reservations ==>
        && i in rows.items
        && after.reservations[i].productId in rows.products && after.reservations[i].quantity > 0
        && (after.reservations[i].status == Active ==>
              after.items[i].status == InStock && after.items[i].quantity == after.reservations[i].quantity)
    {
      AssessedEntry(rows, orderId, now, i);
    }
    WellFormedKept(rows, after);
  }

  // Everything the invariants ask of one key after an assessment.
  lemma AssessedEntry(rows: Rows, orderId: Id, now: Time, i: Id)
    requires InIdOrder(rows)
    requires WellFormed(rows) && Coupled(rows)
    requires Assess(rows, orderId, now).Success?
    ensures var after := Assess(rows, orderId, now).value;
      && (i in after.items <==> i in rows.items)
      && (i in rows.items ==> after.items[i].orderId == rows.items[i].orderId
                              && after.items[i].catalogId == rows.items[i].catalogId
                              && after.items[i].quantity == rows.items[i].quantity)
      && (i in after.reservations ==>
            && i in rows.items
            && after.reservations[i].productId in rows.products && after.reservations[i].quantity > 0
            && (after.reservations[i].status == Active ==>
                  after.items[i].status == InStock && after.items[i].quantity == after.reservations[i].quantity))
  {
    AssessedRow(rows, orderId, now, i);
    var ids := rows.orders[orderId].items;
    if i in ids {
      var k :| 0 <= k < |ids| && ids[k] == i;
      assert ItemAt(rows, orderId, k) == rows.items[i];
      assert Accepts(rows, orderId, k) ==> InputsAt(rows, orderId, k).quantity > 0;
    }
  }

  // ----- Assessing twice -----

  // The rows with the decision time of an order's items moved to `now`.
  ghost function Touch(rows: Rows, orderId: Id, now: Time): Rows
    requires orderId in rows.orders
  {
    rows.(items := map i | i in rows.items ::
      if i in rows.orders[orderId].items then rows.items[i].(updatedAt := Some(now)) else rows.items[i])
  }

  lemma OthersHoldUnmoved(rows: Rows, orderId: Id, now: Time, product: Id)
    requires InIdOrder(rows)
    requires WellFormed(rows) && Assess(rows, orderId, now).Success?
    ensures OthersHold(Assess(rows, orderId, now).value, orderId, product) == OthersHold(rows, orderId, product)
  {
    var after := Assess(rows, orderId, now).value;
    var ids := rows.orders[orderId].items;
    forall i
      ensures i in rows.reservations ==> i in after.reservations
      ensures i !in ids ==> Lookup(after.reservations, i) == Lookup(rows.reservations, i)
    {
      AssessedRow(rows, orderId, now, i);
    }
    ExtraZeros(OtherRows(rows.reservations, ids, product), OtherRows(after.reservations, ids, product));
  }

  lemma {:induction false} ExtraZeros(a: map<Id, int>, b: map<Id, int>)
    requires a.Keys <= b.Keys
    requires forall k :: k in b ==> b[k] == if k in a then a[k] else 0
    ensures Sum(a) == Sum(b)
    decreases |b|
  {
    if a.Keys == b.Keys {
      assert a == b;
    } else {
      var k :| k in b && k !in a;
      SumPick(b, k);
      ExtraZeros(a, b - {k});
    }
  }

  // The rows an assessment reads for item k are the same after it.
  ghost predicate SameInputs(rows: Rows, after: Rows, orderId: Id)
    requires WellFormed(rows) && WellFormed(after) && orderId in rows.orders
  {
    && orderId in after.orders && after.orders[orderId].items == rows.orders[orderId].items
    && after.products == rows.products && after.skuIndex == rows.skuIndex
    && (forall k :: 0 <= k < |rows.orders[orderId].items| ==>
          && ItemAt(after, orderId, k).catalogId == ItemAt(rows, orderId, k).catalogId
          && ItemAt(after, orderId, k).quantity == ItemAt(rows, orderId, k).quantity)
    && (forall p :: OthersHold(after, orderId, p) == OthersHold(rows, orderId, p))
  }

  lemma {:induction false} AcceptedAlike(rows: Rows, after: Rows, orderId: Id, k: nat, product: Id)
    requires WellFormed(rows) && WellFormed(after) && orderId in rows.orders && SameInputs(rows, after, orderId)
    requires k <= |rows.orders[orderId].items|
    ensures AcceptedBefore(after, orderId, product, k) == AcceptedBefore(rows, orderId, product, k)
    decreases k, 0
  {
    if k > 0 {
      AcceptedAlike(rows, after, orderId, k - 1, product);
      InputsAlike(rows, after, orderId, k - 1);
    }
  }

  lemma {:induction false} InputsAlike(rows: Rows, after: Rows, orderId: Id, k: nat)
    requires WellFormed(rows) && WellFormed(after) && orderId in rows.orders && SameInputs(rows, after, orderId)
    requires k < |rows.orders[orderId].items|
    ensures InputsAt(after, orderId, k) == InputsAt(rows, orderId, k)
    decreases k, 1
  {
    assert ItemAt(after, orderId, k).catalogId == ItemAt(rows, orderId, k).catalogId;
    var product := Match(rows, ItemAt(rows, orderId, k).catalogId);
    if product.Some? {
      AcceptedAlike(rows, after, orderId, k, product.value);
    }
  }

  lemma AssessKeepsInputs(rows: Rows, orderId: Id, now: Time)
    requires InIdOrder(rows)
    requires WellFormed(rows) && Coupled(rows) && Assess(rows, orderId, now).Success?
    ensures WellFormed(Assess(rows, orderId, now).value)
    ensures SameInputs(rows, Assess(rows, orderId, now).value, orderId)
  {
    AssessKeepsRows(rows, orderId, now);
    var ids := rows.orders[orderId].items;
    forall k | 0 <= k < |ids|
      ensures var after := Assess(rows, orderId, now).value;
        && ItemAt(after, orderId, k).catalogId == ItemAt(rows, orderId, k).catalogId
        && ItemAt(after, orderId, k).quantity == ItemAt(rows, orderId, k).quantity
    {
      AssessedEntry(rows, orderId, now, ids[k]);
    }
    forall p
      ensures OthersHold(Assess(rows, orderId, now).value, orderId, p) == OthersHold(rows, orderId, p)
    {
      OthersHoldUnmoved(rows, orderId, now, p);
    }
  }

  lemma ItemAssessedAgain(rows: Rows, once: Rows, orderId: Id, first: Time, second: Time, i: Id)
    requires InIdOrder(rows)
    requires WellFormed(rows) && WellFormed(once) && Assess(rows, orderId, first) == Success(once)
    requires SameInputs(rows, once, orderId)
    ensures Lookup(AssessedItems(once, orderId, |rows.orders[orderId].items|, second), i)
         == Lookup(Touch(once, orderId, second).items, i)
  {
    AssessedRow(rows, orderId, first, i);
    AssessedRow(once, orderId, second, i);
    var ids := rows.orders[orderId].items;
    if i in ids {
      var k :| 0 <= k < |ids| && ids[k] == i;
      InputsAlike(rows, once, orderId, k);
      assert ItemAt(once, orderId, k) == DecidedItem(ItemAt(rows, orderId, k), Decide(rows, orderId, k), first);
    }
  }

  lemma ReleasedOnce(reservations: map<Id, Reservation>, ids: seq<Id>, now: Time, i: Id)
    requires i in reservations ==> reservations[i].status != Active
    ensures Lookup(ReleaseAll(reservations, ids, now, true), i) == Lookup(reservations, i)
  {
  }

  lemma ReservationAssessedAgain(rows: Rows, once: Rows, orderId: Id, first: Time, second: Time, i: Id)
    requires InIdOrder(rows)
    requires WellFormed(rows) && WellFormed(once) && Assess(rows, orderId, first) == Success(once)
    requires SameInputs(rows, once, orderId)
    ensures Lookup(AssessedReservations(once, orderId, |rows.orders[orderId].items|, second), i)
         == Lookup(once.reservations, i)
  {
    AssessedRow(rows, orderId, first, i);
    AssessedRow(once, orderId, second, i);
    var ids := rows.orders[orderId].items;
    if i in ids {
      var k :| 0 <= k < |ids| && ids[k] == i;
      InputsAlike(rows, once, orderId, k);
      if Accepts(rows, orderId, k) {
        assert ItemAt(once, orderId, k).catalogId == ItemAt(rows, orderId, k).catalogId;
        assert AcceptedRow(once, ItemAt(once, orderId, k)) == AcceptedRow(rows, ItemAt(rows, orderId, k));
      } else {
        ReleasedOnce(once.reservations, ids, second, i);
      }
    }
  }

  // Assessing an order again right away repeats every decision and every reservation row;
  // only the decision time of its items moves.
  lemma AssessTwice(rows: Rows, orderId: Id, first: Time, second: Time)
    requires InIdOrder(rows)
    requires WellFormed(rows) && Coupled(rows) && Assess(rows, orderId, first).Success?
    ensures WellFormed(Assess(rows, orderId, first).value)
    ensures Assess(Assess(rows, orderId, first).value, orderId, second)
         == Success(Touch(Assess(rows, orderId, first).value, orderId, second))
  {
    AssessKeepsInputs(rows, orderId, first);
    var once := Assess(rows, orderId, first).value;
    var n := |rows.orders[orderId].items|;
    forall k: nat | k < n
      ensures InputsAt(once, orderId, k) == InputsAt(rows, orderId, k)
    {
      InputsAlike(rows, once, orderId, k);
    }
    assert !Rejects(once, orderId);
    assert AssessedStatuses(once, orderId) == AssessedStatuses(rows, orderId);
    forall i
      ensures Lookup(AssessedItems(once, orderId, n, second), i) == Lookup(Touch(once, orderId, second).items, i)
      ensures Lookup(AssessedReservations(once, orderId, n, second), i) == Lookup(once.reservations, i)
    {
      ItemAssessedAgain(rows, once, orderId, first, second, i);
      ReservationAssessedAgain(rows, once, orderId, first, second, i);
    }
    SameByLookup(AssessedItems(once, orderId, n, second), Touch(once, orderId, second).items);
    SameByLookup(AssessedReservations(once, orderId, n, second), once.reservations);
    assert once.orders[orderId := once.orders[orderId]] == once.orders;
  }

  // The simple meaning of an assessment: an item ends IN_STOCK, with an ACTIVE reservation of its
  // own quantity, exactly when its active product has a known stock that covers what other orders
  // hold, what earlier items of this order were given, and the item itself.
  lemma AssessMeaning(rows: Rows, orderId: Id, now: Time, k: nat)
    requires InIdOrder(rows)
    requires WellFormed(rows) && Coupled(rows) && Assess(rows, orderId, now).Success?
    requires k < |rows.orders[orderId].items|
    ensures var after := Assess(rows, orderId, now).value;
      var id := rows.orders[orderId].items[k];
      var product := Match(rows, ItemAt(rows, orderId, k).catalogId);
      var enough := && product.Some? && rows.products[product.value].stock.Some?
                    && rows.products[product.value].stock.value
                       - OthersHold(rows, orderId, product.value)
                       - AcceptedBefore(rows, orderId, product.value, k) >= ItemAt(rows, orderId, k).quantity;
      && id in after.items
      && (after.items[id].status == InStock <==> enough)
      && (after.items[id].status != InStock ==> after.items[id].status == ToOrder)
      && (enough <==> id in after.reservations && after.reservations[id].status == Active)
      && (enough ==> after.reservations[id].productId == product.value
                     && after.reservations[id].quantity == ItemAt(rows, orderId, k).quantity)
  {
    AssessedRow(rows, orderId, now, rows.orders[orderId].items[k]);
    assert Accepts(rows, orderId, k) ==> InputsAt(rows, orderId, k).quantity > 0;
    EnoughIff(InputsAt(rows, orderId, k));
  }

  // Nothing is given away by treating a negative remainder as none, once quantities are positive.
  lemma EnoughIff(i: Inputs)
    requires Accepted(i) ==> i.quantity > 0
    ensures Accepted(i) <==> i.product.Some? && i.stock.Some? && i.stock.value - i.reserved >= i.quantity
    ensures Judge(i).status == if Accepted(i) then InStock else ToOrder
  {
  }

  // ----- The other transactions -----

  ghost predicate Positive(reservations: map<Id, Reservation>) {
    forall i :: i in reservations ==> reservations[i].quantity > 0
  }

  lemma RowWithinTotal(reservations: map<Id, Reservation>, i: Id)
    requires Positive(reservations) && i in reservations && reservations[i].status == Active
    ensures 0 < reservations[i].quantity <= ActiveTotal(reservations, reservations[i].productId)
  {
    SumAtLeast(HeldRows(reservations, reservations[i].productId), i);
  }

  lemma ReleaseLowers(reservations: map<Id, Reservation>, ids: seq<Id>, now: Time, p: Id)
    requires Positive(reservations)
    ensures ActiveTotal(ReleaseAll(reservations, ids, now, false), p) <= ActiveTotal(reservations, p)
  {
    HeldAfterRelease(reservations, ids, now, false, p);
    HeldSplits(reservations, ids, p);
  }

  lemma ReleaseKeeps(rows: Rows, orderId: Id, now: Time)
    requires Invariant(rows)
    ensures Invariant(Release(rows, orderId, now))
  {
    if orderId in rows.orders {
      ReleasedRowsKept(rows, rows.orders[orderId].items, now);
    }
  }

  lemma ReleaseKeepsRows(rows: Rows, ids: seq<Id>, now: Time)
    requires WellFormed(rows) && Coupled(rows)
    ensures WellFormed(rows.(reservations := ReleaseAll(rows.reservations, ids, now, false)))
    ensures Coupled(rows.(reservations := ReleaseAll(rows.reservations, ids, now, false)))
  {
  }

  lemma ReleasedRowsKept(rows: Rows, ids: seq<Id>, now: Time)
    requires Invariant(rows)
    ensures Invariant(rows.(reservations := ReleaseAll(rows.reservations, ids, now, false)))
  {
    var after := rows.(reservations := ReleaseAll(rows.reservations, ids, now, false));
    ReleaseKeepsRows(rows, ids, now);
    forall p | p in after.products
      ensures ActiveTotal(after.reservations, p) <= Capacity(after.products[p].stock)
    {
      ReleaseLowers(rows.reservations, ids, now, p);
    }
  }

  lemma HeldAfterReplacing(reservations: map<Id, Reservation>, itemId: Id, row: Reservation, p: Id)
    ensures ActiveTotal(reservations[itemId := row], p) == HeldByOthers(reservations, p, itemId) + Held(row, p)
    ensures Positive(reservations) ==> 0 <= HeldByOthers(reservations, p, itemId) <= ActiveTotal(reservations, p)
  {
    var others := OtherRows(reservations, [itemId], p);
    HeldSplits(reservations, [itemId], p);
    assert HeldRows(reservations[itemId := row], p) == others[itemId := Held(row, p)];
    if itemId in reservations {
      SumUpdate(others, itemId, Held(row, p));
    } else {
      SumAdd(others, itemId, Held(row, p));
    }
  }

  // Changing one item, its reservation and the cached summary of its order.
  lemma ItemChangeKeeps(rows: Rows, itemId: Id, item: Item, summary: ProcurementSummary,
                        reservations: map<Id, Reservation>)
    requires Invariant(rows) && itemId in rows.items
    requires item.orderId == rows.items[itemId].orderId && item.quantity == rows.items[itemId].quantity
    requires forall i :: i in reservations && i != itemId ==>
      i in rows.reservations && reservations[i] == rows.reservations[i]
    requires itemId in reservations ==>
      && reservations[itemId].productId in rows.products && reservations[itemId].quantity > 0
      && (reservations[itemId].status == Active ==>
            item.status == InStock && item.quantity == reservations[itemId].quantity)
    requires forall p {:trigger ActiveTotal(reservations, p)} :: p in rows.products ==>
      ActiveTotal(reservations, p) <= Capacity(rows.products[p].stock)
    ensures Invariant(rows.(
      items := rows.items[itemId := item], reservations := reservations,
      orders := rows.orders[item.orderId := rows.orders[item.orderId].(summary := summary)]))
  {
    var after := rows.(
      items := rows.items[itemId := item], reservations := reservations,
      orders := rows.orders[item.orderId := rows.orders[item.orderId].(summary := summary)]);
    assert Coupled(after);
    assert WellFormed(after) by {
      WellFormedKept(rows, after);
    }
  }

  // What a status change does to the reservations of other items, and to the item's own.
  lemma StatusChangeRows(rows: Rows, orderId: Id, itemId: Id, next: ProcurementStatus, now: Time)
    requires Invariant(rows) && SetStatus(rows, orderId, itemId, next, now).Success?
    ensures var after := SetStatus(rows, orderId, itemId, next, now).value;
      && (forall i :: i in after.reservations && i != itemId ==>
            i in rows.reservations && after.reservations[i] == rows.reservations[i])
      && (itemId in after.reservations ==>
            && after.reservations[itemId].productId in rows.products && after.reservations[itemId].quantity > 0
            && (after.reservations[itemId].status == Active ==>
                  && after.items[itemId].status == InStock
                  && after.items[itemId].quantity == after.reservations[itemId].quantity))
  {
  }

  // A manual change goes through exactly when it is allowed and, for IN_STOCK, when the active product's
  // known stock covers what other items hold and the item's own quantity of at least one.
  lemma SetStatusIff(rows: Rows, orderId: Id, itemId: Id, next: ProcurementStatus, now: Time)
    requires WellFormed(rows)
    ensures SetStatus(rows, orderId, itemId, next, now).Success?
       <==> && itemId in rows.items && rows.items[itemId].orderId == orderId
            && (rows.items[itemId].status == next || next in AllowedTransitions(rows.items[itemId].status))
            && (next == InStock ==>
                  var product := Match(rows, rows.items[itemId].catalogId);
                  && product.Some? && rows.products[product.value].stock.Some?
                  && rows.products[product.value].stock.value - HeldByOthers(rows.reservations, product.value, itemId)
                     >= rows.items[itemId].quantity > 0)
  {
  }

  // It changes this item, its reservation and the summary of its order, and nothing else. The item's
  // reservation is ACTIVE after a change to IN_STOCK, and not after one to TO_ORDER or UNAVAILABLE.
  lemma SetStatusMeaning(rows: Rows, orderId: Id, itemId: Id, next: ProcurementStatus, now: Time, i: Id)
    requires WellFormed(rows) && SetStatus(rows, orderId, itemId, next, now).Success?
    ensures var after := SetStatus(rows, orderId, itemId, next, now).value;
      && after.products == rows.products
      && Lookup(after.items, itemId).Some? && after.items[itemId].status == next
      && (i != itemId ==>
            Lookup(after.items, i) == Lookup(rows.items, i)
            && Lookup(after.reservations, i) == Lookup(rows.reservations, i))
      && (i != orderId ==> Lookup(after.orders, i) == Lookup(rows.orders, i))
      && (next == InStock ==>
            Lookup(after.reservations, itemId)
            == Some(Reservation(Match(rows, rows.items[itemId].catalogId).value, rows.items[itemId].quantity, Active, None, None)))
      && (next == ToOrder || next == Unavailable ==>
            itemId in after.reservations ==> after.reservations[itemId].status != Active)
      && (next != InStock && next != ToOrder && next != Unavailable ==> after.reservations == rows.reservations)
  {
  }

  lemma SetStatusKeeps(rows: Rows, orderId: Id, itemId: Id, next: ProcurementStatus, now: Time)
    requires Invariant(rows)
    ensures SetStatus(rows, orderId, itemId, next, now).Success? ==>
      Invariant(SetStatus(rows, orderId, itemId, next, now).value)
  {
    if SetStatus(rows, orderId, itemId, next, now).Success? {
      var after := SetStatus(rows, orderId, itemId, next, now).value;
      var item := rows.items[itemId];
      var product := Match(rows, item.catalogId);
      assert Positive(rows.reservations);
      forall p | p in rows.products
        ensures ActiveTotal(after.reservations, p) <= Capacity(rows.products[p].stock)
      {
        if next == InStock {
          HeldAfterReplacing(rows.reservations, itemId,
            Reservation(product.value, item.quantity, Active, None, None), p);
        } else {
          ReleaseLowers(rows.reservations, [itemId], now, p);
        }
      }
      StatusChangeRows(rows, orderId, itemId, next, now);
      ItemChangeKeeps(rows, itemId, after.items[itemId], after.orders[orderId].summary, after.reservations);
    }
  }

  lemma HeldAfterConsuming(reservations: map<Id, Reservation>, ids: seq<Id>, now: Time, p: Id)
    requires Positive(reservations)
    ensures ActiveTotal(ConsumeAll(reservations, ids, now), p)
         == ActiveTotal(reservations, p) - Sum(OwnRows(reservations, ids, p))
    ensures 0 <= Sum(OwnRows(reservations, ids, p)) <= ActiveTotal(reservations, p)
  {
    HeldSplits(reservations, ids, p);
    assert HeldRows(ConsumeAll(reservations, ids, now), p) == OtherRows(reservations, ids, p);
  }

  // Adding the rows up item by item, or as a set of rows, gives the same sum.
  lemma {:induction false} HeldInSums(reservations: map<Id, Reservation>, ids: seq<Id>, p: Id)
    requires Distinct(ids)
    ensures HeldIn(reservations, ids, p) == Sum(OwnRows(reservations, ids, p))
  {
    var own := OwnRows(reservations, ids, p);
    if ids == [] {
      SumZero(own);
    } else {
      var last := ids[|ids| - 1];
      var rest := ids[..|ids| - 1];
      HeldInSums(reservations, rest, p);
      var before := OwnRows(reservations, rest, p);
      assert ids == rest + [last];
      if last in reservations {
        assert own == before[last := Held(reservations[last], p)];
        SumUpdate(before, last, Held(reservations[last], p));
      } else {
        assert own == before;
      }
    }
  }

  // Taking reservations out one at a time lowers each stock by the sum of what they hold.
  lemma {:induction false} StockAfterTaking(products: map<Id, Product>, reservations: map<Id, Reservation>,
                                            ids: seq<Id>, p: Id)
    ensures TakeFromStock(products, reservations, ids).Keys == products.Keys
    ensures p in products ==>
      TakeFromStock(products, reservations, ids)[p]
      == products[p].(stock := Decrement(products[p].stock, HeldIn(reservations, ids, p)))
  {
    if ids != [] {
      StockAfterTaking(products, reservations, ids[..|ids| - 1], p);
    }
  }

  // Handing off takes from every stock exactly what the order's ACTIVE reservations held of it.
  lemma HandOffTakes(rows: Rows, orderId: Id, now: Time, p: Id)
    requires WellFormed(rows) && InIdOrder(rows) && CanHandOff(rows, orderId)
    ensures var after := HandedOffRows(rows, orderId, now);
      && ActiveTotal(after.reservations, p) == ActiveTotal(rows.reservations, p) - HeldByOrder(rows, orderId, p)
      && 0 <= HeldByOrder(rows, orderId, p) <= ActiveTotal(rows.reservations, p)
      && after.products.Keys == rows.products.Keys
      && (p in rows.products ==>
            after.products[p]
            == rows.products[p].(stock := Decrement(rows.products[p].stock, HeldByOrder(rows, orderId, p))))
  {
    var ids := rows.orders[orderId].items;
    assert Distinct(ids);
    HeldAfterConsuming(rows.reservations, ids, now, p);
    HeldInSums(rows.reservations, ids, p);
    StockAfterTaking(rows.products, rows.reservations, ids, p);
  }

  lemma HandOffKeepsRows(rows: Rows, orderId: Id, now: Time)
    requires WellFormed(rows) && InIdOrder(rows) && Coupled(rows) && CanHandOff(rows, orderId)
    ensures WellFormed(HandedOffRows(rows, orderId, now)) && Coupled(HandedOffRows(rows, orderId, now))
  {
    var after := HandedOffRows(rows, orderId, now);
    forall p
      ensures p in after.products <==> p in rows.products
      ensures p in rows.products ==> after.products[p].sku == rows.products[p].sku
    {
      StockAfterTaking(rows.products, rows.reservations, rows.orders[orderId].items, p);
    }
    assert Coupled(after);
    WellFormedKept(rows, after);
  }

  lemma HandOffFits(rows: Rows, orderId: Id, now: Time, p: Id)
    requires WellFormed(rows) && InIdOrder(rows) && CanHandOff(rows, orderId) && p in rows.products
    requires ActiveTotal(rows.reservations, p) <= Capacity(rows.products[p].stock)
    ensures var after := HandedOffRows(rows, orderId, now);
      && p in after.products
      && ActiveTotal(after.reservations, p) <= Capacity(after.products[p].stock)
      && (rows.products[p].stock.Some? && rows.products[p].stock.value >= 0 ==>
            after.products[p].stock.Some? && after.products[p].stock.value >= 0)
  {
    HandOffTakes(rows, orderId, now, p);
  }

  lemma HandOffKeeps(rows: Rows, orderId: Id, now: Time)
    requires Invariant(rows) && InIdOrder(rows) && CanHandOff(rows, orderId)
    ensures Invariant(HandedOffRows(rows, orderId, now))
    ensures StockNeverNegative(rows) ==> StockNeverNegative(HandedOffRows(rows, orderId, now))
  {
    var after := HandedOffRows(rows, orderId, now);
    HandOffKeepsRows(rows, orderId, now);
    StockAfterTaking(rows.products, rows.reservations, rows.orders[orderId].items, 0);
    forall p | p in after.products
      ensures ActiveTotal(after.reservations, p) <= Capacity(after.products[p].stock)
    {
      HandOffFits(rows, orderId, now, p);
    }
    if StockNeverNegative(rows) {
      forall p | p in after.products && after.products[p].stock.Some?
        ensures after.products[p].stock.value >= 0
      {
        HandOffTakes(rows, orderId, now, p);
        HandOffFits(rows, orderId, now, p);
      }
    }
  }

  // No ACTIVE reservation of the order survives its hand-off.
  lemma HandOffLeavesNoneActive(rows: Rows, orderId: Id, now: Time, i: Id)
    requires WellFormed(rows) && CanHandOff(rows, orderId) && i in rows.orders[orderId].items
    ensures i in HandedOffRows(rows, orderId, now).reservations ==>
      HandedOffRows(rows, orderId, now).reservations[i].status != Active
  {
  }
}
