// What is paid of an order and what remains.
module OrderPayments {
  import opened Options
  import opened Money
  import opened SeqSums

  datatype Payment = Payment(amount: string, cancelled: bool)

  datatype Status = Unpaid | PartiallyPaid | Paid | Overpaid

  datatype Summary = Summary(expected: string, paid: string, remaining: string, status: Status)

  // A cancelled payment is not looked at, whatever its amount.
  predicate Readable(p: Payment) {
    p.cancelled || ToMinorUnits(p.amount).Some?
  }

  function UnitsOf(p: Payment): nat {
    if p.cancelled then 0 else ToMinorUnits(p.amount).GetOr(0)
  }

  function PaidUnits(payments: seq<Payment>): int {
    SumBy(payments, p => UnitsOf(p))
  }

  function StatusOf(paid: int, expected: int): Status {
    if paid == 0 then Unpaid
    else if paid < expected then PartiallyPaid
    else if paid == expected then Paid
    else Overpaid
  }

  // None where the source throws.
  function Summarize(expectedAmount: string, payments: seq<Payment>): Option<Summary> {
    var expected := ToMinorUnits(expectedAmount);
    if expected.None? || exists i :: 0 <= i < |payments| && !Readable(payments[i]) then None
    else
      var paid := PaidUnits(payments);
      Some(Summary(FromMinorUnits(expected.value), FromMinorUnits(paid), FromMinorUnits(expected.value - paid),
                   StatusOf(paid, expected.value)))
  }

  lemma {:induction false} PaidIsNatural(payments: seq<Payment>)
    ensures PaidUnits(payments) >= 0
  {
    if payments != [] {
      PaidIsNatural(payments[..|payments| - 1]);
    }
  }

  // The expected amount comes back as it was given; what is paid reads back as the sum of the payments
  // that stand; paid and remaining make up the expected amount; and the status compares the two.
  lemma SummaryBalances(expectedAmount: string, payments: seq<Payment>)
    requires Summarize(expectedAmount, payments).Some?
    ensures var s := Summarize(expectedAmount, payments).value;
      && s.expected == expectedAmount
      && ToMinorUnits(s.paid).Some?
      && ToMinorUnits(s.paid).value == PaidUnits(payments)
      && var expected, paid := ToMinorUnits(expectedAmount).value, ToMinorUnits(s.paid).value;
         && (paid <= expected ==> ToMinorUnits(s.remaining) == Some(expected - paid))
         && (paid > expected ==> s.remaining == "-" + FromMinorUnits(paid - expected))
         && (s.status == Unpaid <==> paid == 0)
         && (s.status == PartiallyPaid <==> 0 < paid < expected)
         && (s.status == Paid <==> 0 < paid == expected)
         && (s.status == Overpaid <==> expected < paid)
  {
    var expected, paid := ToMinorUnits(expectedAmount).value, PaidUnits(payments);
    TextRoundTrip(expectedAmount);
    PaidIsNatural(payments);
    UnitsRoundTrip(paid);
    if paid <= expected {
      UnitsRoundTrip(expected - paid);
    }
  }

  // An order for nothing counts as unpaid, not as paid, although paid and expected are equal.
  lemma NothingExpectedIsUnpaid(payments: seq<Payment>)
    requires Summarize("0.00", payments).Some?
    ensures var s := Summarize("0.00", payments).value;
      s.status == if PaidUnits(payments) == 0 then Unpaid else Overpaid
  {
    ZeroText();
    PaidIsNatural(payments);
  }

  lemma ZeroText()
    ensures ToMinorUnits("0.00") == Some(0)
  {
    UnitsRoundTrip(0);
    assert DigitsOf(0) == "0";
    assert Padded("0", 3) == Padded("00", 3) == "000";
    assert FromMinorUnits(0) == "0.00";
  }

  // The order in which payments came in does not matter.
  lemma SummaryIgnoresOrder(expectedAmount: string, a: seq<Payment>, b: seq<Payment>)
    requires multiset(a) == multiset(b)
    ensures Summarize(expectedAmount, a) == Summarize(expectedAmount, b)
  {
    SumByPermutes(a, b, p => UnitsOf(p));
    assert forall p :: p in a <==> p in multiset(a);
    assert forall p :: p in b <==> p in multiset(b);
    assert (exists i :: 0 <= i < |a| && !Readable(a[i])) <==> (exists p :: p in a && !Readable(p));
    assert (exists i :: 0 <= i < |b| && !Readable(b[i])) <==> (exists p :: p in b && !Readable(p));
  }

  function Cancelled(payments: seq<Payment>, k: nat): seq<Payment>
    requires k < |payments|
  {
    payments[k := payments[k].(cancelled := true)]
  }

  // Cancelling a payment lowers what is paid by its amount, and raises what remains by as much.
  lemma CancellingTakesBack(expectedAmount: string, payments: seq<Payment>, k: nat)
    requires Summarize(expectedAmount, payments).Some? && k < |payments| && !payments[k].cancelled
    ensures ToMinorUnits(payments[k].amount).Some? && Summarize(expectedAmount, Cancelled(payments, k)).Some?
    ensures var amount, expected := ToMinorUnits(payments[k].amount).value, ToMinorUnits(expectedAmount).value;
      var paid, s := PaidUnits(payments) - amount, Summarize(expectedAmount, Cancelled(payments, k)).value;
      PaidUnits(Cancelled(payments, k)) == paid
      && s.paid == FromMinorUnits(paid) && s.remaining == FromMinorUnits(expected - paid)
  {
    assert Readable(payments[k]);
    PaidWithout(payments, k);
    forall i | 0 <= i < |payments|
      ensures Readable(Cancelled(payments, k)[i])
    {
      assert Readable(payments[i]);
    }
  }

  lemma PaidWithout(payments: seq<Payment>, k: nat)
    requires k < |payments|
    ensures PaidUnits(Cancelled(payments, k)) == PaidUnits(payments) - UnitsOf(payments[k])
  {
    var cancelled := payments[k].(cancelled := true);
    var front, back := payments[..k], payments[k + 1..];
    assert payments == front + [payments[k]] + back && Cancelled(payments, k) == front + [cancelled] + back;
    SumByPick(front, payments[k], back, p => UnitsOf(p));
    SumByPick(front, cancelled, back, p => UnitsOf(p));
  }
}
