/** The SQLite store (`DatabaseManager`) as in-memory tables: the rows of
    `rentals` and `payment_history`, and the AUTOINCREMENT counter of the
    payment ids. Only the statements the billing engine issues are modelled;
    every statement runs as one step. */
module Store {
  import opened JsText
  import opened Records

  /** The fields a caller hands to `addPaymentRecord` / `updatePaymentRecord`. */
  datatype PaymentData = PaymentData(
    paymentDate: string,
    amountPaid: int,
    monthsCovered: string,
    paymentMethod: string,
    notes: string,
    refundFulfilled: Option<bool>)

  const DefaultMethod: string := "Tiền mặt"

  /** `x || 'default'` on a text. */
  function OrDefault(s: string, d: string): string { if s == "" then d else s }

  /** `refund_fulfilled || null`: `false` is falsy, so it turns into `NULL`. */
  function RefundColumn(f: Option<bool>): (r: Option<bool>)
    ensures r == Some(true) <==> f == Some(true)
    ensures r.None? <==> f != Some(true)
  {
    if f == Some(true) then f else None
  }

  /** The row `addPaymentRecord` / `updatePaymentRecord` write for `data`. */
  function PaymentRow(id: int, rentalId: int, data: PaymentData): (p: Payment)
    ensures p.id == id && p.rentalId == rentalId && p.monthsCovered == data.monthsCovered
    ensures p.amountPaid == data.amountPaid && p.paymentDate == data.paymentDate && p.notes == data.notes
    ensures p.paymentMethod != "" && (data.paymentMethod != "" ==> p.paymentMethod == data.paymentMethod)
    ensures p.refundFulfilled == RefundColumn(data.refundFulfilled)
  {
    Payment(id, rentalId, data.paymentDate, data.amountPaid, data.monthsCovered,
            OrDefault(data.paymentMethod, DefaultMethod), data.notes, RefundColumn(data.refundFulfilled))
  }

  /** The row `updateRental` writes: an empty parking area becomes `'1'` and an
      empty payment method `'Tiền mặt'`; the other columns are written as given. */
  function StoredRental(r: Rental): (s: Rental)
    ensures s.id == r.id && s.price == r.price && s.amountOwed == r.amountOwed && s.paid == r.paid
    ensures s.dateIn == r.dateIn && s.dateOut == r.dateOut && s.isOpenEnded == r.isOpenEnded
    ensures s.monthsPaid == r.monthsPaid && s.monthsPaidDetails == r.monthsPaidDetails
  {
    var area := if "parkingArea" in r.texts then r.texts["parkingArea"] else "";
    var pm := if "paymentMethod" in r.texts then r.texts["paymentMethod"] else "";
    r.(texts := r.texts["parkingArea" := OrDefault(area, "1")]["paymentMethod" := OrDefault(pm, DefaultMethod)])
  }

  /** Writing a row a second time changes nothing. */
  lemma StoredRentalIdempotent(r: Rental)
    ensures StoredRental(StoredRental(r)) == StoredRental(r)
  {
  }

  /** The rows of `ps` for rental `rentalId`, in store order. */
  function History(ps: seq<Payment>, rentalId: int): (r: seq<Payment>)
    ensures |r| <= |ps|
    ensures forall p :: p in r <==> p in ps && p.rentalId == rentalId
    decreases |ps|
  {
    if ps == [] then []
    else History(ps[..|ps| - 1], rentalId) + (if ps[|ps| - 1].rentalId == rentalId then [ps[|ps| - 1]] else [])
  }

  /** `ps` without the rows whose id is `id` (`DELETE ... WHERE id = ?`). */
  function WithoutId(ps: seq<Payment>, id: int): (r: seq<Payment>)
    ensures |r| <= |ps|
    ensures forall p :: p in r <==> p in ps && p.id != id
    decreases |ps|
  {
    if ps == [] then []
    else WithoutId(ps[..|ps| - 1], id) + (if ps[|ps| - 1].id == id then [] else [ps[|ps| - 1]])
  }

  /** `UPDATE payment_history SET ... WHERE id = ?`: the rental id of the row stays. */
  function UpdatedPayments(ps: seq<Payment>, id: int, data: PaymentData): (r: seq<Payment>)
    ensures |r| == |ps|
    ensures forall k :: 0 <= k < |ps| ==> r[k] == if ps[k].id == id then PaymentRow(id, ps[k].rentalId, data) else ps[k]
  {
    seq(|ps|, k requires 0 <= k < |ps| => if ps[k].id == id then PaymentRow(id, ps[k].rentalId, data) else ps[k])
  }

  /** `UPDATE payment_history SET refund_fulfilled = true WHERE id = ?`. */
  function FulfilledPayments(ps: seq<Payment>, id: int): (r: seq<Payment>)
    ensures |r| == |ps|
    ensures forall k :: 0 <= k < |ps| ==> r[k] == if ps[k].id == id then ps[k].(refundFulfilled := Some(true)) else ps[k]
  {
    seq(|ps|, k requires 0 <= k < |ps| => if ps[k].id == id then ps[k].(refundFulfilled := Some(true)) else ps[k])
  }

  /** `UPDATE rentals SET ... WHERE id = ?`: every row with that id takes the
      stored form of `r`, keeping its id. */
  function UpdatedRentals(rs: seq<Rental>, id: int, r: Rental): (u: seq<Rental>)
    ensures |u| == |rs|
    ensures forall k :: 0 <= k < |rs| ==> u[k] == if rs[k].id == id then StoredRental(r).(id := id) else rs[k]
  {
    seq(|rs|, k requires 0 <= k < |rs| => if rs[k].id == id then StoredRental(r).(id := id) else rs[k])
  }

  /** The first row with id `id`, if any. */
  function FindId(ps: seq<Payment>, id: int): (r: Option<Payment>)
    ensures r.Some? ==> r.value in ps && r.value.id == id
    ensures r.None? ==> forall p :: p in ps ==> p.id != id
    decreases |ps|
  {
    if ps == [] then None else if ps[0].id == id then Some(ps[0]) else FindId(ps[1..], id)
  }

  predicate HasRental(rs: seq<Rental>, id: int) { exists k :: 0 <= k < |rs| && rs[k].id == id }

  /** Payment ids grow with every insert and never exceed the counter. */
  predicate IdsAscending(ps: seq<Payment>, last: int) {
    (forall k :: 0 <= k < |ps| ==> 1 <= ps[k].id <= last)
    && (forall i, j :: 0 <= i < j < |ps| ==> ps[i].id < ps[j].id)
  }

  class Database {
    var rentals: seq<Rental>
    var payments: seq<Payment>
    var lastPaymentId: int

    predicate Valid()
      reads this
    {
      lastPaymentId >= 0 && IdsAscending(payments, lastPaymentId)
    }

    constructor()
      ensures Valid() && rentals == [] && payments == [] && lastPaymentId == 0
    {
      rentals := [];
      payments := [];
      lastPaymentId := 0;
    }

    /** `getPaymentHistory(rentalId)`; the `ORDER BY payment_date DESC` is not
        modelled, rows come in store order. */
    function PaymentHistory(rentalId: int): (r: seq<Payment>)
      reads this
      ensures forall p :: p in r <==> p in payments && p.rentalId == rentalId
    {
      History(payments, rentalId)
    }

    /** `getPaymentById(id)`: the query joins the rental, so a payment whose
        rental row is gone is not found. */
    function PaymentById(id: int): (r: Option<Payment>)
      requires Valid()
      reads this
      ensures r.Some? ==> r.value in payments && r.value.id == id && HasRental(rentals, r.value.rentalId)
      ensures r.None? ==> forall p :: p in payments && p.id == id ==> !HasRental(rentals, p.rentalId)
    {
      var p := FindId(payments, id);
      UniqueIds(payments, lastPaymentId);
      if p.Some? && HasRental(rentals, p.value.rentalId) then p else None
    }

    /** `addPaymentRecord`: the next AUTOINCREMENT id, never one used before. */
    method AddPaymentRecord(rentalId: int, data: PaymentData) returns (id: int)
      requires Valid()
      modifies this
      ensures Valid()
      ensures id == old(lastPaymentId) + 1 && lastPaymentId == id
      ensures forall p :: p in old(payments) ==> p.id < id
      ensures payments == old(payments) + [PaymentRow(id, rentalId, data)]
      ensures rentals == old(rentals)
    {
      forall p | p in payments ensures p.id < lastPaymentId + 1 {
        var k :| 0 <= k < |payments| && payments[k] == p;
      }
      id := lastPaymentId + 1;
      var row := PaymentRow(id, rentalId, data);
      assert IdsAscending(payments, id);
      assert forall q :: q in payments ==> q.id < row.id;
      SnocAscending(payments, row, id);
      lastPaymentId := id;
      payments := payments + [row];
    }

    /** `updatePaymentRecord`. */
    method UpdatePaymentRecord(id: int, data: PaymentData)
      requires Valid()
      modifies this
      ensures Valid()
      ensures payments == UpdatedPayments(old(payments), id, data)
      ensures rentals == old(rentals) && lastPaymentId == old(lastPaymentId)
    {
      payments := UpdatedPayments(payments, id, data);
    }

    /** `deletePaymentRecord`. */
    method DeletePaymentRecord(id: int)
      requires Valid()
      modifies this
      ensures Valid()
      ensures payments == WithoutId(old(payments), id)
      ensures rentals == old(rentals) && lastPaymentId == old(lastPaymentId)
    {
      WithoutIdAscending(payments, id, lastPaymentId);
      payments := WithoutId(payments, id);
    }

    /** `markRefundAsFulfilled`. */
    method MarkRefundAsFulfilled(id: int)
      requires Valid()
      modifies this
      ensures Valid()
      ensures payments == FulfilledPayments(old(payments), id)
      ensures rentals == old(rentals) && lastPaymentId == old(lastPaymentId)
    {
      payments := FulfilledPayments(payments, id);
    }

    /** `updateRental(id, rental)`. */
    method UpdateRental(id: int, r: Rental)
      modifies this
      ensures rentals == UpdatedRentals(old(rentals), id, r)
      ensures payments == old(payments) && lastPaymentId == old(lastPaymentId)
    {
      rentals := UpdatedRentals(rentals, id, r);
    }
  }

  /** Deleting rows keeps the ids ascending. */
  lemma {:induction false} WithoutIdAscending(ps: seq<Payment>, id: int, last: int)
    requires IdsAscending(ps, last)
    ensures IdsAscending(WithoutId(ps, id), last)
    decreases |ps|
  {
    if ps != [] {
      var p := ps[..|ps| - 1];
      assert IdsAscending(p, last) by {
        forall i, j | 0 <= i < j < |p| ensures p[i].id < p[j].id { assert p[i] == ps[i] && p[j] == ps[j]; }
        forall k | 0 <= k < |p| ensures 1 <= p[k].id <= last { assert p[k] == ps[k]; }
      }
      WithoutIdAscending(p, id, last);
      var x := ps[|ps| - 1];
      forall q | q in WithoutId(p, id) ensures q.id < x.id {
        var i :| 0 <= i < |p| && p[i] == q;
        assert ps[i] == q;
      }
      SnocAscending(WithoutId(p, id), x, last);
    }
  }

  /** Two rows with the same id are the same row. */
  lemma UniqueIds(ps: seq<Payment>, last: int)
    requires IdsAscending(ps, last)
    ensures forall p, q :: p in ps && q in ps && p.id == q.id ==> p == q
  {
    forall p, q | p in ps && q in ps && p.id == q.id ensures p == q {
      var i :| 0 <= i < |ps| && ps[i] == p;
      var j :| 0 <= j < |ps| && ps[j] == q;
      assert !(i < j) && !(j < i);
    }
  }

  lemma SnocAscending(r: seq<Payment>, x: Payment, last: int)
    requires IdsAscending(r, last) && 1 <= x.id <= last
    requires forall q :: q in r ==> q.id < x.id
    ensures IdsAscending(r + [x], last) && IdsAscending(r + [], last)
  {
    var s := r + [x];
    forall i, j | 0 <= i < j < |s| ensures s[i].id < s[j].id {
      if j == |r| { assert s[i] in r; }
    }
    assert r + [] == r;
  }
}
