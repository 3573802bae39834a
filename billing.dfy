/** The reconciliation engine of `RentalManager`: the amount owed computed
    from the payment history, and the paths that write a rental back after a
    payment is added, edited or deleted, after a recalculation and after a
    price change. The manager keeps its own copy of the rental list next to
    the store; every write goes to both. */
module Billing {
  import opened JsText
  import opened Calendar
  import opened Records
  import opened MonthCodec
  import opened Store

  // ---------------------------------------------------------------------------
  // calculateCorrectAmountOwed

  /** The monthly price every July to September 2025 payment is assumed to
      have been made at. */
  const OldPrice: int := 1200000

  /** The payment text names one of July, August or September 2025 (as a
      substring, so `17/2025` counts as `7/2025`). */
  predicate InScenario(text: string) {
    Contains(text, "7/2025") || Contains(text, "8/2025") || Contains(text, "9/2025")
  }

  /** How many of July, August and September 2025 a payment text is taken to
      cover: three for any text with ` tới `, otherwise one per month named. */
  function MonthsInRange(text: string): (n: nat)
    ensures n <= 3
    ensures Contains(text, " tới ") ==> n == 3
    ensures n > 0 <==> InScenario(text) || Contains(text, " tới ")
  {
    if Contains(text, " tới ") then 3 else
      (if Contains(text, "7/2025") then 1 else 0)
      + (if Contains(text, "8/2025") then 1 else 0)
      + (if Contains(text, "9/2025") then 1 else 0)
  }

  /** What one payment adds to the amount owed at monthly price `price`. */
  function PaymentSurcharge(price: int, p: Payment): (s: int)
    ensures s >= 0
    ensures s > 0 <==> price > OldPrice && InScenario(p.monthsCovered)
    ensures s > 0 ==> s == (price - OldPrice) * MonthsInRange(p.monthsCovered)
  {
    var m := p.monthsCovered;
    if m != "" && InScenario(m) then
      var diff := price - OldPrice;
      var n := MonthsInRange(m);
      if diff > 0 && n > 0 then diff * n else 0
    else 0
  }

  /** The amount owed for a history: the sum of the payments' surcharges. */
  function Surcharge(price: int, ps: seq<Payment>): (s: int)
    decreases |ps|
  {
    if ps == [] then 0 else Surcharge(price, ps[..|ps| - 1]) + PaymentSurcharge(price, ps[|ps| - 1])
  }

  /** Nothing is owed at or below the old price, and never a negative amount. */
  lemma {:induction false} SurchargeBounds(price: int, ps: seq<Payment>)
    ensures Surcharge(price, ps) >= 0
    ensures price <= OldPrice ==> Surcharge(price, ps) == 0
    decreases |ps|
  {
    if ps != [] {
      SurchargeBounds(price, ps[..|ps| - 1]);
    }
  }

  /** The amount owed is a sum over the payments. */
  lemma {:induction false} SurchargeAppend(price: int, a: seq<Payment>, b: seq<Payment>)
    ensures Surcharge(price, a + b) == Surcharge(price, a) + Surcharge(price, b)
    decreases |b|
  {
    if b == [] {
      assert a + b == a;
    } else {
      var b' := b[..|b| - 1];
      assert (a + b)[..|a + b| - 1] == a + b';
      SurchargeAppend(price, a, b');
    }
  }

  /** so the order the history comes in does not matter. */
  lemma SurchargeSwap(price: int, a: seq<Payment>, b: seq<Payment>)
    ensures Surcharge(price, a + b) == Surcharge(price, b + a)
  {
    SurchargeAppend(price, a, b);
    SurchargeAppend(price, b, a);
  }

  /** Payments outside July to September 2025 add nothing. */
  lemma {:induction false} SurchargeOutsideScenario(price: int, ps: seq<Payment>)
    requires forall k :: 0 <= k < |ps| ==> !InScenario(ps[k].monthsCovered)
    ensures Surcharge(price, ps) == 0
    decreases |ps|
  {
    if ps != [] {
      SurchargeOutsideScenario(price, ps[..|ps| - 1]);
    }
  }

  /** A payment text with a ` tới ` range in the scenario counts three months,
      whatever the range: for `7/2025 tới 9/2025` at 1,500,000 a month that
      is 900,000. */
  lemma RangeCountsThreeMonths(price: int, p: Payment)
    requires InScenario(p.monthsCovered) && Contains(p.monthsCovered, " tới ") && price > OldPrice
    ensures Surcharge(price, [p]) == 3 * (price - OldPrice)
    ensures price == 1500000 ==> Surcharge(price, [p]) == 900000
  {
    assert [p][..0] == [];
  }

  // ---------------------------------------------------------------------------
  // The records the write paths produce

  /** `{...rental, amountOwed, paid: amountOwed === 0}`. */
  function Settle(r: Rental, owed: int): Rental {
    r.(amountOwed := owed, paid := owed == 0)
  }

  /** The new `monthsPaidDetails` after a payment: appended after a `+`, or
      the new text alone when there was none. */
  function AppendDetails(current: string, added: string): string {
    if current != "" then current + "+" + added else added
  }

  /** `updateRentalAfterPayment`'s record. */
  function AfterPayment(r: Rental, selected: seq<string>, owed: int): Rental {
    Settle(r, owed).(monthsPaid := r.monthsPaid + |selected|,
                     monthsPaidDetails := AppendDetails(r.monthsPaidDetails, FormatSelectedMonthsPeriod(selected)))
  }

  /** Splitting a concatenation at a separator splits both halves. */
  lemma {:induction false} SplitConcat(a: string, b: string, c: char)
    ensures Split(a + [c] + b, c) == Split(a, c) + Split(b, c)
    decreases |a|
  {
    if c !in a {
      SplitAtFirst(a, b, c);
    } else {
      var i := FirstIndex(a, c);
      var h, t := a[..i], a[i + 1..];
      assert a == h + [c] + t;
      SplitConcat(t, b, c);
      SplitTwice(h, t, b, c);
    }
  }

  lemma SplitTwice(h: string, t: string, b: string, c: char)
    requires c !in h
    requires Split(t + [c] + b, c) == Split(t, c) + Split(b, c)
    ensures Split(h + [c] + t + [c] + b, c) == Split(h + [c] + t, c) + Split(b, c)
  {
    assert h + [c] + t + [c] + b == h + [c] + (t + [c] + b);
    SplitAtFirst(h, t + [c] + b, c);
    SplitAtFirst(h, t, c);
    Associative([h], Split(t, c), Split(b, c));
  }

  lemma Associative<T>(x: seq<T>, y: seq<T>, z: seq<T>)
    ensures x + (y + z) == x + y + z
  {
  }

  /** A payment keeps the earlier details: they stay a prefix, items split on
      `+` are the old ones followed by the new ones, and the record is
      marked paid exactly when nothing is owed. */
  lemma AfterPaymentExtends(r: Rental, selected: seq<string>, owed: int)
    ensures var u := AfterPayment(r, selected, owed);
            var added := FormatSelectedMonthsPeriod(selected);
            u.id == r.id && u.price == r.price && u.monthsPaid == r.monthsPaid + |selected|
            && (u.paid <==> u.amountOwed == 0)
            && r.monthsPaidDetails <= u.monthsPaidDetails
            && (r.monthsPaidDetails != "" ==>
                  Split(u.monthsPaidDetails, '+') == Split(r.monthsPaidDetails, '+') + Split(added, '+'))
            && (r.monthsPaidDetails == "" ==> u.monthsPaidDetails == added)
  {
    var added := FormatSelectedMonthsPeriod(selected);
    if r.monthsPaidDetails != "" {
      assert r.monthsPaidDetails + "+" + added == r.monthsPaidDetails + ['+'] + added;
      SplitConcat(r.monthsPaidDetails, added, '+');
    }
  }

  /** What one payment contributes to an edit. */
  function EditItems(p: Payment, paymentId: int, selected: seq<string>): seq<string> {
    if p.id != paymentId then TrimAll(Split(p.monthsCovered, ',')) else selected
  }

  /** The months an edit puts together: every other payment's text split on
      `,` and trimmed, the new selection in place of the edited payment. */
  function EditedMonths(ps: seq<Payment>, paymentId: int, selected: seq<string>): seq<string>
    decreases |ps|
  {
    if ps == [] then []
    else
      var p := ps[|ps| - 1];
      EditedMonths(ps[..|ps| - 1], paymentId, selected) + EditItems(p, paymentId, selected)
  }

  /** `[...new Set(months)]`: each month once, none lost, none invented. */
  function EditedSelection(months: seq<string>): (u: seq<string>)
    ensures NoDuplicates(u)
    ensures forall x :: x in u <==> x in months
  {
    DedupLaws(months);
    Dedup(months)
  }

  lemma DedupLaws(xs: seq<string>)
    ensures NoDuplicates(Dedup(xs))
    ensures forall x :: x in Dedup(xs) <==> x in xs
  {
    AppendNewKeepsDistinct([], xs);
    forall x ensures x in Dedup(xs) <==> x in xs { AppendNewMembers([], xs, x); }
  }

  /** `updateRentalAfterPaymentEdit`'s record. */
  function AfterEdit(r: Rental, selected: seq<string>, original: Payment, months: seq<string>, owed: int): Rental {
    Settle(r, owed).(monthsPaid := r.monthsPaid + |selected| - |Split(original.monthsCovered, ',')|,
                     monthsPaidDetails := FormatSelectedMonthsPeriod(EditedSelection(months)))
  }

  /** The edited payment's texts are replaced by the new selection: when the
      history holds the edited payment, every selected month is one of the
      months the details are built from. */
  lemma {:induction false} EditedMonthsHaveSelection(ps: seq<Payment>, paymentId: int, selected: seq<string>, k: int)
    requires 0 <= k < |ps| && ps[k].id == paymentId
    ensures forall x :: x in selected ==> x in EditedSelection(EditedMonths(ps, paymentId, selected))
    decreases |ps|
  {
    if k < |ps| - 1 {
      EditedMonthsHaveSelection(ps[..|ps| - 1], paymentId, selected, k);
    }
  }

  /** What one payment contributes to a deletion: its text split on `+`
      and trimmed, nothing for an empty text. */
  function PlusItems(m: string): (r: seq<string>)
    ensures forall k :: 0 <= k < |r| ==> '+' !in r[k]
  {
    TrimAllExcludes(Split(m, '+'), '+');
    if m != "" then TrimAll(Split(m, '+')) else []
  }

  /** `updateRentalAfterPaymentDeletion`'s months: each remaining payment's
      non-empty text split on `+` and trimmed. */
  function RemainingMonths(ps: seq<Payment>): (r: seq<string>)
    ensures forall k :: 0 <= k < |r| ==> '+' !in r[k]
    decreases |ps|
  {
    if ps == [] then []
    else
      RemainingMonths(ps[..|ps| - 1]) + PlusItems(ps[|ps| - 1].monthsCovered)
  }

  lemma {:induction false} TrimAllExcludes(items: seq<string>, c: char)
    requires forall k :: 0 <= k < |items| ==> c !in items[k]
    ensures forall k :: 0 <= k < |TrimAll(items)| ==> c !in TrimAll(items)[k]
    decreases |items|
  {
    if items != [] {
      var n := |items| - 1;
      var p := items[..n];
      assert forall k :: 0 <= k < |p| ==> p[k] == items[k];
      TrimAllExcludes(p, c);
      TrimExcludes(items[n], c);
      var r := TrimAll(items);
      assert r == TrimAll(p) + [Trim(items[n])];
      forall k | 0 <= k < |r| ensures c !in r[k] {
        if k < n { assert r[k] == TrimAll(p)[k]; } else { assert r[k] == Trim(items[n]); }
      }
    }
  }

  /** `updateRentalAfterPaymentDeletion`'s record. */
  function AfterDeletion(r: Rental, months: seq<string>, owed: int): Rental {
    Settle(r, owed).(monthsPaid := |months|, monthsPaidDetails := Join(months, "+"))
  }

  /** After a deletion the count and the details agree: the details split on
      `+` give back the months counted. */
  lemma AfterDeletionCounts(r: Rental, ps: seq<Payment>, owed: int)
    ensures var u := AfterDeletion(r, RemainingMonths(ps), owed);
            (u.paid <==> u.amountOwed == 0)
            && (u.monthsPaid >= 1 ==> Split(u.monthsPaidDetails, '+') == RemainingMonths(ps))
            && (u.monthsPaid == 0 <==> u.monthsPaidDetails == "" && RemainingMonths(ps) == [])
  {
    var months := RemainingMonths(ps);
    if |months| >= 1 {
      assert "+" == ['+'];
      SplitJoin(months, '+');
    }
  }

  /** `recalculateAllAmountsOwed`'s record: only a changed amount is written. */
  function Recalculated(r: Rental, ps: seq<Payment>): Rental {
    var owed := Surcharge(r.price, History(ps, r.id));
    if owed != r.amountOwed then Settle(r, owed) else r
  }

  function RecalculatedAll(rs: seq<Rental>, ps: seq<Payment>): (u: seq<Rental>)
    ensures |u| == |rs|
    ensures forall k :: 0 <= k < |rs| ==> u[k] == Recalculated(rs[k], ps)
  {
    seq(|rs|, k requires 0 <= k < |rs| => Recalculated(rs[k], ps))
  }

  /** After a full recalculation every rental owes what its history says;
      the paid flag is set only where the amount changed. */
  lemma RecalculatedOwes(rs: seq<Rental>, ps: seq<Payment>, k: int)
    requires 0 <= k < |rs|
    ensures var u := RecalculatedAll(rs, ps)[k];
            u.id == rs[k].id && u.amountOwed == Surcharge(rs[k].price, History(ps, rs[k].id))
            && (u.paid <==> if rs[k].amountOwed == u.amountOwed then rs[k].paid else u.amountOwed == 0)
  {
  }

  /** A rental whose amount is already right keeps a paid flag that
      disagrees with it. */
  lemma StalePaidFlag(r: Rental)
    requires r.amountOwed == 0 && !r.paid && r.price <= OldPrice
    ensures Recalculated(r, []) == r && !Recalculated(r, []).paid
  {
  }

  // ---------------------------------------------------------------------------
  // The two copies of the rental list

  predicate DistinctIds(rs: seq<Rental>) {
    forall i, j :: 0 <= i < j < |rs| ==> rs[i].id != rs[j].id
  }

  /** The rows the store holds for a list of records. */
  function StoredRows(rs: seq<Rental>): (u: seq<Rental>)
    ensures |u| == |rs|
    ensures forall k :: 0 <= k < |rs| ==> u[k] == StoredRental(rs[k])
  {
    seq(|rs|, k requires 0 <= k < |rs| => StoredRental(rs[k]))
  }

  /** `rentals.findIndex(r => r.id === id)`. */
  function FindIndex(rs: seq<Rental>, id: int): (i: int)
    ensures -1 <= i < |rs|
    ensures i >= 0 ==> rs[i].id == id && forall k :: 0 <= k < i ==> rs[k].id != id
    ensures i == -1 ==> forall k :: 0 <= k < |rs| ==> rs[k].id != id
    decreases |rs|
  {
    if rs == [] then -1
    else if rs[|rs| - 1].id == id && FindIndex(rs[..|rs| - 1], id) == -1 then |rs| - 1
    else FindIndex(rs[..|rs| - 1], id)
  }

  /** `rentals.find(r => r.id === id)`. */
  function FindRental(rs: seq<Rental>, id: int): (r: Option<Rental>)
    ensures r.Some? ==> r.value in rs && r.value.id == id
    ensures r.None? ==> forall k :: 0 <= k < |rs| ==> rs[k].id != id
  {
    var i := FindIndex(rs, id);
    if i == -1 then None else Some(rs[i])
  }

  /** `if (index !== -1) rentals[index] = u`. */
  function Replaced(rs: seq<Rental>, id: int, u: Rental): (r: seq<Rental>)
    ensures |r| == |rs|
    ensures (forall k :: 0 <= k < |rs| ==> rs[k].id != id) ==> r == rs
    ensures forall i :: 0 <= i < |rs| && rs[i].id == id && (forall k :: 0 <= k < i ==> rs[k].id != id) ==>
              r[i] == u && forall k :: 0 <= k < |rs| && k != i ==> r[k] == rs[k]
  {
    var i := FindIndex(rs, id);
    if i == -1 then rs else rs[i := u]
  }

  lemma FindIndexOfDistinct(rs: seq<Rental>, i: int)
    requires DistinctIds(rs) && 0 <= i < |rs|
    ensures FindIndex(rs, rs[i].id) == i
  {
  }

  /** Writing a record to both copies keeps them in step. */
  lemma SaveKeepsSync(rs: seq<Rental>, u: Rental)
    requires DistinctIds(rs)
    ensures UpdatedRentals(StoredRows(rs), u.id, u) == StoredRows(Replaced(rs, u.id, u))
    ensures DistinctIds(Replaced(rs, u.id, u))
  {
    var i := FindIndex(rs, u.id);
    assert StoredRental(u).(id := u.id) == StoredRental(u);
    var a, b := UpdatedRentals(StoredRows(rs), u.id, u), StoredRows(Replaced(rs, u.id, u));
    forall k | 0 <= k < |rs| ensures a[k] == b[k] {
      if rs[k].id == u.id { assert k == i; }
    }
  }

  /** Reading the store back keeps the copies in step. */
  lemma RefreshKeepsSync(rs: seq<Rental>)
    requires DistinctIds(rs)
    ensures StoredRows(StoredRows(rs)) == StoredRows(rs) && DistinctIds(StoredRows(rs))
  {
    forall k | 0 <= k < |rs| ensures StoredRental(StoredRental(rs[k])) == StoredRental(rs[k]) {
      StoredRentalIdempotent(rs[k]);
    }
  }

  /** The adjustment and refund records of a price change. */
  function AdjustmentData(today: Date, amount: int, paymentMethod: string, notes: string, fulfilled: Option<bool>): PaymentData {
    PaymentData(FormatDateForStorage(Some(today)), amount,
                "Tháng " + IntToString(today.month) + "/" + IntToString(today.year),
                paymentMethod, notes, fulfilled)
  }

  const PriceIncreaseMethod: string := "Điều chỉnh giá"
  const RefundMethod: string := "Hoàn tiền"

  /** A refund is written with `refund_fulfilled: false`, which the store
      turns into `NULL`: the record cannot be told apart from one whose
      status was never set. */
  lemma RefundStoredAsNull(id: int, rentalId: int, today: Date, refund: int, notes: string)
    ensures PaymentRow(id, rentalId, AdjustmentData(today, -refund, RefundMethod, notes, Some(false))).refundFulfilled.None?
    ensures PaymentRow(id, rentalId, AdjustmentData(today, -refund, RefundMethod, notes, Some(false))).refundFulfilled
         == PaymentRow(id, rentalId, AdjustmentData(today, -refund, RefundMethod, notes, None)).refundFulfilled
  {
  }

  /** Every record the payment, edit, deletion and recalculation paths
      write is marked paid exactly when nothing is owed. */
  lemma WrittenRecordsSettle(r: Rental, selected: seq<string>, original: Payment, months: seq<string>, owed: int)
    ensures var u := Settle(r, owed); u.paid <==> u.amountOwed == 0
    ensures var u := AfterPayment(r, selected, owed); u.paid <==> u.amountOwed == 0
    ensures var u := AfterEdit(r, selected, original, months, owed); u.paid <==> u.amountOwed == 0
    ensures var u := AfterDeletion(r, months, owed); u.paid <==> u.amountOwed == 0
  {
  }

  /** The text of the current month, `Tháng M/YYYY`. */
  function CurrentMonthText(today: Date): string {
    "Tháng " + IntToString(today.month) + "/" + IntToString(today.year)
  }

  /** A price change made in July, August or September 2025 writes a record
      that itself names a month of the scenario, once: recalculating
      afterwards adds one more month's difference to what is owed. */
  lemma AdjustmentRecordCounts(price: int, ps: seq<Payment>, p: Payment, today: Date)
    requires today.year == 2025 && 7 <= today.month <= 9
    requires p.monthsCovered == CurrentMonthText(today)
    ensures Surcharge(price, ps + [p]) == Surcharge(price, ps) + (if price > OldPrice then price - OldPrice else 0)
  {
    ScenarioMonthText(today);
    SurchargeAppend(price, ps, [p]);
    assert [p][..0] == [];
  }

  /** `Tháng 7/2025`, `Tháng 8/2025` and `Tháng 9/2025` each name one month of
      the scenario and no range. */
  lemma ScenarioMonthText(today: Date)
    requires today.year == 2025 && 7 <= today.month <= 9
    ensures InScenario(CurrentMonthText(today)) && MonthsInRange(CurrentMonthText(today)) == 1
  {
    var t := CurrentMonthText(today);
    var m := today.month;
    MonthTextShape(today);
    var w := t[6..12];
    assert OccursAt(t, w, 6);
    assert w == [t[6]] + t[7..];
    if m == 7 { assert w == "7/2025"; } else if m == 8 { assert w == "8/2025"; } else { assert w == "9/2025"; }
    CharAbsent(t, " tới ", 'ớ');
    if m != 7 { SlashAnchored(t, "7/2025", 7); }
    if m != 8 { SlashAnchored(t, "8/2025", 7); }
    if m != 9 { SlashAnchored(t, "9/2025", 7); }
  }

  lemma MonthTextShape(today: Date)
    requires today.year == 2025 && 1 <= today.month <= 9
    ensures var t := CurrentMonthText(today);
            |t| == 12 && t[6] == DigitChar(today.month) && t[7..] == "/2025" && 'ớ' !in t
            && forall k :: 0 <= k < |t| && t[k] == '/' ==> k == 7
  {
    var t := CurrentMonthText(today);
    var d := DigitChar(today.month);
    assert IntToString(2025) == "2025";
    assert IntToString(today.month) == [d];
    var head: string := "Tháng ";
    assert t == head + [d] + "/2025";
    forall k | 0 <= k < |t| ensures t[k] != '/' || k == 7 {
      if k < 6 { assert t[k] == head[k]; }
    }
    forall k | 0 <= k < |t| ensures t[k] != 'ớ' {
      if k < 6 { assert t[k] == head[k]; }
    }
  }

  /** A text lacking one of the characters of `w` does not contain `w`. */
  lemma CharAbsent(t: string, w: string, x: char)
    requires x in w && x !in t
    ensures !Contains(t, w)
  {
    var j :| 0 <= j < |w| && w[j] == x;
    forall i | 0 <= i <= |t| ensures !OccursAt(t, w, i) {
      if i + |w| <= |t| { assert t[i..i + |w|][j] == t[i + j]; }
    }
  }

  /** A text whose only `/` sits at `j`, after a character other than the
      first of `w`, does not contain a `w` whose second character is `/`. */
  lemma SlashAnchored(t: string, w: string, j: int)
    requires |w| >= 2 && w[1] == '/' && 1 <= j < |t| && t[j - 1] != w[0]
    requires forall k :: 0 <= k < |t| && t[k] == '/' ==> k == j
    ensures !Contains(t, w)
  {
    forall i | 0 <= i <= |t| ensures !OccursAt(t, w, i) {
      if i + |w| <= |t| {
        assert t[i..i + |w|][1] == t[i + 1];
        assert t[i..i + |w|][0] == t[i];
      }
    }
  }

  class RentalManager {
    const db: Database
    var rentals: seq<Rental>

    /** The local list holds the records the store holds, one per id. */
    predicate Valid()
      reads this, db
    {
      db.Valid() && DistinctIds(rentals) && db.rentals == StoredRows(rentals)
    }

    /** The manager after `loadData`: it reads the rentals from the store. */
    constructor(store: Database)
      requires store.Valid() && DistinctIds(store.rentals) && StoredRows(store.rentals) == store.rentals
      ensures Valid() && db == store && rentals == store.rentals
    {
      db := store;
      rentals := store.rentals;
    }

    /** `refreshData`. */
    method RefreshData()
      requires Valid()
      modifies this
      ensures Valid() && rentals == db.rentals
    {
      RefreshKeepsSync(rentals);
      rentals := db.rentals;
    }

    /** `calculateCorrectAmountOwed`: the selection and the amount being paid
        only feed a total that is logged, never the result. */
    method CalculateCorrectAmountOwed(rental: Rental, selectedMonths: seq<string>, amountPaid: int) returns (owed: int)
      ensures owed == Surcharge(rental.price, db.PaymentHistory(rental.id))
    {
      var payments := db.PaymentHistory(rental.id);
      owed := 0;
      var i := 0;
      while i < |payments|
        invariant 0 <= i <= |payments|
        invariant owed == Surcharge(rental.price, payments[..i])
      {
        assert payments[..i + 1][..i] == payments[..i];
        owed := owed + PaymentSurcharge(rental.price, payments[i]);
        i := i + 1;
      }
      assert payments[..i] == payments;
    }

    /** `dbManager.updateRental(u.id, u)` and the write to the local list. */
    method SaveRental(u: Rental)
      requires Valid()
      modifies this, db
      ensures Valid()
      ensures db.rentals == UpdatedRentals(old(db.rentals), u.id, u)
      ensures rentals == Replaced(old(rentals), u.id, u)
      ensures db.payments == old(db.payments) && db.lastPaymentId == old(db.lastPaymentId)
    {
      SaveKeepsSync(rentals, u);
      db.UpdateRental(u.id, u);
      rentals := Replaced(rentals, u.id, u);
    }

    /** `updateRentalAfterPayment`. */
    method UpdateRentalAfterPayment(rental: Rental, selectedMonths: seq<string>, amountPaid: int)
      requires Valid()
      modifies this, db
      ensures Valid()
      ensures var u := AfterPayment(rental, selectedMonths, Surcharge(rental.price, History(old(db.payments), rental.id)));
              db.rentals == UpdatedRentals(old(db.rentals), rental.id, u)
              && rentals == Replaced(old(rentals), rental.id, u)
      ensures db.payments == old(db.payments) && db.lastPaymentId == old(db.lastPaymentId)
    {
      var owed := CalculateCorrectAmountOwed(rental, selectedMonths, amountPaid);
      var details := AppendDetails(rental.monthsPaidDetails, FormatSelectedMonthsPeriod(selectedMonths));
      var updated := rental.(monthsPaid := rental.monthsPaid + |selectedMonths|, amountOwed := owed,
                             monthsPaidDetails := details, paid := owed == 0);
      assert updated == AfterPayment(rental, selectedMonths, owed);
      SaveRental(updated);
    }

    /** The months the edit path collects, one payment at a time. */
    method CollectEditedMonths(payments: seq<Payment>, paymentId: int, selectedMonths: seq<string>) returns (all: seq<string>)
      ensures all == EditedMonths(payments, paymentId, selectedMonths)
    {
      all := [];
      var i := 0;
      while i < |payments|
        invariant 0 <= i <= |payments|
        invariant all == EditedMonths(payments[..i], paymentId, selectedMonths)
      {
        assert payments[..i + 1][..i] == payments[..i];
        var p := payments[i];
        all := all + EditItems(p, paymentId, selectedMonths);
        i := i + 1;
      }
      assert payments[..i] == payments;
    }

    /** `updateRentalAfterPaymentEdit`: nothing happens when the payment is not
        found. */
    method UpdateRentalAfterPaymentEdit(rental: Rental, selectedMonths: seq<string>, amountPaid: int, paymentId: int)
      requires Valid()
      modifies this, db
      ensures Valid()
      ensures old(db.PaymentById(paymentId)).None? ==> rentals == old(rentals) && db.rentals == old(db.rentals)
      ensures old(db.PaymentById(paymentId)).Some? ==>
              var history := History(old(db.payments), rental.id);
              var u := AfterEdit(rental, selectedMonths, old(db.PaymentById(paymentId)).value,
                                 EditedMonths(history, paymentId, selectedMonths),
                                 Surcharge(rental.price, history));
              db.rentals == UpdatedRentals(old(db.rentals), rental.id, u)
              && rentals == Replaced(old(rentals), rental.id, u)
      ensures db.payments == old(db.payments) && db.lastPaymentId == old(db.lastPaymentId)
    {
      var original := db.PaymentById(paymentId);
      if original.None? {
        return;
      }
      var owed := CalculateCorrectAmountOwed(rental, selectedMonths, amountPaid);
      var updated := EditedRecord(rental, selectedMonths, original.value, db.PaymentHistory(rental.id), paymentId, owed);
      SaveRental(updated);
    }

    /** The record `updateRentalAfterPaymentEdit` writes. */
    method EditedRecord(rental: Rental, selectedMonths: seq<string>, original: Payment,
                        history: seq<Payment>, paymentId: int, owed: int) returns (updated: Rental)
      ensures updated == AfterEdit(rental, selectedMonths, original, EditedMonths(history, paymentId, selectedMonths), owed)
    {
      var originalMonths := CommaParts(original.monthsCovered);
      var newMonthsPaid := rental.monthsPaid + (|selectedMonths| - |originalMonths|);
      var all := CollectEditedMonths(history, paymentId, selectedMonths);
      var details := FormatSelectedMonthsPeriod(EditedSelection(all));
      updated := rental.(monthsPaid := newMonthsPaid, amountOwed := owed,
                         monthsPaidDetails := details, paid := owed == 0);
    }

    /** The months the deletion path collects, one payment at a time. */
    method CollectRemainingMonths(payments: seq<Payment>) returns (all: seq<string>)
      ensures all == RemainingMonths(payments)
    {
      all := [];
      var i := 0;
      while i < |payments|
        invariant 0 <= i <= |payments|
        invariant all == RemainingMonths(payments[..i])
      {
        assert payments[..i + 1][..i] == payments[..i];
        all := all + PlusItems(payments[i].monthsCovered);
        i := i + 1;
      }
      assert payments[..i] == payments;
    }

    /** `updateRentalAfterPaymentDeletion`: nothing happens for an unknown
        rental. */
    method UpdateRentalAfterPaymentDeletion(rentalId: int)
      requires Valid()
      modifies this, db
      ensures Valid()
      ensures FindRental(old(rentals), rentalId).None? ==> rentals == old(rentals) && db.rentals == old(db.rentals)
      ensures FindRental(old(rentals), rentalId).Some? ==>
              var r := FindRental(old(rentals), rentalId).value;
              var history := History(old(db.payments), rentalId);
              var u := AfterDeletion(r, RemainingMonths(history), Surcharge(r.price, history));
              db.rentals == UpdatedRentals(old(db.rentals), rentalId, u)
              && rentals == Replaced(old(rentals), rentalId, u)
      ensures db.payments == old(db.payments) && db.lastPaymentId == old(db.lastPaymentId)
    {
      var found := FindRental(rentals, rentalId);
      if found.None? {
        return;
      }
      var rental := found.value;
      var all := CollectRemainingMonths(db.PaymentHistory(rentalId));
      var owed := CalculateCorrectAmountOwed(rental, [], 0);
      var updated := rental.(monthsPaid := |all|, monthsPaidDetails := Join(all, "+"),
                             amountOwed := owed, paid := owed == 0);
      assert updated == AfterDeletion(rental, all, owed);
      SaveRental(updated);
    }

    /** `recalculateAllAmountsOwed`. */
    method RecalculateAllAmountsOwed()
      requires Valid()
      modifies this, db
      ensures Valid()
      ensures rentals == db.rentals && db.rentals == StoredRows(RecalculatedAll(old(rentals), old(db.payments)))
      ensures db.payments == old(db.payments) && db.lastPaymentId == old(db.lastPaymentId)
    {
      var i := 0;
      while i < |rentals|
        invariant Valid()
        invariant 0 <= i <= |rentals| == |old(rentals)|
        invariant forall k :: 0 <= k < i ==> rentals[k] == Recalculated(old(rentals)[k], db.payments)
        invariant forall k :: i <= k < |rentals| ==> rentals[k] == old(rentals)[k]
        invariant db.payments == old(db.payments) && db.lastPaymentId == old(db.lastPaymentId)
      {
        RecalculateAt(i);
        i := i + 1;
      }
      assert rentals == RecalculatedAll(old(rentals), db.payments);
      RefreshData();
    }

    /** One step of `recalculateAllAmountsOwed`: the record at `i` is written
        back only when its amount changes. */
    method RecalculateAt(i: int)
      requires Valid() && 0 <= i < |rentals|
      modifies this, db
      ensures Valid()
      ensures rentals == old(rentals)[i := Recalculated(old(rentals)[i], db.payments)]
      ensures db.payments == old(db.payments) && db.lastPaymentId == old(db.lastPaymentId)
    {
      var rental := rentals[i];
      var owed := CalculateCorrectAmountOwed(rental, [], 0);
      if owed != rental.amountOwed {
        FindIndexOfDistinct(rentals, i);
        SaveRental(Settle(rental, owed));
      }
    }

    /** `recalculateSpecificRental`: the record is always written back. */
    method RecalculateSpecificRental(rentalId: int)
      requires Valid()
      modifies this, db
      ensures Valid()
      ensures FindRental(old(rentals), rentalId).None? ==> rentals == old(rentals) && db.rentals == old(db.rentals)
      ensures FindRental(old(rentals), rentalId).Some? ==>
              var r := FindRental(old(rentals), rentalId).value;
              var u := Settle(r, Surcharge(r.price, History(old(db.payments), rentalId)));
              db.rentals == UpdatedRentals(old(db.rentals), rentalId, u) && rentals == db.rentals
      ensures db.payments == old(db.payments) && db.lastPaymentId == old(db.lastPaymentId)
    {
      var found := FindRental(rentals, rentalId);
      if found.None? {
        return;
      }
      var rental := found.value;
      var owed := CalculateCorrectAmountOwed(rental, [], 0);
      SaveRental(Settle(rental, owed));
      RefreshData();
    }

    /** `handlePriceChange`: the new record is written with the amount owed
        at its new price. The old record only feeds the message. */
    method HandlePriceChange(originalRental: Rental, newRental: Rental)
      requires Valid()
      modifies this, db
      ensures Valid()
      ensures var u := Settle(newRental, Surcharge(newRental.price, History(old(db.payments), newRental.id)));
              db.rentals == UpdatedRentals(old(db.rentals), newRental.id, u)
              && rentals == Replaced(old(rentals), newRental.id, u)
      ensures db.payments == old(db.payments) && db.lastPaymentId == old(db.lastPaymentId)
    {
      var owed := CalculateCorrectAmountOwed(newRental, [], 0);
      SaveRental(Settle(newRental, owed));
    }

    /** `handlePriceIncrease`: a zero payment for the current month, the
        difference added to the amount owed; the paid flag is not touched. */
    method HandlePriceIncrease(rental: Rental, additionalAmount: int, today: Date, notes: string) returns (paymentId: int)
      requires Valid()
      modifies this, db
      ensures Valid()
      ensures paymentId == old(db.lastPaymentId) + 1
      ensures db.payments == old(db.payments)
              + [PaymentRow(paymentId, rental.id, AdjustmentData(today, 0, PriceIncreaseMethod, notes, None))]
      ensures var u := rental.(amountOwed := rental.amountOwed + additionalAmount);
              db.rentals == UpdatedRentals(old(db.rentals), rental.id, u)
              && rentals == Replaced(old(rentals), rental.id, u)
    {
      var data := AdjustmentData(today, 0, PriceIncreaseMethod, notes, None);
      paymentId := db.AddPaymentRecord(rental.id, data);
      SaveRental(rental.(amountOwed := rental.amountOwed + additionalAmount));
    }

    /** `handlePriceDecrease`: a negative payment for the current month, the
        refund taken off the amount owed but never below zero. */
    method HandlePriceDecrease(rental: Rental, refundAmount: int, today: Date, notes: string) returns (refundId: int)
      requires Valid()
      modifies this, db
      ensures Valid()
      ensures refundId == old(db.lastPaymentId) + 1
      ensures db.payments == old(db.payments)
              + [PaymentRow(refundId, rental.id, AdjustmentData(today, -refundAmount, RefundMethod, notes, Some(false)))]
      ensures var owed := if rental.amountOwed - refundAmount > 0 then rental.amountOwed - refundAmount else 0;
              var u := rental.(amountOwed := owed);
              db.rentals == UpdatedRentals(old(db.rentals), rental.id, u)
              && rentals == Replaced(old(rentals), rental.id, u)
    {
      var data := AdjustmentData(today, -refundAmount, RefundMethod, notes, Some(false));
      refundId := db.AddPaymentRecord(rental.id, data);
      var owed := if rental.amountOwed - refundAmount > 0 then rental.amountOwed - refundAmount else 0;
      SaveRental(rental.(amountOwed := owed));
    }
  }
}
