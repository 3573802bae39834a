/** The two records the billing engine keeps, as the in-memory stand-ins of
    the `rentals` and `payment_history` tables, and the JavaScript time values
    their date columns turn into. */
module Records {
  import opened JsText
  import opened Calendar

  /** A date column: empty (`''` or `null`), text that `new Date` cannot
      read, or a calendar day. */
  datatype DateField = Blank | Unparsable | OnDay(day: Date)

  /** A JavaScript time value at day precision: `NaN` or a calendar day. */
  datatype Time = Invalid | At(day: Date)

  /** 1 January 1970, what `new Date(null)` denotes. */
  const Epoch: Date := Date(1970, 1, 1)

  /** A rental contract. `texts` holds the text columns (owner, plate
      number, car model, ...) by column name. */
  datatype Rental = Rental(
    id: int,
    price: int,
    dateIn: DateField,
    dateOut: DateField,
    isOpenEnded: bool,
    monthsPaid: int,
    monthsPaidDetails: string,
    amountOwed: int,
    paid: bool,
    texts: map<string, string>)

  /** A row of the payment history. `refundFulfilled` is `None` for SQL `NULL`. */
  datatype Payment = Payment(
    id: int,
    rentalId: int,
    paymentDate: string,
    amountPaid: int,
    monthsCovered: string,
    paymentMethod: string,
    notes: string,
    refundFulfilled: Option<bool>)

  /** `new Date(rental.dateIn)`: the column is stored as `''` when empty,
      which is an invalid date. */
  function StartTime(f: DateField): (t: Time)
    ensures t.At? <==> f.OnDay?
    ensures f.OnDay? ==> t == At(f.day)
  {
    match f
    case OnDay(d) => At(d)
    case _ => Invalid
  }

  /** `new Date(rental.dateOut)`: the column is stored as `null` when empty,
      and `new Date(null)` is the epoch. */
  function EndTime(f: DateField): (t: Time)
    ensures f.Blank? ==> t == At(Epoch)
    ensures f.Unparsable? ==> t.Invalid?
    ensures f.OnDay? ==> t == At(f.day)
  {
    match f
    case Blank => At(Epoch)
    case Unparsable => Invalid
    case OnDay(d) => At(d)
  }

  /** `t.setMonth(t.getMonth() + k)`; an invalid date stays invalid. */
  function ShiftMonths(t: Time, k: int): (r: Time)
    ensures r.At? <==> t.At?
  {
    match t
    case Invalid => Invalid
    case At(d) => At(AddMonths(d, k))
  }

  /** `a < b` on dates: false whenever either is `NaN`. */
  predicate Earlier(a: Time, b: Time) { a.At? && b.At? && Before(a.day, b.day) }

  /** `a.getTime() === b.getTime()`: `NaN` equals nothing. */
  predicate SameTime(a: Time, b: Time) { a.At? && b.At? && a.day == b.day }
}
