/** When a rental's next payment falls due: the status shown in the reminder
    column (`calculateNextReminderDate`), the value that column sorts by
    (`getNextReminderSortValue`) and the reminder filter of the table. The
    clock is a parameter: `today` is the current day. */
module Reminders {
  import opened JsText
  import opened Calendar
  import opened Records

  /** The reminder column's verdict, one case per message the source renders. */
  datatype Reminder =
    | NoStartDate          // "Chưa có ngày"
    | BadStartDate         // "Ngày không hợp lệ"
    | Settled              // "Đã Thanh Toán ✓"
    | NoEndDate            // "Chưa có ngày kết thúc"
    | BadEndDate           // "Ngày kết thúc không hợp lệ"
    | RentalEnded          // "Hết Hạn Thuê"
    | Overdue(on: Date)    // "⚠️ <date>"
    | DueToday             // "📅 Hôm Nay!"
    | Upcoming(on: Date)   // "<date>"

  /** The options of the reminder filter; `Other` is any further value. */
  datatype ReminderFilter = OverdueOnly | TodayOnly | UpcomingOnly | Other

  /** The start day plus the months paid plus one, with `setMonth` overflow. */
  function NextReminder(start: Date, monthsPaid: int): Date {
    AddMonths(start, monthsPaid + 1)
  }

  /** Overdue, due today or upcoming, compared with `today` at day precision. */
  function DueStatus(next: Date, today: Date): (r: Reminder)
    ensures r.Overdue? <==> Before(next, today)
    ensures r.DueToday? <==> next == today
    ensures r.Upcoming? <==> Before(today, next)
    ensures r.Overdue? || r.DueToday? || r.Upcoming?
    ensures r.Overdue? ==> r.on == next
    ensures r.Upcoming? ==> r.on == next
  {
    if Before(next, today) then Overdue(next)
    else if next == today then DueToday
    else Upcoming(next)
  }

  /** `calculateNextReminderDate`: the start date is checked first, then
      `paid`, then (for a fixed-term rental) the end date. */
  function ClassifyReminder(r: Rental, today: Date): Reminder {
    match r.dateIn
    case Blank => NoStartDate
    case Unparsable => BadStartDate
    case OnDay(start) =>
      var next := NextReminder(start, r.monthsPaid);
      if r.paid then Settled
      else if r.isOpenEnded then DueStatus(next, today)
      else
        match r.dateOut
        case Blank => NoEndDate
        case Unparsable => BadEndDate
        case OnDay(end) => if Before(end, next) then RentalEnded else DueStatus(next, today)
  }

  /** A rental shows as settled exactly when it has a start day and is paid. */
  lemma SettledIff(r: Rental, today: Date)
    ensures ClassifyReminder(r, today) == Settled <==> r.dateIn.OnDay? && r.paid
  {
  }

  /** A missing or unreadable start date wins over `paid`. */
  lemma StartCheckedFirst(r: Rental, today: Date)
    requires !r.dateIn.OnDay?
    ensures ClassifyReminder(r, today) == if r.dateIn.Blank? then NoStartDate else BadStartDate
  {
  }

  /** An open-ended rental never reaches the checks of the end date. */
  lemma OpenEndedNeverEnds(r: Rental, today: Date)
    requires r.isOpenEnded
    ensures var c := ClassifyReminder(r, today);
            c != RentalEnded && c != NoEndDate && c != BadEndDate
  {
  }

  /** A rental has ended exactly when it is fixed-term, unpaid, and its next
      reminder falls after its end day. */
  lemma EndedIff(r: Rental, today: Date)
    ensures ClassifyReminder(r, today) == RentalEnded <==>
            r.dateIn.OnDay? && !r.paid && !r.isOpenEnded && r.dateOut.OnDay?
            && Before(r.dateOut.day, NextReminder(r.dateIn.day, r.monthsPaid))
  {
  }

  /** An unpaid rental that is still running is overdue, due today or upcoming
      according to where its next reminder falls against `today`. */
  lemma DueIff(r: Rental, today: Date)
    requires r.dateIn.OnDay? && !r.paid
    requires r.isOpenEnded || (r.dateOut.OnDay? && !Before(r.dateOut.day, NextReminder(r.dateIn.day, r.monthsPaid)))
    ensures var next := NextReminder(r.dateIn.day, r.monthsPaid);
            var c := ClassifyReminder(r, today);
            (c == Overdue(next) <==> Before(next, today))
            && (c == DueToday <==> next == today)
            && (c == Upcoming(next) <==> Before(today, next))
  {
  }

  /** The sentinel days the sort value uses: paid last, then rentals whose
      reminder is not due, then rentals without usable dates. */
  const PaidLast: Date := Date(9999, 12, 31)
  const NotDueLast: Date := Date(9999, 12, 30)
  const NoDateLast: Date := Date(9999, 12, 29)

  /** `getNextReminderSortValue`, with `now` the current day. `paid` is
      checked before the dates here. */
  function ReminderSortValue(r: Rental, now: Date): Date {
    if r.paid then PaidLast
    else
      match r.dateIn
      case Blank => NoDateLast
      case Unparsable => NoDateLast
      case OnDay(start) =>
        var next := NextReminder(start, r.monthsPaid);
        if r.isOpenEnded then (if Before(now, next) then NotDueLast else next)
        else
          match r.dateOut
          case Blank => NoDateLast
          case Unparsable => NoDateLast
          case OnDay(end) => if Before(end, next) then NotDueLast else next
  }

  /** The sort value agrees with the reminder column: a settled rental sorts
      as paid, an ended one as not due, and a fixed-term rental that is due
      by its next reminder day. */
  lemma SortValueOfFixedTerm(r: Rental, today: Date)
    requires !r.isOpenEnded && r.dateIn.OnDay?
    ensures var c := ClassifyReminder(r, today);
            var v := ReminderSortValue(r, today);
            (c == Settled ==> v == PaidLast)
            && (c == RentalEnded ==> v == NotDueLast)
            && (c == NoEndDate || c == BadEndDate ==> v == NoDateLast)
            && (c.Overdue? || c == DueToday || c.Upcoming? ==> v == NextReminder(r.dateIn.day, r.monthsPaid))
  {
  }

  /** For an open-ended rental, a reminder still to come sorts as not due; an
      overdue one, or one due today, by its day. */
  lemma SortValueOfOpenEnded(r: Rental, today: Date)
    requires r.isOpenEnded && r.dateIn.OnDay?
    ensures var c := ClassifyReminder(r, today);
            var v := ReminderSortValue(r, today);
            (c == Settled ==> v == PaidLast)
            && (c.Upcoming? ==> v == NotDueLast)
            && (c.Overdue? || c == DueToday ==> v == NextReminder(r.dateIn.day, r.monthsPaid))
  {
  }

  /** The reminder filter (`applyFilters`): paid rentals are dropped, then
      those whose next reminder falls after `new Date(rental.dateOut)`, then
      the option decides. No date is checked for validity. */
  predicate KeepForReminder(r: Rental, f: ReminderFilter, today: Date) {
    var next := ShiftMonths(StartTime(r.dateIn), r.monthsPaid + 1);
    var day := At(today);
    !r.paid && !Earlier(EndTime(r.dateOut), next)
    && match f
       case OverdueOnly => Earlier(next, day)
       case TodayOnly => SameTime(next, day)
       case UpcomingOnly => Earlier(day, next)
       case Other => true
  }

  /** For an unpaid fixed-term rental with both days, each option keeps
      exactly the rentals the reminder column puts in that state. */
  lemma FilterMatchesColumn(r: Rental, today: Date)
    requires !r.isOpenEnded && r.dateIn.OnDay? && r.dateOut.OnDay?
    ensures var c := ClassifyReminder(r, today);
            (KeepForReminder(r, OverdueOnly, today) <==> c.Overdue?)
            && (KeepForReminder(r, TodayOnly, today) <==> c == DueToday)
            && (KeepForReminder(r, UpcomingOnly, today) <==> c.Upcoming?)
  {
  }

  /** An open-ended rental keeps `dateOut` empty, which `new Date(null)` reads
      as 1970-01-01: every such rental starting in 1970 or later falls after
      its "end" and is dropped by every option of the filter. */
  lemma FilterDropsOpenEnded(r: Rental, f: ReminderFilter, today: Date)
    requires r.dateOut.Blank? && r.dateIn.OnDay? && ValidDate(r.dateIn.day)
    requires r.dateIn.day.year >= 1970 && r.monthsPaid >= 0
    ensures !KeepForReminder(r, f, today)
  {
    AddMonthsLater(r.dateIn.day, r.monthsPaid + 1);
  }

  /** Without a readable start date no option but `Other` keeps a rental. */
  lemma FilterNeedsStart(r: Rental, f: ReminderFilter, today: Date)
    requires !r.dateIn.OnDay? && f != Other
    ensures !KeepForReminder(r, f, today)
  {
  }
}
