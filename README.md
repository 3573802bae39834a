# Parking rental billing engine

`script.js` is a single-page app for a parking lot. It keeps rentals (a car, a
monthly price, a start and an end date, the months paid so far) and the
payments made against them in an SQLite file. Most of `script.js` is DOM,
printing and storage code. Inside it is a small engine of ordinary string,
integer and calendar logic, and this project models that engine:

- **Month-coverage texts.** A payment stores the months it covers in a
  `months_covered` text. The text takes one of three forms:
  - `7/2025 tới 9/2025`;
  - `Tháng 3-5/2024`;
  - `Tháng 3/2024 - 2/2025`.

  Several forms can be joined by `+`. The engine expands these texts for
  display (`MonthCodec`) and reads them back as `YYYY-MM` keys of the months
  paid. It writes a selection of months back out as a text (`MonthCodec`,
  `SelectionLaws`) and builds the month label of an invoice (`InvoiceLaws`).
  The regular expressions it uses are modelled as small deterministic
  matchers (`Patterns`, `MonthText`).
- **Calendar** (`Calendar`). The model covers:
  - JavaScript `Date` normalisation: day and month overflow, and the
    two-digit years 0–99 read as 19xx;
  - `setMonth` stepping, the month count between two dates and the
    per-month billing interval;
  - the storage and display formats, the date validator and the input mask.
- **Reminders** (`Reminders`). The reminder column's verdict for a rental,
  the value that column sorts by, and the reminder filter of the table.
- **Sorting** (`Sorting`). The sort-state toggle of the column headers and
  the comparator of the table.
- **Amount text** (`AmountText`). The Vietnamese amount in words, and the
  thousands separator of the price field with its inverse.
- **Store** (`Store`). The payment store is a class over in-memory
  sequences: fresh AUTOINCREMENT ids, replace by id, delete by id, payment
  history by rental, and lookup of a payment joined with its rental. The
  defaults the store writes for rental columns are modelled too.
- **Billing** (`Billing`). The `RentalManager` class holds the manager's
  copy of the rentals and the store, and models these operations:
  - the hard-coded surcharge rule that computes the amount owed (old price
    1,200,000, months 7–9 of 2025);
  - the three update paths after a payment is added, edited or deleted;
  - the recalculation of every rental or of one rental;
  - the price-change handler and the two price-adjustment record builders.

The current day (`today`, `now`) is a parameter wherever the source reads the
clock. Tables of text normalisation and the UI layer are parameters or are
left out (see below).

## Model

| member | source | states |
|---|---|---|
| Calendar.NextMonth | script.js:3391-3396 | one `setMonth(+1)` step from the first of a month: the next calendar month, December rolling into January of the next year |
| Calendar.FromIndex | script.js:3391-3396 | every month index names exactly one valid (year, month) |
| Calendar.IndexRoundTrip | script.js:3391-3396 | a valid month survives the conversion to its index and back |
| Calendar.MakeDate | script.js:844-845 | `new Date(y, m0, d)` always yields a real calendar day (overflowing days and months carry over) |
| Calendar.MakeDateValid | script.js:844-845 | a real day with a four-digit year is its own `new Date` |
| Calendar.AddMonthsKeepsDay | script.js:1647-1648 | `setMonth(getMonth()+k)` keeps the day of month whenever that day is at most 28 |
| Calendar.AddMonthsOverflowsLeap | script.js:1647-1648 | 31 January 2024 plus one month is 2 March 2024 (no clamping) |
| Calendar.AddMonthsOverflowsCommon | script.js:1647-1648 | 31 January 2023 plus one month is 3 March 2023 |
| Calendar.AddMonthsLater | script.js:1647-1648 | adding one or more months always lands strictly later |
| Calendar.MonthsBetween | script.js:1624-1628 | at least 1, and equal to 1 or to 12·(year difference) + (month difference) + 1, whichever is larger |
| Calendar.MonthsBetweenIgnoresDay | script.js:1624-1628 | the day of month of either date never changes the count |
| Calendar.MonthsBetweenAddMonths | script.js:1624-1628 | from a day at most 28 to that day k months later counts k + 1 months |
| Calendar.BillingInterval | script.js:4857-4863 | the interval of a month starts and ends on real calendar days |
| Calendar.BillingIntervalStart | script.js:4857-4863 | for an anchor day at most 28 the interval starts on the anchor day of that month |
| Calendar.BillingIntervalEnd | script.js:4919-4925 | it ends the day before the anchor day of the next month, or on the last day of the month for anchor day 1 |
| Calendar.BillingIntervalsTile | script.js:4857-4863 | consecutive months' intervals leave no gap and do not overlap: the day after one ends is the day the next starts |
| Calendar.BillingIntervalOverflows | script.js:4857-4863 | anchor day 31 in April starts the interval on 1 May |
| Calendar.StorageDateRoundTrip | script.js:773-782 | reading back a stored `YYYY-MM-DD` date gives the same day |
| Calendar.StorageTextSplits | script.js:773-782 | the stored text is the year, the padded month and the padded day, separated by `-` |
| Calendar.ParseStorageDateOfParts | script.js:4831-4834 | the payment-period parser reads any three `-`-separated integers as `new Date(y, m-1, d)` |
| Calendar.ValidateOfParts | script.js:815-856 | a three-part `/` text with a year in 1900–2100 and a month in 1–12 is accepted exactly when `new Date` keeps its day and month, and then comes back as `DD/MM/YYYY` |
| Calendar.MakeDateKeepsDayIff | script.js:844-848 | `new Date` keeps the month and day exactly when the day exists in that month |
| Calendar.ValidateAcceptsExactlyRealDays | script.js:815-856 | a formatted `DD/MM/YYYY` text is accepted unchanged exactly when the day exists in that month and year |
| Calendar.KeepDigitsAndSlash | script.js:606-624 | the mask keeps only digits and `/`, and leaves a digits-only text unchanged |
| Calendar.MaskDateInput | script.js:606-624 | the masked value has at most 10 characters, all digits or `/` |
| Calendar.MaskGroupsDigits | script.js:606-624 | typed digits are grouped as `DD/MM/...`, cut at 10 characters |
| Calendar.MaskEightDigits | script.js:606-624 | eight typed digits become `DD/MM/YYYY` |
| Records.StartTime | script.js:1637-1641 | a rental's start date is a time exactly when the field holds a day, and then it is that day; a blank or unreadable field is an invalid date |
| Records.EndTime | script.js:1981 | `new Date(rental.dateOut)`: a blank end date is the epoch, an unreadable one is an invalid date, a day is that day |
| Reminders.DueStatus | script.js:1657-1668 | overdue, due today or upcoming, exactly as the next reminder falls before, on or after today |
| Reminders.SettledIff | script.js:1644-1653 | a rental shows as settled exactly when it has a start day and is paid |
| Reminders.StartCheckedFirst | script.js:1632-1641 | a missing or unreadable start date is reported before `paid` is looked at |
| Reminders.OpenEndedNeverEnds | script.js:1656-1670 | an open-ended rental never reaches the end-date checks |
| Reminders.EndedIff | script.js:1670-1686 | a rental shows as ended exactly when it is fixed-term, unpaid, and its next reminder (start + monthsPaid + 1 months) is after its end day |
| Reminders.DueIff | script.js:1654-1697 | an unpaid running rental is overdue, due today or upcoming as its next reminder falls before, on or after today |
| Reminders.SortValueOfFixedTerm | script.js:1836-1887 | a fixed-term rental's sort value: the paid sentinel when settled, the not-due sentinel when ended, the no-date sentinel without an end date, otherwise its next reminder |
| Reminders.SortValueOfOpenEnded | script.js:1836-1887 | an open-ended rental's sort value: the paid sentinel when settled, the not-due sentinel when its reminder is still ahead, otherwise its next reminder |
| Reminders.FilterMatchesColumn | script.js:1971-2001 | for a fixed-term rental with both dates, the overdue, today and upcoming filters keep exactly the rentals the reminder column shows that way |
| Reminders.FilterDropsOpenEnded | script.js:1981-1988 | with no end date, `new Date(null)` is the epoch, so every reminder filter drops the rental |
| Reminders.FilterNeedsStart | script.js:1980-1988 | a rental without a usable start date is dropped by every named filter |
| Sorting.Flip | script.js:1774 | the direction toggle always changes the direction |
| Sorting.NextSort | script.js:1771-1779 | the clicked field becomes the sort field; the direction is ascending unless the same field was clicked while ascending |
| Sorting.SortState.constructor | script.js:1771-1779 | the table starts sorted by id, ascending |
| Sorting.SortState.HandleSort | script.js:1771-1779 | a click moves the sort state by one step of the toggle |
| Sorting.ClicksParity | script.js:1771-1779 | after n clicks on one field, that field is sorted; on a field already sorted the direction flips on odd counts, on a new field odd counts are ascending |
| Sorting.TextLessIrreflexive | script.js:1811-1813 | no text sorts before itself |
| Sorting.TextLessAsymmetric | script.js:1811-1813 | two texts never sort before each other |
| Sorting.TextLessTransitive | script.js:1811-1813 | text order is transitive |
| Sorting.CompareAntisymmetric | script.js:1799-1817 | swapping the two rentals negates the comparator's result |
| Sorting.DescendingReverses | script.js:1815 | descending order negates the ascending result |
| Sorting.CompareReflexive | script.js:1799-1817 | a rental compares equal to itself |
| Sorting.CompareTransitive | script.js:1799-1817 | "sorts before" is transitive in ascending order |
| Sorting.InvalidDateTies | script.js:1826-1828 | an invalid date compares equal to every date |
| Sorting.TiesAreNotTransitive | script.js:1826-1828 | because of that, "compares equal" is not transitive: two different dates can both tie with an invalid one |
| MonthCodec.MonthIndexOfIsFirstOfMonth | script.js:3387-3388 | `new Date(year, month-1, 1)` of captured digits is the first of the month the engine indexes |
| MonthCodec.RangeMonthsSteps | script.js:3391-3396 | a non-empty range starts on its first month, ends on its last, and each month is one `setMonth(getMonth() + 1)` step after the one before |
| MonthCodec.CollectLabels | script.js:3391-3396 | the display loop pushes `Tháng M/YYYY` for every month of the range, in order |
| MonthCodec.CollectKeys | script.js:3471-3478 | the paid-month loop produces the `YYYY-MM` key of every month of the range, in order |
| MonthCodec.PushNewKeys | script.js:3471-3478 | pushing a range's keys adds each key missing from the list, in order |
| MonthCodec.Parts | script.js:3378 | there is one part per `+`-separated piece; no part holds a `+`, and trimming a part again changes nothing |
| MonthCodec.ExpandPart | script.js:3380-3450 | with `asWritten` it takes the source's branches: a `Tháng`-and-`-` part goes to the second syntax only and is kept as it is when that pattern fails; without it, the third syntax is reachable |
| MonthCodec.ExpandMonthsForDisplay | script.js:3372-3453 | with `asWritten` the loop computes the source's expansion `ExpandedMonthsAsWritten`, joined by `, ` (`-` when empty); without it, the corrected `ExpandedMonths` |
| MonthCodec.GetPaidMonthsFromPaymentHistory | script.js:3455-3499 | the loop over the history computes the paid-month keys, first occurrences in order |
| MonthCodec.ParseMonthsCovered | script.js:3791-3825 | the narrower parser reads the first `tới` range, or else only the first `Tháng M/YYYY` token |
| MonthCodec.Insert | script.js:3552 | inserting into an ascending list keeps it ascending and adds the element |
| MonthCodec.SortAscending | script.js:3552 | the month order used by the selection is ascending and a permutation of the input |
| SelectionLaws.ItemTextsOfKeys | script.js:3581-3591 | the keys of selected months are written one `Tháng MM/YYYY` token per key, in order |
| CodecLaws.OnePart | script.js:3372-3453 | a text without `+` is one part, and its expansion is that part's items joined by `, ` |
| CodecLaws.ExpandRangeText | script.js:3382-3400 | the range text the engine writes expands to every month of the range, in both the written and the corrected expansion |
| CodecLaws.ExpandMonthRun | script.js:3402-3420 | `Tháng a-b/Y` expands to months a to b of Y, and the written expansion agrees |
| CodecLaws.CrossItemsAsWritten | script.js:3402-3422 | as written, `Tháng a/Y - b/Z` is caught by the second syntax's test and kept verbatim |
| CodecLaws.ExpandCrossRange | script.js:3402-3441 | as written `Tháng a/Y - b/Z` displays unchanged; corrected, it expands to every month from a/Y to b/Z |
| CodecLaws.CoveredKeysOfRangeText | script.js:3462-3478 | the paid-month parser and the narrow parser both read a written range back as the keys of every month in it |
| PaidKeyLaws.PaidMonthKeysDistinct | script.js:3470-3490 | the paid-month keys never contain a key twice |
| PaidKeyLaws.PaidMonthKeysMembers | script.js:3462-3494 | a key is returned exactly when some text of the history covers it |
| PaidKeyLaws.PaidMonthKeysShape | script.js:3473-3488 | every key is `YYYY-MM` with a zero-padded month |
| PaidKeyLaws.CoveredKeysShape | script.js:3462-3494 | a single text yields month keys, with four-digit years outside `tới` ranges |
| SelectionLaws.EmptySelection | script.js:3535 | an empty selection is written `CHƯA CHỌN THÁNG` |
| SelectionLaws.PeriodOfOneMonth | script.js:3581-3591 | one selected month is written as its own `Tháng MM/YYYY` token |
| SelectionLaws.PeriodOfKeys | script.js:3534-3593 | a selection of keys is written as a `tới` range from the first to the last sorted month when it has two or more consecutive months, otherwise as its tokens joined by `+` |
| SelectionLaws.PeriodOfValidDates | script.js:3534-3593 | the same for any selection whose keys all read as dates |
| SelectionLaws.ConsecutiveSelectionIsRange | script.js:3556-3579 | two or more consecutive months, in any order, are written `M1/Y1 tới M2/Y2` from the earliest to the latest |
| SelectionLaws.PeriodRoundTrip | script.js:3534-3593 | reading a written selection back with the paid-month parser (lines 3462-3494) gives exactly the selected keys |
| SelectionLaws.SortedIsSelected | script.js:3538-3552 | every sorted month of a selection is one of the selected months, with a four-digit year |
| InvoiceLaws.InvoiceOfExpansionAsWritten | script.js:5012-5031 | as written, whatever months the source's own expansion gives a text, its invoice label is only the first of them |
| InvoiceLaws.InvoiceOfExpansionCorrected | script.js:5012-5031 | splitting on `,` instead, the label is the single month, or the first and the last month joined by ` tới ` |
| InvoiceLaws.InvoiceOfRangeAsWritten | script.js:5012-5031 | as written, a `tới` range is labelled with its first month only |
| InvoiceLaws.InvoiceOfRangeCorrected | script.js:5012-5031 | corrected, a `tới` range is labelled from its first to its last month |
| AmountText.JsRem | script.js:4742-4745 | JavaScript `%`: equal to the Euclidean remainder on non-negative amounts, and less than the divisor in size |
| AmountText.Capitalize | script.js:4768-4770 | upper-cases the first character and keeps the rest and the length |
| AmountText.AppendGroup | script.js:4747-4766 | each step of the concatenation loop keeps the result equal to the non-empty group phrases joined by spaces |
| AmountText.NumberToWords | script.js:4696-4771 | the loop computes the amount in words (`Không đồng chẵn` for zero) |
| AmountText.GroupsRecompose | script.js:4742-4745 | billions·10⁹ + millions·10⁶ + thousands·10³ + units is the amount, and each lower group is below 1000 |
| AmountText.MotAndLam | script.js:4726-4732 | after a tens word of 20 or more, a units digit of 1 reads `mốt` and of 5 reads `lăm` |
| AmountText.PositiveAmountShape | script.js:4747-4770 | every positive amount reads as words that start with a capital letter and end in ` đồng chẵn` |
| AmountText.NegativeAmount | script.js:4740-4766 | a negative amount has no group phrases and reads ` đồng chẵn` |
| AmountText.PastTableEnd | script.js:4706-4710 | an amount of 10¹² or more indexes past the digits table and starts `Undefined trăm` |
| AmountText.NineHundredThousand | script.js:4696-4771 | 900,000 reads `Chín trăm nghìn đồng chẵn` |
| AmountText.UngroupDigits | script.js:1613-1622 | removing the commas from a grouped digit text gives back the digits |
| AmountText.PriceRoundTrip | script.js:1613-1622 | a price written with commas parses back to the same integer, negative prices included |
| Store.RefundColumn | script.js:374 | `refund_fulfilled \|\| null`: only `true` is stored, `false` becomes NULL |
| Store.PaymentRow | script.js:358-382 | a stored payment keeps its id, rental, date, amount, months and notes, gets a default method when none is given, and stores the refund flag through the column rule |
| Store.StoredRental | script.js:283-317 | a stored rental keeps every modelled field, with the parking-area and payment-method defaults applied |
| Store.StoredRentalIdempotent | script.js:283-317 | storing a stored rental again changes nothing |
| Store.History | script.js:384-403 | a rental's history holds exactly the payments made for that rental |
| Store.WithoutId | script.js:426-434 | deleting by id keeps exactly the payments with another id |
| Store.UpdatedPayments | script.js:436-459 | updating by id rewrites only the payment with that id, keeping its rental |
| Store.FulfilledPayments | script.js:461-474 | marking a refund fulfilled sets the flag only on the payment with that id |
| Store.UpdatedRentals | script.js:283-317 | updating a rental by id rewrites only the rows with that id, with the store's defaults applied |
| Store.FindId | script.js:405-424 | the lookup finds a payment with the id, or reports that none has it |
| Store.UniqueIds | script.js:358-382 | ids handed out in ascending order identify payments uniquely |
| Store.WithoutIdAscending | script.js:426-434 | deletion keeps the ids ascending and below the last id handed out |
| Store.Database.constructor | script.js:358-474 | the store starts empty with no id handed out |
| Store.Database.PaymentHistory | script.js:384-403 | the history of a rental holds exactly the stored payments for that rental |
| Store.Database.PaymentById | script.js:405-424 | a lookup returns a stored payment with that id whose rental exists; it returns none only when no such payment's rental exists |
| Store.Database.AddPaymentRecord | script.js:358-382 | a new payment gets the next id, larger than every earlier id, and is appended; rentals are untouched |
| Store.Database.UpdatePaymentRecord | script.js:436-459 | replaces the payment with that id and nothing else |
| Store.Database.DeletePaymentRecord | script.js:426-434 | removes the payment with that id and nothing else |
| Store.Database.MarkRefundAsFulfilled | script.js:461-474 | sets the refund flag of that payment and nothing else |
| Store.Database.UpdateRental | script.js:283-317 | rewrites the rental rows with that id, through the store's defaults |
| Billing.MonthsInRange | script.js:3748-3758 | at most 3; exactly 3 for a `tới` text; positive exactly when the text mentions 7/2025, 8/2025 or 9/2025, or is a `tới` text |
| Billing.PaymentSurcharge | script.js:3738-3763 | a payment adds a surcharge exactly when the price is above 1,200,000 and it mentions July to September 2025, and then adds the price difference times its month count |
| Billing.SurchargeBounds | script.js:3731-3788 | the amount owed is never negative, and is 0 whenever the price is at most 1,200,000 |
| Billing.SurchargeAppend | script.js:3738-3763 | the surcharge of two histories together is the sum of their surcharges |
| Billing.SurchargeSwap | script.js:3738-3763 | the surcharge does not depend on the order of the history |
| Billing.SurchargeOutsideScenario | script.js:3738-3763 | a history that never mentions July to September 2025 owes nothing |
| Billing.RangeCountsThreeMonths | script.js:3753-3768 | a `tới` payment in the scenario counts three months, so price 1,500,000 owes 900,000 |
| Billing.AfterPaymentExtends | script.js:3682-3716 | after a payment the rental counts the selected months more, its details gain the new period's `+` pieces after the old ones, and it is paid exactly when it owes nothing |
| Billing.EditedSelection | script.js:3863-3865 | the months after an edit are without duplicates and are exactly the collected months |
| Billing.EditedMonthsHaveSelection | script.js:3852-3864 | every newly selected month is among the months after an edit |
| Billing.PlusItems | script.js:3967-3973 | the pieces one payment contributes after a deletion contain no `+` |
| Billing.RemainingMonths | script.js:3964-3974 | the months kept after a deletion contain no `+` |
| Billing.AfterDeletionCounts | script.js:3952-3996 | after a deletion the details split back into exactly the remaining months, the month count is zero exactly when nothing remains, and the rental is paid exactly when it owes nothing |
| Billing.RecalculatedAll | script.js:1081-1109 | the recalculation treats every rental on its own, in place |
| Billing.RecalculatedOwes | script.js:1081-1109 | each rental's amount owed becomes the surcharge of its history; `paid` is rewritten only when the amount changed |
| Billing.StalePaidFlag | script.js:1087-1094 | a rental already at zero and unpaid stays unpaid: the flag is not rewritten when the amount is unchanged |
| Billing.FindIndex | script.js:3712 | `findIndex`: the first index with the id, or -1 when there is none |
| Billing.FindRental | script.js:3954 | `find`: a rental with the id, or none when no rental has it |
| Billing.Replaced | script.js:3712-3715 | when no rental has the id the list is unchanged; otherwise the first rental with the id becomes the new record and every other rental stays where it was |
| Billing.SaveKeepsSync | script.js:3709-3715 | writing a rental to the store and replacing it in the manager's list keeps the two in step |
| Billing.RefundStoredAsNull | script.js:1393 | the refund record's `false` fulfilment flag is stored as NULL, as if none were given |
| Billing.WrittenRecordsSettle | script.js:3698-3706 | each record builder that writes `paid` (Settle, AfterPayment, AfterEdit and AfterDeletion, used at lines 1093, 1126, 1334, 3706, 3876 and 3985) sets it exactly when the amount owed is zero. Outside these builders the flag can disagree: the recalculation keeps the old flag when the amount is unchanged (StalePaidFlag), and the two price-adjustment handlers leave `paid` as it was |
| Billing.AdjustmentRecordCounts | script.js:1357 | a price-change record written in July to September 2025 itself adds one month of price difference to the surcharge |
| Billing.ScenarioMonthText | script.js:1357 | the month text of such a record mentions exactly one scenario month |
| Billing.RentalManager.constructor | script.js:1075-1079 | the manager starts with the store's rentals |
| Billing.RentalManager.RefreshData | script.js:1075-1079 | refreshing makes the manager's list the store's rows |
| Billing.RentalManager.CalculateCorrectAmountOwed | script.js:3718-3789 | the loop over the history computes its surcharge, whatever amount and months are passed in |
| Billing.RentalManager.SaveRental | script.js:3709-3715 | the store rewrites the rental and the manager replaces it by id; payments are untouched |
| Billing.RentalManager.UpdateRentalAfterPayment | script.js:3682-3716 | writes the rental with the owed surcharge, the new month count and details, and the matching paid flag, to the store and the list |
| Billing.RentalManager.CollectEditedMonths | script.js:3849-3861 | collects the months of the other payments and the new selection |
| Billing.RentalManager.UpdateRentalAfterPaymentEdit | script.js:3827-3886 | without the payment nothing changes; otherwise writes the rental with the edited month count, the deduplicated details and the owed surcharge |
| Billing.RentalManager.EditedRecord | script.js:3837-3876 | the edited rental: count adjusted by the selection minus the `,` pieces of the stored months |
| Billing.RentalManager.CollectRemainingMonths | script.js:3964-3974 | collects the `+` pieces of every remaining payment |
| Billing.RentalManager.UpdateRentalAfterPaymentDeletion | script.js:3952-3996 | without the rental nothing changes; otherwise writes its count and details from the remaining payments and the owed surcharge |
| Billing.RentalManager.RecalculateAt | script.js:1084-1104 | one step of the recalculation loop rewrites only that rental |
| Billing.RentalManager.RecalculateAllAmountsOwed | script.js:1081-1109 | every rental is recalculated from the payments, saved, and the list refreshed from the store |
| Billing.RentalManager.RecalculateSpecificRental | script.js:1111-1140 | without the rental nothing changes; otherwise it is saved with the owed surcharge and the paid flag, and the list refreshed |
| Billing.RentalManager.HandlePriceChange | script.js:1322-1350 | the new rental is saved with the surcharge at its new price and the matching paid flag |
| Billing.RentalManager.HandlePriceIncrease | script.js:1352-1383 | records a zero-amount `Điều chỉnh giá` payment for the current month and adds the difference to the amount owed |
| Billing.RentalManager.HandlePriceDecrease | script.js:1385-1416 | records a negative `Hoàn tiền` payment with an unfulfilled refund and lowers the amount owed by the refund, not below zero |

## Left out

- The DOM and the UI are left out. This covers forms, modals, the date-picker
  calendar, column visibility, toasts, print windows, invoice HTML, CSV
  export and the financial report. Their calculations use floating point and
  wall-clock time.
- The form handlers (`handleSubmit`, `handleAddPayment`, `editPayment`,
  `deletePayment`) are left out. They read form fields, then call the
  modelled store operations and update paths.
- The sql.js database, `localStorage`, migrations and the `isInitialized`
  guards are left out. The store is in-memory sequences with a counter for
  ids, and the manager is modelled after initialisation.
- Adding and deleting rentals (`addRental`, `deleteRental`) are left out. The
  store's rentals are a parameter of the manager.
- Store.Database.PaymentHistory: the history is in store order. The
  `ORDER BY payment_date DESC` of the query is not modelled. Every use in
  the model is order-independent, except the order of the months after an
  edit or a deletion.
- Only the rental fields the engine reads are modelled. The text columns
  (owner, plate, parking area, payment method and the like) are a map, the
  `\|\| ''` defaults of empty texts are not modelled, and a price of `NaN` or
  `undefined` is not modelled.
- Time of day, time zones and `toISOString` are left out. Dates are calendar
  triples compared at day precision, and `today` and `now` are parameters.
- Reminders.ReminderSortValue: an open-ended rental is compared with the
  current day, not with the current instant, as the source does.
- `Array.prototype.sort` is left out. The comparator is modelled and its
  laws are proved, but the engine's sort call is not.
- `normalizeVietnameseText` is a parameter of the comparator. Its Unicode
  decomposition and lower-casing are library code.
- `toUpperCase` on non-ASCII first letters is left out. Capitalize maps only
  a–z, and every amount text starts with an ASCII letter or a space.
- `formatVND` is left out. It is `Intl.NumberFormat`, and the notes text
  built with it is a parameter of the price-adjustment records.
- `showMessage` and the console logging are left out. This includes
  `totalPaid` and `monthsFromStart` in the amount-owed calculation, which
  are only logged.
- Number-to-text conversion in exponent form is left out. It needs integers
  of 10²¹ or more, and `String(n)` is modelled as plain decimal digits.
- A `null` `months_covered` is left out. The source would crash on it, and
  texts are modelled as strings.
- `calculateDatePeriods` is left out. Its `+` split of the expansion has the
  same cause as the invoice-label finding below, and that finding is shown
  through the label instead.
- The invoice and payment-history printing (`printPaymentInvoice`,
  `generatePaymentInvoice`, `formatPeriodRangeForInvoice`) is left out. It
  is HTML around the modelled labels and periods.

## Findings

| source | as written | input that shows it | evidently intended | confidence | as-written member | corrected member |
|---|---|---|---|---|---|---|
| script.js:3402-3441 | The second syntax's test (`Tháng` and `-` both present) also accepts every text of the third syntax. Its pattern then fails, and the part is kept verbatim, so the third branch can never run. | `Tháng 3/2024 - 2/2025`, the form the sample data uses, displays unchanged. | The third branch applies and expands the text to March 2024 … February 2025. | not executed | CodecLaws.CrossItemsAsWritten | CodecLaws.ExpandCrossRange |
| script.js:5012-5031 | The invoice label splits the display expansion on `+`. The expansion is joined with `, ` (script.js:3452), so a multi-month text is a single piece. | `7/2025 tới 9/2025` is labelled `Tháng 7/2025`. | Split on `,`; the label reads `Tháng 7/2025 tới Tháng 9/2025`. | not executed | InvoiceLaws.InvoiceOfRangeAsWritten | InvoiceLaws.InvoiceOfRangeCorrected |

Both forms of the display expansion are in the model. `MonthCodec.ExpandedMonthsAsWritten` is the source's function. `ExpandMonthsForDisplay(text, true)` computes it, and the as-written invoice label `FormatMonthsRangeForInvoice` reads it. `MonthCodec.ExpandedMonths` is the corrected form, and the corrected invoice label reads that one.
