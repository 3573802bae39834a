/** Calendar arithmetic of the billing engine: JavaScript `Date` construction
    and `setMonth` / `setDate` overflow on (year, month, day) triples, the
    month count between two dates, the per-month billing interval, date text
    for storage and display, the validity rule of the date field and its
    input mask. Time of day and time zones are not modelled: every date is a
    calendar day. */
module Calendar {
  import opened JsText

  /** A calendar day; `month` is 1..12 once normalised. */
  datatype Date = Date(year: int, month: int, day: int)

  /** A calendar month, the unit of coverage. */
  datatype YearMonth = YearMonth(year: int, month: int)

  predicate IsLeapYear(y: int) { (y % 4 == 0 && y % 100 != 0) || y % 400 == 0 }

  function DaysInMonth(y: int, m: int): (n: int)
    requires 1 <= m <= 12
    ensures 28 <= n <= 31
  {
    if m == 2 then (if IsLeapYear(y) then 29 else 28)
    else if m == 4 || m == 6 || m == 9 || m == 11 then 30
    else 31
  }

  predicate ValidDate(d: Date) {
    1 <= d.month <= 12 && 1 <= d.day <= DaysInMonth(d.year, d.month)
  }

  predicate ValidMonth(ym: YearMonth) { 1 <= ym.month <= 12 }

  /** Months counted from January of year 0, the order of calendar months. */
  function Index(ym: YearMonth): int { ym.year * 12 + ym.month - 1 }

  function FromIndex(i: int): (ym: YearMonth)
    ensures ValidMonth(ym) && Index(ym) == i
  {
    YearMonth(i / 12, i % 12 + 1)
  }

  lemma IndexRoundTrip(ym: YearMonth)
    requires ValidMonth(ym)
    ensures FromIndex(Index(ym)) == ym
  {
  }

  /** The month after `ym`; what `setMonth(getMonth() + 1)` does to the first of a month. */
  function NextMonth(ym: YearMonth): (r: YearMonth)
    requires ValidMonth(ym)
    ensures ValidMonth(r) && Index(r) == Index(ym) + 1
  {
    if ym.month == 12 then YearMonth(ym.year + 1, 1) else YearMonth(ym.year, ym.month + 1)
  }

  function MonthOfDate(d: Date): YearMonth { YearMonth(d.year, d.month) }

  /** The year the `Date` constructor uses: two-digit years mean 19xx. */
  function FullYear(y: int): int { if 0 <= y <= 99 then 1900 + y else y }

  /** The day `dayNum` counted from the first of month `idx` (which may
      overflow into later months). */
  function NormalizeUp(idx: int, dayNum: int): (r: Date)
    requires dayNum >= 1
    ensures ValidDate(r)
    decreases dayNum
  {
    var ym := FromIndex(idx);
    var n := DaysInMonth(ym.year, ym.month);
    if dayNum <= n then Date(ym.year, ym.month, dayNum) else NormalizeUp(idx + 1, dayNum - n)
  }

  /** Day 0 and below count back from the end of the previous month. */
  function NormalizeDown(idx: int, dayNum: int): (r: Date)
    requires dayNum < 1
    ensures ValidDate(r)
    decreases -dayNum
  {
    var ym := FromIndex(idx - 1);
    var d := dayNum + DaysInMonth(ym.year, ym.month);
    if d >= 1 then Date(ym.year, ym.month, d) else NormalizeDown(idx - 1, d)
  }

  /** The calendar day JavaScript's `Date` settles on for month index `idx`
      and day number `dayNum`: out-of-range days roll into neighbouring
      months, with no clamping. */
  function Normalize(idx: int, dayNum: int): (r: Date)
    ensures ValidDate(r)
  {
    if dayNum >= 1 then NormalizeUp(idx, dayNum) else NormalizeDown(idx, dayNum)
  }

  /** `new Date(y, m0, d)` with a zero-based month. */
  function MakeDate(y: int, m0: int, d: int): (r: Date)
    ensures ValidDate(r)
  {
    Normalize(FullYear(y) * 12 + m0, d)
  }

  /** `date.setMonth(m0)`: the year is kept, the day of month is kept and may overflow. */
  function SetMonth(date: Date, m0: int): (r: Date)
    ensures ValidDate(r)
  {
    Normalize(date.year * 12 + m0, date.day)
  }

  /** `date.setDate(d)`. */
  function SetDate(date: Date, d: int): (r: Date)
    ensures ValidDate(r)
  {
    Normalize(date.year * 12 + date.month - 1, d)
  }

  /** `date.setMonth(date.getMonth() + k)`. */
  function AddMonths(date: Date, k: int): (r: Date)
    ensures ValidDate(r)
  {
    SetMonth(date, date.month - 1 + k)
  }

  /** The day after `date`. */
  function NextDay(date: Date): (r: Date)
    ensures ValidDate(r)
  {
    SetDate(date, date.day + 1)
  }

  /** Strictly earlier, compared at day precision. */
  predicate Before(a: Date, b: Date) {
    a.year < b.year || (a.year == b.year && (a.month < b.month || (a.month == b.month && a.day < b.day)))
  }

  lemma NormalizeValid(d: Date)
    requires ValidDate(d)
    ensures Normalize(Index(MonthOfDate(d)), d.day) == d
  {
    IndexRoundTrip(MonthOfDate(d));
  }

  /** Day 1 of month index `idx` is the first of that month. */
  lemma FirstOfMonthAt(idx: int)
    ensures Normalize(idx, 1) == Date(FromIndex(idx).year, FromIndex(idx).month, 1)
  {
    var ym := FromIndex(idx);
    assert DaysInMonth(ym.year, ym.month) >= 1;
  }

  /** A valid day survives `new Date(y, m - 1, d)` unchanged (for years the constructor does not remap). */
  lemma MakeDateValid(d: Date)
    requires ValidDate(d) && !(0 <= d.year <= 99)
    ensures MakeDate(d.year, d.month - 1, d.day) == d
  {
    NormalizeValid(d);
  }

  /** Adding months keeps the day of month when it exists in every month. */
  lemma AddMonthsKeepsDay(date: Date, k: int)
    requires ValidDate(date) && date.day <= 28
    ensures AddMonths(date, k) == Date(FromIndex(Index(MonthOfDate(date)) + k).year,
                                       FromIndex(Index(MonthOfDate(date)) + k).month, date.day)
  {
  }

  /** Overflow rather than clamping: 31 January 2024 plus one month is 2 March 2024 ... */
  lemma AddMonthsOverflowsLeap()
    ensures AddMonths(Date(2024, 1, 31), 1) == Date(2024, 3, 2)
  {
    assert AddMonths(Date(2024, 1, 31), 1) == NormalizeUp(24289, 31);
    assert FromIndex(24289) == YearMonth(2024, 2);
    assert DaysInMonth(2024, 2) == 29 by { assert IsLeapYear(2024); }
    assert NormalizeUp(24289, 31) == NormalizeUp(24290, 2);
    assert FromIndex(24290) == YearMonth(2024, 3);
  }

  /** ... and in a common year it is 3 March. */
  lemma AddMonthsOverflowsCommon()
    ensures AddMonths(Date(2023, 1, 31), 1) == Date(2023, 3, 3)
  {
    assert AddMonths(Date(2023, 1, 31), 1) == NormalizeUp(24277, 31);
    assert FromIndex(24277) == YearMonth(2023, 2);
    assert DaysInMonth(2023, 2) == 28 by { assert !IsLeapYear(2023); }
    assert NormalizeUp(24277, 31) == NormalizeUp(24278, 3);
    assert FromIndex(24278) == YearMonth(2023, 3);
  }

  /** The day `NormalizeUp` settles on is never in a month before `idx`. */
  lemma {:induction false} NormalizeUpMonth(idx: int, dayNum: int)
    requires dayNum >= 1
    ensures Index(MonthOfDate(NormalizeUp(idx, dayNum))) >= idx
    decreases dayNum
  {
    var ym := FromIndex(idx);
    if dayNum > DaysInMonth(ym.year, ym.month) {
      NormalizeUpMonth(idx + 1, dayNum - DaysInMonth(ym.year, ym.month));
    }
  }

  /** A day in an earlier month is an earlier day. */
  lemma EarlierMonth(a: Date, b: Date)
    requires 1 <= a.month <= 12 && 1 <= b.month <= 12
    requires Index(MonthOfDate(a)) < Index(MonthOfDate(b))
    ensures Before(a, b)
  {
  }

  /** Adding one or more months to a day gives a later day. */
  lemma AddMonthsLater(date: Date, k: int)
    requires ValidDate(date) && k >= 1
    ensures Before(date, AddMonths(date, k))
  {
    NormalizeUpMonth(date.year * 12 + date.month - 1 + k, date.day);
    EarlierMonth(date, AddMonths(date, k));
  }

  /** `calculateMonthsBetween`: calendar months from the month of `s` to the
      month of `e`, both counted, and at least one. */
  function MonthsBetween(s: Date, e: Date): (n: int)
    ensures n >= 1
    ensures n >= 12 * (e.year - s.year) + (e.month - s.month) + 1
    ensures n == 1 || n == 12 * (e.year - s.year) + (e.month - s.month) + 1
  {
    var raw := (e.year - s.year) * 12 + (e.month - s.month) + 1;
    if raw > 1 then raw else 1
  }

  /** The day of month plays no part in the count. */
  lemma MonthsBetweenIgnoresDay(s: Date, e: Date, ds: int, de: int)
    ensures MonthsBetween(s, e) == MonthsBetween(Date(s.year, s.month, ds), Date(e.year, e.month, de))
  {
  }

  /** Counting from a date to the same date `k` months later gives `k + 1` months. */
  lemma MonthsBetweenAddMonths(s: Date, k: nat)
    requires ValidDate(s) && s.day <= 28
    ensures MonthsBetween(s, AddMonths(s, k)) == k + 1
  {
    AddMonthsKeepsDay(s, k);
    var e := AddMonths(s, k);
    assert Index(MonthOfDate(e)) == Index(MonthOfDate(s)) + k;
  }

  /** The dates one month's payment pays for: from the anchor day in that
      month to the day before the anchor day a month later (the loop bodies of
      `calculatePaymentPeriods` and `calculateInvoicePeriods`). */
  function BillingInterval(anchorDay: int, year: int, month: int): (p: (Date, Date))
    ensures ValidDate(p.0) && ValidDate(p.1)
  {
    var start := MakeDate(year, month - 1, anchorDay);
    var nextStart := SetMonth(start, start.month - 1 + 1);
    (start, SetDate(nextStart, nextStart.day - 1))
  }

  /** For an anchor day every month has, the interval starts on the anchor day ... */
  lemma BillingIntervalStart(anchorDay: int, ym: YearMonth)
    requires 1 <= anchorDay <= 28 && ValidMonth(ym) && ym.year >= 100
    ensures BillingInterval(anchorDay, ym.year, ym.month).0 == Date(ym.year, ym.month, anchorDay)
  {
    NormalizeValid(Date(ym.year, ym.month, anchorDay));
  }

  /** ... and ends the day before the anchor day of the next month. */
  lemma BillingIntervalEnd(anchorDay: int, ym: YearMonth)
    requires 1 <= anchorDay <= 28 && ValidMonth(ym) && ym.year >= 100
    ensures var nx := NextMonth(ym);
            BillingInterval(anchorDay, ym.year, ym.month).1
            == if anchorDay >= 2 then Date(nx.year, nx.month, anchorDay - 1)
               else Date(ym.year, ym.month, DaysInMonth(ym.year, ym.month))
  {
    BillingIntervalStart(anchorDay, ym);
    AnchorNextMonth(anchorDay, ym);
    DayBeforeAnchor(anchorDay, ym);
  }

  /** Moving the anchor day one month on lands on the anchor day of the next month. */
  lemma AnchorNextMonth(anchorDay: int, ym: YearMonth)
    requires 1 <= anchorDay <= 28 && ValidMonth(ym)
    ensures var nx := NextMonth(ym);
            SetMonth(Date(ym.year, ym.month, anchorDay), ym.month) == Date(nx.year, nx.month, anchorDay)
  {
    var nx := NextMonth(ym);
    NormalizeValid(Date(nx.year, nx.month, anchorDay));
  }

  /** The day before the next month's anchor day. */
  lemma DayBeforeAnchor(anchorDay: int, ym: YearMonth)
    requires 1 <= anchorDay <= 28 && ValidMonth(ym)
    ensures var nx := NextMonth(ym);
            SetDate(Date(nx.year, nx.month, anchorDay), anchorDay - 1)
            == if anchorDay >= 2 then Date(nx.year, nx.month, anchorDay - 1)
               else Date(ym.year, ym.month, DaysInMonth(ym.year, ym.month))
  {
    var nx := NextMonth(ym);
    if anchorDay >= 2 {
      NormalizeValid(Date(nx.year, nx.month, anchorDay - 1));
    } else {
      assert FromIndex(Index(nx) - 1) == ym;
    }
  }

  /** Consecutive intervals tile the calendar: each ends the day before the
      next month's interval starts. */
  lemma BillingIntervalsTile(anchorDay: int, ym: YearMonth)
    requires 1 <= anchorDay <= 28 && ValidMonth(ym) && ym.year >= 100
    ensures NextDay(BillingInterval(anchorDay, ym.year, ym.month).1)
            == BillingInterval(anchorDay, NextMonth(ym).year, NextMonth(ym).month).0
  {
    var nx := NextMonth(ym);
    BillingIntervalEnd(anchorDay, ym);
    BillingIntervalStart(anchorDay, nx);
    if anchorDay >= 2 {
      NextDayWithinMonth(Date(nx.year, nx.month, anchorDay - 1));
    } else {
      NextDayOfMonthEnd(ym);
    }
  }

  lemma NextDayWithinMonth(d: Date)
    requires ValidDate(d) && d.day < DaysInMonth(d.year, d.month)
    ensures NextDay(d) == Date(d.year, d.month, d.day + 1)
  {
    NormalizeValid(Date(d.year, d.month, d.day + 1));
  }

  lemma NextDayOfMonthEnd(ym: YearMonth)
    requires ValidMonth(ym)
    ensures NextDay(Date(ym.year, ym.month, DaysInMonth(ym.year, ym.month)))
            == Date(NextMonth(ym).year, NextMonth(ym).month, 1)
  {
    var last := DaysInMonth(ym.year, ym.month);
    IndexRoundTrip(ym);
    assert NextDay(Date(ym.year, ym.month, last)) == NormalizeUp(Index(ym), last + 1);
    assert NormalizeUp(Index(ym), last + 1) == NormalizeUp(Index(ym) + 1, 1);
    IndexRoundTrip(NextMonth(ym));
  }

  /** No clamping: an anchor day of 31 pushes April's interval to start on 1 May. */
  lemma BillingIntervalOverflows()
    ensures BillingInterval(31, 2025, 4).0 == Date(2025, 5, 1)
  {
    assert MakeDate(2025, 3, 31) == NormalizeUp(24303, 31);
    assert FromIndex(24303) == YearMonth(2025, 4);
    assert DaysInMonth(2025, 4) == 30;
    assert NormalizeUp(24303, 31) == NormalizeUp(24304, 1);
    assert FromIndex(24304) == YearMonth(2025, 5);
  }

  /** `formatDateForStorage`: `YYYY-MM-DD`, or empty for an invalid date (`None`). */
  function FormatDateForStorage(date: Option<Date>): string {
    match date
    case None => ""
    case Some(d) => IntToString(d.year) + "-" + Pad2(d.month) + "-" + Pad2(d.day)
  }

  /** `formatVietnameseDate`: `DD/MM/YYYY`. */
  function FormatVietnameseDate(d: Date): string {
    Pad2(d.day) + "/" + Pad2(d.month) + "/" + IntToString(d.year)
  }

  /** Reading a stored `YYYY-MM-DD` back the way the period calculators do:
      split on `-`, `parseInt` each part, `new Date(y, m - 1, d)`. */
  function ParseStorageDate(s: string): Option<Date> {
    var parts := Split(s, '-');
    if |parts| < 3 then None
    else
      var y, m, d := ParseInt(parts[0]), ParseInt(parts[1]), ParseInt(parts[2]);
      if y.Some? && m.Some? && d.Some? then Some(MakeDate(y.value, m.value - 1, d.value)) else None
  }

  lemma ParsePad2(n: int)
    requires 0 <= n < 100
    ensures ParseInt(Pad2(n)) == Some(n) && '-' !in Pad2(n) && '/' !in Pad2(n)
  {
    Pad2Shape(n);
    ParseIntOfDigits(Pad2(n));
    DigitsExclude(Pad2(n), '-');
    DigitsExclude(Pad2(n), '/');
  }

  lemma NatToStringNoSeparators(n: nat)
    ensures '-' !in NatToString(n) && '/' !in NatToString(n)
  {
    NatToStringDigits(n);
    DigitsExclude(NatToString(n), '-');
    DigitsExclude(NatToString(n), '/');
  }

  /** Stored dates read back as the same day. */
  lemma StorageDateRoundTrip(d: Date)
    requires ValidDate(d) && d.year >= 100
    ensures ParseStorageDate(FormatDateForStorage(Some(d))) == Some(d)
  {
    StorageDateReadsBack(d);
    MakeDateValid(d);
  }

  lemma StorageTextSplits(d: Date)
    requires ValidDate(d) && d.year >= 100
    ensures Split(FormatDateForStorage(Some(d)), '-') == [IntToString(d.year), Pad2(d.month), Pad2(d.day)]
  {
    var ys, ms, ds := IntToString(d.year), Pad2(d.month), Pad2(d.day);
    assert ys == NatToString(d.year);
    NatToStringNoSeparators(d.year);
    ParsePad2(d.month);
    ParsePad2(d.day);
    SplitThree(ys, ms, ds, '-');
    assert FormatDateForStorage(Some(d)) == ys + ['-'] + ms + ['-'] + ds;
  }

  lemma StorageDateReadsBack(d: Date)
    requires ValidDate(d) && d.year >= 100
    ensures ParseStorageDate(FormatDateForStorage(Some(d))) == Some(MakeDate(d.year, d.month - 1, d.day))
  {
    var ys, ms, ds := StorageTextParts(d);
    ParseStorageDateOfParts(FormatDateForStorage(Some(d)), ys, ms, ds, d.year, d.month, d.day);
  }

  /** The three parts of a stored date and the numbers they read as. */
  lemma StorageTextParts(d: Date) returns (ys: string, ms: string, ds: string)
    requires ValidDate(d) && d.year >= 100
    ensures Split(FormatDateForStorage(Some(d)), '-') == [ys, ms, ds]
    ensures ParseInt(ys) == Some(d.year) && ParseInt(ms) == Some(d.month) && ParseInt(ds) == Some(d.day)
  {
    StorageTextSplits(d);
    ParsePad2(d.month);
    ParsePad2(d.day);
    ParseIntOfIntToString(d.year);
    ys, ms, ds := IntToString(d.year), Pad2(d.month), Pad2(d.day);
  }

  lemma ParseStorageDateOfParts(s: string, ys: string, ms: string, ds: string, y: int, m: int, day: int)
    requires Split(s, '-') == [ys, ms, ds]
    requires ParseInt(ys) == Some(y) && ParseInt(ms) == Some(m) && ParseInt(ds) == Some(day)
    ensures ParseStorageDate(s) == Some(MakeDate(y, m - 1, day))
  {
    var p := Split(s, '-');
    assert p[0] == ys && p[1] == ms && p[2] == ds;
  }

  /** The validity rule of `validateAndFormatDate` on a typed `DD/MM/YYYY`
      value: three `/`-separated numbers, a year in 1900..2100, a month in
      1..12 and a day that `new Date` does not roll over. The formatted text
      on success, `None` where the field is marked invalid. */
  function ValidateAndFormatDate(value: string): Option<string> {
    var parts := Split(value, '/');
    if |parts| != 3 then None
    else match (ParseInt(parts[0]), ParseInt(parts[1]), ParseInt(parts[2]))
      case (Some(day), Some(month), Some(year)) =>
        if year < 1900 || year > 2100 then None
        else if month < 1 || month > 12 then None
        else
          var date := MakeDate(year, month - 1, day);
          if date.month != month || date.day != day then None
          else Some(Pad2(day) + "/" + Pad2(month) + "/" + IntToString(year))
      case _ => None
  }

  lemma ValidateOfParts(v: string, day: int, month: int, year: int)
    requires |Split(v, '/')| == 3
    requires ParseInt(Split(v, '/')[0]) == Some(day) && ParseInt(Split(v, '/')[1]) == Some(month)
    requires ParseInt(Split(v, '/')[2]) == Some(year)
    requires 1900 <= year <= 2100 && 1 <= month <= 12
    ensures ValidateAndFormatDate(v) ==
      (if MakeDate(year, month - 1, day).month != month || MakeDate(year, month - 1, day).day != day then None
       else Some(Pad2(day) + "/" + Pad2(month) + "/" + IntToString(year)))
  {
  }

  /** `new Date(y, m - 1, d)` keeps month `m` and day `d` exactly when `d` is a day of that month. */
  lemma MakeDateKeepsDayIff(y: int, m: int, d: int)
    requires 1900 <= y && 1 <= m <= 12
    ensures (MakeDate(y, m - 1, d).month == m && MakeDate(y, m - 1, d).day == d)
            <==> 1 <= d <= DaysInMonth(y, m)
  {
    var r := MakeDate(y, m - 1, d);
    var idx := y * 12 + m - 1;
    assert FromIndex(idx) == YearMonth(y, m);
    if 1 <= d <= DaysInMonth(y, m) {
      NormalizeValid(Date(y, m, d));
    } else if d > 31 {
      assert r.day <= 31;
    } else if d > DaysInMonth(y, m) {
      var nx := FromIndex(idx + 1);
      var rest := d - DaysInMonth(y, m);
      assert 1 <= rest <= 3;
      assert r == NormalizeUp(idx, d);
      assert NormalizeUp(idx, d) == NormalizeUp(idx + 1, rest);
      assert NormalizeUp(idx + 1, rest) == Date(nx.year, nx.month, rest);
      assert nx.month != m;
    }
  }

  /** A date is accepted exactly when it is a real day in 1900..2100, and is then written `DD/MM/YYYY`. */
  lemma ValidateAcceptsExactlyRealDays(day: int, month: int, year: int)
    requires 1 <= month <= 12 && 1900 <= year <= 2100 && 1 <= day <= 31
    ensures var v := FormatVietnameseDate(Date(year, month, day));
      ValidateAndFormatDate(v) == (if day <= DaysInMonth(year, month) then Some(v) else None)
  {
    var ds, ms, ys := Pad2(day), Pad2(month), IntToString(year);
    assert ys == NatToString(year);
    ParsePad2(day);
    ParsePad2(month);
    ParseIntOfIntToString(year);
    NatToStringNoSeparators(year);
    SplitThree(ds, ms, ys, '/');
    var v := FormatVietnameseDate(Date(year, month, day));
    var parts := Split(v, '/');
    assert parts == [ds, ms, ys];
    MakeDateKeepsDayIff(year, month, day);
    ValidateOfParts(v, day, month, year);
  }

  /** Only digits and `/` survive the mask. */
  function KeepDigitsAndSlash(s: string): (r: string)
    ensures forall k :: 0 <= k < |r| ==> IsDigit(r[k]) || r[k] == '/'
    ensures AllDigits(s) ==> r == s
  {
    if s == [] then []
    else (if IsDigit(s[0]) || s[0] == '/' then [s[0]] else []) + KeepDigitsAndSlash(s[1..])
  }

  /** The input handler of the date field (the text it writes back as the
      user types): drop everything but digits and `/`, insert `/` after the
      day and after the month, cut at ten characters. */
  function MaskDateInput(value: string): (r: string)
    ensures |r| <= 10
    ensures forall k :: 0 <= k < |r| ==> IsDigit(r[k]) || r[k] == '/'
  {
    var v1 := KeepDigitsAndSlash(value);
    var v2 := if |v1| >= 2 && '/' !in v1 then v1[..2] + "/" + v1[2..] else v1;
    SlashInserted(v1, 2);
    var v3 := if |v2| >= 5 && |Split(v2, '/')| == 2 then v2[..5] + "/" + v2[5..] else v2;
    SlashInserted(v2, 5);
    if |v3| > 10 then v3[..10] else v3
  }

  /** Putting a `/` into a text of digits and `/` keeps it one. */
  lemma SlashInserted(v: string, i: int)
    requires forall k :: 0 <= k < |v| ==> IsDigit(v[k]) || v[k] == '/'
    ensures 0 <= i <= |v| ==> var w := v[..i] + "/" + v[i..];
            forall k :: 0 <= k < |w| ==> IsDigit(w[k]) || w[k] == '/'
  {
    if 0 <= i <= |v| {
      var w := v[..i] + "/" + v[i..];
      forall k | 0 <= k < |w| ensures IsDigit(w[k]) || w[k] == '/' {
        if k < i { assert w[k] == v[k]; }
        else if k > i { assert w[k] == v[k - 1]; }
      }
    }
  }

  /** Typed digits `DDMMYYYY...` come out as `DD/MM/YYYY`, cut at ten characters. */
  lemma MaskGroupsDigits(s: string)
    requires AllDigits(s) && |s| >= 3
    ensures var full := s[..2] + "/" + s[2..] ;
      |full| >= 5 ==> MaskDateInput(s) == (full[..5] + "/" + full[5..])[..if |full| + 1 > 10 then 10 else |full| + 1]
    ensures |s| == 3 ==> MaskDateInput(s) == s[..2] + "/" + s[2..]
  {
    var v2 := s[..2] + "/" + s[2..];
    DigitsExclude(s, '/');
    DigitsExclude(s[2..], '/');
    DigitsExclude(s[..2], '/');
    if |v2| >= 5 {
      assert FirstIndex(v2, '/') == 2 by {
        assert v2[2] == '/';
        assert v2[..2] == s[..2];
      }
      assert v2[3..] == s[2..];
      assert |Split(v2, '/')| == 2;
    }
  }

  /** Eight typed digits become a complete day that the field then validates. */
  lemma MaskEightDigits(s: string)
    requires AllDigits(s) && |s| == 8
    ensures MaskDateInput(s) == s[..2] + "/" + s[2..4] + "/" + s[4..]
  {
    MaskGroupsDigits(s);
    var full := s[..2] + "/" + s[2..];
    assert full[..5] == s[..2] + "/" + s[2..4];
    assert full[5..] == s[4..];
  }
}
