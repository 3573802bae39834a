/** The `months_covered` text of a payment and the month keys of the
    month-selection grid: how the application expands the text for display,
    reads it back into `"YYYY-MM"` keys, and writes a selection of keys out. */
module MonthCodec {
  import opened JsText
  import opened Calendar
  import opened Patterns

  const NoMonthsSelected: string := "CHƯA CHỌN THÁNG"

  // ---------------------------------------------------------------------------
  // Months and their two renderings

  /** The month index of `new Date(parseInt(year), parseInt(month) - 1, 1)`
      for captured digit strings. */
  function MonthIndexOf(month: string, year: string): int
    requires AllDigits(month) && AllDigits(year)
  {
    FullYear(DigitsValue(year)) * 12 + DigitsValue(month) - 1
  }

  /** The first of that month is the date the source builds. */
  lemma MonthIndexOfIsFirstOfMonth(month: string, year: string)
    requires AllDigits(month) && AllDigits(year)
    ensures var ym := FromIndex(MonthIndexOf(month, year));
            MakeDate(DigitsValue(year), DigitsValue(month) - 1, 1) == Date(ym.year, ym.month, 1)
  {
    FirstOfMonthAt(MonthIndexOf(month, year));
  }

  /** Every month from index `a` to index `b`, inclusive and in order: the
      months a `while (currentDate <= endDate)` loop visits when it steps a
      first-of-month date with `setMonth(getMonth() + 1)`. */
  function RangeMonths(a: int, b: int): (r: seq<YearMonth>)
    ensures |r| == if a <= b then b - a + 1 else 0
    ensures forall k :: 0 <= k < |r| ==> r[k] == FromIndex(a + k)
  {
    seq(if a <= b then b - a + 1 else 0, k => FromIndex(a + k))
  }

  /** The loop's view of a range: it starts on month `a`, ends on month `b`,
      and each month is one `setMonth(getMonth() + 1)` step after the one
      before. */
  lemma RangeMonthsSteps(a: int, b: int)
    requires a <= b
    ensures var r := RangeMonths(a, b);
            r[0] == FromIndex(a) && r[|r| - 1] == FromIndex(b)
            && forall k {:trigger NextMonth(r[k])} :: 0 <= k < |r| - 1 ==> NextMonth(r[k]) == r[k + 1]
  {
    var r := RangeMonths(a, b);
    forall k | 0 <= k < |r| - 1 ensures NextMonth(r[k]) == r[k + 1] {
      FromIndexNext(a + k);
    }
  }

  lemma FromIndexNext(i: int)
    ensures NextMonth(FromIndex(i)) == FromIndex(i + 1)
  {
    IndexRoundTrip(NextMonth(FromIndex(i)));
  }

  /** `Tháng ${month}/${year}`, the display token. */
  function MonthLabel(ym: YearMonth): string {
    "Tháng " + IntToString(ym.month) + "/" + IntToString(ym.year)
  }

  /** `${year}-${String(month).padStart(2, '0')}`, the month key. */
  function MonthKey(ym: YearMonth): string {
    IntToString(ym.year) + "-" + Pad2(ym.month)
  }

  function MonthLabels(ms: seq<YearMonth>): (r: seq<string>)
    ensures |r| == |ms| && forall k :: 0 <= k < |ms| ==> r[k] == MonthLabel(ms[k])
  {
    seq(|ms|, k requires 0 <= k < |ms| => MonthLabel(ms[k]))
  }

  function MonthKeys(ms: seq<YearMonth>): (r: seq<string>)
    ensures |r| == |ms| && forall k :: 0 <= k < |ms| ==> r[k] == MonthKey(ms[k])
  {
    seq(|ms|, k requires 0 <= k < |ms| => MonthKey(ms[k]))
  }

  lemma RangeMonthsSnoc(a: int, c: int)
    requires a <= c
    ensures RangeMonths(a, c) == RangeMonths(a, c - 1) + [FromIndex(c)]
  {
    var r, q := RangeMonths(a, c), RangeMonths(a, c - 1);
    forall k | 0 <= k < |r| ensures r[k] == (q + [FromIndex(c)])[k] {
      if k < |q| { assert (q + [FromIndex(c)])[k] == q[k]; }
    }
  }

  /** The keys and labels of one more month. */
  lemma RenderSnoc(ms: seq<YearMonth>, m: YearMonth)
    ensures MonthLabels(ms + [m]) == MonthLabels(ms) + [MonthLabel(m)]
    ensures MonthKeys(ms + [m]) == MonthKeys(ms) + [MonthKey(m)]
  {
    LabelsAppend(ms, m);
    KeysAppend(ms, m);
  }

  lemma LabelsAppend(ms: seq<YearMonth>, m: YearMonth)
    ensures MonthLabels(ms + [m]) == MonthLabels(ms) + [MonthLabel(m)]
  {
    var r, q := MonthLabels(ms + [m]), MonthLabels(ms) + [MonthLabel(m)];
    forall k | 0 <= k < |r| ensures r[k] == q[k] {
      LabelAppendAt(ms, m, k);
    }
  }

  lemma LabelAppendAt(ms: seq<YearMonth>, m: YearMonth, k: int)
    requires 0 <= k <= |ms|
    ensures MonthLabels(ms + [m])[k] == (MonthLabels(ms) + [MonthLabel(m)])[k]
  {
    if k < |ms| { assert (ms + [m])[k] == ms[k]; }
  }

  lemma KeysAppend(ms: seq<YearMonth>, m: YearMonth)
    ensures MonthKeys(ms + [m]) == MonthKeys(ms) + [MonthKey(m)]
  {
    var r, q := MonthKeys(ms + [m]), MonthKeys(ms) + [MonthKey(m)];
    forall k | 0 <= k < |r| ensures r[k] == q[k] {
      KeyAppendAt(ms, m, k);
    }
  }

  lemma KeyAppendAt(ms: seq<YearMonth>, m: YearMonth, k: int)
    requires 0 <= k <= |ms|
    ensures MonthKeys(ms + [m])[k] == (MonthKeys(ms) + [MonthKey(m)])[k]
  {
    if k < |ms| { assert (ms + [m])[k] == ms[k]; }
  }

  // ---------------------------------------------------------------------------
  // The range loops

  /** The labels of every month from index `a` to index `b`. */
  method CollectLabels(a: int, b: int) returns (labels: seq<string>)
    ensures labels == MonthLabels(RangeMonths(a, b))
  {
    var cur := FromIndex(a);
    labels := [];
    while Index(cur) <= b
      invariant ValidMonth(cur) && a <= Index(cur) <= (if a <= b then b + 1 else a)
      invariant labels == MonthLabels(RangeMonths(a, Index(cur) - 1))
      decreases b - Index(cur)
    {
      labels, cur := AppendLabel(a, cur, labels);
    }
    assert RangeMonths(a, b) == RangeMonths(a, Index(cur) - 1);
  }

  /** One turn of the loop: push the label of month `cur`, then step to the next month. */
  method AppendLabel(a: int, cur: YearMonth, labels: seq<string>) returns (labels': seq<string>, next: YearMonth)
    requires ValidMonth(cur) && a <= Index(cur)
    requires labels == MonthLabels(RangeMonths(a, Index(cur) - 1))
    ensures ValidMonth(next) && Index(next) == Index(cur) + 1
    ensures labels' == MonthLabels(RangeMonths(a, Index(next) - 1))
  {
    RangeMonthsSnoc(a, Index(cur));
    IndexRoundTrip(cur);
    RenderSnoc(RangeMonths(a, Index(cur) - 1), cur);
    labels' := labels + [MonthLabel(cur)];
    next := NextMonth(cur);
  }

  /** The keys of every month from index `a` to index `b`, without de-duplication. */
  method CollectKeys(a: int, b: int) returns (keys: seq<string>)
    ensures keys == MonthKeys(RangeMonths(a, b))
  {
    var cur := FromIndex(a);
    keys := [];
    while Index(cur) <= b
      invariant ValidMonth(cur) && a <= Index(cur) <= (if a <= b then b + 1 else a)
      invariant keys == MonthKeys(RangeMonths(a, Index(cur) - 1))
      decreases b - Index(cur)
    {
      keys, cur := AppendKey(a, cur, keys);
    }
    assert RangeMonths(a, b) == RangeMonths(a, Index(cur) - 1);
  }

  /** One turn of the loop: push the key of month `cur`, then step to the next month. */
  method AppendKey(a: int, cur: YearMonth, keys: seq<string>) returns (keys': seq<string>, next: YearMonth)
    requires ValidMonth(cur) && a <= Index(cur)
    requires keys == MonthKeys(RangeMonths(a, Index(cur) - 1))
    ensures ValidMonth(next) && Index(next) == Index(cur) + 1
    ensures keys' == MonthKeys(RangeMonths(a, Index(next) - 1))
  {
    RangeMonthsSnoc(a, Index(cur));
    IndexRoundTrip(cur);
    RenderSnoc(RangeMonths(a, Index(cur) - 1), cur);
    keys' := keys + [MonthKey(cur)];
    next := NextMonth(cur);
  }

  /** `AppendNew` of one more item: push it unless `includes` finds it. */
  lemma {:induction false} AppendNewSnoc(acc: seq<string>, more: seq<string>, x: string)
    ensures AppendNew(acc, more + [x])
            == (var r := AppendNew(acc, more); if x in r then r else r + [x])
    decreases |more|
  {
    if more == [] {
      assert more + [x] == [x];
    } else {
      assert (more + [x])[1..] == more[1..] + [x];
      if more[0] in acc {
        AppendNewSnoc(acc, more[1..], x);
      } else {
        AppendNewSnoc(acc + [more[0]], more[1..], x);
      }
    }
  }

  lemma PushStep(paid: seq<string>, a: int, c: int)
    requires a <= c
    ensures AppendNew(paid, MonthKeys(RangeMonths(a, c)))
            == (var r := AppendNew(paid, MonthKeys(RangeMonths(a, c - 1)));
                var key := MonthKey(FromIndex(c));
                if key in r then r else r + [key])
  {
    RangeMonthsSnoc(a, c);
    RenderSnoc(RangeMonths(a, c - 1), FromIndex(c));
    AppendNewSnoc(paid, MonthKeys(RangeMonths(a, c - 1)), MonthKey(FromIndex(c)));
  }

  /** `if (!r.includes(key)) r.push(key)`. */
  method PushIfNew(r: seq<string>, key: string) returns (r': seq<string>)
    ensures r' == if key in r then r else r + [key]
  {
    r' := r;
    if key !in r {
      r' := r + [key];
    }
  }

  /** Pushes the key of every month from `a` to `b` that `paid` does not yet include. */
  method PushNewKeys(paid: seq<string>, a: int, b: int) returns (r: seq<string>)
    ensures r == AppendNew(paid, MonthKeys(RangeMonths(a, b)))
  {
    var cur := FromIndex(a);
    r := paid;
    while Index(cur) <= b
      invariant ValidMonth(cur) && a <= Index(cur) <= (if a <= b then b + 1 else a)
      invariant r == AppendNew(paid, MonthKeys(RangeMonths(a, Index(cur) - 1)))
      decreases b - Index(cur)
    {
      r, cur := PushMonth(paid, a, cur, r);
    }
    assert RangeMonths(a, b) == RangeMonths(a, Index(cur) - 1);
  }

  /** One turn of the loop: push the key of month `cur` unless it is
      included, then step to the next month. */
  method PushMonth(paid: seq<string>, a: int, cur: YearMonth, r: seq<string>) returns (r': seq<string>, next: YearMonth)
    requires ValidMonth(cur) && a <= Index(cur)
    requires r == AppendNew(paid, MonthKeys(RangeMonths(a, Index(cur) - 1)))
    ensures ValidMonth(next) && Index(next) == Index(cur) + 1
    ensures r' == AppendNew(paid, MonthKeys(RangeMonths(a, Index(next) - 1)))
  {
    PushStep(paid, a, Index(cur));
    IndexRoundTrip(cur);
    r' := PushIfNew(r, MonthKey(cur));
    next := NextMonth(cur);
  }

  // ---------------------------------------------------------------------------
  // expandMonthsForDisplay

  /** `text.split('+').map(part => part.trim())`. */
  function Parts(text: string): (r: seq<string>)
    ensures |r| == |Split(text, '+')| >= 1
    ensures forall k :: 0 <= k < |r| ==> r[k] == Trim(Split(text, '+')[k])
    ensures forall k :: 0 <= k < |r| ==> '+' !in r[k] && Trim(r[k]) == r[k]
  {
    var raw := Split(text, '+');
    TrimmedPieces(raw, '+');
    seq(|raw|, k requires 0 <= k < |raw| => Trim(raw[k]))
  }

  /** The display tokens one part expands to. The three range syntaxes are
      tried in the source's order. As written (`asWritten`), a part that
      contains both `Tháng` and `-` is decided by the second syntax alone and
      kept verbatim when it does not match; otherwise such a part falls
      through to the third syntax, the one written for it. */
  function PartItems(part: string, asWritten: bool): seq<string> {
    if Contains(part, " tới ") then
      var m := Match(ToiRange, part);
      if m.Some? then
        MonthLabels(RangeMonths(MonthIndexOf(m.value[0], m.value[1]), MonthIndexOf(m.value[2], m.value[3])))
      else [part]
    else if Contains(part, "Tháng") && Contains(part, "-") && (asWritten || Match(MonthRun, part).Some?) then
      var m := Match(MonthRun, part);
      if m.Some? then
        MonthLabels(RangeMonths(MonthIndexOf(m.value[0], m.value[2]), MonthIndexOf(m.value[1], m.value[2])))
      else [part]
    else if Contains(part, " - ") then
      var m := Match(CrossRange, part);
      if m.Some? then
        MonthLabels(RangeMonths(MonthIndexOf(m.value[0], m.value[1]), MonthIndexOf(m.value[2], m.value[3])))
      else [part]
    else [part]
  }

  function ItemsOf(parts: seq<string>, asWritten: bool): seq<string> {
    if parts == [] then []
    else ItemsOf(parts[..|parts| - 1], asWritten) + PartItems(parts[|parts| - 1], asWritten)
  }

  function Expand(text: string, asWritten: bool): string {
    if text == "" then "-"
    else
      var items := ItemsOf(Parts(text), asWritten);
      if items == [] then "-" else Join(items, ", ")
  }

  /** `expandMonthsForDisplay` as the source has it. */
  function ExpandedMonthsAsWritten(text: string): string { Expand(text, true) }

  /** `expandMonthsForDisplay` with the third syntax reachable. */
  function ExpandedMonths(text: string): string { Expand(text, false) }

  lemma ItemsStep(parts: seq<string>, i: int, asWritten: bool)
    requires 0 <= i < |parts|
    ensures ItemsOf(parts[..i + 1], asWritten) == ItemsOf(parts[..i], asWritten) + PartItems(parts[i], asWritten)
  {
    assert parts[..i + 1][..i] == parts[..i];
  }

  /** The tokens of one part. With `asWritten` the branches are the source's
      own: a part holding `Tháng` and `-` is decided by the second syntax and
      kept verbatim when its pattern fails; without it the third syntax is
      reachable. */
  method ExpandPart(part: string, asWritten: bool) returns (more: seq<string>)
    ensures more == PartItems(part, asWritten)
  {
    if Contains(part, " tới ") {
      var m := Match(ToiRange, part);
      if m.Some? {
        more := CollectLabels(MonthIndexOf(m.value[0], m.value[1]), MonthIndexOf(m.value[2], m.value[3]));
      } else {
        more := [part];
      }
    } else if Contains(part, "Tháng") && Contains(part, "-") && (asWritten || Match(MonthRun, part).Some?) {
      var m := Match(MonthRun, part);
      if m.Some? {
        more := CollectLabels(MonthIndexOf(m.value[0], m.value[2]), MonthIndexOf(m.value[1], m.value[2]));
      } else {
        more := [part];
      }
    } else if Contains(part, " - ") {
      var m := Match(CrossRange, part);
      if m.Some? {
        more := CollectLabels(MonthIndexOf(m.value[0], m.value[1]), MonthIndexOf(m.value[2], m.value[3]));
      } else {
        more := [part];
      }
    } else {
      more := [part];
    }
  }

  /** The expansion loop, one part at a time; `ExpandMonthsForDisplay(text,
      true)` is the source's function, `false` its corrected form. */
  method ExpandMonthsForDisplay(text: string, asWritten: bool) returns (r: string)
    ensures r == Expand(text, asWritten)
    ensures asWritten ==> r == ExpandedMonthsAsWritten(text)
    ensures !asWritten ==> r == ExpandedMonths(text)
  {
    if text == "" {
      return "-";
    }
    var parts := Parts(text);
    var items: seq<string> := [];
    var i := 0;
    while i < |parts|
      invariant 0 <= i <= |parts|
      invariant items == ItemsOf(parts[..i], asWritten)
    {
      var more := ExpandPart(parts[i], asWritten);
      ItemsStep(parts, i, asWritten);
      items := items + more;
      i := i + 1;
    }
    assert parts[..|parts|] == parts;
    r := if items == [] then "-" else Join(items, ", ");
  }

  // ---------------------------------------------------------------------------
  // getPaidMonthsFromPaymentHistory and parseMonthsCovered

  /** The key of one `Tháng M/YYYY` token: the captured year text and the
      month padded to two digits; nothing when the token does not match. */
  function TokenKey(token: string): seq<string> {
    var m := Match(SingleMonth, token);
    if m.Some? then [m.value[1] + "-" + Pad2(DigitsValue(m.value[0]))] else []
  }

  function TokenKeys(tokens: seq<string>): seq<string> {
    if tokens == [] then []
    else TokenKeys(tokens[..|tokens| - 1]) + TokenKey(tokens[|tokens| - 1])
  }

  /** The keys one `months_covered` text contributes, in order, before the
      `includes` test: only the first `tới` range when the text contains
      `' tới '`, otherwise the `Tháng M/YYYY` tokens between `+` signs. */
  function CoveredKeys(text: string): seq<string> {
    if text == "" then []
    else if Contains(text, " tới ") then
      var m := Match(ToiRange, text);
      if m.Some? then
        MonthKeys(RangeMonths(MonthIndexOf(m.value[0], m.value[1]), MonthIndexOf(m.value[2], m.value[3])))
      else []
    else TokenKeys(Parts(text))
  }

  /** The paid-month keys of a payment history, first occurrences in order. */
  function PaidMonthKeys(history: seq<string>): seq<string> {
    if history == [] then []
    else AppendNew(PaidMonthKeys(history[..|history| - 1]), CoveredKeys(history[|history| - 1]))
  }

  /** Pushes the key of every token not yet included. */
  method PushTokenKeys(paid: seq<string>, tokens: seq<string>) returns (r: seq<string>)
    ensures r == AppendNew(paid, TokenKeys(tokens))
  {
    r := paid;
    var j := 0;
    while j < |tokens|
      invariant 0 <= j <= |tokens|
      invariant r == AppendNew(paid, TokenKeys(tokens[..j]))
    {
      assert tokens[..j + 1][..j] == tokens[..j];
      var m := Match(SingleMonth, tokens[j]);
      if m.Some? {
        var key := m.value[1] + "-" + Pad2(DigitsValue(m.value[0]));
        AppendNewSnoc(paid, TokenKeys(tokens[..j]), key);
        r := PushIfNew(r, key);
      } else {
        assert TokenKeys(tokens[..j + 1]) == TokenKeys(tokens[..j]);
      }
      j := j + 1;
    }
    assert tokens[..|tokens|] == tokens;
  }

  /** Pushes the keys of one `months_covered` text not yet included. */
  method PushCoveredKeys(paid: seq<string>, text: string) returns (r: seq<string>)
    ensures r == AppendNew(paid, CoveredKeys(text))
  {
    r := paid;
    if text != "" {
      if Contains(text, " tới ") {
        var m := Match(ToiRange, text);
        if m.Some? {
          r := PushNewKeys(paid, MonthIndexOf(m.value[0], m.value[1]), MonthIndexOf(m.value[2], m.value[3]));
        }
      } else {
        r := PushTokenKeys(paid, Parts(text));
      }
    }
  }

  /** `getPaidMonthsFromPaymentHistory` over the `months_covered` texts of the history. */
  method GetPaidMonthsFromPaymentHistory(history: seq<string>) returns (paid: seq<string>)
    ensures paid == PaidMonthKeys(history)
  {
    paid := [];
    var i := 0;
    while i < |history|
      invariant 0 <= i <= |history|
      invariant paid == PaidMonthKeys(history[..i])
    {
      PaidStepAt(history, i);
      paid := PushCoveredKeys(paid, history[i]);
      i := i + 1;
    }
    assert history[..|history|] == history;
  }

  lemma PaidStepAt(history: seq<string>, i: int)
    requires 0 <= i < |history|
    ensures PaidMonthKeys(history[..i + 1]) == AppendNew(PaidMonthKeys(history[..i]), CoveredKeys(history[i]))
  {
    assert history[..i + 1][..i] == history[..i];
  }

  /** What `parseMonthsCovered` reads: the first `tới` range, or else only the
      first `Tháng M/YYYY` token of the whole text. */
  function MonthsCoveredKeys(text: string): seq<string> {
    if Contains(text, " tới ") then
      var m := Match(ToiRange, text);
      if m.Some? then
        MonthKeys(RangeMonths(MonthIndexOf(m.value[0], m.value[1]), MonthIndexOf(m.value[2], m.value[3])))
      else []
    else TokenKey(text)
  }

  method ParseMonthsCovered(text: string) returns (keys: seq<string>)
    ensures keys == MonthsCoveredKeys(text)
  {
    keys := [];
    if Contains(text, " tới ") {
      var m := Match(ToiRange, text);
      if m.Some? {
        keys := CollectKeys(MonthIndexOf(m.value[0], m.value[1]), MonthIndexOf(m.value[2], m.value[3]));
      }
    } else {
      var m := Match(SingleMonth, text);
      if m.Some? {
        keys := [m.value[1] + "-" + Pad2(DigitsValue(m.value[0]))];
      }
    }
  }

  // ---------------------------------------------------------------------------
  // formatSelectedMonthsPeriod

  /** What `monthDates` holds for one key before the `null` filter. */
  datatype MonthDate = NullDate | InvalidDate | FirstOf(index: int)

  function SelectionDate(key: string): MonthDate {
    if '/' in key then
      var m := Match(SingleMonth, key);
      if m.Some? then FirstOf(MonthIndexOf(m.value[0], m.value[1])) else NullDate
    else
      var p := Split(key, '-');
      var year := ParseInt(p[0]);
      var month := if |p| >= 2 then ParseInt(p[1]) else None;
      if year.Some? && month.Some? then FirstOf(FullYear(year.value) * 12 + month.value - 1)
      else InvalidDate
  }

  /** `selectedMonths.map(...).filter(date => date !== null)`. */
  function SelectionDates(keys: seq<string>): seq<MonthDate> {
    if keys == [] then []
    else
      var d := SelectionDate(keys[|keys| - 1]);
      SelectionDates(keys[..|keys| - 1]) + (if d == NullDate then [] else [d])
  }

  predicate AllValid(ds: seq<MonthDate>) { forall k :: 0 <= k < |ds| ==> ds[k].FirstOf? }

  function Indices(ds: seq<MonthDate>): (r: seq<int>)
    requires AllValid(ds)
    ensures |r| == |ds| && forall k :: 0 <= k < |ds| ==> r[k] == ds[k].index
  {
    seq(|ds|, k requires 0 <= k < |ds| => ds[k].index)
  }

  predicate SortedAsc(s: seq<int>) { forall i, j :: 0 <= i < j < |s| ==> s[i] <= s[j] }

  function Insert(x: int, s: seq<int>): (r: seq<int>)
    requires SortedAsc(s)
    ensures SortedAsc(r) && multiset(r) == multiset(s) + multiset{x}
    ensures r[0] == x || (s != [] && r[0] == s[0])
  {
    if s == [] || x <= s[0] then
      ConsSorted(x, s);
      [x] + s
    else
      var t := Insert(x, s[1..]);
      assert s == [s[0]] + s[1..];
      assert s[0] <= t[0];
      ConsSorted(s[0], t);
      [s[0]] + t
  }

  lemma ConsSorted(a: int, t: seq<int>)
    requires SortedAsc(t) && (t == [] || a <= t[0])
    ensures SortedAsc([a] + t)
  {
    var r := [a] + t;
    forall i, j | 0 <= i < j < |r| ensures r[i] <= r[j] {
      if i == 0 { assert r[j] == t[j - 1] && t[0] <= t[j - 1]; }
      else { assert r[i] == t[i - 1] && r[j] == t[j - 1]; }
    }
  }

  /** `sort((a, b) => a - b)` on the month indices. */
  function SortAscending(xs: seq<int>): (r: seq<int>)
    ensures SortedAsc(r) && multiset(r) == multiset(xs)
  {
    if xs == [] then []
    else
      assert xs == [xs[0]] + xs[1..];
      Insert(xs[0], SortAscending(xs[1..]))
  }

  /** Each month is the one after its predecessor: the `every` test. */
  predicate Consecutive(s: seq<int>) { forall k :: 0 < k < |s| ==> s[k] == s[k - 1] + 1 }

  /** `${startMonth}/${startYear} tới ${endMonth}/${endYear}`. */
  function RangeText(a: YearMonth, b: YearMonth): string {
    IntToString(a.month) + "/" + IntToString(a.year) + " tới " + IntToString(b.month) + "/" + IntToString(b.year)
  }

  /** One selected key written as a token: a key with `/` is kept, a
      `year-month` key becomes `Tháng ${month}/${year}` with the month text as
      it stands (`undefined` when there is none). */
  function ItemText(key: string): string {
    if '/' in key then key
    else
      var p := Split(key, '-');
      "Tháng " + (if |p| >= 2 then p[1] else "undefined") + "/" + p[0]
  }

  function ItemTexts(keys: seq<string>): (r: seq<string>)
    ensures |r| == |keys| && forall k :: 0 <= k < |keys| ==> r[k] == ItemText(keys[k])
  {
    seq(|keys|, k requires 0 <= k < |keys| => ItemText(keys[k]))
  }

  /** `formatSelectedMonthsPeriod`: a `tới` range for two or more consecutive
      months, otherwise the tokens of the original keys joined by `+`. */
  function FormatSelectedMonthsPeriod(selected: seq<string>): string {
    if selected == [] then NoMonthsSelected
    else
      var ds := SelectionDates(selected);
      if ds == [] then NoMonthsSelected
      else if |ds| > 1 && AllValid(ds) && Consecutive(SortAscending(Indices(ds))) then
        var s := SortAscending(Indices(ds));
        RangeText(FromIndex(s[0]), FromIndex(s[|s| - 1]))
      else Join(ItemTexts(selected), "+")
  }

  // ---------------------------------------------------------------------------
  // formatMonthsRangeForInvoice

  /** The `{ month, year }` that `parse` reads from a token. */
  function InvoiceMonth(token: string): Option<YearMonth> {
    var m := Match(SingleMonth, token);
    if m.Some? then Some(YearMonth(DigitsValue(m.value[1]), DigitsValue(m.value[0]))) else None
  }

  /** `text.split(',').map(part => part.trim())`. */
  function CommaParts(text: string): (r: seq<string>)
    ensures |r| == |Split(text, ',')| >= 1
  {
    TrimAll(Split(text, ','))
  }

  /** `items.map(item => item.trim())`. */
  function TrimAll(items: seq<string>): (r: seq<string>)
    ensures |r| == |items|
  {
    if items == [] then [] else TrimAll(items[..|items| - 1]) + [Trim(items[|items| - 1])]
  }

  /** The invoice label from the expanded tokens: the first month, or the
      first and the last joined by ` tới `; the text itself when either end
      is not a `Tháng M/YYYY` token. */
  function InvoiceLabel(text: string, months: seq<string>): string
    requires |months| >= 1
  {
    var first := InvoiceMonth(months[0]);
    var last := InvoiceMonth(months[|months| - 1]);
    if first.None? || last.None? then text
    else if |months| == 1 then MonthLabel(first.value)
    else SpanLabel(first.value, last.value)
  }

  /** `Tháng M/YYYY tới Tháng M/YYYY`. */
  function SpanLabel(a: YearMonth, b: YearMonth): string {
    MonthLabel(a) + " tới " + MonthLabel(b)
  }

  /** `formatMonthsRangeForInvoice` as the source has it: the source's
      expansion is split on `+`, a sign the expansion never writes. */
  function FormatMonthsRangeForInvoice(text: string): string {
    if text == "" then "" else InvoiceLabel(text, Parts(ExpandedMonthsAsWritten(text)))
  }

  /** `formatMonthsRangeForInvoice` corrected: the corrected expansion split
      on the `,` it is joined with. */
  function FormatMonthsRangeForInvoiceCorrected(text: string): string {
    if text == "" then "" else InvoiceLabel(text, CommaParts(ExpandedMonths(text)))
  }
}
