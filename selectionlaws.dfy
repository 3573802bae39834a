/** The round trip of the month-selection grid: the keys of a selection are
    written by `formatSelectedMonthsPeriod` and read back by the paid-month
    reader as the same set of keys. */
module SelectionLaws {
  import opened JsText
  import opened Calendar
  import opened Patterns
  import opened MonthText
  import opened MonthCodec
  import opened CodecLaws

  predicate AllFourDigit(ms: seq<YearMonth>) { forall k :: 0 <= k < |ms| ==> FourDigitMonth(ms[k]) }

  /** The month indices of a selection, in selection order. */
  function MonthIndices(ms: seq<YearMonth>): (r: seq<int>)
    ensures |r| == |ms| && forall k :: 0 <= k < |ms| ==> r[k] == Index(ms[k])
  {
    seq(|ms|, k requires 0 <= k < |ms| => Index(ms[k]))
  }

  function IndexDates(ms: seq<YearMonth>): (r: seq<MonthDate>)
    ensures |r| == |ms| && forall k :: 0 <= k < |ms| ==> r[k] == FirstOf(Index(ms[k]))
  {
    seq(|ms|, k requires 0 <= k < |ms| => FirstOf(Index(ms[k])))
  }

  /** The token `formatSelectedMonthsPeriod` writes for one key. */
  function KeyToken(ym: YearMonth): string
    requires ym.month >= 0 && ym.year >= 0
  {
    "Tháng " + Pad2(ym.month) + "/" + NatToString(ym.year)
  }

  // ---------------------------------------------------------------------------
  // One key

  lemma KeySplits(ym: YearMonth)
    requires FourDigitMonth(ym)
    ensures Split(MonthKey(ym), '-') == [NatToString(ym.year), Pad2(ym.month)]
    ensures '/' !in MonthKey(ym)
  {
    var ys, ps := NatToString(ym.year), Pad2(ym.month);
    NatToStringNoSeparators(ym.year);
    ParsePad2(ym.month);
    assert MonthKey(ym) == ys + ['-'] + ps;
    SplitTwo(ys, ps, '-');
  }

  /** A key reads back as the first of its month. */
  lemma KeyDate(ym: YearMonth)
    requires FourDigitMonth(ym)
    ensures SelectionDate(MonthKey(ym)) == FirstOf(Index(ym))
  {
    KeySplits(ym);
    var p := Split(MonthKey(ym), '-');
    assert p[0] == IntToString(ym.year);
    ParseIntOfIntToString(ym.year);
    ParsePad2(ym.month);
    SelectionDateOfParts(MonthKey(ym), ym.year, ym.month);
    assert YearMonth(FullYear(ym.year), ym.month) == ym;
  }

  /** A key without `/` whose `-`-separated parts read as a year and a month. */
  lemma SelectionDateOfParts(key: string, y: int, m: int)
    requires '/' !in key && |Split(key, '-')| >= 2
    requires ParseInt(Split(key, '-')[0]) == Some(y) && ParseInt(Split(key, '-')[1]) == Some(m)
    ensures SelectionDate(key) == FirstOf(Index(YearMonth(FullYear(y), m)))
  {
  }

  lemma KeyItemText(ym: YearMonth)
    requires FourDigitMonth(ym)
    ensures ItemText(MonthKey(ym)) == KeyToken(ym)
  {
    KeySplits(ym);
  }

  /** The token of a key reads back as the key. */
  lemma TokenOfKey(ym: YearMonth)
    requires FourDigitMonth(ym)
    ensures TokenKey(KeyToken(ym)) == [MonthKey(ym)]
  {
    var m, y := Pad2(ym.month), NatToString(ym.year);
    PaddedMonthTexts(ym);
    assert KeyToken(ym) == "Tháng " + m + "/" + y + [];
    SingleMonthAtStart(m, y, []);
  }

  lemma KeyTokenShape(ym: YearMonth)
    requires FourDigitMonth(ym)
    ensures var t := KeyToken(ym);
            t != [] && '+' !in t && 't' !in t && !IsSpace(t[0]) && !IsSpace(t[|t| - 1])
  {
    var m, y := Pad2(ym.month), NatToString(ym.year);
    PlainDigits(m, y, ym);
    TokenChars(m, y);
  }

  lemma PlainDigits(m: string, y: string, ym: YearMonth)
    requires FourDigitMonth(ym) && m == Pad2(ym.month) && y == NatToString(ym.year)
    ensures '+' !in m && '+' !in y && 't' !in m && 't' !in y && |y| == 4 && IsDigit(y[3])
  {
    Pad2Shape(ym.month);
    YearDigits(ym.year);
    DigitsExclude(m, '+');
    DigitsExclude(y, '+');
    DigitsExclude(m, 't');
    DigitsExclude(y, 't');
  }

  lemma TokenChars(m: string, y: string)
    requires '+' !in m && '+' !in y && 't' !in m && 't' !in y && |y| == 4 && IsDigit(y[3])
    ensures var t := "Tháng " + m + "/" + y;
            t != [] && '+' !in t && 't' !in t && !IsSpace(t[0]) && !IsSpace(t[|t| - 1])
  {
    var t := "Tháng " + m + "/" + y;
    assert t[0] == 'T';
    assert t[|t| - 1] == y[3];
  }

  // ---------------------------------------------------------------------------
  // A selection of keys

  /** The tokens written for the keys of a selection. */
  function KeyTokens(ms: seq<YearMonth>): (r: seq<string>)
    requires forall k :: 0 <= k < |ms| ==> ms[k].month >= 0 && ms[k].year >= 0
    ensures |r| == |ms| && forall k :: 0 <= k < |ms| ==> r[k] == KeyToken(ms[k])
  {
    seq(|ms|, k requires 0 <= k < |ms| => KeyToken(ms[k]))
  }

  lemma ItemTextsOfKeys(ms: seq<YearMonth>)
    requires AllFourDigit(ms)
    ensures ItemTexts(MonthKeys(ms)) == KeyTokens(ms)
  {
    forall k | 0 <= k < |ms| ensures ItemTexts(MonthKeys(ms))[k] == KeyTokens(ms)[k] {
      KeyItemText(ms[k]);
    }
  }

  lemma {:induction false} DatesOfKeys(ms: seq<YearMonth>)
    requires AllFourDigit(ms)
    ensures SelectionDates(MonthKeys(ms)) == IndexDates(ms)
    decreases |ms|
  {
    if ms != [] {
      DatesOfKeys(ms[..|ms| - 1]);
      DatesStep(ms, |ms| - 1);
    }
  }

  lemma DatesStep(ms: seq<YearMonth>, n: int)
    requires n == |ms| - 1 >= 0 && FourDigitMonth(ms[n])
    requires SelectionDates(MonthKeys(ms[..n])) == IndexDates(ms[..n])
    ensures SelectionDates(MonthKeys(ms)) == IndexDates(ms)
  {
    KeysPrefix(ms, n);
    DatesPrefix(ms, n);
    KeyDate(ms[n]);
  }

  lemma {:induction false} TokenKeysOfTokens(ms: seq<YearMonth>)
    requires AllFourDigit(ms)
    ensures TokenKeys(KeyTokens(ms)) == MonthKeys(ms)
    decreases |ms|
  {
    if ms != [] {
      TokenKeysOfTokens(ms[..|ms| - 1]);
      TokenKeysStep(ms, |ms| - 1);
    }
  }

  lemma TokenKeysStep(ms: seq<YearMonth>, n: int)
    requires n == |ms| - 1 >= 0 && AllFourDigit(ms)
    requires TokenKeys(KeyTokens(ms[..n])) == MonthKeys(ms[..n])
    ensures TokenKeys(KeyTokens(ms)) == MonthKeys(ms)
  {
    TokensPrefix(ms, n);
    KeysSnoc(ms, n);
    TokenOfKey(ms[n]);
  }

  lemma KeysSnoc(ms: seq<YearMonth>, n: int)
    requires n == |ms| - 1 >= 0
    ensures MonthKeys(ms) == MonthKeys(ms[..n]) + [MonthKey(ms[n])]
  {
    assert ms == ms[..n] + [ms[n]];
    RenderSnoc(ms[..n], ms[n]);
  }

  lemma KeysPrefix(ms: seq<YearMonth>, n: int)
    requires 0 <= n <= |ms|
    ensures MonthKeys(ms)[..n] == MonthKeys(ms[..n])
  {
    var a, b := MonthKeys(ms)[..n], MonthKeys(ms[..n]);
    assert |a| == |b|;
    forall k | 0 <= k < n ensures a[k] == b[k] {
      assert a[k] == MonthKeys(ms)[k];
    }
  }

  lemma TokensPrefix(ms: seq<YearMonth>, n: int)
    requires 0 <= n <= |ms| && AllFourDigit(ms)
    ensures KeyTokens(ms)[..n] == KeyTokens(ms[..n])
  {
    var a, b := KeyTokens(ms)[..n], KeyTokens(ms[..n]);
    assert |a| == |b|;
    forall k | 0 <= k < n ensures a[k] == b[k] {
      assert a[k] == KeyTokens(ms)[k];
    }
  }

  lemma DatesPrefix(ms: seq<YearMonth>, n: int)
    requires n == |ms| - 1 >= 0
    ensures IndexDates(ms) == IndexDates(ms[..n]) + [FirstOf(Index(ms[n]))]
  {
    var a, b := IndexDates(ms), IndexDates(ms[..n]) + [FirstOf(Index(ms[n]))];
    assert |a| == |b|;
    forall k | 0 <= k < |a| ensures a[k] == b[k] {
      if k < n { assert b[k] == IndexDates(ms[..n])[k]; }
    }
  }

  /** The `+`-joined tokens split back into the tokens. */
  lemma PartsOfTokens(ms: seq<YearMonth>)
    requires |ms| >= 1 && AllFourDigit(ms)
    ensures Parts(Join(KeyTokens(ms), "+")) == KeyTokens(ms)
  {
    var ts := KeyTokens(ms);
    forall k | 0 <= k < |ts| ensures '+' !in ts[k] && Trim(ts[k]) == ts[k] {
      KeyTokenShape(ms[k]);
      TrimNoop(ts[k]);
    }
    SplitJoin(ts, '+');
  }

  lemma JoinedTokensShape(ms: seq<YearMonth>)
    requires |ms| >= 1 && AllFourDigit(ms)
    ensures Join(KeyTokens(ms), "+") != [] && !Contains(Join(KeyTokens(ms), "+"), " tới ")
  {
    var ts := KeyTokens(ms);
    forall k | 0 <= k < |ts| ensures 't' !in ts[k] {
      KeyTokenShape(ms[k]);
    }
    JoinExcludes(ts, "+", 't');
    JoinEnds(ts, "+");
    KeyTokenShape(ms[0]);
    assert 't' in " tới ";
    MissingChar(Join(ts, "+"), " tới ", 't');
  }

  /** The keys the paid-month reader takes from the `+`-joined tokens. */
  lemma CoveredKeysOfTokens(ms: seq<YearMonth>)
    requires |ms| >= 1 && AllFourDigit(ms)
    ensures CoveredKeys(Join(KeyTokens(ms), "+")) == MonthKeys(ms)
  {
    JoinedTokensShape(ms);
    PartsOfTokens(ms);
    TokenKeysOfTokens(ms);
  }

  // ---------------------------------------------------------------------------
  // Sorted runs

  /** A consecutive run counts up by one from its first element. */
  lemma {:induction false} ConsecutiveIsRun(s: seq<int>)
    requires Consecutive(s)
    ensures forall k :: 0 <= k < |s| ==> s[k] == s[0] + k
    decreases |s|
  {
    if |s| > 1 {
      var p := s[..|s| - 1];
      assert Consecutive(p);
      ConsecutiveIsRun(p);
      forall k | 0 <= k < |s| ensures s[k] == s[0] + k {
        if k < |p| {
          assert s[k] == p[k];
        } else {
          assert s[k] == s[k - 1] + 1 && s[k - 1] == p[k - 1];
        }
      }
    }
  }

  /** Two sorted sequences holding the same elements are equal. */
  lemma {:induction false} SortedUnique(a: seq<int>, b: seq<int>)
    requires SortedAsc(a) && SortedAsc(b) && multiset(a) == multiset(b)
    ensures a == b
    decreases |a|
  {
    assert |a| == |b| by { assert |multiset(a)| == |a| && |multiset(b)| == |b|; }
    if a != [] {
      SortedHeads(a, b);
      DropHead(a);
      DropHead(b);
      SortedUnique(a[1..], b[1..]);
      assert a == [a[0]] + a[1..] && b == [b[0]] + b[1..];
    }
  }

  lemma SortedHeads(a: seq<int>, b: seq<int>)
    requires SortedAsc(a) && SortedAsc(b) && multiset(a) == multiset(b) && a != [] && b != []
    ensures a[0] == b[0]
  {
    assert a[0] in multiset(a) && b[0] in multiset(b);
    var i :| 0 <= i < |b| && b[i] == a[0];
    var j :| 0 <= j < |a| && a[j] == b[0];
  }

  lemma DropHead(a: seq<int>)
    requires a != []
    ensures multiset(a[1..]) == multiset(a) - multiset{a[0]}
    ensures SortedAsc(a) ==> SortedAsc(a[1..])
  {
    assert a == [a[0]] + a[1..];
  }

  /** The months `lo .. lo + n - 1` as indices. */
  function IndexRun(lo: int, n: nat): (r: seq<int>)
    ensures |r| == n && forall k :: 0 <= k < n ==> r[k] == lo + k
  {
    seq(n, k => lo + k)
  }

  /** The sorted indices of a run are the run. */
  lemma SortedRun(s: seq<int>, lo: int, n: nat)
    requires multiset(s) == multiset(IndexRun(lo, n))
    ensures SortAscending(s) == IndexRun(lo, n)
  {
    assert SortedAsc(IndexRun(lo, n));
    SortedUnique(SortAscending(s), IndexRun(lo, n));
  }

  /** Every key of the months from the first to the last index of a sorted
      consecutive run is the key of a month of the selection, and back. */
  lemma RunKeysAreSelection(ms: seq<YearMonth>, s: seq<int>)
    requires AllFourDigit(ms) && |s| >= 1
    requires s == SortAscending(MonthIndices(ms)) && Consecutive(s)
    ensures forall x :: x in MonthKeys(RangeMonths(s[0], s[|s| - 1])) <==> x in MonthKeys(ms)
  {
    RunSpan(ms, s);
    forall x ensures x in MonthKeys(RangeMonths(s[0], s[|s| - 1])) <==> x in MonthKeys(ms) {
      InRangeKeys(s[0], s[|s| - 1], x);
      InSelectionKeys(ms, x);
    }
  }

  /** The keys of the months from index `lo` to index `hi`. */
  lemma InRangeKeys(lo: int, hi: int, x: string)
    ensures x in MonthKeys(RangeMonths(lo, hi)) <==> exists i :: lo <= i <= hi && x == MonthKey(FromIndex(i))
  {
    if x in MonthKeys(RangeMonths(lo, hi)) {
      RangeKeyIndex(lo, hi, x);
    }
    if i :| lo <= i <= hi && x == MonthKey(FromIndex(i)) {
      RangeKeyMember(lo, hi, i);
    }
  }

  lemma RangeKeyMember(lo: int, hi: int, i: int)
    requires lo <= i <= hi
    ensures MonthKey(FromIndex(i)) in MonthKeys(RangeMonths(lo, hi))
  {
    RangeKeyAt(lo, hi, i - lo);
    assert MonthKeys(RangeMonths(lo, hi))[i - lo] == MonthKey(FromIndex(i));
  }

  lemma RangeKeyIndex(lo: int, hi: int, x: string)
    requires x in MonthKeys(RangeMonths(lo, hi))
    ensures exists i :: lo <= i <= hi && x == MonthKey(FromIndex(i))
  {
    var keys := MonthKeys(RangeMonths(lo, hi));
    var k :| 0 <= k < |keys| && keys[k] == x;
    RangeKeyAt(lo, hi, k);
    assert lo <= lo + k <= hi && x == MonthKey(FromIndex(lo + k));
  }

  lemma RangeKeyAt(lo: int, hi: int, k: int)
    requires 0 <= k <= hi - lo
    ensures |MonthKeys(RangeMonths(lo, hi))| == hi - lo + 1
    ensures MonthKeys(RangeMonths(lo, hi))[k] == MonthKey(FromIndex(lo + k))
  {
  }

  /** The keys of a selection are the keys of its month indices. */
  lemma InSelectionKeys(ms: seq<YearMonth>, x: string)
    requires AllFourDigit(ms)
    ensures x in MonthKeys(ms) <==> exists i :: i in MonthIndices(ms) && x == MonthKey(FromIndex(i))
  {
    if x in MonthKeys(ms) {
      var j :| 0 <= j < |ms| && MonthKeys(ms)[j] == x;
      IndexRoundTrip(ms[j]);
      assert MonthIndices(ms)[j] in MonthIndices(ms);
    }
    if i :| i in MonthIndices(ms) && x == MonthKey(FromIndex(i)) {
      var j :| 0 <= j < |ms| && MonthIndices(ms)[j] == i;
      IndexRoundTrip(ms[j]);
      assert MonthKeys(ms)[j] == x;
    }
  }

  /** The indices of a selection whose sorted indices are consecutive fill
      the span from the first to the last. */
  lemma RunSpan(ms: seq<YearMonth>, s: seq<int>)
    requires |s| >= 1 && s == SortAscending(MonthIndices(ms)) && Consecutive(s)
    ensures forall i :: s[0] <= i <= s[|s| - 1] <==> i in MonthIndices(ms)
  {
    ConsecutiveIsRun(s);
    forall i ensures s[0] <= i <= s[|s| - 1] <==> i in MonthIndices(ms) {
      if s[0] <= i <= s[|s| - 1] {
        assert s[i - s[0]] == i;
        assert i in multiset(s);
      }
      if i in MonthIndices(ms) {
        assert i in multiset(MonthIndices(ms));
        assert i in multiset(s);
        var k :| 0 <= k < |s| && s[k] == i;
      }
    }
  }

  /** An element of the sorted indices is the index of a selected month. */
  lemma SortedIsSelected(ms: seq<YearMonth>, s: seq<int>, k: int)
    requires AllFourDigit(ms) && s == SortAscending(MonthIndices(ms)) && 0 <= k < |s|
    ensures FromIndex(s[k]) in ms && FourDigitMonth(FromIndex(s[k]))
  {
    assert s[k] in multiset(MonthIndices(ms)) by { assert s[k] in multiset(s); }
    var j :| 0 <= j < |ms| && MonthIndices(ms)[j] == s[k];
    IndexRoundTrip(ms[j]);
  }

  // ---------------------------------------------------------------------------
  // The round trip

  /** The one-entry history keys are the keys of its one text, de-duplicated. */
  lemma PaidKeysOfOne(t: string)
    ensures forall x :: x in PaidMonthKeys([t]) <==> x in CoveredKeys(t)
  {
    assert [t][..0] == [];
    forall x ensures x in PaidMonthKeys([t]) <==> x in CoveredKeys(t) {
      AppendNewMembers([], CoveredKeys(t), x);
    }
  }

  /** What `formatSelectedMonthsPeriod` writes for a non-empty selection of
      four-digit-year months: the `tới` range of the sorted first and last
      month when they are two or more consecutive months, the `+`-joined
      tokens otherwise. */
  lemma PeriodOfKeys(ms: seq<YearMonth>)
    requires |ms| >= 1 && AllFourDigit(ms)
    ensures var s := SortAscending(MonthIndices(ms));
            FormatSelectedMonthsPeriod(MonthKeys(ms))
            == if |ms| > 1 && Consecutive(s) then RangeText(FromIndex(s[0]), FromIndex(s[|s| - 1]))
               else Join(KeyTokens(ms), "+")
  {
    DatesOfKeys(ms);
    ItemTextsOfKeys(ms);
    DatesIndices(ms);
    PeriodOfValidDates(MonthKeys(ms), MonthIndices(ms));
  }

  lemma DatesIndices(ms: seq<YearMonth>)
    ensures AllValid(IndexDates(ms)) && Indices(IndexDates(ms)) == MonthIndices(ms)
  {
  }

  /** `formatSelectedMonthsPeriod` of keys that all read as dates. */
  lemma PeriodOfValidDates(selected: seq<string>, idx: seq<int>)
    requires selected != [] && |SelectionDates(selected)| == |selected|
    requires AllValid(SelectionDates(selected)) && Indices(SelectionDates(selected)) == idx
    ensures var s := SortAscending(idx);
            FormatSelectedMonthsPeriod(selected)
            == if |selected| > 1 && Consecutive(s) then RangeText(FromIndex(s[0]), FromIndex(s[|s| - 1]))
               else Join(ItemTexts(selected), "+")
  {
  }

  /** Reading back what `formatSelectedMonthsPeriod` writes for a non-empty
      selection gives exactly the selected keys. */
  lemma PeriodRoundTrip(ms: seq<YearMonth>)
    requires |ms| >= 1 && AllFourDigit(ms)
    ensures forall x :: x in PaidMonthKeys([FormatSelectedMonthsPeriod(MonthKeys(ms))]) <==> x in MonthKeys(ms)
  {
    var t := FormatSelectedMonthsPeriod(MonthKeys(ms));
    var s := SortAscending(MonthIndices(ms));
    PeriodOfKeys(ms);
    PaidKeysOfOne(t);
    if |ms| > 1 && Consecutive(s) {
      RunPeriodKeys(ms, s);
    } else {
      CoveredKeysOfTokens(ms);
    }
  }

  /** The range text of a consecutive selection covers exactly its keys. */
  lemma RunPeriodKeys(ms: seq<YearMonth>, s: seq<int>)
    requires |ms| >= 1 && AllFourDigit(ms)
    requires s == SortAscending(MonthIndices(ms)) && Consecutive(s)
    ensures forall x :: x in CoveredKeys(RangeText(FromIndex(s[0]), FromIndex(s[|s| - 1]))) <==> x in MonthKeys(ms)
  {
    var a, b := FromIndex(s[0]), FromIndex(s[|s| - 1]);
    SortedIsSelected(ms, s, 0);
    SortedIsSelected(ms, s, |s| - 1);
    CoveredKeysOfRangeText(a, b);
    RunKeysAreSelection(ms, s);
  }

  /** A selection of two or more months whose indices are `lo .. lo + n - 1`,
      in any order, is written as the range from its first to its last month. */
  lemma ConsecutiveSelectionIsRange(ms: seq<YearMonth>, lo: int)
    requires |ms| >= 2 && AllFourDigit(ms)
    requires multiset(MonthIndices(ms)) == multiset(IndexRun(lo, |ms|))
    ensures FormatSelectedMonthsPeriod(MonthKeys(ms)) == RangeText(FromIndex(lo), FromIndex(lo + |ms| - 1))
  {
    RunSorted(ms, lo);
    PeriodOfKeys(ms);
  }

  lemma RunSorted(ms: seq<YearMonth>, lo: int)
    requires multiset(MonthIndices(ms)) == multiset(IndexRun(lo, |ms|)) && |ms| >= 1
    ensures var s := SortAscending(MonthIndices(ms));
            Consecutive(s) && FromIndex(s[0]) == FromIndex(lo) && FromIndex(s[|s| - 1]) == FromIndex(lo + |ms| - 1)
  {
    SortedRun(MonthIndices(ms), lo, |ms|);
    RunEnds(SortAscending(MonthIndices(ms)), lo, |ms|);
  }

  lemma RunEnds(s: seq<int>, lo: int, n: int)
    requires n >= 1 && s == IndexRun(lo, n)
    ensures FromIndex(s[0]) == FromIndex(lo) && FromIndex(s[|s| - 1]) == FromIndex(lo + n - 1)
  {
  }

  /** One selected month is written as its token. */
  lemma PeriodOfOneMonth(ym: YearMonth)
    requires FourDigitMonth(ym)
    ensures FormatSelectedMonthsPeriod([MonthKey(ym)]) == KeyToken(ym)
  {
    PeriodOfKeys([ym]);
    assert MonthKeys([ym]) == [MonthKey(ym)];
  }

  /** Nothing selected, or only keys that read as no date. */
  lemma EmptySelection()
    ensures FormatSelectedMonthsPeriod([]) == NoMonthsSelected
  {
  }
}
