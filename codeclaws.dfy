/** What the month codec promises: the expansions of the three range syntaxes,
    the keys the paid-month reader produces, and the round trip from a month
    selection through `formatSelectedMonthsPeriod` back to the paid months. */
module CodecLaws {
  import opened JsText
  import opened Calendar
  import opened Patterns
  import opened MonthText
  import opened MonthCodec

  // ---------------------------------------------------------------------------
  // Month texts

  /** The digits the texts write for a month with a four-digit year, and the
      month index the reader computes from them. */
  lemma MonthTexts(ym: YearMonth)
    requires FourDigitMonth(ym)
    ensures IntToString(ym.month) == NatToString(ym.month) && IntToString(ym.year) == NatToString(ym.year)
    ensures MonthYearDigits(NatToString(ym.month), NatToString(ym.year))
    ensures MonthIndexOf(NatToString(ym.month), NatToString(ym.year)) == Index(ym)
  {
    MonthDigits(ym.month);
    YearDigits(ym.year);
  }

  /** The same with the month padded to two digits. */
  lemma PaddedMonthTexts(ym: YearMonth)
    requires FourDigitMonth(ym)
    ensures MonthYearDigits(Pad2(ym.month), NatToString(ym.year))
    ensures MonthIndexOf(Pad2(ym.month), NatToString(ym.year)) == Index(ym)
    ensures Pad2(DigitsValue(Pad2(ym.month))) == Pad2(ym.month)
  {
    Pad2Shape(ym.month);
    YearDigits(ym.year);
    var d := DigitsValue(Pad2(ym.month));
    assert d == ym.month;
    assert FullYear(DigitsValue(NatToString(ym.year))) == ym.year;
    assert MonthIndexOf(Pad2(ym.month), NatToString(ym.year)) == ym.year * 12 + d - 1;
  }

  lemma LabelText(ym: YearMonth)
    requires FourDigitMonth(ym)
    ensures MonthLabel(ym) == "Tháng " + NatToString(ym.month) + "/" + NatToString(ym.year)
    ensures '+' !in MonthLabel(ym) && '-' !in MonthLabel(ym)
    ensures MonthLabel(ym)[0] == 'T' && IsDigit(MonthLabel(ym)[|MonthLabel(ym)| - 1])
  {
    MonthTexts(ym);
    var m, y := NatToString(ym.month), NatToString(ym.year);
    DigitsExclude(m, '+');
    DigitsExclude(y, '+');
    DigitsExclude(m, '-');
    DigitsExclude(y, '-');
    assert MonthLabel(ym)[|MonthLabel(ym)| - 1] == y[3];
  }

  // ---------------------------------------------------------------------------
  // `M1/Y1 tới M2/Y2`, as `formatSelectedMonthsPeriod` writes a range

  lemma RangeTextReads(a: YearMonth, b: YearMonth)
    requires FourDigitMonth(a) && FourDigitMonth(b)
    ensures RangeText(a, b) != [] && Contains(RangeText(a, b), " tới ")
    ensures var m := Match(ToiRange, RangeText(a, b));
            m.Some? && |m.value| == 4
            && MonthIndexOf(m.value[0], m.value[1]) == Index(a) && MonthIndexOf(m.value[2], m.value[3]) == Index(b)
  {
    MonthTexts(a);
    MonthTexts(b);
    var m1, y1 := NatToString(a.month), NatToString(a.year);
    var m2, y2 := NatToString(b.month), NatToString(b.year);
    assert RangeText(a, b) == (m1 + "/" + y1) + " tới " + (m2 + "/" + y2);
    ContainsMiddle(m1 + "/" + y1, " tới ", m2 + "/" + y2);
    ToiRangeAtStart(m1, y1, m2, y2);
  }

  /** The keys the paid-month reader takes from a written range: every month
      from the first to the last. */
  lemma CoveredKeysOfRangeText(a: YearMonth, b: YearMonth)
    requires FourDigitMonth(a) && FourDigitMonth(b)
    ensures CoveredKeys(RangeText(a, b)) == MonthKeys(RangeMonths(Index(a), Index(b)))
    ensures MonthsCoveredKeys(RangeText(a, b)) == MonthKeys(RangeMonths(Index(a), Index(b)))
  {
    RangeTextReads(a, b);
  }

  // ---------------------------------------------------------------------------
  // expandMonthsForDisplay

  /** What the expansion shows for a list of months: the labels joined by
      `', '`, or `-` for none. */
  function DisplayList(ms: seq<YearMonth>): string {
    if ms == [] then "-" else Join(MonthLabels(ms), ", ")
  }

  /** The part a `tới` range expands to. */
  lemma ToiBranch(part: string, asWritten: bool, m1: string, y1: string, m2: string, y2: string, lo: int, hi: int)
    requires Contains(part, " tới ") && Match(ToiRange, part) == Some([m1, y1, m2, y2])
    requires AllDigits(m1) && AllDigits(y1) && AllDigits(m2) && AllDigits(y2)
    requires MonthIndexOf(m1, y1) == lo && MonthIndexOf(m2, y2) == hi
    ensures PartItems(part, asWritten) == MonthLabels(RangeMonths(lo, hi))
  {
  }

  /** The part a `Tháng a-b/Y` run expands to. */
  lemma RunBranch(part: string, asWritten: bool, m1: string, m2: string, y: string, lo: int, hi: int)
    requires !Contains(part, " tới ") && Contains(part, "Tháng") && Contains(part, "-")
    requires Match(MonthRun, part) == Some([m1, m2, y])
    requires AllDigits(m1) && AllDigits(m2) && AllDigits(y)
    requires MonthIndexOf(m1, y) == lo && MonthIndexOf(m2, y) == hi
    ensures PartItems(part, asWritten) == MonthLabels(RangeMonths(lo, hi))
  {
  }

  /** The part a `Tháng a/Y - b/Z` range expands to once the third syntax is reachable. */
  lemma CrossBranch(part: string, m1: string, y1: string, m2: string, y2: string, lo: int, hi: int)
    requires !Contains(part, " tới ") && Match(MonthRun, part).None? && Contains(part, " - ")
    requires Match(CrossRange, part) == Some([m1, y1, m2, y2])
    requires AllDigits(m1) && AllDigits(y1) && AllDigits(m2) && AllDigits(y2)
    requires MonthIndexOf(m1, y1) == lo && MonthIndexOf(m2, y2) == hi
    ensures PartItems(part, false) == MonthLabels(RangeMonths(lo, hi))
  {
  }

  /** A text with no `+` and no white space at its ends is one part. */
  lemma OnePart(text: string, asWritten: bool)
    requires text != [] && '+' !in text && !IsSpace(text[0]) && !IsSpace(text[|text| - 1])
    ensures Parts(text) == [text]
    ensures Expand(text, asWritten) == (var items := PartItems(text, asWritten); if items == [] then "-" else Join(items, ", "))
  {
    TrimNoop(text);
    assert Split(text, '+') == [text];
    assert Parts(text) == [text] by {
      assert |Parts(text)| == 1 && Parts(text)[0] == Trim(text);
    }
    var items := ItemsOf([text], asWritten);
    assert [text][..0] == [];
    var p := PartItems(text, asWritten);
    assert items == ItemsOf([], asWritten) + p;
    assert [] + p == p;
    assert Expand(text, asWritten) == if items == [] then "-" else Join(items, ", ");
  }

  /** `M1/Y1 tới M2/Y2` expands to every month from the first to the last. */
  lemma ExpandRangeText(a: YearMonth, b: YearMonth)
    requires FourDigitMonth(a) && FourDigitMonth(b)
    ensures ExpandedMonths(RangeText(a, b)) == DisplayList(RangeMonths(Index(a), Index(b)))
    ensures ExpandedMonthsAsWritten(RangeText(a, b)) == DisplayList(RangeMonths(Index(a), Index(b)))
  {
    var t := RangeText(a, b);
    RangeTextShape(a, b);
    RangeTextItems(a, b, false);
    RangeTextItems(a, b, true);
    OnePart(t, false);
    OnePart(t, true);
    LabelsDisplay(RangeMonths(Index(a), Index(b)));
  }

  /** The range text is one part: the labels of its range. */
  lemma RangeTextItems(a: YearMonth, b: YearMonth, asWritten: bool)
    requires FourDigitMonth(a) && FourDigitMonth(b)
    ensures PartItems(RangeText(a, b), asWritten) == MonthLabels(RangeMonths(Index(a), Index(b)))
  {
    RangeTextReads(a, b);
  }

  /** The display text of a list of labels. */
  lemma LabelsDisplay(ms: seq<YearMonth>)
    ensures (if MonthLabels(ms) == [] then "-" else Join(MonthLabels(ms), ", ")) == DisplayList(ms)
  {
  }

  lemma RangeTextShape(a: YearMonth, b: YearMonth)
    requires FourDigitMonth(a) && FourDigitMonth(b)
    ensures RangeText(a, b) != [] && '+' !in RangeText(a, b)
    ensures IsDigit(RangeText(a, b)[0]) && IsDigit(RangeText(a, b)[|RangeText(a, b)| - 1])
  {
    MonthTexts(a);
    MonthTexts(b);
    var m1, y1 := NatToString(a.month), NatToString(a.year);
    var m2, y2 := NatToString(b.month), NatToString(b.year);
    DigitsExclude(m1, '+');
    DigitsExclude(y1, '+');
    DigitsExclude(m2, '+');
    DigitsExclude(y2, '+');
    var t := RangeText(a, b);
    assert t == m1 + "/" + y1 + " tới " + m2 + "/" + y2;
    assert t[0] == m1[0];
    assert t[|t| - 1] == y2[3];
  }

  /** `Tháng ` then digits, then text without white space: every space is
      followed by a digit. */
  lemma ThangNoSpaceBeforeT(d: string, rest: string)
    requires AllDigits(d) && d != [] && ' ' !in rest
    ensures NoSpaceBeforeT("Tháng " + d + rest)
  {
    DigitsNoSpaceBeforeT(d);
    assert NoSpaceBeforeT("Tháng ");
    assert IsDigit(d[0]);
    NoSpaceBeforeTConcat("Tháng ", d);
    assert forall k :: 0 <= k < |rest| ==> rest[k] != ' ';
    assert NoSpaceBeforeT(rest);
    assert ("Tháng " + d)[|"Tháng " + d| - 1] == d[|d| - 1];
    NoSpaceBeforeTConcat("Tháng " + d, rest);
  }

  /** The text `Tháng M1-M2/Y` and the tests the expansion makes on it. */
  function MonthRunText(m1: int, m2: int, y: int): string
    requires m1 >= 0 && m2 >= 0 && y >= 0
  {
    "Tháng " + NatToString(m1) + "-" + NatToString(m2) + "/" + NatToString(y)
  }

  lemma MonthRunTextEnds(m1: int, m2: int, y: int)
    requires 1 <= m1 <= 12 && 1 <= m2 <= 12 && 1000 <= y <= 9999
    ensures var t := MonthRunText(m1, m2, y);
            t != [] && '+' !in t && t[0] == 'T' && IsDigit(t[|t| - 1])
  {
    MonthTexts(YearMonth(y, m1));
    MonthTexts(YearMonth(y, m2));
    var s1, s2, sy := NatToString(m1), NatToString(m2), NatToString(y);
    var t := MonthRunText(m1, m2, y);
    DigitsExclude(s1, '+');
    DigitsExclude(s2, '+');
    DigitsExclude(sy, '+');
    assert t[|t| - 1] == sy[3];
  }

  lemma MonthRunTextTests(m1: int, m2: int, y: int)
    requires 1 <= m1 <= 12 && 1 <= m2 <= 12 && 1000 <= y <= 9999
    ensures var t := MonthRunText(m1, m2, y);
            !Contains(t, " tới ") && Contains(t, "Tháng") && Contains(t, "-")
  {
    MonthRunTextNoToi(m1, m2, y);
    MonthRunTextHas(m1, m2, y);
  }

  lemma MonthRunTextNoToi(m1: int, m2: int, y: int)
    requires 1 <= m1 <= 12 && 1 <= m2 <= 12 && 1000 <= y <= 9999
    ensures !Contains(MonthRunText(m1, m2, y), " tới ")
  {
    MonthTexts(YearMonth(y, m1));
    MonthTexts(YearMonth(y, m2));
    var s1, s2, sy := NatToString(m1), NatToString(m2), NatToString(y);
    var t := MonthRunText(m1, m2, y);
    DigitsExclude(s2, ' ');
    DigitsExclude(sy, ' ');
    assert t == "Tháng " + s1 + ("-" + s2 + "/" + sy);
    ThangNoSpaceBeforeT(s1, "-" + s2 + "/" + sy);
    NoToi(t);
  }

  lemma MonthRunTextHas(m1: int, m2: int, y: int)
    requires m1 >= 0 && m2 >= 0 && y >= 0
    ensures Contains(MonthRunText(m1, m2, y), "Tháng") && Contains(MonthRunText(m1, m2, y), "-")
  {
    var s1, s2, sy := NatToString(m1), NatToString(m2), NatToString(y);
    var t := MonthRunText(m1, m2, y);
    assert t == [] + "Tháng" + (" " + s1 + "-" + s2 + "/" + sy);
    ContainsMiddle([], "Tháng", " " + s1 + "-" + s2 + "/" + sy);
    assert t == ("Tháng " + s1) + "-" + (s2 + "/" + sy);
    ContainsMiddle("Tháng " + s1, "-", s2 + "/" + sy);
  }

  lemma RunItems(m1: int, m2: int, y: int, asWritten: bool, lo: int, hi: int)
    requires 1 <= m1 <= 12 && 1 <= m2 <= 12 && 1000 <= y <= 9999
    requires lo == Index(YearMonth(y, m1)) && hi == Index(YearMonth(y, m2))
    ensures PartItems(MonthRunText(m1, m2, y), asWritten) == MonthLabels(RangeMonths(lo, hi))
  {
    MonthTexts(YearMonth(y, m1));
    MonthTexts(YearMonth(y, m2));
    MonthRunTextTests(m1, m2, y);
    var s1, s2, sy := NatToString(m1), NatToString(m2), NatToString(y);
    MonthRunAtStart(s1, s2, sy);
    RunBranch(MonthRunText(m1, m2, y), asWritten, s1, s2, sy, lo, hi);
  }

  /** `Tháng M1-M2/Y` expands to the months `M1` to `M2` of year `Y`, as
      written and corrected alike. */
  lemma ExpandMonthRun(m1: int, m2: int, y: int)
    requires 1 <= m1 <= 12 && 1 <= m2 <= 12 && 1000 <= y <= 9999
    ensures ExpandedMonths(MonthRunText(m1, m2, y)) == DisplayList(RangeMonths(Index(YearMonth(y, m1)), Index(YearMonth(y, m2))))
    ensures ExpandedMonthsAsWritten(MonthRunText(m1, m2, y)) == ExpandedMonths(MonthRunText(m1, m2, y))
  {
    var t := MonthRunText(m1, m2, y);
    var lo, hi := Index(YearMonth(y, m1)), Index(YearMonth(y, m2));
    var r := RangeMonths(lo, hi);
    MonthRunTextEnds(m1, m2, y);
    OnePart(t, false);
    OnePart(t, true);
    RunItems(m1, m2, y, false, lo, hi);
    RunItems(m1, m2, y, true, lo, hi);
    ExpandOfLabels(t, false, r);
    ExpandOfLabels(t, true, r);
  }

  lemma ExpandOfLabels(t: string, asWritten: bool, r: seq<YearMonth>)
    requires t != [] && Parts(t) == [t] && PartItems(t, asWritten) == MonthLabels(r)
    requires Expand(t, asWritten) == (var items := PartItems(t, asWritten); if items == [] then "-" else Join(items, ", "))
    ensures Expand(t, asWritten) == DisplayList(r)
  {
  }

  /** The text `Tháng M1/Y1 - M2/Y2` the sample data writes for a range across years. */
  function CrossRangeText(a: YearMonth, b: YearMonth): string
    requires a.month >= 0 && a.year >= 0 && b.month >= 0 && b.year >= 0
  {
    "Tháng " + NatToString(a.month) + "/" + NatToString(a.year) + " - " + NatToString(b.month) + "/" + NatToString(b.year)
  }

  lemma CrossRangeTextEnds(a: YearMonth, b: YearMonth)
    requires FourDigitMonth(a) && FourDigitMonth(b)
    ensures var t := CrossRangeText(a, b);
            t != [] && '+' !in t && t[0] == 'T' && IsDigit(t[|t| - 1])
  {
    MonthTexts(a);
    MonthTexts(b);
    var m1, y1 := NatToString(a.month), NatToString(a.year);
    var m2, y2 := NatToString(b.month), NatToString(b.year);
    DigitsExclude(m1, '+');
    DigitsExclude(y1, '+');
    DigitsExclude(m2, '+');
    DigitsExclude(y2, '+');
    var t := CrossRangeText(a, b);
    assert t[|t| - 1] == y2[3];
  }

  /** The text has no lower-case `t`, so no ` tới `. */
  lemma CrossRangeTextNoToi(a: YearMonth, b: YearMonth)
    requires FourDigitMonth(a) && FourDigitMonth(b)
    ensures !Contains(CrossRangeText(a, b), " tới ")
  {
    MonthTexts(a);
    MonthTexts(b);
    DigitsExclude(NatToString(a.month), 't');
    DigitsExclude(NatToString(a.year), 't');
    DigitsExclude(NatToString(b.month), 't');
    DigitsExclude(NatToString(b.year), 't');
    assert 't' in " tới ";
    MissingChar(CrossRangeText(a, b), " tới ", 't');
  }

  lemma CrossRangeTextHas(a: YearMonth, b: YearMonth)
    requires a.month >= 0 && a.year >= 0 && b.month >= 0 && b.year >= 0
    ensures var t := CrossRangeText(a, b);
            Contains(t, "Tháng") && Contains(t, "-") && Contains(t, " - ")
  {
    CrossRangeTextHasThang(a, b);
    CrossRangeTextHasDash(a, b, "-");
    CrossRangeTextHasDash(a, b, " - ");
  }

  lemma CrossRangeTextHasThang(a: YearMonth, b: YearMonth)
    requires a.month >= 0 && a.year >= 0 && b.month >= 0 && b.year >= 0
    ensures Contains(CrossRangeText(a, b), "Tháng")
  {
    var m1, y1 := NatToString(a.month), NatToString(a.year);
    var m2, y2 := NatToString(b.month), NatToString(b.year);
    var p := "Tháng ";
    assert OccursAt(p, "Tháng", 0);
    ContainsLeft(p, m1, "Tháng");
    ContainsLeft(p + m1, "/", "Tháng");
    ContainsLeft(p + m1 + "/", y1, "Tháng");
    ContainsLeft(p + m1 + "/" + y1, " - ", "Tháng");
    ContainsLeft(p + m1 + "/" + y1 + " - ", m2, "Tháng");
    ContainsLeft(p + m1 + "/" + y1 + " - " + m2, "/", "Tháng");
    ContainsLeft(p + m1 + "/" + y1 + " - " + m2 + "/", y2, "Tháng");
  }

  lemma CrossRangeTextHasDash(a: YearMonth, b: YearMonth, w: string)
    requires a.month >= 0 && a.year >= 0 && b.month >= 0 && b.year >= 0
    requires w == "-" || w == " - "
    ensures Contains(CrossRangeText(a, b), w)
  {
    var m1, y1 := NatToString(a.month), NatToString(a.year);
    var m2, y2 := NatToString(b.month), NatToString(b.year);
    var p1 := "Tháng " + m1 + "/" + y1;
    var p2 := p1 + " - ";
    assert OccursAt(" - ", " - ", 0) && OccursAt(" - ", "-", 1);
    ContainsRight(p1, " - ", w);
    ContainsLeft(p2, m2, w);
    ContainsLeft(p2 + m2, "/", w);
    ContainsLeft(p2 + m2 + "/", y2, w);
  }

  /** What the two patterns find in the text. */
  lemma CrossRangeTextMatches(a: YearMonth, b: YearMonth)
    requires FourDigitMonth(a) && FourDigitMonth(b)
    ensures Match(MonthRun, CrossRangeText(a, b)).None?
    ensures Match(CrossRange, CrossRangeText(a, b))
            == Some([NatToString(a.month), NatToString(a.year), NatToString(b.month), NatToString(b.year)])
  {
    MonthTexts(a);
    MonthTexts(b);
    var m1, y1 := NatToString(a.month), NatToString(a.year);
    var m2, y2 := NatToString(b.month), NatToString(b.year);
    MonthRunMissesCross(m1, y1, m2, y2);
    CrossRangeAtStart(m1, y1, m2, y2);
  }

  /** As written, the part is kept verbatim: the second syntax claims it and fails. */
  lemma CrossItemsAsWritten(a: YearMonth, b: YearMonth)
    requires FourDigitMonth(a) && FourDigitMonth(b)
    ensures PartItems(CrossRangeText(a, b), true) == [CrossRangeText(a, b)]
  {
    CrossRangeTextNoToi(a, b);
    CrossRangeTextHas(a, b);
    CrossRangeTextMatches(a, b);
  }

  lemma CrossItems(a: YearMonth, b: YearMonth, lo: int, hi: int)
    requires FourDigitMonth(a) && FourDigitMonth(b) && lo == Index(a) && hi == Index(b)
    ensures PartItems(CrossRangeText(a, b), false) == MonthLabels(RangeMonths(lo, hi))
  {
    MonthTexts(a);
    MonthTexts(b);
    CrossRangeTextNoToi(a, b);
    CrossRangeTextHas(a, b);
    CrossRangeTextMatches(a, b);
    CrossBranch(CrossRangeText(a, b), NatToString(a.month), NatToString(a.year), NatToString(b.month), NatToString(b.year), lo, hi);
  }

  /** `Tháng M1/Y1 - M2/Y2`: as written the expansion returns the text
      unchanged; with the third syntax reachable it lists every month from
      the first to the last. */
  lemma ExpandCrossRange(a: YearMonth, b: YearMonth)
    requires FourDigitMonth(a) && FourDigitMonth(b)
    ensures ExpandedMonthsAsWritten(CrossRangeText(a, b)) == CrossRangeText(a, b)
    ensures ExpandedMonths(CrossRangeText(a, b)) == DisplayList(RangeMonths(Index(a), Index(b)))
  {
    var t := CrossRangeText(a, b);
    var lo, hi := Index(a), Index(b);
    CrossRangeTextEnds(a, b);
    OnePart(t, true);
    OnePart(t, false);
    CrossItemsAsWritten(a, b);
    CrossItems(a, b, lo, hi);
    assert Join([t], ", ") == t;
    ExpandOfLabels(t, false, RangeMonths(lo, hi));
  }
}
