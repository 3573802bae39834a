/** What `formatMonthsRangeForInvoice` makes of a written range. As the source
    has it the expansion is split on `+`, which it never contains, so only the
    first month survives; split on the `,` the expansion is joined with, the
    label names the first and the last month. */
module InvoiceLaws {
  import opened JsText
  import opened Calendar
  import opened Patterns
  import opened MonthText
  import opened MonthCodec
  import opened CodecLaws

  /** Every month between two months with four-digit years has a four-digit year. */
  lemma RangeFourDigit(a: YearMonth, b: YearMonth, lo: int, hi: int)
    requires FourDigitMonth(a) && FourDigitMonth(b) && lo == Index(a) && hi == Index(b)
    ensures forall k :: 0 <= k < |RangeMonths(lo, hi)| ==> FourDigitMonth(RangeMonths(lo, hi)[k])
  {
    forall k | 0 <= k < |RangeMonths(lo, hi)| ensures FourDigitMonth(RangeMonths(lo, hi)[k]) {
      var ym := RangeMonths(lo, hi)[k];
      assert Index(ym) == lo + k;
    }
  }

  lemma LabelShape(ym: YearMonth)
    requires FourDigitMonth(ym)
    ensures var l := MonthLabel(ym);
            l != [] && ',' !in l && '+' !in l && !IsSpace(l[0]) && !IsSpace(l[|l| - 1])
  {
    LabelText(ym);
    MonthTexts(ym);
    DigitsExclude(NatToString(ym.month), ',');
    DigitsExclude(NatToString(ym.year), ',');
  }

  /** A label followed by anything reads back as its month. */
  lemma LabelReads(ym: YearMonth, rest: string)
    requires FourDigitMonth(ym)
    ensures InvoiceMonth(MonthLabel(ym) + rest) == Some(ym)
  {
    LabelText(ym);
    MonthTexts(ym);
    YearDigits(ym.year);
    var m, y := NatToString(ym.month), NatToString(ym.year);
    SingleMonthAtStart(m, y, rest);
  }

  lemma TrimLeadingSpace(l: string)
    requires l != [] && !IsSpace(l[0]) && !IsSpace(l[|l| - 1])
    ensures Trim(" " + l) == l
  {
    assert (" " + l)[1..] == l;
    TrimNoop(l);
  }

  /** A label text: not empty, no `+`, no `,`, no white space at either end. */
  predicate IsLabel(l: string) {
    l != [] && '+' !in l && ',' !in l && !IsSpace(l[0]) && !IsSpace(l[|l| - 1])
  }

  lemma LabelsAreLabels(ms: seq<YearMonth>)
    requires forall k :: 0 <= k < |ms| ==> FourDigitMonth(ms[k])
    ensures forall k :: 0 <= k < |MonthLabels(ms)| ==> IsLabel(MonthLabels(ms)[k])
  {
    forall k | 0 <= k < |ms| ensures IsLabel(MonthLabels(ms)[k]) {
      LabelShape(ms[k]);
    }
  }

  /** `ls.join(', ')`: no `+`, no white space at either end, and the first
      label in front. */
  lemma JoinedLabels(ls: seq<string>)
    requires |ls| >= 1 && forall k :: 0 <= k < |ls| ==> IsLabel(ls[k])
    ensures var j := Join(ls, ", ");
            j != [] && '+' !in j && !IsSpace(j[0]) && !IsSpace(j[|j| - 1])
            && |j| >= |ls[0]| && j == ls[0] + j[|ls[0]|..]
  {
    assert forall k :: 0 <= k < |ls| ==> '+' !in ls[k];
    JoinExcludes(ls, ", ", '+');
    JoinEnds(ls, ", ");
    assert IsLabel(ls[0]) && IsLabel(ls[|ls| - 1]);
    JoinedEnds(Join(ls, ", "), ls[0], ls[|ls| - 1]);
  }

  lemma JoinedEnds(j: string, f: string, l: string)
    requires f != [] && !IsSpace(f[0]) && l != [] && !IsSpace(l[|l| - 1])
    requires |j| >= |f| && j[..|f|] == f && |j| >= |l| && j[|j| - |l|..] == l
    ensures j != [] && !IsSpace(j[0]) && !IsSpace(j[|j| - 1]) && j == f + j[|f|..]
  {
    assert j[0] == j[..|f|][0];
    assert j[|j| - 1] == j[|j| - |l|..][|l| - 1];
    assert j == j[..|f|] + j[|f|..];
  }

  /** Splitting the expansion of a range on `,`: the first label, then every
      further label after its space. */
  lemma DisplaySplits(ms: seq<YearMonth>)
    requires |ms| >= 1 && forall k :: 0 <= k < |ms| ==> FourDigitMonth(ms[k])
    ensures var ls := MonthLabels(ms);
            SplitEnds(DisplayList(ms), ls[0], ls[|ms| - 1], |ms|)
  {
    LabelsEnds(ms);
    LabelListSplits(ms, DisplayList(ms));
  }

  lemma LabelsEnds(ms: seq<YearMonth>)
    requires |ms| >= 1
    ensures DisplayList(ms) == Join(MonthLabels(ms), ", ")
  {
  }

  lemma LabelListSplits(ms: seq<YearMonth>, j: string)
    requires |ms| >= 1 && forall k :: 0 <= k < |ms| ==> FourDigitMonth(ms[k])
    requires j == Join(MonthLabels(ms), ", ")
    ensures var ls := MonthLabels(ms);
            SplitEnds(j, ls[0], ls[|ms| - 1], |ms|)
  {
    LabelsAreLabels(ms);
    SplitOfLabels(ms, j);
  }

  lemma SplitOfLabels(ms: seq<YearMonth>, j: string)
    requires |ms| >= 1 && forall k :: 0 <= k < |MonthLabels(ms)| ==> IsLabel(MonthLabels(ms)[k])
    requires j == Join(MonthLabels(ms), ", ")
    ensures var ls := MonthLabels(ms);
            SplitEnds(j, ls[0], ls[|ms| - 1], |ms|)
  {
    LabelsSplit(j, MonthLabels(ms), |ms|);
  }

  lemma LabelsSplit(j: string, ls: seq<string>, n: int)
    requires n == |ls| >= 1 && forall k :: 0 <= k < |ls| ==> IsLabel(ls[k])
    requires j == Join(ls, ", ")
    ensures SplitEnds(j, ls[0], ls[n - 1], n)
  {
    forall k | 0 <= k < |ls| ensures ',' !in ls[k] {
      assert IsLabel(ls[k]);
    }
    SplitCommaList(ls);
  }

  lemma {:induction false} TrimAllAt(items: seq<string>, k: int)
    requires 0 <= k < |items|
    ensures TrimAll(items)[k] == Trim(items[k])
    decreases |items|
  {
    var p := items[..|items| - 1];
    assert TrimAll(items) == TrimAll(p) + [Trim(items[|items| - 1])];
    if k < |items| - 1 {
      TrimAllAt(p, k);
      assert p[k] == items[k];
    }
  }

  lemma CommaPartsEnds(text: string, f: string, l: string, n: nat)
    requires IsLabel(f) && IsLabel(l) && n >= 1
    requires var r := Split(text, ',');
             |r| == n && r[0] == f && (n > 1 ==> r[n - 1] == " " + l) && (n == 1 ==> f == l)
    ensures var p := CommaParts(text);
            |p| == n && p[0] == f && p[n - 1] == l
  {
    TrimNoop(f);
    TrimAllAt(Split(text, ','), 0);
    TrimAllAt(Split(text, ','), n - 1);
    if n > 1 {
      TrimLeadingSpace(l);
    }
  }

  /** The label from tokens whose first and last read as `a` and `b`. */
  lemma InvoiceLabelOfEnds(text: string, parts: seq<string>, a: YearMonth, b: YearMonth)
    requires |parts| >= 1 && InvoiceMonth(parts[0]) == Some(a) && InvoiceMonth(parts[|parts| - 1]) == Some(b)
    ensures InvoiceLabel(text, parts) == if |parts| == 1 then MonthLabel(a) else SpanLabel(a, b)
  {
  }

  lemma LastOf(parts: seq<string>, l: string, n: nat)
    requires n >= 1 && |parts| == n && parts[n - 1] == l
    ensures parts[|parts| - 1] == l
  {
  }

  /** The months of the range `a` to `b` and the label their expansion starts with. */
  lemma RangeEnds(a: YearMonth, b: YearMonth, lo: int, hi: int)
    requires FourDigitMonth(a) && FourDigitMonth(b) && lo == Index(a) <= hi == Index(b)
    ensures var r := RangeMonths(lo, hi);
            |r| >= 1 && r[0] == a && r[|r| - 1] == b && (|r| == 1 <==> a == b)
            && forall k :: 0 <= k < |r| ==> FourDigitMonth(r[k])
  {
    IndexRoundTrip(a);
    IndexRoundTrip(b);
    RangeFourDigit(a, b, lo, hi);
  }

  /** As the source has it: whatever months the source's expansion gives a
      text, its invoice label is only the first of them. */
  lemma InvoiceOfExpansionAsWritten(text: string, ms: seq<YearMonth>)
    requires |ms| >= 1 && forall k :: 0 <= k < |ms| ==> FourDigitMonth(ms[k])
    requires text != "" && ExpandedMonthsAsWritten(text) == DisplayList(ms)
    ensures FormatMonthsRangeForInvoice(text) == MonthLabel(ms[0])
  {
    var j := DisplayList(ms);
    LabelsAreLabels(ms);
    JoinedLabels(MonthLabels(ms));
    AsWrittenOfJoin(text, j, MonthLabel(ms[0]), ms[0]);
  }

  lemma AsWrittenOfJoin(text: string, j: string, f: string, a: YearMonth)
    requires FourDigitMonth(a) && f == MonthLabel(a)
    requires text != "" && ExpandedMonthsAsWritten(text) == j
    requires j != [] && '+' !in j && !IsSpace(j[0]) && !IsSpace(j[|j| - 1]) && |j| >= |f| && j == f + j[|f|..]
    ensures FormatMonthsRangeForInvoice(text) == MonthLabel(a)
  {
    PartsOfOne(j);
    LabelReads(a, j[|f|..]);
    AsWrittenLabel(text, j, a);
  }

  lemma PartsOfOne(j: string)
    requires j != [] && '+' !in j && !IsSpace(j[0]) && !IsSpace(j[|j| - 1])
    ensures Parts(j) == [j]
  {
    TrimNoop(j);
    assert Split(j, '+') == [j];
  }

  lemma AsWrittenLabel(text: string, j: string, a: YearMonth)
    requires text != "" && ExpandedMonthsAsWritten(text) == j && Parts(j) == [j] && InvoiceMonth(j) == Some(a)
    ensures FormatMonthsRangeForInvoice(text) == MonthLabel(a)
  {
    InvoiceLabelOfEnds(text, [j], a, a);
  }

  /** Split on `,`: the label names the first month the text expands to, and
      the last after ` tới ` when there are several. */
  lemma InvoiceOfExpansionCorrected(text: string, ms: seq<YearMonth>)
    requires |ms| >= 1 && forall k :: 0 <= k < |ms| ==> FourDigitMonth(ms[k])
    requires text != "" && ExpandedMonths(text) == DisplayList(ms)
    ensures FormatMonthsRangeForInvoiceCorrected(text)
            == if |ms| == 1 then MonthLabel(ms[0]) else SpanLabel(ms[0], ms[|ms| - 1])
  {
    var j := DisplayList(ms);
    CorrectedOfExpansion(text, j);
    var ls := MonthLabels(ms);
    DisplaySplits(ms);
    LabelReadsAt(ms, 0);
    LabelReadsAt(ms, |ms| - 1);
    CorrectedOfSplit(text, j, ls[0], ls[|ms| - 1], ms[0], ms[|ms| - 1], |ms|);
  }

  lemma LabelReadsAt(ms: seq<YearMonth>, k: int)
    requires 0 <= k < |ms| && FourDigitMonth(ms[k])
    ensures ReadsAs(MonthLabels(ms)[k], ms[k])
  {
    LabelReadsAlone(ms[k]);
  }

  lemma CorrectedOfExpansion(t: string, j: string)
    requires t != "" && ExpandedMonths(t) == j
    ensures FormatMonthsRangeForInvoiceCorrected(t) == InvoiceLabel(t, CommaParts(j))
  {
  }

  /** `j` split on `,` is `f`, then `n - 2` more items, then ` l`. */
  predicate SplitEnds(j: string, f: string, l: string, n: int) {
    var r := Split(j, ',');
    n >= 1 && |r| == n && r[0] == f && (n > 1 ==> r[n - 1] == " " + l) && (n == 1 ==> f == l)
  }

  /** `l` is a label that reads as `ym`. */
  predicate ReadsAs(l: string, ym: YearMonth) {
    IsLabel(l) && InvoiceMonth(l) == Some(ym)
  }

  lemma LabelReadsAlone(ym: YearMonth)
    requires FourDigitMonth(ym)
    ensures ReadsAs(MonthLabel(ym), ym)
  {
    LabelShape(ym);
    LabelReads(ym, "");
    assert MonthLabel(ym) + "" == MonthLabel(ym);
  }

  /** The label from an expansion that splits on `,` into labels `f`, ..., `l`
      that read as `a` and `b`. */
  lemma CorrectedOfSplit(text: string, j: string, f: string, l: string, a: YearMonth, b: YearMonth, n: int)
    requires SplitEnds(j, f, l, n) && ReadsAs(f, a) && ReadsAs(l, b)
    ensures InvoiceLabel(text, CommaParts(j))
            == if n == 1 then MonthLabel(a) else SpanLabel(a, b)
  {
    CommaPartsEnds(j, f, l, n);
    LastOf(CommaParts(j), l, n);
    InvoiceLabelOfEnds(text, CommaParts(j), a, b);
  }

  /** The range `a tới b` is not empty and expands to the months from `a` to
      `b`, returned as `ms`. */
  lemma RangeExpansion(a: YearMonth, b: YearMonth, lo: int, hi: int) returns (ms: seq<YearMonth>)
    requires FourDigitMonth(a) && FourDigitMonth(b) && lo == Index(a) <= hi == Index(b)
    ensures |ms| >= 1 && ms[0] == a && ms[|ms| - 1] == b && (|ms| == 1 <==> a == b)
    ensures forall k :: 0 <= k < |ms| ==> FourDigitMonth(ms[k])
    ensures RangeText(a, b) != "" && ExpandedMonths(RangeText(a, b)) == DisplayList(ms)
    ensures ExpandedMonthsAsWritten(RangeText(a, b)) == DisplayList(ms)
  {
    ms := RangeMonths(lo, hi);
    RangeEnds(a, b, lo, hi);
    ExpandRangeText(a, b);
    RangeTextShape(a, b);
  }

  /** The range `a tới b`: as the source has it, the label names only `a`. */
  lemma InvoiceOfRangeAsWritten(a: YearMonth, b: YearMonth, lo: int, hi: int)
    requires FourDigitMonth(a) && FourDigitMonth(b) && lo == Index(a) <= hi == Index(b)
    ensures FormatMonthsRangeForInvoice(RangeText(a, b)) == MonthLabel(a)
  {
    var ms := RangeExpansion(a, b, lo, hi);
    InvoiceOfExpansionAsWritten(RangeText(a, b), ms);
  }

  /** The range `a tới b`, split on `,`: the label names `a`, and `b` after
      ` tới ` when the range has more than one month. */
  lemma InvoiceOfRangeCorrected(a: YearMonth, b: YearMonth, lo: int, hi: int)
    requires FourDigitMonth(a) && FourDigitMonth(b) && lo == Index(a) <= hi == Index(b)
    ensures FormatMonthsRangeForInvoiceCorrected(RangeText(a, b))
            == if a == b then MonthLabel(a) else SpanLabel(a, b)
  {
    var ms := RangeExpansion(a, b, lo, hi);
    InvoiceOfExpansionCorrected(RangeText(a, b), ms);
  }
}
