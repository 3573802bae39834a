/** What the paid-month reader promises about the keys it returns: each key
    at most once, each key a year, a `-` and a two-digit month, and a key is
    returned exactly when one of the history's texts covers it. */
module PaidKeyLaws {
  import opened JsText
  import opened Calendar
  import opened Patterns
  import opened MonthText
  import opened MonthCodec

  /** `YYYY-MM`: a run of digits, a `-`, then two digits. */
  predicate IsMonthKey(k: string) {
    |k| >= 4 && k[|k| - 3] == '-' && AllDigits(k[..|k| - 3]) && AllDigits(k[|k| - 2..])
  }

  /** A key whose year is written with exactly four digits. */
  predicate IsFourDigitKey(k: string) { |k| == 7 && IsMonthKey(k) }

  lemma KeyParts(y: string, m: string)
    requires y != [] && AllDigits(y) && |m| == 2 && AllDigits(m)
    ensures IsMonthKey(y + "-" + m)
  {
    var k := y + "-" + m;
    assert k[..|k| - 3] == y;
    assert k[|k| - 2..] == m;
  }

  lemma MonthKeyShape(ym: YearMonth)
    requires ValidMonth(ym) && ym.year >= 0
    ensures IsMonthKey(MonthKey(ym))
  {
    var y, m := IntToString(ym.year), Pad2(ym.month);
    assert y == NatToString(ym.year);
    NatToStringDigits(ym.year);
    Pad2Shape(ym.month);
    KeyParts(y, m);
  }

  /** A token's key has the four-digit year it captured and a padded month. */
  lemma TokenKeyShape(t: string)
    ensures forall k :: k in TokenKey(t) ==> IsFourDigitKey(k)
  {
    var m := Match(SingleMonth, t);
    if m.Some? {
      SingleMonthWidths(t);
      CaptureKey(m.value[0], m.value[1]);
    }
  }

  lemma CaptureKey(month: string, year: string)
    requires 1 <= |month| <= 2 && AllDigits(month) && |year| == 4 && AllDigits(year)
    ensures IsFourDigitKey(year + "-" + Pad2(DigitsValue(month)))
  {
    var mo := DigitsValue(month);
    DigitsBelow(month);
    Pad2Shape(mo);
    KeyParts(year, Pad2(mo));
  }

  lemma DigitsBelow(s: string)
    requires AllDigits(s) && |s| <= 2
    ensures DigitsValue(s) < 100
  {
    if |s| == 2 {
      assert s[..1][..0] == [];
    } else if |s| == 1 {
      assert s[..0] == [];
    }
  }

  lemma {:induction false} TokenKeysShape(ts: seq<string>)
    ensures forall k :: k in TokenKeys(ts) ==> IsFourDigitKey(k)
    decreases |ts|
  {
    if ts != [] {
      TokenKeysShape(ts[..|ts| - 1]);
      TokenKeyShape(ts[|ts| - 1]);
    }
  }

  /** The month index of captured digits is at least that of December 99:
      `new Date` reads years 0 to 99 as 1900 to 1999. */
  lemma MonthIndexOfLower(month: string, year: string)
    requires AllDigits(month) && AllDigits(year)
    ensures MonthIndexOf(month, year) >= 99 * 12 + 11
  {
  }

  lemma RangeKeysShape(lo: int, hi: int)
    requires lo >= 99 * 12 + 11
    ensures forall k :: k in MonthKeys(RangeMonths(lo, hi)) ==> IsMonthKey(k)
  {
    var ms := RangeMonths(lo, hi);
    forall k | k in MonthKeys(ms) ensures IsMonthKey(k) {
      var i :| 0 <= i < |ms| && MonthKeys(ms)[i] == k;
      assert Index(ms[i]) == lo + i;
      MonthKeyShape(ms[i]);
    }
  }

  /** Every key a `months_covered` text contributes is a month key; the
      year has four digits unless it comes from a `tới` range. */
  lemma CoveredKeysShape(text: string)
    ensures forall k :: k in CoveredKeys(text) ==> IsMonthKey(k)
    ensures !Contains(text, " tới ") ==> forall k :: k in CoveredKeys(text) ==> IsFourDigitKey(k)
  {
    if text != [] {
      if Contains(text, " tới ") {
        var m := Match(ToiRange, text);
        if m.Some? {
          MonthIndexOfLower(m.value[0], m.value[1]);
          RangeKeysShape(MonthIndexOf(m.value[0], m.value[1]), MonthIndexOf(m.value[2], m.value[3]));
        }
      } else {
        TokenKeysShape(Parts(text));
      }
    }
  }

  lemma PaidStep(history: seq<string>)
    requires history != []
    ensures var n := |history| - 1;
            PaidMonthKeys(history) == AppendNew(PaidMonthKeys(history[..n]), CoveredKeys(history[n]))
  {
  }

  /** `getPaidMonthsFromPaymentHistory` never returns a key twice. */
  lemma {:induction false} PaidMonthKeysDistinct(history: seq<string>)
    ensures NoDuplicates(PaidMonthKeys(history))
    decreases |history|
  {
    if history != [] {
      var n := |history| - 1;
      PaidMonthKeysDistinct(history[..n]);
      AppendNewKeepsDistinct(PaidMonthKeys(history[..n]), CoveredKeys(history[n]));
    }
  }

  /** A key is returned exactly when some text of the history covers it. */
  lemma {:induction false} PaidMonthKeysMembers(history: seq<string>, x: string)
    ensures x in PaidMonthKeys(history) <==> exists i :: 0 <= i < |history| && x in CoveredKeys(history[i])
    decreases |history|
  {
    if history != [] {
      PaidMonthKeysMembers(history[..|history| - 1], x);
      MembersStep(history, x);
    }
  }

  lemma MembersStep(history: seq<string>, x: string)
    requires history != []
    requires var p := history[..|history| - 1];
             x in PaidMonthKeys(p) <==> exists i :: 0 <= i < |p| && x in CoveredKeys(p[i])
    ensures x in PaidMonthKeys(history) <==> exists i :: 0 <= i < |history| && x in CoveredKeys(history[i])
  {
    var n := |history| - 1;
    PaidStep(history);
    AppendNewMembers(PaidMonthKeys(history[..n]), CoveredKeys(history[n]), x);
    SnocWitness(history, x, CoveredKeys);
  }

  /** Some text of `history` covers `x` exactly when one of the earlier texts
      covers it or the last one does. */
  lemma SnocWitness(history: seq<string>, x: string, covers: string -> seq<string>)
    requires history != []
    ensures var p := history[..|history| - 1];
            (exists i :: 0 <= i < |history| && x in covers(history[i])) <==>
            (exists i :: 0 <= i < |p| && x in covers(p[i])) || x in covers(history[|history| - 1])
  {
    var p := history[..|history| - 1];
    if i :| 0 <= i < |p| && x in covers(p[i]) {
      assert history[i] == p[i];
    }
    if i :| 0 <= i < |history| && x in covers(history[i]) {
      if i < |p| { assert p[i] == history[i]; }
    }
  }

  /** Every returned key is `YYYY-MM` with a zero-padded month. */
  lemma PaidMonthKeysShape(history: seq<string>)
    ensures forall k :: k in PaidMonthKeys(history) ==> IsMonthKey(k)
  {
    forall k | k in PaidMonthKeys(history) ensures IsMonthKey(k) {
      PaidMonthKeysMembers(history, k);
      var i :| 0 <= i < |history| && k in CoveredKeys(history[i]);
      CoveredKeysShape(history[i]);
    }
  }
}
