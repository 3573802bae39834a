/** Facts about the concrete texts the month codec reads and writes: which
    pattern matches them, and with what captures. */
module MonthText {
  import opened JsText
  import opened Calendar
  import opened Patterns

  /** A month the texts write with a four-digit year. */
  predicate FourDigitMonth(ym: YearMonth) { ValidMonth(ym) && 1000 <= ym.year <= 9999 }

  lemma MonthDigits(m: int)
    requires 1 <= m <= 12
    ensures 1 <= |NatToString(m)| <= 2 && AllDigits(NatToString(m)) && DigitsValue(NatToString(m)) == m
  {
    NatToStringLength(m);
    NatToStringDigits(m);
  }

  lemma YearDigits(y: int)
    requires 1000 <= y <= 9999
    ensures |NatToString(y)| == 4 && AllDigits(NatToString(y)) && DigitsValue(NatToString(y)) == y
  {
    NatToStringLength(y);
    NatToStringDigits(y);
  }

  // ---------------------------------------------------------------------------
  // Matching steps

  /** The captures of one element followed by those of the rest of the pattern. */
  function Prepend(c: string, r: Option<seq<string>>): Option<seq<string>> {
    match r
    case None => None
    case Some(cs) => Some([c] + cs)
  }

  /** A literal at the start of `w + b` leaves `b` to the rest of the pattern. */
  lemma LitLead(w: string, rest: Pat, b: string)
    ensures MatchFrom(Then(Lit(w), rest), w + b, 0) == MatchFrom(rest, b, 0)
  {
    assert (w + b)[0..|w|] == w;
    MatchShift(rest, w, b, 0);
    var t := MatchFrom(rest, b, 0);
    if t.Some? { assert [] + t.value == t.value; }
  }

  /** A literal fails where the text starts with a different character. */
  lemma LitMiss(c: char, rest: Pat, s: string)
    requires s != [] && s[0] != c
    ensures MatchFrom(Then(Lit([c]), rest), s, 0).None?
  {
    assert s[0..1][0] == s[0];
  }

  /** One white space character before a character that is not white space. */
  lemma SpaceLead(e: Elem, rest: Pat, b: string)
    requires e == Spaces0 || e == Spaces1
    requires b != [] && !IsSpace(b[0])
    ensures MatchFrom(Then(e, rest), " " + b, 0) == MatchFrom(rest, b, 0)
  {
    var s := " " + b;
    assert s[0] == ' ' && s[1] == b[0];
    assert SkipSpaces(s, 1) == 1;
    assert SkipSpaces(s, 0) == 1;
    MatchShift(rest, " ", b, 0);
    var t := MatchFrom(rest, b, 0);
    if t.Some? { assert [] + t.value == t.value; }
  }

  /** `\s*` matches nothing before a character that is not white space. */
  lemma NoSpaceLead(rest: Pat, b: string)
    requires b != [] && !IsSpace(b[0])
    ensures MatchFrom(Then(Spaces0, rest), b, 0) == MatchFrom(rest, b, 0)
  {
    var t := MatchFrom(rest, b, 0);
    if t.Some? { assert [] + t.value == t.value; }
  }

  /** `(\d{4})` takes the four digits at the start of `y + b`. */
  lemma Cap4Lead(y: string, rest: Pat, b: string)
    requires |y| == 4 && AllDigits(y)
    ensures MatchFrom(Then(Cap4, rest), y + b, 0) == Prepend(y, MatchFrom(rest, b, 0))
  {
    assert (y + b)[0..4] == y;
    MatchShift(rest, y, b, 0);
  }

  /** `(\d{1,2})` takes the one or two digits at the start of `m + b` when `b`
      does not start with a digit. */
  lemma Cap12Lead(m: string, rest: Pat, b: string)
    requires 1 <= |m| <= 2 && AllDigits(m) && b != [] && !IsDigit(b[0])
    ensures MatchFrom(Then(Cap12, rest), m + b, 0) == Prepend(m, MatchFrom(rest, b, 0))
  {
    var s := m + b;
    if |m| == 1 {
      assert s[0..1] == m;
      assert s[1] == b[0];
      assert !AllDigits(s[0..2]) by { assert s[0..2][1] == s[1]; }
      assert IsDigit(s[0]) by { assert s[0] == m[0]; }
    } else {
      assert s[0..2] == m;
    }
    assert Step(Cap12, s, 0) == Some((|m|, [m]));
    MatchShift(rest, m, b, 0);
  }

  /** The leftmost match is the one at the start when there is one there. */
  lemma MatchAtStart(p: Pat, s: string)
    requires MatchFrom(p, s, 0).Some?
    ensures Match(p, s) == MatchFrom(p, s, 0)
  {
  }

  // ---------------------------------------------------------------------------
  // The `tới` test

  /** No white space character is followed by `t`. */
  predicate NoSpaceBeforeT(s: string) {
    forall k :: 0 <= k < |s| - 1 ==> !(s[k] == ' ' && s[k + 1] == 't')
  }

  lemma NoToi(s: string)
    requires NoSpaceBeforeT(s)
    ensures !Contains(s, " tới ")
  {
    forall i | 0 <= i <= |s| ensures !OccursAt(s, " tới ", i) {
      if i + 5 <= |s| {
        assert s[i..i + 5][0] == s[i] && s[i..i + 5][1] == s[i + 1];
      }
    }
  }

  lemma NoSpaceBeforeTConcat(a: string, b: string)
    requires NoSpaceBeforeT(a) && NoSpaceBeforeT(b)
    requires a != [] && b != [] ==> !(a[|a| - 1] == ' ' && b[0] == 't')
    ensures NoSpaceBeforeT(a + b)
  {
    var s := a + b;
    forall k | 0 <= k < |s| - 1 ensures !(s[k] == ' ' && s[k + 1] == 't') {
      if k < |a| - 1 {
        assert s[k] == a[k] && s[k + 1] == a[k + 1];
      } else if k == |a| - 1 {
        assert s[k] == a[k] && s[k + 1] == b[0];
      } else {
        assert s[k] == b[k - |a|] && s[k + 1] == b[k + 1 - |a|];
      }
    }
  }

  lemma DigitsNoSpaceBeforeT(d: string)
    requires AllDigits(d)
    ensures NoSpaceBeforeT(d)
  {
    forall k | 0 <= k < |d| - 1 ensures !(d[k] == ' ' && d[k + 1] == 't') {
      assert IsDigit(d[k]);
    }
  }

  /** `"Tháng " + m + "/" + y`: every space is followed by a digit. */
  lemma TokenNoSpaceBeforeT(m: string, y: string)
    requires AllDigits(m) && AllDigits(y) && m != []
    ensures NoSpaceBeforeT("Tháng " + m + "/" + y)
  {
    DigitsNoSpaceBeforeT(m);
    DigitsNoSpaceBeforeT(y);
    assert NoSpaceBeforeT("Tháng ");
    assert IsDigit(m[0]);
    NoSpaceBeforeTConcat("Tháng ", m);
    assert NoSpaceBeforeT("/");
    NoSpaceBeforeTConcat("Tháng " + m, "/");
    NoSpaceBeforeTConcat("Tháng " + m + "/", y);
  }

  lemma {:induction false} JoinNoSpaceBeforeT(xs: seq<string>, c: char)
    requires c != ' ' && c != 't'
    requires forall k :: 0 <= k < |xs| ==> NoSpaceBeforeT(xs[k])
    ensures NoSpaceBeforeT(Join(xs, [c]))
    decreases |xs|
  {
    if |xs| > 1 {
      JoinNoSpaceBeforeT(xs[1..], c);
      assert NoSpaceBeforeT([c]);
      NoSpaceBeforeTConcat(xs[0], [c]);
      NoSpaceBeforeTConcat(xs[0] + [c], Join(xs[1..], [c]));
      assert Join(xs, [c]) == xs[0] + [c] + Join(xs[1..], [c]);
    }
  }

  // ---------------------------------------------------------------------------
  // The four patterns on the texts the application writes

  /** The month and year digits of an `M/YYYY` text. */
  predicate MonthYearDigits(m: string, y: string) {
    1 <= |m| <= 2 && AllDigits(m) && |y| == 4 && AllDigits(y)
  }

  /** `(\d{1,2})\/(\d{4})` followed by `q` on `M/YYYY` followed by `b`. */
  lemma MonthYearLead(m: string, y: string, q: Pat, b: string)
    requires MonthYearDigits(m, y)
    ensures MatchFrom(Then(Cap12, Then(Lit("/"), Then(Cap4, q))), m + ("/" + (y + b)), 0)
            == Prepend(m, Prepend(y, MatchFrom(q, b, 0)))
  {
    Cap12Lead(m, Then(Lit("/"), Then(Cap4, q)), "/" + (y + b));
    LitLead("/", Then(Cap4, q), y + b);
    Cap4Lead(y, q, b);
  }

  /** `(\d{1,2})\/(\d{4})` on a whole `M/YYYY` text. */
  lemma MonthYearWhole(m: string, y: string)
    requires MonthYearDigits(m, y)
    ensures MatchFrom(Then(Cap12, Then(Lit("/"), Then(Cap4, End))), m + ("/" + (y + [])), 0) == Some([m, y])
  {
    MonthYearLead(m, y, End, []);
    assert [m] + ([y] + []) == [m, y];
  }

  /** `Tháng\s*` on `Tháng ` followed by a character that is not white space. */
  lemma ThangLead(q: Pat, b: string)
    requires b != [] && !IsSpace(b[0])
    ensures MatchFrom(Then(Lit("Tháng"), Then(Spaces0, q)), "Tháng" + (" " + b), 0) == MatchFrom(q, b, 0)
  {
    LitLead("Tháng", Then(Spaces0, q), " " + b);
    SpaceLead(Spaces0, q, b);
  }

  /** `\s+tới\s+(\d{1,2})\/(\d{4})` on ` tới M/YYYY`. */
  lemma ToiTail(m: string, y: string)
    requires MonthYearDigits(m, y)
    ensures MatchFrom(Then(Spaces1, Then(Lit("tới"), Then(Spaces1, Then(Cap12, Then(Lit("/"), Then(Cap4, End)))))),
                      " " + ("tới" + (" " + (m + ("/" + (y + []))))), 0) == Some([m, y])
  {
    var q := Then(Cap12, Then(Lit("/"), Then(Cap4, End)));
    var b := m + ("/" + (y + []));
    assert b[0] == m[0];
    SpaceLead(Spaces1, Then(Lit("tới"), Then(Spaces1, q)), "tới" + (" " + b));
    LitLead("tới", Then(Spaces1, q), " " + b);
    SpaceLead(Spaces1, q, b);
    MonthYearWhole(m, y);
  }

  /** `\s*-\s*(\d{1,2})\/(\d{4})` on ` - M/YYYY`. */
  lemma DashTail(m: string, y: string)
    requires MonthYearDigits(m, y)
    ensures MatchFrom(Then(Spaces0, Then(Lit("-"), Then(Spaces0, Then(Cap12, Then(Lit("/"), Then(Cap4, End)))))),
                      " " + ("-" + (" " + (m + ("/" + (y + []))))), 0) == Some([m, y])
  {
    var q := Then(Cap12, Then(Lit("/"), Then(Cap4, End)));
    var b := m + ("/" + (y + []));
    assert b[0] == m[0];
    SpaceLead(Spaces0, Then(Lit("-"), Then(Spaces0, q)), "-" + (" " + b));
    LitLead("-", Then(Spaces0, q), " " + b);
    SpaceLead(Spaces0, q, b);
    MonthYearWhole(m, y);
  }

  lemma SingleText(m: string, y: string, rest: string)
    ensures "Tháng " + m + "/" + y + rest == "Tháng" + (" " + (m + ("/" + (y + rest))))
  {
  }

  lemma ToiText(m1: string, y1: string, m2: string, y2: string)
    ensures m1 + "/" + y1 + " tới " + m2 + "/" + y2
            == m1 + ("/" + (y1 + (" " + ("tới" + (" " + (m2 + ("/" + (y2 + []))))))))
  {
  }

  lemma RunText(m1: string, m2: string, y: string)
    ensures "Tháng " + m1 + "-" + m2 + "/" + y == "Tháng" + (" " + (m1 + ("-" + (m2 + ("/" + (y + []))))))
  {
  }

  lemma CrossText(m1: string, y1: string, m2: string, y2: string)
    ensures "Tháng " + m1 + "/" + y1 + " - " + m2 + "/" + y2
            == "Tháng" + (" " + (m1 + ("/" + (y1 + (" " + ("-" + (" " + (m2 + ("/" + (y2 + []))))))))))
  {
  }

  /** `Tháng\s*(\d{1,2})\/(\d{4})` at the start of a `Tháng M/YYYY` token. */
  lemma SingleMonthAtStart(m: string, y: string, rest: string)
    requires MonthYearDigits(m, y)
    ensures Match(SingleMonth, "Tháng " + m + "/" + y + rest) == Some([m, y])
  {
    var b := m + ("/" + (y + rest));
    SingleText(m, y, rest);
    assert b[0] == m[0];
    ThangLead(Then(Cap12, Then(Lit("/"), Then(Cap4, End))), b);
    MonthYearLead(m, y, End, rest);
    assert [m] + ([y] + []) == [m, y];
    MatchAtStart(SingleMonth, "Tháng" + (" " + b));
  }

  /** `(\d{1,2})\/(\d{4})\s+tới\s+(\d{1,2})\/(\d{4})` on `M1/Y1 tới M2/Y2`. */
  lemma ToiRangeAtStart(m1: string, y1: string, m2: string, y2: string)
    requires MonthYearDigits(m1, y1) && MonthYearDigits(m2, y2)
    ensures Match(ToiRange, m1 + "/" + y1 + " tới " + m2 + "/" + y2) == Some([m1, y1, m2, y2])
  {
    var mid := " " + ("tới" + (" " + (m2 + ("/" + (y2 + [])))));
    ToiText(m1, y1, m2, y2);
    MonthYearLead(m1, y1, Then(Spaces1, Then(Lit("tới"), Then(Spaces1, Then(Cap12, Then(Lit("/"), Then(Cap4, End)))))), mid);
    ToiTail(m2, y2);
    assert [m1] + ([y1] + [m2, y2]) == [m1, y1, m2, y2];
    MatchAtStart(ToiRange, m1 + ("/" + (y1 + mid)));
  }

  /** `Tháng\s*(\d{1,2})-(\d{1,2})\/(\d{4})` on `Tháng M1-M2/Y`. */
  lemma MonthRunAtStart(m1: string, m2: string, y: string)
    requires 1 <= |m1| <= 2 && AllDigits(m1) && MonthYearDigits(m2, y)
    ensures Match(MonthRun, "Tháng " + m1 + "-" + m2 + "/" + y) == Some([m1, m2, y])
  {
    var my := Then(Cap12, Then(Lit("/"), Then(Cap4, End)));
    var c := m2 + ("/" + (y + []));
    var b := m1 + ("-" + c);
    RunText(m1, m2, y);
    assert b[0] == m1[0];
    ThangLead(Then(Cap12, Then(Lit("-"), my)), b);
    Cap12Lead(m1, Then(Lit("-"), my), "-" + c);
    LitLead("-", my, c);
    MonthYearWhole(m2, y);
    assert [m1] + [m2, y] == [m1, m2, y];
    MatchAtStart(MonthRun, "Tháng" + (" " + b));
  }

  /** `Tháng\s*(\d{1,2})\/(\d{4})\s*-\s*(\d{1,2})\/(\d{4})` on `Tháng M1/Y1 - M2/Y2`. */
  lemma CrossRangeAtStart(m1: string, y1: string, m2: string, y2: string)
    requires MonthYearDigits(m1, y1) && MonthYearDigits(m2, y2)
    ensures Match(CrossRange, "Tháng " + m1 + "/" + y1 + " - " + m2 + "/" + y2) == Some([m1, y1, m2, y2])
  {
    var q := Then(Spaces0, Then(Lit("-"), Then(Spaces0, Then(Cap12, Then(Lit("/"), Then(Cap4, End))))));
    var mid := " " + ("-" + (" " + (m2 + ("/" + (y2 + [])))));
    var b := m1 + ("/" + (y1 + mid));
    CrossText(m1, y1, m2, y2);
    assert b[0] == m1[0];
    ThangLead(Then(Cap12, Then(Lit("/"), Then(Cap4, q))), b);
    MonthYearLead(m1, y1, q, mid);
    DashTail(m2, y2);
    assert [m1] + ([y1] + [m2, y2]) == [m1, y1, m2, y2];
    MatchAtStart(CrossRange, "Tháng" + (" " + b));
  }

  /** The `Tháng a-b/Y` pattern finds nothing in `Tháng M1/Y1 - M2/Y2`: its
      only `Tháng` is followed by a month and a `/`, not a `-`. */
  lemma MonthRunMissesCross(m1: string, y1: string, m2: string, y2: string)
    requires MonthYearDigits(m1, y1) && MonthYearDigits(m2, y2)
    ensures Match(MonthRun, "Tháng " + m1 + "/" + y1 + " - " + m2 + "/" + y2).None?
  {
    var tail := Then(Cap12, Then(Lit("/"), Then(Cap4, End)));
    var c := "/" + (y1 + (" " + ("-" + (" " + (m2 + ("/" + (y2 + [])))))));
    var b := m1 + c;
    CrossText(m1, y1, m2, y2);
    assert b[0] == m1[0];
    ThangLead(Then(Cap12, Then(Lit("-"), tail)), b);
    Cap12Lead(m1, Then(Lit("-"), tail), c);
    LitMiss('-', tail, c);
    CrossHasNoT(m1, y1, m2, y2);
    MonthRunOnlyAtStart("Tháng" + (" " + b), " " + b);
  }

  lemma CrossHasNoT(m1: string, y1: string, m2: string, y2: string)
    requires MonthYearDigits(m1, y1) && MonthYearDigits(m2, y2)
    ensures 'T' !in " " + (m1 + ("/" + (y1 + (" " + ("-" + (" " + (m2 + ("/" + (y2 + [])))))))))
  {
    DigitsExclude(m1, 'T');
    DigitsExclude(y1, 'T');
    DigitsExclude(m2, 'T');
    DigitsExclude(y2, 'T');
  }

  /** A text with one `T`, at its start, can match `MonthRun` only there. */
  lemma MonthRunOnlyAtStart(s: string, r: string)
    requires s == "Tháng" + r && 'T' !in r && MatchFrom(MonthRun, s, 0).None?
    ensures Match(MonthRun, s).None?
  {
    assert s[1..] == "háng" + r;
    assert 'T' !in s[1..];
    forall j | 1 <= j <= |s| ensures MatchFrom(MonthRun, s, j).None? {
      MonthRunMissesAt(s, j);
    }
    NoMatchFrom(MonthRun, s, 0);
  }

  /** `MonthRun` needs a `T` where it starts. */
  lemma MonthRunMissesAt(s: string, j: int)
    requires 1 <= j <= |s| && 'T' !in s[1..]
    ensures MatchFrom(MonthRun, s, j).None?
  {
    if j + 5 <= |s| {
      assert s[j..j + 5][0] == s[1..][j - 1];
    }
    assert !OccursAt(s, "Tháng", j);
    LiteralMissesAt("Tháng", Then(Spaces0, Then(Cap12, Then(Lit("-"), Then(Cap12, Then(Lit("/"), Then(Cap4, End)))))), s, j);
  }
}
