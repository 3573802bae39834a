/** The regular expressions the month codec uses with `String.prototype.match`
    (no `g` flag): the leftmost position where the pattern matches, and the
    captured groups there. Patterns are built from literals, `\s*`, `\s+`,
    `(\d{1,2})` and `(\d{4})`. Every element is matched greedily without
    backtracking. For the patterns below that finds exactly the matches of
    the backtracking semantics: each `(\d{1,2})` is followed by a literal `/`
    or `-`, so giving back a digit would put a digit where the literal must
    be, and each `\s` run is followed by a digit or by a literal that does
    not start with white space. */
module Patterns {
  import opened JsText

  datatype Elem =
    | Lit(w: string)   // the characters of `w`
    | Spaces0          // \s*
    | Spaces1          // \s+
    | Cap12            // (\d{1,2})
    | Cap4             // (\d{4})

  datatype Pat = End | Then(e: Elem, rest: Pat)

  function CapCount(p: Pat): nat {
    match p
    case End => 0
    case Then(e, rest) => (if e == Cap12 || e == Cap4 then 1 else 0) + CapCount(rest)
  }

  /** `(\d{1,2})\/(\d{4})\s+tới\s+(\d{1,2})\/(\d{4})` */
  const ToiRange: Pat :=
    Then(Cap12, Then(Lit("/"), Then(Cap4, Then(Spaces1, Then(Lit("tới"), Then(Spaces1,
    Then(Cap12, Then(Lit("/"), Then(Cap4, End)))))))))

  /** `Tháng\s*(\d{1,2})-(\d{1,2})\/(\d{4})` */
  const MonthRun: Pat :=
    Then(Lit("Tháng"), Then(Spaces0, Then(Cap12, Then(Lit("-"), Then(Cap12, Then(Lit("/"), Then(Cap4, End)))))))

  /** `Tháng\s*(\d{1,2})\/(\d{4})\s*-\s*(\d{1,2})\/(\d{4})` */
  const CrossRange: Pat :=
    Then(Lit("Tháng"), Then(Spaces0, Then(Cap12, Then(Lit("/"), Then(Cap4, Then(Spaces0, Then(Lit("-"),
    Then(Spaces0, Then(Cap12, Then(Lit("/"), Then(Cap4, End)))))))))))

  /** `Tháng\s*(\d{1,2})\/(\d{4})` */
  const SingleMonth: Pat :=
    Then(Lit("Tháng"), Then(Spaces0, Then(Cap12, Then(Lit("/"), Then(Cap4, End)))))

  /** The index after the white space that starts at `i`. */
  function SkipSpaces(s: string, i: nat): (j: nat)
    requires i <= |s|
    ensures i <= j <= |s|
    ensures forall k :: i <= k < j ==> IsSpace(s[k])
    ensures j < |s| ==> !IsSpace(s[j])
    decreases |s| - i
  {
    if i < |s| && IsSpace(s[i]) then SkipSpaces(s, i + 1) else i
  }

  /** Where element `e` matched at `i` ends, and the group it captures (if any). */
  function Step(e: Elem, s: string, i: nat): (r: Option<(nat, seq<string>)>)
    requires i <= |s|
    ensures r.Some? ==> i <= r.value.0 <= |s|
    ensures r.Some? ==> |r.value.1| == (if e == Cap12 || e == Cap4 then 1 else 0)
    ensures r.Some? ==> forall k :: 0 <= k < |r.value.1| ==> AllDigits(r.value.1[k])
    ensures r.Some? && e == Cap12 ==> 1 <= |r.value.1[0]| <= 2
    ensures r.Some? && e == Cap4 ==> |r.value.1[0]| == 4
  {
    match e
    case Lit(w) => if OccursAt(s, w, i) then Some((i + |w|, [])) else None
    case Spaces0 => Some((SkipSpaces(s, i), []))
    case Spaces1 =>
      var j := SkipSpaces(s, i);
      if j > i then Some((j, [])) else None
    case Cap4 =>
      if i + 4 <= |s| && AllDigits(s[i..i + 4]) then Some((i + 4, [s[i..i + 4]])) else None
    case Cap12 =>
      if i + 2 <= |s| && AllDigits(s[i..i + 2]) then Some((i + 2, [s[i..i + 2]]))
      else if i < |s| && IsDigit(s[i]) then Some((i + 1, [s[i..i + 1]]))
      else None
  }

  /** The captures of `p` matched exactly at position `i`, if it matches there. */
  function MatchFrom(p: Pat, s: string, i: nat): (r: Option<seq<string>>)
    requires i <= |s|
    ensures r.Some? ==> |r.value| == CapCount(p)
    ensures r.Some? ==> forall k :: 0 <= k < |r.value| ==> AllDigits(r.value[k])
    decreases p
  {
    match p
    case End => Some([])
    case Then(e, rest) =>
      var st := Step(e, s, i);
      if st.None? then None
      else
        var tail := MatchFrom(rest, s, st.value.0);
        if tail.None? then None else Some(st.value.1 + tail.value)
  }

  function FirstMatchFrom(p: Pat, s: string, i: nat): (r: Option<seq<string>>)
    requires i <= |s|
    ensures r.Some? ==> |r.value| == CapCount(p)
    ensures r.Some? ==> forall k :: 0 <= k < |r.value| ==> AllDigits(r.value[k])
    decreases |s| - i
  {
    var m := MatchFrom(p, s, i);
    if m.Some? then m else if i == |s| then None else FirstMatchFrom(p, s, i + 1)
  }

  /** `s.match(p)`: the captures of the leftmost match, `None` for `null`. */
  function Match(p: Pat, s: string): (r: Option<seq<string>>)
    ensures r.Some? ==> |r.value| == CapCount(p)
    ensures r.Some? ==> forall k :: 0 <= k < |r.value| ==> AllDigits(r.value[k])
  {
    FirstMatchFrom(p, s, 0)
  }

  /** The leftmost match is a match at some position. */
  lemma {:induction false} FirstMatchAt(p: Pat, s: string, i: nat)
    requires i <= |s| && FirstMatchFrom(p, s, i).Some?
    ensures exists j :: i <= j <= |s| && MatchFrom(p, s, j) == FirstMatchFrom(p, s, i)
    decreases |s| - i
  {
    if MatchFrom(p, s, i).None? {
      FirstMatchAt(p, s, i + 1);
    }
  }

  /** A match that starts with an element capturing nothing is a match of the
      rest of the pattern further on. */
  lemma UnfoldPlain(e: Elem, rest: Pat, s: string, i: nat) returns (j: nat)
    requires e != Cap12 && e != Cap4
    requires i <= |s| && MatchFrom(Then(e, rest), s, i).Some?
    ensures j <= |s| && MatchFrom(rest, s, j) == MatchFrom(Then(e, rest), s, i)
  {
    j := Step(e, s, i).value.0;
    var t := MatchFrom(rest, s, j).value;
    assert [] + t == t;
  }

  /** A match that starts with a group: the group's digits, then a match of the
      rest of the pattern further on. */
  lemma UnfoldGroup(e: Elem, rest: Pat, s: string, i: nat) returns (c: string, j: nat)
    requires e == Cap12 || e == Cap4
    requires i <= |s| && MatchFrom(Then(e, rest), s, i).Some?
    ensures e == Cap12 ==> 1 <= |c| <= 2
    ensures e == Cap4 ==> |c| == 4
    ensures j <= |s| && MatchFrom(rest, s, j).Some?
    ensures MatchFrom(Then(e, rest), s, i).value == [c] + MatchFrom(rest, s, j).value
  {
    var st := Step(e, s, i).value;
    j := st.0;
    c := st.1[0];
    assert st.1 == [c];
  }

  /** The month that `Tháng\s*(\d{1,2})\/(\d{4})` captures has one or two
      digits, the year four. */
  lemma SingleMonthWidths(s: string)
    requires Match(SingleMonth, s).Some?
    ensures 1 <= |Match(SingleMonth, s).value[0]| <= 2 && |Match(SingleMonth, s).value[1]| == 4
  {
    FirstMatchAt(SingleMonth, s, 0);
    var j0 :| 0 <= j0 <= |s| && MatchFrom(SingleMonth, s, j0) == Match(SingleMonth, s);
    var j1 := UnfoldPlain(Lit("Tháng"), Then(Spaces0, Then(Cap12, Then(Lit("/"), Then(Cap4, End)))), s, j0);
    var j2 := UnfoldPlain(Spaces0, Then(Cap12, Then(Lit("/"), Then(Cap4, End))), s, j1);
    var m, j3 := UnfoldGroup(Cap12, Then(Lit("/"), Then(Cap4, End)), s, j2);
    var j4 := UnfoldPlain(Lit("/"), Then(Cap4, End), s, j3);
    var y, j5 := UnfoldGroup(Cap4, End, s, j4);
    assert Match(SingleMonth, s).value == [m] + ([y] + []);
  }

  /** No match is found when the pattern fails at every position from `i` on. */
  lemma {:induction false} NoMatchFrom(p: Pat, s: string, i: nat)
    requires i <= |s|
    requires forall j :: i <= j <= |s| ==> MatchFrom(p, s, j).None?
    ensures FirstMatchFrom(p, s, i).None?
    decreases |s| - i
  {
    if i < |s| { NoMatchFrom(p, s, i + 1); }
  }

  /** A pattern that starts with a literal fails where the literal does not occur. */
  lemma LiteralMissesAt(w: string, rest: Pat, s: string, j: nat)
    requires j <= |s| && !OccursAt(s, w, j)
    ensures MatchFrom(Then(Lit(w), rest), s, j).None?
  {
  }

  /** A pattern that starts with a literal cannot match where the literal does not occur. */
  lemma NoMatchWithoutLiteral(w: string, rest: Pat, s: string)
    requires !Contains(s, w)
    ensures Match(Then(Lit(w), rest), s).None?
  {
    forall j | 0 <= j <= |s| ensures MatchFrom(Then(Lit(w), rest), s, j).None? {
      assert !OccursAt(s, w, j);
    }
    NoMatchFrom(Then(Lit(w), rest), s, 0);
  }

  lemma {:induction false} SkipShift(a: string, b: string, j: nat)
    requires j <= |b|
    ensures SkipSpaces(a + b, |a| + j) == |a| + SkipSpaces(b, j)
    decreases |b| - j
  {
    if j < |b| {
      assert (a + b)[|a| + j] == b[j];
      if IsSpace(b[j]) { SkipShift(a, b, j + 1); }
    }
  }

  /** An element does not look before its position. */
  lemma StepShift(e: Elem, a: string, b: string, j: nat)
    requires j <= |b|
    ensures var r := Step(e, b, j);
            Step(e, a + b, |a| + j) == if r.None? then None else Some((|a| + r.value.0, r.value.1))
  {
    var s := a + b;
    var i := |a| + j;
    match e
    case Lit(w) =>
      if j + |w| <= |b| { assert s[i..i + |w|] == b[j..j + |w|]; }
    case Spaces0 => SkipShift(a, b, j);
    case Spaces1 => SkipShift(a, b, j);
    case Cap4 =>
      if j + 4 <= |b| { assert s[i..i + 4] == b[j..j + 4]; }
    case Cap12 =>
      if j + 2 <= |b| { assert s[i..i + 2] == b[j..j + 2]; }
      if j + 1 <= |b| { assert s[i..i + 1] == b[j..j + 1]; }
  }

  /** Matching depends only on the text from the match position on. */
  lemma {:induction false} MatchShift(p: Pat, a: string, b: string, j: nat)
    requires j <= |b|
    ensures MatchFrom(p, a + b, |a| + j) == MatchFrom(p, b, j)
    decreases p
  {
    match p
    case End =>
    case Then(e, rest) =>
      StepShift(e, a, b, j);
      var st := Step(e, b, j);
      if st.Some? {
        MatchShift(rest, a, b, st.value.0);
      }
  }
}
