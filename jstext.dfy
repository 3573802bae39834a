/** The JavaScript string built-ins the billing engine relies on, written out
    for `string == seq<char>`: `String(n)`, `padStart`, `parseInt`, `includes`,
    `split` on one character, `join`, `trim`, and the `new Set(...)`
    de-duplication that keeps first occurrences. */
module JsText {

  datatype Option<T> = None | Some(value: T)

  predicate IsDigit(c: char) { '0' <= c <= '9' }

  /** The characters matched by `\s` and removed by `trim()`: ECMAScript
      WhiteSpace and LineTerminator. */
  predicate IsSpace(c: char) {
    c == ' ' || c == '\t' || c == '\n' || c == '\r' || c == '\U{000B}' || c == '\U{000C}'
    || c == '\U{00A0}' || c == '\U{1680}' || ('\U{2000}' <= c <= '\U{200A}')
    || c == '\U{2028}' || c == '\U{2029}' || c == '\U{202F}' || c == '\U{205F}'
    || c == '\U{3000}' || c == '\U{FEFF}'
  }

  predicate AllDigits(s: string) { forall k :: 0 <= k < |s| ==> IsDigit(s[k]) }

  function DigitChar(d: nat): (c: char)
    requires d < 10
    ensures IsDigit(c)
  {
    ('0' as int + d) as char
  }

  function DigitValue(c: char): (d: nat)
    requires IsDigit(c)
    ensures d < 10 && DigitChar(d) == c
  {
    c as int - '0' as int
  }

  lemma DigitsExclude(s: string, c: char)
    requires AllDigits(s) && !IsDigit(c)
    ensures c !in s
  {
  }

  /** The numeric value of a run of decimal digits. */
  function DigitsValue(s: string): nat
    requires AllDigits(s)
  {
    if s == [] then 0 else DigitsValue(s[..|s| - 1]) * 10 + DigitValue(s[|s| - 1])
  }

  /** `String(n)` for a non-negative integer: decimal, no leading zeros. */
  function NatToString(n: nat): (s: string)
    decreases n
  {
    if n < 10 then [DigitChar(n)] else NatToString(n / 10) + [DigitChar(n % 10)]
  }

  /** `String(i)` / template interpolation of an integer. */
  function IntToString(i: int): string {
    if i < 0 then "-" + NatToString(-i) else NatToString(i)
  }

  lemma {:induction false} NatToStringDigits(n: nat)
    ensures AllDigits(NatToString(n)) && |NatToString(n)| >= 1
    ensures DigitsValue(NatToString(n)) == n
    decreases n
  {
    if n >= 10 {
      NatToStringDigits(n / 10);
      var s := NatToString(n);
      assert s[..|s| - 1] == NatToString(n / 10);
    }
  }

  lemma NatToStringLength(n: nat)
    ensures n < 10 ==> |NatToString(n)| == 1
    ensures 10 <= n < 100 ==> |NatToString(n)| == 2
    ensures 1000 <= n < 10000 ==> |NatToString(n)| == 4
  {
    if n >= 10 {
      NatToStringLength(n / 10);
      if n >= 1000 { NatToStringLength(n / 100); }
    }
  }

  /** A digit string without a leading zero is `String` of its value. */
  lemma {:induction false} DigitsRoundTrip(s: string)
    requires AllDigits(s) && |s| >= 1 && (|s| > 1 ==> s[0] != '0')
    ensures NatToString(DigitsValue(s)) == s
    decreases |s|
  {
    var n := DigitsValue(s);
    var p := s[..|s| - 1];
    if |s| == 1 {
      assert s[..0] == [];
    } else {
      assert p[0] == s[0];
      DigitsRoundTrip(p);
      assert n / 10 == DigitsValue(p) && n % 10 == DigitValue(s[|s| - 1]);
      assert s == p + [s[|s| - 1]];
    }
  }

  /** `s.padStart(n, c)`. */
  function PadStart(s: string, n: nat, c: char): (r: string)
    ensures |r| == if |s| >= n then |s| else n
    ensures r[(|r| - |s|)..] == s
    ensures forall k :: 0 <= k < |r| - |s| ==> r[k] == c
    decreases n - |s|
  {
    if |s| >= n then s else PadStart([c] + s, n, c)
  }

  /** `String(n).padStart(2, '0')`: the two-digit text of 0..99. */
  function Pad2(n: int): string {
    PadStart(IntToString(n), 2, '0')
  }

  lemma Pad2Shape(n: int)
    requires 0 <= n < 100
    ensures |Pad2(n)| == 2 && AllDigits(Pad2(n)) && DigitsValue(Pad2(n)) == n
  {
    NatToStringLength(n);
    NatToStringDigits(n);
    var s := NatToString(n);
    if n < 10 {
      assert Pad2(n) == ['0', s[0]];
      assert ['0', s[0]][..1] == ['0'];
    } else {
      assert Pad2(n) == s;
    }
  }

  /** Any two-digit text reads back as itself through `parseInt` and `padStart(2, '0')`. */
  lemma Pad2OfTwoDigits(t: string)
    requires |t| == 2 && AllDigits(t)
    ensures Pad2(DigitsValue(t)) == t
  {
    var a, b := DigitValue(t[0]), DigitValue(t[1]);
    assert t[..1] == [t[0]] && t[..1][..0] == [];
    assert DigitsValue(t[..1]) == a;
    var n := DigitsValue(t);
    assert n == a * 10 + b;
    if a == 0 {
      assert NatToString(n) == [t[1]];
      assert PadStart([t[1]], 2, '0') == ['0', t[1]];
      assert t == ['0', t[1]];
    } else {
      assert n / 10 == a && n % 10 == b;
      assert NatToString(n) == [t[0], t[1]];
      assert t == [t[0], t[1]];
    }
  }

  function TrimStart(s: string): (r: string)
    ensures |r| <= |s| && r == s[|s| - |r|..]
    ensures r != [] ==> !IsSpace(r[0])
  {
    if s != [] && IsSpace(s[0]) then TrimStart(s[1..]) else s
  }

  function TrimEnd(s: string): (r: string)
    ensures |r| <= |s| && r == s[..|r|]
    ensures r != [] ==> !IsSpace(r[|r| - 1])
  {
    if s != [] && IsSpace(s[|s| - 1]) then TrimEnd(s[..|s| - 1]) else s
  }

  /** `s.trim()`. */
  function Trim(s: string): string { TrimEnd(TrimStart(s)) }

  lemma TrimNoop(s: string)
    requires s != [] && !IsSpace(s[0]) && !IsSpace(s[|s| - 1])
    ensures Trim(s) == s
  {
  }

  lemma TrimExcludes(s: string, c: char)
    requires c !in s
    ensures c !in Trim(s)
  {
    var t := TrimStart(s);
    assert forall k :: 0 <= k < |t| ==> t[k] == s[|s| - |t| + k];
    var u := TrimEnd(t);
    assert forall k :: 0 <= k < |u| ==> u[k] == t[k];
  }

  /** Trimming a trimmed text changes nothing. */
  lemma TrimIdempotent(s: string)
    ensures Trim(Trim(s)) == Trim(s)
  {
    var t := TrimStart(s);
    var u := TrimEnd(t);
    if u != [] {
      assert u[0] == t[0];
      TrimNoop(u);
    }
  }

  /** Trimmed pieces that held no `c` still hold none, and are trimmed. */
  lemma TrimmedPieces(raw: seq<string>, c: char)
    requires forall k :: 0 <= k < |raw| ==> c !in raw[k]
    ensures forall k :: 0 <= k < |raw| ==> c !in Trim(raw[k]) && Trim(Trim(raw[k])) == Trim(raw[k])
  {
    forall k | 0 <= k < |raw| ensures c !in Trim(raw[k]) && Trim(Trim(raw[k])) == Trim(raw[k]) {
      TrimExcludes(raw[k], c);
      TrimIdempotent(raw[k]);
    }
  }

  /** The longest run of digits at the front of `s`. */
  function DigitPrefix(s: string): (r: string)
    ensures AllDigits(r) && |r| <= |s| && r == s[..|r|]
    ensures |r| < |s| ==> !IsDigit(s[|r|])
  {
    if s != [] && IsDigit(s[0]) then [s[0]] + DigitPrefix(s[1..]) else []
  }

  /** `parseInt(s)` read in radix 10: leading white space, an optional sign,
      then the longest digit prefix; `None` stands for `NaN`. The `0x` hex
      prefix `parseInt` also accepts is not modelled: every text the engine
      parses is digits, a masked date or a month the application wrote. */
  function ParseInt(s: string): Option<int> {
    var t := TrimStart(s);
    var neg := t != [] && t[0] == '-';
    var u := if t != [] && (t[0] == '-' || t[0] == '+') then t[1..] else t;
    var d := DigitPrefix(u);
    var v: int := DigitsValue(d);
    if d == [] then None else Some(if neg then -v else v)
  }

  lemma ParseIntOfDigits(s: string)
    requires AllDigits(s) && s != []
    ensures ParseInt(s) == Some(DigitsValue(s))
  {
    assert s[0] != '-' && s[0] != '+' && !IsSpace(s[0]);
    DigitPrefixAll(s);
  }

  lemma DigitPrefixAll(s: string)
    requires AllDigits(s)
    ensures DigitPrefix(s) == s
  {
    if s != [] { DigitPrefixAll(s[1..]); }
  }

  lemma ParseIntOfIntToString(i: int)
    ensures ParseInt(IntToString(i)) == Some(i)
  {
    var t := IntToString(i);
    if i < 0 {
      NatToStringDigits(-i);
      assert t[0] == '-' && t[1..] == NatToString(-i);
      ParseIntOfMinus(t, NatToString(-i));
    } else {
      NatToStringDigits(i);
      ParseIntOfDigits(NatToString(i));
    }
  }

  lemma ParseIntOfMinus(t: string, s: string)
    requires AllDigits(s) && s != [] && t != [] && t[0] == '-' && t[1..] == s
    ensures ParseInt(t) == Some(-(DigitsValue(s) as int))
  {
    DigitPrefixAll(s);
    NegativeParse(t, s);
  }

  /** A text that starts with `-` reads as the negated digit prefix after it. */
  lemma NegativeParse(t: string, d: string)
    requires t != [] && t[0] == '-' && d != [] && DigitPrefix(t[1..]) == d
    ensures ParseInt(t) == Some(-(DigitsValue(d) as int))
  {
    assert TrimStart(t) == t;
  }

  predicate OccursAt(s: string, w: string, i: int) {
    0 <= i && i + |w| <= |s| && s[i..i + |w|] == w
  }

  /** `s.includes(w)`. */
  predicate Contains(s: string, w: string) {
    exists i :: 0 <= i <= |s| && OccursAt(s, w, i)
  }

  function FirstIndex(s: string, c: char): (i: nat)
    requires c in s
    ensures i < |s| && s[i] == c && c !in s[..i]
  {
    if s[0] == c then 0 else
      var j := FirstIndex(s[1..], c);
      assert s[..j + 1] == [s[0]] + s[1..][..j];
      j + 1
  }

  /** `s.split(c)` for a one-character separator. */
  function Split(s: string, c: char): (r: seq<string>)
    ensures |r| >= 1
    ensures forall k :: 0 <= k < |r| ==> c !in r[k]
    decreases |s|
  {
    if c !in s then [s] else
      var i := FirstIndex(s, c);
      [s[..i]] + Split(s[i + 1..], c)
  }

  /** `xs.join(sep)`. */
  function Join(xs: seq<string>, sep: string): string
    decreases |xs|
  {
    if |xs| == 0 then "" else if |xs| == 1 then xs[0] else xs[0] + sep + Join(xs[1..], sep)
  }

  /** Splitting undoes joining when no item contains the separator. */
  lemma {:induction false} SplitJoin(xs: seq<string>, c: char)
    requires |xs| >= 1
    requires forall k :: 0 <= k < |xs| ==> c !in xs[k]
    ensures Split(Join(xs, [c]), c) == xs
    decreases |xs|
  {
    if |xs| > 1 {
      var s := Join(xs, [c]);
      var rest := Join(xs[1..], [c]);
      assert s == xs[0] + [c] + rest;
      assert c in s by { assert s[|xs[0]|] == c; }
      var i := FirstIndex(s, c);
      assert s[..|xs[0]|] == xs[0];
      assert forall k :: 0 <= k < |xs[0]| ==> s[k] == xs[0][k];
      assert i == |xs[0]|;
      assert s[i + 1..] == rest;
      SplitJoin(xs[1..], c);
    }
  }

  /** The two-part case that month keys use. */
  lemma SplitTwo(a: string, b: string, c: char)
    requires c !in a && c !in b
    ensures Split(a + [c] + b, c) == [a, b]
  {
    var xs := [a, b];
    assert xs[1..] == [b];
    assert Join(xs, [c]) == a + [c] + b;
    SplitJoin(xs, c);
  }

  /** The three-part case that dates use. */
  lemma SplitThree(a: string, b: string, d: string, c: char)
    requires c !in a && c !in b && c !in d
    ensures Join([a, b, d], [c]) == a + [c] + b + [c] + d
    ensures Split(a + [c] + b + [c] + d, c) == [a, b, d]
  {
    var xs := [a, b, d];
    assert xs[1..] == [b, d] && xs[1..][1..] == [d];
    assert Join([b, d], [c]) == b + [c] + d;
    assert Join(xs, [c]) == a + [c] + (b + [c] + d);
    assert a + [c] + (b + [c] + d) == a + [c] + b + [c] + d;
    SplitJoin(xs, c);
  }

  /** Splitting `p` followed by `xs.join(', ')` on `,`: the first item after
      `p`, then every further item after its space. */
  lemma {:induction false} SplitCommaJoin(p: string, xs: seq<string>)
    requires |xs| >= 1 && ',' !in p
    requires forall k :: 0 <= k < |xs| ==> ',' !in xs[k]
    ensures var r := Split(p + Join(xs, ", "), ',');
            |r| == |xs| && r[0] == p + xs[0] && forall k :: 1 <= k < |xs| ==> r[k] == " " + xs[k]
    decreases |xs|
  {
    var h := p + xs[0];
    if |xs| == 1 {
      assert ',' !in h;
    } else {
      var rest := Join(xs[1..], ", ");
      assert p + Join(xs, ", ") == h + [','] + (" " + rest);
      SplitAtFirst(h, " " + rest, ',');
      SplitCommaJoin(" ", xs[1..]);
      ShiftedItems(Split(p + Join(xs, ", "), ','), h, Split(" " + rest, ','), xs);
    }
  }

  /** Splitting `xs.join(', ')` on `,`: the first item, then every further
      item after its space. */
  lemma SplitCommaList(xs: seq<string>)
    requires |xs| >= 1 && forall k :: 0 <= k < |xs| ==> ',' !in xs[k]
    ensures var r := Split(Join(xs, ", "), ',');
            |r| == |xs| && r[0] == xs[0] && (|xs| > 1 ==> r[|xs| - 1] == " " + xs[|xs| - 1])
  {
    SplitCommaJoin("", xs);
    assert "" + Join(xs, ", ") == Join(xs, ", ");
    assert "" + xs[0] == xs[0];
  }

  /** Splitting at the first separator. */
  lemma SplitAtFirst(h: string, t: string, c: char)
    requires c !in h
    ensures Split(h + [c] + t, c) == [h] + Split(t, c)
  {
    var s := h + [c] + t;
    assert s[|h|] == c;
    assert s[..|h|] == h;
    assert FirstIndex(s, c) == |h|;
    assert s[|h| + 1..] == t;
  }

  lemma ShiftedItems(r: seq<string>, h: string, r': seq<string>, xs: seq<string>)
    requires |xs| >= 2 && r == [h] + r' && |r'| == |xs| - 1
    requires forall k :: 1 <= k < |xs| - 1 ==> r'[k] == " " + xs[1..][k]
    requires r'[0] == " " + xs[1..][0]
    ensures |r| == |xs| && r[0] == h && forall k :: 1 <= k < |xs| ==> r[k] == " " + xs[k]
  {
    forall k | 1 <= k < |xs| ensures r[k] == " " + xs[k] {
      assert r[k] == r'[k - 1];
      assert xs[1..][k - 1] == xs[k];
    }
  }

  /** A joined text starts with its first item and ends with its last. */
  lemma {:induction false} JoinEnds(xs: seq<string>, sep: string)
    requires |xs| >= 1
    ensures |Join(xs, sep)| >= |xs[0]| && Join(xs, sep)[..|xs[0]|] == xs[0]
    ensures var j, l := Join(xs, sep), xs[|xs| - 1]; |j| >= |l| && j[|j| - |l|..] == l
    decreases |xs|
  {
    if |xs| > 1 {
      JoinEnds(xs[1..], sep);
      var t := Join(xs[1..], sep);
      var j := Join(xs, sep);
      var l := xs[|xs| - 1];
      assert xs[1..][|xs[1..]| - 1] == l;
      assert j == xs[0] + sep + t;
      assert j[..|xs[0]|] == xs[0];
      assert j[|j| - |l|..] == t[|t| - |l|..];
    }
  }

  /** A character in neither the items nor the separator is not in their join. */
  lemma {:induction false} JoinExcludes(xs: seq<string>, sep: string, c: char)
    requires c !in sep && forall k :: 0 <= k < |xs| ==> c !in xs[k]
    ensures c !in Join(xs, sep)
    decreases |xs|
  {
    if |xs| > 1 {
      JoinExcludes(xs[1..], sep, c);
    }
  }

  lemma ContainsMiddle(p: string, w: string, q: string)
    ensures Contains(p + w + q, w)
  {
    assert OccursAt(p + w + q, w, |p|) by { assert (p + w + q)[|p|..|p| + |w|] == w; }
  }

  lemma ContainsLeft(a: string, b: string, w: string)
    requires Contains(a, w)
    ensures Contains(a + b, w)
  {
    var i :| 0 <= i <= |a| && OccursAt(a, w, i);
    assert (a + b)[i..i + |w|] == a[i..i + |w|];
    assert OccursAt(a + b, w, i);
  }

  lemma ContainsRight(a: string, b: string, w: string)
    requires Contains(b, w)
    ensures Contains(a + b, w)
  {
    var i :| 0 <= i <= |b| && OccursAt(b, w, i);
    assert (a + b)[|a| + i..|a| + i + |w|] == b[i..i + |w|];
    assert OccursAt(a + b, w, |a| + i);
  }

  /** A text cannot contain a word with a character the text lacks. */
  lemma MissingChar(s: string, w: string, c: char)
    requires c in w && c !in s
    ensures !Contains(s, w)
  {
    var k :| 0 <= k < |w| && w[k] == c;
    forall i | 0 <= i <= |s| ensures !OccursAt(s, w, i) {
      if i + |w| <= |s| {
        assert s[i..i + |w|][k] == s[i + k];
      }
    }
  }

  /** The items followed by the new values of `more` not yet present, in order:
      what pushing each value after an `includes` test builds. */
  function AppendNew<T(==)>(acc: seq<T>, more: seq<T>): seq<T>
    decreases |more|
  {
    if more == [] then acc
    else if more[0] in acc then AppendNew(acc, more[1..])
    else AppendNew(acc + [more[0]], more[1..])
  }

  /** Nothing is lost and nothing is invented. */
  lemma {:induction false} AppendNewMembers<T>(acc: seq<T>, more: seq<T>, x: T)
    ensures x in AppendNew(acc, more) <==> x in acc || x in more
    decreases |more|
  {
    if more != [] {
      assert more == [more[0]] + more[1..];
      if more[0] in acc {
        AppendNewMembers(acc, more[1..], x);
      } else {
        AppendNewMembers(acc + [more[0]], more[1..], x);
      }
    }
  }

  predicate NoDuplicates<T(==)>(s: seq<T>) {
    forall i, j :: 0 <= i < j < |s| ==> s[i] != s[j]
  }

  lemma {:induction false} AppendNewKeepsDistinct<T>(acc: seq<T>, more: seq<T>)
    requires NoDuplicates(acc)
    ensures NoDuplicates(AppendNew(acc, more)) && acc <= AppendNew(acc, more)
    decreases |more|
  {
    if more != [] {
      if more[0] in acc {
        AppendNewKeepsDistinct(acc, more[1..]);
      } else {
        var a := acc + [more[0]];
        assert NoDuplicates(a);
        AppendNewKeepsDistinct(a, more[1..]);
      }
    }
  }

  /** `[...new Set(xs)]`: first occurrences, in order. */
  function Dedup<T(==)>(xs: seq<T>): seq<T> { AppendNew([], xs) }
}
