/** Amount text: the Vietnamese amount in words printed on invoices
    (`numberToWords`) and the thousands separators of the price field
    (`formatNumberWithCommas` / `parseFormattedPrice`). */
module AmountText {
  import opened JsText

  const Ones: seq<string> := ["", "một", "hai", "ba", "bốn", "năm", "sáu", "bảy", "tám", "chín"]
  const Teens: seq<string> := ["mười", "mười một", "mười hai", "mười ba", "mười bốn", "mười lăm",
                               "mười sáu", "mười bảy", "mười tám", "mười chín"]
  const Tens: seq<string> := ["", "", "hai mươi", "ba mươi", "bốn mươi", "năm mươi",
                              "sáu mươi", "bảy mươi", "tám mươi", "chín mươi"]

  /** `ones[k]` inside a string concatenation: past the end of the table it
      reads `undefined`, which concatenates as the text "undefined". */
  function OnesAt(k: nat): string {
    if k < |Ones| then Ones[k] else "undefined"
  }

  /** The words for 1 to 99; after a tens word a final one is `mốt` and a
      final five `lăm`. */
  function TensOnes(n: nat): string
    requires 0 < n < 100
  {
    if n < 10 then Ones[n]
    else if n < 20 then Teens[n - 10]
    else
      var d := n % 10;
      Tens[n / 10] + (if d == 0 then "" else if d == 1 then " mốt" else if d == 5 then " lăm" else " " + Ones[d])
  }

  /** `convertGroup`: hundreds, then the last two digits. */
  function GroupWords(num: nat): string {
    if num == 0 then "" else
      var hundreds := num / 100;
      var rest := num % 100;
      var head := if hundreds > 0 then OnesAt(hundreds) + " trăm" else "";
      if rest > 0 then head + (if hundreds > 0 then " " else "") + TensOnes(rest) else head
  }

  /** JavaScript's `%`: the remainder takes the sign of the dividend. */
  function JsRem(a: int, n: int): (r: int)
    requires n > 0
    ensures a >= 0 ==> r == a % n
    ensures -n < r < n
  {
    if a >= 0 then a % n else -((-a) % n)
  }

  /** The four groups `numberToWords` cuts the amount into, each with
      `Math.floor` (Dafny's `/` by a positive divisor rounds down too). */
  function Billions(a: int): int { a / 1000000000 }
  function Millions(a: int): int { JsRem(a, 1000000000) / 1000000 }
  function Thousands(a: int): int { JsRem(a, 1000000) / 1000 }
  function Units(a: int): int { JsRem(a, 1000) }

  /** The phrase a positive group contributes: its words and its scale word. */
  function ScaledGroup(g: int, scale: string): seq<string> {
    if g > 0 then [GroupWords(g) + scale] else []
  }

  /** The non-empty group phrases of `a`, largest first. */
  function GroupPhrases(a: int): seq<string> {
    ScaledGroup(Billions(a), " tỷ") + ScaledGroup(Millions(a), " triệu")
    + ScaledGroup(Thousands(a), " nghìn") + ScaledGroup(Units(a), "")
  }

  /** ASCII `toUpperCase` of one character; every first character an amount
      in words can start with is ASCII. */
  function UpperChar(c: char): char {
    if 'a' <= c <= 'z' then (c as int - 32) as char else c
  }

  /** `s.charAt(0).toUpperCase() + s.slice(1)`. */
  function Capitalize(s: string): (r: string)
    ensures |r| == |s|
    ensures s != [] ==> r[0] == UpperChar(s[0]) && r[1..] == s[1..]
  {
    if s == [] then [] else [UpperChar(s[0])] + s[1..]
  }

  /** The amount in words: the group phrases joined by single spaces, then
      ` đồng chẵn`, with the first character in upper case. */
  function AmountInWords(a: int): string {
    if a == 0 then "Không đồng chẵn" else Capitalize(Join(GroupPhrases(a), " ") + " đồng chẵn")
  }

  /** `result += piece`, preceded by a space when `result` is not empty. */
  function AppendPhrase(result: string, piece: string): string {
    if result != "" then result + " " + piece else piece
  }

  /** Joining one more phrase onto already joined phrases. */
  lemma {:induction false} JoinSnoc(xs: seq<string>, p: string)
    requires forall k :: 0 <= k < |xs| ==> xs[k] != ""
    ensures Join(xs + [p], " ") == AppendPhrase(Join(xs, " "), p)
    decreases |xs|
  {
    if |xs| == 1 {
      assert (xs + [p])[1..] == [p];
    } else if |xs| > 1 {
      assert (xs + [p])[1..] == xs[1..] + [p];
      JoinSnoc(xs[1..], p);
      JoinNonEmpty(xs[1..]);
    }
  }

  lemma JoinNonEmpty(xs: seq<string>)
    requires |xs| >= 1 && xs[0] != ""
    ensures Join(xs, " ") != ""
  {
  }

  /** A group phrase is never empty. */
  lemma ScaledGroupNonEmpty(g: int, scale: string)
    ensures forall k :: 0 <= k < |ScaledGroup(g, scale)| ==> ScaledGroup(g, scale)[k] != ""
  {
    if g > 0 {
      assert g / 100 > 0 || g % 100 > 0;
    }
  }

  /** Appending a group's phrase, if any, to the joined phrases before it. */
  lemma JoinGroup(xs: seq<string>, g: int, scale: string)
    requires forall k :: 0 <= k < |xs| ==> xs[k] != ""
    ensures Join(xs + ScaledGroup(g, scale), " ")
            == if g > 0 then AppendPhrase(Join(xs, " "), GroupWords(g) + scale) else Join(xs, " ")
  {
    JoinOptional(xs, ScaledGroup(g, scale), if g > 0 then GroupWords(g) + scale else "", g > 0);
  }

  lemma JoinOptional(xs: seq<string>, ys: seq<string>, p: string, present: bool)
    requires forall k :: 0 <= k < |xs| ==> xs[k] != ""
    requires ys == if present then [p] else []
    ensures Join(xs + ys, " ") == if present then AppendPhrase(Join(xs, " "), p) else Join(xs, " ")
  {
    if present {
      JoinSnoc(xs, p);
    } else {
      assert xs + ys == xs;
    }
  }

  /** One step of `numberToWords`: appending group `g` with its scale word to
      the text built so far, which is the join of the phrases so far. */
  method AppendGroup(result: string, g: int, scale: string, ghost groups: seq<string>)
    returns (result': string, ghost groups': seq<string>)
    requires forall k :: 0 <= k < |groups| ==> groups[k] != ""
    requires result == Join(groups, " ")
    ensures groups' == groups + ScaledGroup(g, scale)
    ensures forall k :: 0 <= k < |groups'| ==> groups'[k] != ""
    ensures result' == Join(groups', " ")
  {
    result' := result;
    if g > 0 {
      if result' != "" { result' := result' + " "; }
      result' := result' + GroupWords(g) + scale;
    }
    JoinGroup(groups, g, scale);
    ScaledGroupNonEmpty(g, scale);
    groups' := groups + ScaledGroup(g, scale);
  }

  /** `numberToWords`, building `result` group by group as the source does. */
  method NumberToWords(amount: int) returns (s: string)
    ensures s == AmountInWords(amount)
  {
    if amount == 0 {
      return "Không đồng chẵn";
    }
    var billions := amount / 1000000000;
    var millions := JsRem(amount, 1000000000) / 1000000;
    var thousands := JsRem(amount, 1000000) / 1000;
    var hundreds := JsRem(amount, 1000);
    var result := "";
    ghost var groups: seq<string> := [];
    result, groups := AppendGroup(result, billions, " tỷ", groups);
    result, groups := AppendGroup(result, millions, " triệu", groups);
    result, groups := AppendGroup(result, thousands, " nghìn", groups);
    result, groups := AppendGroup(result, hundreds, "", groups);
    assert groups == GroupPhrases(amount);
    var finalResult := result + " đồng chẵn";
    s := Capitalize(finalResult);
  }

  /** For an amount of zero or more the four groups put back together give
      the amount, and every group below the billions is under a thousand. */
  lemma GroupsRecompose(a: int)
    requires a >= 0
    ensures Billions(a) * 1000000000 + Millions(a) * 1000000 + Thousands(a) * 1000 + Units(a) == a
    ensures 0 <= Millions(a) < 1000 && 0 <= Thousands(a) < 1000 && 0 <= Units(a) < 1000
  {
    ModNest(a, 1000000, 1000);
    ModNest(a, 1000, 1000);
    DivModParts(a % 1000000000, 1000000);
    DivModParts(a % 1000000, 1000);
    DivModParts(a, 1000000000);
  }

  /** Taking the remainder by `d * e` keeps the remainder by `d`. */
  lemma ModNest(a: int, d: int, e: int)
    requires a >= 0 && d > 0 && e > 0
    ensures (a % (d * e)) % d == a % d
  {
    var q, r := a / (d * e), a % (d * e);
    assert a == q * (d * e) + r;
    assert q * (d * e) == (q * e) * d;
    ModOfMultiple(r, q * e, d);
  }

  lemma ModOfMultiple(r: int, k: int, d: int)
    requires d > 0
    ensures (k * d + r) % d == r % d
  {
    var x := k * d + r;
    var q1, r1 := x / d, x % d;
    var q2, r2 := r / d, r % d;
    assert x == q1 * d + r1 && r == q2 * d + r2;
    var t := q1 - k - q2;
    assert t * d == r2 - r1 by {
      assert x == (q2 + k) * d + r2;
    }
    if t > 0 {
      MulAtLeast(t, d);
    } else if t < 0 {
      MulAtMost(t, d);
    }
  }

  lemma MulAtMost(t: int, d: int)
    requires t <= -1 && d > 0
    ensures t * d <= -d
  {
    MulAtLeast(-t, d);
    assert (-t) * d == -(t * d);
  }

  lemma {:induction false} MulAtLeast(t: int, d: int)
    requires t >= 1 && d > 0
    ensures t * d >= d
    decreases t
  {
    if t > 1 {
      MulAtLeast(t - 1, d);
      assert t * d == (t - 1) * d + d;
    }
  }

  lemma DivModParts(x: int, d: int)
    requires d > 0
    ensures x == (x / d) * d + x % d && 0 <= x % d < d
  {
  }

  /** Every group word starts with a lower-case ASCII letter. */
  predicate StartsLower(s: string) { s != [] && 'a' <= s[0] <= 'z' }

  lemma TablesStartLower()
    ensures forall k :: 1 <= k < 10 ==> StartsLower(Ones[k])
    ensures forall k :: 0 <= k < 10 ==> StartsLower(Teens[k])
    ensures forall k :: 2 <= k < 10 ==> StartsLower(Tens[k])
  {
  }

  lemma GroupStartsLower(g: nat)
    requires g > 0
    ensures StartsLower(GroupWords(g))
  {
    TablesStartLower();
    var h, rest := g / 100, g % 100;
    if h > 0 {
      assert StartsLower(OnesAt(h));
    } else {
      TensOnesStartsLower(rest);
    }
  }

  lemma TensOnesStartsLower(n: nat)
    requires 0 < n < 100
    ensures StartsLower(TensOnes(n))
  {
    TablesStartLower();
    if n >= 20 {
      assert 2 <= n / 10 < 10;
    }
  }

  /** A positive amount in words starts with an upper-case letter and ends
      with ` đồng chẵn`. */
  lemma PositiveAmountShape(a: int)
    requires a > 0
    ensures var r := AmountInWords(a);
            |r| > 10 && 'A' <= r[0] <= 'Z' && r[|r| - 10..] == " đồng chẵn"
  {
    FirstPhraseLower(a);
    WordsShape(GroupPhrases(a));
  }

  /** The first phrase of a positive amount starts with a group word. */
  lemma FirstPhraseLower(a: int)
    requires a > 0
    ensures GroupPhrases(a) != [] && StartsLower(GroupPhrases(a)[0])
  {
    GroupsRecompose(a);
    var b, m, t, u := Billions(a), Millions(a), Thousands(a), Units(a);
    assert b > 0 || m > 0 || t > 0 || u > 0;
    var g := if b > 0 then b else if m > 0 then m else if t > 0 then t else u;
    GroupStartsLower(g);
    FirstPhraseIs(a);
  }

  lemma FirstPhraseIs(a: int)
    requires a > 0 && (Billions(a) > 0 || Millions(a) > 0 || Thousands(a) > 0 || Units(a) > 0)
    ensures var b, m, t, u := Billions(a), Millions(a), Thousands(a), Units(a);
            var g := if b > 0 then b else if m > 0 then m else if t > 0 then t else u;
            g > 0 && GroupPhrases(a) != []
            && GroupPhrases(a)[0] == GroupWords(g) + (if b > 0 then " tỷ" else if m > 0 then " triệu" else if t > 0 then " nghìn" else "")
  {
  }

  /** Phrases that start with a lower-case letter give words that start with
      an upper-case one and end with ` đồng chẵn`. */
  lemma WordsShape(gs: seq<string>)
    requires gs != [] && StartsLower(gs[0])
    ensures var r := Capitalize(Join(gs, " ") + " đồng chẵn");
            |r| > 10 && 'A' <= r[0] <= 'Z' && r[|r| - 10..] == " đồng chẵn"
  {
    JoinHead(gs);
    var j := Join(gs, " ") + " đồng chẵn";
    assert j[0] == gs[0][0];
    assert j[|j| - 10..] == " đồng chẵn";
  }

  /** A join of phrases starts with the first phrase. */
  lemma JoinHead(xs: seq<string>)
    requires |xs| >= 1 && xs[0] != ""
    ensures Join(xs, " ") != "" && Join(xs, " ")[0] == xs[0][0]
  {
  }

  /** Below zero every group is zero or less, so nothing but ` đồng chẵn` is
      left, and its leading space has no upper case. */
  lemma NegativeAmount(a: int)
    requires a < 0
    ensures AmountInWords(a) == " đồng chẵn"
  {
    assert GroupPhrases(a) == [];
  }

  /** After a tens word a final one reads `mốt`, a final five `lăm`, and any
      other final digit its plain word. */
  lemma MotAndLam(d: nat, u: nat)
    requires 2 <= d <= 9 && 1 <= u <= 9
    ensures TensOnes(10 * d + u) == Tens[d] + (if u == 1 then " mốt" else if u == 5 then " lăm" else " " + Ones[u])
  {
    assert (10 * d + u) / 10 == d && (10 * d + u) % 10 == u;
  }

  /** From one trillion on, the hundreds of the billions index past the end
      of the table and the words start with "Undefined trăm" (no group word
      is upper case, so `Capitalize` makes exactly that). */
  lemma PastTableEnd(a: int)
    requires a >= 1000000000000
    ensures var r := AmountInWords(a);
            |r| >= 14 && r[..14] == Capitalize("undefined trăm")
  {
    var b := Billions(a);
    HundredsPastTable(b);
    FirstPhraseBillions(a);
    AmountPrefix(GroupPhrases(a), "undefined trăm");
  }

  /** A group of a thousand or more has no hundreds word in the table. */
  lemma HundredsPastTable(b: int)
    requires b >= 1000
    ensures |GroupWords(b)| >= 14 && GroupWords(b)[..14] == "undefined trăm"
  {
    assert b / 100 >= 10;
    var h := OnesAt(b / 100) + " trăm";
    assert h == "undefined trăm";
    assert GroupWords(b)[..14] == h[..14];
  }

  lemma FirstPhraseBillions(a: int)
    requires a >= 1000000000
    ensures GroupPhrases(a) != [] && GroupPhrases(a)[0] == GroupWords(Billions(a)) + " tỷ"
  {
  }

  /** A prefix of the first phrase is a prefix of the capitalized words. */
  lemma AmountPrefix(gs: seq<string>, pre: string)
    requires |gs| >= 1 && pre != [] && |gs[0]| >= |pre| && gs[0][..|pre|] == pre
    ensures var r := Capitalize(Join(gs, " ") + " đồng chẵn");
            |r| >= |pre| && r[..|pre|] == Capitalize(pre)
  {
    JoinPrefix(gs);
    var j := Join(gs, " ") + " đồng chẵn";
    assert j[..|pre|] == gs[0][..|pre|];
    CapitalizePrefix(j, |pre|);
  }

  lemma CapitalizePrefix(s: string, n: nat)
    requires 1 <= n <= |s|
    ensures Capitalize(s)[..n] == Capitalize(s[..n])
  {
  }

  /** A join of phrases starts with the first phrase. */
  lemma JoinPrefix(xs: seq<string>)
    requires |xs| >= 1
    ensures |Join(xs, " ")| >= |xs[0]| && Join(xs, " ")[..|xs[0]|] == xs[0]
  {
  }

  /** The surcharge of the price-change example: 900,000 in words. */
  lemma NineHundredThousand()
    ensures AmountInWords(900000) == "Chín trăm nghìn đồng chẵn"
  {
    NineHundredThousandPhrases();
    assert Join(["chín trăm nghìn"], " ") == "chín trăm nghìn";
    CapitalizeNineHundred();
  }

  lemma CapitalizeNineHundred()
    ensures Capitalize("chín trăm nghìn" + " đồng chẵn") == "Chín trăm nghìn đồng chẵn"
  {
    NineHundredJoined();
    NineHundredHead();
    assert "chín trăm nghìn đồng chẵn"[1..] == "hín trăm nghìn đồng chẵn";
  }

  lemma NineHundredJoined()
    ensures "chín trăm nghìn" + " đồng chẵn" == "chín trăm nghìn đồng chẵn"
  {
  }

  lemma NineHundredHead()
    ensures "chín trăm nghìn đồng chẵn" == "c" + "hín trăm nghìn đồng chẵn"
    ensures "C" + "hín trăm nghìn đồng chẵn" == "Chín trăm nghìn đồng chẵn"
  {
  }

  lemma NineHundredThousandPhrases()
    ensures GroupPhrases(900000) == ["chín trăm nghìn"]
  {
    assert Billions(900000) == 0 && Millions(900000) == 0;
    assert Thousands(900000) == 900 && Units(900000) == 0;
    NineHundredWords();
    assert ScaledGroup(900, " nghìn") == ["chín trăm" + " nghìn"];
    assert "chín trăm" + " nghìn" == "chín trăm nghìn";
    assert GroupPhrases(900000) == [] + [] + ["chín trăm nghìn"] + [];
  }

  lemma NineHundredWords()
    ensures GroupWords(900) == "chín trăm"
  {
    assert 900 / 100 == 9 && 900 % 100 == 0;
    assert OnesAt(9) == "chín";
    assert "chín" + " trăm" == "chín trăm";
  }

  /** `s.replace(/\B(?=(\d{3})+(?!\d))/g, ',')` on a run of digits: a comma
      before every position that leaves a multiple of three digits. */
  function GroupDigits(d: string): (r: string)
    decreases |d|
  {
    if |d| <= 3 then d else GroupDigits(d[..|d| - 3]) + "," + d[|d| - 3..]
  }

  /** `formatNumberWithCommas` for an integer: `toString`, then the commas;
      a minus sign stays in front. */
  function FormatNumberWithCommas(n: int): string {
    if n < 0 then "-" + GroupDigits(NatToString(-n)) else GroupDigits(NatToString(n))
  }

  /** `s.replace(/,/g, '')`. */
  function RemoveCommas(s: string): (r: string)
    decreases |s|
  {
    if s == [] then [] else RemoveCommas(s[..|s| - 1]) + (if s[|s| - 1] == ',' then [] else [s[|s| - 1]])
  }

  /** `parseFormattedPrice`: 0 for empty text and for text `parseInt` cannot read. */
  function ParseFormattedPrice(s: string): int {
    if s == "" then 0 else
      match ParseInt(RemoveCommas(s))
      case None => 0
      case Some(v) => v
  }

  lemma {:induction false} RemoveCommasConcat(a: string, b: string)
    ensures RemoveCommas(a + b) == RemoveCommas(a) + RemoveCommas(b)
    decreases |b|
  {
    if b == [] {
      assert a + b == a;
    } else {
      assert (a + b)[..|a + b| - 1] == a + b[..|b| - 1];
      RemoveCommasConcat(a, b[..|b| - 1]);
    }
  }

  lemma {:induction false} RemoveCommasNoop(s: string)
    requires ',' !in s
    ensures RemoveCommas(s) == s
    decreases |s|
  {
    if s != [] {
      RemoveCommasNoop(s[..|s| - 1]);
    }
  }

  /** Removing the commas of the grouped digits gives the digits back. */
  lemma {:induction false} UngroupDigits(d: string)
    requires ',' !in d
    ensures RemoveCommas(GroupDigits(d)) == d
    decreases |d|
  {
    if |d| <= 3 {
      RemoveCommasNoop(d);
    } else {
      var p, q := d[..|d| - 3], d[|d| - 3..];
      UngroupDigits(p);
      UngroupStep(GroupDigits(p), p, q);
      assert p + q == d;
    }
  }

  lemma UngroupStep(g: string, p: string, q: string)
    requires RemoveCommas(g) == p && ',' !in q
    ensures RemoveCommas(g + "," + q) == p + q
  {
    RemoveCommasConcat(g + ",", q);
    RemoveTrailingComma(g);
    RemoveCommasNoop(q);
  }

  lemma RemoveTrailingComma(g: string)
    ensures RemoveCommas(g + ",") == RemoveCommas(g)
  {
    var t := g + ",";
    assert t[..|t| - 1] == g && t[|t| - 1] == ',';
  }

  /** Reading the price field back gives the number it was formatted from. */
  lemma PriceRoundTrip(n: int)
    ensures ParseFormattedPrice(FormatNumberWithCommas(n)) == n
  {
    var m := if n < 0 then -n else n;
    var d := NatToString(m);
    NatToStringDigits(m);
    DigitsExclude(d, ',');
    UngroupDigits(d);
    if n < 0 {
      RemoveCommasConcat("-", GroupDigits(d));
      RemoveCommasNoop("-");
      assert RemoveCommas(FormatNumberWithCommas(n)) == IntToString(n);
    } else {
      assert RemoveCommas(FormatNumberWithCommas(n)) == IntToString(n);
    }
    ParseIntOfIntToString(n);
    GroupedNonEmpty(d);
  }

  lemma GroupedNonEmpty(d: string)
    requires d != []
    ensures GroupDigits(d) != []
  {
  }
}
