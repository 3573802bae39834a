/** The table's sort: the sort state that a click on a column header
    changes (`handleSort`) and the comparator `sortData` hands to
    `Array.prototype.sort`. */
module Sorting {
  import opened JsText
  import opened Calendar
  import opened Records
  import opened Reminders

  datatype Direction = Asc | Desc

  function Flip(d: Direction): (r: Direction)
    ensures r != d
  {
    if d == Asc then Desc else Asc
  }

  /** The sort state after a click on column `f`: the same column flips the
      direction, another column starts ascending. */
  function NextSort(field: string, dir: Direction, f: string): (r: (string, Direction))
    ensures r.0 == f
    ensures r.1 == Asc <==> field != f || dir == Desc
  {
    if field == f then (f, Flip(dir)) else (f, Asc)
  }

  /** `this.currentSort`. */
  class SortState {
    var field: string
    var direction: Direction

    /** The initial `{ field: 'id', direction: 'asc' }`. */
    constructor()
      ensures field == "id" && direction == Asc
    {
      field := "id";
      direction := Asc;
    }

    /** `handleSort(field)`. */
    method HandleSort(f: string)
      modifies this
      ensures (field, direction) == NextSort(old(field), old(direction), f)
    {
      if field == f {
        direction := if direction == Asc then Desc else Asc;
      } else {
        field := f;
        direction := Asc;
      }
    }
  }

  /** The state after `n` clicks on column `f`. */
  function Clicks(field: string, dir: Direction, f: string, n: nat): (string, Direction)
    decreases n
  {
    if n == 0 then (field, dir)
    else
      var s := Clicks(field, dir, f, n - 1);
      NextSort(s.0, s.1, f)
  }

  /** After `n >= 1` clicks on `f` the table is sorted by `f`, ascending after
      an odd number of clicks counted from the first click that selected
      `f` (or from the current direction if `f` was already selected). */
  lemma {:induction false} ClicksParity(field: string, dir: Direction, f: string, n: nat)
    requires n >= 1
    ensures Clicks(field, dir, f, n).0 == f
    ensures Clicks(field, dir, f, n).1 ==
            if field == f then (if n % 2 == 0 then dir else Flip(dir))
            else (if n % 2 == 1 then Asc else Desc)
    decreases n
  {
    if n > 1 {
      ClicksParity(field, dir, f, n - 1);
    }
  }

  /** What `getSortValue` returns: a number, a date or a text. */
  datatype SortKey = Num(n: int) | When(t: Time) | Text(s: string)

  /** `getSortValue(rental, field)`, with `now` the current day for the
      reminder column. Text columns missing from the record read as `''`. */
  function SortValue(r: Rental, field: string, now: Date): SortKey {
    if field == "id" then Num(r.id)
    else if field == "price" then Num(r.price)
    else if field == "monthsPaid" then Num(r.monthsPaid)
    else if field == "amountOwed" then Num(r.amountOwed)
    else if field == "dateIn" then When(StartTime(r.dateIn))
    else if field == "dateOut" then When(EndTime(r.dateOut))
    else if field == "nextReminder" then When(At(ReminderSortValue(r, now)))
    else Text(if field in r.texts then r.texts[field] else "")
  }

  /** `a < b` on strings, character by character, a proper prefix first.
      Dafny's `char` is a code point while JavaScript compares UTF-16 code
      units; the two orders agree on characters of the Basic Multilingual
      Plane, Vietnamese letters included. */
  predicate TextLess(a: string, b: string)
    decreases |a|
  {
    if a == [] then b != []
    else if b == [] then false
    else if a[0] != b[0] then a[0] < b[0]
    else TextLess(a[1..], b[1..])
  }

  /** `a < b` on two sort values of one column. */
  predicate KeyLess(a: SortKey, b: SortKey) {
    match (a, b)
    case (Num(x), Num(y)) => x < y
    case (When(x), When(y)) => Earlier(x, y)
    case (Text(x), Text(y)) => TextLess(x, y)
    case _ => false
  }

  /** The comparator of `sortData`; `normalize` is `normalizeVietnameseText`,
      applied when both values are texts. */
  function Compare(a: SortKey, b: SortKey, dir: Direction, normalize: string -> string): int {
    var x := if a.Text? && b.Text? then Text(normalize(a.s)) else a;
    var y := if a.Text? && b.Text? then Text(normalize(b.s)) else b;
    var result := if KeyLess(x, y) then -1 else if KeyLess(y, x) then 1 else 0;
    if dir == Desc then -result else result
  }

  lemma {:induction false} TextLessIrreflexive(a: string)
    ensures !TextLess(a, a)
    decreases |a|
  {
    if a != [] { TextLessIrreflexive(a[1..]); }
  }

  lemma {:induction false} TextLessAsymmetric(a: string, b: string)
    ensures !(TextLess(a, b) && TextLess(b, a))
    decreases |a|
  {
    if a != [] && b != [] && a[0] == b[0] { TextLessAsymmetric(a[1..], b[1..]); }
  }

  lemma {:induction false} TextLessTransitive(a: string, b: string, c: string)
    requires TextLess(a, b) && TextLess(b, c)
    ensures TextLess(a, c)
    decreases |a|
  {
    if a != [] && a[0] == b[0] && b[0] == c[0] {
      TextLessTransitive(a[1..], b[1..], c[1..]);
    }
  }

  lemma KeyLessAsymmetric(a: SortKey, b: SortKey)
    ensures !(KeyLess(a, b) && KeyLess(b, a))
  {
    if a.Text? && b.Text? { TextLessAsymmetric(a.s, b.s); }
  }

  /** Swapping the arguments negates the comparison. */
  lemma CompareAntisymmetric(a: SortKey, b: SortKey, dir: Direction, normalize: string -> string)
    ensures Compare(a, b, dir, normalize) == -Compare(b, a, dir, normalize)
  {
    if a.Text? && b.Text? {
      KeyLessAsymmetric(Text(normalize(a.s)), Text(normalize(b.s)));
    } else {
      KeyLessAsymmetric(a, b);
    }
  }

  /** Descending is ascending reversed. */
  lemma DescendingReverses(a: SortKey, b: SortKey, normalize: string -> string)
    ensures Compare(a, b, Desc, normalize) == -Compare(a, b, Asc, normalize)
  {
  }

  /** Every value ties with itself. */
  lemma CompareReflexive(a: SortKey, dir: Direction, normalize: string -> string)
    ensures Compare(a, a, dir, normalize) == 0
  {
    if a.Text? { TextLessIrreflexive(normalize(a.s)); }
  }

  /** Within the ascending order texts, numbers and readable dates are
      ordered transitively. */
  lemma CompareTransitive(a: SortKey, b: SortKey, c: SortKey, normalize: string -> string)
    requires Compare(a, b, Asc, normalize) < 0 && Compare(b, c, Asc, normalize) < 0
    ensures Compare(a, c, Asc, normalize) < 0
  {
    if a.Text? && b.Text? && c.Text? {
      TextLessTransitive(normalize(a.s), normalize(b.s), normalize(c.s));
    }
  }

  /** An unreadable date ties with every date, so the order is not a weak
      order once such a date is among readable ones. */
  lemma InvalidDateTies(t: Time, dir: Direction, normalize: string -> string)
    ensures Compare(When(Invalid), When(t), dir, normalize) == 0
  {
  }

  /** So two different readable dates each tie with an invalid one. */
  lemma TiesAreNotTransitive(normalize: string -> string)
    ensures var x, y := When(At(Date(2025, 1, 1))), When(At(Date(2025, 2, 1)));
            Compare(x, When(Invalid), Asc, normalize) == 0 && Compare(When(Invalid), y, Asc, normalize) == 0
            && Compare(x, y, Asc, normalize) == -1
  {
  }
}
