/**
 * Due-date labels of todo items: how `updateDueDate` builds them from the month and
 * year fields, and how `compareDates`, `year` and `month` order them
 * (public/javascripts/todos.js).
 */
module DueDates {

  /** The label of an item whose month or year is unset. */
  const NoDueDate: string := "No Due Date"

  /** Sentinels the form sends for an unselected month and year. */
  const UnsetMonth: string := "00"
  const UnsetYear: string := "0000"

  predicate IsDigit(c: char) { '0' <= c <= '9' }

  predicate AllDigits(s: string) { forall i :: 0 <= i < |s| ==> IsDigit(s[i]) }

  function DigitValue(c: char): (d: nat)
    requires IsDigit(c)
    ensures d < 10
  {
    c as int - '0' as int
  }

  /** 10 to the power `n`. */
  function Pow10(n: nat): nat {
    if n == 0 then 1 else 10 * Pow10(n - 1)
  }

  /**
   * JavaScript's `Number(s)` on a string of decimal digits (`Number("")` is 0): a value
   * with no more digits than the string has characters.
   */
  function Number(s: string): (n: nat)
    requires AllDigits(s)
    ensures n < Pow10(|s|)
  {
    if s == [] then 0 else 10 * Number(s[..|s| - 1]) + DigitValue(s[|s| - 1])
  }

  /** JavaScript's `s.slice(start)` for a non-negative start. */
  function SliceFrom(s: string, start: nat): string {
    if |s| >= start then s[start..] else ""
  }

  /** A month field: "00" when unset, otherwise two digits. */
  predicate IsMonthField(m: string) { |m| == 2 && AllDigits(m) }

  /** A year field: "0000" when unset, otherwise four digits. */
  predicate IsYearField(y: string) { |y| == 4 && AllDigits(y) }

  /** A dated label "MM/YY". */
  predicate IsDatedLabel(l: string) {
    |l| == 5 && IsDigit(l[0]) && IsDigit(l[1]) && l[2] == '/' && IsDigit(l[3]) && IsDigit(l[4])
  }

  /** A label `updateDueDate` can produce from well-formed fields. */
  predicate IsLabel(l: string) { l == NoDueDate || IsDatedLabel(l) }

  lemma NoSlashInNoDueDate(k: nat)
    requires k < |NoDueDate|
    ensures NoDueDate[k] != '/'
  {
  }

  /**
   * `updateDueDate`: "MM/YY" from the month and the last two characters of the year, or
   * "No Due Date" when either field holds its unset sentinel. The day never takes part.
   */
  function DueDateLabel(month: string, year: string): (due: string)
    ensures due == NoDueDate <==> month == UnsetMonth || year == UnsetYear
    ensures IsMonthField(month) && IsYearField(year) ==> IsLabel(due)
  {
    if month != UnsetMonth && year != UnsetYear then
      var l := month + "/" + SliceFrom(year, 2);
      assert l[|month|] == '/';
      assert |month| < |NoDueDate| ==> NoDueDate[|month|] != '/' by {
        if |month| < |NoDueDate| { NoSlashInNoDueDate(|month|); }
      }
      l
    else NoDueDate
  }

  /** `year(date)`: `Number(date.slice(3))`, the decimal value of the two digits after "/". */
  function Year(date: string): (y: nat)
    requires IsDatedLabel(date)
    ensures y == 10 * DigitValue(date[3]) + DigitValue(date[4]) && y < 100
  {
    TwoDigits(date[3..]);
    Number(date[3..])
  }

  /** `month(date)`: `Number(date.slice(0, 2))`, the decimal value of the two digits before "/". */
  function Month(date: string): (m: nat)
    requires IsDatedLabel(date)
    ensures m == 10 * DigitValue(date[0]) + DigitValue(date[1]) && m < 100
  {
    TwoDigits(date[..2]);
    Number(date[..2])
  }

  /**
   * `compareDates(a, b)`: the comparator `sortByDates` hands to `Array.prototype.sort`. It
   * orders labels exactly as their ranks do: its sign is the sign of the rank difference,
   * and it returns 0 only for equal labels.
   */
  function CompareDates(a: string, b: string): (c: int)
    requires IsLabel(a) && IsLabel(b)
    ensures c < 0 <==> DateRank(a) < DateRank(b)
    ensures c > 0 <==> DateRank(a) > DateRank(b)
    ensures c == 0 <==> a == b
  {
    if a == b then 0
    else
      assert DateRank(a) != DateRank(b) by {
        if DateRank(a) == DateRank(b) { DateRankInjective(a, b); }
      }
      if a == NoDueDate then -1
      else if b == NoDueDate then 1
      else if Year(a) != Year(b) then Year(a) - Year(b)
      else Month(a) - Month(b)
  }

  /** `a` sorts no later than `b` under `compareDates`. */
  predicate LabelLeq(a: string, b: string) {
    IsLabel(a) && IsLabel(b) && CompareDates(a, b) <= 0
  }

  /**
   * An independent numeric reading of a label: 0 for "No Due Date", and for a dated label
   * one more than its (year, month) pair read as the four-digit number YYMM.
   */
  function DateRank(date: string): nat
    requires IsLabel(date)
  {
    if date == NoDueDate then 0 else 1 + 100 * Year(date) + Month(date)
  }

  /** The value of two digits, and its bound. */
  lemma TwoDigits(s: string)
    requires |s| == 2 && AllDigits(s)
    ensures Number(s) == 10 * DigitValue(s[0]) + DigitValue(s[1])
    ensures Number(s) < 100
  {
    assert s[..|s| - 1] == s[..1];
    assert s[..1][..0] == [];
    assert s[..1][0] == s[0];
    assert Number(s[..1]) == DigitValue(s[0]);
  }

  /** Two two-digit strings with the same value are the same string. */
  lemma TwoDigitsInjective(s: string, t: string)
    requires |s| == 2 && AllDigits(s) && |t| == 2 && AllDigits(t)
    requires Number(s) == Number(t)
    ensures s == t
  {
    TwoDigits(s);
    TwoDigits(t);
    assert s[0] == t[0] && s[1] == t[1];
  }

  lemma DatedParts(l: string)
    requires IsDatedLabel(l)
    ensures |l[..2]| == 2 && AllDigits(l[..2]) && |l[3..]| == 2 && AllDigits(l[3..])
    ensures Year(l) < 100 && Month(l) < 100
    ensures l == l[..2] + "/" + l[3..]
  {
    TwoDigits(l[..2]);
    TwoDigits(l[3..]);
  }

  /** Distinct labels have distinct ranks. */
  lemma {:induction false} DateRankInjective(a: string, b: string)
    requires IsLabel(a) && IsLabel(b)
    requires DateRank(a) == DateRank(b)
    ensures a == b
  {
    if a != NoDueDate && b != NoDueDate {
      DatedParts(a);
      DatedParts(b);
      assert Year(a) == Year(b) && Month(a) == Month(b);
      TwoDigitsInjective(a[..2], b[..2]);
      TwoDigitsInjective(a[3..], b[3..]);
    }
  }

  /** "No Due Date" sorts before every dated label. */
  lemma NoDueDateFirst(b: string)
    requires IsDatedLabel(b)
    ensures CompareDates(NoDueDate, b) < 0 && CompareDates(b, NoDueDate) > 0
  {
  }

  /** Swapping the arguments of `compareDates` flips the sign of its result. */
  lemma CompareDatesAntisymmetric(a: string, b: string)
    requires IsLabel(a) && IsLabel(b)
    ensures CompareDates(a, b) < 0 <==> CompareDates(b, a) > 0
    ensures CompareDates(a, b) == 0 <==> CompareDates(b, a) == 0
  {
  }

  /** `LabelLeq` is a total order on labels: total, antisymmetric and transitive. */
  lemma LabelLeqTotalOrder(a: string, b: string, c: string)
    requires IsLabel(a) && IsLabel(b) && IsLabel(c)
    ensures LabelLeq(a, b) || LabelLeq(b, a)
    ensures LabelLeq(a, b) && LabelLeq(b, a) ==> a == b
    ensures LabelLeq(a, b) && LabelLeq(b, c) ==> LabelLeq(a, c)
  {
  }

  /** The last two digits of a four-digit year are its value modulo 100. */
  lemma LastTwoDigits(y: string)
    requires IsYearField(y)
    ensures AllDigits(y[2..]) && Number(y[2..]) == Number(y) % 100
  {
    var d0, d1, d2, d3 := DigitValue(y[0]), DigitValue(y[1]), DigitValue(y[2]), DigitValue(y[3]);
    assert y[..3][..2] == y[..2];
    assert y[..3][2] == y[2];
    assert y[..4] == y;
    TwoDigits(y[..2]);
    TwoDigits(y[2..]);
    assert Number(y[..3]) == 10 * Number(y[..2]) + d2;
    assert Number(y) == 100 * Number(y[..2]) + 10 * d2 + d3;
  }

  /**
   * Reading a dated label back: its month is the month field's value and its year the
   * year field's value modulo 100.
   */
  lemma LabelFields(month: string, year: string)
    requires IsMonthField(month) && IsYearField(year)
    requires month != UnsetMonth && year != UnsetYear
    ensures IsDatedLabel(DueDateLabel(month, year))
    ensures Month(DueDateLabel(month, year)) == Number(month)
    ensures Year(DueDateLabel(month, year)) == Number(year) % 100
  {
    var l := DueDateLabel(month, year);
    assert l[..2] == month;
    assert l[3..] == year[2..];
    LastTwoDigits(year);
  }

  /** Dated labels are ordered by year, then by month. */
  lemma DatedOrder(a: string, b: string)
    requires IsDatedLabel(a) && IsDatedLabel(b)
    ensures CompareDates(a, b) < 0 <==> Year(a) < Year(b) || (Year(a) == Year(b) && Month(a) < Month(b))
  {
    DatedParts(a);
    DatedParts(b);
    RankIsLexicographic(Year(a), Month(a), Year(b), Month(b));
  }

  lemma RankIsLexicographic(ya: nat, ma: nat, yb: nat, mb: nat)
    requires ma < 100 && mb < 100
    ensures 100 * ya + ma < 100 * yb + mb <==> ya < yb || (ya == yb && ma < mb)
  {
  }
}
