/**
 * The month label `current_date.strftime('%Y-%m')`: the year in four
 * digits, a dash, the month in two zero-padded digits. Labels are read back
 * by `ParseLabel`, and Python's string order on labels is the order of the
 * months they name.
 */
module MonthLabels {
  import opened Wrappers
  import opened Calendar

  function Pow10(w: nat): (r: nat)
    ensures r >= 1
  {
    if w == 0 then 1 else 10 * Pow10(w - 1)
  }

  function DigitChar(v: int): (c: char)
    requires 0 <= v < 10
    ensures '0' <= c <= '9'
  {
    (('0' as int) + v) as char
  }

  predicate IsDigit(c: char) {
    '0' <= c <= '9'
  }

  function DigitValue(c: char): int
    requires IsDigit(c)
  {
    (c as int) - ('0' as int)
  }

  /** `n` in decimal, zero-padded on the left to `w` digits. */
  function Pad(n: nat, w: nat): (s: string)
    ensures |s| == w
    ensures forall i :: 0 <= i < |s| ==> IsDigit(s[i])
  {
    if w == 0 then [] else Pad(n / 10, w - 1) + [DigitChar(n % 10)]
  }

  /** The number a string of decimal digits spells. */
  function DecimalValue(s: string): nat
    requires forall i :: 0 <= i < |s| ==> IsDigit(s[i])
  {
    if s == [] then 0 else DecimalValue(s[..|s| - 1]) * 10 + DigitValue(s[|s| - 1])
  }

  /**
   * `strftime('%Y-%m')` of a date Python can hold: four digits spelling the
   * year, a dash, two digits spelling the month.
   */
  function MonthLabel(d: Date): (s: string)
    requires InRange(d)
    ensures Spells(s, d.year, d.month)
  {
    var s := Pad(d.year, 4) + "-" + Pad(d.month, 2);
    assert s[..4] == Pad(d.year, 4) && s[5..] == Pad(d.month, 2);
    PadRoundTrip(d.year, 4);
    PadRoundTrip(d.month, 2);
    s
  }

  /** `s` is four digits spelling `year`, a dash, and two digits spelling `month`. */
  predicate Spells(s: string, year: int, month: int) {
    |s| == 7 && s[4] == '-'
    && (forall i :: 0 <= i < 7 && i != 4 ==> IsDigit(s[i]))
    && DecimalValue(s[..4]) == year && DecimalValue(s[5..]) == month
  }

  /** The `%Y-%m` shape: four digits, a dash, two digits naming a month 01 to 12. */
  predicate IsMonthLabel(s: string) {
    |s| == 7 && s[4] == '-'
    && (forall i :: 0 <= i < 7 && i != 4 ==> IsDigit(s[i]))
    && 1 <= DecimalValue(s[5..]) <= 12
  }

  /** Reads a label back into (year, month); None for anything else. */
  function ParseLabel(s: string): (r: Option<(int, int)>)
    ensures r.Some? <==> IsMonthLabel(s)
    ensures r.Some? ==> 0 <= r.value.0 <= 9999 && 1 <= r.value.1 <= 12
  {
    if IsMonthLabel(s) then
      DecimalValueBound(s[..4]);
      Some((DecimalValue(s[..4]), DecimalValue(s[5..])))
    else None
  }

  /** Python's `<` on strings: the first differing character decides, a proper prefix is smaller. */
  predicate LexLess(a: string, b: string) {
    if a == [] then b != []
    else b != [] && (a[0] < b[0] || (a[0] == b[0] && LexLess(a[1..], b[1..])))
  }

  // ---------------------------------------------------------------------
  // Lemmas

  lemma {:induction false} DecimalValueBound(s: string)
    requires forall i :: 0 <= i < |s| ==> IsDigit(s[i])
    ensures DecimalValue(s) < Pow10(|s|)
  {
    if s != [] {
      DecimalValueBound(s[..|s| - 1]);
    }
  }

  /** Reading back a padded number gives the number. */
  lemma {:induction false} PadRoundTrip(n: nat, w: nat)
    requires n < Pow10(w)
    ensures DecimalValue(Pad(n, w)) == n
  {
    if w > 0 {
      var s := Pad(n, w);
      assert s[..|s| - 1] == Pad(n / 10, w - 1);
      PadRoundTrip(n / 10, w - 1);
    }
  }

  /** Every label has the `%Y-%m` shape and reads back as the date's year and month. */
  lemma LabelRoundTrip(d: Date)
    requires InRange(d)
    ensures IsMonthLabel(MonthLabel(d))
    ensures ParseLabel(MonthLabel(d)) == Some((d.year, d.month))
  {
  }

  /** Two dates have the same label exactly when they lie in the same month. */
  lemma LabelInjective(a: Date, b: Date)
    requires InRange(a) && InRange(b)
    ensures MonthLabel(a) == MonthLabel(b) <==> MonthIndex(a) == MonthIndex(b)
  {
    var la, lb := MonthLabel(a), MonthLabel(b);
    if la == lb {
      assert la[..4] == lb[..4] && la[5..] == lb[5..];
    }
    if MonthIndex(a) == MonthIndex(b) {
      assert a.year == b.year && a.month == b.month;
    }
  }

  /** Comparing equal-length heads first, then the tails. */
  lemma {:induction false} LexLessAppend(x: string, y: string, p: string, q: string)
    requires |x| == |y|
    ensures LexLess(x + p, y + q) <==> LexLess(x, y) || (x == y && LexLess(p, q))
  {
    if x != [] {
      assert (x + p)[1..] == x[1..] + p;
      assert (y + q)[1..] == y[1..] + q;
      LexLessAppend(x[1..], y[1..], p, q);
      if x[0] == y[0] {
        assert x[1..] == y[1..] <==> x == y by {
          if x[1..] == y[1..] {
            assert x == [x[0]] + x[1..] && y == [y[0]] + y[1..];
          }
        }
      }
    } else {
      assert x + p == p && y + q == q;
    }
  }

  /** For padded numbers, string order is numeric order. */
  lemma {:induction false} PadOrder(n: nat, m: nat, w: nat)
    requires n < Pow10(w) && m < Pow10(w)
    ensures LexLess(Pad(n, w), Pad(m, w)) <==> n < m
  {
    if w > 0 {
      PadOrder(n / 10, m / 10, w - 1);
      LexLessAppend(Pad(n / 10, w - 1), Pad(m / 10, w - 1), [DigitChar(n % 10)], [DigitChar(m % 10)]);
      PadRoundTrip(n / 10, w - 1);
      PadRoundTrip(m / 10, w - 1);
    }
  }

  /** Labels of the `%Y-%m` shape compare by year first, then by month. */
  lemma LexLessLabelShape(x: string, y: string, p: string, q: string)
    requires |x| == |y|
    ensures LexLess(x + "-" + p, y + "-" + q) <==> LexLess(x, y) || (x == y && LexLess(p, q))
  {
    assert x + "-" + p == x + ("-" + p);
    assert y + "-" + q == y + ("-" + q);
    LexLessAppend(x, y, "-" + p, "-" + q);
    LexLessAppend("-", "-", p, q);
  }

  /**
   * Labels compare as strings the way their months compare in time, so a
   * schedule whose months increase has labels that increase.
   */
  lemma LabelOrder(a: Date, b: Date)
    requires InRange(a) && InRange(b)
    ensures LexLess(MonthLabel(a), MonthLabel(b)) <==> MonthIndex(a) < MonthIndex(b)
  {
    var ya, yb := Pad(a.year, 4), Pad(b.year, 4);
    LexLessLabelShape(ya, yb, Pad(a.month, 2), Pad(b.month, 2));
    PadOrder(a.year, b.year, 4);
    PadOrder(a.month, b.month, 2);
    PadRoundTrip(a.year, 4);
    PadRoundTrip(b.year, 4);
    assert ya == yb <==> a.year == b.year;
  }

  /** The first month of the schedule. */
  lemma FirstLabel()
    ensures MonthLabel(Date(2000, 1, 1)) == "2000-01"
  {
  }
}
