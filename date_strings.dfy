/**
 * Dates are stored as `YYYY-MM-DD` strings and the week and month windows
 * compare them with JavaScript's string operators. This module gives those
 * operators their meaning and proves that, on well-formed dates, string order
 * is calendar order.
 */
module DateStrings {

  /** JavaScript's `a < b` on strings: lexicographic by character, a proper prefix being smaller. */
  predicate Less(a: string, b: string)
  {
    if |a| == 0 then |b| > 0
    else if |b| == 0 then false
    else if a[0] != b[0] then a[0] < b[0]
    else Less(a[1..], b[1..])
  }

  /** JavaScript's `a <= b` (and `b >= a`) on strings: `b < a` is false. */
  predicate AtMost(a: string, b: string)
  {
    !Less(b, a)
  }

  lemma {:induction false} LessIrreflexive(a: string)
    ensures !Less(a, a)
  {
    if |a| > 0 { LessIrreflexive(a[1..]); }
  }

  lemma {:induction false} LessTransitive(a: string, b: string, c: string)
    requires Less(a, b) && Less(b, c)
    ensures Less(a, c)
  {
    if |a| > 0 && |b| > 0 && |c| > 0 && a[0] == b[0] && b[0] == c[0] {
      LessTransitive(a[1..], b[1..], c[1..]);
    }
  }

  /** Two different strings are ordered one way or the other. */
  lemma {:induction false} LessTotal(a: string, b: string)
    requires a != b
    ensures Less(a, b) || Less(b, a)
  {
    if |a| > 0 && |b| > 0 && a[0] == b[0] {
      assert a == [a[0]] + a[1..] && b == [b[0]] + b[1..];
      LessTotal(a[1..], b[1..]);
    }
  }

  /** `AtMost` is a total order on strings, which is what makes `start <= d && d <= end` a window. */
  lemma AtMostIsTotalOrder(a: string, b: string, c: string)
    ensures AtMost(a, a)
    ensures AtMost(a, b) && AtMost(b, a) ==> a == b
    ensures AtMost(a, b) && AtMost(b, c) ==> AtMost(a, c)
    ensures AtMost(a, b) || AtMost(b, a)
  {
    LessIrreflexive(a);
    if a != b { LessTotal(a, b); }
    if Less(c, a) {
      if AtMost(a, b) && AtMost(b, c) {
        if a == b {
        } else if b == c {
        } else {
          LessTotal(a, b);
          LessTotal(b, c);
          LessTransitive(a, b, c);
          LessTransitive(c, a, b);
          LessIrreflexive(b);
        }
      }
    }
    if Less(a, b) && Less(b, a) { LessTransitive(a, b, a); LessIrreflexive(a); }
  }

  /** Comparing two concatenations whose first parts have the same length. */
  lemma {:induction false} LessAppend(a1: string, a2: string, b1: string, b2: string)
    requires |a1| == |b1|
    ensures Less(a1 + a2, b1 + b2) <==> Less(a1, b1) || (a1 == b1 && Less(a2, b2))
  {
    if |a1| == 0 {
      assert a1 + a2 == a2 && b1 + b2 == b2;
    } else {
      assert (a1 + a2)[0] == a1[0] && (b1 + b2)[0] == b1[0];
      assert (a1 + a2)[1..] == a1[1..] + a2 && (b1 + b2)[1..] == b1[1..] + b2;
      LessAppend(a1[1..], a2, b1[1..], b2);
      if a1[0] == b1[0] {
        assert a1 == b1 <==> a1[1..] == b1[1..] by {
          assert a1 == [a1[0]] + a1[1..] && b1 == [b1[0]] + b1[1..];
        }
      }
    }
  }

  predicate IsDigit(c: char) { '0' <= c <= '9' }

  function DigitValue(c: char): (n: nat)
    requires IsDigit(c)
    ensures n <= 9
  {
    c as int - '0' as int
  }

  predicate AllDigits(s: string) { forall i :: 0 <= i < |s| ==> IsDigit(s[i]) }

  function Pow10(n: nat): (p: nat)
    ensures p >= 1
  {
    if n == 0 then 1 else 10 * Pow10(n - 1)
  }

  /** The number a decimal digit string denotes, most significant digit first. */
  function DecimalValue(s: string): nat
    requires AllDigits(s)
  {
    if s == [] then 0 else DigitValue(s[0]) * Pow10(|s| - 1) + DecimalValue(s[1..])
  }

  lemma MulMonotone(a: int, b: int, c: nat)
    requires a <= b
    ensures a * c <= b * c
  {
  }

  lemma MulSucc(a: int, c: int)
    ensures (a + 1) * c == a * c + c
  {
  }

  /** The first digit's weight plus the rest: unfolds one step of `DecimalValue`. */
  lemma DecimalValueCons(s: string)
    requires AllDigits(s) && s != []
    ensures AllDigits(s[1..])
    ensures DecimalValue(s) == DigitValue(s[0]) * Pow10(|s| - 1) + DecimalValue(s[1..])
    ensures Pow10(|s|) == 10 * Pow10(|s| - 1)
  {
    assert forall i :: 0 <= i < |s[1..]| ==> s[1..][i] == s[i + 1];
  }

  /** A string of n digits denotes less than 10^n. */
  lemma {:induction false} DecimalValueBound(s: string)
    requires AllDigits(s)
    ensures DecimalValue(s) < Pow10(|s|)
  {
    if s != [] {
      DecimalValueCons(s);
      var d, p := DigitValue(s[0]), Pow10(|s| - 1);
      DecimalValueBound(s[1..]);
      MulSucc(d, p);
      MulMonotone(d + 1, 10, p);
    }
  }

  /** On digit strings of one length, string order is numeric order. */
  lemma {:induction false} DigitsLessIsNumericLess(a: string, b: string)
    requires AllDigits(a) && AllDigits(b) && |a| == |b|
    ensures Less(a, b) <==> DecimalValue(a) < DecimalValue(b)
  {
    if |a| > 0 {
      DecimalValueCons(a);
      DecimalValueCons(b);
      var p := Pow10(|a| - 1);
      var da, db := DigitValue(a[0]), DigitValue(b[0]);
      if a[0] < b[0] {
        DecimalValueBound(a[1..]);
        MulSucc(da, p);
        MulMonotone(da + 1, db, p);
      } else if b[0] < a[0] {
        DecimalValueBound(b[1..]);
        MulSucc(db, p);
        MulMonotone(db + 1, da, p);
      } else {
        DigitsLessIsNumericLess(a[1..], b[1..]);
      }
    }
  }

  /** On digit strings of one length, equal strings are equal numbers. */
  lemma DigitsEqualIsNumericEqual(a: string, b: string)
    requires AllDigits(a) && AllDigits(b) && |a| == |b|
    ensures a == b <==> DecimalValue(a) == DecimalValue(b)
  {
    if a != b {
      LessTotal(a, b);
      DigitsLessIsNumericLess(a, b);
      DigitsLessIsNumericLess(b, a);
    }
  }

  /** The shape `format(date, "yyyy-MM-dd")` produces: four-digit year, month 01-12, day 01-31. */
  predicate IsDate(s: string)
  {
    && |s| == 10
    && AllDigits(s[..4]) && s[4] == '-' && AllDigits(s[5..7]) && s[7] == '-' && AllDigits(s[8..])
    && 1 <= DecimalValue(s[5..7]) <= 12
    && 1 <= DecimalValue(s[8..]) <= 31
  }

  function Year(s: string): nat requires IsDate(s) { DecimalValue(s[..4]) }
  function Month(s: string): nat requires IsDate(s) { DecimalValue(s[5..7]) }
  function Day(s: string): nat requires IsDate(s) { DecimalValue(s[8..]) }

  /** Calendar order: by year, then month, then day. */
  predicate Earlier(a: string, b: string)
    requires IsDate(a) && IsDate(b)
  {
    || Year(a) < Year(b)
    || (Year(a) == Year(b) && Month(a) < Month(b))
    || (Year(a) == Year(b) && Month(a) == Month(b) && Day(a) < Day(b))
  }

  /** A well-formed date is its year, month and day joined by dashes. */
  lemma DateParts(s: string)
    requires IsDate(s)
    ensures s == s[..4] + ("-" + (s[5..7] + ("-" + s[8..])))
  {
    assert s[4..5] == "-" && s[7..8] == "-";
    assert s == s[..4] + s[4..5] + s[5..7] + s[7..8] + s[8..];
  }

  /** On well-formed dates, JavaScript's string `<` is calendar order. */
  lemma DateLessIsEarlier(a: string, b: string)
    requires IsDate(a) && IsDate(b)
    ensures Less(a, b) <==> Earlier(a, b)
  {
    DateParts(a);
    DateParts(b);
    var dash := "-";
    LessAppend(a[..4], dash + (a[5..7] + (dash + a[8..])), b[..4], dash + (b[5..7] + (dash + b[8..])));
    LessAppend(dash, a[5..7] + (dash + a[8..]), dash, b[5..7] + (dash + b[8..]));
    LessAppend(a[5..7], dash + a[8..], b[5..7], dash + b[8..]);
    LessAppend(dash, a[8..], dash, b[8..]);
    LessIrreflexive(dash);
    DigitsLessIsNumericLess(a[..4], b[..4]);
    DigitsEqualIsNumericEqual(a[..4], b[..4]);
    DigitsLessIsNumericLess(a[5..7], b[5..7]);
    DigitsEqualIsNumericEqual(a[5..7], b[5..7]);
    DigitsLessIsNumericLess(a[8..], b[8..]);
  }

  /** The inclusive window `start <= d && d <= end` on dates is the calendar window. */
  lemma WindowIsCalendarWindow(d: string, start: string, end: string)
    requires IsDate(d) && IsDate(start) && IsDate(end)
    ensures AtMost(start, d) && AtMost(d, end) <==> !Earlier(d, start) && !Earlier(end, d)
  {
    DateLessIsEarlier(d, start);
    DateLessIsEarlier(end, d);
  }
}
