/**
  The timeval and timespec macros of include/libbk.h, over all integers.

  Both pairs are seconds and a number of sub-units; they differ only in how many sub-units a
  second has.  A rectified pair is the one of its total in which neither part has the sign
  opposite to the other, and comparing rectified pairs compares totals.
*/
module TimeValue {

  const MICROS := 1_000_000
  const NANOS := 1_000_000_000

  datatype Time = Time(sec: int, sub: int)

  predicate IsUnit(unit: int) { unit == MICROS || unit == NANOS }

  function Total(t: Time, unit: int): int { t.sec * unit + t.sub }

  /** The division of C, which truncates toward zero. */
  function Quotient(a: int, b: int): int
    requires b != 0
  {
    if a >= 0 then a / b else -((-a) / b)
  }

  /** The remainder of C, which has the sign of the dividend. */
  function Remainder(a: int, b: int): int
    requires b != 0
  {
    a - Quotient(a, b) * b
  }

  /** Less than a second of sub-units, and no sign against the seconds. */
  predicate Rectified(t: Time, unit: int)
  {
    -unit < t.sub < unit && !(t.sub < 0 && t.sec > 0) && !(t.sub > 0 && t.sec < 0)
  }

  lemma TruncatedDivision(a: int, unit: int)
    requires IsUnit(unit)
    ensures Quotient(a, unit) * unit + Remainder(a, unit) == a && Remainder(a, -unit) == Remainder(a, unit)
    ensures if a >= 0 then 0 <= Remainder(a, unit) < unit && Quotient(a, unit) >= 0
            else -unit < Remainder(a, unit) <= 0 && Quotient(a, unit) <= 0
  {
  }

  /** BK_TV_RECTIFY and BK_TS_RECTIFY */
  method Rectify(t: Time, unit: int) returns (r: Time)
    requires IsUnit(unit)
    ensures Rectified(r, unit) && Total(r, unit) == Total(t, unit)
  {
    hide Quotient, Remainder;
    var sec, sub := t.sec, t.sub;
    TruncatedDivision(sub, unit);
    if sub >= unit {
      sec := sec + Quotient(sub, unit);
      sub := Remainder(sub, unit);
    }
    TruncatedDivision(sub, unit);
    if sub <= -unit {
      sec := sec + Quotient(sub, unit);
      sub := Remainder(sub, -unit);
    }
    if sub < 0 && sec > 0 {
      sec := sec - 1;
      sub := sub + unit;
    }
    if sub > 0 && sec < 0 {
      sec := sec + 1;
      sub := sub - unit;
    }
    r := Time(sec, sub);
  }

  /** There is one rectified pair of each total. */
  lemma RectifiedIsUnique(a: Time, b: Time, unit: int)
    requires IsUnit(unit) && Rectified(a, unit) && Rectified(b, unit) && Total(a, unit) == Total(b, unit)
    ensures a == b
  {
  }

  /** BK_TV_ADD and BK_TS_ADD */
  method Add(a: Time, b: Time, unit: int) returns (r: Time)
    requires IsUnit(unit)
    ensures Rectified(r, unit) && Total(r, unit) == Total(a, unit) + Total(b, unit)
  {
    r := Rectify(Time(a.sec + b.sec, a.sub + b.sub), unit);
  }

  /** BK_TV_SUB and BK_TS_SUB */
  method Sub(a: Time, b: Time, unit: int) returns (r: Time)
    requires IsUnit(unit)
    ensures Rectified(r, unit) && Total(r, unit) == Total(a, unit) - Total(b, unit)
  {
    r := Rectify(Time(a.sec - b.sec, a.sub - b.sub), unit);
  }

  /** Taking away what was added gives back the same pair, whatever the other one was. */
  method AddThenSub(a: Time, b: Time, unit: int) returns (r: Time)
    requires IsUnit(unit) && Rectified(a, unit)
    ensures r == a
  {
    var s := Add(a, b, unit);
    r := Sub(s, b, unit);
    RectifiedIsUnique(r, a, unit);
  }

  function Sign(x: int): int { if x < 0 then -1 else if x > 0 then 1 else 0 }

  /** BK_TV_CMP: the first of the two differences that is not zero. */
  function CompareByDifference(a: Time, b: Time): int
  {
    if a.sec - b.sec != 0 then a.sec - b.sec else a.sub - b.sub
  }

  /** BK_TS_CMP */
  method CompareExplicitly(a: Time, b: Time) returns (r: int)
    ensures r == Sign(CompareByDifference(a, b))
  {
    if a.sec < b.sec {
      return -1;
    } else if a.sec > b.sec {
      return 1;
    } else if a.sub < b.sub {
      return -1;
    } else if a.sub > b.sub {
      return 1;
    }
    r := 0;
  }

  /** On rectified pairs the comparison has the sign of the difference of the totals. */
  lemma CompareIsOrder(a: Time, b: Time, unit: int)
    requires IsUnit(unit) && Rectified(a, unit) && Rectified(b, unit)
    ensures Sign(CompareByDifference(a, b)) == Sign(Total(a, unit) - Total(b, unit))
  {
  }
}
