/** Decimal hours of an elapsed time, `round(td.total_seconds() / 3600, 2)`,
    computed exactly on integers: a whole number of seconds in, a whole
    number of hundredths of an hour out. */
module Durations {

  function Abs(x: int): nat { if x < 0 then -x else x }

  /** h is num/den rounded to the nearest integer, ties going to the even one. */
  predicate RoundsHalfEven(num: int, den: nat, h: int)
  {
    2 * Abs(den * h - num) < den || (2 * Abs(den * h - num) == den && h % 2 == 0)
  }

  /** Hundredths of an hour in `seconds` (seconds / 3600 * 100 = seconds / 36),
      rounded half-to-even. */
  function Hundredths(seconds: int): (h: int)
    ensures RoundsHalfEven(seconds, 36, h)
  {
    var q, r := seconds / 36, seconds % 36;
    if 2 * r < 36 then q
    else if 2 * r > 36 then q + 1
    else if q % 2 == 0 then q
    else q + 1
  }

  /** The rounding is determined: at most one h is num/36 rounded half-to-even. */
  lemma RoundingIsUnique(seconds: int, h1: int, h2: int)
    requires RoundsHalfEven(seconds, 36, h1) && RoundsHalfEven(seconds, 36, h2)
    ensures h1 == h2
  {
  }

  /** 08:30:00 is 8.50 hours, 00:15:00 is 0.25 hours, 04:00:00 is 4.00 hours;
      00:00:18 is exactly 0.005 hours and goes to the even 0.00, 00:00:54 is
      exactly 0.015 hours and goes to the even 0.02. */
  lemma {:induction false} HundredthsExamples()
    ensures Hundredths(8 * 3600 + 30 * 60) == 850
    ensures Hundredths(15 * 60) == 25
    ensures Hundredths(4 * 3600) == 400
    ensures Hundredths(18) == 0
    ensures Hundredths(54) == 2
  {
  }
}
