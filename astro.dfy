/** The angle helpers of astrocom/astro.py: a fraction of a turn written out
    as hours (or degrees), minutes and seconds. */
module Astro {
  import opened Codec

  /** A whole unit (hours or degrees) with its minutes and seconds. */
  datatype Sexagesimal = Sexagesimal(whole: int, minutes: int, seconds: int)

  /** The common shape of turn_to_hms and turn_to_dms on `x` units:
      hh = int(x), mm = int(60*x - 60*hh), ss = int(3600*x - 3600*hh - 60*mm). */
  function Split(x: real): (t: Sexagesimal)
    ensures x >= 0.0 ==> t.whole >= 0 && t.minutes >= 0 && t.seconds >= 0
    ensures x <= 0.0 ==> t.whole <= 0 && t.minutes <= 0 && t.seconds <= 0
  {
    var hh := Trunc(x);
    var mm := Trunc(60.0 * x - 60.0 * hh as real);
    var ss := Trunc(3600.0 * x - 3600.0 * hh as real - 60.0 * mm as real);
    Sexagesimal(hh, mm, ss)
  }

  /** turn_to_hms: a fraction of a turn as (hours, minutes, seconds). */
  function TurnToHms(value: real): (t: Sexagesimal)
    ensures t == Split(24.0 * value)
  {
    var hh := Trunc(24.0 * value);
    var mm := Trunc(60.0 * 24.0 * value - 60.0 * hh as real);
    var ss := Trunc(3600.0 * 24.0 * value - 3600.0 * hh as real - 60.0 * mm as real);
    Sexagesimal(hh, mm, ss)
  }

  /** turn_to_dms: a fraction of a turn as (degrees, arcminutes, arcseconds). */
  function TurnToDms(value: real): (t: Sexagesimal)
    ensures t == Split(360.0 * value)
  {
    var dd := Trunc(360.0 * value);
    var mm := Trunc(60.0 * 360.0 * value - 60.0 * dd as real);
    var ss := Trunc(3600.0 * 360.0 * value - 3600.0 * dd as real - 60.0 * mm as real);
    Sexagesimal(dd, mm, ss)
  }

  /** floor(k + z) == k + floor(z) for an integer k. */
  lemma FloorShift(k: int, z: real)
    ensures (k as real + z).Floor == k + z.Floor
  {
  }

  /** For a non-negative amount the minutes and seconds are proper digits of
      base 60, and together with the whole units they count the seconds of
      `x`, rounded down. */
  lemma Sexagesimal60(x: real)
    requires x >= 0.0
    ensures var t := Split(x);
      t.whole == x.Floor &&
      0 <= t.minutes < 60 && 0 <= t.seconds < 60 &&
      3600 * t.whole + 60 * t.minutes + t.seconds == (3600.0 * x).Floor
  {
    var t := Split(x);
    var h := t.whole;
    var y := 60.0 * x - 60.0 * h as real;
    var m := t.minutes;
    var z := 3600.0 * x - 3600.0 * h as real - 60.0 * m as real;
    assert 0.0 <= y < 60.0;
    assert 0.0 <= z < 60.0;
    assert m == y.Floor && t.seconds == z.Floor;
    var k := 3600 * h + 60 * m;
    assert 3600.0 * x == k as real + z;
    FloorShift(k, z);
  }

  /** A negative amount splits into the negated parts of its opposite. */
  lemma SplitOdd(x: real)
    ensures var t := Split(-x); var u := Split(x);
      t == Sexagesimal(-u.whole, -u.minutes, -u.seconds)
  {
    var u := Split(x);
    var h := u.whole;
    var m := u.minutes;
    TruncOdd(x);
    TruncOdd(60.0 * x - 60.0 * h as real);
    assert 60.0 * -x - 60.0 * (-h) as real == -(60.0 * x - 60.0 * h as real);
    TruncOdd(3600.0 * x - 3600.0 * h as real - 60.0 * m as real);
    assert 3600.0 * -x - 3600.0 * (-h) as real - 60.0 * (-m) as real
      == -(3600.0 * x - 3600.0 * h as real - 60.0 * m as real);
  }

  /** int() truncates toward zero, so it commutes with negation. */
  lemma TruncOdd(x: real)
    ensures Trunc(-x) == -Trunc(x)
  {
  }

  /** Within one turn the hours run 0..23 and the degrees 0..359. */
  lemma WithinOneTurn(value: real)
    requires 0.0 <= value < 1.0
    ensures 0 <= TurnToHms(value).whole <= 23
    ensures 0 <= TurnToDms(value).whole <= 359
  {
    Sexagesimal60(24.0 * value);
    Sexagesimal60(360.0 * value);
  }

  /** (hh, mm, ss) counts the whole seconds of time in the turn fraction:
      a turn is 86400 seconds of time. */
  lemma {:induction false} HmsSeconds(value: real)
    requires value >= 0.0
    ensures var t := TurnToHms(value);
      0 <= t.minutes < 60 && 0 <= t.seconds < 60 &&
      3600 * t.whole + 60 * t.minutes + t.seconds == (86400.0 * value).Floor
  {
    Sexagesimal60(24.0 * value);
    assert 3600.0 * (24.0 * value) == 86400.0 * value;
  }

  /** (dd, mm, ss) counts the whole arcseconds in the turn fraction:
      a turn is 1296000 arcseconds. */
  lemma {:induction false} DmsSeconds(value: real)
    requires value >= 0.0
    ensures var t := TurnToDms(value);
      0 <= t.minutes < 60 && 0 <= t.seconds < 60 &&
      3600 * t.whole + 60 * t.minutes + t.seconds == (1296000.0 * value).Floor
  {
    Sexagesimal60(360.0 * value);
    assert 3600.0 * (360.0 * value) == 1296000.0 * value;
  }

  /** A negative fraction gives the negated hours or degrees, minutes and seconds. */
  lemma NegativeTurn(value: real)
    ensures var t := TurnToHms(-value); var u := TurnToHms(value);
      t == Sexagesimal(-u.whole, -u.minutes, -u.seconds)
    ensures var t := TurnToDms(-value); var u := TurnToDms(value);
      t == Sexagesimal(-u.whole, -u.minutes, -u.seconds)
  {
    SplitOdd(24.0 * value);
    assert 24.0 * -value == -(24.0 * value);
    SplitOdd(360.0 * value);
    assert 360.0 * -value == -(360.0 * value);
  }

  /** A quarter turn is 6h 0m 0s and 90 degrees 0' 0". */
  lemma QuarterTurn()
    ensures TurnToHms(0.25) == Sexagesimal(6, 0, 0)
    ensures TurnToDms(0.25) == Sexagesimal(90, 0, 0)
  {
  }
}
