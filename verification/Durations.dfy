// time.Duration as text: Duration.String, which the operator uses to write a window into a
// variable, and ParseDuration, with which the exporter reads it. A duration is an int64 count of
// nanoseconds.
module Durations {
  import opened GoStrings

  const SECOND := 1_000_000_000
  const MINUTE := 60 * SECOND
  const HOUR := 60 * MINUTE

  function Pow10(n: nat): (p: nat)
    ensures p > 0
  {
    if n == 0 then 1 else 10 * Pow10(n - 1)
  }

  lemma {:induction false} Pow10Add(a: nat, b: nat)
    ensures Pow10(a + b) == Pow10(a) * Pow10(b)
  {
    if a > 0 { Pow10Add(a - 1, b); }
  }

  // n divided by 10^places, rounded down.
  function Shift(n: nat, places: nat): nat {
    if places == 0 then n else Shift(n / 10, places - 1)
  }

  // ----- Duration.String -----

  ghost predicate AllDigits(s: string) { forall i :: 0 <= i < |s| ==> IsDigit(s[i]) }

  // The last `width` decimal digits of v, least significant first in the recursion; trailing zeros are
  // dropped until `started`.
  function FractionDigits(v: nat, width: nat, started: bool): (s: string)
    ensures |s| <= width && (started ==> |s| == width)
    ensures AllDigits(s)
  {
    if width == 0 then ""
    else
      var on := started || v % 10 != 0;
      FractionDigits(v / 10, width - 1, on) + if on then [DigitChar(v % 10)] else ""
  }

  // The point and the digits after it; nothing for a whole number.
  function Point(digits: string): string { if digits == "" then "" else "." + digits }

  function Fraction(v: nat, width: nat): string { Point(FractionDigits(v, width, false)) }

  // u nanoseconds in a unit of 10^width nanoseconds.
  function Decimal(u: nat, width: nat): string { FormatNat(Shift(u, width)) + Fraction(u, width) }

  // The hours and minutes before the seconds of u >= 1s: "5s", "1m30s", "720h0m0s", "1.5s".
  function Clock(u: nat): string {
    (if u < MINUTE then ""
     else if u < HOUR then FormatNat(u / MINUTE) + "m"
     else FormatNat(u / HOUR) + "h" + FormatNat(u / MINUTE % 60) + "m")
    + Decimal(u % MINUTE, 9) + "s"
  }

  function Magnitude(u: nat): string {
    if u == 0 then "0s"
    else if u < 1_000 then Decimal(u, 0) + "ns"
    else if u < 1_000_000 then Decimal(u, 3) + "\U{00B5}s"
    else if u < SECOND then Decimal(u, 6) + "ms"
    else Clock(u)
  }

  function DurationString(d: int): string {
    if d < 0 then "-" + Magnitude(-d) else Magnitude(d)
  }

  // ----- ParseDuration -----

  function UnitOf(u: string): Option<nat> {
    if u == "ns" then Some(1)
    else if u == "us" || u == "\U{00B5}s" || u == "\U{03BC}s" then Some(1_000)
    else if u == "ms" then Some(1_000_000)
    else if u == "s" then Some(SECOND)
    else if u == "m" then Some(MINUTE)
    else if u == "h" then Some(HOUR)
    else None
  }

  // The longest prefix of digits, and the longest prefix free of digits and points.
  function DigitPrefix(s: string): (p: string)
    ensures p <= s && AllDigits(p)
  {
    if s != [] && IsDigit(s[0]) then [s[0]] + DigitPrefix(s[1..]) else ""
  }

  function UnitPrefix(s: string): (p: string)
    ensures p <= s
  {
    if s != [] && !IsDigit(s[0]) && s[0] != '.' then [s[0]] + UnitPrefix(s[1..]) else ""
  }

  const LIMIT := 0x8000_0000_0000_0000

  // `digits` after a point, of a unit; exact here.
  function FractionOf(digits: string, unit: nat): nat
    requires AllDigits(digits)
  {
    Shift(NatValue(digits) * unit, |digits|)
  }

  // n.digits of a unit, in nanoseconds.
  function Worth(n: nat, digits: string, unit: nat): nat
    requires AllDigits(digits)
  {
    n * unit + FractionOf(digits, unit)
  }

  // The digits before and after the point at the front of s, and the text that follows them.
  function Number(s: string): (r: (string, string, string))
    ensures AllDigits(r.0) && AllDigits(r.1) && |r.0| + |r.1| + |r.2| <= |s|
  {
    var whole := DigitPrefix(s);
    var after := s[|whole|..];
    if after != [] && after[0] == '.' then
      var fraction := DigitPrefix(after[1..]);
      (whole, fraction, after[1 + |fraction|..])
    else (whole, "", after)
  }

  // One number and its unit at the front of s, with the text that follows.
  function Component(s: string): (r: Option<(nat, string)>)
    ensures r.Some? ==> |r.value.1| < |s|
  {
    var (whole, fraction, after) := Number(s);
    var name := UnitPrefix(after);
    if whole == "" && fraction == "" then None
    else if name == "" || UnitOf(name).None? then None
    else
      var v := Worth(NatValue(whole), fraction, UnitOf(name).value);
      if v > LIMIT then None else Some((v, after[|name|..]))
  }

  // The components of s added to d; every error is None.
  function Components(s: string, d: nat): (r: Option<nat>)
    requires d <= LIMIT
    ensures r.Some? ==> r.value <= LIMIT
    decreases |s|
  {
    if s == "" then Some(d)
    else
      var c := Component(s);
      if c.None? || d + c.value.0 > LIMIT then None else Components(c.value.1, d + c.value.0)
  }

  function ParseDuration(s: string): (r: Option<int>)
    ensures r.Some? ==> MIN_INT64 <= r.value <= MAX_INT64
  {
    var negative := s != [] && s[0] == '-';
    var rest := if s != [] && (s[0] == '-' || s[0] == '+') then s[1..] else s;
    if rest == "0" then Some(0)
    else if rest == "" then None
    else
      var d := Components(rest, 0);
      if d.None? then None
      else if negative then Some(-(d.value as int))
      else if d.value > MAX_INT64 then None
      else Some(d.value)
  }

  // ----- The round trip -----

  // Dropping trailing zeros loses nothing: scaled back to the full width, the digits are what the
  // whole part leaves of v.
  lemma {:induction false} FractionDigitsValue(v: nat, width: nat, started: bool)
    ensures var s := FractionDigits(v, width, started);
            NatValue(s) * Pow10(width - |s|) + Shift(v, width) * Pow10(width) == v
  {
    if width > 0 {
      var on := started || v % 10 != 0;
      var s, front := FractionDigits(v, width, started), FractionDigits(v / 10, width - 1, on);
      FractionDigitsValue(v / 10, width - 1, on);
      if on {
        assert s[..|s| - 1] == front && s[|s| - 1] == DigitChar(v % 10);
        assert Pow10(width - 1 - |front|) == 1 == Pow10(width - |s|);
        assert NatValue(s) == 10 * NatValue(front) + v % 10;
        assert Shift(v, width) == Shift(v / 10, width - 1) && Pow10(width) == 10 * Pow10(width - 1);
        hide FractionDigits, NatValue, Pow10, Shift;
        Rescale(Shift(v, width), 10, Pow10(width - 1));
      } else {
        assert s == front && Pow10(width - |s|) == 10 * Pow10(width - 1 - |s|);
        assert Shift(v, width) == Shift(v / 10, width - 1) && Pow10(width) == 10 * Pow10(width - 1);
        hide FractionDigits, NatValue, Pow10, Shift;
        Rescale(NatValue(s), 10, Pow10(width - 1 - |s|));
        Rescale(Shift(v, width), 10, Pow10(width - 1));
      }
    }
  }

  lemma Rescale(n: nat, a: nat, b: nat)
    ensures n * (a * b) == a * (n * b) == n * a * b
  {
  }

  lemma {:induction false} DigitPrefixOf(p: string, s: string)
    requires AllDigits(p) && (s == [] || !IsDigit(s[0]))
    ensures DigitPrefix(p + s) == p
  {
    if p == [] {
      assert p + s == s;
    } else {
      assert (p + s)[1..] == p[1..] + s;
      DigitPrefixOf(p[1..], s);
    }
  }

  lemma {:induction false} UnitPrefixOf(p: string, s: string)
    requires forall i :: 0 <= i < |p| ==> !IsDigit(p[i]) && p[i] != '.'
    requires s == [] || IsDigit(s[0])
    ensures UnitPrefix(p + s) == p
  {
    if p == [] {
      assert p + s == s;
    } else {
      assert (p + s)[1..] == p[1..] + s;
      UnitPrefixOf(p[1..], s);
    }
  }

  lemma {:induction false} ShiftBack(n: nat, places: nat)
    ensures Shift(n * Pow10(places), places) == n
  {
    if places > 0 {
      var p := Pow10(places - 1);
      assert n * (10 * p) == 10 * (n * p);
      ShiftBack(n, places - 1);
    }
  }

  // Whole part and digits of a unit of 10^width nanoseconds are worth u nanoseconds.
  lemma DecimalWorth(u: nat, width: nat)
    ensures Worth(Shift(u, width), FractionDigits(u, width, false), Pow10(width)) == u
  {
    hide FractionDigits, NatValue, Pow10, Shift;
    var s := FractionDigits(u, width, false);
    FractionDigitsValue(u, width, false);
    ScaleTwice(NatValue(s), width, |s|);
    ShiftBack(NatValue(s) * Pow10(width - |s|), |s|);
  }

  lemma ScaleTwice(n: nat, width: nat, k: nat)
    requires k <= width
    ensures n * Pow10(width) == n * Pow10(width - k) * Pow10(k)
  {
    hide Pow10;
    Pow10Add(width - k, k);
    Rescale(n, Pow10(width - k), Pow10(k));
  }

  // Every unit name is text that no number can run into.
  lemma UnitIsText(unit: string)
    requires UnitOf(unit).Some?
    ensures unit != "" && forall i :: 0 <= i < |unit| ==> !IsDigit(unit[i]) && unit[i] != '.'
  {
  }

  // The text that may follow a component: the next number, or nothing.
  predicate Boundary(rest: string) { rest == "" || IsDigit(rest[0]) }

  lemma NumberOf(whole: string, digits: string, tail: string)
    requires AllDigits(whole) && AllDigits(digits)
    requires tail != "" && !IsDigit(tail[0]) && tail[0] != '.'
    ensures Number(whole + Point(digits) + tail) == (whole, digits, tail)
  {
    var s, after := whole + Point(digits) + tail, Point(digits) + tail;
    assert s == whole + after;
    DigitPrefixOf(whole, after);
    assert s[|whole|..] == after;
    if digits != "" {
      assert after[1..] == digits + tail;
      DigitPrefixOf(digits, tail);
      assert after[1 + |digits|..] == tail;
    } else {
      assert after == tail;
    }
  }

  // A number and unit are read back as their worth, whatever number follows.
  lemma ComponentOf(n: nat, digits: string, unit: string, rest: string)
    requires AllDigits(digits) && UnitOf(unit).Some? && Boundary(rest)
    requires Worth(n, digits, UnitOf(unit).value) <= LIMIT
    ensures Component(FormatNat(n) + Point(digits) + unit + rest)
         == Some((Worth(n, digits, UnitOf(unit).value), rest))
  {
    UnitIsText(unit);
    FormatNatValue(n);
    hide FormatNat, NatValue, UnitOf, Worth, Number, UnitPrefix;
    assert FormatNat(n) + Point(digits) + unit + rest == FormatNat(n) + Point(digits) + (unit + rest);
    NumberOf(FormatNat(n), digits, unit + rest);
    UnitPrefixOf(unit, rest);
    assert (unit + rest)[|unit|..] == rest;
  }

  // The same inside a sum that stays within range.
  lemma ComponentsOf(n: nat, digits: string, unit: string, rest: string, d: nat)
    requires AllDigits(digits) && UnitOf(unit).Some? && Boundary(rest)
    requires d + Worth(n, digits, UnitOf(unit).value) <= LIMIT
    ensures Components(FormatNat(n) + Point(digits) + unit + rest, d)
         == Components(rest, d + Worth(n, digits, UnitOf(unit).value))
  {
    hide Component, Worth, UnitOf, FormatNat;
    ComponentOf(n, digits, unit, rest);
  }

  // A number of a unit that is a power of ten of nanoseconds.
  lemma DecimalValue(u: nat, width: nat, unit: string, d: nat)
    requires d + u <= LIMIT && UnitOf(unit) == Some(Pow10(width))
    ensures Components(Decimal(u, width) + unit, d) == Some(d + u)
  {
    hide UnitOf, FractionDigits, Worth, Pow10, FormatNat, Component, Shift;
    var digits := FractionDigits(u, width, false);
    DecimalWorth(u, width);
    assert Decimal(u, width) + unit == FormatNat(Shift(u, width)) + Point(digits) + unit + "";
    ComponentsOf(Shift(u, width), digits, unit, "", d);
  }

  // The units as powers of ten of nanoseconds.
  lemma Powers()
    ensures Pow10(0) == 1 && Pow10(3) == 1_000 && Pow10(6) == 1_000_000 && Pow10(9) == SECOND
    ensures UnitOf("ns") == Some(Pow10(0)) && UnitOf("\U{00B5}s") == Some(Pow10(3))
    ensures UnitOf("ms") == Some(Pow10(6)) && UnitOf("s") == Some(Pow10(9))
    ensures UnitOf("m") == Some(MINUTE) && UnitOf("h") == Some(HOUR)
  {
    assert Pow10(3) == 1_000 && Pow10(6) == 1_000 * Pow10(3) && Pow10(9) == 1_000 * Pow10(6);
  }

  lemma WorthOfWhole(n: nat, unit: nat)
    ensures Worth(n, "", unit) == n * unit
  {
  }

  // A whole number of minutes or hours in front of other components.
  lemma WholeValue(n: nat, unit: string, rest: string, d: nat)
    requires UnitOf(unit).Some? && Boundary(rest) && d + Worth(n, "", UnitOf(unit).value) <= LIMIT
    ensures Components(FormatNat(n) + unit + rest, d) == Components(rest, d + Worth(n, "", UnitOf(unit).value))
  {
    hide Worth, UnitOf, FormatNat, Components, FractionOf;
    assert FormatNat(n) + unit + rest == FormatNat(n) + Point("") + unit + rest;
    ComponentsOf(n, "", unit, rest, d);
  }

  lemma MinutesValue(n: nat, u: nat, d: nat)
    requires u < MINUTE && d + Worth(n, "", MINUTE) + u <= LIMIT
    ensures Components(FormatNat(n) + "m" + (Decimal(u, 9) + "s"), d) == Some(d + Worth(n, "", MINUTE) + u)
  {
    Powers();
    hide UnitOf, FormatNat, Components, Pow10, Fraction, Worth;
    WholeValue(n, "m", Decimal(u, 9) + "s", d);
    DecimalValue(u, 9, "s", d + Worth(n, "", MINUTE));
  }

  lemma HoursValue(hours: nat, n: nat, u: nat)
    requires u < MINUTE && Worth(hours, "", HOUR) + Worth(n, "", MINUTE) + u <= LIMIT
    ensures Components(FormatNat(hours) + "h" + (FormatNat(n) + "m" + (Decimal(u, 9) + "s")), 0)
         == Some(Worth(hours, "", HOUR) + Worth(n, "", MINUTE) + u)
  {
    Powers();
    hide UnitOf, FormatNat, Components, Pow10, Decimal, Worth;
    WholeValue(hours, "h", FormatNat(n) + "m" + (Decimal(u, 9) + "s"), 0);
    MinutesValue(n, u, Worth(hours, "", HOUR));
  }

  lemma ClockValue(u: nat)
    requires SECOND <= u <= LIMIT
    ensures Components(Clock(u), 0) == Some(u)
  {
    hide FormatNat, Components, Decimal;
    var tail := Decimal(u % MINUTE, 9) + "s";
    if u < MINUTE {
      Powers();
      DecimalValue(u, 9, "s", 0);
      assert Clock(u) == tail;
    } else if u < HOUR {
      var n, rest := u / MINUTE, u % MINUTE;
      WorthOfWhole(n, MINUTE);
      hide Worth;
      MinutesValue(n, rest, 0);
      assert Clock(u) == FormatNat(n) + "m" + tail;
    } else {
      LongClockValue(u);
    }
  }

  lemma ClockWorth(u: nat)
    ensures Worth(u / HOUR, "", HOUR) + Worth(u / MINUTE % 60, "", MINUTE) + u % MINUTE == u
  {
    WorthOfWhole(u / HOUR, HOUR);
    WorthOfWhole(u / MINUTE % 60, MINUTE);
    hide Worth;
    assert u / HOUR == u / MINUTE / 60;
  }

  lemma LongClockValue(u: nat)
    requires HOUR <= u <= LIMIT
    ensures Components(Clock(u), 0) == Some(u)
  {
    hide FormatNat, Components, Decimal, Worth;
    var hours, n, rest := u / HOUR, u / MINUTE % 60, u % MINUTE;
    ClockWorth(u);
    HoursValue(hours, n, rest);
    assert Clock(u) == FormatNat(hours) + "h" + (FormatNat(n) + "m" + (Decimal(rest, 9) + "s"));
  }

  lemma ZeroValue()
    ensures Components("0s", 0) == Some(0)
  {
    assert "0s" == FormatNat(0) + "s" + "";
    Powers();
    WorthOfWhole(0, SECOND);
    hide Component, UnitOf, FormatNat, Worth;
    WholeValue(0, "s", "", 0);
  }

  lemma MagnitudeValue(u: nat)
    requires u <= LIMIT
    ensures Components(Magnitude(u), 0) == Some(u)
  {
    hide FormatNat, Components, Decimal, Clock;
    Powers();
    hide Pow10, UnitOf;
    if u == 0 {
      ZeroValue();
    } else if u < 1_000 {
      DecimalValue(u, 0, "ns", 0);
    } else if u < 1_000_000 {
      DecimalValue(u, 3, "\U{00B5}s", 0);
    } else if u < SECOND {
      DecimalValue(u, 6, "ms", 0);
    } else {
      ClockValue(u);
    }
  }

  lemma MagnitudeIsNumber(u: nat)
    ensures |Magnitude(u)| >= 2 && IsDigit(Magnitude(u)[0])
  {
    hide Fraction, Pow10;
  }

  // Every int64 duration, whole seconds or not, is read back from its own text; so the two
  // binaries agree on every window.
  lemma ParseDurationString(d: int)
    requires MIN_INT64 <= d <= MAX_INT64
    ensures ParseDuration(DurationString(d)) == Some(d)
  {
    hide Magnitude, Components, IsDigit;
    var u: nat := if d < 0 then -d else d;
    MagnitudeValue(u);
    MagnitudeIsNumber(u);
    assert IsDigit(Magnitude(u)[0]) && !IsDigit('-') && !IsDigit('+') by { SignsAreNotDigits(); }
    if d < 0 {
      assert DurationString(d)[0] == '-' && DurationString(d)[1..] == Magnitude(u);
    }
  }

  lemma SignsAreNotDigits()
    ensures !IsDigit('-') && !IsDigit('+')
  {
  }
}
