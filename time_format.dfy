/** The `MM:SS` rendering of a number of seconds that the session page and the
    countdown timer share: whole minutes are `Math.floor(seconds / 60)`, the
    seconds are `seconds % 60`, and each is printed in decimal and left-padded
    with '0' to two characters. */
module TimeFormat {
  import opened JsRuntime

  /** Both components' `formatTime`. */
  function FormatTime(seconds: int): string
  {
    Pad2(FloorDiv(seconds, 60)) + ":" + Pad2(JsRem(seconds, 60))
  }

  /** `n.toString().padStart(2, '0')`. */
  function Pad2(n: int): string
  {
    PadStart(IntToString(n), 2, '0')
  }

  /** Reads `M:S` back: the text before the first ':' and the text after it must be
      non-empty digit strings and the seconds below 60. This is the reading of the
      display a user makes, and the inverse FormatTime is proved against. */
  function ParseTime(t: string): (r: Option<nat>)
    ensures r.Some? ==> ':' in t
  {
    var i := IndexOf(t, ':');
    if i < 0 then None else ParseParts(t[..i], t[i + 1..])
  }

  function ParseParts(mins: string, secs: string): Option<nat>
  {
    if mins != [] && secs != [] && AllDigits(mins) && AllDigits(secs) && DigitsValue(secs) < 60
    then Some(60 * DigitsValue(mins) + DigitsValue(secs))
    else None
  }

  /** The decimal representation has at most two digits exactly below 100. */
  lemma ShortNat(n: nat)
    ensures |NatToString(n)| <= 2 <==> n < 100
  {
    if n >= 10 {
      assert NatToString(n) == NatToString(n / 10) + [DigitChar(n % 10)];
      assert |NatToString(n / 10)| == 1 <==> n / 10 < 10;
    }
  }

  lemma DigitsHaveNoColon(s: string)
    requires AllDigits(s)
    ensures ':' !in s
  {
  }

  /** A digit string preceded by zeros is a digit string of the same value. */
  lemma ZeroPadded(p: string, d: string)
    requires AllDigits(d) && |d| <= |p| && p[|p| - |d|..] == d
    requires forall k :: 0 <= k < |p| - |d| ==> p[k] == '0'
    ensures AllDigits(p) && DigitsValue(p) == DigitsValue(d)
  {
    var n := |p| - |d|;
    var z := p[..n];
    assert p == z + d by {
      assert p == p[..n] + p[n..];
    }
    LeadingZerosValue(z, d);
  }

  /** Padding a digit string with '0' keeps it a digit string of the same value. */
  lemma PaddedDigits(d: string)
    requires AllDigits(d)
    ensures var p := PadStart(d, 2, '0');
      AllDigits(p) && DigitsValue(p) == DigitsValue(d)
  {
    ZeroPadded(PadStart(d, 2, '0'), d);
  }

  /** A padded `toString` of a natural number is a digit string of at least two
      characters, exactly two below 100, with the number's value. */
  lemma PaddedNat(n: nat)
    ensures var p := Pad2(n);
      2 <= |p| && (n < 100 <==> |p| == 2) && AllDigits(p) && DigitsValue(p) == n && ':' !in p
  {
    var d := NatToString(n);
    assert Pad2(n) == PadStart(d, 2, '0');
    PaddedDigits(d);
    ShortNat(n);
    DigitsHaveNoColon(Pad2(n));
  }

  lemma FirstColon(a: string, b: string)
    requires ':' !in a
    ensures IndexOf(a + ":" + b, ':') == |a|
  {
    var t := a + ":" + b;
    assert t[|a|] == ':';
    assert t[..|a|] == a;
  }

  lemma MinutesAndSeconds(s: nat)
    ensures 60 * (s / 60) + s % 60 == s
  {
  }

  /** On a natural number, FormatTime joins the padded quotient and remainder by 60. */
  lemma Decompose(s: nat)
    ensures FormatTime(s) == Pad2(s / 60) + ":" + Pad2(s % 60)
  {
  }

  lemma ParsePartsDigits(m: string, c: string, mins: nat, secs: nat)
    requires m != [] && c != [] && AllDigits(m) && AllDigits(c)
    requires DigitsValue(m) == mins && DigitsValue(c) == secs && secs < 60
    ensures ParseParts(m, c) == Some(60 * mins + secs)
  {
  }

  lemma ParseSplitsAtColon(m: string, c: string)
    requires AllDigits(m)
    ensures ParseTime(m + ":" + c) == ParseParts(m, c)
  {
    DigitsHaveNoColon(m);
    FirstColon(m, c);
    var t := m + ":" + c;
    assert t[..|m|] == m && t[|m| + 1..] == c;
  }

  /** Round trip: reading the display back gives the number of seconds shown. */
  lemma {:induction false} FormatTimeRoundTrip(s: nat)
    ensures ParseTime(FormatTime(s)) == Some(s)
  {
    var q, r := s / 60, s % 60;
    calc {
      ParseTime(FormatTime(s));
      { Decompose(s); }
      ParseTime(Pad2(q) + ":" + Pad2(r));
      { PaddedNat(q); ParseSplitsAtColon(Pad2(q), Pad2(r)); }
      ParseParts(Pad2(q), Pad2(r));
      { PaddedNat(q); PaddedNat(r); ParsePartsDigits(Pad2(q), Pad2(r), q, r); }
      Some(60 * q + r);
      { MinutesAndSeconds(s); }
      Some(s);
    }
  }

  lemma ReadBack(x: int)
    ensures x >= 0 ==> ParseTime(FormatTime(x)) == Some(x)
  {
    if x >= 0 {
      FormatTimeRoundTrip(x);
    }
  }

  /** Distinct natural numbers of seconds are displayed differently. */
  lemma FormatTimeInjective(a: nat, b: nat)
    requires FormatTime(a) == FormatTime(b)
    ensures a == b
  {
    FormatTimeRoundTrip(a);
    FormatTimeRoundTrip(b);
  }

  /** Below 100 minutes the display is exactly `DD:DD`: two digits of minutes, a
      colon, two digits of seconds, with `minutes * 60 + seconds` the input. */
  lemma FormatTimeShape(s: nat)
    requires s < 6000
    ensures var t := FormatTime(s);
      |t| == 5 && t[2] == ':' && AllDigits(t[..2]) && AllDigits(t[3..])
      && DigitsValue(t[3..]) < 60 && 60 * DigitsValue(t[..2]) + DigitsValue(t[3..]) == s
  {
    var q, r := s / 60, s % 60;
    Decompose(s);
    PaddedNat(q);
    PaddedNat(r);
    SplitFive(Pad2(q), Pad2(r));
    MinutesAndSeconds(s);
  }

  lemma SplitFive(a: string, b: string)
    requires |a| == 2 && |b| == 2
    ensures var t := a + ":" + b;
      |t| == 5 && t[2] == ':' && t[..2] == a && t[3..] == b
  {
    var t := a + ":" + b;
    assert t[..2] == a;
    assert t[3..] == b;
  }

  /** From 100 minutes on, the minutes are not truncated: the display grows. */
  lemma FormatTimeLong(s: nat)
    requires s >= 6000
    ensures |Pad2(s / 60)| > 2
    ensures |FormatTime(s)| > 5
  {
    Decompose(s);
    PaddedNat(s / 60);
    PaddedNat(s % 60);
  }

  lemma FormatZero()
    ensures FormatTime(0) == "00:00"
  {
    assert NatToString(0) == "0";
  }

  /** `padStart` leaves a string that is already wide enough alone. */
  lemma WideEnough(s: string, width: nat, fill: char)
    requires |s| >= width
    ensures PadStart(s, width, fill) == s
  {
  }

  /** A negative integer prints as a minus sign and its magnitude, never padded. */
  lemma PaddedNegative(n: int)
    requires n < 0
    ensures Pad2(n) == "-" + NatToString(-n) && ':' !in Pad2(n)
  {
    WideEnough("-" + NatToString(-n), 2, '0');
    DigitsHaveNoColon(NatToString(-n));
  }

  lemma SplitAtColon(a: string, b: string)
    requires ':' !in a
    ensures var t := a + ":" + b; var i := IndexOf(t, ':');
      i == |a| && t[..i] == a && t[i + 1..] == b
  {
    FirstColon(a, b);
    var t := a + ":" + b;
    assert t[..|a|] == a && t[|a| + 1..] == b;
  }

  lemma PadZero()
    ensures Pad2(0) == "00"
  {
    assert NatToString(0) == "0";
  }

  /** The display of negative minutes `q` and non-positive seconds `r`, with
      magnitudes `mag` and `rem`. */
  lemma NegativeDisplay(q: int, r: int, mag: nat, rem: nat)
    requires q < 0 && q + mag == 0 && r + rem == 0
    ensures Pad2(q) + ":" + Pad2(r)
         == "-" + NatToString(mag) + ":" + (if rem == 0 then "00" else "-" + NatToString(rem))
  {
    PaddedNegative(q);
    if r == 0 {
      PadZero();
    } else {
      PaddedNegative(r);
    }
  }

  /** A digit string after a minus sign has no colon, so the display splits there. */
  lemma SplitNegative(t: string, n: nat, c: string)
    requires t == "-" + NatToString(n) + ":" + c
    ensures var m := "-" + NatToString(n); var i := IndexOf(t, ':');
      i == |m| && t[..i] == m && t[i + 1..] == c
  {
    DigitsHaveNoColon(NatToString(n));
    SplitAtColon("-" + NatToString(n), c);
  }

  /** A negative input, which the session never produces, keeps JavaScript's signs.
      The minutes are the floor of the quotient, a minus sign and the magnitude
      rounded up to whole minutes. The seconds are the truncated remainder: a minus
      sign and the magnitude's remainder, except for a multiple of 60, where the
      remainder is zero (JavaScript's `-0`, which also prints as `0`) and pads to `00`. */
  lemma FormatNegative(s: int)
    requires s < 0
    ensures var m := "-" + NatToString((-s + 59) / 60);
      var c := if (-s) % 60 == 0 then "00" else "-" + NatToString((-s) % 60);
      var t := FormatTime(s);
      var i := IndexOf(t, ':');
      t == m + ":" + c && i >= 2 && t[..i] == m && t[i + 1..] == c
  {
    var mag, rem := (-s + 59) / 60, (-s) % 60;
    var c := if rem == 0 then "00" else "-" + NatToString(rem);
    NegativeEquation(s);
    SplitNegative(FormatTime(s), mag, c);
  }

  lemma NegativeEquation(s: int)
    requires s < 0
    ensures FormatTime(s) == "-" + NatToString((-s + 59) / 60) + ":"
      + (if (-s) % 60 == 0 then "00" else "-" + NatToString((-s) % 60))
  {
    var q, r := FloorDiv(s, 60), JsRem(s, 60);
    NegativeParts(s);
    NegativeDisplay(q, r, (-s + 59) / 60, (-s) % 60);
  }

  /** For a negative count the minutes are minus the magnitude rounded up, and the
      seconds minus the magnitude's remainder. */
  lemma NegativeParts(s: int)
    requires s < 0
    ensures FloorDiv(s, 60) < 0 && -FloorDiv(s, 60) == (-s + 59) / 60
    ensures JsRem(s, 60) == -((-s) % 60)
  {
    var q := FloorDiv(s, 60);
    assert q * 60 <= s < q * 60 + 60;
  }

  lemma PadMinusOne()
    ensures Pad2(-1) == "-1"
  {
    assert NatToString(1) == "1";
    assert IntToString(-1) == "-1";
  }

  /** Five seconds before zero: both parts carry a minus sign. */
  lemma FiveSecondsBeforeZero()
    ensures FormatTime(-5) == "-1:-5"
  {
    assert FloorDiv(-5, 60) == -1;
    assert JsRem(-5, 60) == -5;
    PadMinusOne();
    assert NatToString(5) == "5";
    assert IntToString(-5) == "-5";
    assert Pad2(-5) == "-5";
  }

  /** A whole minute before zero: the remainder is zero and prints as `00`. */
  lemma MinuteBeforeZero()
    ensures FormatTime(-60) == "-1:00"
  {
    assert FloorDiv(-60, 60) == -1;
    assert JsRem(-60, 60) == 0;
    PadMinusOne();
    PadZero();
  }
}
