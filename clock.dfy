/** The clock readout of the timer screen: `formatTime` turns a millisecond
    count into "HH:MM:SS" with JavaScript's number semantics (Math.floor,
    the truncating `%` operator, String(n) and padStart(2, "0")). */
module Clock {

  predicate IsDigit(c: char) {
    '0' <= c <= '9'
  }

  function DigitChar(d: nat): (c: char)
    requires d < 10
    ensures IsDigit(c) && c as int - '0' as int == d
  {
    ('0' as int + d) as char
  }

  /** The decimal digits of `n`, most significant first, without leading zeros
      (DigitsCanonical). */
  function Digits(n: nat): (r: string)
    ensures 1 <= |r|
    ensures forall i :: 0 <= i < |r| ==> IsDigit(r[i])
    ensures n < 10 <==> |r| == 1
    ensures 10 <= n < 100 ==> |r| == 2
  {
    if n < 10 then [DigitChar(n)] else Digits(n / 10) + [DigitChar(n % 10)]
  }

  /** Only zero itself is written with a leading '0'. */
  lemma {:induction false} DigitsCanonical(n: nat)
    ensures n == 0 || Digits(n)[0] != '0'
    decreases n
  {
    if n >= 10 {
      DigitsCanonical(n / 10);
    }
  }

  /** The number a string of decimal digits denotes (the reading direction
      of a clock field). */
  function Value(s: string): int {
    if s == [] then 0 else Value(s[..|s| - 1]) * 10 + (s[|s| - 1] as int - '0' as int)
  }

  /** Reading back the digits of `n` gives `n`. */
  lemma {:induction false} ValueOfDigits(n: nat)
    ensures Value(Digits(n)) == n
  {
    if n >= 10 {
      var d := Digits(n);
      assert d[..|d| - 1] == Digits(n / 10);
      ValueOfDigits(n / 10);
    }
  }

  /** Leading zeros do not change the value a digit string denotes. */
  lemma {:induction false} ValueOfZeroPadded(z: string, s: string)
    requires forall i :: 0 <= i < |z| ==> z[i] == '0'
    ensures Value(z + s) == Value(s)
  {
    if s == [] {
      assert z + s == z;
      ValueOfZeros(z);
    } else {
      assert (z + s)[..|z + s| - 1] == z + s[..|s| - 1];
      ValueOfZeroPadded(z, s[..|s| - 1]);
    }
  }

  lemma {:induction false} ValueOfZeros(z: string)
    requires forall i :: 0 <= i < |z| ==> z[i] == '0'
    ensures Value(z) == 0
  {
    if z != [] {
      ValueOfZeros(z[..|z| - 1]);
    }
  }

  /** JavaScript's String(n) for an integer-valued number. */
  function NumberToString(n: int): (r: string)
    ensures 1 <= |r| && (n < 0 <==> r[0] == '-')
    ensures n >= 0 ==> Value(r) == n && forall i :: 0 <= i < |r| ==> IsDigit(r[i])
    ensures n < 0 ==> Value(r[1..]) == -n && forall i :: 1 <= i < |r| ==> IsDigit(r[i])
  {
    var d := Digits(if n < 0 then -n else n);
    ValueOfDigits(if n < 0 then -n else n);
    assert (['-'] + d)[1..] == d;
    if n < 0 then ['-'] + d else d
  }

  /** JavaScript's s.padStart(width, fill) for a one-character fill: `fill`
      repeated in front of `s` until the result is `width` long; a string
      already that long is returned as it is. */
  function PadStart(s: string, width: nat, fill: char): (r: string)
    ensures |r| == if |s| < width then width else |s|
    ensures r[|r| - |s|..] == s
    ensures forall i :: 0 <= i < |r| - |s| ==> r[i] == fill
  {
    if |s| < width then seq(width - |s|, _ => fill) + s else s
  }

  /** JavaScript's `a % b` for a positive divisor: the remainder of division
      truncated toward zero, which takes the sign of `a`. */
  function JsRem(a: int, b: int): (r: int)
    requires b > 0
    ensures -b < r < b
    ensures a >= 0 ==> 0 <= r
    ensures a < 0 ==> r <= 0
    ensures a == b * TruncDiv(a, b) + r
  {
    if a >= 0 then a % b else -((-a) % b)
  }

  /** The quotient rounded toward zero, the partner of JsRem. */
  function TruncDiv(a: int, b: int): int
    requires b > 0
  {
    if a >= 0 then a / b else -((-a) / b)
  }

  /** The hours, minutes and seconds `formatTime` prints. */
  datatype Fields = Fields(hours: int, minutes: int, seconds: int)

  /** Math.floor(ms / 1000) as a whole number of seconds. */
  function WholeSeconds(ms: real): int {
    (ms / 1000.0).Floor
  }

  /** The three fields formatTime computes from a millisecond count: floor
      division by 3600, floor of the truncating remainder mod 3600 over 60,
      and the truncating remainder mod 60. Dafny's `/` by a positive divisor
      is floor division, so it stands for Math.floor of the quotient. */
  function FieldsOf(ms: real): Fields {
    var t := WholeSeconds(ms);
    Fields(t / 3600, JsRem(t, 3600) / 60, JsRem(t, 60))
  }

  /** One clock field: String(n).padStart(2, "0"). */
  function Field(n: int): (r: string)
    ensures 2 <= |r|
  {
    PadStart(NumberToString(n), 2, '0')
  }

  /** formatTime: `${hours}:${minutes}:${seconds}`, each field padded to two. */
  function FormatTime(ms: real): (r: string)
    ensures |r| >= 8
  {
    var f := FieldsOf(ms);
    Field(f.hours) + ":" + Field(f.minutes) + ":" + Field(f.seconds)
  }

  /** A clock readout of a non-negative count: digits, with a colon third and
      sixth from the end, and at least two hour digits. */
  predicate IsClockText(r: string) {
    |r| >= 8 && r[|r| - 6] == ':' && r[|r| - 3] == ':' &&
    forall i :: 0 <= i < |r| && i != |r| - 6 && i != |r| - 3 ==> IsDigit(r[i])
  }

  /** Reads a clock string back into seconds: the hours are everything before
      the last six characters, then two minute and two second digits. */
  function ReadClock(r: string): int
    requires |r| >= 8
  {
    Value(r[..|r| - 6]) * 3600 + Value(r[|r| - 5..|r| - 3]) * 60 + Value(r[|r| - 2..])
  }

  /** WholeSeconds is the floor: the greatest whole number of seconds not
      above the count. */
  lemma WholeSecondsFloor(ms: real)
    ensures var t := WholeSeconds(ms);
      t as real * 1000.0 <= ms < t as real * 1000.0 + 1000.0
  {
  }

  /** For any count the hours carry its sign, and minutes and seconds stay
      within one unit of sixty either side; for a negative count none of
      the fields is positive. */
  lemma FieldsRange(ms: real)
    ensures var f := FieldsOf(ms);
      (f.hours >= 0 <==> ms >= 0.0) &&
      -60 <= f.minutes < 60 && -60 < f.seconds < 60 &&
      (ms < 0.0 ==> f.hours < 0 && f.minutes <= 0 && f.seconds <= 0)
  {
    WholeSecondsFloor(ms);
  }

  /** For a non-negative count the fields are a positional decomposition of
      the whole seconds: hours * 3600 + minutes * 60 + seconds, with minutes
      and seconds below 60. */
  lemma FieldsDecompose(ms: real)
    requires ms >= 0.0
    ensures var f := FieldsOf(ms);
      0 <= f.hours && 0 <= f.minutes < 60 && 0 <= f.seconds < 60 &&
      f.hours * 3600 + f.minutes * 60 + f.seconds == WholeSeconds(ms)
  {
    var t := WholeSeconds(ms);
    assert t >= 0;
    var q, r := t / 3600, t % 3600;
    assert t == q * 3600 + r;
    var m, s := r / 60, r % 60;
    assert r == m * 60 + s;
    assert t == q * 3600 + m * 60 + s;
    assert t == (q * 60 + m) * 60 + s;
    assert t % 60 == s;
  }

  /** A non-negative field prints as its decimal digits with a leading zero
      below ten, and reads back as itself. */
  lemma FieldOfNatural(n: nat)
    ensures forall i :: 0 <= i < |Field(n)| ==> IsDigit(Field(n)[i])
    ensures Value(Field(n)) == n
    ensures n < 100 ==> |Field(n)| == 2
  {
    var d := Digits(n);
    var z := if |d| < 2 then seq(2 - |d|, _ => '0') else [];
    assert Field(n) == z + d;
    ValueOfDigits(n);
    ValueOfZeroPadded(z, d);
  }

  /** For a non-negative count formatTime prints only digits and the two
      colons, at least eight characters, and reading it back gives the whole
      seconds (the round trip of the display). */
  lemma FormatTimeRoundTrip(ms: real)
    requires ms >= 0.0
    ensures var r := FormatTime(ms);
      IsClockText(r) &&
      ReadClock(r) == WholeSeconds(ms)
  {
    var f := FieldsOf(ms);
    FieldsDecompose(ms);
    FieldsLayout(f.hours, f.minutes, f.seconds);
  }

  /** The printed fields of a positional decomposition read back as its seconds. */
  lemma FieldsLayout(h: nat, m: nat, s: nat)
    requires m < 60 && s < 60
    ensures var r := Field(h) + ":" + Field(m) + ":" + Field(s);
      IsClockText(r) && |r| == |Field(h)| + 6 &&
      ReadClock(r) == h * 3600 + m * 60 + s
  {
    FieldOfNatural(h);
    FieldOfNatural(m);
    FieldOfNatural(s);
    ClockLayout(Field(h), Field(m), Field(s));
  }

  /** Where the fields sit in "H:MM:SS" when the last two are two digits. */
  lemma ClockLayout(h: string, m: string, s: string)
    requires 2 <= |h| && |m| == 2 && |s| == 2
    requires forall i :: 0 <= i < |h| ==> IsDigit(h[i])
    requires forall i :: 0 <= i < |m| ==> IsDigit(m[i])
    requires forall i :: 0 <= i < |s| ==> IsDigit(s[i])
    ensures var r := h + ":" + m + ":" + s;
      IsClockText(r) &&
      ReadClock(r) == Value(h) * 3600 + Value(m) * 60 + Value(s)
  {
    var r := h + ":" + m + ":" + s;
    assert r == h + [':', m[0], m[1], ':', s[0], s[1]];
    assert r[..|r| - 6] == h;
    assert r[|r| - 5..|r| - 3] == m;
    assert r[|r| - 2..] == s;
    forall i | 0 <= i < |r| && i != |r| - 6 && i != |r| - 3
      ensures IsDigit(r[i])
    {
      if i < |h| {
        assert r[i] == h[i];
      }
    }
  }

  /** Below 100 hours (360,000,000 ms) the readout is exactly "HH:MM:SS". */
  lemma FormatTimeEightChars(ms: real)
    requires 0.0 <= ms < 360_000_000.0
    ensures var r := FormatTime(ms);
      |r| == 8 && r[2] == ':' && r[5] == ':'
  {
    var f := FieldsOf(ms);
    HoursBelowHundred(ms);
    TwoDigitLayout(f.hours, f.minutes, f.seconds);
  }

  lemma TwoDigitLayout(h: nat, m: nat, s: nat)
    requires h < 100 && m < 60 && s < 60
    ensures var r := Field(h) + ":" + Field(m) + ":" + Field(s);
      |r| == 8 && r[2] == ':' && r[5] == ':'
  {
    FieldWidth(h);
    FieldWidth(m);
    FieldWidth(s);
    EightLayout(Field(h), Field(m), Field(s));
  }

  lemma FieldWidth(n: nat)
    requires n < 100
    ensures |Field(n)| == 2
  {
    assert NumberToString(n) == Digits(n);
  }

  lemma EightLayout(a: string, b: string, c: string)
    requires |a| == 2 && |b| == 2 && |c| == 2
    ensures var r := a + ":" + b + ":" + c;
      |r| == 8 && r[2] == ':' && r[5] == ':'
  {
  }

  lemma HoursBelowHundred(ms: real)
    requires 0.0 <= ms < 360_000_000.0
    ensures var f := FieldsOf(ms);
      0 <= f.hours < 100 && 0 <= f.minutes < 60 && 0 <= f.seconds < 60
  {
    FieldsDecompose(ms);
    assert WholeSeconds(ms) < 360_000;
  }

  /** A negative count is printed with a minus sign in front: the code does
      not clamp at zero. */
  lemma FormatTimeNegative(ms: real)
    requires ms < 0.0
    ensures FormatTime(ms)[0] == '-'
  {
    var f := FieldsOf(ms);
    assert WholeSeconds(ms) < 0;
    assert f.hours < 0;
    var h := NumberToString(f.hours);
    assert |h| >= 2;
    assert Field(f.hours) == h;
  }

  /** Any count in the second just below zero prints as "-1:-1:-1". */
  lemma FormatTimeJustBelowZero(ms: real)
    requires -1000.0 <= ms < 0.0
    ensures FormatTime(ms) == "-1:-1:-1"
  {
    assert WholeSeconds(ms) == -1;
    assert FieldsOf(ms) == Fields(-1, -1, -1);
    assert Digits(1) == "1";
    assert NumberToString(-1) == "-1";
    assert Field(-1) == "-1";
  }
}
