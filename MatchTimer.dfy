/** `useMatchTimer`: the `MM:SS` clock text and the fields the hook returns. */
module MatchTimer {
  import opened JsString
  import opened Types

  /** JavaScript `a % b`: the remainder takes the sign of `a`. */
  function JsRem(a: int, b: int): (r: int)
    requires b > 0
    ensures a >= 0 ==> r == a % b
  {
    if a >= 0 then a % b else -((-a) % b)
  }

  /** `formatTime(ms)`. `Math.floor(x / k)` for a positive `k` is Dafny's
      `x / k`; elapsed times are whole milliseconds. */
  function FormatTime(ms: int): string {
    var totalSeconds := ms / 1000;
    var minutes := totalSeconds / 60;
    var seconds := JsRem(totalSeconds, 60);
    PadStart(IntToString(minutes), 2, '0') + ":" + PadStart(IntToString(seconds), 2, '0')
  }

  /** Reads `MM:SS` back: digits, a colon, digits. */
  function ParseClock(s: string): Option<(nat, nat)> {
    var parts := Split(s, ':');
    if |parts| == 2 && parts[0] != "" && parts[1] != "" && AllDigits(parts[0]) && AllDigits(parts[1])
    then Some((DigitsValue(parts[0]), DigitsValue(parts[1])))
    else None
  }

  /** Zero-padding keeps a digit string's digits and value. */
  lemma PadDigits(s: string)
    requires AllDigits(s)
    ensures var p := PadStart(s, 2, '0'); AllDigits(p) && DigitsValue(p) == DigitsValue(s)
  {
    if |s| < 2 {
      LeadingZerosValue(Repeat('0', 2 - |s|), s);
    }
  }

  lemma ShortDecimal(n: nat)
    requires n < 100
    ensures |NatToString(n)| <= 2
  {
    if n >= 10 {
      assert NatToString(n / 10) == [DigitChar(n / 10)];
    }
  }

  /** The padded decimal form of a non-negative number, and its value. */
  lemma PaddedValue(n: nat)
    ensures var p := PadStart(IntToString(n), 2, '0');
      |p| >= 2 && AllDigits(p) && DigitsValue(p) == n && ':' !in p
    ensures n < 100 ==> |PadStart(IntToString(n), 2, '0')| == 2
  {
    NatToStringValue(n);
    PadDigits(NatToString(n));
    if n < 100 {
      ShortDecimal(n);
    }
  }

  /** For a non-negative time the text is two `:`-separated decimal numbers:
      whole minutes, and seconds below 60 in exactly two digits, which
      together give the whole seconds elapsed. Minutes are never truncated. */
  lemma {:induction false} FormatTimeRoundTrip(ms: int)
    requires ms >= 0
    ensures ParseClock(FormatTime(ms)).Some?
    ensures var (m, sec) := ParseClock(FormatTime(ms)).value;
      sec < 60 && m * 60 + sec == ms / 1000
    ensures var parts := Split(FormatTime(ms), ':');
      |parts| == 2 && |parts[0]| >= 2 && |parts[1]| == 2
    ensures |FormatTime(ms)| >= 5
  {
    var t := ms / 1000;
    var mm := PadStart(IntToString(t / 60), 2, '0');
    var ss := PadStart(IntToString(t % 60), 2, '0');
    PaddedValue(t / 60);
    PaddedValue(t % 60);
    assert FormatTime(ms) == Join([':'], [mm, ss]);
    SplitJoin([mm, ss], ':');
  }

  lemma FormatTimeZero()
    ensures FormatTime(0) == "00:00"
  {
    assert IntToString(0) == "0";
    assert PadStart("0", 2, '0') == "00";
  }

  lemma FormatTimeOneMinuteOneSecond()
    ensures FormatTime(61000) == "01:01"
  {
    assert 61000 / 1000 == 61 && 61 / 60 == 1 && JsRem(61, 60) == 1;
    assert IntToString(1) == "1";
    assert PadStart("1", 2, '0') == "01";
  }

  lemma FormatTimeHundredMinutes()
    ensures FormatTime(6000000) == "100:00"
  {
    assert 6000000 / 1000 == 6000 && 6000 / 60 == 100 && JsRem(6000, 60) == 0;
    assert NatToString(10) == "10";
    assert IntToString(100) == "100";
    assert PadStart("100", 2, '0') == "100";
    assert IntToString(0) == "0";
    assert PadStart("0", 2, '0') == "00";
  }

  /** A negative elapsed time (a clock that went backwards) shows the
      truncating remainder: minus one second reads `-1:-1`. */
  lemma FormatTimeNegative()
    ensures FormatTime(-1000) == "-1:-1"
  {
    assert -1000 / 1000 == -1 && -1 / 60 == -1 && JsRem(-1, 60) == -1;
    assert IntToString(-1) == "-1";
    assert PadStart("-1", 2, '0') == "-1";
  }

  /** What the hook returns. The interval that dispatches UPDATE_TIME is not
      part of this model. */
  datatype TimerView = TimerView(formatted: string, currentHalf: int, isPlaying: bool, hasStarted: bool)

  function UseMatchTimer(s: MatchState): (v: TimerView)
    ensures v.hasStarted <==> s.startTime != None
    ensures v.formatted == FormatTime(s.elapsedTime)
    ensures v.currentHalf == s.currentHalf && v.isPlaying == s.isPlaying
  {
    TimerView(FormatTime(s.elapsedTime), s.currentHalf, s.isPlaying, s.startTime != None)
  }
}
