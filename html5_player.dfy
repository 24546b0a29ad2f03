/**
 * `gva.component.Html5Player.timeFormat`: a media time in seconds shown as
 * minutes and seconds, `MM:SS`. The time is the player's `currentTime` or
 * `duration`, a number that need not be whole.
 */
module Html5Player {
  import opened JsRuntime

  /** The integer part of `x`, rounded toward zero. */
  function Trunc(x: real): int {
    if x >= 0.0 then x.Floor else -((-x).Floor)
  }

  /** JavaScript's `x % d` on numbers: the remainder has the sign of `x`. */
  function JsRemainder(x: real, d: real): real
    requires d > 0.0
  {
    x - d * Trunc(x / d) as real
  }

  /** Whole minutes: seconds over 60, rounded down. */
  function Minutes(seconds: real): int {
    (seconds / 60.0).Floor
  }

  /** Whole seconds past the minute: the JS remainder by 60, rounded down. */
  function Seconds(seconds: real): int {
    JsRemainder(seconds, 60.0).Floor
  }

  /** `timeFormat`: both parts padded with a leading zero below ten, joined by a colon. */
  function TimeFormat(seconds: real): string {
    ZeroPad(Minutes(seconds)) + ":" + ZeroPad(Seconds(seconds))
  }

  /** For a time from 0 up to 100 minutes, the minutes part lies in 0..99 and the seconds part in 0..59. */
  lemma PartsInRange(seconds: real)
    requires 0.0 <= seconds < 6000.0
    ensures 0 <= Minutes(seconds) < 100
    ensures 0 <= Seconds(seconds) < 60
    ensures Minutes(seconds) * 60 + Seconds(seconds) == seconds.Floor
  {
    var m := Minutes(seconds);
    assert m as real <= seconds / 60.0 < m as real + 1.0;
    assert 60.0 * m as real <= seconds < 60.0 * m as real + 60.0;
    assert Trunc(seconds / 60.0) == m;
    var r := JsRemainder(seconds, 60.0);
    assert r == seconds - 60.0 * m as real;
    assert 0.0 <= r < 60.0;
    assert (60 * m) as real == 60.0 * m as real;
    assert seconds.Floor == 60 * m + r.Floor;
  }

  /** From 0 up to 100 minutes the text is exactly `MM:SS`: two digits, a colon, two digits below 60. */
  lemma TimeFormatShape(seconds: real)
    requires 0.0 <= seconds < 6000.0
    ensures |TimeFormat(seconds)| == 5 && TimeFormat(seconds)[2] == ':'
    ensures AllDigits(TimeFormat(seconds)[..2]) && AllDigits(TimeFormat(seconds)[3..])
    ensures DigitsValue(TimeFormat(seconds)[..2]) == Minutes(seconds)
    ensures DigitsValue(TimeFormat(seconds)[3..]) == Seconds(seconds) < 60
  {
    PartsInRange(seconds);
    var mm := ZeroPad(Minutes(seconds));
    var ss := ZeroPad(Seconds(seconds));
    ZeroPadTwoDigits(Minutes(seconds));
    ZeroPadTwoDigits(Seconds(seconds));
    var t := TimeFormat(seconds);
    assert t == mm + ":" + ss;
    assert t[..2] == mm && t[3..] == ss;
  }

  /** Reading an `MM:SS` text back as a number of seconds; `None` for any other text. */
  function ReadBack(t: string): Option<int> {
    if |t| == 5 && t[2] == ':' && AllDigits(t[..2]) && AllDigits(t[3..])
    then Some(DigitsValue(t[..2]) * 60 + DigitsValue(t[3..]))
    else None
  }

  /** Reading the text back gives the whole seconds of the time. */
  lemma TimeFormatRoundTrip(seconds: real)
    requires 0.0 <= seconds < 6000.0
    ensures ReadBack(TimeFormat(seconds)) == Some(seconds.Floor)
  {
    TimeFormatShape(seconds);
    PartsInRange(seconds);
  }

  /** A whole number of seconds from 0 to 5999 reads back as itself. */
  lemma TimeFormatWholeSeconds(s: int)
    requires 0 <= s < 6000
    ensures ReadBack(TimeFormat(s as real)) == Some(s)
  {
    TimeFormatRoundTrip(s as real);
  }

  /** The time at the start, matching the player's initial markup. */
  lemma TimeFormatZero()
    ensures TimeFormat(0.0) == "00:00"
  {
    PartsInRange(0.0);
    assert Minutes(0.0) == 0 && Seconds(0.0) == 0;
  }

  /** A later time never shows an earlier clock. */
  lemma TimeFormatMonotone(a: real, b: real)
    requires 0.0 <= a <= b < 6000.0
    ensures ReadBack(TimeFormat(a)).Some? && ReadBack(TimeFormat(b)).Some?
    ensures ReadBack(TimeFormat(a)).value <= ReadBack(TimeFormat(b)).value
  {
    TimeFormatRoundTrip(a);
    TimeFormatRoundTrip(b);
  }

  /** Below zero the minutes are negative and the padding goes in front of the sign: -1 second shows as `0-1:0-1`. */
  lemma NegativeTime()
    ensures TimeFormat(-1.0) == "0-1:0-1"
  {
    assert Minutes(-1.0) == -1;
    assert Trunc(-1.0 / 60.0) == 0;
    assert JsRemainder(-1.0, 60.0) == -1.0;
    assert Seconds(-1.0) == -1;
  }
}
