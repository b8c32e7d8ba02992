/** The player clock of components/PodcastPlayer.tsx: `formatTime` turns a
    playback position in seconds into "mm:ss", and `handleEnded` rewinds the
    player. A position is an exact real or JavaScript's NaN; the audio
    element, the generation request and the visualiser are outside the model. */
module PodcastPlayer {
  import opened Types
  import Text

  const Blank := "00:00"

  /** A media time: NaN, or a finite number of seconds. */
  datatype Time = NaN | Finite(seconds: real)

  /** Math.trunc. */
  function Trunc(x: real): int {
    if x >= 0.0 then x.Floor else -((-x).Floor)
  }

  /** The `%` operator on numbers: the remainder takes the sign of the dividend. */
  function Rem(x: real, d: real): real
    requires d > 0.0
  {
    x - d * (Trunc(x / d) as real)
  }

  /** `Math.floor(time / 60)`. */
  function Minutes(t: real): int {
    (t / 60.0).Floor
  }

  /** `Math.floor(time % 60)`. */
  function Seconds(t: real): int {
    Rem(t, 60.0).Floor
  }

  /** `n.toString().padStart(2, '0')`. */
  function Field(n: int): string {
    Text.PadStart(Text.IntToString(n), 2, '0')
  }

  /** `formatTime`. */
  function FormatTime(time: Time): string {
    match time
    case NaN => Blank
    case Finite(t) => Field(Minutes(t)) + ":" + Field(Seconds(t))
  }

  /** For a position from 0 on, the minutes and the seconds below 60 make up
      the whole seconds of the position. */
  lemma ClockFields(t: real)
    requires t >= 0.0
    ensures Minutes(t) >= 0
    ensures 0 <= Seconds(t) < 60
    ensures 60 * Minutes(t) + Seconds(t) == t.Floor
  {
    var m := Minutes(t);
    assert m as real <= t / 60.0 < m as real + 1.0;
    assert 60.0 * (m as real) <= t < 60.0 * (m as real) + 60.0;
    assert Trunc(t / 60.0) == m;
    var rem := Rem(t, 60.0);
    assert rem == t - 60.0 * (m as real);
    var s := rem.Floor;
    assert s as real <= rem < s as real + 1.0;
    assert (60 * m + s) as real <= t < (60 * m + s) as real + 1.0;
  }

  /** A field of a non-negative number is its decimal digits, with a leading
      zero below 10; it is never cut. */
  lemma FieldDigits(n: int)
    requires n >= 0
    ensures |Field(n)| >= 2 && (n < 100 ==> |Field(n)| == 2)
    ensures AllDigits(Field(n))
    ensures Text.DigitsValue(Field(n)) == n
  {
    var d := Text.NatToString(n);
    Text.NatToStringRoundTrip(n);
    if |d| < 2 {
      assert Field(n) == Text.Repeat('0', 2 - |d|) + d;
      Text.LeadingZeros(2 - |d|, d);
    } else if n < 100 {
      NatToStringShort(n);
    }
  }

  /** Below 100 a number has at most two digits. */
  lemma NatToStringShort(n: nat)
    requires n < 100
    ensures |Text.NatToString(n)| <= 2
  {
    if n >= 10 {
      assert Text.NatToString(n) == Text.NatToString(n / 10) + [Text.DigitChar(n % 10)];
    }
  }

  predicate AllDigits(s: string) {
    forall i :: 0 <= i < |s| ==> Text.IsDigit(s[i])
  }

  /** Reads "m:ss" back: exactly one ':', digits on both sides, two of them
      after it. */
  function ParseClock(s: string): (r: Option<int>)
    ensures r.Some? ==> r.value >= 0
  {
    ReadParts(Text.Split(s, ':'))
  }

  /** The pieces around the ':' signs: two of them, digits only, two digits
      in the second. */
  function ReadParts(parts: seq<string>): (r: Option<int>)
    ensures r.Some? ==> r.value >= 0
  {
    if |parts| == 2 && |parts[1]| == 2 && AllDigits(parts[0]) && AllDigits(parts[1]) then Some(60 * Text.DigitsValue(parts[0]) + Text.DigitsValue(parts[1]))
    else None
  }

  /** Two digit strings around one ':', the second of two digits, read back
      as minutes and seconds. */
  lemma ParseJoined(a: string, b: string)
    requires AllDigits(a) && AllDigits(b) && |b| == 2
    ensures ParseClock(a + [':'] + b) == Some(60 * Text.DigitsValue(a) + Text.DigitsValue(b))
  {
    NoColon(a);
    NoColon(b);
    Text.SplitTwo(a, b, ':');
    ReadTwo(a, b);
  }

  lemma NoColon(a: string)
    requires AllDigits(a)
    ensures ':' !in a
  {
  }

  lemma ReadTwo(a: string, b: string)
    requires AllDigits(a) && AllDigits(b) && |b| == 2
    ensures ReadParts([a, b]) == Some(60 * Text.DigitsValue(a) + Text.DigitsValue(b))
  {
  }

  /** One ':' between two strings without one. */
  lemma OneColon(a: string, b: string)
    requires ':' !in a && ':' !in b
    ensures Text.CountChar(a + [':'] + b, ':') == 1
  {
    assert multiset(a + [':'] + b) == multiset(a) + multiset{':'} + multiset(b);
  }

  /** Two digit strings, the second of two digits, joined by ':': at least
      five characters, one ':', and the value `v` they stand for. */
  lemma JoinedValue(a: string, b: string, m: int, s: int, v: int)
    requires AllDigits(a) && AllDigits(b) && |a| >= 2 && |b| == 2
    requires Text.DigitsValue(a) == m && Text.DigitsValue(b) == s && v == 60 * m + s
    ensures var r := a + ":" + b;
      && |r| >= 5
      && Text.CountChar(r, ':') == 1
      && ParseClock(r) == Some(v)
  {
    assert a + ":" + b == a + [':'] + b;
    ParseJoined(a, b);
    assert ':' !in a && ':' !in b;
    OneColon(a, b);
  }

  /** Minutes and seconds below 60 print as at least five characters with
      one ':', and read back as the seconds they stand for. */
  lemma ClockText(m: int, s: int, v: int)
    requires m >= 0 && 0 <= s < 60 && v == 60 * m + s
    ensures var r := Field(m) + ":" + Field(s);
      && |r| >= 5
      && Text.CountChar(r, ':') == 1
      && ParseClock(r) == Some(v)
  {
    var a, b := Field(m), Field(s);
    FieldDigits(m);
    FieldDigits(s);
    JoinedValue(a, b, m, s, v);
  }

  /** For every position from 0 on, the clock text has at least five
      characters and exactly one ':', and reading it back gives the whole
      seconds of the position. */
  lemma FormatRoundTrip(t: real)
    requires t >= 0.0
    ensures |FormatTime(Finite(t))| >= 5
    ensures Text.CountChar(FormatTime(Finite(t)), ':') == 1
    ensures ParseClock(FormatTime(Finite(t))) == Some(t.Floor)
  {
    var m, s := Minutes(t), Seconds(t);
    var q := Field(m) + ":" + Field(s);
    assert FormatTime(Finite(t)) == q;
    var f := t.Floor;
    FloorSplit(t, m, s, f);
    ClockText(m, s, f);
  }

  /** `ClockFields` with the minutes, seconds and whole seconds named. */
  lemma FloorSplit(t: real, m: int, s: int, f: int)
    requires t >= 0.0 && m == Minutes(t) && s == Seconds(t) && f == t.Floor
    ensures m >= 0 && 0 <= s < 60 && 60 * m + s == f
  {
    ClockFields(t);
  }

  /** NaN shows as "00:00", which reads back as the start. */
  lemma NaNIsBlank()
    ensures FormatTime(NaN) == "00:00"
    ensures ParseClock(FormatTime(NaN)) == Some(0)
  {
    assert Field(0) == "00";
    assert Field(0) + ":" + Field(0) == "00:00";
    ClockText(0, 0, 0);
  }

  /** Minutes are never cut to two digits: 7500 seconds show as "125:00". */
  lemma LongPosition()
    ensures FormatTime(Finite(7500.0)) == "125:00"
  {
    assert 7500.0 / 60.0 == 125.0;
    assert Minutes(7500.0) == 125;
    assert Trunc(7500.0 / 60.0) == 125;
    assert Rem(7500.0, 60.0) == 0.0;
    assert Seconds(7500.0) == 0;
    assert Text.NatToString(12) == "12";
    assert Text.NatToString(125) == "125";
    assert Field(125) == "125";
    assert Field(0) == "00";
    assert FormatTime(Finite(7500.0)) == Field(125) + ":" + Field(0);
  }

  /** The playback state `handleEnded` writes. */
  datatype Playback = Playback(isPlaying: bool, currentTime: real, duration: Time, speed: real)

  /** `handleEnded`: playback stops and the clock is back at the start. */
  function HandleEnded(p: Playback): (r: Playback)
    ensures !r.isPlaying && r.currentTime == 0.0
    ensures r.duration == p.duration && r.speed == p.speed
    ensures FormatTime(Finite(r.currentTime)) == Blank
  {
    p.(isPlaying := false, currentTime := 0.0)
  }
}
