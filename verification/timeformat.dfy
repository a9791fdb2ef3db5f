/**
 * `formatTime`: a time in seconds shown as `MM:SS.t`.
 *
 * `Math.floor` of a quotient is floor division; JavaScript's `%` truncates
 * toward zero, so it is written out as `JsRem`.
 */
module TimeFormat {
  import opened Options
  import opened Text

  datatype Clock = Clock(minutes: int, secs: int, tenths: int)

  /** The whole milliseconds a clock reading stands for. */
  function Millis(c: Clock): int {
    c.minutes * 60000 + c.secs * 1000 + c.tenths * 100
  }

  /** JavaScript's `a % m` on integers, for a positive `m`: the sign follows `a`. */
  function JsRem(a: int, m: int): (r: int)
    requires m > 0
    ensures a >= 0 ==> 0 <= r < m
    ensures a < 0 ==> -m < r <= 0
    ensures a >= 0 ==> r == a % m
  {
    if a >= 0 then a % m else -((-a) % m)
  }

  /**
   * The truncating remainder is odd in the dividend: negating `a` negates
   * `a % m`. With the non-negative case this fixes every value.
   */
  lemma JsRemOdd(a: int, m: int)
    requires m > 0
    ensures JsRem(-a, m) == -JsRem(a, m)
  {
  }

  /** The numeric fields `formatTime` prints. */
  function Decompose(seconds: real): (c: Clock)
    ensures seconds >= 0.0 ==>
      && c.minutes >= 0
      && 0 <= c.secs < 60
      && 0 <= c.tenths < 10
      && Millis(c) <= (seconds * 1000.0).Floor < Millis(c) + 100
      && Millis(c) as real <= seconds * 1000.0 < Millis(c) as real + 100.0
  {
    var totalMs := (seconds * 1000.0).Floor;
    var minutes := totalMs / 60000;
    var remainingMs := JsRem(totalMs, 60000);
    var secs := remainingMs / 1000;
    var tenths := JsRem(remainingMs, 1000) / 100;
    Clock(minutes, secs, tenths)
  }

  /** The template literal of `formatTime`: `MM:SS.t`, its first two fields padded to two digits. */
  function Render(c: Clock): (text: string)
    ensures c.minutes >= 0 && c.secs >= 0 && c.tenths >= 0 ==> ParseClock(text) == Some(c)
  {
    FieldsReadBack(c);
    PadStart2(IntToString(c.minutes)) + ":" + PadStart2(IntToString(c.secs)) + "." + IntToString(c.tenths)
  }

  /** `formatTime(seconds)`: for any non-negative time the text reads back as exactly the fields computed. */
  function FormatTime(seconds: real): (text: string)
    ensures seconds >= 0.0 ==> ParseClock(text) == Some(Decompose(seconds))
  {
    Render(Decompose(seconds))
  }

  /** The index of the first `c` in `s`, or `|s|` when there is none. */
  function IndexOf(s: string, c: char): (i: nat)
    ensures i <= |s|
    ensures i < |s| ==> s[i] == c
    ensures forall k :: 0 <= k < i ==> s[k] != c
  {
    if s == [] then 0 else if s[0] == c then 0 else 1 + IndexOf(s[1..], c)
  }

  /** Reads back a `MM:SS.t` display of non-negative fields. */
  function ParseClock(s: string): Option<Clock> {
    var i := IndexOf(s, ':');
    if i == |s| then None
    else
      var rest := s[i + 1..];
      var j := IndexOf(rest, '.');
      if j == |rest| then None
      else
        var m, sec, t := s[..i], rest[..j], rest[j + 1..];
        if AllDigits(m) && AllDigits(sec) && AllDigits(t) then
          Some(Clock(ParseNat(m), ParseNat(sec), ParseNat(t)))
        else
          None
  }

  lemma {:induction false} IndexOfAfterDigits(a: string, c: char, b: string)
    requires AllDigits(a) && !IsDigit(c)
    ensures IndexOf(a + [c] + b, c) == |a|
    decreases |a|
  {
    if a != [] {
      IndexOfAfterDigits(a[1..], c, b);
      assert (a + [c] + b)[1..] == a[1..] + [c] + b;
    }
  }

  /** A digit field padded by `padStart(2, "0")` reads back as its value. */
  lemma PaddedField(n: nat)
    ensures AllDigits(PadStart2(IntToString(n)))
    ensures ParseNat(PadStart2(IntToString(n))) == n
  {
    PadStart2Value(NatToString(n));
    ParseNatToString(n);
  }

  /** Three digit fields joined by `:` and `.` read back field by field. */
  lemma ParseFields(a: string, b: string, t: string)
    requires AllDigits(a) && AllDigits(b) && AllDigits(t)
    ensures ParseClock(a + ":" + b + "." + t) == Some(Clock(ParseNat(a), ParseNat(b), ParseNat(t)))
  {
    var s := a + ":" + b + "." + t;
    assert s == a + [':'] + (b + ['.'] + t);
    IndexOfAfterDigits(a, ':', b + ['.'] + t);
    var rest := s[|a| + 1..];
    assert rest == b + ['.'] + t;
    IndexOfAfterDigits(b, '.', t);
    assert s[..|a|] == a;
    assert rest[..|b|] == b;
    assert rest[|b| + 1..] == t;
  }

  /** Non-negative fields, padded and joined as `Render` joins them, read back field by field. */
  lemma FieldsReadBack(c: Clock)
    ensures c.minutes >= 0 && c.secs >= 0 && c.tenths >= 0 ==>
      ParseClock(PadStart2(IntToString(c.minutes)) + ":" + PadStart2(IntToString(c.secs)) + "." + IntToString(c.tenths))
      == Some(c)
  {
    if c.minutes >= 0 && c.secs >= 0 && c.tenths >= 0 {
      PaddedField(c.minutes);
      PaddedField(c.secs);
      ParseNatToString(c.tenths);
      ParseFields(PadStart2(IntToString(c.minutes)), PadStart2(IntToString(c.secs)), IntToString(c.tenths));
    }
  }

  /** While the race is under 100 minutes the display has the fixed shape `MM:SS.t`. */
  lemma FormatTimeLength(seconds: real)
    requires 0.0 <= seconds < 6000.0
    ensures |FormatTime(seconds)| == 7
  {
    var c := Decompose(seconds);
    assert c.minutes < 100;
    TwoDigits(c.minutes);
    TwoDigits(c.secs);
  }

  lemma TwoDigits(n: nat)
    requires n < 100
    ensures |NatToString(n)| <= 2
  {
    if n >= 10 {
      assert NatToString(n) == NatToString(n / 10) + [DigitChar(n % 10)];
    }
  }
}
