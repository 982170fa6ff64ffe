/**
 `formatTime(ms)` of src/background/utils.js (and its twins in
 background.js, popup.js and dataFormatter.js): milliseconds shown as
 `HHh MMm SSs`, `MMm SSs` or `SSs`.
 */
module TimeFormat {
  import opened Values
  import opened Strings
  import opened Numerals

  /** JavaScript `a % b` for a positive divisor: the sign follows the dividend. */
  function JsRem(a: int, b: int): (r: int)
    requires b > 0
    ensures a >= 0 ==> r == a % b
    ensures -b < r < b
  {
    if a >= 0 then a % b else -((-a) % b)
  }

  datatype Clock = Clock(hours: int, minutes: int, seconds: int)

  /**
   The hours, minutes and seconds of `ms`, as the source computes them with
   `Math.floor` and `%`. For a non-negative duration they are the
   mixed-radix digits of the whole seconds.
   */
  function Decompose(ms: int): (c: Clock)
    ensures ms >= 0 ==> c.hours >= 0 && 0 <= c.minutes < 60 && 0 <= c.seconds < 60
    ensures ms >= 0 ==> c.hours * 3600 + c.minutes * 60 + c.seconds == ms / 1000
  {
    var total := ms / 1000;          // Math.floor(ms / 1000): floor for a positive divisor
    var hours := total / 3600;
    var rest := JsRem(total, 3600);  // totalSeconds %= 3600
    Clock(hours, rest / 60, JsRem(rest, 60))
  }

  function FormatClock(c: Clock): string {
    if c.hours > 0 then PadZero(c.hours) + "h " + PadZero(c.minutes) + "m " + PadZero(c.seconds) + "s"
    else if c.minutes > 0 then PadZero(c.minutes) + "m " + PadZero(c.seconds) + "s"
    else PadZero(c.seconds) + "s"
  }

  function FormatTime(ms: int): string {
    FormatClock(Decompose(ms))
  }

  /**
   `formatTime` of src/popup/dataFormatter.js, which takes the minutes from
   `(totalSeconds % 3600) / 60` after `totalSeconds` was already reduced.
   */
  function PopupFormatTime(ms: int): string {
    var total := ms / 1000;
    var hours := total / 3600;
    var rest := JsRem(total, 3600);
    FormatClock(Clock(hours, JsRem(rest, 3600) / 60, JsRem(rest, 60)))
  }

  /** The popup's extra `% 3600` is a no-op: both versions agree on every input. */
  lemma PopupFormatTimeAgrees(ms: int)
    ensures PopupFormatTime(ms) == FormatTime(ms)
  {
    var rest := JsRem(ms / 1000, 3600);
    assert JsRem(rest, 3600) == rest;
  }

  // ---- Reading a formatted duration back ----

  /** One `NNu` component: digits followed by the unit letter. */
  function ParseComponent(p: string, unit: char): Option<nat> {
    if |p| >= 1 && p[|p| - 1] == unit && |p| >= 2 && AllDigits(p[..|p| - 1])
    then Some(DigitsValue(p[..|p| - 1]))
    else None
  }

  /** The whole seconds a formatted duration denotes, if it has one of the three shapes. */
  function ParseDuration(s: string): Option<int> {
    ParseParts(Split(s, ' '))
  }

  function ParseParts(parts: seq<string>): Option<int> {
    if |parts| == 3 then
      match (ParseComponent(parts[0], 'h'), ParseComponent(parts[1], 'm'), ParseComponent(parts[2], 's'))
      case (Some(h), Some(m), Some(sec)) => Some(h * 3600 + m * 60 + sec)
      case _ => None
    else if |parts| == 2 then
      match (ParseComponent(parts[0], 'm'), ParseComponent(parts[1], 's'))
      case (Some(m), Some(sec)) => Some(m * 60 + sec)
      case _ => None
    else if |parts| == 1 then ParseComponent(parts[0], 's')
    else None
  }

  lemma ComponentRoundTrip(n: nat, unit: char)
    requires !IsDigit(unit) && unit != ' '
    ensures ' ' !in PadZero(n) + [unit]
    ensures ParseComponent(PadZero(n) + [unit], unit) == Some(n)
  {
    var p := PadZero(n) + [unit];
    assert p[..|p| - 1] == PadZero(n);
    forall i | 0 <= i < |p| ensures p[i] != ' ' {
      if i < |p| - 1 { assert IsDigit(PadZero(n)[i]); }
    }
  }

  /** Three space-free components joined by spaces split back and read as hours, minutes and seconds. */
  lemma ReadThree(h: nat, m: nat, sec: nat, a: string, b: string, d: string, s: string)
    requires ' ' !in a + ['h'] && ' ' !in b + ['m'] && ' ' !in d + ['s']
    requires ParseComponent(a + ['h'], 'h') == Some(h)
    requires ParseComponent(b + ['m'], 'm') == Some(m)
    requires ParseComponent(d + ['s'], 's') == Some(sec)
    requires s == a + "h " + b + "m " + d + "s"
    ensures ParseDuration(s) == Some(h * 3600 + m * 60 + sec)
    ensures |Split(s, ' ')| == 3
  {
    var ph, pm, ps := a + ['h'], b + ['m'], d + ['s'];
    SplitNoSep(ps, ' ');
    SplitCons(pm, ' ', ps);
    var t := pm + [' '] + ps;
    SplitCons(ph, ' ', t);
    assert ph + [' '] + t == s;
  }

  lemma ReadTwo(m: nat, sec: nat, b: string, d: string, s: string)
    requires ' ' !in b + ['m'] && ' ' !in d + ['s']
    requires ParseComponent(b + ['m'], 'm') == Some(m)
    requires ParseComponent(d + ['s'], 's') == Some(sec)
    requires s == b + "m " + d + "s"
    ensures ParseDuration(s) == Some(m * 60 + sec)
    ensures |Split(s, ' ')| == 2
  {
    var pm, ps := b + ['m'], d + ['s'];
    SplitNoSep(ps, ' ');
    SplitCons(pm, ' ', ps);
    assert pm + [' '] + ps == s;
  }

  lemma ReadOne(sec: nat, d: string, s: string)
    requires ' ' !in d + ['s']
    requires ParseComponent(d + ['s'], 's') == Some(sec)
    requires s == d + "s"
    ensures ParseDuration(s) == Some(sec)
    ensures |Split(s, ' ')| == 1
  {
    SplitNoSep(s, ' ');
  }

  /**
   Reading back what `formatTime` printed gives the whole seconds of a
   clock with non-negative fields, and the number of space-separated
   components is three exactly when there are hours, two when there are
   minutes but no hours, and one otherwise.
   */
  lemma FormatClockRoundTrip(c: Clock)
    requires c.hours >= 0 && c.minutes >= 0 && c.seconds >= 0
    ensures ParseDuration(FormatClock(c)) == Some(c.hours * 3600 + c.minutes * 60 + c.seconds)
    ensures |Split(FormatClock(c), ' ')| == if c.hours > 0 then 3 else if c.minutes > 0 then 2 else 1
  {
    if c.hours > 0 {
      PrintedThree(c.hours, c.minutes, c.seconds);
    } else if c.minutes > 0 {
      PrintedTwo(c.minutes, c.seconds);
    } else {
      PrintedOne(c.seconds);
    }
  }

  lemma PrintedThree(h: nat, m: nat, sec: nat)
    requires h > 0
    ensures ParseDuration(FormatClock(Clock(h, m, sec))) == Some(h * 3600 + m * 60 + sec)
    ensures |Split(FormatClock(Clock(h, m, sec)), ' ')| == 3
  {
    ComponentRoundTrip(h, 'h');
    ComponentRoundTrip(m, 'm');
    ComponentRoundTrip(sec, 's');
    ReadThree(h, m, sec, PadZero(h), PadZero(m), PadZero(sec), FormatClock(Clock(h, m, sec)));
  }

  lemma PrintedTwo(m: nat, sec: nat)
    requires m > 0
    ensures ParseDuration(FormatClock(Clock(0, m, sec))) == Some(m * 60 + sec)
    ensures |Split(FormatClock(Clock(0, m, sec)), ' ')| == 2
  {
    ComponentRoundTrip(m, 'm');
    ComponentRoundTrip(sec, 's');
    ReadTwo(m, sec, PadZero(m), PadZero(sec), FormatClock(Clock(0, m, sec)));
  }

  lemma PrintedOne(sec: nat)
    ensures ParseDuration(FormatClock(Clock(0, 0, sec))) == Some(sec)
    ensures |Split(FormatClock(Clock(0, 0, sec)), ' ')| == 1
  {
    ComponentRoundTrip(sec, 's');
    ReadOne(sec, PadZero(sec), FormatClock(Clock(0, 0, sec)));
  }

  /** The same for a non-negative duration in milliseconds: `formatTime` keeps the whole seconds. */
  lemma FormatTimeRoundTrip(ms: int)
    requires ms >= 0
    ensures ParseDuration(FormatTime(ms)) == Some(ms / 1000)
    ensures var c := Decompose(ms);
            |Split(FormatTime(ms), ' ')| == if c.hours > 0 then 3 else if c.minutes > 0 then 2 else 1
  {
    FormatClockRoundTrip(Decompose(ms));
  }
}
