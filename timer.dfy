/** The per-word countdown (components/Timer.tsx): `timeLeft` starts at the
    duration, is reset when the reset key or the duration changes, drops by
    one each second while running, never below zero, and reports time-up
    once it is zero. The interval itself is not modelled: each `Tick` is one
    elapsed second. */
module Countdown {

  datatype TimerColor = Red | Orange | Blue

  /** `getTimerColor`. */
  function GetTimerColor(timeLeft: int): (c: TimerColor)
    ensures c == Red <==> timeLeft <= 5
    ensures c == Orange <==> 5 < timeLeft <= 10
    ensures c == Blue <==> 10 < timeLeft
  {
    if timeLeft <= 5 then Red
    else if timeLeft <= 10 then Orange
    else Blue
  }

  /** The interval callback's update of `timeLeft`. */
  function TickValue(prev: int): int {
    if prev <= 1 then 0 else prev - 1
  }

  /** `n` seconds of ticking. */
  function Ticks(t: int, n: nat): int
    decreases n
  {
    if n == 0 then t else Ticks(TickValue(t), n - 1)
  }

  /** A tick never raises the time, never makes it negative, and takes
      exactly one second off while more than one is left. */
  lemma TickBounds(prev: int)
    ensures 0 <= TickValue(prev)
    ensures prev >= 0 ==> TickValue(prev) <= prev
    ensures prev > 0 ==> TickValue(prev) == prev - 1
  {
  }

  /** From `d` seconds, `n` ticks leave `max(0, d - n)`: the timer reaches
      zero after exactly `d` seconds and stays there. */
  lemma {:induction false} TicksFrom(d: int, n: nat)
    requires d >= 0
    ensures Ticks(d, n) == if d - n > 0 then d - n else 0
    decreases n
  {
    if n > 0 {
      TicksFrom(TickValue(d), n - 1);
    }
  }

  /** The timer's state: the time left and the duration it resets to. */
  class Timer {
    var timeLeft: int
    var duration: int

    /** `useState(duration)`. */
    constructor(initialDuration: int)
      ensures timeLeft == initialDuration && duration == initialDuration
    {
      timeLeft, duration := initialDuration, initialDuration;
    }

    /** The reset effect: a new `resetKey` or `duration` sets `timeLeft` to
        the duration. */
    method Reset(newDuration: int)
      modifies this
      ensures duration == newDuration && timeLeft == newDuration
    {
      duration := newDuration;
      timeLeft := duration;
    }

    /** The running effect: while running, a timer at zero (or below) reports
        time-up; otherwise nothing happens now. Time-up is never reported
        while not running. */
    method Check(isRunning: bool) returns (timeUp: bool)
      ensures timeUp <==> isRunning && timeLeft <= 0
    {
      timeUp := isRunning && timeLeft <= 0;
    }

    /** One second of the interval, which exists only while running with time
        left. */
    method Tick(isRunning: bool)
      modifies this
      ensures !isRunning || old(timeLeft) <= 0 ==> timeLeft == old(timeLeft)
      ensures isRunning && old(timeLeft) > 0 ==> timeLeft == old(timeLeft) - 1
      ensures old(timeLeft) >= 0 ==> 0 <= timeLeft <= old(timeLeft)
      ensures duration == old(duration)
    {
      if isRunning && timeLeft > 0 {
        timeLeft := TickValue(timeLeft);
      }
    }

    /** A whole run of the component: a reset to `d`, `n` seconds of the
        interval while running, then the running effect's check. Time-up is
        reported exactly when at least `d` seconds have passed, and the time
        left is what `n` ticks make of `d`. */
    method RunFor(d: int, n: nat) returns (timeUp: bool)
      modifies this
      ensures timeUp <==> n >= d
      ensures d >= 0 ==> timeLeft == Ticks(d, n)
      ensures duration == d
    {
      Reset(d);
      for i := 0 to n
        invariant duration == d
        invariant d >= 0 ==> timeLeft == (if d - i > 0 then d - i else 0)
        invariant d < 0 ==> timeLeft == d
      {
        Tick(true);
      }
      if d >= 0 {
        TicksFrom(d, n);
      }
      timeUp := Check(true);
    }
  }

  // -----------------------------------------------------------------------
  // formatTime

  function DigitChar(d: nat): char
    requires d < 10
  {
    ('0' as int + d) as char
  }

  /** `n.toString()` for a non-negative integer: its decimal digits. */
  function NatToString(n: nat): (s: string)
    ensures |s| >= 1
    ensures forall i :: 0 <= i < |s| ==> '0' <= s[i] <= '9'
    decreases n
  {
    if n < 10 then [DigitChar(n)] else NatToString(n / 10) + [DigitChar(n % 10)]
  }

  /** `n.toString()` for any integer. */
  function IntToString(n: int): string {
    if n < 0 then "-" + NatToString(-n) else NatToString(n)
  }

  /** `s.padStart(2, '0')`. */
  function PadStart2(s: string): (r: string)
    ensures |s| >= 2 ==> r == s
    ensures |s| < 2 ==> |r| == 2 && r[2 - |s|..] == s && forall i :: 0 <= i < 2 - |s| ==> r[i] == '0'
  {
    if |s| >= 2 then s else seq(2 - |s|, _ => '0') + s
  }

  /** JavaScript's `%`, whose result takes the sign of the dividend: the
      remainder of truncating division, so `a - r` is a multiple of `b` and
      `r` lies strictly inside `(-b, b)` on the side of `a`. */
  function JsRem(a: int, b: int): (r: int)
    requires b > 0
    ensures a >= 0 ==> 0 <= r < b
    ensures a < 0 ==> -b < r <= 0
    ensures (a - r) % b == 0
  {
    var m := (if a >= 0 then a else -a) % b;
    RemOffMultiple(if a >= 0 then a else -a, b);
    if a >= 0 then m else -m
  }

  /** Taking off the remainder leaves a multiple of `b`, with either sign. */
  lemma RemOffMultiple(x: int, b: int)
    requires b > 0
    ensures (x - x % b) % b == 0 && (-(x - x % b)) % b == 0
  {
    var q := x / b;
    assert x - x % b == b * q;
    assert -(b * q) == b * -q;
    MultipleRem(b, q);
    MultipleRem(b, -q);
  }

  /** A multiple of `b` leaves no remainder. */
  lemma MultipleRem(b: int, q: int)
    requires b > 0
    ensures (b * q) % b == 0
  {
    var d, m := (b * q) / b, (b * q) % b;
    assert b * (q - d) == m by {
      assert b * q == b * d + m;
    }
    var k := q - d;
    if k >= 1 {
      assert b * k == b + b * (k - 1);
    } else if k <= -1 {
      assert b * k == -b + b * (k + 1);
    }
  }

  /** `formatTime`: minutes (`Math.floor(s / 60)`) and seconds (`s % 60`),
      each padded to two digits, joined by a colon. */
  function FormatTime(seconds: int): string {
    PadStart2(IntToString(seconds / 60)) + ":" + PadStart2(IntToString(JsRem(seconds, 60)))
  }

  function DigitValue(c: char): int {
    c as int - '0' as int
  }

  /** Reading `mm:ss` back as a number of seconds. */
  function ParseTime(s: string): int
    requires |s| == 5
  {
    (10 * DigitValue(s[0]) + DigitValue(s[1])) * 60 + 10 * DigitValue(s[3]) + DigitValue(s[4])
  }

  /** A number below a hundred prints as two digits after padding, and those
      digits read back to the number. */
  lemma TwoDigits(n: nat)
    requires n < 100
    ensures |PadStart2(IntToString(n))| == 2
    ensures forall i :: 0 <= i < 2 ==> '0' <= PadStart2(IntToString(n))[i] <= '9'
    ensures 10 * DigitValue(PadStart2(IntToString(n))[0]) + DigitValue(PadStart2(IntToString(n))[1]) == n
  {
    if n >= 10 {
      assert NatToString(n / 10) == [DigitChar(n / 10)];
    }
  }

  /** Below 100 minutes the display is five characters, `mm:ss`, which reads
      back to the number of seconds shown. */
  lemma FormatTimeRoundTrip(seconds: int)
    requires 0 <= seconds < 6000
    ensures |FormatTime(seconds)| == 5 && FormatTime(seconds)[2] == ':'
    ensures ParseTime(FormatTime(seconds)) == seconds
  {
    TwoDigits(seconds / 60);
    TwoDigits(seconds % 60);
  }

  /** The per-word time of twenty seconds shows as `00:20`. */
  lemma FormatTwentySeconds()
    ensures FormatTime(20) == "00:20"
  {
    assert 20 / 60 == 0 && JsRem(20, 60) == 20;
    assert IntToString(0) == "0";
    assert PadStart2("0") == "00";
    assert IntToString(20) == "20" by {
      assert NatToString(2) == "2" && NatToString(20) == NatToString(2) + "0";
    }
  }
}
