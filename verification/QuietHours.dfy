/** Quiet-hours windows: "HH:mm" strings, offsets "+hh:mm" / "-hh:mm", and the 1440-minute circle. */
module QuietHours {
  import opened Prelude

  const CIRCLE := 1440

  predicate IsDigit(c: char) { '0' <= c <= '9' }

  function Digit(c: char): int
    requires IsDigit(c)
  {
    c as int - '0' as int
  }

  predicate TwoDigits(s: string, i: nat) { i + 1 < |s| && IsDigit(s[i]) && IsDigit(s[i + 1]) }

  function Number(s: string, i: nat): int
    requires TwoDigits(s, i)
  {
    10 * Digit(s[i]) + Digit(s[i + 1])
  }

  predicate IsTime(s: string) {
    |s| == 5 && TwoDigits(s, 0) && s[2] == ':' && TwoDigits(s, 3) && Number(s, 0) < 24 && Number(s, 3) < 60
  }

  predicate IsOffset(s: string) {
    |s| == 6 && (s[0] == '+' || s[0] == '-') && TwoDigits(s, 1) && s[3] == ':' && TwoDigits(s, 4)
  }

  function Minutes(s: string): (m: int)
    requires IsTime(s)
    ensures 0 <= m < CIRCLE
  {
    Number(s, 0) * 60 + Number(s, 3)
  }

  function OffsetMinutes(s: string): int
    requires IsOffset(s)
  {
    var m := Number(s, 1) * 60 + Number(s, 4);
    if s[0] == '-' then -m else m
  }

  function Opposite(s: string): (r: string)
    requires IsOffset(s)
    ensures IsOffset(r) && OffsetMinutes(r) == -OffsetMinutes(s)
  {
    s[0 := if s[0] == '-' then '+' else '-']
  }

  /** String(n).padStart(2, '0') */
  function Pad2(n: int): (s: string)
    requires 0 <= n < 100
    ensures TwoDigits(s, 0) && |s| == 2 && Number(s, 0) == n
  {
    [(n / 10 + '0' as int) as char, (n % 10 + '0' as int) as char]
  }

  function Format(m: int): (s: string)
    requires 0 <= m < CIRCLE
    ensures IsTime(s) && Minutes(s) == m
  {
    var s := Pad2(m / 60) + ":" + Pad2(m % 60);
    assert s[0] == Pad2(m / 60)[0] && s[1] == Pad2(m / 60)[1] && s[3] == Pad2(m % 60)[0] && s[4] == Pad2(m % 60)[1];
    s
  }

  /** JavaScript's %, whose result has the sign of the dividend. */
  function JsMod(a: int, b: int): int
    requires b > 0
  {
    if a >= 0 then a % b else -((-a) % b)
  }

  function ConvertToUTC(localTime: string, offset: string): (utc: string)
    requires IsTime(localTime) && IsOffset(offset)
    ensures IsTime(utc) && Minutes(utc) == (Minutes(localTime) - OffsetMinutes(offset)) % CIRCLE
  {
    var total := Minutes(localTime) - OffsetMinutes(offset);
    JsModTwice(total);
    Format(JsMod(JsMod(JsMod(total, CIRCLE), CIRCLE) + CIRCLE, CIRCLE))
  }

  lemma JsModTwice(a: int)
    ensures JsMod(JsMod(JsMod(a, CIRCLE), CIRCLE) + CIRCLE, CIRCLE) == a % CIRCLE
  {
    JsModOnce(a);
    var r := JsMod(a, CIRCLE);
    JsModSmall(r);
    hide JsMod;
    WrapUp(r);
  }

  /** The remainder lies within one turn either way and differs from a by whole turns. */
  lemma JsModOnce(a: int)
    ensures -CIRCLE < JsMod(a, CIRCLE) < CIRCLE && JsMod(a, CIRCLE) % CIRCLE == a % CIRCLE
  {
    if a >= 0 {
      Wrap(a % CIRCLE);
    } else {
      var q, r := (-a) / CIRCLE, (-a) % CIRCLE;
      assert a == -r + -q * CIRCLE;
      WholeTurns(-r, -q);
    }
  }

  lemma JsModSmall(r: int)
    requires -CIRCLE < r < CIRCLE
    ensures JsMod(r, CIRCLE) == r
  {
    if r >= 0 { Wrap(r); } else { Wrap(-r); }
  }

  lemma WrapUp(r: int)
    requires -CIRCLE < r < CIRCLE
    ensures JsMod(r + CIRCLE, CIRCLE) == r % CIRCLE
  {
    WholeTurns(r, 1);
  }

  lemma {:induction false} MinutesInjective(s: string, t: string)
    requires IsTime(s) && IsTime(t) && Minutes(s) == Minutes(t)
    ensures s == t
  {
    NumberInjective(s, t, 0);
    NumberInjective(s, t, 3);
    hide Number;
    assert s == [s[0], s[1], s[2], s[3], s[4]] && t == [t[0], t[1], t[2], t[3], t[4]];
  }

  lemma {:induction false} NumberInjective(s: string, t: string, i: nat)
    requires TwoDigits(s, i) && TwoDigits(t, i)
    ensures Number(s, i) == Number(t, i) ==> s[i] == t[i] && s[i + 1] == t[i + 1]
    ensures 0 <= Number(s, i) < 100
  {
    assert Digit(s[i]) == Digit(t[i]) ==> s[i] == t[i];
    assert Digit(s[i + 1]) == Digit(t[i + 1]) ==> s[i + 1] == t[i + 1];
  }

  /** Converting by an offset and then by its opposite gives back the original string. */
  lemma {:induction false} ConvertRoundTrip(s: string, offset: string)
    requires IsTime(s) && IsOffset(offset)
    ensures ConvertToUTC(ConvertToUTC(s, offset), Opposite(offset)) == s
  {
    hide ConvertToUTC, Minutes, OffsetMinutes, IsTime, IsOffset, Opposite;
    ShiftBack(Minutes(s), OffsetMinutes(offset));
    MinutesInjective(ConvertToUTC(ConvertToUTC(s, offset), Opposite(offset)), s);
  }

  function Offset(sign: char, time: string): (offset: string)
    requires (sign == '+' || sign == '-') && IsTime(time)
    ensures IsOffset(offset)
  {
    [sign] + time
  }

  /** East of Greenwich local time is ahead: an offset of "+t" takes local t to 00:00, and "-t" takes 00:00 to t. */
  lemma {:induction false} ZoneAhead(time: string)
    requires IsTime(time)
    ensures ConvertToUTC(time, Offset('+', time)) == "00:00" && ConvertToUTC("00:00", Offset('-', time)) == time
  {
    hide *;
    Midnight();
    OffsetOf('+', time);
    OffsetOf('-', time);
    SameMinute(time, Offset('+', time), "00:00");
    SameMinute("00:00", Offset('-', time), time);
  }

  lemma {:induction false} SameMinute(time: string, offset: string, utc: string)
    requires IsTime(time) && IsOffset(offset) && IsTime(utc) && Minutes(time) - OffsetMinutes(offset) == Minutes(utc)
    ensures ConvertToUTC(time, offset) == utc
  {
    hide ConvertToUTC, Minutes, OffsetMinutes, IsTime, IsOffset;
    Wrap(Minutes(utc));
    MinutesInjective(ConvertToUTC(time, offset), utc);
  }

  lemma {:induction false} OffsetOf(sign: char, time: string)
    requires (sign == '+' || sign == '-') && IsTime(time)
    ensures OffsetMinutes(Offset(sign, time)) == if sign == '-' then -Minutes(time) else Minutes(time)
  {
  }

  lemma Midnight()
    ensures IsTime("00:00") && Minutes("00:00") == 0
  {
  }

  /** The minute of a written time: hours count sixty. */
  lemma MinutesOfClock(h: int, m: int)
    requires 0 <= h < 24 && 0 <= m < 60
    ensures Minutes(Pad2(h) + ":" + Pad2(m)) == 60 * h + m
  {
    var s := Pad2(h) + ":" + Pad2(m);
    assert s[0] == Pad2(h)[0] && s[1] == Pad2(h)[1] && s[3] == Pad2(m)[0] && s[4] == Pad2(m)[1];
  }

  lemma ShiftBack(m: int, k: int)
    requires 0 <= m < CIRCLE
    ensures ((m - k) % CIRCLE + k) % CIRCLE == m
  {
  }

  function UtcMinute(now: Time): (m: int)
    ensures 0 <= m < CIRCLE
  {
    now % DAY / MINUTE
  }

  predicate IsWithinQuietHours(now: Time, quietStart: string, quietEnd: string)
    requires IsTime(quietStart) && IsTime(quietEnd)
  {
    var current, start, end := UtcMinute(now), Minutes(quietStart), Minutes(quietEnd);
    if quietStart == "00:00" && quietEnd == "00:00" then true
    else if start == end then false
    else if start > end then current >= start || current < end
    else current >= start && current < end
  }

  /** Going round the circle from start, m comes before end. */
  predicate InArc(m: int, start: int, end: int) {
    (m - start) % CIRCLE < (end - start) % CIRCLE
  }

  lemma {:induction false} WithinIsArc(now: Time, start: string, end: string)
    requires IsTime(start) && IsTime(end) && start != end
    ensures IsWithinQuietHours(now, start, end) == InArc(UtcMinute(now), Minutes(start), Minutes(end))
  {
    if Minutes(start) == Minutes(end) { MinutesInjective(start, end); }
    hide IsTime, Minutes, UtcMinute;
    Wrap(UtcMinute(now) - Minutes(start));
    Wrap(Minutes(end) - Minutes(start));
  }

  lemma Wrap(a: int)
    requires -CIRCLE < a < CIRCLE
    ensures a % CIRCLE == if a < 0 then a + CIRCLE else a
  {
  }

  lemma ArcShifts(m: int, start: int, end: int, k: int)
    ensures InArc(m, (start - k) % CIRCLE, (end - k) % CIRCLE) == InArc((m + k) % CIRCLE, start, end)
  {
    ModDifference(m, start - k, (m + k) - start);
    ModDifference(end - k, start - k, end - start);
    ModDifference(m + k, start, (m + k) - start);
  }

  lemma ModDifference(a: int, b: int, d: int)
    requires a - b == d
    ensures (a % CIRCLE - b % CIRCLE) % CIRCLE == d % CIRCLE && (a - b % CIRCLE) % CIRCLE == d % CIRCLE
            && (a % CIRCLE - b) % CIRCLE == d % CIRCLE
  {
    var i, j := a / CIRCLE, b / CIRCLE;
    assert a % CIRCLE == a - i * CIRCLE && b % CIRCLE == b - j * CIRCLE;
    WholeTurns(d, j - i);
    WholeTurns(d, j);
    WholeTurns(d, -i);
  }

  lemma WholeTurns(d: int, k: int)
    ensures (d + k * CIRCLE) % CIRCLE == d % CIRCLE
  {
  }

  /** Testing UTC time against the converted window is testing local time against the local window. */
  lemma {:induction false} ConvertedWindow(now: Time, start: string, end: string, offset: string)
    requires IsTime(start) && IsTime(end) && IsOffset(offset) && start != end
    ensures IsWithinQuietHours(now, ConvertToUTC(start, offset), ConvertToUTC(end, offset))
            == InArc((UtcMinute(now) + OffsetMinutes(offset)) % CIRCLE, Minutes(start), Minutes(end))
  {
    hide ConvertToUTC, Minutes, OffsetMinutes, IsTime, IsOffset, Opposite, InArc, IsWithinQuietHours, UtcMinute;
    ConvertRoundTrip(start, offset);
    ConvertRoundTrip(end, offset);
    WithinIsArc(now, ConvertToUTC(start, offset), ConvertToUTC(end, offset));
    ArcShifts(UtcMinute(now), Minutes(start), Minutes(end), OffsetMinutes(offset));
  }

  /** The always-quiet sentinel is tested after conversion. With equal ends, the converted test is right
      exactly when the offset is a whole number of days for 00:00, and not the time itself otherwise. */
  lemma {:induction false} SentinelAfterConversion(now: Time, time: string, offset: string)
    requires IsTime(time) && IsOffset(offset)
    ensures var utc := ConvertToUTC(time, offset);
            IsWithinQuietHours(now, utc, utc) == IsWithinQuietHours(now, time, time) <==>
              if time == "00:00" then OffsetMinutes(offset) % CIRCLE == 0
              else Minutes(time) != OffsetMinutes(offset) % CIRCLE
  {
    var utc := ConvertToUTC(time, offset);
    EqualEnds(now, time);
    EqualEnds(now, utc);
    hide ConvertToUTC, Minutes, OffsetMinutes, IsTime, IsOffset, UtcMinute, IsWithinQuietHours;
    ZeroDifference(Minutes(time), OffsetMinutes(offset));
  }

  /** A window whose ends are equal is always quiet at 00:00 and never quiet elsewhere. */
  lemma {:induction false} EqualEnds(now: Time, time: string)
    requires IsTime(time)
    ensures IsWithinQuietHours(now, time, time) == (time == "00:00") && (time == "00:00" <==> Minutes(time) == 0)
  {
    assert IsTime("00:00") && Minutes("00:00") == 0;
    if Minutes(time) == 0 { MinutesInjective(time, "00:00"); }
  }

  lemma ZeroDifference(m: int, k: int)
    requires 0 <= m < CIRCLE
    ensures (m - k) % CIRCLE == 0 <==> m == k % CIRCLE
  {
  }

  // ---- Deferred delivery ----

  /** The end of the window on the day of `now`, or a day later when that has passed. */
  function QuietEnd(now: Time, utcEnd: string): Time
    requires IsTime(utcEnd)
  {
    var today := now - now % DAY + Minutes(utcEnd) * MINUTE;
    if today <= now then today + DAY else today
  }

  /** It lies ahead, within a day, and falls on the window's last minute. */
  lemma {:induction false} QuietEndIsNext(now: Time, utcEnd: string)
    requires IsTime(utcEnd)
    ensures now < QuietEnd(now, utcEnd) <= now + DAY && QuietEnd(now, utcEnd) % DAY == Minutes(utcEnd) * MINUTE
  {
    var m := Minutes(utcEnd) * MINUTE;
    hide IsTime, Minutes;
    ModUnique(now - now % DAY + m, now / DAY, m);
    ModUnique(now - now % DAY + m + DAY, now / DAY + 1, m);
  }

  /** How far `now` is past the last start of the window. */
  function Elapsed(now: Time, start: int): int { (now - start * MINUTE) % DAY }

  lemma ArcInMs(now: Time, start: int, end: int)
    requires 0 <= start < CIRCLE && 0 <= end < CIRCLE
    ensures InArc(UtcMinute(now), start, end) <==> Elapsed(now, start) < (end - start) % CIRCLE * MINUTE
  {
    var x := now % DAY;
    SplitMs(now, start);
    Wrap(UtcMinute(now) - start);
  }

  lemma SplitMs(now: Time, start: int)
    requires 0 <= start < CIRCLE
    ensures Elapsed(now, start)
            == (if UtcMinute(now) < start then UtcMinute(now) - start + CIRCLE else UtcMinute(now) - start) * MINUTE
                                   + now % MINUTE
  {
    var x := now % DAY;
    DayMinute(now);
    if x < start * MINUTE { ModPlus(now, DAY - start * MINUTE); MinusDay(now, start * MINUTE); }
    else { ModPlus(now, -start * MINUTE); }
  }

  lemma DayMinute(now: Time)
    ensures now % DAY == UtcMinute(now) * MINUTE + now % MINUTE
  {
    var q, x := now / DAY, now % DAY;
    assert now == (q * CIRCLE + x / MINUTE) * MINUTE + x % MINUTE;
    MinuteUnique(now, q * CIRCLE + x / MINUTE, x % MINUTE);
  }

  lemma MinuteUnique(a: int, q: int, r: int)
    requires a == q * MINUTE + r && 0 <= r < MINUTE
    ensures a % MINUTE == r
  {
  }

  lemma ModPlus(a: int, k: int)
    requires 0 <= a % DAY + k < DAY
    ensures (a + k) % DAY == a % DAY + k
  {
  }

  lemma MinusDay(a: int, k: int)
    ensures (a + (DAY - k)) % DAY == (a - k) % DAY
  {
  }

  /** The window's length, going round the circle. */
  function WindowMs(start: string, end: string): int
    requires IsTime(start) && IsTime(end)
  {
    (Minutes(end) - Minutes(start)) % CIRCLE * MINUTE
  }

  /** now + d is the end of the window when d milliseconds of it are left. */
  lemma EndOfWindow(now: Time, start: int, end: int, d: int)
    requires 0 <= start < CIRCLE && 0 <= end < CIRCLE && 0 < d < DAY
    requires Elapsed(now, start) + d == (end - start) % CIRCLE * MINUTE
    ensures (now + d) % DAY == end * MINUTE
  {
    Wrap(end - start);
    ModPlus(now - start * MINUTE, d);
    var x := now + d - start * MINUTE;
    assert x % DAY == (if end < start then end - start + CIRCLE else end - start) * MINUTE;
    assert x == x / DAY * DAY + x % DAY;
    ModUnique(now + d, if end < start then x / DAY + 1 else x / DAY, end * MINUTE);
  }

  lemma ModUnique(a: int, q: int, r: int)
    requires a == q * DAY + r && 0 <= r < DAY
    ensures a % DAY == r
  {
  }

  lemma {:induction false} QuietEndUnique(now: Time, end: string, d: int)
    requires IsTime(end) && 0 < d < DAY && (now + d) % DAY == Minutes(end) * MINUTE
    ensures QuietEnd(now, end) == now + d
  {
    hide IsTime, Minutes;
    if now % DAY + d < DAY {
      ModPlus(now, d);
    } else {
      ModPlus(now, d - DAY);
      MinusDay(now, -d);
      MinusDay(now + d - DAY, 0);
    }
  }

  /** The deferred delivery instant is the first instant that is not quiet: it lies ahead, no further than the
      window is long, everything before it is quiet, and it is not. */
  lemma {:induction false} DeferredToFirstAudibleInstant(now: Time, start: string, end: string)
    requires IsTime(start) && IsTime(end) && start != end && IsWithinQuietHours(now, start, end)
    ensures var at := QuietEnd(now, end);
            && 0 < at - now <= WindowMs(start, end)
            && (forall t :: now <= t < at ==> IsWithinQuietHours(t, start, end))
            && !IsWithinQuietHours(at, start, end)
  {
    var u, v := Minutes(start), Minutes(end);
    var d := WindowMs(start, end) - Elapsed(now, u);
    hide IsTime, Minutes, UtcMinute, IsWithinQuietHours, InArc, QuietEnd;
    WithinIsArc(now, start, end);
    ArcInMs(now, u, v);
    EndOfWindow(now, u, v, d);
    QuietEndUnique(now, end, d);
    forall t | now <= t <= now + d ensures IsWithinQuietHours(t, start, end) <==> t < now + d {
      ModPlus(now - u * MINUTE, t - now);
      WithinIsArc(t, start, end);
      ArcInMs(t, u, v);
    }
  }
}
