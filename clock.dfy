/** `timestamp2str`: a Unix timestamp in seconds rendered as the wall-clock
    time of day at UTC+8, `hour:minute:second` without zero padding. */
module Clock {

  datatype ClockTime = ClockTime(hour: nat, minute: nat, second: nat)

  datatype Option<T> = None | Some(value: T)

  /** Seconds since midnight of a time of day. */
  function SecondsOfDay(c: ClockTime): nat
  {
    c.hour * 3600 + c.minute * 60 + c.second
  }

  /** The offset of UTC+8, in seconds. */
  const OffsetSeconds: int := 8 * 3600

  /** The three numbers `timestamp2str` prints, computed as it computes them
      (Python's `//` and `%` by a positive divisor round towards minus
      infinity, as Dafny's do). They form a valid time of day, and that time
      is the timestamp shifted by eight hours, modulo one day. */
  function ClockFields(t: int): (c: ClockTime)
    ensures c.hour < 24 && c.minute < 60 && c.second < 60
    ensures SecondsOfDay(c) == (t + OffsetSeconds) % 86400
  {
    var utcH := t / 3600;
    var utcM := t / 60 - utcH * 60;
    var utcS := t % 60;
    SplitHour(t);
    ClockTime((utcH + 8) % 24, utcM, utcS)
  }

  /** The arithmetic behind `ClockFields`: the minute count within the hour
      and the day count of the shifted timestamp. */
  lemma SplitHour(t: int)
    ensures 0 <= t / 60 - (t / 3600) * 60 < 60
    ensures ((t / 3600 + 8) % 24) * 3600 + (t / 60 - (t / 3600) * 60) * 60 + t % 60
            == (t + OffsetSeconds) % 86400
  {
    var q, r := t / 3600, t % 3600;
    assert t == 3600 * q + r && 0 <= r < 3600;
    var m, s := r / 60, r % 60;
    assert r == 60 * m + s && 0 <= m < 60 && 0 <= s < 60;
    assert t == 60 * (60 * q + m) + s;
    assert t / 60 == 60 * q + m;
    assert t % 60 == s;
    var a := q + 8;
    var k, a' := a / 24, a % 24;
    assert a == 24 * k + a' && 0 <= a' < 24;
    assert t + OffsetSeconds == 86400 * k + (3600 * a' + r);
    assert 0 <= 3600 * a' + r < 86400;
    assert (t + OffsetSeconds) % 86400 == 3600 * a' + r;
  }

  /** The decimal digits of `n`, as `str(n)` writes them. */
  function Decimal(n: nat): (s: string)
    ensures |s| >= 1 && IsDigits(s)
    ensures |s| > 1 ==> s[0] != '0'
    ensures n < 10 ==> |s| == 1
    ensures n < 100 ==> |s| <= 2
  {
    if n < 10 then [Digit(n)] else Decimal(n / 10) + [Digit(n % 10)]
  }

  function Digit(d: nat): (c: char)
    requires d < 10
    ensures '0' <= c <= '9' && c as int - '0' as int == d
  {
    (d + '0' as int) as char
  }

  predicate IsDigits(s: string)
  {
    forall i :: 0 <= i < |s| ==> '0' <= s[i] <= '9'
  }

  /** The number a string of decimal digits denotes. */
  function DigitsValue(s: string): nat
    requires IsDigits(s)
  {
    if |s| == 0 then 0
    else DigitsValue(s[..|s| - 1]) * 10 + (s[|s| - 1] as int - '0' as int)
  }

  /** Reading back what `Decimal` writes gives the number. */
  lemma {:induction false} DecimalRoundTrip(n: nat)
    ensures DigitsValue(Decimal(n)) == n
  {
    if n >= 10 {
      DecimalRoundTrip(n / 10);
      var s := Decimal(n);
      assert s[..|s| - 1] == Decimal(n / 10);
    }
  }

  /** `f'{hour}:{minute}:{second}'`. */
  function ClockString(c: ClockTime): string
  {
    Decimal(c.hour) + ":" + Decimal(c.minute) + ":" + Decimal(c.second)
  }

  /** `timestamp2str` on the integer part of the timestamp. */
  function Timestamp2Str(t: int): (r: string)
    ensures 5 <= |r| <= 8
    ensures ParseClock(r) == Some(ClockFields(t))
    ensures var f := Split(r); |f| == 3 && forall i :: 0 <= i < 3 ==> |f[i]| == 1 || f[i][0] != '0'
  {
    var c := ClockFields(t);
    ClockStringRoundTrip(c);
    SplitClock(Decimal(c.hour), Decimal(c.minute), Decimal(c.second));
    ClockString(c)
  }

  /** The fields of a string split at every `:`, as `str.split(':')`. */
  function Split(s: string): (r: seq<string>)
    ensures |r| >= 1
  {
    if |s| == 0 then [""]
    else
      var rest := Split(s[1..]);
      if s[0] == ':' then [""] + rest else [[s[0]] + rest[0]] + rest[1..]
  }

  /** Splitting a colon-free field followed by `:` peels off that field. */
  lemma {:induction false} SplitField(a: string, b: string)
    requires forall i :: 0 <= i < |a| ==> a[i] != ':'
    ensures Split(a + ":" + b) == [a] + Split(b)
  {
    if |a| > 0 {
      SplitField(a[1..], b);
      assert (a + ":" + b)[1..] == a[1..] + ":" + b;
      assert [a[0]] + a[1..] == a;
    } else {
      assert (a + ":" + b)[1..] == b;
    }
  }

  /** A colon-free string is one field. */
  lemma {:induction false} SplitNone(a: string)
    requires forall i :: 0 <= i < |a| ==> a[i] != ':'
    ensures Split(a) == [a]
  {
    if |a| > 0 {
      SplitNone(a[1..]);
      assert [a[0]] + a[1..] == a;
    }
  }

  /** Reads `h:m:s` back: three non-empty digit fields whose values form a
      valid time of day. */
  function ParseClock(s: string): (r: Option<ClockTime>)
    ensures r.Some? ==> r.value.hour < 24 && r.value.minute < 60 && r.value.second < 60
  {
    var f := Split(s);
    if |f| == 3 && IsField(f[0]) && IsField(f[1]) && IsField(f[2]) then
      var c := ClockTime(DigitsValue(f[0]), DigitsValue(f[1]), DigitsValue(f[2]));
      if c.hour < 24 && c.minute < 60 && c.second < 60 then Some(c) else None
    else None
  }

  /** A non-empty run of decimal digits. */
  predicate IsField(s: string)
  {
    |s| >= 1 && IsDigits(s)
  }

  /** A valid time of day survives printing and reading back. */
  lemma ClockStringRoundTrip(c: ClockTime)
    requires c.hour < 24 && c.minute < 60 && c.second < 60
    ensures 5 <= |ClockString(c)| <= 8
    ensures ParseClock(ClockString(c)) == Some(c)
  {
    var h, m, s := Decimal(c.hour), Decimal(c.minute), Decimal(c.second);
    SplitClock(h, m, s);
    DecimalRoundTrip(c.hour);
    DecimalRoundTrip(c.minute);
    DecimalRoundTrip(c.second);
  }

  /** `h:m:s` with digit fields splits into the three fields. */
  lemma SplitClock(h: string, m: string, s: string)
    requires IsDigits(h) && IsDigits(m) && IsDigits(s)
    ensures Split(h + ":" + m + ":" + s) == [h, m, s]
  {
    SplitNone(s);
    SplitField(m, s);
    SplitField(h, m + ":" + s);
    assert h + ":" + m + ":" + s == h + ":" + (m + ":" + s);
  }
}
