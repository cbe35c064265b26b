/**
 * `datetime.datetime` values and `datetime.isoformat()`, with the reader
 * `datetime.fromisoformat()` restricted to the text `isoformat` produces.
 * Time-zone offsets are whole minutes.
 */
module DateTimes {
  import opened Wrappers
  import opened Digits

  /** A fixed offset east of UTC, in minutes (`tzinfo.utcoffset`). */
  datatype UtcOffset = UtcOffset(minutes: int)

  datatype RawDateTime = DateTime(
    year: int, month: int, day: int,
    hour: int, minute: int, second: int, microsecond: int,
    tz: Option<UtcOffset>)

  predicate IsLeapYear(y: int) {
    y % 4 == 0 && (y % 100 != 0 || y % 400 == 0)
  }

  function DaysInMonth(y: int, m: int): int
    requires 1 <= m <= 12
  {
    if m == 2 then (if IsLeapYear(y) then 29 else 28)
    else if m == 4 || m == 6 || m == 9 || m == 11 then 30
    else 31
  }

  /** The ranges the `datetime` constructor enforces. */
  predicate ValidDateTime(d: RawDateTime) {
    && 1 <= d.year <= 9999
    && 1 <= d.month <= 12
    && 1 <= d.day <= DaysInMonth(d.year, d.month)
    && 0 <= d.hour < 24
    && 0 <= d.minute < 60
    && 0 <= d.second < 60
    && 0 <= d.microsecond < 1000000
    && (d.tz.Some? ==> -1440 < d.tz.value.minutes < 1440)
  }

  type DateTime = d: RawDateTime | ValidDateTime(d) witness DateTime(1, 1, 1, 0, 0, 0, 0, None)

  /** `+HH:MM` or `-HH:MM`, as `isoformat` writes a whole-minute offset. */
  function OffsetText(o: UtcOffset): (s: string)
    requires -1440 < o.minutes < 1440
    ensures |s| == 6
  {
    var sign := if o.minutes < 0 then '-' else '+';
    var a := if o.minutes < 0 then -o.minutes else o.minutes;
    [sign] + HoursMinutesText(a)
  }

  /** `HH:MM` for a number of minutes below a day. */
  function HoursMinutesText(a: nat): (s: string)
    requires a < 1440
    ensures |s| == 5
  {
    FixedDigits(a / 60, 2) + ":" + FixedDigits(a % 60, 2)
  }

  /**
   * `YYYY-MM-DDTHH:MM:SS`, then `.ffffff` only when the microsecond is not
   * zero, then the offset only when the value is time-zone aware.
   */
  function IsoFormat(d: DateTime): (s: string)
    ensures |s| == 19 + (if d.microsecond != 0 then 7 else 0) + (if d.tz.Some? then 6 else 0)
  {
    DateText(d.year, d.month, d.day) + ClockText(d.hour, d.minute, d.second)
    + FractionText(d.microsecond)
    + (if d.tz.Some? then OffsetText(d.tz.value) else "")
  }

  /** `YYYY-MM-DD`. */
  function DateText(y: nat, m: nat, d: nat): (s: string)
    requires y < 10000 && m < 100 && d < 100
    ensures |s| == 10
  {
    FixedDigits(y, 4) + "-" + FixedDigits(m, 2) + "-" + FixedDigits(d, 2)
  }

  /** `THH:MM:SS`. */
  function ClockText(h: nat, m: nat, s: nat): (t: string)
    requires h < 100 && m < 100 && s < 100
    ensures |t| == 9
  {
    "T" + FixedDigits(h, 2) + ":" + FixedDigits(m, 2) + ":" + FixedDigits(s, 2)
  }

  function FractionText(us: nat): (s: string)
    requires us < 1000000
    ensures |s| == if us != 0 then 7 else 0
  {
    if us != 0 then "." + FixedDigits(us, 6) else ""
  }

  /** Expects the character `c` at the head of `s`. */
  function Expect(s: string, c: char): Option<string> {
    if s != [] && s[0] == c then Some(s[1..]) else None
  }

  function ParseFraction(s: string): Option<(nat, string)> {
    if s != [] && s[0] == '.' then ParseFixed(s[1..], 6) else Some((0, s))
  }

  function ParseOffset(s: string): Option<UtcOffset> {
    if s == [] then None
    else if s[0] != '+' && s[0] != '-' then None
    else
      var a :- ParseHoursMinutes(s[1..]);
      Some(UtcOffset(if s[0] == '-' then 0 - a as int else a as int))
  }

  /** Reads `HH:MM` and nothing after it, as a number of minutes. */
  function ParseHoursMinutes(s: string): Option<nat> {
    var h :- ParseFixed(s, 2);
    var r :- Expect(h.1, ':');
    var m :- ParseFixed(r, 2);
    if m.1 != [] || m.0 >= 60 then None else Some(h.0 * 60 + m.0)
  }

  /** Reads `w` digits, then the separator `sep`. */
  function ParseField(s: string, w: nat, sep: char): Option<(nat, string)> {
    var f :- ParseFixed(s, w);
    var r :- Expect(f.1, sep);
    Some((f.0, r))
  }

  function ParseDate(s: string): Option<((nat, nat, nat), string)> {
    var y :- ParseField(s, 4, '-');
    var m :- ParseField(y.1, 2, '-');
    var d :- ParseFixed(m.1, 2);
    Some(((y.0, m.0, d.0), d.1))
  }

  function ParseClock(s: string): Option<((nat, nat, nat), string)> {
    var r :- Expect(s, 'T');
    var h :- ParseField(r, 2, ':');
    var m :- ParseField(h.1, 2, ':');
    var sec :- ParseFixed(m.1, 2);
    Some(((h.0, m.0, sec.0), sec.1))
  }

  function ParseZone(s: string): Option<Option<UtcOffset>> {
    if s == [] then Some(None)
    else
      var o :- ParseOffset(s);
      Some(Some(o))
  }

  /** Reads the text `IsoFormat` writes; `None` when it is not such a text. */
  function ParseIsoFormat(s: string): Option<DateTime> {
    var date :- ParseDate(s);
    var clock :- ParseClock(date.1);
    var us :- ParseFraction(clock.1);
    var tz :- ParseZone(us.1);
    var d := DateTime(date.0.0, date.0.1, date.0.2, clock.0.0, clock.0.1, clock.0.2, us.0, tz);
    if ValidDateTime(d) then Some(d) else None
  }

  lemma ParseOffsetOf(o: UtcOffset)
    requires -1440 < o.minutes < 1440
    ensures ParseOffset(OffsetText(o)) == Some(o)
  {
    var a := if o.minutes < 0 then -o.minutes else o.minutes;
    var sign := if o.minutes < 0 then '-' else '+';
    var t := OffsetText(o);
    assert t == [sign] + HoursMinutesText(a);
    assert t[0] == sign;
    assert t[1..] == HoursMinutesText(a);
    ParseHoursMinutesOf(a);
  }

  lemma ParseHoursMinutesOf(a: nat)
    requires a < 1440
    ensures ParseHoursMinutes(HoursMinutesText(a)) == Some(a)
  {
    var mm := FixedDigits(a % 60, 2);
    var r := ":" + mm;
    assert FixedDigits(a / 60, 2) + ":" + mm == FixedDigits(a / 60, 2) + r;
    ParseFixedDigits(a / 60, 2, r);
    assert r[1..] == mm;
    ParseFixedDigits(a % 60, 2, []);
    assert mm + [] == mm;
  }

  lemma ParseFractionOf(us: nat, rest: string)
    requires us < 1000000
    requires rest == [] || rest[0] == '+' || rest[0] == '-'
    ensures ParseFraction(FractionText(us) + rest) == Some((us, rest))
  {
    var s := FractionText(us) + rest;
    if us != 0 {
      var t := FixedDigits(us, 6) + rest;
      assert s == "." + t;
      assert s[0] == '.' && s[1..] == t;
      ParseFixedDigits(us, 6, rest);
    } else {
      assert s == rest;
    }
  }

  lemma ParseFieldOf(n: nat, w: nat, sep: char, rest: string)
    requires n < Pow10(w)
    ensures ParseField(FixedDigits(n, w) + [sep] + rest, w, sep) == Some((n, rest))
  {
    var r := [sep] + rest;
    assert FixedDigits(n, w) + [sep] + rest == FixedDigits(n, w) + r;
    ParseFixedDigits(n, w, r);
    assert r[1..] == rest;
  }

  lemma ParseDateOf(y: nat, m: nat, d: nat, rest: string)
    requires y < 10000 && m < 100 && d < 100
    ensures ParseDate(DateText(y, m, d) + rest) == Some(((y, m, d), rest))
  {
    var t2 := FixedDigits(d, 2) + rest;
    var t1 := FixedDigits(m, 2) + "-" + t2;
    assert DateText(y, m, d) + rest == FixedDigits(y, 4) + "-" + t1;
    ParseFieldOf(y, 4, '-', t1);
    ParseFieldOf(m, 2, '-', t2);
    ParseFixedDigits(d, 2, rest);
  }

  lemma ParseClockOf(h: nat, m: nat, sec: nat, rest: string)
    requires h < 100 && m < 100 && sec < 100
    ensures ParseClock(ClockText(h, m, sec) + rest) == Some(((h, m, sec), rest))
  {
    var t2 := FixedDigits(sec, 2) + rest;
    var t1 := FixedDigits(m, 2) + ":" + t2;
    var t0 := FixedDigits(h, 2) + ":" + t1;
    assert ClockText(h, m, sec) + rest == "T" + t0;
    assert ("T" + t0)[1..] == t0;
    ParseFieldOf(h, 2, ':', t1);
    ParseFieldOf(m, 2, ':', t2);
    ParseFixedDigits(sec, 2, rest);
  }

  /** `fromisoformat` reads back exactly the instant `isoformat` wrote. */
  lemma ParseIsoFormatOf(d: DateTime)
    ensures ParseIsoFormat(IsoFormat(d)) == Some(d)
  {
    var off := if d.tz.Some? then OffsetText(d.tz.value) else "";
    var t2 := FractionText(d.microsecond) + off;
    var t1 := ClockText(d.hour, d.minute, d.second) + t2;
    assert IsoFormat(d) == DateText(d.year, d.month, d.day) + t1;
    ParseDateOf(d.year, d.month, d.day, t1);
    ParseClockOf(d.hour, d.minute, d.second, t2);
    ParseFractionOf(d.microsecond, off);
    if d.tz.Some? {
      ParseOffsetOf(d.tz.value);
    }
  }
}
