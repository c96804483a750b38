/**
 * Timestamps in the `date-time` form of section 5.6 of RFC 3339
 * (`2025-06-01T14:00:00+02:00`), as the Go standard library's strict
 * RFC 3339 recogniser accepts them, and the calendar-date key that
 * `t.Format("2006-01-02")` produces from a parsed timestamp.
 */
module Rfc3339 {
  import opened Wrappers

  /**
   * A parsed timestamp: the wall-clock fields exactly as written (in the
   * timestamp's own offset, with no conversion to UTC) and that offset in
   * minutes east of UTC. Fractional seconds are recognised but not kept.
   */
  datatype Timestamp = Timestamp(year: int, month: int, day: int,
                                 hour: int, minute: int, second: int,
                                 offset: int)

  const MaxOffset := 23 * 60 + 59

  predicate IsDigit(c: char)
  {
    '0' <= c <= '9'
  }

  predicate AllDigits(s: string)
  {
    forall i | 0 <= i < |s| :: IsDigit(s[i])
  }

  function DigitValue(c: char): nat
    requires IsDigit(c)
  {
    c as int - '0' as int
  }

  function DigitChar(d: int): char
    requires 0 <= d <= 9
  {
    ('0' as int + d) as char
  }

  /** The value of a string of decimal digits, accumulated left to right. */
  function Decimal(s: string): nat
    requires AllDigits(s)
  {
    if s == [] then 0 else 10 * Decimal(s[..|s| - 1]) + DigitValue(s[|s| - 1])
  }

  function Pow10(n: nat): nat
  {
    if n == 0 then 1 else 10 * Pow10(n - 1)
  }

  /** `n` in decimal with exactly `width` digits, zero-padded on the left. */
  function Pad(n: nat, width: nat): (s: string)
    ensures |s| == width
  {
    if width == 0 then [] else Pad(n / 10, width - 1) + [DigitChar(n % 10)]
  }

  /** The field is all digits and its value lies in `[lo, hi]` (Go's `parseUint` check). */
  predicate UintIn(s: string, lo: int, hi: int)
  {
    AllDigits(s) && lo <= Decimal(s) <= hi
  }

  predicate IsLeap(year: int)
  {
    year % 4 == 0 && (year % 100 != 0 || year % 400 == 0)
  }

  /** The number of days in a month of the proleptic Gregorian calendar. */
  function DaysIn(month: int, year: int): int
    requires 1 <= month <= 12
  {
    if month == 2 then (if IsLeap(year) then 29 else 28)
    else if month == 4 || month == 6 || month == 9 || month == 11 then 30
    else 31
  }

  ghost predicate ValidTimestamp(t: Timestamp)
  {
    && 0 <= t.year <= 9999
    && 1 <= t.month <= 12
    && 1 <= t.day <= DaysIn(t.month, t.year)
    && 0 <= t.hour <= 23
    && 0 <= t.minute <= 59
    && 0 <= t.second <= 59
    && -MaxOffset <= t.offset <= MaxOffset
  }

  /** The length of the longest all-digit prefix of `s`. */
  function DigitRun(s: string): (n: nat)
    ensures n <= |s|
  {
    if s != [] && IsDigit(s[0]) then 1 + DigitRun(s[1..]) else 0
  }

  /** The length of an optional `.digits` fraction at the head of `rest`. */
  function FractionLength(rest: string): (n: nat)
    ensures n <= |rest|
  {
    if |rest| >= 2 && rest[0] == '.' && IsDigit(rest[1]) then 1 + DigitRun(rest[1..]) else 0
  }

  /** `Z`, or `+hh:mm` / `-hh:mm` with hh at most 23 and mm at most 59, as minutes east of UTC. */
  function ParseZone(z: string): (r: Option<int>)
    ensures r.Some? ==> -MaxOffset <= r.value <= MaxOffset
  {
    if z == "Z" then Some(0)
    else if |z| == 6 && (z[0] == '+' || z[0] == '-') && z[3] == ':'
            && UintIn(z[1..3], 0, 23) && UintIn(z[4..6], 0, 59)
    then
      var minutes := 60 * Decimal(z[1..3]) + Decimal(z[4..6]);
      Some(if z[0] == '-' then -minutes else minutes)
    else None
  }

  /**
   * `time.Parse(time.RFC3339, s)`: fixed-width date and time fields with
   * their range checks (the day against the month and leap year), an
   * optional fraction, then exactly one zone designator.
   */
  function ParseTimestamp(s: string): (r: Option<Timestamp>)
    ensures r.Some? ==> ValidTimestamp(r.value)
  {
    if |s| < 19 then None
    else if !(UintIn(s[0..4], 0, 9999) && UintIn(s[5..7], 1, 12)) then None
    else
      var year, month := Decimal(s[0..4]), Decimal(s[5..7]);
      if !(UintIn(s[8..10], 1, DaysIn(month, year)) && UintIn(s[11..13], 0, 23)
           && UintIn(s[14..16], 0, 59) && UintIn(s[17..19], 0, 59))
      then None
      else if !(s[4] == '-' && s[7] == '-' && s[10] == 'T' && s[13] == ':' && s[16] == ':') then None
      else
        var rest := s[19..];
        match ParseZone(rest[FractionLength(rest)..])
        case None => None
        case Some(offset) =>
          Some(Timestamp(year, month, Decimal(s[8..10]),
                         Decimal(s[11..13]), Decimal(s[14..16]), Decimal(s[17..19]),
                         offset))
  }

  /** `t.Format("2006-01-02")`: the calendar date in the timestamp's own offset. */
  function FormatDate(t: Timestamp): (s: string)
    requires ValidTimestamp(t)
    ensures |s| == 10 && s[4] == '-' && s[7] == '-'
    ensures forall i :: 0 <= i < 10 && i != 4 && i != 7 ==> IsDigit(s[i])
  {
    PadDigits(t.year, 4);
    PadDigits(t.month, 2);
    PadDigits(t.day, 2);
    Pad(t.year, 4) + "-" + Pad(t.month, 2) + "-" + Pad(t.day, 2)
  }

  function FormatZone(offset: int): string
    requires -MaxOffset <= offset <= MaxOffset
  {
    if offset == 0 then "Z"
    else
      var m := if offset < 0 then -offset else offset;
      (if offset < 0 then "-" else "+") + Pad(m / 60, 2) + ":" + Pad(m % 60, 2)
  }

  /** `t.Format(time.RFC3339)`: the writer of the timestamps that ParseTimestamp reads. */
  function Format(t: Timestamp): string
    requires ValidTimestamp(t)
  {
    FormatDate(t) + "T" + Pad(t.hour, 2) + ":" + Pad(t.minute, 2) + ":" + Pad(t.second, 2)
    + FormatZone(t.offset)
  }

  lemma {:induction false} PadDigits(n: nat, width: nat)
    ensures AllDigits(Pad(n, width))
  {
    if width > 0 {
      PadDigits(n / 10, width - 1);
    }
  }

  /** Reading back a padded number gives the number. */
  lemma {:induction false} DecimalOfPad(n: nat, width: nat)
    requires n < Pow10(width)
    ensures AllDigits(Pad(n, width)) && Decimal(Pad(n, width)) == n
  {
    PadDigits(n, width);
    if width > 0 {
      var s := Pad(n, width);
      assert n / 10 < Pow10(width - 1);
      DecimalOfPad(n / 10, width - 1);
      assert s[..width - 1] == Pad(n / 10, width - 1);
    }
  }

  /** Re-padding the value of an all-digit string to its own width gives the string back. */
  lemma {:induction false} PadOfDecimal(s: string)
    requires AllDigits(s)
    ensures Pad(Decimal(s), |s|) == s
    decreases |s|
  {
    if s != [] {
      var init, last := s[..|s| - 1], s[|s| - 1];
      PadOfDecimal(init);
      var n := Decimal(s);
      assert n == 10 * Decimal(init) + DigitValue(last);
      assert n / 10 == Decimal(init) && n % 10 == DigitValue(last);
      assert s == init + [last];
    }
  }

  /**
   * The date key of an accepted timestamp is its leading `YYYY-MM-DD`: no
   * zone conversion takes place.
   */
  lemma DateKeyIsPrefix(s: string)
    requires ParseTimestamp(s).Some?
    ensures |s| >= 20
    ensures FormatDate(ParseTimestamp(s).value) == s[..10]
  {
    var t := ParseTimestamp(s).value;
    PadOfDecimal(s[0..4]);
    PadOfDecimal(s[5..7]);
    PadOfDecimal(s[8..10]);
    assert s[..10] == s[0..4] + [s[4]] + s[5..7] + [s[7]] + s[8..10];
  }

  /** Where each piece of a `[sign]hh:mm` zone sits, whatever the pieces hold. */
  lemma ZoneLayout(sign: char, hh: string, mm: string)
    requires |hh| == 2 && |mm| == 2
    ensures var z := [sign] + hh + ":" + mm;
      && |z| == 6 && z[0] == sign && z[1..3] == hh && z[3] == ':' && z[4..6] == mm
  {
  }

  lemma ZoneFields(m: nat)
    requires m <= MaxOffset
    ensures m / 60 <= 23 && m % 60 <= 59 && 60 * (m / 60) + m % 60 == m
  {
  }

  /** A padded number inside the field's range passes the field's check and reads back as itself. */
  lemma PadField(n: nat, width: nat, lo: int, hi: int)
    requires lo <= n <= hi && n < Pow10(width)
    ensures |Pad(n, width)| == width
    ensures UintIn(Pad(n, width), lo, hi) && Decimal(Pad(n, width)) == n
  {
    DecimalOfPad(n, width);
  }

  /** A numeric zone built from two in-range fields is read as its signed minutes. */
  lemma ParseZonePieces(sign: char, hh: string, mm: string)
    requires sign == '+' || sign == '-'
    requires |hh| == 2 && |mm| == 2 && UintIn(hh, 0, 23) && UintIn(mm, 0, 59)
    ensures var minutes := 60 * Decimal(hh) + Decimal(mm);
      ParseZone([sign] + hh + ":" + mm) == Some(if sign == '-' then -minutes else minutes)
  {
    var z := [sign] + hh + ":" + mm;
    ZoneLayout(sign, hh, mm);
    assert z != "Z";
    assert z[1..3] == hh && z[4..6] == mm;
  }

  /** Reading back a numeric zone `±hh:mm` gives its signed minutes. */
  lemma ParseNumericZone(sign: char, h: nat, m: nat)
    requires sign == '+' || sign == '-'
    requires h <= 23 && m <= 59
    ensures ParseZone([sign] + Pad(h, 2) + ":" + Pad(m, 2))
         == Some(if sign == '-' then -(60 * h + m) else 60 * h + m)
  {
    PadField(h, 2, 0, 23);
    PadField(m, 2, 0, 59);
    ParseZonePieces(sign, Pad(h, 2), Pad(m, 2));
  }

  lemma ParseZoneOfFormat(offset: int)
    requires -MaxOffset <= offset <= MaxOffset
    ensures ParseZone(FormatZone(offset)) == Some(offset)
  {
    if offset != 0 {
      var m := if offset < 0 then -offset else offset;
      ZoneFields(m);
      var sign := if offset < 0 then '-' else '+';
      ParseNumericZone(sign, m / 60, m % 60);
      assert FormatZone(offset) == [sign] + Pad(m / 60, 2) + ":" + Pad(m % 60, 2);
    }
  }

  /**
   * Where each piece of `YYYY-MM-DDThh:mm:ss` followed by a zone sits,
   * whatever the pieces hold.
   */
  lemma Layout(y: string, mo: string, d: string, h: string, mi: string, sec: string, zone: string)
    requires |y| == 4 && |mo| == 2 && |d| == 2 && |h| == 2 && |mi| == 2 && |sec| == 2
    ensures var s := y + "-" + mo + "-" + d + "T" + h + ":" + mi + ":" + sec + zone;
      && |s| == 19 + |zone|
      && s[0..4] == y && s[5..7] == mo && s[8..10] == d
      && s[11..13] == h && s[14..16] == mi && s[17..19] == sec
      && s[4] == '-' && s[7] == '-' && s[10] == 'T' && s[13] == ':' && s[16] == ':'
      && s[19..] == zone
  {
    var head := y + "-" + mo + "-" + d + "T" + h + ":" + mi + ":" + sec;
    var s := head + zone;
    assert s[..19] == head;
    assert s[19..] == zone;
  }

  /** Where each field of a formatted timestamp sits. */
  lemma FormatLayout(t: Timestamp)
    requires ValidTimestamp(t)
    ensures var s := Format(t);
      && |s| >= 20
      && s[0..4] == Pad(t.year, 4) && s[5..7] == Pad(t.month, 2) && s[8..10] == Pad(t.day, 2)
      && s[11..13] == Pad(t.hour, 2) && s[14..16] == Pad(t.minute, 2) && s[17..19] == Pad(t.second, 2)
      && s[4] == '-' && s[7] == '-' && s[10] == 'T' && s[13] == ':' && s[16] == ':'
      && s[19..] == FormatZone(t.offset)
  {
    Layout(Pad(t.year, 4), Pad(t.month, 2), Pad(t.day, 2),
           Pad(t.hour, 2), Pad(t.minute, 2), Pad(t.second, 2), FormatZone(t.offset));
  }

  /**
   * A string whose fixed fields are in range, whose separators are in
   * place and whose tail after the seconds is a zone (no fraction) is read
   * field by field.
   */
  lemma ParseFields(s: string)
    requires |s| >= 20
    requires UintIn(s[0..4], 0, 9999) && UintIn(s[5..7], 1, 12)
    requires UintIn(s[8..10], 1, DaysIn(Decimal(s[5..7]), Decimal(s[0..4])))
    requires UintIn(s[11..13], 0, 23) && UintIn(s[14..16], 0, 59) && UintIn(s[17..19], 0, 59)
    requires s[4] == '-' && s[7] == '-' && s[10] == 'T' && s[13] == ':' && s[16] == ':'
    requires s[19] != '.' && ParseZone(s[19..]).Some?
    ensures ParseTimestamp(s)
         == Some(Timestamp(Decimal(s[0..4]), Decimal(s[5..7]), Decimal(s[8..10]),
                           Decimal(s[11..13]), Decimal(s[14..16]), Decimal(s[17..19]),
                           ParseZone(s[19..]).value))
  {
    var rest := s[19..];
    assert FractionLength(rest) == 0;
    assert rest[0..] == rest;
  }

  /** Every timestamp the formatter writes is read back as the same timestamp. */
  lemma ParseOfFormat(t: Timestamp)
    requires ValidTimestamp(t)
    ensures ParseTimestamp(Format(t)) == Some(t)
  {
    var s := Format(t);
    FormatLayout(t);
    PadField(t.year, 4, 0, 9999);
    PadField(t.month, 2, 1, 12);
    PadField(t.day, 2, 1, DaysIn(t.month, t.year));
    PadField(t.hour, 2, 0, 23);
    PadField(t.minute, 2, 0, 59);
    PadField(t.second, 2, 0, 59);
    ParseZoneOfFormat(t.offset);
    assert s[19] == FormatZone(t.offset)[0];
    ParseFields(s);
  }
}
