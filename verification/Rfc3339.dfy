/** Instants as microseconds since the year 0, in the Gregorian calendar, and their RFC 3339 text. */
module Rfc3339 {
  import opened Options
  import opened Digits
  import opened Sequences

  const MICROS_PER_DAY: nat := 86_400_000_000

  /** An instant of the years 0 to 9999, which is what four digits can print. */
  type Time = t: nat | t < 315_569_520_000_000_000

  datatype Date = Date(year: nat, month: nat, day: nat)

  // The calendar

  predicate Leap(year: nat) { year % 4 == 0 && (year % 100 != 0 || year % 400 == 0) }

  function YearDays(year: nat): nat { if Leap(year) then 366 else 365 }

  function MonthDays(year: nat, month: nat): (n: nat)
    ensures 28 <= n <= 31
  {
    if month == 2 then (if Leap(year) then 29 else 28)
    else if month == 4 || month == 6 || month == 9 || month == 11 then 30
    else 31
  }

  function DaysBeforeYear(year: nat): nat {
    if year == 0 then 0 else DaysBeforeYear(year - 1) + YearDays(year - 1)
  }

  function DaysBeforeMonth(year: nat, month: nat): nat {
    if month <= 1 then 0 else DaysBeforeMonth(year, month - 1) + MonthDays(year, month - 1)
  }

  predicate IsDate(d: Date) { 1 <= d.month <= 12 && 1 <= d.day <= MonthDays(d.year, d.month) }

  function DayNumber(d: Date): nat
    requires IsDate(d)
  {
    DaysBeforeYear(d.year) + DaysBeforeMonth(d.year, d.month) + d.day - 1
  }

  lemma TwelveMonths(year: nat)
    ensures DaysBeforeMonth(year, 13) == YearDays(year)
  {
    var feb := MonthDays(year, 2);
    assert DaysBeforeMonth(year, 2) == 31;
    assert DaysBeforeMonth(year, 4) == DaysBeforeMonth(year, 3) + 31 == feb + 62;
    assert DaysBeforeMonth(year, 6) == DaysBeforeMonth(year, 5) + 31 == feb + 123;
    assert DaysBeforeMonth(year, 8) == DaysBeforeMonth(year, 7) + 31 == feb + 184;
    assert DaysBeforeMonth(year, 10) == DaysBeforeMonth(year, 9) + 30 == feb + 245;
    assert DaysBeforeMonth(year, 12) == DaysBeforeMonth(year, 11) + 30 == feb + 306;
  }

  lemma Multiples(n: nat)
    ensures n % 400 == 0 ==> n % 100 == 0
    ensures n % 100 == 0 ==> n % 4 == 0
  {
    var century, cycle := n / 100, n / 400;
    assert n == 400 * cycle + n % 400 && n == 100 * century + n % 100;
    assert n % 400 == 0 ==> n == 100 * (4 * cycle);
    assert n % 100 == 0 ==> n == 4 * (25 * century);
  }

  lemma NextFourth(n: nat)
    ensures (n + 4) / 4 - (n + 3) / 4 == if n % 4 == 0 then 1 else 0
  {
  }

  lemma NextHundredth(n: nat)
    ensures (n + 100) / 100 - (n + 99) / 100 == if n % 100 == 0 then 1 else 0
  {
  }

  lemma NextFourHundredth(n: nat)
    ensures (n + 400) / 400 - (n + 399) / 400 == if n % 400 == 0 then 1 else 0
  {
  }

  /** The leap years before a year. */
  function LeapsBefore(year: nat): int { (year + 3) / 4 - (year + 99) / 100 + (year + 399) / 400 }

  lemma NextLeap(year: nat)
    ensures LeapsBefore(year + 1) - LeapsBefore(year) == YearDays(year) - 365
  {
    Multiples(year);
    NextFourth(year);
    NextHundredth(year);
    NextFourHundredth(year);
  }

  lemma {:induction false} DaysClosedForm(year: nat)
    ensures DaysBeforeYear(year) == 365 * year + LeapsBefore(year)
  {
    if year > 0 {
      DaysClosedForm(year - 1);
      NextLeap(year - 1);
    }
  }

  lemma {:induction false} YearsGrow(a: nat, b: nat)
    requires a <= b
    ensures DaysBeforeYear(a) <= DaysBeforeYear(b)
  {
    if a < b {
      YearsGrow(a, b - 1);
    }
  }

  /** The year a day falls in, counting from the first day of `year`, and the day of that year. */
  function LocateYear(day: nat, year: nat): (r: (nat, nat))
    ensures r.1 < YearDays(r.0) && DaysBeforeYear(r.0) + r.1 == DaysBeforeYear(year) + day
    decreases day
  {
    if day < YearDays(year) then (year, day) else LocateYear(day - YearDays(year), year + 1)
  }

  function LocateMonth(year: nat, day: nat, month: nat): (r: (nat, nat))
    requires 1 <= month <= 12 && DaysBeforeMonth(year, month) + day < DaysBeforeMonth(year, 13)
    ensures month <= r.0 <= 12 && r.1 < MonthDays(year, r.0)
    ensures DaysBeforeMonth(year, r.0) + r.1 == DaysBeforeMonth(year, month) + day
    decreases 12 - month
  {
    if day < MonthDays(year, month) then (month, day)
    else LocateMonth(year, day - MonthDays(year, month), month + 1)
  }

  /** The date of a day number. */
  function DateOf(day: nat): (d: Date)
    ensures IsDate(d) && DayNumber(d) == day
  {
    var year := LocateYear(day, 0);
    TwelveMonths(year.0);
    var month := LocateMonth(year.0, year.1, 1);
    Date(year.0, month.0, month.1 + 1)
  }

  lemma FourDigitYear(day: nat)
    requires day < 3_652_425
    ensures DateOf(day).year < 10_000
  {
    var year := DateOf(day).year;
    DaysClosedForm(10_000);
    if year >= 10_000 {
      YearsGrow(10_000, year);
    }
  }

  // Texts of fixed width

  function DateText(d: Date): (s: string)
    ensures |s| == 10
  {
    Fixed(d.year, 10, 4) + "-" + Fixed(d.month, 10, 2) + "-" + Fixed(d.day, 10, 2)
  }

  function ReadDate(s: string): (r: Option<Date>)
    requires |s| == 10
    ensures r.Some? ==> IsDate(r.value)
  {
    var year, month, day := Value(s[..4], 10), Value(s[5..7], 10), Value(s[8..], 10);
    if s[4] == '-' && s[7] == '-' && year.Some? && month.Some? && day.Some?
      && IsDate(Date(year.value, month.value, day.value))
    then Some(Date(year.value, month.value, day.value)) else None
  }

  /** The time of day, in seconds. */
  function ClockText(second: nat): (s: string)
    ensures |s| == 8
  {
    Fixed(second / 3600, 10, 2) + ":" + Fixed(second / 60 % 60, 10, 2) + ":" + Fixed(second % 60, 10, 2)
  }

  function ReadClock(s: string): (r: Option<nat>)
    requires |s| == 8
    ensures r.Some? ==> r.value < 86_400
  {
    var hour, minute, second := Value(s[..2], 10), Value(s[3..5], 10), Value(s[6..], 10);
    if s[2] == ':' && s[5] == ':' && hour.Some? && minute.Some? && second.Some?
      && hour.value < 24 && minute.value < 60 && second.value < 60
    then Some(hour.value * 3600 + minute.value * 60 + second.value) else None
  }

  lemma TwoDigits(n: nat)
    requires n < 100
    ensures Value(Fixed(n, 10, 2), 10) == Some(n)
  {
    assert Power(10, 2) == 100;
    FixedReads(n, 10, 2);
  }

  lemma DateReads(d: Date)
    requires IsDate(d) && d.year < 10_000
    ensures ReadDate(DateText(d)) == Some(d)
  {
    assert Power(10, 4) == 10_000;
    FixedReads(d.year, 10, 4);
    TwoDigits(d.month);
    TwoDigits(d.day);
    var s := DateText(d);
    assert s[..4] == Fixed(d.year, 10, 4) && s[5..7] == Fixed(d.month, 10, 2) && s[8..] == Fixed(d.day, 10, 2);
  }

  lemma ClockReads(second: nat)
    requires second < 86_400
    ensures ReadClock(ClockText(second)) == Some(second)
  {
    TwoDigits(second / 3600);
    TwoDigits(second / 60 % 60);
    TwoDigits(second % 60);
    var s := ClockText(second);
    assert s[..2] == Fixed(second / 3600, 10, 2) && s[3..5] == Fixed(second / 60 % 60, 10, 2)
      && s[6..] == Fixed(second % 60, 10, 2);
    Sexagesimal(second);
  }

  lemma Sexagesimal(n: nat)
    ensures n == n / 3600 * 3600 + n / 60 % 60 * 60 + n % 60
  {
    assert n / 60 / 60 == n / 3600;
    assert n / 60 == n / 3600 * 60 + n / 60 % 60;
  }

  // Fraction and offset

  /** As many digits as the fraction needs, of none, three and six. */
  function FractionText(micros: nat): (s: string)
    ensures |s| <= 7
  {
    if micros == 0 then ""
    else if micros % 1000 == 0 then "." + Fixed(micros / 1000, 10, 3)
    else "." + Fixed(micros, 10, 6)
  }

  function LeadingDigits(s: string): (n: nat)
    ensures n <= |s|
  {
    if s != "" && DigitValue(s[0]) < 10 then 1 + LeadingDigits(s[1..]) else 0
  }

  function Zeros(n: nat): string { seq(n, _ => '0') }

  /** The microseconds in a run of fraction digits; finer ones are cut off. */
  function MicrosOf(digits: string): Option<nat> {
    Value(if |digits| >= 6 then digits[..6] else digits + Zeros(6 - |digits|), 10)
  }

  /** The fraction, absent or with at least one digit, and what follows it. */
  function ReadFraction(s: string): Option<(nat, string)> {
    if s == "" || s[0] != '.' then Some((0, s))
    else
      var n := LeadingDigits(s[1..]);
      var micros := MicrosOf(s[1..][..n]);
      if n == 0 || micros == None || micros.value >= 1_000_000 then None else Some((micros.value, s[1..][n..]))
  }

  /** The offset from UTC in minutes. */
  function ReadOffset(s: string): Option<int> {
    if s == "Z" || s == "z" then Some(0)
    else if |s| != 6 || (s[0] != '+' && s[0] != '-') || s[3] != ':' then None
    else
      var hours, minutes := Value(s[1..3], 10), Value(s[4..], 10);
      if hours == None || minutes == None || hours.value >= 24 || minutes.value >= 60 then None
      else
        var offset := hours.value * 60 + minutes.value;
        Some(if s[0] == '-' then -offset else offset)
  }

  // The whole text

  function Print(t: Time): (s: string)
    ensures |s| <= 32
  {
    var micros := t % MICROS_PER_DAY;
    DateText(DateOf(t / MICROS_PER_DAY)) + "T" + ClockText(micros / 1_000_000)
      + FractionText(micros % 1_000_000) + "+00:00"
  }

  /** `date-time` of section 5.6 of RFC 3339, without leap seconds, as an instant of the years 0 to 9999. */
  function Parse(s: string): Option<Time> {
    if |s| < 20 || (s[10] != 'T' && s[10] != 't') then None
    else
      var date, second, fraction := ReadDate(s[..10]), ReadClock(s[11..19]), ReadFraction(s[19..]);
      if date == None || second == None || fraction == None || ReadOffset(fraction.value.1) == None then None
      else
        var local := DayNumber(date.value) * MICROS_PER_DAY + second.value * 1_000_000 + fraction.value.0;
        var t := local - ReadOffset(fraction.value.1).value * 60_000_000;
        if 0 <= t < 315_569_520_000_000_000 then Some(t) else None
  }

  lemma {:induction false} DigitsLead(digits: string, rest: string)
    requires forall i :: 0 <= i < |digits| ==> '0' <= digits[i] <= '9'
    requires rest == "" || DigitValue(rest[0]) >= 10
    ensures LeadingDigits(digits + rest) == |digits|
  {
    if digits == "" {
      assert digits + rest == rest;
    } else {
      assert (digits + rest)[1..] == digits[1..] + rest;
      DigitsLead(digits[1..], rest);
    }
  }

  lemma OneZeroMore(s: string, n: nat)
    ensures s + Zeros(n + 1) == (s + Zeros(n)) + [DigitChar(0)]
  {
  }

  lemma TenTimes(v: nat, p: nat)
    ensures v * p * 10 == v * (10 * p)
  {
  }

  lemma {:induction false} ZerosShift(s: string, n: nat)
    requires Value(s, 10).Some?
    ensures Value(s + Zeros(n), 10) == Some(Value(s, 10).value * Power(10, n))
  {
    if n == 0 {
      assert s + Zeros(0) == s;
    } else {
      ZerosShift(s, n - 1);
      OneZeroMore(s, n - 1);
      ValueSnoc(s + Zeros(n - 1), Value(s, 10).value * Power(10, n - 1), 0, 10);
      TenTimes(Value(s, 10).value, Power(10, n - 1));
    }
  }

  lemma DigitsRead(digits: string, micros: nat, rest: string)
    requires digits != "" && forall i :: 0 <= i < |digits| ==> '0' <= digits[i] <= '9'
    requires rest == "" || DigitValue(rest[0]) >= 10
    requires MicrosOf(digits) == Some(micros) && micros < 1_000_000
    ensures ReadFraction("." + digits + rest) == Some((micros, rest))
  {
    var s := "." + digits + rest;
    assert s[1..] == digits + rest;
    DigitsLead(digits, rest);
    assert (digits + rest)[..|digits|] == digits && (digits + rest)[|digits|..] == rest;
  }

  lemma FractionReads(micros: nat, rest: string)
    requires micros < 1_000_000 && rest != "" && rest[0] != '.' && DigitValue(rest[0]) >= 10
    ensures ReadFraction(FractionText(micros) + rest) == Some((micros, rest))
  {
    if micros == 0 {
      assert FractionText(micros) + rest == rest;
    } else if micros % 1000 == 0 {
      var digits := Fixed(micros / 1000, 10, 3);
      assert Power(10, 3) == 1000;
      FixedReads(micros / 1000, 10, 3);
      FixedIsDigits(micros / 1000, 10, 3);
      ZerosShift(digits, 3);
      DigitsRead(digits, micros, rest);
    } else {
      var digits := Fixed(micros, 10, 6);
      assert Power(10, 6) == 1_000_000;
      FixedReads(micros, 10, 6);
      FixedIsDigits(micros, 10, 6);
      assert digits[..6] == digits;
      DigitsRead(digits, micros, rest);
    }
  }

  lemma UtcOffset()
    ensures ReadOffset("+00:00") == Some(0)
  {
    TwoDigits(0);
    assert "+00:00"[1..3] == Fixed(0, 10, 2) && "+00:00"[4..] == Fixed(0, 10, 2);
  }

  lemma Parts(date: string, clock: string, tail: string)
    requires |date| == 10 && |clock| == 8
    ensures var s := date + "T" + clock + tail;
      s[..10] == date && s[10] == 'T' && s[11..19] == clock && s[19..] == tail
  {
  }

  lemma PartsParse(date: string, clock: string, tail: string, d: Date, second: nat, micros: nat, t: Time)
    requires |date| == 10 && ReadDate(date) == Some(d)
    requires |clock| == 8 && ReadClock(clock) == Some(second)
    requires |tail| >= 6 && ReadFraction(tail) == Some((micros, "+00:00"))
    requires t == DayNumber(d) * MICROS_PER_DAY + second * 1_000_000 + micros
    ensures Parse(date + "T" + clock + tail) == Some(t)
  {
    Parts(date, clock, tail);
    UtcOffset();
  }

  lemma Rejoined(t: nat)
    ensures t == t / MICROS_PER_DAY * MICROS_PER_DAY
                 + t % MICROS_PER_DAY / 1_000_000 * 1_000_000 + t % MICROS_PER_DAY % 1_000_000
    ensures t % MICROS_PER_DAY / 1_000_000 < 86_400
    ensures t < 315_569_520_000_000_000 ==> t / MICROS_PER_DAY < 3_652_425
  {
  }

  /** The instant comes back from its text. */
  lemma RoundTrip(t: Time)
    ensures Parse(Print(t)) == Some(t)
  {
    Rejoined(t);
    var day, micros := t / MICROS_PER_DAY, t % MICROS_PER_DAY;
    var second, fraction := micros / 1_000_000, micros % 1_000_000;
    FourDigitYear(day);
    DateReads(DateOf(day));
    ClockReads(second);
    FractionReads(fraction, "+00:00");
    var tail := FractionText(fraction) + "+00:00";
    Regroup(DateText(DateOf(day)) + "T" + ClockText(second), FractionText(fraction), "+00:00");
    PartsParse(DateText(DateOf(day)), ClockText(second), tail, DateOf(day), second, fraction, t);
  }

  // Other spellings

  /** Hours and minutes ahead of UTC, or behind. */
  function OffsetText(sign: char, hours: string, minutes: string): string { [sign] + hours + ":" + minutes }

  lemma OffsetReads(sign: char, h: string, m: string, hours: nat, minutes: nat)
    requires (sign == '+' || sign == '-') && hours < 24 && minutes < 60
    requires |h| == 2 && |m| == 2 && Value(h, 10) == Some(hours) && Value(m, 10) == Some(minutes)
    ensures ReadOffset(OffsetText(sign, h, m))
      == Some(if sign == '-' then -(hours * 60 + minutes) else hours * 60 + minutes)
    ensures ReadOffset("Z") == Some(0) && ReadOffset("z") == Some(0)
  {
    var s := OffsetText(sign, h, m);
    assert s[1..3] == h && s[4..] == m && s[3] == ':';
  }

  /** The text of a local time, with either letter between date and clock. */
  function Spelled(local: Time, letter: char, zone: string): string {
    var micros := local % MICROS_PER_DAY;
    DateText(DateOf(local / MICROS_PER_DAY)) + [letter] + ClockText(micros / 1_000_000)
      + (FractionText(micros % 1_000_000) + zone)
  }

  function InRange(t: int): Option<Time> { if 0 <= t < 315_569_520_000_000_000 then Some(t) else None }

  lemma SpelledParts(date: string, letter: char, clock: string, tail: string)
    requires |date| == 10 && |clock| == 8
    ensures var s := date + [letter] + clock + tail;
      s[..10] == date && s[10] == letter && s[11..19] == clock && s[19..] == tail
  {
  }

  lemma SpelledParses(date: string, letter: char, clock: string, tail: string, zone: string, d: Date, second: nat,
    micros: nat, local: Time, minutes: int)
    requires |date| == 10 && ReadDate(date) == Some(d) && (letter == 'T' || letter == 't')
    requires |clock| == 8 && ReadClock(clock) == Some(second)
    requires ReadFraction(tail) == Some((micros, zone)) && tail != "" && ReadOffset(zone) == Some(minutes)
    requires local == DayNumber(d) * MICROS_PER_DAY + second * 1_000_000 + micros
    ensures Parse(date + [letter] + clock + tail) == InRange(local - minutes * 60_000_000)
  {
    SpelledParts(date, letter, clock, tail);
  }

  /** A local time is read as the instant its offset makes of it, if that is in range. */
  lemma SpellingReads(local: Time, letter: char, zone: string, minutes: int)
    requires (letter == 'T' || letter == 't') && ReadOffset(zone) == Some(minutes) && zone != ""
    requires zone[0] in {'+', '-', 'Z', 'z'}
    ensures Parse(Spelled(local, letter, zone)) == InRange(local - minutes * 60_000_000)
  {
    Rejoined(local);
    var day, micros := local / MICROS_PER_DAY, local % MICROS_PER_DAY;
    var second, fraction := micros / 1_000_000, micros % 1_000_000;
    var d := DateOf(day);
    FourDigitYear(day);
    DateReads(d);
    ClockReads(second);
    FractionReads(fraction, zone);
    SpelledParses(DateText(d), letter, ClockText(second), FractionText(fraction) + zone, zone, d, second, fraction,
                  local, minutes);
  }

  lemma DateShape(s: string)
    requires |s| == 10 && ReadDate(s).Some?
    ensures s[4] == '-' && s[7] == '-' && Value(s[..4], 10).Some?
    ensures var month, day := Value(s[5..7], 10), Value(s[8..], 10);
      && month.Some? && day.Some? && 1 <= month.value <= 12 && 1 <= day.value <= 31
      && ReadDate(s) == Some(Date(Value(s[..4], 10).value, month.value, day.value))
  {
  }

  lemma ClockShape(s: string)
    requires |s| == 8 && ReadClock(s).Some?
    ensures s[2] == ':' && s[5] == ':'
    ensures var hour, minute, second := Value(s[..2], 10), Value(s[3..5], 10), Value(s[6..], 10);
      && hour.Some? && minute.Some? && second.Some?
      && hour.value <= 23 && minute.value <= 59 && second.value <= 59
  {
  }

  lemma OffsetShape(s: string)
    requires ReadOffset(s).Some?
    ensures s == "Z" || s == "z" || (|s| == 6 && s[0] in {'+', '-'} && s[3] == ':')
    ensures |s| == 6 ==>
      var hours, minutes := Value(s[1..3], 10), Value(s[4..], 10);
      hours.Some? && minutes.Some? && hours.value <= 23 && minutes.value <= 59
  {
  }

  lemma FractionShape(s: string)
    requires ReadFraction(s).Some?
    ensures var rest := ReadFraction(s).value.1;
      |rest| <= |s| && rest == s[|s| - |rest|..] && (|rest| < |s| ==> s[0] == '.' && |rest| < |s| - 1)
  {
  }

  /** Whatever is read is a date, a letter, a clock, a fraction if there is one, and an offset, each in shape. */
  lemma ParsedShape(s: string)
    requires Parse(s).Some?
    ensures |s| >= 20 && s[10] in {'T', 't'}
    ensures ReadDate(s[..10]).Some? && ReadClock(s[11..19]).Some?
    ensures exists k :: 19 <= k < |s| && ReadOffset(s[k..]).Some? && (k > 19 ==> s[19] == '.' && k > 20)
  {
    var tail := s[19..];
    FractionShape(tail);
    var rest := ReadFraction(tail).value.1;
    var k := |s| - |rest|;
    assert s[k..] == rest;
    OffsetShape(rest);
  }

  predicate TimeText(s: string) {
    forall c :: c in s ==> '0' <= c <= '9' || c in {'-', ':', '+', '.', 'T'}
  }

  lemma FixedIsTimeText(n: nat, width: nat)
    ensures TimeText(Fixed(n, 10, width))
  {
    FixedIsDigits(n, 10, width);
  }

  /** No tilde, and nothing else that is not part of a date or a time. */
  lemma PrintedChars(t: Time)
    ensures TimeText(Print(t))
  {
    var micros := t % MICROS_PER_DAY;
    DateIsTimeText(DateOf(t / MICROS_PER_DAY));
    ClockIsTimeText(micros / 1_000_000);
    FixedIsTimeText(micros % 1_000_000 / 1000, 3);
    FixedIsTimeText(micros % 1_000_000, 6);
  }

  lemma DateIsTimeText(d: Date)
    ensures TimeText(DateText(d))
  {
    FixedIsTimeText(d.year, 4);
    FixedIsTimeText(d.month, 2);
    FixedIsTimeText(d.day, 2);
  }

  lemma ClockIsTimeText(second: nat)
    ensures TimeText(ClockText(second))
  {
    FixedIsTimeText(second / 3600, 2);
    FixedIsTimeText(second / 60 % 60, 2);
    FixedIsTimeText(second % 60, 2);
  }
}
