/** Timestamp cursors as stored text: printing, parsing and the monotonic advance. */
module Timestamps {
  import opened Wrappers
  import opened DecimalText

  /** A naive UTC datetime. */
  datatype DateTime = DateTime(year: nat, month: nat, day: nat, hour: nat, minute: nat, second: nat, micro: nat) {
    predicate Valid() {
      && 1 <= year <= 9999 && 1 <= month <= 12 && 1 <= day <= DaysIn(year, month)
      && hour < 24 && minute < 60 && second < 60 && micro < 1_000_000
    }

    function Floor(): DateTime {
      this.(micro := 0)
    }
  }

  function DaysIn(year: nat, month: nat): nat {
    if month == 2 then (if year % 4 == 0 && (year % 100 != 0 || year % 400 == 0) then 29 else 28)
    else if month in {4, 6, 9, 11} then 30
    else 31
  }

  /** The Gregorian calendar: 31 days but for four months and February, which has its 29th in every
      fourth year, a full century only in every fourth one. */
  lemma CalendarIs(year: nat, month: nat)
    requires 1 <= month <= 12
    ensures DaysIn(year, month) == 31 <==> month in {1, 3, 5, 7, 8, 10, 12}
    ensures DaysIn(year, month) == 30 <==> month in {4, 6, 9, 11}
    ensures month == 2 ==> 28 <= DaysIn(year, month) <= 29
    ensures month == 2 && year % 100 != 0 ==> (DaysIn(year, month) == 29 <==> year % 4 == 0)
    ensures month == 2 && year % 100 == 0 ==> (DaysIn(year, month) == 29 <==> year / 100 % 4 == 0)
  {
  }

  // --- fixed-width text -----------------------------------------------------------------

  function Two(n: nat): (s: string)
    requires n < 100
    ensures |s| == 2
  {
    [Digit(n / 10), Digit(n % 10)]
  }

  lemma TwoReads(n: nat)
    requires n < 100
    ensures Number(Two(n)) == Some(n)
  {
    assert Number([]) == Some(0);
    NumberAppend([], n / 10);
    assert [] + [Digit(n / 10)] == [Digit(n / 10)];
    NumberAppend([Digit(n / 10)], n % 10);
    assert Two(n) == [Digit(n / 10)] + [Digit(n % 10)];
  }

  /** A year prints as four characters exactly when it has four digits. */
  lemma YearWidth(year: nat)
    requires year <= 9999
    ensures |Decimal(year)| <= 4 && (|Decimal(year)| == 4 <==> year >= 1000)
  {
    var a, b, c := year / 10, year / 100, year / 1000;
    assert a / 10 == b && b / 10 == c;
    assert |Decimal(c)| == 1;
    assert year >= 10 ==> |Decimal(year)| == |Decimal(a)| + 1;
    assert a >= 10 ==> |Decimal(a)| == |Decimal(b)| + 1;
    assert b >= 10 ==> |Decimal(b)| == |Decimal(c)| + 1;
  }

  // --- printing and parsing -------------------------------------------------------------

  /** Everything after the year: "-MM-DDTHH:MM:SSZ" (section 5.6 of RFC 3339). */
  function AfterYear(t: DateTime): (s: string)
    requires t.Valid()
    ensures |s| == 16
  {
    "-" + Two(t.month) + "-" + Two(t.day) + "T" + Two(t.hour) + ":" + Two(t.minute) + ":" + Two(t.second) + "Z"
  }

  function FormatTs(t: DateTime): string
    requires t.Valid()
  {
    Decimal(t.year) + AfterYear(t)
  }

  function Checked(t: DateTime): Option<DateTime> {
    if t.Valid() then Some(t) else None
  }

  /** Absent, or not of the form "YYYY-MM-DD[T ]HH:MM:SS..." or "YYYY-MM-DD": None. A bare date is
      that day's midnight. */
  function ParseTs(value: Option<string>): Option<DateTime> {
    if value.None? then None
    else
      var s := value.value;
      if |s| == 10 then
        var y, m, d := Number(s[..4]), Number(s[5..7]), Number(s[8..10]);
        if s[4] == '-' && s[7] == '-' && y.Some? && m.Some? && d.Some? then
          Checked(DateTime(y.value, m.value, d.value, 0, 0, 0, 0))
        else None
      else if |s| < 19 then None
      else
        var y, m, d := Number(s[..4]), Number(s[5..7]), Number(s[8..10]);
        var h, n, c := Number(s[11..13]), Number(s[14..16]), Number(s[17..19]);
        if s[4] == '-' && s[7] == '-' && s[10] in {'T', ' '} && s[13] == ':' && s[16] == ':'
           && y.Some? && m.Some? && d.Some? && h.Some? && n.Some? && c.Some? then
          Checked(DateTime(y.value, m.value, d.value, h.value, n.value, c.value, 0))
        else None
  }

  // --- what can be read -------------------------------------------------------------------

  function Four(n: nat): (s: string)
    requires n < 10_000
    ensures |s| == 4
  {
    Two(n / 100) + Two(n % 100)
  }

  /** The texts that stand for an instant: years in four digits, a blank or a "T" before the time of
      day, anything after the seconds; or ten characters for a midnight. */
  ghost predicate StandsFor(s: string, t: DateTime) {
    && t.Valid() && t.micro == 0
    && var date := Four(t.year) + "-" + Two(t.month) + "-" + Two(t.day);
    && var time := Two(t.hour) + ":" + Two(t.minute) + ":" + Two(t.second);
    || (s == date && t.hour == t.minute == t.second == 0)
    || (|s| >= 19 && (s[..19] == date + "T" + time || s[..19] == date + " " + time))
  }

  lemma DigitBack(c: char)
    ensures DigitValue(c).Some? ==> DigitValue(c).value < 10 && Digit(DigitValue(c).value) == c
  {
  }

  lemma NumberOfTwo(s: string)
    requires |s| == 2
    ensures var a, b := DigitValue(s[0]), DigitValue(s[1]);
            Number(s) == if a.Some? && b.Some? then Some(10 * a.value + b.value) else None
  {
    assert s[..1] == [s[0]] && [s[0]][..0] == [];
    assert Number([]) == Some(0);
    assert Number([s[0]]) == (if DigitValue(s[0]).Some? then Some(DigitValue(s[0]).value) else None);
  }

  lemma TwoIff(s: string, n: nat)
    requires |s| == 2
    ensures Number(s) == Some(n) <==> n < 100 && s == Two(n)
  {
    hide Number;
    hide DigitValue;
    hide Digit;
    NumberOfTwo(s);
    DigitBack(s[0]);
    DigitBack(s[1]);
    if n < 100 { TwoReads(n); }
    if Number(s) == Some(n) {
      assert n / 10 == DigitValue(s[0]).value && n % 10 == DigitValue(s[1]).value;
      assert s == [s[0], s[1]];
    }
  }

  lemma NumberJoins(hi: string, lo: string)
    requires |lo| == 2
    ensures Number(hi + lo) == if Number(hi).Some? && Number(lo).Some? then Some(100 * Number(hi).value + Number(lo).value) else None
  {
    hide DigitValue;
    NumberOfTwo(lo);
    assert (hi + lo)[..|hi| + 1] == hi + [lo[0]] && (hi + [lo[0]])[..|hi|] == hi;
    NumberLast(hi, lo[0]);
    NumberLast(hi + [lo[0]], lo[1]);
    assert hi + lo == hi + [lo[0]] + [lo[1]];
  }

  lemma NumberLast(s: string, c: char)
    ensures Number(s + [c]) ==
              if Number(s).Some? && DigitValue(c).Some? then Some(10 * Number(s).value + DigitValue(c).value) else None
  {
    assert (s + [c])[..|s|] == s;
  }

  lemma FourIff(s: string, n: nat)
    requires |s| == 4
    ensures Number(s) == Some(n) <==> n < 10_000 && s == Four(n)
  {
    hide Number;
    hide Two;
    var hi, lo := s[..2], s[2..];
    assert s == hi + lo;
    NumberJoins(hi, lo);
    if Number(s) == Some(n) {
      var x, y := Number(hi).value, Number(lo).value;
      TwoIff(hi, x);
      TwoIff(lo, y);
      assert n / 100 == x && n % 100 == y;
    }
    if n < 10_000 && s == Four(n) {
      assert hi == Two(n / 100) && lo == Two(n % 100);
      TwoIff(hi, n / 100);
      TwoIff(lo, n % 100);
    }
  }

  lemma DateText(s: string, y: string, m: string, d: string)
    requires |s| == 10 && |y| == 4 && |m| == |d| == 2
    ensures s == y + "-" + m + "-" + d <==>
              s[..4] == y && s[4] == '-' && s[5..7] == m && s[7] == '-' && s[8..10] == d
  {
    if s[..4] == y && s[4] == '-' && s[5..7] == m && s[7] == '-' && s[8..10] == d {
      assert s == s[..4] + [s[4]] + s[5..7] + [s[7]] + s[8..10];
    }
  }

  lemma TimeText(s: string, h: string, n: string, c: string)
    requires |s| == 8 && |h| == |n| == |c| == 2
    ensures s == h + ":" + n + ":" + c <==> s[..2] == h && s[2] == ':' && s[3..5] == n && s[5] == ':' && s[6..8] == c
  {
    if s[..2] == h && s[2] == ':' && s[3..5] == n && s[5] == ':' && s[6..8] == c {
      assert s == s[..2] + [s[2]] + s[3..5] + [s[5]] + s[6..8];
    }
  }

  lemma Joined(s: string, date: string, mark: char, time: string)
    requires |s| >= 19 && |date| == 10 && |time| == 8
    ensures s[..19] == date + [mark] + time <==> s[..10] == date && s[10] == mark && s[11..19] == time
  {
    if s[..10] == date && s[10] == mark && s[11..19] == time { assert s[..19] == s[..10] + [s[10]] + s[11..19]; }
    if s[..19] == date + [mark] + time {
      assert s[..10] == s[..19][..10] && s[10] == s[..19][10] && s[11..19] == s[..19][11..];
    }
  }

  lemma DateReads(s: string, year: nat, month: nat, day: nat)
    requires |s| >= 10 && year < 10_000 && month < 100 && day < 100
    ensures s[..10] == Four(year) + "-" + Two(month) + "-" + Two(day) <==>
              && s[4] == '-' && s[7] == '-'
              && Number(s[..4]) == Some(year) && Number(s[5..7]) == Some(month) && Number(s[8..10]) == Some(day)
  {
    hide Four;
    hide Two;
    hide Number;
    DateText(s[..10], Four(year), Two(month), Two(day));
    assert s[..10][..4] == s[..4] && s[..10][5..7] == s[5..7] && s[..10][8..10] == s[8..10];
    FourIff(s[..4], year);
    TwoIff(s[5..7], month);
    TwoIff(s[8..10], day);
  }

  lemma TimeReads(s: string, hour: nat, minute: nat, second: nat)
    requires |s| >= 19 && hour < 100 && minute < 100 && second < 100
    ensures s[11..19] == Two(hour) + ":" + Two(minute) + ":" + Two(second) <==>
              && s[13] == ':' && s[16] == ':'
              && Number(s[11..13]) == Some(hour) && Number(s[14..16]) == Some(minute) && Number(s[17..19]) == Some(second)
  {
    hide Two;
    hide Number;
    TimeText(s[11..19], Two(hour), Two(minute), Two(second));
    assert s[11..19][..2] == s[11..13] && s[11..19][3..5] == s[14..16] && s[11..19][6..8] == s[17..19];
    TwoIff(s[11..13], hour);
    TwoIff(s[14..16], minute);
    TwoIff(s[17..19], second);
  }

  /** Exactly the texts that stand for an instant are read, and as that instant. */
  lemma ParseIff(s: string, t: DateTime)
    ensures ParseTs(Some(s)) == Some(t) <==> StandsFor(s, t)
  {
    hide Four;
    hide Two;
    hide Number;
    hide DaysIn;
    if t.Valid() && |s| >= 10 {
      FewDays(t);
      DateReads(s, t.year, t.month, t.day);
      assert |s| == 10 ==> s[..10] == s;
      if |s| >= 19 {
        TimeReads(s, t.hour, t.minute, t.second);
        Joined(s, Four(t.year) + "-" + Two(t.month) + "-" + Two(t.day), 'T', Two(t.hour) + ":" + Two(t.minute) + ":" + Two(t.second));
        Joined(s, Four(t.year) + "-" + Two(t.month) + "-" + Two(t.day), ' ', Two(t.hour) + ":" + Two(t.minute) + ":" + Two(t.second));
      }
    }
  }

  lemma FewDays(t: DateTime)
    requires t.Valid()
    ensures t.day <= 31
  {
  }

  lemma PartsOfText(t: DateTime)
    requires t.Valid()
    ensures var a := AfterYear(t);
            && a[0] == '-' && a[3] == '-' && a[6] == 'T' && a[9] == ':' && a[12] == ':'
            && a[1..3] == Two(t.month) && a[4..6] == Two(t.day) && a[7..9] == Two(t.hour)
            && a[10..12] == Two(t.minute) && a[13..15] == Two(t.second)
  {
  }

  lemma Shift(y: string, a: string, from: nat, to: nat)
    requires from <= to <= |a|
    ensures (y + a)[|y| + from..|y| + to] == a[from..to]
  {
  }

  lemma LayoutOfText(t: DateTime)
    requires t.Valid() && t.year >= 1000
    ensures var s := FormatTs(t);
            && |s| == 20
            && s[4] == '-' && s[7] == '-' && s[10] == 'T' && s[13] == ':' && s[16] == ':'
            && s[..4] == Decimal(t.year) && s[5..7] == Two(t.month) && s[8..10] == Two(t.day)
            && s[11..13] == Two(t.hour) && s[14..16] == Two(t.minute) && s[17..19] == Two(t.second)
  {
    var y, a := Decimal(t.year), AfterYear(t);
    YearWidth(t.year);
    PartsOfText(t);
    hide Decimal;
    hide AfterYear;
    hide Two;
    Shift(y, a, 1, 3);
    Shift(y, a, 4, 6);
    Shift(y, a, 7, 9);
    Shift(y, a, 10, 12);
    Shift(y, a, 13, 15);
  }

  lemma ShortYearIsUnreadable(t: DateTime)
    requires t.Valid() && t.year < 1000
    ensures ParseTs(Some(FormatTs(t))).None?
  {
    var y, a := Decimal(t.year), AfterYear(t);
    YearWidth(t.year);
    PartsOfText(t);
    if |y| == 3 {
      assert FormatTs(t)[4] == a[1] == a[1..3][0] == Digit(t.month / 10);
    }
  }

  /** Round trip: a printed timestamp reads back as its whole second exactly when the year has
      four digits. An earlier one does not read back at all. */
  lemma ParseFormat(t: DateTime)
    requires t.Valid()
    ensures ParseTs(Some(FormatTs(t))) == (if t.year >= 1000 then Some(t.Floor()) else None)
  {
    if t.year >= 1000 {
      LayoutOfText(t);
      DecimalReads(t.year);
      TwoReads(t.month);
      TwoReads(t.day);
      TwoReads(t.hour);
      TwoReads(t.minute);
      TwoReads(t.second);
      hide FormatTs;
      hide Decimal;
      hide Two;
      hide Number;
      hide DaysIn;
      assert t.Floor().Valid();
    } else {
      ShortYearIsUnreadable(t);
    }
  }

  // --- order ----------------------------------------------------------------------------

  /** Python's datetime order. */
  predicate Earlier(s: DateTime, t: DateTime) {
    if s.year != t.year then s.year < t.year
    else if s.month != t.month then s.month < t.month
    else if s.day != t.day then s.day < t.day
    else if s.hour != t.hour then s.hour < t.hour
    else if s.minute != t.minute then s.minute < t.minute
    else if s.second != t.second then s.second < t.second
    else s.micro < t.micro
  }

  /** The same order as that of the microseconds counted with 12 months and 31 days to spare. */
  function Ordinal(t: DateTime): int {
    (((((t.year * 13 + t.month) * 32 + t.day) * 24 + t.hour) * 60 + t.minute) * 60 + t.second) * 1_000_000 + t.micro
  }

  lemma EarlierIff(s: DateTime, t: DateTime)
    requires s.Valid() && t.Valid()
    ensures Earlier(s, t) <==> Ordinal(s) < Ordinal(t)
    ensures s == t <==> Ordinal(s) == Ordinal(t)
  {
    hide DaysIn;
    FewDays(s);
    FewDays(t);
  }

  function Later(s: DateTime, t: DateTime): DateTime {
    if Earlier(s, t) then t else s
  }

  /** The stored text after offering a candidate: unchanged unless the candidate is later. */
  function AdvanceTs(current: Option<string>, candidate: DateTime): Option<string>
    requires candidate.Valid()
  {
    var cur := ParseTs(current);
    if cur.None? || Earlier(cur.value, candidate) then Some(FormatTs(candidate)) else current
  }

  /** On stored text the advance is a maximum: it means the later of what it meant before and the
      candidate's whole second, so it never goes back, and offering a point twice changes nothing. */
  lemma AdvanceIsMaximum(current: Option<string>, candidate: DateTime)
    requires candidate.Valid() && candidate.year >= 1000
    ensures ParseTs(AdvanceTs(current, candidate))
         == Some(if ParseTs(current).Some? then Later(ParseTs(current).value, candidate.Floor()) else candidate.Floor())
    ensures AdvanceTs(AdvanceTs(current, candidate), candidate) == AdvanceTs(current, candidate)
  {
    hide FormatTs;
    hide ParseTs;
    ParseFormat(candidate);
    ParsedHasNoMicros(current);
  }

  lemma ParsedHasNoMicros(value: Option<string>)
    ensures ParseTs(value).Some? ==> ParseTs(value).value.micro == 0
  {
  }

  /** Offered in either order, two points leave text that means the same. */
  lemma AdvancesCommute(current: Option<string>, x: DateTime, y: DateTime)
    requires x.Valid() && y.Valid() && x.year >= 1000 && y.year >= 1000
    ensures ParseTs(AdvanceTs(AdvanceTs(current, x), y)) == ParseTs(AdvanceTs(AdvanceTs(current, y), x))
  {
    hide FormatTs;
    hide ParseTs;
    hide AdvanceTs;
    AdvanceIsMaximum(current, x);
    AdvanceIsMaximum(current, y);
    AdvanceIsMaximum(AdvanceTs(current, x), y);
    AdvanceIsMaximum(AdvanceTs(current, y), x);
  }
}
