/** When a connection runs next: interval, failure backoff, or pinned wall-clock times. */
module Schedule {
  import opened Wrappers
  import opened Instants

  const MINUTE: int := 60 * SECOND
  const HOUR: int := 60 * MINUTE
  const MAX_BACKOFF: int := 6 * HOUR

  /** One configured "HH:MM": text that does not parse is skipped, numbers are taken as they are. */
  datatype Entry = Unparsable | Clock(hh: int, mm: int) {
    predicate OnTheDial() {
      Clock? && 0 <= hh < 24 && 0 <= mm < 60
    }

    function TimeOfDay(): int
      requires Clock?
    {
      hh * HOUR + mm * MINUTE
    }
  }

  /** The local wall clock shows this entry at instant `t`, on the second: so many hours and minutes
      earlier it was midnight. */
  predicate Shows(t: int, offset: int, e: Entry) {
    && e.Clock? && 0 <= e.hh < 24 && 0 <= e.mm < 60
    && (t + offset - (e.hh * 3600 + e.mm * 60) * SECOND) % (24 * 3600 * SECOND) == 0
  }

  lemma ShowsIff(t: int, offset: int, e: Entry)
    ensures Shows(t, offset, e) <==> e.OnTheDial() && (t + offset) % DAY == e.TimeOfDay()
  {
    if e.OnTheDial() {
      assert (e.hh * 3600 + e.mm * 60) * SECOND == e.TimeOfDay() && 24 * 3600 * SECOND == DAY;
      RestIs(t + offset, e.TimeOfDay());
    }
  }

  lemma RestIs(x: int, rest: int)
    requires 0 <= rest < DAY
    ensures (x - rest) % DAY == 0 <==> x % DAY == rest
  {
    var q := (x - rest) / DAY;
    assert x - rest == q * DAY + (x - rest) % DAY;
    assert x == x / DAY * DAY + x % DAY;
    if (x - rest) % DAY == 0 { SameTimeOfDay(q, rest); }
    if x % DAY == rest { SameTimeOfDay(x / DAY, 0); }
  }

  ghost predicate ShowsAny(t: int, offset: int, entries: seq<Entry>) {
    exists e :: e in entries && Shows(t, offset, e)
  }

  /** datetime.replace() rejects an hour or minute that is not on the dial. */
  datatype ScheduleError = OutOfRange(hh: int, mm: int)

  /** The next instant after `now` at which the local clock shows the entry. */
  function NextShowing(now: int, offset: int, e: Entry): int
    requires e.OnTheDial()
  {
    var local := now + offset;
    var target := local - local % DAY + e.TimeOfDay();
    (if target <= local then target + DAY else target) - offset
  }

  lemma SameTimeOfDay(day: int, timeOfDay: int)
    requires 0 <= timeOfDay < DAY
    ensures (day * DAY + timeOfDay) % DAY == timeOfDay
  {
  }

  lemma SameRestApart(t: int, u: int)
    requires t % DAY == u % DAY && u > t - DAY
    ensures u >= t
  {
    var q, q' := t / DAY, u / DAY;
    assert t == q * DAY + t % DAY && u == q' * DAY + u % DAY;
    assert (q' - q) * DAY == u - t;
  }

  /** It is the least such instant, and at most a day away. */
  lemma NextShowingIsLeast(now: int, offset: int, e: Entry)
    requires e.OnTheDial()
    ensures now < NextShowing(now, offset, e) <= now + DAY && Shows(NextShowing(now, offset, e), offset, e)
    ensures forall u :: now < u && Shows(u, offset, e) ==> NextShowing(now, offset, e) <= u
  {
    var local, t := now + offset, NextShowing(now, offset, e);
    var day := local / DAY;
    assert local == day * DAY + local % DAY;
    SameTimeOfDay(day, e.TimeOfDay());
    SameTimeOfDay(day + 1, e.TimeOfDay());
    ShowsIff(t, offset, e);
    forall u | now < u && Shows(u, offset, e) ensures t <= u {
      ShowsIff(u, offset, e);
      SameRestApart(t + offset, u + offset);
    }
  }

  ghost predicate AllOnTheDial(entries: seq<Entry>) {
    forall e :: e in entries && e.Clock? ==> e.OnTheDial()
  }

  ghost predicate NoneParsed(entries: seq<Entry>) {
    forall e :: e in entries ==> e.Unparsable?
  }

  ghost predicate IsNextShowing(now: int, offset: int, entries: seq<Entry>, t: int) {
    && now < t <= now + DAY && ShowsAny(t, offset, entries)
    && forall u :: now < u && ShowsAny(u, offset, entries) ==> t <= u
  }

  /** What has been decided after some of the entries. */
  ghost predicate DecidedSoFar(now: int, offset: int, entries: seq<Entry>, best: Option<int>) {
    && AllOnTheDial(entries)
    && (best.None? <==> NoneParsed(entries))
    && (best.Some? ==> IsNextShowing(now, offset, entries, best.value))
  }

  lemma SkipUnparsable(now: int, offset: int, entries: seq<Entry>, e: Entry, best: Option<int>)
    requires DecidedSoFar(now, offset, entries, best) && e.Unparsable?
    ensures DecidedSoFar(now, offset, entries + [e], best)
  {
    forall u ensures ShowsAny(u, offset, entries + [e]) <==> ShowsAny(u, offset, entries) {
      if ShowsAny(u, offset, entries) {
        var x :| x in entries && Shows(u, offset, x);
        assert x in entries + [e];
      }
    }
    if best.Some? { ParsedStays(entries, e); }
  }

  lemma ParsedStays(entries: seq<Entry>, e: Entry)
    requires !NoneParsed(entries)
    ensures !NoneParsed(entries + [e])
  {
    var x :| x in entries && !x.Unparsable?;
    assert x in entries + [e];
  }

  lemma TakeEntry(now: int, offset: int, entries: seq<Entry>, e: Entry, best: Option<int>)
    requires DecidedSoFar(now, offset, entries, best) && e.OnTheDial()
    ensures var t := NextShowing(now, offset, e);
            DecidedSoFar(now, offset, entries + [e], Some(if best.Some? && best.value <= t then best.value else t))
  {
    NextShowingIsLeast(now, offset, e);
    assert e in entries + [e];
    forall u ensures ShowsAny(u, offset, entries + [e]) <==> ShowsAny(u, offset, entries) || Shows(u, offset, e) {
      if ShowsAny(u, offset, entries) {
        var x :| x in entries && Shows(u, offset, x);
        assert x in entries + [e];
      }
    }
    if best.None? {
      forall u ensures !ShowsAny(u, offset, entries) {}
    }
  }

  /** Soonest of the pinned times. It is the least instant after now at which the local clock
      shows any of them; entries that do not parse are skipped; an entry off the dial escapes as
      an error instead. A missing offset (it did not parse) means no pinning. */
  method NextDailyAt(now: int, entries: seq<Entry>, offset: Option<int>) returns (r: Result<Option<int>, ScheduleError>)
    ensures r.Failure? <==> offset.Some? && !AllOnTheDial(entries)
    ensures r.Success? && r.value.None? <==> offset.None? || NoneParsed(entries)
    ensures r.Success? && r.value.Some? ==> IsNextShowing(now, offset.value, entries, r.value.value)
  {
    hide Shows;
    hide ShowsAny;
    hide IsNextShowing;
    hide NextShowing;
    if offset.None? {
      return Success(None);
    }
    var best: Option<int> := None;
    for i := 0 to |entries|
      invariant DecidedSoFar(now, offset.value, entries[..i], best)
    {
      var e := entries[i];
      assert entries[..i + 1] == entries[..i] + [e];
      if e.Unparsable? {
        SkipUnparsable(now, offset.value, entries[..i], e, best);
      } else {
        if !e.OnTheDial() {
          assert e in entries;
          return Failure(OutOfRange(e.hh, e.mm));
        }
        TakeEntry(now, offset.value, entries[..i], e, best);
        var candidate := NextShowing(now, offset.value, e);
        best := Some(if best.Some? && best.value <= candidate then best.value else candidate);
      }
    }
    assert entries[..|entries|] == entries;
    return Success(best);
  }

  function Pow2(n: nat): int {
    if n == 0 then 1 else 2 * Pow2(n - 1)
  }

  /** How long to wait after a failure worth retrying. */
  function RetryDelay(interval: int, failures: nat): int {
    Max(interval, Min(interval * Pow2(Min(failures, 6)), MAX_BACKOFF))
  }

  lemma {:induction false} Pow2Grows(n: nat, m: nat)
    requires n <= m
    ensures 1 <= Pow2(n) <= Pow2(m)
  {
    if n < m {
      Pow2Grows(n, m - 1);
    } else if n > 0 {
      Pow2Grows(n - 1, n - 1);
    }
  }

  /** Backoff: never sooner than the interval, never later than six hours (or the interval), and
      never sooner after more failures. */
  lemma RetryDelayBounds(interval: int, failures: nat, more: nat)
    requires failures <= more
    ensures interval <= RetryDelay(interval, failures) <= Max(interval, MAX_BACKOFF)
    ensures RetryDelay(interval, failures) <= RetryDelay(interval, more)
    ensures more >= failures >= 6 ==> RetryDelay(interval, failures) == RetryDelay(interval, more)
  {
    var f, m := Min(failures, 6), Min(more, 6);
    Pow2Grows(f, m);
    hide Pow2;
    if interval >= 0 {
      ScaleMonotone(Pow2(f), Pow2(m), interval);
      assert Pow2(f) * interval == interval * Pow2(f) && Pow2(m) * interval == interval * Pow2(m);
    } else {
      ScaleMonotone(1, Pow2(f), -interval);
      assert Pow2(f) * -interval == -(interval * Pow2(f));
    }
  }

  /** The first delay is the interval; each of the first six failures doubles it, up to six hours and
      never below the interval; later failures change nothing. */
  lemma RetryDelayDoubles(interval: int, failures: nat)
    ensures RetryDelay(interval, 0) == interval
    ensures failures < 6 ==>
              RetryDelay(interval, failures + 1) == Max(interval, Min(2 * RetryDelay(interval, failures), 6 * 3600 * SECOND))
    ensures failures >= 6 ==> RetryDelay(interval, failures + 1) == RetryDelay(interval, failures)
  {
    var f := Min(failures, 6);
    Pow2Grows(f, f);
    if failures < 6 { assert interval * Pow2(f + 1) == 2 * (interval * Pow2(f)); }
    assert interval * Pow2(0) == interval;
    ProductSign(interval, Pow2(f));
  }

  lemma ProductSign(x: int, y: int)
    requires y >= 1
    ensures x >= 0 ==> x * y >= x
    ensures x < 0 ==> x * y <= x
  {
    if x >= 0 { ScaleMonotone(1, y, x); } else { ScaleMonotone(1, y, -x); }
    assert x * y == -(y * -x);
  }

  /** `interval` in microseconds; `failures` already counts the run just finished. */
  method NextRunAt(enabled: bool, interval: Option<int>, now: int, ok: bool, willRetry: bool, failures: nat,
                   dailyAt: seq<Entry>, offset: Option<int>) returns (r: Result<Option<int>, ScheduleError>)
    ensures !enabled || interval.None? ==> r == Success(None)
    ensures enabled && interval.Some? ==> (r.Success? ==> r.value.Some?)
    ensures enabled && interval.Some? && !ok && willRetry ==>
              r == Success(Some(now + RetryDelay(interval.value, failures)))
    ensures enabled && interval.Some? && (ok || !willRetry) ==>
              if offset.None? || NoneParsed(dailyAt) then r == Success(Some(now + interval.value))
              else if !AllOnTheDial(dailyAt) then r.Failure?
              else r.Success? && IsNextShowing(now, offset.value, dailyAt, r.value.value)
  {
    hide IsNextShowing;
    if !enabled || interval.None? {
      return Success(None);
    }
    if !ok && willRetry {
      return Success(Some(now + RetryDelay(interval.value, failures)));
    }
    if dailyAt != [] {
      var pinned := NextDailyAt(now, dailyAt, offset);
      if pinned.Failure? || pinned.value.Some? {
        return pinned;
      }
    }
    return Success(Some(now + interval.value));
  }
}
