/** The shared HTTP layer: a token bucket with adaptive penalties, and the retry loop. */
module Http {
  import opened Wrappers

  function RMin(x: real, y: real): real {
    if x <= y then x else y
  }

  function RMax(x: real, y: real): real {
    if x >= y then x else y
  }

  // --- token bucket ---------------------------------------------------------------------

  /** Configured speed. Misconfigured values are raised to something that makes progress. */
  datatype Speed = Speed(rate: real, burst: real) {
    predicate Valid() {
      rate > 0.0 && burst >= 1.0
    }
  }

  datatype Bucket = Bucket(tokens: real, updated: real, penaltyUntil: real, penaltyFactor: real)

  /** Tokens earned in `elapsed` seconds. */
  function Earned(elapsed: real, rate: real): real {
    elapsed * rate
  }

  function EffectiveRate(speed: Speed, b: Bucket, now: real): real
    requires b.penaltyFactor >= 1.0
  {
    if now < b.penaltyUntil then speed.rate / b.penaltyFactor else speed.rate
  }

  function Refilled(speed: Speed, b: Bucket, now: real): real
    requires b.penaltyFactor >= 1.0
  {
    RMin(speed.burst, b.tokens + Earned(now - b.updated, EffectiveRate(speed, b, now)))
  }

  /** One turn of the acquire loop: refill, then take a token if there is a whole one. */
  function Polled(speed: Speed, b: Bucket, now: real): Bucket
    requires b.penaltyFactor >= 1.0
  {
    var tokens := Refilled(speed, b, now);
    b.(tokens := if tokens >= 1.0 then tokens - 1.0 else tokens, updated := now)
  }

  function Penalized(b: Bucket, factor: real, duration: real, now: real): Bucket {
    b.(penaltyFactor := RMax(1.0, factor), penaltyUntil := RMax(b.penaltyUntil, now + duration))
  }

  predicate InBounds(speed: Speed, b: Bucket) {
    speed.Valid() && 0.0 <= b.tokens <= speed.burst && b.penaltyFactor >= 1.0
  }

  datatype Event = Poll | Penalize(factor: real, duration: real)

  function Happen(speed: Speed, b: Bucket, e: Event, now: real): Bucket
    requires b.penaltyFactor >= 1.0
  {
    match e
    case Poll => Polled(speed, b, now)
    case Penalize(factor, duration) => Penalized(b, factor, duration, now)
  }

  lemma SlowerNeverFaster(speed: Speed, b: Bucket, now: real)
    requires InBounds(speed, b) && b.updated <= now
    ensures 0.0 < EffectiveRate(speed, b, now) <= speed.rate
    ensures 0.0 <= Earned(now - b.updated, EffectiveRate(speed, b, now)) <= Earned(now - b.updated, speed.rate)
  {
    hide Earned;
    PenaltyDivides(speed.rate, b.penaltyFactor);
    EarnedGrows(now - b.updated, EffectiveRate(speed, b, now), now - b.updated, speed.rate);
  }

  lemma EarnedGrows(elapsed: real, rate: real, elapsed': real, rate': real)
    requires 0.0 <= elapsed <= elapsed' && 0.0 <= rate <= rate'
    ensures 0.0 <= Earned(elapsed, rate) <= Earned(elapsed', rate')
  {
    assert 0.0 <= Earned(elapsed, rate) by { ProductGrows(elapsed, 0.0, rate); }
    assert Earned(elapsed, rate) <= Earned(elapsed, rate') by { ProductGrows(elapsed, rate, rate'); }
    assert Earned(elapsed, rate') <= Earned(elapsed', rate') by { ProductGrows(rate', elapsed, elapsed'); }
  }

  lemma EarnedIs(elapsed: real, rate: real)
    ensures Earned(elapsed, rate) == elapsed * rate
  {
  }

  lemma EarnedAdds(x: real, y: real, rate: real)
    ensures Earned(x + y, rate) == Earned(x, rate) + Earned(y, rate)
    ensures Earned(0.0, rate) == 0.0
  {
  }

  lemma PenaltyDivides(rate: real, factor: real)
    requires rate > 0.0 && factor >= 1.0
    ensures 0.0 < rate / factor <= rate
  {
    var q := rate / factor;
    assert q * factor == rate;
    if q <= 0.0 { ProductGrows(factor, q, 0.0); }
    ProductGrows(RMax(q, 0.0), 1.0, factor);
  }

  lemma ProductGrows(x: real, y: real, z: real)
    requires x >= 0.0 && y <= z
    ensures x * y <= x * z && y * x <= z * x
  {
  }

  lemma StaysInBounds(speed: Speed, b: Bucket, e: Event, now: real)
    requires InBounds(speed, b) && b.updated <= now
    ensures InBounds(speed, Happen(speed, b, e, now))
  {
    hide EffectiveRate;
    hide Earned;
    SlowerNeverFaster(speed, b, now);
  }

  /** When event `n` happens; before the first, `from`. */
  function TimeBefore(events: seq<(Event, real)>, from: real, n: nat): real
    requires n <= |events|
  {
    if n == 0 then from else events[n - 1].1
  }

  /** Clock readings never go back. */
  ghost predicate Ordered(events: seq<(Event, real)>, from: real) {
    forall i: nat :: i < |events| ==> TimeBefore(events, from, i) <= events[i].1
  }

  /** The bucket after the first `n` events. */
  function After(speed: Speed, b: Bucket, events: seq<(Event, real)>, n: nat): (b': Bucket)
    requires b.penaltyFactor >= 1.0 && n <= |events|
    ensures b'.penaltyFactor >= 1.0
  {
    if n == 0 then b else Happen(speed, After(speed, b, events, n - 1), events[n - 1].0, events[n - 1].1)
  }

  predicate Grants(speed: Speed, b: Bucket, e: Event, now: real)
    requires b.penaltyFactor >= 1.0
  {
    e.Poll? && Refilled(speed, b, now) >= 1.0
  }

  predicate GrantedAt(speed: Speed, b: Bucket, events: seq<(Event, real)>, i: nat)
    requires b.penaltyFactor >= 1.0 && i < |events|
  {
    Grants(speed, After(speed, b, events, i), events[i].0, events[i].1)
  }

  function GrantsIn(speed: Speed, b: Bucket, events: seq<(Event, real)>, n: nat): nat
    requires b.penaltyFactor >= 1.0 && n <= |events|
  {
    if n == 0 then 0 else GrantsIn(speed, b, events, n - 1) + (if GrantedAt(speed, b, events, n - 1) then 1 else 0)
  }

  /** Tokens the bucket may be credited with by `now` at `rate`, never more than a full one. */
  function Level(speed: Speed, b: Bucket, now: real, rate: real): real {
    RMin(speed.burst, b.tokens + Earned(now - b.updated, rate))
  }

  lemma OneEvent(speed: Speed, b: Bucket, e: Event, from: real, now: real, rate: real)
    requires InBounds(speed, b) && b.updated <= from <= now && EffectiveRate(speed, b, now) <= rate
    ensures Level(speed, Happen(speed, b, e, now), now, rate) + (if Grants(speed, b, e, now) then 1.0 else 0.0)
         <= Level(speed, b, from, rate) + Earned(now - from, rate)
  {
    hide EffectiveRate;
    hide Earned;
    SlowerNeverFaster(speed, b, now);
    EarnedGrows(now - b.updated, EffectiveRate(speed, b, now), now - b.updated, rate);
    EarnedGrows(0.0, 0.0, now - from, rate);
    EarnedAdds(from - b.updated, now - from, rate);
  }

  lemma {:induction false} TokensStayInBounds(speed: Speed, b: Bucket, events: seq<(Event, real)>, from: real, n: nat)
    requires InBounds(speed, b) && b.updated <= from && Ordered(events, from) && n <= |events|
    ensures InBounds(speed, After(speed, b, events, n))
    ensures from <= TimeBefore(events, from, n) && After(speed, b, events, n).updated <= TimeBefore(events, from, n)
  {
    hide Polled;
    if n > 0 {
      TokensStayInBounds(speed, b, events, from, n - 1);
      StaysInBounds(speed, After(speed, b, events, n - 1), events[n - 1].0, events[n - 1].1);
      PollUpdates(speed, After(speed, b, events, n - 1), events[n - 1].0, events[n - 1].1);
    }
  }

  lemma PollUpdates(speed: Speed, b: Bucket, e: Event, now: real)
    requires b.penaltyFactor >= 1.0
    ensures Happen(speed, b, e, now).updated == if e.Poll? then now else b.updated
  {
  }

  /** The first `n` events find the bucket earning at most at `rate`. */
  ghost predicate EarnsAtMost(speed: Speed, b: Bucket, events: seq<(Event, real)>, n: nat, rate: real)
    requires b.penaltyFactor >= 1.0 && n <= |events|
  {
    forall i: nat :: i < n ==> EffectiveRate(speed, After(speed, b, events, i), events[i].1) <= rate
  }

  lemma {:induction false} GrantsAndLevel(speed: Speed, b: Bucket, events: seq<(Event, real)>, from: real, n: nat, rate: real)
    requires InBounds(speed, b) && b.updated <= from && Ordered(events, from) && n <= |events|
    requires EarnsAtMost(speed, b, events, n, rate)
    ensures GrantsIn(speed, b, events, n) as real + Level(speed, After(speed, b, events, n), TimeBefore(events, from, n), rate)
         <= Level(speed, b, from, rate) + Earned(TimeBefore(events, from, n) - from, rate)
  {
    hide Earned;
    hide EffectiveRate;
    hide Level;
    hide Happen;
    hide Grants;
    if n == 0 {
      EarnedAdds(0.0, 0.0, rate);
    } else {
      var before, now := TimeBefore(events, from, n - 1), events[n - 1].1;
      GrantsAndLevel(speed, b, events, from, n - 1, rate);
      TokensStayInBounds(speed, b, events, from, n - 1);
      OneEvent(speed, After(speed, b, events, n - 1), events[n - 1].0, before, now, rate);
      EarnedAdds(before - from, now - before, rate);
    }
  }

  lemma GrantsAtRate(speed: Speed, b: Bucket, events: seq<(Event, real)>, from: real, to: real, rate: real)
    requires InBounds(speed, b) && b.updated <= from && Ordered(events, from)
    requires TimeBefore(events, from, |events|) <= to
    requires rate >= 0.0 && EarnsAtMost(speed, b, events, |events|, rate)
    ensures GrantsIn(speed, b, events, |events|) as real <= speed.burst + Earned(to - from, rate)
  {
    hide Earned;
    hide After;
    hide GrantsIn;
    hide EarnsAtMost;
    hide EffectiveRate;
    var last := TimeBefore(events, from, |events|);
    GrantsAndLevel(speed, b, events, from, |events|, rate);
    TokensStayInBounds(speed, b, events, from, |events|);
    var b' := After(speed, b, events, |events|);
    EarnedGrows(0.0, 0.0, last - b'.updated, rate);
    EarnedGrows(last - from, rate, to - from, rate);
  }

  lemma NeverFasterThanConfigured(speed: Speed, b: Bucket, events: seq<(Event, real)>, from: real)
    requires InBounds(speed, b) && b.updated <= from && Ordered(events, from)
    ensures EarnsAtMost(speed, b, events, |events|, speed.rate)
  {
    hide EffectiveRate;
    hide Earned;
    hide After;
    forall i: nat | i < |events|
      ensures EffectiveRate(speed, After(speed, b, events, i), events[i].1) <= speed.rate
    {
      TokensStayInBounds(speed, b, events, from, i);
      SlowerNeverFaster(speed, After(speed, b, events, i), events[i].1);
    }
  }

  /** Rate bound: in any interval, with penalties at any moments, the callers sharing a bucket
      are granted at most its burst plus its rate times the length of the interval. */
  lemma GrantsAreBounded(speed: Speed, b: Bucket, events: seq<(Event, real)>, from: real, to: real)
    requires InBounds(speed, b) && b.updated <= from && Ordered(events, from)
    requires TimeBefore(events, from, |events|) <= to
    ensures GrantsIn(speed, b, events, |events|) as real <= speed.burst + (to - from) * speed.rate
  {
    hide Earned;
    hide After;
    hide GrantsIn;
    hide EarnsAtMost;
    hide Ordered;
    NeverFasterThanConfigured(speed, b, events, from);
    GrantsAtRate(speed, b, events, from, to, speed.rate);
    EarnedIs(to - from, speed.rate);
  }

  /** Nothing shortens a penalty, and only a weaker penalty weakens it. */
  lemma {:induction false} PenaltyStands(speed: Speed, b: Bucket, events: seq<(Event, real)>, n: nat, factor: real)
    requires b.penaltyFactor >= 1.0 && b.penaltyFactor >= factor && n <= |events|
    requires forall i: nat :: i < |events| && events[i].0.Penalize? ==> events[i].0.factor >= factor
    ensures After(speed, b, events, n).penaltyFactor >= factor && After(speed, b, events, n).penaltyUntil >= b.penaltyUntil
  {
    hide Polled;
    if n > 0 {
      PenaltyStands(speed, b, events, n - 1, factor);
      PollKeepsPenalty(speed, After(speed, b, events, n - 1), events[n - 1].0, events[n - 1].1);
    }
  }

  lemma PollKeepsPenalty(speed: Speed, b: Bucket, e: Event, now: real)
    requires b.penaltyFactor >= 1.0
    ensures e.Poll? ==> Happen(speed, b, e, now).penaltyFactor == b.penaltyFactor
    ensures e.Poll? ==> Happen(speed, b, e, now).penaltyUntil == b.penaltyUntil
  {
  }

  lemma SlowedBy(rate: real, factor: real, stronger: real)
    requires rate > 0.0 && 1.0 <= factor <= stronger
    ensures 0.0 <= rate / stronger <= rate / factor
  {
    var q, q' := rate / factor, rate / stronger;
    assert q * factor == rate && q' * stronger == rate;
    if q' < 0.0 { ProductGrows(stronger, q', 0.0); }
    if q' > q {
      ProductGrows(q', factor, stronger);
      assert (q' - q) * factor >= q' - q by { ProductGrows(q' - q, 1.0, factor); }
    }
  }

  lemma SlowedRate(speed: Speed, b: Bucket, now: real, factor: real)
    requires speed.rate > 0.0 && now < b.penaltyUntil && 1.0 <= factor <= b.penaltyFactor
    ensures EffectiveRate(speed, b, now) <= speed.rate / factor
  {
    SlowedBy(speed.rate, factor, b.penaltyFactor);
  }

  lemma PenaltySlows(speed: Speed, b: Bucket, events: seq<(Event, real)>, from: real, factor: real, slow: real)
    requires InBounds(speed, b) && Ordered(events, from) && TimeBefore(events, from, |events|) < b.penaltyUntil
    requires 1.0 <= factor <= b.penaltyFactor && slow == speed.rate / factor
    requires forall i: nat :: i < |events| && events[i].0.Penalize? ==> events[i].0.factor >= factor
    ensures EarnsAtMost(speed, b, events, |events|, slow)
  {
    hide EffectiveRate;
    hide After;
    forall i: nat | i < |events|
      ensures EffectiveRate(speed, After(speed, b, events, i), events[i].1) <= slow
    {
      PenaltyStands(speed, b, events, i, factor);
      LastIsLatest(events, from, i + 1);
      SlowedRate(speed, After(speed, b, events, i), events[i].1, factor);
    }
  }

  /** A penalty is felt: as long as it lasts, and whatever further penalties of at least its factor
      arrive, the callers sharing the bucket are granted at most its burst plus the divided rate
      times the length of the interval. */
  lemma PenalizedGrantsAreBounded(speed: Speed, b: Bucket, events: seq<(Event, real)>, from: real, to: real, factor: real)
    requires InBounds(speed, b) && b.updated <= from && Ordered(events, from)
    requires TimeBefore(events, from, |events|) <= to < b.penaltyUntil
    requires 1.0 <= factor <= b.penaltyFactor
    requires forall i: nat :: i < |events| && events[i].0.Penalize? ==> events[i].0.factor >= factor
    ensures GrantsIn(speed, b, events, |events|) as real <= speed.burst + (to - from) * (speed.rate / factor)
  {
    hide EffectiveRate;
    hide Earned;
    hide After;
    hide GrantsIn;
    hide EarnsAtMost;
    hide Ordered;
    PenaltyDivides(speed.rate, factor);
    var slow := speed.rate / factor;
    PenaltySlows(speed, b, events, from, factor, slow);
    GrantsAtRate(speed, b, events, from, to, slow);
    EarnedIs(to - from, slow);
  }

  /** When a poll gets a token, exactly: at the full rate once the last penalty is over, at the divided
      rate while it lasts. */
  lemma GrantedIff(speed: Speed, b: Bucket, now: real)
    requires InBounds(speed, b)
    ensures b.penaltyUntil <= now ==>
              (Grants(speed, b, Poll, now) <==> b.tokens + (now - b.updated) * speed.rate >= 1.0)
    ensures now < b.penaltyUntil ==>
              (Grants(speed, b, Poll, now) <==> b.tokens + (now - b.updated) * (speed.rate / b.penaltyFactor) >= 1.0)
    ensures Grants(speed, b, Poll, now) ==>
              Polled(speed, b, now).tokens ==
                RMin(speed.burst, b.tokens + (now - b.updated) * (if now < b.penaltyUntil then speed.rate / b.penaltyFactor else speed.rate)) - 1.0
  {
  }

  // --- traces put together --------------------------------------------------------------

  lemma {:induction false} PrefixOfTrace(speed: Speed, b: Bucket, xs: seq<(Event, real)>, ys: seq<(Event, real)>, n: nat)
    requires b.penaltyFactor >= 1.0 && n <= |xs|
    ensures After(speed, b, xs + ys, n) == After(speed, b, xs, n)
    ensures GrantsIn(speed, b, xs + ys, n) == GrantsIn(speed, b, xs, n)
  {
    hide Happen;
    hide Grants;
    if n > 0 {
      PrefixOfTrace(speed, b, xs, ys, n - 1);
      assert (xs + ys)[n - 1] == xs[n - 1];
    }
  }

  lemma {:induction false} TraceAppend(speed: Speed, b: Bucket, xs: seq<(Event, real)>, ys: seq<(Event, real)>, k: nat)
    requires b.penaltyFactor >= 1.0 && k <= |ys|
    ensures var b' := After(speed, b, xs, |xs|);
            && After(speed, b, xs + ys, |xs| + k) == After(speed, b', ys, k)
            && GrantsIn(speed, b, xs + ys, |xs| + k) == GrantsIn(speed, b, xs, |xs|) + GrantsIn(speed, b', ys, k)
  {
    hide Happen;
    hide Grants;
    if k == 0 {
      PrefixOfTrace(speed, b, xs, ys, |xs|);
    } else {
      TraceAppend(speed, b, xs, ys, k - 1);
      assert (xs + ys)[|xs| + k - 1] == ys[k - 1];
    }
  }

  /** Events in order, all of them between two moments. */
  ghost predicate Timed(events: seq<(Event, real)>, from: real, to: real) {
    Ordered(events, from) && TimeBefore(events, from, |events|) <= to
  }

  lemma TimedAppend(xs: seq<(Event, real)>, ys: seq<(Event, real)>, from: real, mid: real, mid': real, to: real)
    requires Timed(xs, from, mid) && mid <= mid' && Timed(ys, mid', to) && mid' <= to
    ensures Timed(xs + ys, from, to)
  {
    var all := xs + ys;
    forall i: nat | i < |all| ensures TimeBefore(all, from, i) <= all[i].1 {
      if i < |xs| {
        assert all[i] == xs[i] && TimeBefore(all, from, i) == TimeBefore(xs, from, i);
      } else {
        assert all[i] == ys[i - |xs|];
        assert TimeBefore(ys, mid', i - |xs|) <= ys[i - |xs|].1;
        if i > |xs| { assert all[i - 1] == ys[i - |xs| - 1]; }
      }
    }
  }

  lemma TimedPrefix(events: seq<(Event, real)>, from: real, to: real, n: nat)
    requires Timed(events, from, to) && n <= |events|
    ensures Timed(events[..n], from, to)
  {
    LastIsLatest(events, from, n);
    forall i: nat | i < n ensures TimeBefore(events[..n], from, i) <= events[..n][i].1 {
      assert TimeBefore(events[..n], from, i) == TimeBefore(events, from, i);
    }
  }

  lemma {:induction false} LastIsLatest(events: seq<(Event, real)>, from: real, n: nat)
    requires Ordered(events, from) && n <= |events|
    ensures TimeBefore(events, from, n) <= TimeBefore(events, from, |events|)
    decreases |events| - n
  {
    if n < |events| { LastIsLatest(events, from, n + 1); }
  }

  /** The bucket's history since `from`, with the tokens this caller took among its grants. */
  ghost predicate Traced(speed: Speed, b0: Bucket, b: Bucket, trace: seq<(Event, real)>, from: real, now: real, taken: nat) {
    && InBounds(speed, b0) && b0.updated <= from <= now && Timed(trace, from, now)
    && b == After(speed, b0, trace, |trace|) && taken <= GrantsIn(speed, b0, trace, |trace|)
  }

  lemma TraceGoesOn(speed: Speed, b0: Bucket, b: Bucket, trace: seq<(Event, real)>, from: real, now: real, taken: nat,
                    more: seq<(Event, real)>, from': real, now': real, more': nat)
    requires Traced(speed, b0, b, trace, from, now, taken) && now <= from' <= now' && Timed(more, from', now')
    requires b.penaltyFactor >= 1.0 ==> more' <= GrantsIn(speed, b, more, |more|)
    ensures b.penaltyFactor >= 1.0
    ensures Traced(speed, b0, After(speed, b, more, |more|), trace + more, from, now', taken + more')
  {
    TraceAppend(speed, b0, trace, more, |more|);
    TimedAppend(trace, more, from, now, from', now');
  }

  /** So many tokens in so long a time: a burst, and the rate times the time. */
  predicate WithinRate(speed: Speed, n: nat, length: real) {
    n as real <= speed.burst + length * speed.rate
  }

  lemma TracedFacts(speed: Speed, b0: Bucket, b: Bucket, trace: seq<(Event, real)>, from: real, now: real, taken: nat)
    requires Traced(speed, b0, b, trace, from, now, taken)
    ensures InBounds(speed, b) && b.updated <= now
    ensures WithinRate(speed, taken, now - from)
  {
    TokensStayInBounds(speed, b0, trace, from, |trace|);
    GrantsAreBounded(speed, b0, trace, from, now);
  }

  /** How long the loop sleeps after a poll that got no token. */
  function Sleep(speed: Speed, b: Bucket, now: real): real
    requires InBounds(speed, b) && b.updated <= now
  {
    SlowerNeverFaster(speed, b, now);
    (1.0 - Refilled(speed, b, now)) / EffectiveRate(speed, b, now)
  }

  lemma ShareOf(x: real, r: real)
    requires x >= 0.0 && r > 0.0
    ensures x / r * r == x && x / r >= 0.0
  {
    var q := x / r;
    if q < 0.0 { ProductGrows(r, q, 0.0); }
  }

  /** After the sleep the bucket has been credited with what was missing. */
  lemma SleptEnough(missing: real, r: real, r': real, elapsed: real)
    requires missing >= 0.0 && 0.0 < r <= r' && elapsed >= missing / r
    ensures Earned(elapsed, r') >= missing
  {
    ShareOf(missing, r);
    EarnedGrows(missing / r, r, elapsed, r');
  }

  /** One sleep is enough: unless a penalty arrives meanwhile, the poll after it succeeds. */
  lemma OneSleepIsEnough(speed: Speed, b: Bucket, now: real, next: real)
    requires InBounds(speed, b) && b.updated <= now && !Grants(speed, b, Poll, now)
    requires next >= now + Sleep(speed, b, now)
    ensures next >= now && Grants(speed, Polled(speed, b, now), Poll, next)
  {
    SlowerNeverFaster(speed, b, now);
    StaysInBounds(speed, b, Poll, now);
    PenaltyDivides(speed.rate, b.penaltyFactor);
    var b', r, missing := Polled(speed, b, now), EffectiveRate(speed, b, now), 1.0 - Refilled(speed, b, now);
    ShareOf(missing, r);
    var r' := EffectiveRate(speed, b', next);
    assert r <= r';
    hide EffectiveRate;
    hide Earned;
    SleptEnough(missing, r, r', next - now);
  }

  /** And no longer than needed: until the sleep is over, and while the penalty does not end, a poll would
      get nothing. */
  lemma SleepIsNeeded(speed: Speed, b: Bucket, now: real, early: real)
    requires InBounds(speed, b) && b.updated <= now && !Grants(speed, b, Poll, now)
    requires now <= early < now + Sleep(speed, b, now) && (now < b.penaltyUntil <==> early < b.penaltyUntil)
    ensures !Grants(speed, Polled(speed, b, now), Poll, early)
  {
    SlowerNeverFaster(speed, b, now);
    var r, missing := EffectiveRate(speed, b, now), 1.0 - Refilled(speed, b, now);
    ShareOf(missing, r);
    TooShort(missing, r, early - now);
    assert EffectiveRate(speed, Polled(speed, b, now), early) == r;
  }

  lemma TooShort(missing: real, r: real, elapsed: real)
    requires missing >= 0.0 && r > 0.0 && 0.0 <= elapsed < missing / r
    ensures Earned(elapsed, r) < missing
  {
    ShareOf(missing, r);
    assert (missing / r - elapsed) * r > 0.0;
  }

  class RateLimiter {
    const speed: Speed
    var bucket: Bucket

    constructor (ratePerSecond: real, burst: int, now: real)
      ensures InBounds(speed, bucket) && bucket.updated == now
      ensures ratePerSecond >= 0.01 && burst >= 1 ==> speed == Speed(ratePerSecond, burst as real)
      ensures bucket.tokens == speed.burst
    {
      speed := Speed(RMax(ratePerSecond, 0.01), RMax(burst as real, 1.0));
      bucket := Bucket(RMax(burst as real, 1.0), now, 0.0, 1.0);
    }

    /** Wait for a token while `events` happen: a Poll is a turn of this caller's loop, a Penalize
        arrives from elsewhere. The first turn that finds a whole token takes it and ends the wait. */
    method Acquire(events: seq<(Event, real)>) returns (granted: bool, used: nat)
      requires InBounds(speed, bucket) && Ordered(events, bucket.updated)
      modifies this
      ensures InBounds(speed, bucket)
      ensures used <= |events| && (!granted ==> used == |events|)
      ensures bucket == After(speed, old(bucket), events, used)
      ensures granted <==> used > 0 && GrantedAt(speed, old(bucket), events, used - 1)
      ensures GrantsIn(speed, old(bucket), events, used) == if granted then 1 else 0
    {
      hide Refilled;
      hide Penalized;
      granted, used := false, 0;
      ghost var before := bucket;
      while used < |events| && !granted
        invariant used <= |events| && InBounds(speed, bucket)
        invariant bucket == After(speed, before, events, used)
        invariant granted <==> used > 0 && GrantedAt(speed, before, events, used - 1)
        invariant GrantsIn(speed, before, events, used) == if granted then 1 else 0
        decreases |events| - used, !granted
      {
        var (e, now) := events[used];
        TokensStayInBounds(speed, before, events, before.updated, used + 1);
        TokensStayInBounds(speed, before, events, before.updated, used);
        if e.Penalize? {
          bucket := Penalized(bucket, e.factor, e.duration, now);
        } else {
          var tokens := Refilled(speed, bucket, now);
          granted := tokens >= 1.0;
          bucket := bucket.(tokens := if granted then tokens - 1.0 else tokens, updated := now);
        }
        used := used + 1;
      }
    }

    /** What other callers of the shared limiter do to it. */
    method Elsewhere(events: seq<(Event, real)>)
      requires InBounds(speed, bucket) && Ordered(events, bucket.updated)
      modifies this
      ensures bucket == After(speed, old(bucket), events, |events|) && InBounds(speed, bucket)
    {
      ghost var before := bucket;
      var i := 0;
      while i < |events|
        invariant i <= |events| && InBounds(speed, bucket) && bucket == After(speed, before, events, i)
      {
        TokensStayInBounds(speed, before, events, before.updated, i + 1);
        bucket := Happen(speed, bucket, events[i].0, events[i].1);
        i := i + 1;
      }
    }

    method Penalize(factor: real, duration: real, now: real)
      requires InBounds(speed, bucket)
      modifies this
      ensures bucket == Penalized(old(bucket), factor, duration, now) && InBounds(speed, bucket)
      ensures bucket.penaltyFactor >= factor && (bucket.penaltyFactor == factor || bucket.penaltyFactor == 1.0)
      ensures bucket.penaltyUntil >= now + duration && bucket.penaltyUntil >= old(bucket).penaltyUntil
      ensures bucket.penaltyUntil == now + duration || bucket.penaltyUntil == old(bucket).penaltyUntil
      ensures bucket.tokens == old(bucket).tokens && bucket.updated == old(bucket).updated
    {
      bucket := bucket.(penaltyFactor := RMax(1.0, factor), penaltyUntil := RMax(bucket.penaltyUntil, now + duration));
    }
  }

  // --- retries --------------------------------------------------------------------------

  datatype RetryPolicy = RetryPolicy(
    maxAttempts: int, baseDelay: real, maxDelay: real, maxElapsed: real, maxRetryAfter: real) {

    predicate Valid() {
      baseDelay >= 0.0 && maxDelay >= 0.0 && maxRetryAfter >= 0.0
    }
  }

  /** What one attempt came to. A success body that is no JSON is refused at once. */
  datatype Outcome =
    | Answered
    | Malformed
    | Refused(retryable: bool, rateLimited: bool, retryAfter: Option<real>)
    | NoAnswer

  predicate MayRetry(o: Outcome) {
    o.NoAnswer? || (o.Refused? && o.retryable)
  }

  function Pow2(n: nat): real {
    if n == 0 then 1.0 else 2.0 * Pow2(n - 1)
  }

  function Ceiling(p: RetryPolicy, attempt: nat): real {
    RMin(p.maxDelay, p.baseDelay * Pow2(attempt))
  }

  /** Everything the client does not decide, attempt by attempt: the answers, the clock at the retry
      decision, the jitter (a fraction of the ceiling), what others do to the shared limiter before
      this client asks it for a token at `asksAt`, the turns of its own wait until `sentAt`, and what
      others do to the limiter while the request is in flight. */
  datatype World = World(
    outcome: nat -> Outcome, decidedAt: nat -> real, jitter: nat -> real,
    elsewhere: nat -> seq<(Event, real)>, asksAt: nat -> real, waits: nat -> seq<(Event, real)>,
    sentAt: nat -> real, inFlight: nat -> seq<(Event, real)>)

  /** Full jitter: a fraction of the whole. */
  function Share(fraction: real, whole: real): real {
    fraction * whole
  }

  function DelayFor(p: RetryPolicy, w: World, attempt: nat): real {
    var o := w.outcome(attempt);
    if o.Refused? && o.retryAfter.Some? then RMin(o.retryAfter.value, p.maxRetryAfter)
    else Share(w.jitter(attempt), Ceiling(p, attempt))
  }

  /** The clock never goes back and a sleep lasts at least as long as asked. */
  ghost predicate Plausible(p: RetryPolicy, w: World, start: real) {
    && (forall i :: 0.0 <= w.jitter(i) <= 1.0)
    && (forall i :: w.outcome(i).Refused? && w.outcome(i).retryAfter.Some? ==> w.outcome(i).retryAfter.value >= 0.0)
    && (forall i :: start <= w.decidedAt(i))
    && (forall i :: SleptThrough(p, w, i))
    && (forall i :: Scheduled(w, start, i))
  }

  /** When the previous attempt was decided; before the first, the start. */
  function Resumes(w: World, start: real, i: nat): real {
    if i == 0 then start else w.decidedAt(i - 1)
  }

  ghost predicate Scheduled(w: World, start: real, i: nat) {
    && Resumes(w, start, i) <= w.asksAt(i) <= w.sentAt(i) <= w.decidedAt(i)
    && Timed(w.elsewhere(i), Resumes(w, start, i), w.asksAt(i))
    && Timed(w.waits(i), w.asksAt(i), w.sentAt(i))
    && Timed(w.inFlight(i), w.sentAt(i), w.decidedAt(i))
  }

  predicate SleptThrough(p: RetryPolicy, w: World, i: nat) {
    w.decidedAt(i) + DelayFor(p, w, i) <= w.asksAt(i + 1)
  }

  /** Attempt `i` is followed by another one. */
  predicate GoesOn(p: RetryPolicy, w: World, start: real, i: nat) {
    && MayRetry(w.outcome(i))
    && i + 1 < p.maxAttempts
    && w.decidedAt(i) + DelayFor(p, w, i) <= start + p.maxElapsed
  }

  function Backoff(p: RetryPolicy, w: World, n: nat): real {
    if n == 0 then 0.0 else Backoff(p, w, n - 1) + DelayFor(p, w, n - 1)
  }

  lemma {:induction false} CeilingBounds(p: RetryPolicy, attempt: nat)
    requires p.Valid()
    ensures Pow2(attempt) >= 1.0 && 0.0 <= Ceiling(p, attempt) <= p.maxDelay
  {
    if attempt > 0 { CeilingBounds(p, attempt - 1); }
    ProductGrows(p.baseDelay, 0.0, Pow2(attempt));
  }

  lemma FractionWithin(fraction: real, whole: real)
    requires 0.0 <= fraction <= 1.0 && whole >= 0.0
    ensures 0.0 <= Share(fraction, whole) <= whole
  {
    ProductGrows(whole, 0.0, fraction);
    ProductGrows(whole, fraction, 1.0);
  }

  lemma DelayBounds(p: RetryPolicy, w: World, start: real, i: nat)
    requires p.Valid() && Plausible(p, w, start)
    ensures 0.0 <= DelayFor(p, w, i) <= RMax(p.maxDelay, p.maxRetryAfter)
  {
    CeilingBounds(p, i);
    assert 0.0 <= w.jitter(i) <= 1.0;
    hide Ceiling;
    hide SleptThrough;
    hide Share;
    FractionWithin(w.jitter(i), Ceiling(p, i));
  }

  /** How long the client sleeps: what a refusal asks for, up to its cap; otherwise a random share of a
      ceiling that starts at the base delay and doubles with every attempt up to the maximum. */
  lemma DelayIs(p: RetryPolicy, w: World, i: nat)
    requires p.Valid()
    ensures w.outcome(i).Refused? && w.outcome(i).retryAfter.Some? ==>
              DelayFor(p, w, i) == (if w.outcome(i).retryAfter.value <= p.maxRetryAfter then w.outcome(i).retryAfter.value else p.maxRetryAfter)
    ensures !w.outcome(i).Refused? || w.outcome(i).retryAfter.None? ==> DelayFor(p, w, i) == w.jitter(i) * Ceiling(p, i)
    ensures Ceiling(p, 0) == RMin(p.maxDelay, p.baseDelay)
    ensures Ceiling(p, i + 1) == RMin(p.maxDelay, 2.0 * Ceiling(p, i))
  {
    CeilingBounds(p, i);
    CeilingDoubles(p, i);
  }

  lemma CeilingDoubles(p: RetryPolicy, i: nat)
    requires p.Valid()
    ensures Ceiling(p, i + 1) == RMin(p.maxDelay, 2.0 * Ceiling(p, i))
  {
    assert p.baseDelay * Pow2(i + 1) == 2.0 * (p.baseDelay * Pow2(i));
  }

  /** A provider's Retry-After is waited out before the limiter is asked again. */
  lemma RetryAfterIsHonoured(p: RetryPolicy, w: World, start: real, i: nat)
    requires p.Valid() && Plausible(p, w, start) && w.outcome(i).Refused? && w.outcome(i).retryAfter.Some?
    ensures w.asksAt(i + 1) - w.decidedAt(i) >= RMin(w.outcome(i).retryAfter.value, p.maxRetryAfter)
  {
    assert SleptThrough(p, w, i);
  }

  /** Total backoff: the sleeps between attempts together stay inside the retry budget. */
  lemma {:induction false} BackoffIsBounded(p: RetryPolicy, w: World, start: real, n: nat)
    requires p.Valid() && Plausible(p, w, start) && forall i: nat :: i < n ==> GoesOn(p, w, start, i)
    ensures start + Backoff(p, w, n) <= w.decidedAt(n)
    ensures n > 0 ==> Backoff(p, w, n) <= p.maxElapsed
  {
    if n > 0 {
      BackoffIsBounded(p, w, start, n - 1);
      assert GoesOn(p, w, start, n - 1) && SleptThrough(p, w, n - 1) && Scheduled(w, start, n);
    } else {
      assert start <= w.decidedAt(0);
    }
  }

  /** The attempts among the first `n` that got an answer at all. */
  function AnswersIn(w: World, n: nat): nat {
    if n == 0 then 0 else AnswersIn(w, n - 1) + (if w.outcome(n - 1).NoAnswer? then 0 else 1)
  }

  predicate TooFast(o: Outcome) {
    o.Refused? && o.rateLimited
  }

  function TooFastIn(w: World, n: nat): nat {
    if n == 0 then 0 else TooFastIn(w, n - 1) + (if TooFast(w.outcome(n - 1)) then 1 else 0)
  }

  /** How a request ends; `Waiting` if the limiter never let the next attempt go. */
  datatype Ending = Delivered | Failed(last: Outcome) | NeverTried | Waiting

  class HttpClient {
    const retry: RetryPolicy
    const limiter: RateLimiter
    /** Answers received; an attempt that timed out is not counted. */
    var calls: nat
    var retries: nat
    var rateLimitEvents: nat

    constructor (retry: RetryPolicy, limiter: RateLimiter)
      ensures this.retry == retry && this.limiter == limiter && calls == retries == rateLimitEvents == 0
    {
      this.retry := retry;
      this.limiter := limiter;
      calls, retries, rateLimitEvents := 0, 0, 0;
    }

    /** Take a token for the next attempt from the limiter others use too. */
    method TakeToken(w: World, start: real, attempt: nat, ghost b0: Bucket, ghost trace: seq<(Event, real)>, ghost taken: nat)
      returns (granted: bool, ghost trace': seq<(Event, real)>)
      requires Scheduled(w, start, attempt)
      requires Traced(limiter.speed, b0, limiter.bucket, trace, start, Resumes(w, start, attempt), taken)
      modifies limiter
      ensures Traced(limiter.speed, b0, limiter.bucket, trace', start, w.sentAt(attempt), taken + if granted then 1 else 0)
      ensures trace <= trace'
    {
      hide Traced;
      hide After;
      hide GrantsIn;
      hide InBounds;
      hide Ordered;
      ghost var sp := limiter.speed;
      TracedFacts(sp, b0, limiter.bucket, trace, start, Resumes(w, start, attempt), taken);
      FollowOn(w.elsewhere(attempt), Resumes(w, start, attempt), limiter.bucket.updated);
      ghost var b1 := limiter.bucket;
      limiter.Elsewhere(w.elsewhere(attempt));
      TraceGoesOn(sp, b0, b1, trace, start, Resumes(w, start, attempt), taken,
                  w.elsewhere(attempt), Resumes(w, start, attempt), w.asksAt(attempt), 0);
      trace' := trace + w.elsewhere(attempt);
      TracedFacts(sp, b0, limiter.bucket, trace', start, w.asksAt(attempt), taken);
      FollowOn(w.waits(attempt), w.asksAt(attempt), limiter.bucket.updated);
      ghost var b2 := limiter.bucket;
      var used;
      granted, used := limiter.Acquire(w.waits(attempt));
      ghost var turns := w.waits(attempt)[..used];
      assert turns + w.waits(attempt)[used..] == w.waits(attempt);
      FactorOf(sp, b2);
      PrefixOfTrace(sp, b2, turns, w.waits(attempt)[used..], used);
      TimedPrefix(w.waits(attempt), w.asksAt(attempt), w.sentAt(attempt), used);
      TraceGoesOn(sp, b0, b2, trace', start, w.asksAt(attempt), taken,
                  turns, w.asksAt(attempt), w.sentAt(attempt), if granted then 1 else 0);
      trace' := trace' + turns;
    }

    /** The request is in flight; meanwhile the limiter is everybody else's. */
    method AwaitAnswer(w: World, start: real, attempt: nat, ghost b0: Bucket, ghost trace: seq<(Event, real)>, ghost taken: nat)
      returns (o: Outcome, ghost trace': seq<(Event, real)>)
      requires Scheduled(w, start, attempt)
      requires Traced(limiter.speed, b0, limiter.bucket, trace, start, w.sentAt(attempt), taken)
      modifies limiter
      ensures o == w.outcome(attempt)
      ensures Traced(limiter.speed, b0, limiter.bucket, trace', start, w.decidedAt(attempt), taken) && trace <= trace'
    {
      hide Traced;
      hide After;
      hide GrantsIn;
      hide InBounds;
      hide Ordered;
      ghost var b := limiter.bucket;
      TracedFacts(limiter.speed, b0, b, trace, start, w.sentAt(attempt), taken);
      FollowOn(w.inFlight(attempt), w.sentAt(attempt), b.updated);
      limiter.Elsewhere(w.inFlight(attempt));
      TraceGoesOn(limiter.speed, b0, b, trace, start, w.sentAt(attempt), taken,
                  w.inFlight(attempt), w.sentAt(attempt), w.decidedAt(attempt), 0);
      trace' := trace + w.inFlight(attempt);
      o := w.outcome(attempt);
    }

    lemma FactorOf(speed: Speed, b: Bucket)
      requires InBounds(speed, b)
      ensures b.penaltyFactor >= 1.0
    {
    }

    lemma FollowOn(events: seq<(Event, real)>, from: real, earlier: real)
      requires Ordered(events, from) && earlier <= from
      ensures Ordered(events, earlier)
    {
      forall i: nat | i < |events| ensures TimeBefore(events, earlier, i) <= events[i].1 {
        assert TimeBefore(events, from, i) <= events[i].1;
      }
    }

    /** As long as the answer says, or half a minute if it does not say. */
    function SlowFor(o: Outcome): real
      requires o.Refused?
    {
      if o.retryAfter.Some? && o.retryAfter.value != 0.0 then o.retryAfter.value else 30.0
    }

    /** The provider says we are too fast: everybody slows down. */
    method SlowDown(o: Outcome, now: real, start: real, ghost b0: Bucket, ghost trace: seq<(Event, real)>, ghost taken: nat)
      returns (ghost trace': seq<(Event, real)>)
      requires Traced(limiter.speed, b0, limiter.bucket, trace, start, now, taken)
      modifies this`rateLimitEvents, limiter
      ensures Traced(limiter.speed, b0, limiter.bucket, trace', start, now, taken) && trace <= trace'
      ensures o.Refused? && o.rateLimited ==>
                && limiter.bucket.penaltyFactor == 2.0
                && limiter.bucket.penaltyUntil >= now + SlowFor(o)
                && (Event.Penalize(2.0, SlowFor(o)), now) in trace'
      ensures rateLimitEvents == old(rateLimitEvents) + if o.Refused? && o.rateLimited then 1 else 0
    {
      trace' := trace;
      if o.Refused? && o.rateLimited {
        rateLimitEvents := rateLimitEvents + 1;
        var duration := if o.retryAfter.Some? && o.retryAfter.value != 0.0 then o.retryAfter.value else 30.0;
        TracedFacts(limiter.speed, b0, limiter.bucket, trace, start, now, taken);
        ghost var b1, more := limiter.bucket, [(Event.Penalize(2.0, duration), now)];
        limiter.Penalize(2.0, duration, now);
        assert After(limiter.speed, b1, more, 0) == b1;
        TraceGoesOn(limiter.speed, b0, b1, trace, start, now, taken, more, now, now, 0);
        trace' := trace + more;
        assert trace'[|trace|] == more[0];
      }
    }

    /** One attempt: wait for a token, send, count the answer, and slow down if it says so. */
    method Attempt(w: World, start: real, attempt: nat, ghost b0: Bucket, ghost trace: seq<(Event, real)>)
      returns (granted: bool, o: Outcome, ghost trace': seq<(Event, real)>)
      requires Scheduled(w, start, attempt) && SlowsDown(w, attempt, trace)
      requires Traced(limiter.speed, b0, limiter.bucket, trace, start, Resumes(w, start, attempt), attempt)
      modifies this`calls, this`rateLimitEvents, limiter
      ensures o == w.outcome(attempt)
      ensures calls == old(calls) + (if granted && !o.NoAnswer? then 1 else 0)
      ensures rateLimitEvents == old(rateLimitEvents) + (if granted && TooFast(o) then 1 else 0)
      ensures SlowsDown(w, if granted then attempt + 1 else attempt, trace')
      ensures if granted then Traced(limiter.speed, b0, limiter.bucket, trace', start, w.decidedAt(attempt), attempt + 1)
              else Traced(limiter.speed, b0, limiter.bucket, trace', start, w.sentAt(attempt), attempt)
    {
      hide Traced;
      hide Scheduled;
      hide SlowsDown;
      granted, trace' := TakeToken(w, start, attempt, b0, trace, attempt);
      TraceGrew(w, attempt, trace, trace');
      o := w.outcome(attempt);
      if granted {
        ghost var before := trace';
        o, trace' := AwaitAnswer(w, start, attempt, b0, trace', attempt + 1);
        TraceGrew(w, attempt, before, trace');
        if !o.NoAnswer? {
          calls := calls + 1;
        }
        before := trace';
        trace' := SlowDown(o, w.decidedAt(attempt), start, b0, trace', attempt + 1);
        TraceGrew(w, attempt, before, trace');
      }
    }

    /** Perform a request with retries. Exactly the attempts that may be retried, are not the
        last allowed and leave room for their delay are followed by another, and every one of them
        is paid for with a token of the shared limiter; so their number is bounded by its rate. */
    method Request(w: World, start: real) returns (ending: Ending, sends: nat, slept: real, ghost trace: seq<(Event, real)>)
      requires retry.Valid() && InBounds(limiter.speed, limiter.bucket) && limiter.bucket.updated <= start
      requires Plausible(retry, w, start)
      modifies this`calls, this`retries, this`rateLimitEvents, limiter
      ensures ending.NeverTried? <==> retry.maxAttempts <= 0
      ensures ending.NeverTried? ==> sends == 0
      ensures retry.maxAttempts > 0 ==> sends <= retry.maxAttempts
      ensures forall i: nat :: i < sends - 1 ==> GoesOn(retry, w, start, i)
      ensures ending.Waiting? ==> sends > 0 ==> GoesOn(retry, w, start, sends - 1)
      ensures ending.Delivered? || ending.Failed? ==>
                && sends > 0 && !GoesOn(retry, w, start, sends - 1)
                && ending == if w.outcome(sends - 1).Answered? then Delivered else Failed(w.outcome(sends - 1))
      ensures slept == Backoff(retry, w, if sends == 0 || ending.Waiting? then sends else sends - 1)
      ensures slept > 0.0 ==> slept <= retry.maxElapsed
      ensures retries == old(retries) + (if sends == 0 || ending.Waiting? then sends else sends - 1)
      ensures calls == old(calls) + AnswersIn(w, sends) && rateLimitEvents == old(rateLimitEvents) + TooFastIn(w, sends)
      ensures SlowsDown(w, sends, trace)
      ensures var end := if ending.Waiting? then w.sentAt(sends) else Resumes(w, start, sends);
              && Traced(limiter.speed, old(limiter.bucket), limiter.bucket, trace, start, end, sends)
              && WithinRate(limiter.speed, sends, end - start)
    {
      hide Traced;
      hide InBounds;
      hide WithinRate;
      hide After;
      hide DelayFor;
      hide Scheduled;
      hide Plausible;
      hide Backoff;
      hide AnswersIn;
      hide TooFastIn;
      hide SlowsDown;
      NextTotals(w, 0);
      NothingToSlow(w);
      ending, sends, slept, trace := NeverTried, 0, 0.0, [];
      ghost var b0 := limiter.bucket;
      NothingTraced(limiter.speed, b0, start);
      while sends < retry.maxAttempts
        invariant sends > 0 ==> sends < retry.maxAttempts
        invariant ending == NeverTried
        invariant forall i: nat :: i < sends ==> GoesOn(retry, w, start, i)
        invariant slept == Backoff(retry, w, sends) && retries == old(retries) + sends
        invariant calls == old(calls) + AnswersIn(w, sends) && rateLimitEvents == old(rateLimitEvents) + TooFastIn(w, sends)
        invariant SlowsDown(w, sends, trace)
        invariant slept > 0.0 ==> slept <= retry.maxElapsed
        invariant Traced(limiter.speed, b0, limiter.bucket, trace, start, Resumes(w, start, sends), sends)
      {
        var attempt := sends;
        AttemptIsScheduled(w, start, attempt);
        NextTotals(w, attempt);
        var granted, o;
        granted, o, trace := Attempt(w, start, attempt, b0, trace);
        if !granted {
          ending := Waiting;
          break;
        }
        sends := sends + 1;
        BackoffIsBounded(retry, w, start, attempt);
        if o.Answered? {
          ending := Delivered;
          break;
        }
        if o.Malformed? || (o.Refused? && !o.retryable) || attempt >= retry.maxAttempts - 1 {
          ending := Failed(o);
          break;
        }
        var delay := DelayFor(retry, w, attempt);
        if w.decidedAt(attempt) + delay > start + retry.maxElapsed {
          ending := Failed(o);
          break;
        }
        retries := retries + 1;
        slept := slept + delay;
        BackoffIsBounded(retry, w, start, attempt + 1);
      }
      TracedFacts(limiter.speed, b0, limiter.bucket, trace, start,
                  if ending.Waiting? then w.sentAt(sends) else Resumes(w, start, sends), sends);
    }

    /** Every one of the first `n` answers that called us too fast penalized the shared limiter. */
    ghost predicate SlowsDown(w: World, n: nat, trace: seq<(Event, real)>) {
      forall i: nat :: i < n && TooFast(w.outcome(i)) ==> (Event.Penalize(2.0, SlowFor(w.outcome(i))), w.decidedAt(i)) in trace
    }

    lemma TraceGrew(w: World, n: nat, trace: seq<(Event, real)>, trace': seq<(Event, real)>)
      requires SlowsDown(w, n, trace) && trace <= trace'
      ensures SlowsDown(w, n, trace')
      ensures TooFast(w.outcome(n)) ==> ((Event.Penalize(2.0, SlowFor(w.outcome(n))), w.decidedAt(n)) in trace' ==> SlowsDown(w, n + 1, trace'))
      ensures !TooFast(w.outcome(n)) ==> SlowsDown(w, n + 1, trace')
    {
      forall i: nat | i < n && TooFast(w.outcome(i))
        ensures (Event.Penalize(2.0, SlowFor(w.outcome(i))), w.decidedAt(i)) in trace'
      {
        var k :| 0 <= k < |trace| && trace[k] == (Event.Penalize(2.0, SlowFor(w.outcome(i))), w.decidedAt(i));
        assert trace'[k] == trace[k];
      }
    }

    lemma NothingToSlow(w: World)
      ensures SlowsDown(w, 0, [])
    {
    }

    lemma NextTotals(w: World, n: nat)
      ensures TooFastIn(w, 0) == 0
      ensures TooFastIn(w, n + 1) == TooFastIn(w, n) + (if TooFast(w.outcome(n)) then 1 else 0)
      ensures Backoff(retry, w, 0) == 0.0 && AnswersIn(w, 0) == 0
      ensures Backoff(retry, w, n + 1) == Backoff(retry, w, n) + DelayFor(retry, w, n)
      ensures AnswersIn(w, n + 1) == AnswersIn(w, n) + (if w.outcome(n).NoAnswer? then 0 else 1)
    {
    }

    lemma AttemptIsScheduled(w: World, start: real, attempt: nat)
      requires Plausible(retry, w, start)
      ensures Scheduled(w, start, attempt)
    {
    }

    lemma NothingTraced(speed: Speed, b: Bucket, start: real)
      requires InBounds(speed, b) && b.updated <= start
      ensures Traced(speed, b, b, [], start, start, 0)
    {
    }
  }
}
