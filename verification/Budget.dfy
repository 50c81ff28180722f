/** The rolling daily cap on provider calls, shared by the streams of one run. */
module Budget {
  import opened Wrappers
  import opened Instants

  const RESERVE_PER_STREAM := 5

  /** The cap of the next stream when `left` streams, itself included, are still to run. */
  function Cap(remaining: nat, left: nat): nat
    requires left >= 1
  {
    Max(1, Max(remaining / left, remaining - RESERVE_PER_STREAM * (left - 1)))
  }

  /** A spend a stream is free to make while `remaining` calls are left to it and `others` more streams:
      the one call everybody gets, an equal share, or whatever leaves five calls for each of the others. */
  predicate MaySpend(remaining: nat, others: nat, spend: nat) {
    spend <= 1 || spend * (others + 1) <= remaining || spend + 5 * others <= remaining
  }

  /** A cap allows exactly these spends. */
  ghost predicate Allows(cap: nat, remaining: nat, others: nat) {
    forall spend: nat :: spend <= cap <==> MaySpend(remaining, others, spend)
  }

  /** The cap is the largest such spend. */
  lemma CapIff(remaining: nat, left: nat, spend: nat)
    requires left >= 1
    ensures spend <= Cap(remaining, left) <==> MaySpend(remaining, left - 1, spend)
  {
    EqualShare(remaining, left);
    var q := remaining / left;
    if spend <= q { ScaleMonotone(spend, q, left); } else { ScaleMonotone(q + 1, spend, left); }
  }

  function Leftover(remaining: nat, spent: nat): nat {
    Max(0, remaining - spent)
  }

  /** The caps a run hands out, stream by stream, when its streams spend `spends`. */
  function CapsOf(remaining: nat, left: nat, spends: seq<nat>): seq<nat>
    requires left >= 1
  {
    if spends == [] then []
    else [Cap(remaining, left)] + CapsOf(Leftover(remaining, spends[0]), Max(1, left - 1), spends[1..])
  }

  /** What streams spent beyond their caps: their last windows could not be cut short. */
  function Overruns(caps: seq<nat>, spends: seq<nat>): nat
    requires |caps| == |spends|
  {
    if spends == [] then 0 else Leftover(spends[0], caps[0]) + Overruns(caps[1..], spends[1..])
  }

  function Sum(spends: seq<nat>): nat {
    if spends == [] then 0 else spends[0] + Sum(spends[1..])
  }

  lemma {:induction false} OneCapEach(remaining: nat, left: nat, spends: seq<nat>)
    requires left >= 1
    ensures |CapsOf(remaining, left, spends)| == |spends|
    decreases |spends|
  {
    if spends != [] { OneCapEach(Leftover(remaining, spends[0]), Max(1, left - 1), spends[1..]); }
  }

  lemma EqualShare(remaining: nat, left: nat)
    requires left >= 1
    ensures remaining / left * left <= remaining < (remaining / left + 1) * left
  {
    assert remaining == remaining / left * left + remaining % left;
    Distribute(remaining / left, 1, left);
  }

  /** One share next to a call for each of the others. */
  lemma ShareLeavesOneEach(remaining: nat, left: nat)
    requires left >= 1
    ensures remaining / left + left - 1 <= Max(remaining, left)
  {
    var q := remaining / left;
    EqualShare(remaining, left);
    if q == 0 {
    } else {
      ScaleMonotone(1, q, left - 1);
      assert q * (left - 1) + q == q * left;
    }
  }

  /** A stream that stays within its cap leaves at least one call for every later stream, or
      uses the one call everybody gets. */
  lemma CapLeavesOneEach(remaining: nat, left: nat)
    requires left >= 1
    ensures Cap(remaining, left) + left - 1 <= Max(remaining, left)
  {
    ShareLeavesOneEach(remaining, left);
  }

  /** Budget bound: whatever the streams do, the run spends no more than what was left of the
      budget, or one call per stream if that is more, plus the overruns. */
  lemma {:induction false} SpendIsBounded(remaining: nat, left: nat, spends: seq<nat>)
    requires 1 <= left && |spends| <= left && |CapsOf(remaining, left, spends)| == |spends|
    ensures Sum(spends) <= Max(remaining, left) + Overruns(CapsOf(remaining, left, spends), spends)
    decreases |spends|
  {
    if spends != [] {
      CapLeavesOneEach(remaining, left);
      var rest := Leftover(remaining, spends[0]);
      if |spends| > 1 {
        OneCapEach(rest, left - 1, spends[1..]);
        SpendIsBounded(rest, left - 1, spends[1..]);
      }
    }
  }

  /** So streams that keep to their caps spend no more than was left, or one call each. */
  lemma {:induction false} SpendWithinCaps(remaining: nat, left: nat, spends: seq<nat>)
    requires 1 <= left && |spends| <= left && |CapsOf(remaining, left, spends)| == |spends|
    requires forall i :: 0 <= i < |spends| ==> spends[i] <= CapsOf(remaining, left, spends)[i]
    ensures Sum(spends) <= Max(remaining, left)
  {
    NoOverruns(CapsOf(remaining, left, spends), spends);
    SpendIsBounded(remaining, left, spends);
  }

  lemma {:induction false} NoOverruns(caps: seq<nat>, spends: seq<nat>)
    requires |caps| == |spends| && forall i :: 0 <= i < |spends| ==> spends[i] <= caps[i]
    ensures Overruns(caps, spends) == 0
  {
    if spends != [] { NoOverruns(caps[1..], spends[1..]); }
  }

  /** Streams before `i` stayed within their caps. */
  predicate WithinCaps(caps: seq<nat>, spends: seq<nat>, i: nat)
    requires |caps| == |spends|
  {
    forall j :: 0 <= j < i && j < |spends| ==> spends[j] <= caps[j]
  }

  lemma ShareCoversReserve(remaining: nat, left: nat, m: nat)
    requires left >= 1 && m * left <= remaining
    ensures m <= remaining / left
  {
    EqualShare(remaining, left);
    CancelFactor(m, remaining / left + 1, left);
  }

  /** A reserve of `m` calls per stream survives a stream that stays within its cap. */
  lemma ReserveSurvives(remaining: nat, left: nat, m: nat, spent: nat)
    requires left >= 1 && m <= RESERVE_PER_STREAM && m * left <= remaining
    requires spent <= Cap(remaining, left)
    ensures m * (left - 1) <= Leftover(remaining, spent)
    ensures Max(1, m) <= Cap(remaining, left)
  {
    ShareCoversReserve(remaining, left, m);
    var q := remaining / left;
    EqualShare(remaining, left);
    Distribute(q, -1, left);
    if spent <= q {
      ShareOfOthers(remaining, left, m, q);
    } else {
      ScaleMonotone(m, RESERVE_PER_STREAM, left - 1);
      if spent <= 1 && m > 0 { assert m * (left - 1) == m * left - m; }
    }
  }

  lemma ShareOfOthers(remaining: nat, left: nat, m: nat, q: nat)
    requires left >= 1 && m <= q && q * left <= remaining
    ensures m * (left - 1) + q <= remaining
  {
    ScaleMonotone(m, q, left - 1);
    assert q * (left - 1) + q == q * left;
  }

  /** No stream is starved: while the streams before it stay within their caps, every stream may
      spend a reserve of five calls, or the equal share the run began with if that was less. */
  lemma {:induction false} NoStreamStarves(remaining: nat, left: nat, m: nat, spends: seq<nat>, i: nat)
    requires 1 <= left && i < |spends| <= left && |CapsOf(remaining, left, spends)| == |spends|
    requires m <= RESERVE_PER_STREAM && m * left <= remaining
    requires WithinCaps(CapsOf(remaining, left, spends), spends, i)
    ensures CapsOf(remaining, left, spends)[i] >= Max(1, m)
    decreases i
  {
    if i == 0 {
      ReserveSurvives(remaining, left, m, 0);
    } else {
      var caps, rest := CapsOf(remaining, left, spends), Leftover(remaining, spends[0]);
      assert spends[0] <= caps[0];
      ReserveSurvives(remaining, left, m, spends[0]);
      OneCapEach(rest, left - 1, spends[1..]);
      assert caps[1..] == CapsOf(rest, left - 1, spends[1..]);
      forall j | 0 <= j < i - 1 ensures spends[1..][j] <= caps[1..][j] {
        assert spends[j + 1] <= caps[j + 1];
      }
      NoStreamStarves(rest, left - 1, m, spends[1..], i - 1);
    }
  }

  lemma LaterCaps(remaining: nat, spends: seq<nat>, i: nat)
    requires i < |spends| && |CapsOf(remaining, |spends|, spends)| == |spends|
    requires WithinCaps(CapsOf(remaining, |spends|, spends), spends, i)
    ensures CapsOf(remaining, |spends|, spends)[i] >= Max(1, Min(RESERVE_PER_STREAM, remaining / |spends|))
    ensures remaining >= RESERVE_PER_STREAM * |spends| ==> CapsOf(remaining, |spends|, spends)[i] >= RESERVE_PER_STREAM
  {
    hide Cap;
    hide CapsOf;
    hide WithinCaps;
    var m := Min(RESERVE_PER_STREAM, remaining / |spends|);
    EqualShare(remaining, |spends|);
    ScaleMonotone(m, remaining / |spends|, |spends|);
    NoStreamStarves(remaining, |spends|, m, spends, i);
    if remaining >= RESERVE_PER_STREAM * |spends| {
      NoStreamStarves(remaining, |spends|, RESERVE_PER_STREAM, spends, i);
    }
  }

  /** The connector's HTTP layer counts every request it sends. */
  class HttpCounter {
    var calls: nat

    constructor ()
      ensures calls == 0
    {
      calls := 0;
    }
  }

  class ApiBudget {
    const limit: int
    const usedBefore: nat
    const connector: HttpCounter
    const callsAtStart: nat
    var streamsLeft: nat

    constructor (limit: int, usedBefore: nat, connector: HttpCounter, streamsTotal: nat)
      ensures this.limit == limit && this.usedBefore == usedBefore && this.connector == connector
      ensures callsAtStart == connector.calls && streamsLeft == Max(1, streamsTotal)
    {
      this.limit := limit;
      this.usedBefore := usedBefore;
      this.connector := connector;
      callsAtStart := connector.calls;
      streamsLeft := Max(1, streamsTotal);
    }

    function Remaining(): nat
      reads connector
    {
      Max(0, limit - usedBefore - (connector.calls - callsAtStart))
    }

    /** None when the cap is disabled. */
    function StreamCap(): Option<nat>
      requires streamsLeft >= 1
      reads this, connector
    {
      if limit <= 0 then None else Some(Cap(Remaining(), streamsLeft))
    }

    method StreamDone()
      modifies this
      ensures streamsLeft == Max(1, old(streamsLeft) - 1)
    {
      streamsLeft := Max(1, streamsLeft - 1);
    }

    /** What may be spent when the streams before the `i`th have spent `before`. */
    ghost predicate CapsRightly(cap: Option<nat>, spent: int, before: nat, others: nat) {
      if limit <= 0 then cap.None?
      else cap.Some? && Allows(cap.value, Max(0, limit - spent - before), others)
    }

    /** The streams of a run, one after the other; stream `i` sends `spends[i]` requests. What the
        health check sent before the first of them counts too. The budget is exceeded by no more
        than the overruns, or one call per stream. */
    method RunStreams(spends: seq<nat>) returns (caps: seq<Option<nat>>)
      requires spends != [] && connector.calls >= callsAtStart
      modifies this, connector
      ensures connector.calls == old(connector.calls) + Sum(spends)
      ensures var spent := usedBefore + (old(connector.calls) - callsAtStart);
              && |caps| == |spends|
              && (forall i :: 0 <= i < |caps| ==> CapsRightly(caps[i], spent, Sum(spends[..i]), |spends| - i - 1))
              && (limit > 0 ==>
                    var values := CapsOf(Max(0, limit - spent), |spends|, spends);
                    && |values| == |caps| && (forall i :: 0 <= i < |caps| ==> caps[i] == Some(values[i]))
                    && spent + Sum(spends) <= Max(limit, spent + |spends|) + Overruns(values, spends))
    {
      hide CapsOf;
      hide Cap;
      hide Sum;
      hide Overruns;
      hide MaySpend;
      streamsLeft := |spends|;
      caps := [];
      ghost var remaining, spent := Remaining(), usedBefore + (connector.calls - callsAtStart);
      ghost var all := CapsOf(remaining, |spends|, spends);
      OneCapEach(remaining, |spends|, spends);
      NothingSpent(spends);
      for i := 0 to |spends|
        invariant |caps| == i && streamsLeft == Max(1, |spends| - i)
        invariant connector.calls >= callsAtStart
        invariant connector.calls == old(connector.calls) + Sum(spends[..i])
        invariant forall k :: 0 <= k < i ==> CapsRightly(caps[k], spent, Sum(spends[..k]), |spends| - k - 1)
        invariant all[i..] == CapsOf(Remaining(), streamsLeft, spends[i..])
        invariant limit > 0 ==> forall k :: 0 <= k < i ==> caps[k] == Some(all[k])
      {
        NextStream(Remaining(), streamsLeft, spends, i);
        var cap := StreamCap();
        CapIsRight(spent, Sum(spends[..i]), Remaining(), streamsLeft);
        caps := caps + [cap];
        connector.calls := connector.calls + spends[i];
        StreamDone();
      }
      assert spends[..|spends|] == spends;
      SpendIsBounded(remaining, |spends|, spends);
    }

    lemma CapIsRight(spent: int, before: nat, remaining: nat, left: nat)
      requires left >= 1 && remaining == Max(0, limit - spent - before)
      ensures CapsRightly(if limit <= 0 then None else Some(Cap(remaining, left)), spent, before, left - 1)
    {
      var others: nat := left - 1;
      forall spend: nat ensures MaySpend(remaining, others, spend) <==> spend <= Cap(remaining, left) {
        CapIff(remaining, left, spend);
      }
    }

    lemma NothingSpent(spends: seq<nat>)
      ensures Sum(spends[..0]) == 0 && spends[0..] == spends
    {
    }

    lemma NextStream(remaining: nat, left: nat, spends: seq<nat>, i: nat)
      requires left >= 1 && i < |spends|
      ensures Sum(spends[..i + 1]) == Sum(spends[..i]) + spends[i]
      ensures var caps := CapsOf(remaining, left, spends[i..]);
              && caps != [] && caps[0] == Cap(remaining, left)
              && caps[1..] == CapsOf(Leftover(remaining, spends[i]), Max(1, left - 1), spends[i + 1..])
    {
      assert spends[i..][1..] == spends[i + 1..];
      assert spends[..i + 1] == spends[..i] + [spends[i]];
      SumAppend(spends[..i], spends[i]);
    }
  }

  lemma {:induction false} SumAppend(spends: seq<nat>, last: nat)
    ensures Sum(spends + [last]) == Sum(spends) + last
  {
    if spends != [] {
      assert (spends + [last])[1..] == spends[1..] + [last];
      SumAppend(spends[1..], last);
    }
  }
}
