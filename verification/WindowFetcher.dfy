/** Deterministic, verified windowed retrieval. */
module WindowFetch {
  import opened Wrappers
  import opened Instants
  import opened Source
  import opened WindowSpec

  datatype Error =
    | Transport(fault: Fault)
    | Unverified(start: int, end: int, problem: Problem)
    | Unpageable(start: int, end: int)

  /** No answer ever reports more than `most` rows. */
  ghost predicate CountsAtMost(src: Source, most: nat) {
    forall k: nat, from, to, i: nat, n: nat ::
      src.respond(k, from, to, i, n).Success? ==> src.respond(k, from, to, i, n).value.recordCount <= most
  }

  /** `count` consecutive one-page answers for [a, b], each of which fails verification. */
  ghost predicate AllUntrustworthy(src: Source, first: nat, count: nat, a: int, b: int) {
    forall i: nat :: first <= i < first + count ==>
      var reply := src.Fetch(i, a, b, 1, src.pageSize);
      reply.Success? && reply.value.recordCount <= src.pageSize && CheckSinglePage(reply.value).Some?
  }

  /** Where the leaves produced so far end. */
  function EndOf(a: int, leaves: seq<Window>): int {
    if leaves == [] then a else leaves[|leaves| - 1].end
  }

  lemma {:induction false} ChainEnd(a: int, leaves: seq<Window>, b: int)
    requires Chain(a, leaves, b)
    ensures EndOf(a, leaves) == b
    decreases |leaves|
  {
    if leaves != [] { ChainEnd(leaves[0].end, leaves[1..], b); }
  }

  lemma {:induction false} AcceptedWiden(src: Source, lo: nat, hi: nat, leaves: seq<Window>, lo': nat, hi': nat)
    requires AllAccepted(src, lo, hi, leaves) && lo' <= lo && hi <= hi'
    ensures AllAccepted(src, lo', hi', leaves)
    decreases |leaves|
  {
    hide Pull;
    if leaves != [] {
      var k: nat, m: nat :| AcceptedFirst(src, lo, hi, leaves, k, m);
      AcceptedWiden(src, k + m, hi, leaves[1..], k + m, hi');
      assert AcceptedFirst(src, lo', hi', leaves, k, m);
    }
  }

  lemma NothingAccepted(src: Source, lo: nat, hi: nat)
    ensures AllAccepted(src, lo, hi, [])
  {
  }

  lemma {:induction false} AcceptedAppend(src: Source, lo: nat, mid: nat, hi: nat, xs: seq<Window>, ys: seq<Window>)
    requires AllAccepted(src, lo, mid, xs) && AllAccepted(src, mid, hi, ys) && lo <= mid <= hi
    ensures AllAccepted(src, lo, hi, xs + ys)
    decreases |xs|
  {
    hide Pull;
    if xs == [] {
      assert xs + ys == ys;
      AcceptedWiden(src, mid, hi, ys, lo, hi);
    } else {
      var k: nat, m: nat :| AcceptedFirst(src, lo, mid, xs, k, m);
      AcceptedAppend(src, k + m, mid, hi, xs[1..], ys);
      assert (xs + ys)[1..] == xs[1..] + ys;
      assert AcceptedFirst(src, lo, hi, xs + ys, k, m);
    }
  }

  lemma AcceptedOne(src: Source, k: nat, m: nat, w: Window)
    requires Pull(src, k, m, w)
    ensures AllAccepted(src, k, k + m, [w])
  {
    assert [w][1..] == [];
    assert AcceptedFirst(src, k, k + m, [w], k, m);
  }

  /** Rows the source reported over some leaves. */
  function SumSource(leaves: seq<Window>): nat {
    if leaves == [] then 0 else leaves[0].sourceCount + SumSource(leaves[1..])
  }

  lemma {:induction false} SumSourceConcat(xs: seq<Window>, ys: seq<Window>)
    ensures SumSource(xs + ys) == SumSource(xs) + SumSource(ys)
  {
    if xs == [] {
      assert xs + ys == ys;
    } else {
      assert (xs + ys)[1..] == xs[1..] + ys;
      SumSourceConcat(xs[1..], ys);
    }
  }

  /** A top-level window and the rows reported over its leaves. */
  datatype Top = Top(start: int, end: int, reported: nat)

  function SumReported(tops: seq<Top>): nat {
    if tops == [] then 0 else SumReported(tops[..|tops| - 1]) + tops[|tops| - 1].reported
  }

  lemma OneLeaf(w: Window)
    requires w.start <= w.end
    ensures Chain(w.start, [w], w.end) && EndOf(w.start, [w]) == w.end && SumCalls([w]) == w.apiCalls
  {
    assert [w][1..] == [];
  }

  // --- split arithmetic ---------------------------------------------------------------

  /** Children of a window of `secs` seconds that are `n` rows too full for one page. */
  function Parts(secs: int, n: nat, fill: real, pageSize: nat, maxFanout: int): (parts: int)
    requires fill > 0.0 && pageSize > 0
    ensures parts >= 2
  {
    Max(2, Min(maxFanout, Min(CeilReal(n as real / (fill * pageSize as real)), secs)))
  }

  lemma CeilRealIs(x: real)
    ensures x <= CeilReal(x) as real < x + 1.0
  {
  }

  /** `n` rows fit evenly into `k` children of `room` rows each. */
  predicate Fits(n: nat, k: int, room: real) {
    n as real <= k as real * room
  }

  lemma FitsIff(n: nat, k: int, room: real)
    requires room > 0.0
    ensures Fits(n, k, room) <==> n as real / room <= k as real
  {
    var x := n as real / room;
    assert x * room == n as real;
    if x <= k as real { Times(x, k as real, room); } else { Times(k as real, x, room); }
  }

  lemma Times(x: real, y: real, room: real)
    requires room > 0.0
    ensures x <= y ==> x * room <= y * room
    ensures x < y ==> x * room < y * room
  {
  }

  /** Children share a window's rows evenly into what a page is filled with, if the fan-out and the length
      of the window allow so many; and there are no more of them than that takes. */
  lemma PartsFit(secs: int, n: nat, fill: real, pageSize: nat, maxFanout: int)
    requires fill > 0.0 && pageSize > 0 && secs >= 2
    ensures var parts, room := Parts(secs, n, fill, pageSize, maxFanout), fill * pageSize as real;
            && 2 <= parts <= secs && parts <= Max(2, maxFanout)
            && (parts < secs && parts < maxFanout ==> Fits(n, parts, room))
            && (parts > 2 ==> !Fits(n, parts - 1, room))
  {
    hide Fits;
    var room, parts := fill * pageSize as real, Parts(secs, n, fill, pageSize, maxFanout);
    CeilRealIs(n as real / room);
    FitsIff(n, parts, room);
    FitsIff(n, parts - 1, room);
  }

  /** A step of the split is at least a second and strictly shorter than the window. */
  lemma SplitStep(secs: int, parts: int)
    requires secs >= 2 && 2 <= parts
    ensures 1 <= CeilDiv(secs, parts) < secs
  {
    CeilDivBounds(secs, parts);
    assert secs + parts <= secs * parts by { assert (secs - 1) * (parts - 1) >= 1; }
    CancelFactor(CeilDiv(secs, parts), secs, parts);
    CancelFactor(0, CeilDiv(secs, parts), parts);
  }

  lemma CeilSecondsAdd(whole: int, rest: int)
    requires whole % SECOND == 0
    ensures CeilSeconds(whole + rest) == whole / SECOND + CeilSeconds(rest)
  {
    assert whole == whole / SECOND * SECOND;
  }

  /** Nodes a split tree over [a, b] may visit. */
  function MostNodes(x: int): int {
    if x <= 0 then 1 else 2 * CeilSeconds(x) - 1
  }

  // --- a fixed truthful source never fails verification -------------------------------

  lemma {:induction false} FixedLastCount(src: Source, listing: seq<Row>, k: nat, m: nat, a: int, b: int, otherwise: nat)
    requires Fixed(src, listing) && a <= b && m >= 1 && src.pageSize > 0
    requires Hits(listing, FloorSecond(a), FloorSecond(b)) != []
    requires forall j: nat :: j < m ==> PullPage(src, k, a, b, j).Success?
    ensures LastCount(src, k, m, a, b, otherwise) == |Hits(listing, FloorSecond(a), FloorSecond(b))|
    ensures RowsOf(PullPage(src, k, a, b, 0)) != []
    ensures PullPage(src, k, a, b, 0).value.recordCount == |Hits(listing, FloorSecond(a), FloorSecond(b))|
    decreases m
  {
    var truth := (n: nat) => listing;
    ServedPage(src, truth, k, a, b, m - 1);
    ServedPage(src, truth, k, a, b, 0);
    if m > 1 { FixedLastCount(src, listing, k, m - 1, a, b, otherwise); }
  }

  lemma FixedDelivery(src: Source, listing: seq<Row>, k: nat, m: nat, a: int, b: int)
    requires Fixed(src, listing) && a <= b && src.pageSize > 0
    ensures var hits := Hits(listing, FloorSecond(a), FloorSecond(b));
            && Delivered(src, k, m, a, b) == hits[..Min(m * src.pageSize, |hits|)]
            && |Dedup(hits)| + Unmappable(hits) == |hits|
  {
    var truth := (n: nat) => listing;
    var hits := Hits(listing, FloorSecond(a), FloorSecond(b));
    DeliveredIsPrefix(src, truth, k, m, a, b, hits);
    assert DistinctIds(truth(0));
    HitsFacts(listing, FloorSecond(a), FloorSecond(b));
    DedupAccounting(hits);
  }

  /** A short page of a fixed listing is its last. */
  lemma FixedShortPage(src: Source, listing: seq<Row>, k: nat, a: int, b: int, j: nat)
    requires Fixed(src, listing) && a <= b && src.pageSize > 0
    requires |RowsOf(PullPage(src, k, a, b, j))| < src.pageSize
    ensures (j + 1) * src.pageSize >= |Hits(listing, FloorSecond(a), FloorSecond(b))|
  {
    var hits := Hits(listing, FloorSecond(a), FloorSecond(b));
    assert RowsOf(PullPage(src, k, a, b, j)) == Slice(hits, j * src.pageSize, src.pageSize) by {
      ServedPage(src, (n: nat) => listing, k, a, b, j);
    }
    ShortSlice(hits, j * src.pageSize, src.pageSize);
    Distribute(j, 1, src.pageSize);
  }

  lemma ShortSlice(hits: seq<Row>, done: nat, size: nat)
    requires |Slice(hits, done, size)| < size
    ensures done + size >= |hits|
  {
  }

  lemma FixedAnswers(src: Source, listing: seq<Row>, k: nat, a: int, b: int, j: nat)
    requires Fixed(src, listing) && a <= b
    ensures PullPage(src, k, a, b, j).Success?
  {
    ServedPage(src, (n: nat) => listing, k, a, b, j);
  }

  lemma EnoughPages(n: int, p: int, pages: int)
    requires p > 0 && pages >= CeilDiv(n, p) && pages >= 0
    ensures pages * p >= n
  {
    CeilDivBounds(n, p);
    assert pages * p >= CeilDiv(n, p) * p;
  }

  /** The first `m` pages of a pull arrived, all of them full. */
  predicate AllFull(src: Source, k: nat, m: nat, a: int, b: int) {
    forall j: nat :: j < m ==>
      PullPage(src, k, a, b, j).Success? && |RowsOf(PullPage(src, k, a, b, j))| >= src.pageSize
  }

  /** Counters of a paged pull, as folded from its first `m` pages. */
  datatype Tally = Tally(kept: seq<Row>, unmappable: nat, fetched: nat, firstCount: Option<nat>, lastCount: nat)

  ghost predicate Tallied(src: Source, k: nat, m: nat, a: int, b: int, expected: nat, t: Tally) {
    && PagesArrived(src, k, m, a, b)
    && var delivered := Delivered(src, k, m, a, b);
    && t.kept == Dedup(delivered) && t.unmappable == Unmappable(delivered) && t.fetched == |delivered|
    && t.lastCount == LastCount(src, k, m, a, b, expected)
    && (m == 0 <==> t.firstCount.None?)
    && (m > 0 ==> t.firstCount == Some(PullPage(src, k, a, b, 0).value.recordCount))
  }

  lemma TallyFacts(src: Source, k: nat, m: nat, a: int, b: int, expected: nat, t: Tally)
    requires Tallied(src, k, m, a, b, expected, t)
    ensures t.kept == Dedup(Delivered(src, k, m, a, b)) && t.unmappable == Unmappable(Delivered(src, k, m, a, b))
    ensures m == 0 <==> t.firstCount.None?
    ensures m > 0 ==> PullPage(src, k, a, b, 0).Success?
    ensures m > 0 ==> t.firstCount == Some(PullPage(src, k, a, b, 0).value.recordCount)
  {
  }

  lemma NoPagesYet(src: Source, k: nat, a: int, b: int, expected: nat)
    ensures Tallied(src, k, 0, a, b, expected, Tally([], 0, 0, None, expected))
    ensures AllFull(src, k, 0, a, b)
  {
  }

  lemma NextPageArrived(src: Source, k: nat, m: nat, a: int, b: int)
    requires AllFull(src, k, m, a, b) && PullPage(src, k, a, b, m).Success?
    ensures PagesArrived(src, k, m + 1, a, b)
    ensures |RowsOf(PullPage(src, k, a, b, m))| >= src.pageSize ==> AllFull(src, k, m + 1, a, b)
  {
  }

  lemma NextPage(src: Source, k: nat, m: nat, a: int, b: int, expected: nat, t: Tally, page: Page, kept: seq<Row>, unmappable: nat)
    requires AllFull(src, k, m, a, b) && Tallied(src, k, m, a, b, expected, t)
    requires PullPage(src, k, a, b, m) == Success(page)
    requires var all := Delivered(src, k, m, a, b) + page.rows;
             kept == Dedup(all) && unmappable == Unmappable(all)
    ensures Tallied(src, k, m + 1, a, b, expected, Tally(
              kept, unmappable, t.fetched + |page.rows|,
              if t.firstCount.None? then Some(page.recordCount) else t.firstCount,
              if page.rows != [] then page.recordCount else t.lastCount))
    ensures |page.rows| >= src.pageSize ==> AllFull(src, k, m + 1, a, b)
    ensures PagesArrived(src, k, m + 1, a, b)
  {
    hide Dedup;
    hide Unmappable;
    NextPageArrived(src, k, m, a, b);
    hide AllFull;
    assert Delivered(src, k, m + 1, a, b) == Delivered(src, k, m, a, b) + page.rows;
    hide Delivered;
  }

  class WindowFetcher {
    const source: Source
    const fill: real
    const maxFanout: int
    const integrityRetries: nat
    const maxSpan: int
    /** Every request issued. */
    var calls: nat
    var callsReported: nat

    /** `firstCall` numbers its first request on the source's timeline. */
    constructor (source: Source, firstCall: nat := 0, fill: real := 0.6, maxFanout: int := 8,
                 integrityRetries: nat := 2, maxSpan: int := 365 * DAY)
      requires source.pageSize > 0 && fill > 0.0
      ensures this.source == source && this.fill == fill && this.maxFanout == maxFanout
      ensures this.integrityRetries == integrityRetries && this.maxSpan == maxSpan
      ensures Valid() && calls == firstCall && callsReported == firstCall
    {
      this.source := source;
      this.fill := fill;
      this.maxFanout := maxFanout;
      this.integrityRetries := integrityRetries;
      this.maxSpan := maxSpan;
      calls := firstCall;
      callsReported := firstCall;
    }

    ghost predicate Valid()
      reads this
    {
      source.pageSize > 0 && fill > 0.0 && callsReported <= calls
    }

    /** Requests one node of the split tree may cost when no answer reports more than `most`. */
    ghost function NodeCost(most: nat): nat
      requires source.pageSize > 0
    {
      (1 + integrityRetries) * (CeilDiv(most, source.pageSize) + 4)
    }

    /** The span of the next top-level window: what the last one's density would fill a page with. */
    function NextSpan(windowLen: int, rows: nat): int
      requires source.pageSize > 0 && fill > 0.0
    {
      if rows == 0 then Min(windowLen * 4, maxSpan)
      else
        var seconds := if windowLen < SECOND then 1.0 else windowLen as real / SECOND as real;
        var density := rows as real / seconds;
        var target := fill * source.pageSize as real / density;
        Min(Max((target * SECOND as real).Floor, SECOND), maxSpan)
    }

    /** The next span is the longest that, at the density just observed, holds no more rows than a page is
        filled with - within a second and the longest span allowed; an empty window is followed by
        one four times as long. */
    lemma SpanFollowsDensity(windowLen: int, rows: nat)
      requires source.pageSize > 0 && fill > 0.0 && maxSpan >= SECOND
      ensures rows == 0 ==> NextSpan(windowLen, rows) == Min(4 * windowLen, maxSpan)
      ensures rows > 0 ==>
                var span := NextSpan(windowLen, rows);
                && SECOND <= span <= maxSpan
                && (span > SECOND ==> FitsPage(windowLen, rows, span))
                && (span < maxSpan ==> !FitsPage(windowLen, rows, span + 1))
    {
      hide FitsPage;
      if rows > 0 {
        var span := NextSpan(windowLen, rows);
        FitsPageIff(windowLen, rows, span);
        FitsPageIff(windowLen, rows, span + 1);
      }
    }

    /** At the density of a window of `windowLen` with `rows` rows, a span holds no more rows than a page is
        filled with; less than a second counts as one. */
    predicate FitsPage(windowLen: int, rows: nat, span: int) {
      span as real * rows as real <= fill * source.pageSize as real * Max(windowLen, SECOND) as real
    }

    lemma FitsPageIff(windowLen: int, rows: nat, span: int)
      requires source.pageSize > 0 && fill > 0.0 && rows > 0
      ensures var seconds := if windowLen < SECOND then 1.0 else windowLen as real / SECOND as real;
              FitsPage(windowLen, rows, span) <==>
                span as real <= fill * source.pageSize as real / (rows as real / seconds) * SECOND as real
    {
      var seconds := if windowLen < SECOND then 1.0 else windowLen as real / SECOND as real;
      var page, len := fill * source.pageSize as real, Max(windowLen, SECOND) as real;
      assert seconds * SECOND as real == len;
      SpanIff(page, rows as real, seconds, len, span as real);
    }

    lemma SpanIff(page: real, rows: real, seconds: real, len: real, span: real)
      requires page > 0.0 && rows > 0.0 && seconds > 0.0 && seconds * SECOND as real == len
      ensures rows / seconds > 0.0
      ensures span * rows <= page * len <==> span <= page / (rows / seconds) * SECOND as real
    {
      var density := rows / seconds;
      assert density * seconds == rows;
      Times(density, 0.0, seconds);
      var exact := page / density * SECOND as real;
      assert page / density * density == page;
      SpanRows(page / density, density, seconds, rows, page, len);
      if span <= exact { Times(span, exact, rows); } else { Times(exact, span, rows); }
    }

    lemma SpanRows(target: real, density: real, seconds: real, rows: real, page: real, len: real)
      requires density * seconds == rows && target * density == page && seconds * SECOND as real == len
      ensures target * SECOND as real * rows == page * len
    {
      assert target * (density * seconds) == page * seconds;
    }

    method TakeCalls() returns (n: nat)
      requires Valid()
      modifies this`callsReported
      ensures n == calls - old(callsReported) && callsReported == calls
    {
      n := calls - callsReported;
      callsReported := calls;
    }

    method Fetch(a: int, b: int, pageIndex: nat, size: nat) returns (reply: Reply)
      modifies this`calls
      ensures calls == old(calls) + 1
      ensures reply == source.Fetch(old(calls), a, b, pageIndex, size)
    {
      reply := source.Fetch(calls, a, b, pageIndex, size);
      calls := calls + 1;
    }

    /** Fold one response into the rows kept so far, first occurrence of each id. */
    method Collect(kept0: seq<Row>, unmappable0: nat, rows: seq<Row>, ghost before: seq<Row>)
      returns (kept: seq<Row>, unmappable: nat)
      requires kept0 == Dedup(before) && unmappable0 == Unmappable(before)
      ensures kept == Dedup(before + rows) && unmappable == Unmappable(before + rows)
    {
      hide Dedup;
      hide Unmappable;
      hide Ids;
      kept, unmappable := kept0, unmappable0;
      assert before + rows[..0] == before;
      for i := 0 to |rows|
        invariant kept == Dedup(before + rows[..i]) && unmappable == Unmappable(before + rows[..i])
      {
        var r := rows[i];
        assert before + rows[..i + 1] == (before + rows[..i]) + [r];
        FoldOneRow(before + rows[..i], r);
        if r.id.None? {
          unmappable := unmappable + 1;
        } else if r.id.value !in Ids(kept) {
          kept := kept + [r];
        }
      }
      assert rows[..|rows|] == rows;
    }

    method Leaf(a: int, b: int, page: Page, split: bool) returns (w: Window)
      requires Valid()
      modifies this`callsReported
      ensures Valid() && callsReported == calls && w.apiCalls == calls - old(callsReported)
      ensures w.start == a && w.end == b && w.split == split && !w.pagedFallback
      ensures w.rows == Dedup(page.rows) && w.unmappable == Unmappable(page.rows)
      ensures w.sourceCount == page.recordCount && w.fetchedRows == |page.rows|
    {
      var rows, unmappable := Collect([], 0, page.rows, []);
      assert [] + page.rows == page.rows;
      var n := TakeCalls();
      w := Window(a, b, rows, page.recordCount, |page.rows|, unmappable, n, split, false);
    }

    /** Window [a, b] failed or was fetched whole; `spent` bounds its requests. */
    ghost predicate Resolved(a: int, b: int, leaves: seq<Window>, failure: Option<Error>, lo: nat)
      reads this
    {
      && lo <= calls
      && Chain(a, leaves, EndOf(a, leaves)) && EndOf(a, leaves) <= b
      && AllAccepted(source, lo, calls, leaves)
      && (failure.None? ==> leaves != [] && EndOf(a, leaves) == b && callsReported == calls)
      && PagesOnlySeconds(leaves)
    }

    lemma PagesAppend(xs: seq<Window>, ys: seq<Window>)
      requires PagesOnlySeconds(xs) && PagesOnlySeconds(ys)
      ensures PagesOnlySeconds(xs + ys)
    {
    }

    lemma NoPages()
      ensures PagesOnlySeconds([])
    {
    }

    /** Only a window that cannot be split is pulled page by page. */
    ghost predicate PagesOnlySeconds(leaves: seq<Window>) {
      forall w :: w in leaves && w.pagedFallback ==> w.end - w.start < 2 * SECOND
    }

    /** Ask for page after page until one is short (or far past the count first reported). */
    method PullPages(a: int, b: int, expected: nat, ghost listing: seq<Row>)
      returns (t: Tally, failure: Option<Error>)
      requires Valid() && a <= b
      modifies this`calls
      ensures old(calls) < calls
      ensures failure.None? ==> Tallied(source, old(calls), calls - old(calls), a, b, expected, t)
      ensures failure.None? ==> Finished(old(calls), calls - old(calls), a, b)
      ensures Fixed(source, listing) ==> failure.None?
      ensures failure.Some? ==> failure.value.Transport?
      ensures source.Fetch(old(calls), a, b, 1, source.pageSize).Success? ==>
                calls - old(calls) <= CeilDiv(source.Fetch(old(calls), a, b, 1, source.pageSize).value.recordCount, source.pageSize) + 3
      ensures source.Fetch(old(calls), a, b, 1, source.pageSize).Failure? ==> calls == old(calls) + 1
    {
      hide Tallied;
      hide AllFull;
      hide PagesArrived;
      hide Fixed;
      hide Delivered;
      hide Dedup;
      hide Unmappable;
      ghost var k := calls;
      var p := source.pageSize;
      t := Tally([], 0, 0, None, expected);
      NoPagesYet(source, k, a, b, expected);
      var index: nat := 1;
      while true
        invariant index >= 1 && calls == k + index - 1
        invariant AllFull(source, k, index - 1, a, b)
        invariant Tallied(source, k, index - 1, a, b, expected, t)
        invariant index > 1 <==> t.firstCount.Some?
        invariant t.firstCount.Some? ==> index <= CeilDiv(t.firstCount.value, p) + 3
        decreases t.firstCount.None?, if t.firstCount.Some? then CeilDiv(t.firstCount.value, p) + 3 - index else 0
      {
        var reply := Fetch(a, b, index, p);
        assert reply == PullPage(source, k, a, b, index - 1);
        if reply.Failure? {
          TallyFacts(source, k, index - 1, a, b, expected, t);
          if Fixed(source, listing) { FixedAnswers(source, listing, k, a, b, index - 1); }
          return t, Some(Transport(reply.error));
        }
        var page := reply.value;
        ghost var before := Delivered(source, k, index - 1, a, b);
        TallyFacts(source, k, index - 1, a, b, expected, t);
        var kept, unmappable := Collect(t.kept, t.unmappable, page.rows, before);
        NextPage(source, k, index - 1, a, b, expected, t, page, kept, unmappable);
        t := Tally(
          kept, unmappable, t.fetched + |page.rows|,
          if t.firstCount.None? then Some(page.recordCount) else t.firstCount,
          if page.rows != [] then page.recordCount else t.lastCount);
        TallyFacts(source, k, index, a, b, expected, t);
        if |page.rows| < p || index > CeilDiv(t.firstCount.value, p) + 2 {
          return t, None;
        }
        index := index + 1;
      }
    }

    /** A pull of `m` pages stopped where the source says it ends. */
    ghost predicate Finished(k: nat, m: nat, a: int, b: int) {
      && m >= 1 && source.pageSize > 0
      && PagesArrived(source, k, m, a, b)
      && (|RowsOf(PullPage(source, k, a, b, m - 1))| < source.pageSize ||
          m >= CeilDiv(PullPage(source, k, a, b, 0).value.recordCount, source.pageSize) + 3)
    }

    /** One attempt of the paged fallback: a window only if its counts all agree. */
    method TryPull(a: int, b: int, expected: nat, ghost listing: seq<Row>)
      returns (accepted: Option<Window>, failure: Option<Error>)
      requires Valid() && a <= b && expected > 0
      requires Fixed(source, listing) ==> Hits(listing, FloorSecond(a), FloorSecond(b)) != []
      modifies this
      ensures Valid() && old(calls) < calls
      ensures accepted.Some? ==> var w := accepted.value;
                && w.start == a && w.end == b && w.split && w.pagedFallback
                && AllAccepted(source, old(calls), calls, [w])
                && w.apiCalls == calls - old(callsReported) && callsReported == calls
      ensures accepted.None? ==> callsReported == old(callsReported)
      ensures failure.Some? ==> accepted.None? && failure.value.Transport?
      ensures Fixed(source, listing) ==> accepted.Some?
      ensures source.Fetch(old(calls), a, b, 1, source.pageSize).Success? ==>
                calls - old(calls) <= CeilDiv(source.Fetch(old(calls), a, b, 1, source.pageSize).value.recordCount, source.pageSize) + 3
      ensures source.Fetch(old(calls), a, b, 1, source.pageSize).Failure? ==> calls == old(calls) + 1
    {
      hide Fixed;
      hide PullPage;
      hide Hits;
      hide Tallied;
      hide PagesArrived;
      hide AllAccepted;
      hide Finished;
      ghost var k := calls;
      var t, fault := PullPages(a, b, expected, listing);
      if fault.Some? {
        return None, fault;
      }
      ghost var m := calls - k;
      if Fixed(source, listing) { FixedAttempt(k, m, a, b, expected, t, listing); }
      TallyFacts(source, k, m, a, b, expected, t);
      var first := t.firstCount.value;
      if t.lastCount != first || t.fetched != first || |t.kept| + t.unmappable != first {
        return None, None;
      }
      var n := TakeCalls();
      var w := Window(a, b, t.kept, first, t.fetched, t.unmappable, n, true, true);
      AgreeingPull(k, m, expected, t, w);
      return Some(w), None;
    }

    /** A window too short to split is pulled page by page, and again if the counts disagree. */
    method PagedFallback(a: int, b: int, expected: nat, ghost listing: seq<Row>, ghost most: nat)
      returns (leaves: seq<Window>, failure: Option<Error>)
      requires Valid() && a <= b && expected > 0 && b - a < 2 * SECOND
      requires Fixed(source, listing) ==> Hits(listing, FloorSecond(a), FloorSecond(b)) != []
      modifies this
      ensures Valid() && Resolved(a, b, leaves, failure, old(calls))
      ensures SumCalls(leaves) == callsReported - old(callsReported)
      ensures failure.None? ==> |leaves| == 1 && leaves[0].start == a && leaves[0].split && leaves[0].pagedFallback
      ensures FailureShown(failure)
      ensures Fixed(source, listing) ==> failure.None?
      ensures CountsAtMost(source, most) ==>
                calls - old(calls) <= (1 + integrityRetries) * (CeilDiv(most, source.pageSize) + 3)
    {
      hide AllAccepted;
      hide Fixed;
      ghost var spend := CeilDiv(most, source.pageSize) + 3;
      leaves := [];
      for attempt := 0 to 1 + integrityRetries
        invariant Valid() && callsReported == old(callsReported) && calls >= old(calls)
        invariant attempt > 0 ==> !Fixed(source, listing)
        invariant CountsAtMost(source, most) ==> calls - old(calls) <= attempt * spend
      {
        ghost var k := calls;
        var accepted, fault := TryPull(a, b, expected, listing);
        AttemptCost(k, calls, a, b, most);
        Distribute(attempt, 1, spend);
        ScaleMonotone(attempt + 1, 1 + integrityRetries, spend);
        if fault.Some? {
          NothingAccepted(source, old(calls), calls);
          return [], fault;
        }
        if accepted.Some? {
          OneLeaf(accepted.value);
          AcceptedWiden(source, k, calls, [accepted.value], old(calls), calls);
          return [accepted.value], None;
        }
      }
      NothingAccepted(source, old(calls), calls);
      failure := Some(Unpageable(a, b));
    }

    lemma AttemptCost(k: nat, after: nat, a: int, b: int, most: nat)
      requires source.pageSize > 0
      requires source.Fetch(k, a, b, 1, source.pageSize).Success? ==>
                 after - k <= CeilDiv(source.Fetch(k, a, b, 1, source.pageSize).value.recordCount, source.pageSize) + 3
      requires source.Fetch(k, a, b, 1, source.pageSize).Failure? ==> after == k + 1
      ensures CeilDiv(most, source.pageSize) >= 0
      ensures CountsAtMost(source, most) ==> after - k <= CeilDiv(most, source.pageSize) + 3
    {
      CeilDivMonotone(0, most, source.pageSize);
      var first := source.Fetch(k, a, b, 1, source.pageSize);
      if first.Success? && CountsAtMost(source, most) {
        CeilDivMonotone(first.value.recordCount, most, source.pageSize);
      }
    }

    lemma SingleLeaf(k: nat, w: Window, page: Page)
      requires PullPage(source, k, w.start, w.end, 0) == Success(page)
      requires page.recordCount <= source.pageSize && CheckSinglePage(page).None? && !w.pagedFallback
      requires w.rows == Dedup(page.rows) && w.unmappable == Unmappable(page.rows)
      requires w.sourceCount == page.recordCount && w.fetchedRows == |page.rows|
      ensures AllAccepted(source, k, k + 1, [w])
    {
      DedupAccounting(page.rows);
      AcceptedOne(source, k, 1, w);
    }

    /** The one-page answer of a fixed source passes verification whenever it fits. */
    lemma FixedPassesCheck(k: nat, a: int, b: int, listing: seq<Row>)
      requires Fixed(source, listing) && a <= b
      ensures PullPage(source, k, a, b, 0).Success?
      ensures var page := PullPage(source, k, a, b, 0).value;
              if page.recordCount <= source.pageSize then CheckSinglePage(page).None?
              else Hits(listing, FloorSecond(a), FloorSecond(b)) != []
    {
      var truth := (n: nat) => listing;
      ServedPage(source, truth, k, a, b, 0);
      assert DistinctIds(truth(0));
      HitsFacts(listing, FloorSecond(a), FloorSecond(b));
    }

    lemma OwnCost(own: nat, spent: nat, nodes: nat, most: nat)
      requires own <= 1 + integrityRetries && nodes >= 1 && source.pageSize > 0
      requires spent <= (nodes - 1) * NodeCost(most)
      ensures own + spent <= nodes * NodeCost(most)
    {
      CeilDivMonotone(0, most, source.pageSize);
      ScaleMonotone(1, CeilDiv(most, source.pageSize) + 4, 1 + integrityRetries);
      assert nodes * NodeCost(most) == (nodes - 1) * NodeCost(most) + NodeCost(most);
    }

    lemma FallbackCost(own: nat, spent: nat, most: nat)
      requires own <= 1 + integrityRetries && source.pageSize > 0
      requires spent <= (1 + integrityRetries) * (CeilDiv(most, source.pageSize) + 3)
      ensures own + spent <= 1 * NodeCost(most)
    {
      assert (1 + integrityRetries) * (CeilDiv(most, source.pageSize) + 4)
          == (1 + integrityRetries) * (CeilDiv(most, source.pageSize) + 3) + (1 + integrityRetries);
    }

    /** Resolve the parts of a window that is too full, one after the other; neighbours share
        their boundary second. `nodes` counts the window itself. */
    method Children(a: int, b: int, secs: int, n: nat, ghost listing: seq<Row>, ghost most: nat)
      returns (leaves: seq<Window>, failure: Option<Error>, ghost nodes: nat)
      requires Valid() && a < b && secs == (b - a) / SECOND && secs >= 2
      modifies this
      ensures Valid() && Resolved(a, b, leaves, failure, old(calls))
      ensures SumCalls(leaves) == callsReported - old(callsReported)
      ensures Fixed(source, listing) ==> failure.None?
      ensures FailureShown(failure)
      ensures 1 <= nodes <= MostNodes(b - a)
      ensures CountsAtMost(source, most) ==> calls - old(calls) <= (nodes - 1) * NodeCost(most)
      decreases b - a, 0
    {
      hide AllAccepted;
      hide Fixed;
      hide AllUntrustworthy;
      hide PagesOnlySeconds;
      hide Parts;
      hide CountsAtMost;
      var parts := Parts(secs, n, fill, source.pageSize, maxFanout);
      var step := CeilDiv(secs, parts);
      SplitStep(secs, parts);
      leaves, failure, nodes := [], None, 1;
      NothingAccepted(source, calls, calls);
      ghost var kids := 0;
      NoPages();
      var cur := a;
      while cur < b
        invariant Valid() && old(calls) <= calls
        invariant a <= cur <= b && Chain(a, leaves, cur) && (cur > a ==> leaves != [])
        invariant cur == b ==> callsReported == calls
        invariant AllAccepted(source, old(calls), calls, leaves)
        invariant SumCalls(leaves) == callsReported - old(callsReported)
        invariant kids >= 0 && (cur < b ==> cur - a == kids * step * SECOND)
        invariant cur == b ==> kids >= 2
        invariant PagesOnlySeconds(leaves)
        invariant 1 <= nodes <= 1 + 2 * CeilSeconds(cur - a) - kids
        invariant CountsAtMost(source, most) ==> calls - old(calls) <= (nodes - 1) * NodeCost(most)
        decreases b - cur
      {
        var nxt := Min(cur + step * SECOND, b);
        ghost var before := calls;
        var more, fault;
        ghost var visited;
        more, fault, visited := Resolve(cur, nxt, true, listing, most);
        ChildFits(a, b, secs, step, cur, nxt, kids, nodes, visited);
        Distribute(nodes - 1, visited, NodeCost(most));
        ChainEnd(cur, more, EndOf(cur, more));
        ChainAppend(a, leaves, cur, more, EndOf(cur, more));
        ChainEnd(a, leaves + more, EndOf(cur, more));
        AcceptedAppend(source, old(calls), before, calls, leaves, more);
        PagesAppend(leaves, more);
        leaves := leaves + more;
        nodes := nodes + visited;
        kids := kids + 1;
        if fault.Some? {
          failure := fault;
          return;
        }
        cur := nxt;
      }
      ChainEnd(a, leaves, b);
    }

    /** The nodes visited below one more child still fit the bound for the part covered. */
    lemma ChildFits(a: int, b: int, secs: int, step: int, cur: int, nxt: int, kids: int, nodes: nat, visited: nat)
      requires a <= cur < b && secs == (b - a) / SECOND && 1 <= step < secs && kids >= 0
      requires cur - a == kids * step * SECOND && nxt == Min(cur + step * SECOND, b)
      requires nodes <= 1 + 2 * CeilSeconds(cur - a) - kids
      requires visited <= MostNodes(nxt - cur)
      ensures nxt < b ==> nxt - a == (kids + 1) * step * SECOND
      ensures nxt == b ==> kids >= 1
      ensures nodes + visited <= 1 + 2 * CeilSeconds(nxt - a) - (kids + 1)
      ensures nodes + visited <= MostNodes(b - a)
      ensures nxt - cur < b - a
    {
      assert (kids + 1) * step * SECOND == kids * step * SECOND + step * SECOND;
      assert (cur - a) % SECOND == 0 by { assert cur - a == (kids * step) * SECOND; }
      CeilSecondsAdd(cur - a, nxt - cur);
      CeilSecondsAdd(cur - a, 0);
      assert secs * SECOND <= b - a;
      if kids == 0 {
        assert cur == a && nxt == a + step * SECOND < b;
        assert CeilSeconds(step * SECOND) == step;
        CeilDivMonotone(secs * SECOND, b - a, SECOND);
        assert CeilSeconds(secs * SECOND) == secs;
      } else {
        CeilDivMonotone(nxt - a, b - a, SECOND);
      }
    }

    /** A window is only given up after every allowed attempt at it failed verification. */
    ghost predicate FailureShown(failure: Option<Error>)
      reads this
    {
      failure.Some? && failure.value.Unverified? ==>
        && calls >= 1 + integrityRetries
        && AllUntrustworthy(source, calls - (1 + integrityRetries), 1 + integrityRetries,
                            failure.value.start, failure.value.end)
    }

    /** Ask for the whole window in one page, again while the answer cannot be trusted.
        `n` above the page size means it must be split. */
    method FetchWhole(a: int, b: int, ghost listing: seq<Row>)
      returns (page: Option<Page>, n: nat, failure: Option<Error>)
      requires Valid() && a <= b
      modifies this`calls
      ensures 1 <= calls - old(calls) <= 1 + integrityRetries
      ensures page.Some? ==>
                && failure.None? && CheckSinglePage(page.value).None?
                && page.value.recordCount <= source.pageSize
                && PullPage(source, calls - 1, a, b, 0) == Success(page.value)
      ensures page.None? && failure.None? ==> n > source.pageSize
      ensures failure.Some? ==> failure.value.Transport? || failure.value.Unverified?
      ensures FailureShown(failure)
      ensures Fixed(source, listing) ==> failure.None?
      ensures Fixed(source, listing) && page.None? ==> Hits(listing, FloorSecond(a), FloorSecond(b)) != []
    {
      ghost var k0 := calls;
      var problem: Option<Problem> := None;
      n := 0;
      for attempt := 0 to 1 + integrityRetries
        invariant calls == k0 + attempt && (attempt > 0 ==> problem.Some?)
        invariant AllUntrustworthy(source, k0, attempt, a, b)
        invariant attempt > 0 ==> !Fixed(source, listing)
      {
        ghost var k := calls;
        var reply := Fetch(a, b, 1, source.pageSize);
        assert reply == PullPage(source, k, a, b, 0);
        if Fixed(source, listing) { FixedPassesCheck(k, a, b, listing); }
        if reply.Failure? {
          return None, 0, Some(Transport(reply.error));
        }
        n := reply.value.recordCount;
        if n > source.pageSize {
          return None, n, None;
        }
        problem := CheckSinglePage(reply.value);
        if problem.None? {
          return Some(reply.value), n, None;
        }
      }
      return None, n, Some(Unverified(a, b, problem.value));
    }

    /** Yield verified leaves for [a, b], splitting it in time until each fits one page. */
    method Resolve(a: int, b: int, split: bool, ghost listing: seq<Row>, ghost most: nat)
      returns (leaves: seq<Window>, failure: Option<Error>, ghost nodes: nat)
      requires Valid() && a <= b
      modifies this
      ensures Valid() && Resolved(a, b, leaves, failure, old(calls))
      ensures SumCalls(leaves) == callsReported - old(callsReported)
      ensures Fixed(source, listing) ==> failure.None?
      ensures FailureShown(failure)
      ensures 1 <= nodes <= MostNodes(b - a)
      ensures CountsAtMost(source, most) ==> calls - old(calls) <= nodes * NodeCost(most)
      decreases b - a, 1
    {
      hide AllAccepted;
      hide Fixed;
      hide AllUntrustworthy;
      hide CountsAtMost;
      hide CheckSinglePage;
      hide PullPage;
      hide Hits;
      nodes := 1;
      leaves := [];
      var page, n;
      page, n, failure := FetchWhole(a, b, listing);
      ghost var k := calls;
      OwnCost(k - old(calls), 0, 1, most);
      NothingAccepted(source, old(calls), calls);
      if failure.Some? {
        return;
      }
      if page.Some? {
        var w := Leaf(a, b, page.value, split);
        SingleLeaf(k - 1, w, page.value);
        OneLeaf(w);
        AcceptedWiden(source, k - 1, k, [w], old(calls), calls);
        leaves := [w];
        return;
      }
      var secs := (b - a) / SECOND;
      if secs <= 1 {
        leaves, failure := PagedFallback(a, b, n, listing, most);
        if CountsAtMost(source, most) { FallbackCost(k - old(calls), calls - k, most); }
      } else {
        leaves, failure, nodes := Children(a, b, secs, n, listing, most);
        if CountsAtMost(source, most) { OwnCost(k - old(calls), calls - k, nodes, most); }
      }
      AcceptedWiden(source, k, calls, leaves, old(calls), calls);
    }

    /** The leaves of the whole range, one chain from start to end. A failure ends it after the leaves
        already yielded; a caller may stop after any of them. With `initialSpan` 0 the first window
        is the whole range. */
    method Windows(start: int, end: int, initialSpan: int, ghost listing: seq<Row>, ghost most: nat)
      returns (leaves: seq<Window>, failure: Option<Error>, ghost nodes: nat, ghost tops: seq<Top>)
      requires Valid()
      modifies this
      ensures Valid()
      ensures start > end ==> leaves == [] && failure.None? && calls == old(calls)
      ensures start <= end ==> Resolved(start, end, leaves, failure, old(calls))
      ensures SumCalls(leaves) == callsReported - old(callsReported)
      ensures FailureShown(failure)
      ensures Fixed(source, listing) ==> failure.None?
      ensures start <= end ==> |tops| <= Max(1, CeilSeconds(end - start))
      ensures Paced(start, end, initialSpan, tops) && SumReported(tops) == SumSource(leaves)
      ensures start <= end && failure.None? ==> tops != [] && tops[|tops| - 1].end == end
      ensures start <= end ==> nodes * SECOND <= 3 * (end - start) + SECOND
      ensures CountsAtMost(source, most) ==> calls - old(calls) <= nodes * NodeCost(most)
    {
      hide AllAccepted;
      hide Fixed;
      hide PagesOnlySeconds;
      hide Paced;
      hide NextSpan;
      hide TopStart;
      hide SpanBefore;
      hide SumReported;
      hide SumSource;
      leaves, failure, nodes, tops := [], None, 0, [];
      NothingReported(start, end, initialSpan);
      NoPages();
      if start > end {
        return;
      }
      NothingAccepted(source, calls, calls);
      var cursor := start;
      var span := if initialSpan != 0 then initialSpan else Max(end - start, SECOND);
      while true
        invariant Valid() && old(calls) <= calls
        invariant start <= cursor <= end && (leaves != [] ==> cursor < end)
        invariant Chain(start, leaves, cursor) && AllAccepted(source, old(calls), calls, leaves)
        invariant SumCalls(leaves) == callsReported - old(callsReported)
        invariant |tops| * SECOND <= cursor - start && PagesOnlySeconds(leaves)
        invariant Paced(start, end, initialSpan, tops) && SumReported(tops) == SumSource(leaves)
        invariant span == SpanBefore(start, end, initialSpan, tops, |tops|) && cursor == TopStart(start, tops, |tops|)
        invariant nodes * SECOND <= 3 * (cursor - start)
        invariant CountsAtMost(source, most) ==> calls - old(calls) <= nodes * NodeCost(most)
        decreases end - cursor
      {
        var wEnd := Min(cursor + Max(span, SECOND), end);
        var windowLen := Max(wEnd - cursor, SECOND);
        ghost var before := calls;
        var more;
        ghost var visited;
        more, failure, visited := Resolve(cursor, wEnd, false, listing, most);
        ChainEnd(start, leaves, cursor);
        ChainAppend(start, leaves, cursor, more, EndOf(cursor, more));
        ChainEnd(start, leaves + more, EndOf(cursor, more));
        AcceptedAppend(source, old(calls), before, calls, leaves, more);
        Distribute(nodes, visited, NodeCost(most));
        TopWindow(start, cursor, wEnd, end, |tops|, nodes, visited);
        PagesAppend(leaves, more);
        OneMoreTop(start, end, initialSpan, tops, Top(cursor, wEnd, SumSource(more)), leaves, more);
        leaves := leaves + more;
        nodes := nodes + visited;
        tops := tops + [Top(cursor, wEnd, SumSource(more))];
        if failure.Some? || wEnd >= end {
          return;
        }
        var total := SumSource(more);
        cursor := wEnd;
        span := NextSpan(windowLen, total);
      }
    }

    /** Where top-level window `i` begins. */
    ghost function TopStart(start: int, tops: seq<Top>, i: nat): int
      requires i <= |tops|
    {
      if i == 0 then start else tops[i - 1].end
    }

    /** How long it is to be: the first as asked, every other by the density of the one before it. */
    ghost function SpanBefore(start: int, end: int, initialSpan: int, tops: seq<Top>, i: nat): int
      requires i <= |tops| && source.pageSize > 0 && fill > 0.0
    {
      if i == 0 then (if initialSpan != 0 then initialSpan else Max(end - start, SECOND))
      else NextSpan(Max(tops[i - 1].end - tops[i - 1].start, SECOND), tops[i - 1].reported)
    }

    /** The top-level windows follow one another, each as long as it is to be, at least a second, and none
        beyond the end. */
    ghost predicate Paced(start: int, end: int, initialSpan: int, tops: seq<Top>)
      requires source.pageSize > 0 && fill > 0.0
    {
      forall i: nat :: i < |tops| ==>
        && tops[i].start == TopStart(start, tops, i)
        && tops[i].end == Min(tops[i].start + Max(SpanBefore(start, end, initialSpan, tops, i), SECOND), end)
    }

    lemma NothingReported(start: int, end: int, initialSpan: int)
      requires source.pageSize > 0 && fill > 0.0
      ensures Paced(start, end, initialSpan, []) && SumReported([]) == SumSource([]) == 0
      ensures TopStart(start, [], 0) == start
      ensures SpanBefore(start, end, initialSpan, [], 0) == if initialSpan != 0 then initialSpan else Max(end - start, SECOND)
    {
    }

    lemma OneMoreTop(start: int, end: int, initialSpan: int, tops: seq<Top>, top: Top, leaves: seq<Window>, more: seq<Window>)
      requires source.pageSize > 0 && fill > 0.0 && Paced(start, end, initialSpan, tops)
      requires top.start == TopStart(start, tops, |tops|) && top.reported == SumSource(more)
      requires top.end == Min(top.start + Max(SpanBefore(start, end, initialSpan, tops, |tops|), SECOND), end)
      ensures Paced(start, end, initialSpan, tops + [top]) && TopStart(start, tops + [top], |tops| + 1) == top.end
      ensures SpanBefore(start, end, initialSpan, tops + [top], |tops| + 1) == NextSpan(Max(top.end - top.start, SECOND), top.reported)
      ensures SumReported(tops) == SumSource(leaves) ==> SumReported(tops + [top]) == SumSource(leaves + more)
    {
      hide NextSpan;
      hide SumSource;
      hide SpanBefore;
      hide TopStart;
      var all := tops + [top];
      forall i: nat | i < |all|
        ensures all[i].start == TopStart(start, all, i)
        ensures all[i].end == Min(all[i].start + Max(SpanBefore(start, end, initialSpan, all, i), SECOND), end)
      {
        SameBefore(start, end, initialSpan, tops, top, i);
        if i < |tops| { assert all[i] == tops[i]; }
      }
      AfterTop(start, end, initialSpan, tops, top);
      assert all[..|tops|] == tops;
      SumSourceConcat(leaves, more);
    }

    lemma SameBefore(start: int, end: int, initialSpan: int, tops: seq<Top>, top: Top, i: nat)
      requires source.pageSize > 0 && fill > 0.0 && i <= |tops|
      ensures TopStart(start, tops + [top], i) == TopStart(start, tops, i)
      ensures SpanBefore(start, end, initialSpan, tops + [top], i) == SpanBefore(start, end, initialSpan, tops, i)
    {
      hide NextSpan;
    }

    lemma AfterTop(start: int, end: int, initialSpan: int, tops: seq<Top>, top: Top)
      requires source.pageSize > 0 && fill > 0.0
      ensures TopStart(start, tops + [top], |tops| + 1) == top.end
      ensures SpanBefore(start, end, initialSpan, tops + [top], |tops| + 1) == NextSpan(Max(top.end - top.start, SECOND), top.reported)
    {
      hide NextSpan;
    }

    /** A top-level window is a second long or the last one, so their number and their split
        trees stay proportional to the range. */
    lemma TopWindow(start: int, cursor: int, wEnd: int, end: int, tops: nat, nodes: nat, visited: nat)
      requires start <= cursor <= wEnd <= end && (wEnd - cursor >= SECOND || wEnd == end)
      requires tops * SECOND <= cursor - start && (tops > 0 ==> cursor < end)
      requires nodes * SECOND <= 3 * (cursor - start) && visited <= MostNodes(wEnd - cursor)
      ensures wEnd - cursor >= SECOND ==> (tops + 1) * SECOND <= wEnd - start
      ensures wEnd - cursor >= SECOND ==> (nodes + visited) * SECOND <= 3 * (wEnd - start)
      ensures tops + 1 <= Max(1, CeilSeconds(end - start))
      ensures (nodes + visited) * SECOND <= 3 * (end - start) + SECOND
    {
      CeilDivBounds(wEnd - cursor, SECOND);
      CeilDivBounds(end - start, SECOND);
      if tops > 0 { CancelFactor(tops, CeilSeconds(end - start), SECOND); }
    }

    /** The counts of a finished attempt all agree. */
    predicate Agrees(t: Tally) {
      && t.firstCount.Some?
      && t.lastCount == t.firstCount.value
      && t.fetched == t.firstCount.value
      && |t.kept| + t.unmappable == t.firstCount.value
    }

    /** Against a fixed listing they always do. */
    lemma FixedAttempt(k: nat, m: nat, a: int, b: int, expected: nat, t: Tally, listing: seq<Row>)
      requires Fixed(source, listing) && a <= b && Finished(k, m, a, b)
      requires Tallied(source, k, m, a, b, expected, t)
      requires Hits(listing, FloorSecond(a), FloorSecond(b)) != []
      ensures Agrees(t)
    {
      var hits := Hits(listing, FloorSecond(a), FloorSecond(b));
      FixedLastCount(source, listing, k, m, a, b, expected);
      FixedCoversAll(k, m, a, b, listing);
      FixedDelivery(source, listing, k, m, a, b);
      assert Delivered(source, k, m, a, b) == hits;
    }

    lemma FixedCoversAll(k: nat, m: nat, a: int, b: int, listing: seq<Row>)
      requires Fixed(source, listing) && a <= b && Finished(k, m, a, b)
      requires Hits(listing, FloorSecond(a), FloorSecond(b)) != []
      ensures m * source.pageSize >= |Hits(listing, FloorSecond(a), FloorSecond(b))|
    {
      hide PagesArrived;
      var hits := Hits(listing, FloorSecond(a), FloorSecond(b));
      if |RowsOf(PullPage(source, k, a, b, m - 1))| < source.pageSize {
        FixedShortPage(source, listing, k, a, b, m - 1);
      } else {
        ServedPage(source, (n: nat) => listing, k, a, b, 0);
        EnoughPages(|hits|, source.pageSize, m);
      }
    }

    lemma AgreeingPull(k: nat, m: nat, expected: nat, t: Tally, w: Window)
      requires Finished(k, m, w.start, w.end) && Tallied(source, k, m, w.start, w.end, expected, t)
      requires expected > 0 && Agrees(t) && w.pagedFallback
      requires w.rows == t.kept && w.unmappable == t.unmappable
      requires w.fetchedRows == t.fetched && w.sourceCount == t.firstCount.value
      ensures AllAccepted(source, k, k + m, [w])
    {
      FirstPageHasRows(k, m, w.start, w.end, expected);
      AcceptedOne(source, k, m, w);
    }

    /** A pull whose counts agree cannot have started with an empty page: the request that sent
        us here had reported rows. */
    lemma FirstPageHasRows(k: nat, m: nat, a: int, b: int, expected: nat)
      requires m >= 1 && expected > 0 && source.pageSize > 0 && PagesArrived(source, k, m, a, b)
      requires var first := PullPage(source, k, a, b, 0).value.recordCount;
               LastCount(source, k, m, a, b, expected) == first == |Delivered(source, k, m, a, b)|
      ensures RowsOf(PullPage(source, k, a, b, 0)) != []
      ensures LastCount(source, k, m, a, b, 0) == LastCount(source, k, m, a, b, expected)
    {
      if m == 1 {
        assert Delivered(source, k, 0, a, b) == [];
        assert LastCount(source, k, 0, a, b, expected) == expected;
      } else {
        assert |RowsOf(PullPage(source, k, a, b, 0))| >= source.pageSize;
        LastCountIgnoresDefault(k, m, a, b, expected);
      }
    }

    lemma {:induction false} LastCountIgnoresDefault(k: nat, m: nat, a: int, b: int, expected: nat)
      requires m >= 1 && forall j: nat :: j < m ==> PullPage(source, k, a, b, j).Success?
      requires RowsOf(PullPage(source, k, a, b, 0)) != []
      ensures LastCount(source, k, m, a, b, 0) == LastCount(source, k, m, a, b, expected)
      decreases m
    {
      if m > 1 { LastCountIgnoresDefault(k, m - 1, a, b, expected); }
    }
  }
}
