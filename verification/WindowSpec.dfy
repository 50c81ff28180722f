/** What an accepted window means, independently of how it was fetched, and what a gap-free
    chain of accepted windows proves about the source. */
module WindowSpec {
  import opened Wrappers
  import opened Instants
  import opened Source

  /** A verified-complete window; `rows` holds one row per id. */
  datatype Window = Window(
    start: int, end: int, rows: seq<Row>, sourceCount: nat, fetchedRows: nat, unmappable: nat,
    apiCalls: nat, split: bool, pagedFallback: bool)

  datatype Problem = CountMismatch(reported: nat, carried: nat) | DuplicateIds(extra: int)

  function MappedIds(rows: seq<Row>): seq<Id> {
    if rows == [] then []
    else
      var init, r := MappedIds(rows[..|rows| - 1]), rows[|rows| - 1];
      if r.id.Some? then init + [r.id.value] else init
  }

  lemma {:induction false} MappedIdsFacts(rows: seq<Row>)
    ensures |MappedIds(rows)| + Unmappable(rows) == |rows|
    ensures (set i | i in MappedIds(rows)) == Ids(rows)
  {
    if rows != [] {
      var init, r := rows[..|rows| - 1], rows[|rows| - 1];
      assert rows == init + [r];
      MappedIdsFacts(init);
      IdsOfAppend(init, r);
    }
  }

  /** What speaks against taking a response for all of its window. */
  function CheckSinglePage(page: Page): (problem: Option<Problem>)
    ensures problem.None? <==> |page.rows| == page.recordCount && DistinctIds(page.rows)
    ensures problem.Some? && problem.value.DuplicateIds? ==>
              problem.value.extra == |page.rows| - Unmappable(page.rows) - |Ids(page.rows)| > 0
  {
    if |page.rows| != page.recordCount then Some(CountMismatch(page.recordCount, |page.rows|))
    else
      var mapped := MappedIds(page.rows);
      var unique := set i | i in mapped;
      MappedIdsFacts(page.rows);
      DedupKeepsIds(page.rows);
      DedupAccounting(page.rows);
      if |unique| != |mapped| then Some(DuplicateIds(|mapped| - |unique|)) else None
  }

  // --- pulls ------------------------------------------------------------------------

  /** The answer to page `j + 1` of a pull of [a, b] whose first request was number `k`. */
  function PullPage(src: Source, k: nat, a: int, b: int, j: nat): Reply {
    src.Fetch(k + j, a, b, 1 + j, src.pageSize)
  }

  function RowsOf(reply: Reply): seq<Row> {
    if reply.Success? then reply.value.rows else []
  }

  /** Everything delivered by the first `m` pages of a pull. */
  function Delivered(src: Source, k: nat, m: nat, a: int, b: int): seq<Row> {
    if m == 0 then [] else Delivered(src, k, m - 1, a, b) + RowsOf(PullPage(src, k, a, b, m - 1))
  }

  predicate Accounts(w: Window, delivered: seq<Row>, reported: nat) {
    && w.rows == Dedup(delivered)
    && w.unmappable == Unmappable(delivered)
    && w.fetchedRows == |delivered|
    && w.sourceCount == reported
    && w.fetchedRows == reported
    && |w.rows| + w.unmappable == reported
  }

  /** The whole window arrived in one response. */
  predicate SinglePull(src: Source, k: nat, w: Window) {
    var reply := PullPage(src, k, w.start, w.end, 0);
    && !w.pagedFallback
    && reply.Success? && reply.value.recordCount <= src.pageSize
    && Accounts(w, reply.value.rows, reply.value.recordCount)
  }

  /** The `m` pages of a pull that all arrived, every one but the last full. */
  predicate PagesArrived(src: Source, k: nat, m: nat, a: int, b: int) {
    && (forall j: nat :: j < m ==> PullPage(src, k, a, b, j).Success?)
    && (forall j: nat :: j < m - 1 ==> |RowsOf(PullPage(src, k, a, b, j))| >= src.pageSize)
  }

  /** The count reported by the last of `m` pages that carried rows. */
  function LastCount(src: Source, k: nat, m: nat, a: int, b: int, otherwise: nat): nat
    requires forall j: nat :: j < m ==> PullPage(src, k, a, b, j).Success?
  {
    if m == 0 then otherwise
    else
      var page := PullPage(src, k, a, b, m - 1).value;
      if page.rows != [] then page.recordCount else LastCount(src, k, m - 1, a, b, otherwise)
  }

  /** A one-second interval pulled page by page, with equal counts before and after. */
  predicate PagedPull(src: Source, k: nat, m: nat, w: Window) {
    && w.pagedFallback
    && m >= 1
    && PagesArrived(src, k, m, w.start, w.end)
    && var first := PullPage(src, k, w.start, w.end, 0).value.recordCount;
    && Accounts(w, Delivered(src, k, m, w.start, w.end), first)
    && RowsOf(PullPage(src, k, w.start, w.end, 0)) != []
    && LastCount(src, k, m, w.start, w.end, 0) == first
  }

  predicate Pull(src: Source, k: nat, m: nat, w: Window) {
    (m == 1 && SinglePull(src, k, w)) || PagedPull(src, k, m, w)
  }

  /** The window rests on requests numbered in [lo, hi). */
  ghost predicate Accepted(src: Source, lo: nat, hi: nat, w: Window) {
    exists k: nat, m: nat :: lo <= k && k + m <= hi && Pull(src, k, m, w)
  }

  /** The leaves rest on requests in [lo, hi), each on later ones than the leaf before it. */
  ghost predicate AllAccepted(src: Source, lo: nat, hi: nat, leaves: seq<Window>)
    decreases |leaves|, 1
  {
    leaves == [] || exists k: nat, m: nat :: AcceptedFirst(src, lo, hi, leaves, k, m)
  }

  /** The first leaf rests on requests [k, k + m), the others on later ones. */
  ghost predicate AcceptedFirst(src: Source, lo: nat, hi: nat, leaves: seq<Window>, k: nat, m: nat)
    requires leaves != []
    decreases |leaves|, 0
  {
    lo <= k && k + m <= hi && Pull(src, k, m, leaves[0]) && AllAccepted(src, k + m, hi, leaves[1..])
  }

  lemma {:induction false} AcceptedMember(src: Source, lo: nat, hi: nat, leaves: seq<Window>, w: Window)
    requires AllAccepted(src, lo, hi, leaves) && w in leaves
    ensures Accepted(src, lo, hi, w)
    decreases |leaves|
  {
    var k: nat, m: nat :| AcceptedFirst(src, lo, hi, leaves, k, m);
    if w != leaves[0] {
      AcceptedMember(src, k + m, hi, leaves[1..], w);
      var k': nat, m': nat :| k + m <= k' && k' + m' <= hi && Pull(src, k', m', w);
    }
  }

  /** Leaves in order, each starting exactly where the previous one ended. */
  predicate Chain(a: int, leaves: seq<Window>, b: int)
    decreases |leaves|
  {
    if leaves == [] then a == b
    else leaves[0].start == a && a <= leaves[0].end && Chain(leaves[0].end, leaves[1..], b)
  }

  function SumCalls(leaves: seq<Window>): nat {
    if leaves == [] then 0 else leaves[0].apiCalls + SumCalls(leaves[1..])
  }

  lemma {:induction false} ChainAppend(a: int, xs: seq<Window>, b: int, ys: seq<Window>, c: int)
    requires Chain(a, xs, b) && Chain(b, ys, c)
    ensures Chain(a, xs + ys, c)
    ensures SumCalls(xs + ys) == SumCalls(xs) + SumCalls(ys)
    decreases |xs|
  {
    if xs == [] {
      assert xs + ys == ys;
    } else {
      ChainAppend(xs[0].end, xs[1..], b, ys, c);
      assert (xs + ys)[1..] == xs[1..] + ys;
    }
  }

  lemma {:induction false} ChainGrows(a: int, leaves: seq<Window>, b: int)
    requires Chain(a, leaves, b)
    ensures a <= b
    decreases |leaves|
  {
    if leaves != [] { ChainGrows(leaves[0].end, leaves[1..], b); }
  }

  // --- what acceptance proves, whatever the source does -------------------------------

  /** Against any source at all: an accepted window delivered no id twice, and the rows
      delivered, the distinct ids plus the rows without one, and the reported count agree. */
  lemma AcceptedWindowAccounts(src: Source, k: nat, m: nat, w: Window)
    requires Pull(src, k, m, w)
    ensures DistinctIds(Delivered(src, k, m, w.start, w.end))
    ensures w.fetchedRows == w.sourceCount == |w.rows| + w.unmappable
    ensures w.fetchedRows == |Delivered(src, k, m, w.start, w.end)|
    ensures DistinctIds(w.rows) && forall r :: r in w.rows ==> r.id.Some?
    ensures Ids(w.rows) == Ids(Delivered(src, k, m, w.start, w.end))
  {
    var delivered := Delivered(src, k, m, w.start, w.end);
    if m == 1 && SinglePull(src, k, w) {
      assert Delivered(src, k, 0, w.start, w.end) == [];
      assert delivered == RowsOf(PullPage(src, k, w.start, w.end, 0));
    }
    DedupAccounting(delivered);
    DedupKeepsIds(delivered);
  }

  // --- what acceptance proves about a truthful source ---------------------------------

  /** The rows the source held in the window's closed, whole-second interval at request `k`. */
  function Snapshot(truth: nat -> seq<Row>, k: nat, a: int, b: int): seq<Row> {
    Hits(truth(k), FloorSecond(a), FloorSecond(b))
  }

  function PageSnapshot(truth: nat -> seq<Row>, k: nat, j: nat, a: int, b: int): seq<Row> {
    Snapshot(truth, k + j, a, b)
  }

  /** Between pages `j + 1` and `j + 2` of a pull rows only left the interval. */
  predicate StepShrinks(truth: nat -> seq<Row>, k: nat, j: nat, a: int, b: int) {
    Subsequence(PageSnapshot(truth, k, j + 1, a, b), PageSnapshot(truth, k, j, a, b))
  }

  predicate OnlyShrinks(truth: nat -> seq<Row>, k: nat, m: nat, a: int, b: int) {
    forall j: nat :: j < m - 1 ==> StepShrinks(truth, k, j, a, b)
  }

  lemma {:induction false} ShrinkingLengths(truth: nat -> seq<Row>, k: nat, m: nat, a: int, b: int, q: nat)
    requires OnlyShrinks(truth, k, m, a, b) && q < m
    ensures |PageSnapshot(truth, k, q, a, b)| <= |PageSnapshot(truth, k, 0, a, b)|
    ensures |PageSnapshot(truth, k, q, a, b)| == |PageSnapshot(truth, k, 0, a, b)| ==>
              forall i: nat :: i <= q ==> PageSnapshot(truth, k, i, a, b) == PageSnapshot(truth, k, 0, a, b)
    decreases q
  {
    if q > 0 {
      ShrinkingLengths(truth, k, m, a, b, q - 1);
      assert StepShrinks(truth, k, q - 1, a, b);
      SubsequenceLength(PageSnapshot(truth, k, q, a, b), PageSnapshot(truth, k, q - 1, a, b));
    }
  }

  lemma ServedPage(src: Source, truth: nat -> seq<Row>, k: nat, a: int, b: int, j: nat)
    requires Truthful(src, truth) && a <= b
    ensures PullPage(src, k, a, b, j).Success?
    ensures RowsOf(PullPage(src, k, a, b, j)) == Slice(PageSnapshot(truth, k, j, a, b), j * src.pageSize, src.pageSize)
    ensures RowsOf(PullPage(src, k, a, b, j)) != [] || j == 0 ==>
              PullPage(src, k, a, b, j).value.recordCount == |PageSnapshot(truth, k, j, a, b)|
  {
    FloorSecondMonotone(a, b);
    assert PullPage(src, k, a, b, j)
        == Serve(truth(k + j), FloorSecond(a), FloorSecond(b), 1 + j, src.pageSize);
  }

  lemma SliceExtendsPrefix(hits: seq<Row>, done: nat, size: nat)
    ensures hits[..Min(done, |hits|)] + Slice(hits, done, size) == hits[..Min(done + size, |hits|)]
  {
  }

  /** Consecutive full pages of one unchanged listing are its prefix. */
  lemma {:induction false} DeliveredIsPrefix(
    src: Source, truth: nat -> seq<Row>, k: nat, m: nat, a: int, b: int, hits: seq<Row>)
    requires Truthful(src, truth) && src.pageSize > 0 && a <= b
    requires forall j: nat :: j < m ==> PageSnapshot(truth, k, j, a, b) == hits
    ensures Delivered(src, k, m, a, b) == hits[..Min(m * src.pageSize, |hits|)]
    decreases m
  {
    hide Truthful;
    hide PageSnapshot;
    hide Source.Fetch;
    if m > 0 {
      DeliveredIsPrefix(src, truth, k, m - 1, a, b, hits);
      ServedPage(src, truth, k, a, b, m - 1);
      SliceExtendsPrefix(hits, (m - 1) * src.pageSize, src.pageSize);
      assert (m - 1) * src.pageSize + src.pageSize == m * src.pageSize;
    }
  }

  lemma {:induction false} LastCountOf(src: Source, k: nat, m: nat, a: int, b: int) returns (q: nat)
    requires m >= 1 && src.pageSize > 0 && PagesArrived(src, k, m, a, b)
    requires RowsOf(PullPage(src, k, a, b, 0)) != []
    ensures q < m && m <= q + 2
    ensures RowsOf(PullPage(src, k, a, b, q)) != []
    ensures q + 1 < m ==> RowsOf(PullPage(src, k, a, b, q + 1)) == []
    ensures LastCount(src, k, m, a, b, 0) == PullPage(src, k, a, b, q).value.recordCount
  {
    q := m - 1;
    if RowsOf(PullPage(src, k, a, b, q)) == [] {
      assert m >= 2;
      q := m - 2;
      assert |RowsOf(PullPage(src, k, a, b, q))| >= src.pageSize;
      assert LastCount(src, k, m - 1, a, b, 0) == PullPage(src, k, a, b, q).value.recordCount;
    }
  }

  /** Equal counts at both ends of a shrinking pull: nothing left the interval in between. */
  lemma CountsPinSnapshots(src: Source, truth: nat -> seq<Row>, k: nat, m: nat, w: Window) returns (q: nat)
    requires Truthful(src, truth) && src.pageSize > 0 && w.start <= w.end
    requires PagedPull(src, k, m, w)
    requires OnlyShrinks(truth, k, m, w.start, w.end)
    ensures q < m && Delivered(src, k, m, w.start, w.end) == Delivered(src, k, q + 1, w.start, w.end)
    ensures |Delivered(src, k, m, w.start, w.end)| == |PageSnapshot(truth, k, 0, w.start, w.end)|
    ensures forall i: nat :: i < q + 1 ==>
              PageSnapshot(truth, k, i, w.start, w.end) == PageSnapshot(truth, k, 0, w.start, w.end)
  {
    hide Truthful;
    hide PageSnapshot;
    hide OnlyShrinks;
    hide Source.Fetch;
    hide Slice;
    var a, b := w.start, w.end;
    q := LastCountOf(src, k, m, a, b);
    ServedPage(src, truth, k, a, b, 0);
    ServedPage(src, truth, k, a, b, q);
    ShrinkingLengths(truth, k, m, a, b, q);
    if q + 1 < m {
      assert Delivered(src, k, m, a, b) == Delivered(src, k, q + 1, a, b) + [];
    }
  }

  /** Exactness of the paged fallback: while rows only leave the interval, an accepted pull is
      the set that was there at its first page. A skipped row would need a smaller count. */
  lemma PagedPullIsSnapshot(src: Source, truth: nat -> seq<Row>, k: nat, m: nat, w: Window)
    requires Truthful(src, truth) && src.pageSize > 0 && w.start <= w.end
    requires PagedPull(src, k, m, w)
    requires OnlyShrinks(truth, k, m, w.start, w.end)
    ensures Delivered(src, k, m, w.start, w.end) == Snapshot(truth, k, w.start, w.end)
  {
    hide Truthful;
    hide PagedPull;
    var q := CountsPinSnapshots(src, truth, k, m, w);
    DeliveredIsPrefix(src, truth, k, q + 1, w.start, w.end, PageSnapshot(truth, k, 0, w.start, w.end));
  }

  /** Every accepted window is an exact snapshot of the source: the interval as it was when the
      window's first request was answered. */
  lemma AcceptedIsSnapshot(src: Source, truth: nat -> seq<Row>, k: nat, m: nat, w: Window)
    requires Truthful(src, truth) && src.pageSize > 0 && w.start <= w.end
    requires Pull(src, k, m, w)
    requires w.pagedFallback ==> OnlyShrinks(truth, k, m, w.start, w.end)
    ensures w.sourceCount == |Snapshot(truth, k, w.start, w.end)|
    ensures forall r :: r in w.rows <==> r.id.Some? && r in Snapshot(truth, k, w.start, w.end)
  {
    var hits := Snapshot(truth, k, w.start, w.end);
    FloorSecondMonotone(w.start, w.end);
    if w.pagedFallback {
      PagedPullIsSnapshot(src, truth, k, m, w);
    } else {
      ServedPage(src, truth, k, w.start, w.end, 0);
      assert PageSnapshot(truth, k, 0, w.start, w.end) == hits;
      assert PullPage(src, k, w.start, w.end, 0).value.rows == hits;
    }
    HitsFacts(truth(k), FloorSecond(w.start), FloorSecond(w.end));
    DedupAccounting(hits);
    DedupKeepsIds(hits);
  }

  /** While a one-second window was pulled page by page, rows only left it. Other moments and
      other intervals do not matter. */
  ghost predicate PagedIntervalsOnlyShrink(src: Source, truth: nat -> seq<Row>, lo: nat, hi: nat, leaves: seq<Window>) {
    forall w, k: nat, m: nat ::
      w in leaves && w.pagedFallback && lo <= k && k + m <= hi && Pull(src, k, m, w) ==>
        OnlyShrinks(truth, k, m, w.start, w.end)
  }

  /** No skipped rows while the source changes: a row that sits still for the whole fetch is
      delivered, however other rows move between the requests. Bounds are sent truncated to
      whole seconds, and the shared boundary leaves no sub-second crack. */
  lemma {:induction false} StableRowIsDelivered(
    src: Source, truth: nat -> seq<Row>, lo: nat, hi: nat, leaves: seq<Window>, start: int, end: int, row: Row)
    requires Truthful(src, truth) && src.pageSize > 0
    requires leaves != [] && Chain(start, leaves, end) && AllAccepted(src, lo, hi, leaves)
    requires PagedIntervalsOnlyShrink(src, truth, lo, hi, leaves)
    requires row.id.Some? && FloorSecond(start) <= row.stamp <= FloorSecond(end)
    requires forall k: nat :: lo <= k < hi ==> row in truth(k)
    ensures exists w :: w in leaves && row in w.rows
    decreases |leaves|
  {
    hide Truthful;
    hide OnlyShrinks;
    var w := leaves[0];
    assert w in leaves;
    var k: nat, m: nat :| AcceptedFirst(src, lo, hi, leaves, k, m);
    assert m >= 1;
    hide Pull;
    if row.stamp <= FloorSecond(w.end) {
      AcceptedIsSnapshot(src, truth, k, m, w);
      HitsFacts(truth(k), FloorSecond(w.start), FloorSecond(w.end));
      assert row in w.rows;
    } else {
      var rest := leaves[1..];
      assert forall v :: v in rest ==> v in leaves;
      StableRowIsDelivered(src, truth, k + m, hi, rest, w.end, end, row);
      var v :| v in rest && row in v.rows;
    }
  }

  lemma {:induction false} LeafWithinRange(leaves: seq<Window>, start: int, end: int, w: Window)
    requires Chain(start, leaves, end) && w in leaves
    ensures start <= w.start <= w.end <= end
    decreases |leaves|
  {
    ChainGrows(leaves[0].end, leaves[1..], end);
    if w != leaves[0] {
      LeafWithinRange(leaves[1..], leaves[0].end, end, w);
    }
  }

  lemma {:induction false} SubsequenceReflexive(xs: seq<Row>)
    ensures Subsequence(xs, xs)
  {
    if xs != [] { SubsequenceReflexive(xs[1..]); }
  }

  lemma FixedSourceShrinks(listing: seq<Row>, k: nat, m: nat, a: int, b: int)
    ensures OnlyShrinks((n: nat) => listing, k, m, a, b)
  {
    SubsequenceReflexive(Hits(listing, FloorSecond(a), FloorSecond(b)));
  }

  lemma DeliveredRowIsReal(
    src: Source, listing: seq<Row>, lo: nat, hi: nat, leaves: seq<Window>, start: int, end: int, w: Window, row: Row)
    requires Fixed(src, listing) && src.pageSize > 0
    requires Chain(start, leaves, end) && w in leaves && row in w.rows && Accepted(src, lo, hi, w)
    ensures row in listing && row.id.Some? && FloorSecond(start) <= row.stamp <= FloorSecond(end)
  {
    LeafWithinRange(leaves, start, end, w);
    var k: nat, m: nat :| lo <= k && k + m <= hi && Pull(src, k, m, w);
    FixedSourceShrinks(listing, k, m, w.start, w.end);
    AcceptedIsSnapshot(src, (n: nat) => listing, k, m, w);
    HitsFacts(listing, FloorSecond(w.start), FloorSecond(w.end));
    FloorSecondMonotone(start, w.start);
    FloorSecondMonotone(w.end, end);
  }

  /** Window completeness at sub-second grain: against a source nobody modifies, the windows
      deliver exactly the identified rows whose real stamp lies in [floor(start), floor(end)]. */
  lemma WindowsAreComplete(
    src: Source, listing: seq<Row>, lo: nat, hi: nat, leaves: seq<Window>, start: int, end: int)
    requires Fixed(src, listing) && src.pageSize > 0
    requires leaves != [] && Chain(start, leaves, end) && AllAccepted(src, lo, hi, leaves)
    ensures forall row :: (exists w :: w in leaves && row in w.rows) <==>
                          (row in listing && row.id.Some? && FloorSecond(start) <= row.stamp <= FloorSecond(end))
  {
    var truth := (n: nat) => listing;
    forall w, k: nat, m: nat | w in leaves ensures OnlyShrinks(truth, k, m, w.start, w.end) {
      FixedSourceShrinks(listing, k, m, w.start, w.end);
    }
    forall row | row in listing && row.id.Some? && FloorSecond(start) <= row.stamp <= FloorSecond(end)
      ensures exists w :: w in leaves && row in w.rows
    {
      StableRowIsDelivered(src, truth, lo, hi, leaves, start, end, row);
    }
    forall w, row | w in leaves && row in w.rows
      ensures row in listing && row.id.Some? && FloorSecond(start) <= row.stamp <= FloorSecond(end)
    {
      AcceptedMember(src, lo, hi, leaves, w);
      DeliveredRowIsReal(src, listing, lo, hi, leaves, start, end, w, row);
    }
  }
}
