/** The deletion sweep: rows the warehouse still shows live that the source no longer has. */
module Sweep {
  import opened Wrappers
  import opened Instants
  import opened Source
  import opened WindowSpec
  import WF = WindowFetch

  datatype WhRow = WhRow(stamp: Option<int>, deletedAt: Option<int>)

  type Warehouse = map<Id, WhRow>

  /** Live rows whose stored stamp falls in the half-open window. */
  function LiveIds(wh: Warehouse, a: int, b: int): set<Id> {
    set id | id in wh && wh[id].deletedAt.None? && wh[id].stamp.Some? && a <= wh[id].stamp.value < b
  }

  function Undated(wh: Warehouse): set<Id> {
    set id | id in wh && wh[id].deletedAt.None? && wh[id].stamp.None?
  }

  /** Some live row was written without a stamp. */
  ghost predicate HoldsUndated(wh: Warehouse) {
    exists id :: id in wh && wh[id].deletedAt.None? && wh[id].stamp.None?
  }

  lemma UndatedIff(wh: Warehouse)
    ensures Undated(wh) != {} <==> HoldsUndated(wh)
  {
    if id :| id in wh && wh[id].deletedAt.None? && wh[id].stamp.None? { assert id in Undated(wh); }
  }

  function Tombstoned(wh: Warehouse, ids: set<Id>, at: int): Warehouse {
    map id | id in wh :: if id in ids && wh[id].deletedAt.None? then wh[id].(deletedAt := Some(at)) else wh[id]
  }

  function LiveAmong(wh: Warehouse, ids: set<Id>): set<Id> {
    set id | id in wh && id in ids && wh[id].deletedAt.None?
  }

  function ToSet(ids: seq<Id>): set<Id> {
    set id | id in ids
  }

  predicate NoRepeats(ids: seq<Id>) {
    forall i, j :: 0 <= i < j < |ids| ==> ids[i] != ids[j]
  }

  /** Python's int(): truncation toward zero. */
  function Truncate(x: real): int {
    if x >= 0.0 then x.Floor else -((-x).Floor)
  }

  /** The most rows one sweep may tombstone. */
  function Allowed(live: nat, alwaysAllowed: int, fraction: real): int {
    Max(alwaysAllowed, Truncate((if live == 0 then 1 else live) as real * fraction))
  }

  function Changed(before: Warehouse, after: Warehouse): set<Id> {
    set id | id in before && (id !in after || after[id] != before[id])
  }

  /** Exactly the live rows among `ids` have been marked at `at`, `marked` of them: no other row is
      touched, a row that was marked keeps its mark, and a marked row keeps the rest of its content. */
  ghost predicate MarksOnly(before: Warehouse, after: Warehouse, ids: set<Id>, at: int, marked: nat) {
    && before.Keys == after.Keys
    && (forall id :: id in before && (id !in ids || before[id].deletedAt.Some?) ==> after[id] == before[id])
    && (forall id :: id in before && id in ids && before[id].deletedAt.None? ==>
          after[id].deletedAt == Some(at) && after[id].stamp == before[id].stamp)
    && marked == |Changed(before, after)|
    && (forall id :: id in after ==> (after[id].deletedAt.None? <==> before[id].deletedAt.None? && id !in ids))
    && (forall a, b :: LiveIds(after, a, b) == LiveIds(before, a, b) - ids)
  }

  lemma TombstonedMarksOnly(wh: Warehouse, ids: set<Id>, at: int)
    ensures MarksOnly(wh, Tombstoned(wh, ids, at), ids, at, |LiveAmong(wh, ids)|)
  {
    var after := Tombstoned(wh, ids, at);
    assert LiveAmong(wh, ids) == Changed(wh, after);
  }

  /** So many rows may be marked: a fixed number, or a share of the live rows of the range. */
  predicate WithinAllowance(n: nat, live: nat, alwaysAllowed: int, fraction: real) {
    n <= alwaysAllowed || n as real <= Max(1, live) as real * fraction
  }

  /** The truncated allowance decides as the share itself does. */
  lemma AllowedIff(n: nat, live: nat, alwaysAllowed: int, fraction: real)
    requires n > 0
    ensures n <= Allowed(live, alwaysAllowed, fraction) <==> WithinAllowance(n, live, alwaysAllowed, fraction)
  {
    var share := Max(1, live) as real * fraction;
    assert Allowed(live, alwaysAllowed, fraction) == Max(alwaysAllowed, Truncate(share));
    if share < 0.0 { assert (-share).Floor >= 0; }
  }

  // --- evidence -------------------------------------------------------------------------

  /** By-id existence checks, numbered on the source's timeline like every other request. */
  type Existence = (nat, Id) -> Result<bool, Fault>

  ghost predicate ConfirmedGone(exists_: Existence, lo: nat, hi: nat, id: Id) {
    exists j: nat :: lo <= j < hi && exists_(j, id) == Success(false)
  }

  ghost predicate ConfirmedPresent(exists_: Existence, lo: nat, hi: nat, id: Id) {
    exists j: nat :: lo <= j < hi && exists_(j, id) == Success(true)
  }

  /** A verified, gap-free pull of [a, b] did not deliver the id. */
  ghost predicate MissingFrom(src: Source, lo: nat, hi: nat, a: int, b: int, id: Id) {
    exists leaves :: PullWithout(src, lo, hi, a, b, leaves, id)
  }

  ghost predicate PullWithout(src: Source, lo: nat, hi: nat, a: int, b: int, leaves: seq<Window>, id: Id) {
    && leaves != [] && Chain(a, leaves, b) && AllAccepted(src, lo, hi, leaves)
    && forall w, r :: w in leaves && r in w.rows ==> r.id != Some(id)
  }

  /** The id was live in one of the tables the sweep saw, and absent from a verified window around
      the stamp it had there. */
  ghost predicate Examined(src: Source, lo: nat, hi: nat, seen: set<Warehouse>, a: int, b: int, id: Id) {
    exists wh, x, y :: wh in seen && LiveButMissing(src, lo, hi, wh, a, b, id, x, y)
  }

  ghost predicate LiveButMissing(src: Source, lo: nat, hi: nat, wh: Warehouse, a: int, b: int, id: Id, x: int, y: int) {
    id in LiveIds(wh, a, b) && a <= x <= wh[id].stamp.value < y <= b && MissingFrom(src, lo, hi, x, y, id)
  }

  /** Every look at the warehouse found the same table. */
  ghost predicate OneTable(seen: set<Warehouse>) {
    forall t, t' :: t in seen && t' in seen ==> t == t'
  }

  /** What stands behind the two lists: each id was examined and looked up; none is there twice
      unless the warehouse changed under the sweep. */
  ghost predicate Findings(
    src: Source, exists_: Existence, lo: nat, hi: nat, seen: set<Warehouse>, a: int, b: int, gone: seq<Id>, present: seq<Id>) {
    && (OneTable(seen) ==> NoRepeats(gone + present))
    && (forall id :: id in gone + present ==> Examined(src, lo, hi, seen, a, b, id))
    && (forall id :: id in gone ==> ConfirmedGone(exists_, lo, hi, id))
    && (forall id :: id in present ==> ConfirmedPresent(exists_, lo, hi, id))
  }

  // --- what a finished sweep has done ----------------------------------------------------

  /** The report so far: windows reported as missing rows, and ids looked up. */
  datatype Report = Report(missing: set<MissingWindow>, looked: set<Id>)

  predicate Contains(large: Report, small: Report) {
    small.missing <= large.missing && small.looked <= large.looked
  }

  ghost predicate Delivers(leaves: seq<Window>, id: Id) {
    exists w, r :: w in leaves && r in w.rows && r.id == Some(id)
  }

  /** Every live id of one look that a verified pull of the window did not deliver has been looked up. */
  ghost predicate Diffed(src: Source, lo: nat, hi: nat, seen: set<Warehouse>, a: int, b: int, looked: set<Id>) {
    exists wh, leaves :: wh in seen && DiffedBy(src, lo, hi, wh, leaves, a, b, looked)
  }

  ghost predicate DiffedBy(src: Source, lo: nat, hi: nat, wh: Warehouse, leaves: seq<Window>, a: int, b: int, looked: set<Id>) {
    && leaves != [] && Chain(a, leaves, b) && AllAccepted(src, lo, hi, leaves)
    && forall id :: id in LiveIds(wh, a, b) && id !in looked ==> Delivers(leaves, id)
  }

  /** The window has been dealt with: the source's count, request `k`, was answered, and against one look
      at the warehouse it was equal, or larger and the window reported, or smaller and the window split
      into two that have been dealt with, or diffed. */
  ghost predicate Settled(src: Source, leafRows: nat, lo: nat, hi: nat, seen: set<Warehouse>, a: int, b: int, report: Report)
    decreases if a < b then b - a else 0, 1
  {
    exists k: nat, wh :: lo <= k < hi && wh in seen && SettledBy(src, leafRows, lo, hi, seen, a, b, report, k, wh)
  }

  ghost predicate SettledBy(src: Source, leafRows: nat, lo: nat, hi: nat, seen: set<Warehouse>, a: int, b: int, report: Report,
                            k: nat, wh: Warehouse)
    decreases if a < b then b - a else 0, 0
  {
    var reply, m := src.Fetch(k, a, b, 1, 1), |LiveIds(wh, a, b)|;
    && reply.Success?
    && var n := reply.value.recordCount;
    && (m < n ==> MissingWindow(a, b, n, m) in report.missing)
    && (m > n ==>
          if m > leafRows && (b - a) / SECOND > 1 then
            MiddleIsInside(a, b);
            Settled(src, leafRows, lo, hi, seen, a, Middle(a, b), report) && Settled(src, leafRows, lo, hi, seen, Middle(a, b), b, report)
          else Diffed(src, lo, hi, seen, a, b, report.looked))
  }

  /** Where the `i`th month of a sweep begins. */
  function MonthStart(start: int, i: nat): int {
    start + i * (31 * DAY)
  }

  /** The months of the range that begin before `to` have been dealt with. */
  ghost predicate SettledMonths(src: Source, leafRows: nat, lo: nat, hi: nat, seen: set<Warehouse>, start: int, to: int, end: int,
                                report: Report) {
    forall i: nat :: MonthStart(start, i) < to ==>
      Settled(src, leafRows, lo, hi, seen, MonthStart(start, i), NextMonth(MonthStart(start, i), end), report)
  }

  lemma DiffedWidens(src: Source, lo: nat, hi: nat, seen: set<Warehouse>, a: int, b: int, looked: set<Id>,
                     lo': nat, hi': nat, seen': set<Warehouse>, looked': set<Id>)
    requires Diffed(src, lo, hi, seen, a, b, looked) && lo' <= lo && hi <= hi' && seen <= seen' && looked <= looked'
    ensures Diffed(src, lo', hi', seen', a, b, looked')
  {
    var wh, leaves :| wh in seen && DiffedBy(src, lo, hi, wh, leaves, a, b, looked);
    WF.AcceptedWiden(src, lo, hi, leaves, lo', hi');
    assert DiffedBy(src, lo', hi', wh, leaves, a, b, looked');
  }

  /** What has been dealt with stays dealt with as the sweep goes on. */
  lemma {:induction false} SettledWidens(src: Source, leafRows: nat, lo: nat, hi: nat, seen: set<Warehouse>, a: int, b: int, report: Report,
                                         lo': nat, hi': nat, seen': set<Warehouse>, report': Report)
    requires Settled(src, leafRows, lo, hi, seen, a, b, report)
    requires lo' <= lo && hi <= hi' && seen <= seen' && Contains(report', report)
    ensures Settled(src, leafRows, lo', hi', seen', a, b, report')
    decreases if a < b then b - a else 0
  {
    hide LiveIds;
    hide Diffed;
    var k: nat, wh :| lo <= k < hi && wh in seen && SettledBy(src, leafRows, lo, hi, seen, a, b, report, k, wh);
    if |LiveIds(wh, a, b)| > src.Fetch(k, a, b, 1, 1).value.recordCount {
      if |LiveIds(wh, a, b)| > leafRows && (b - a) / SECOND > 1 {
        MiddleIsInside(a, b);
        SettledWidens(src, leafRows, lo, hi, seen, a, Middle(a, b), report, lo', hi', seen', report');
        SettledWidens(src, leafRows, lo, hi, seen, Middle(a, b), b, report, lo', hi', seen', report');
      } else {
        DiffedWidens(src, lo, hi, seen, a, b, report.looked, lo', hi', seen', report'.looked);
      }
    }
    assert SettledBy(src, leafRows, lo', hi', seen', a, b, report', k, wh);
  }

  lemma MonthsWiden(src: Source, leafRows: nat, lo: nat, hi: nat, seen: set<Warehouse>, start: int, to: int, end: int, report: Report,
                    hi': nat, seen': set<Warehouse>, report': Report)
    requires SettledMonths(src, leafRows, lo, hi, seen, start, to, end, report)
    requires hi <= hi' && seen <= seen' && Contains(report', report)
    ensures SettledMonths(src, leafRows, lo, hi', seen', start, to, end, report')
  {
    hide Settled;
    forall i: nat | MonthStart(start, i) < to
      ensures Settled(src, leafRows, lo, hi', seen', MonthStart(start, i), NextMonth(MonthStart(start, i), end), report')
    {
      SettledWidens(src, leafRows, lo, hi, seen, MonthStart(start, i), NextMonth(MonthStart(start, i), end), report, lo, hi', seen', report');
    }
  }

  lemma NextMonthSettled(src: Source, leafRows: nat, lo: nat, hi: nat, seen: set<Warehouse>, start: int, n: nat, end: int, report: Report)
    requires MonthStart(start, n) < end && SettledMonths(src, leafRows, lo, hi, seen, start, MonthStart(start, n), end, report)
    requires Settled(src, leafRows, lo, hi, seen, MonthStart(start, n), NextMonth(MonthStart(start, n), end), report)
    ensures SettledMonths(src, leafRows, lo, hi, seen, start, NextMonth(MonthStart(start, n), end), end, report)
    ensures NextMonth(MonthStart(start, n), end) == MonthStart(start, n + 1) || NextMonth(MonthStart(start, n), end) == end
  {
    hide Settled;
    forall i: nat | MonthStart(start, i) < NextMonth(MonthStart(start, n), end)
      ensures Settled(src, leafRows, lo, hi, seen, MonthStart(start, i), NextMonth(MonthStart(start, i), end), report)
    {
      if i != n { assert MonthStart(start, i) < MonthStart(start, n); }
    }
  }

  // --- when the sweep is exact ----------------------------------------------------------

  /** Ids the source holds in the closed window. */
  function SourceIds(listing: seq<Row>, a: int, b: int): set<Id> {
    Ids(Hits(listing, a, b))
  }

  /** Every source row of the range is identified, stored live, and stored under its floored stamp. */
  ghost predicate Synced(listing: seq<Row>, wh: Warehouse, a: int, b: int) {
    forall r :: r in listing && a <= r.stamp <= b ==>
      r.id.Some? && r.id.value in wh && wh[r.id.value] == WhRow(Some(FloorSecond(r.stamp)), None)
  }

  /** A synced range, a source nobody modifies and lookups that tell the truth. */
  ghost predicate ExactConditions(src: Source, exists_: Existence, listing: seq<Row>, wh: Warehouse, a: int, b: int) {
    && Fixed(src, listing) && src.pageSize > 0 && a % SECOND == 0 && b % SECOND == 0 && a <= b
    && Synced(listing, wh, a, b)
    && forall j: nat, id :: exists_(j, id) == Success(id in Ids(listing))
  }

  lemma {:induction false} DistinctIdCount(rows: seq<Row>)
    requires DistinctIds(rows) && forall r :: r in rows ==> r.id.Some?
    ensures |Ids(rows)| == |rows|
  {
    DedupKeepsIds(rows);
    DedupAccounting(rows);
    NoneUnmappable(rows);
  }

  lemma {:induction false} NoneUnmappable(rows: seq<Row>)
    requires forall r :: r in rows ==> r.id.Some?
    ensures Unmappable(rows) == 0
  {
    if rows != [] { NoneUnmappable(rows[..|rows| - 1]); }
  }

  lemma SubsetSizes(small: set<Id>, large: set<Id>)
    requires small <= large
    ensures |small| <= |large|
    ensures |small| == |large| ==> large - small == {}
    ensures |large - small| == |large| - |small|
  {
    assert small + (large - small) == large;
  }

  /** Live in the warehouse's window, absent from the source's. */
  function Gone(listing: seq<Row>, wh: Warehouse, a: int, b: int): set<Id> {
    LiveIds(wh, a, b) - SourceIds(listing, a, b)
  }

  /** A source row is stored on the side of a whole second it is stamped on. */
  lemma StoredSide(listing: seq<Row>, wh: Warehouse, a: int, b: int, x: int, y: int, id: Id)
    requires Synced(listing, wh, a, b) && a <= x <= y <= b && x % SECOND == 0 && y % SECOND == 0
    requires id in SourceIds(listing, a, b) && id in LiveIds(wh, x, y)
    ensures id in SourceIds(listing, x, y)
  {
    HitsFacts(listing, a, b);
    HitsFacts(listing, x, y);
    var r :| r in Hits(listing, a, b) && r.id == Some(id);
    FloorSecondFacts(r.stamp);
    if r.stamp >= y {
      FloorSecondMonotone(y, r.stamp);
      FloorSecondFacts(y);
    }
    assert r in Hits(listing, x, y);
  }

  lemma SourceIdsGrow(listing: seq<Row>, a: int, b: int, x: int, y: int)
    requires a <= x && y <= b
    ensures SourceIds(listing, x, y) <= SourceIds(listing, a, b)
  {
    HitsFacts(listing, a, b);
    HitsFacts(listing, x, y);
    forall id | id in SourceIds(listing, x, y) ensures id in SourceIds(listing, a, b) {
      var r :| r in Hits(listing, x, y) && r.id == Some(id);
      assert r in Hits(listing, a, b);
    }
  }

  /** Halving loses nothing and counts nothing twice, although the halves share their boundary
      second at the source. */
  lemma HalvesAddUp(listing: seq<Row>, wh: Warehouse, a: int, mid: int, b: int)
    requires a % SECOND == 0 && mid % SECOND == 0 && b % SECOND == 0 && a <= mid <= b
    requires Synced(listing, wh, a, b)
    ensures Gone(listing, wh, a, mid) + Gone(listing, wh, mid, b) == Gone(listing, wh, a, b)
    ensures Gone(listing, wh, a, mid) !! Gone(listing, wh, mid, b)
    ensures Synced(listing, wh, a, mid) && Synced(listing, wh, mid, b)
  {
    SourceIdsGrow(listing, a, b, a, mid);
    SourceIdsGrow(listing, a, b, mid, b);
    forall id ensures id in Gone(listing, wh, a, b) <==> id in Gone(listing, wh, a, mid) || id in Gone(listing, wh, mid, b) {
      if id in SourceIds(listing, a, b) && id in LiveIds(wh, a, mid) { StoredSide(listing, wh, a, b, a, mid, id); }
      if id in SourceIds(listing, a, b) && id in LiveIds(wh, mid, b) { StoredSide(listing, wh, a, b, mid, b, id); }
    }
  }

  /** Source rows stamped exactly on the upper bound: counted by the source, outside the
      warehouse's half-open window. */
  function OnUpperBound(listing: seq<Row>, b: int): set<Id> {
    set r | r in listing && r.stamp == b && r.id.Some? :: r.id.value
  }

  /** A synced source row is missing from the warehouse's half-open window exactly when it is
      stamped on the upper bound. */
  lemma MissedOnlyOnUpperBound(listing: seq<Row>, wh: Warehouse, a: int, b: int, id: Id)
    requires DistinctIds(listing) && a % SECOND == 0 && b % SECOND == 0 && a <= b && Synced(listing, wh, a, b)
    requires id in SourceIds(listing, a, b)
    ensures id in LiveIds(wh, a, b) <==> id !in OnUpperBound(listing, b)
  {
    HitsFacts(listing, a, b);
    var r :| r in Hits(listing, a, b) && r.id == Some(id);
    FloorIsBelow(r.stamp, a, b);
    FloorSecondFacts(r.stamp);
    if id in OnUpperBound(listing, b) {
      var r' :| r' in listing && r'.stamp == b && r'.id == Some(id);
      FloorSecondFacts(b);
    }
  }

  lemma UpperBoundIsCounted(listing: seq<Row>, a: int, b: int)
    requires a <= b
    ensures OnUpperBound(listing, b) <= SourceIds(listing, a, b)
  {
    HitsFacts(listing, a, b);
    forall id | id in OnUpperBound(listing, b) ensures id in SourceIds(listing, a, b) {
      var r :| r in listing && r.stamp == b && r.id == Some(id);
      assert r in Hits(listing, a, b);
    }
  }

  /** What the comparison of counts really decides in a synced window: deletions against rows on
      the upper boundary. It reads "equal" exactly when there are as many of one as of the other. */
  lemma CountsWeighDeletionsAgainstBoundary(listing: seq<Row>, wh: Warehouse, a: int, b: int)
    requires DistinctIds(listing) && a % SECOND == 0 && b % SECOND == 0 && a <= b && Synced(listing, wh, a, b)
    ensures |Hits(listing, a, b)| - |LiveIds(wh, a, b)|
         == |OnUpperBound(listing, b)| - |LiveIds(wh, a, b) - SourceIds(listing, a, b)|
  {
    var source, live, edge := SourceIds(listing, a, b), LiveIds(wh, a, b), OnUpperBound(listing, b);
    assert |Hits(listing, a, b)| == |source| by {
      HitsFacts(listing, a, b);
      DistinctIdCount(Hits(listing, a, b));
    }
    forall id | id in source ensures id in live <==> id !in edge { MissedOnlyOnUpperBound(listing, wh, a, b, id); }
    UpperBoundIsCounted(listing, a, b);
    hide SourceIds;
    hide LiveIds;
    hide OnUpperBound;
    hide Synced;
    CountByParts(source, live, edge);
  }

  lemma CountByParts(source: set<Id>, live: set<Id>, edge: set<Id>)
    requires edge <= source && forall id :: id in source ==> (id in live <==> id !in edge)
    ensures |source| - |live| == |edge| - |live - source|
  {
    assert source * live == source - edge;
    assert live - source == live - (source * live);
    SubsetSizes(edge, source);
    SubsetSizes(source * live, live);
  }

  lemma FloorIsBelow(t: int, a: int, b: int)
    requires a % SECOND == 0 && b % SECOND == 0 && a <= t <= b
    ensures a <= FloorSecond(t) && (FloorSecond(t) < b <==> t < b)
  {
    assert t == t / SECOND * SECOND + t % SECOND;
    assert a == a / SECOND * SECOND && b == b / SECOND * SECOND;
  }

  /** With no row on its upper bound, a synced window's counts agree exactly when nothing was deleted. */
  lemma SyncedWindow(listing: seq<Row>, wh: Warehouse, a: int, b: int)
    requires DistinctIds(listing) && a % SECOND == 0 && b % SECOND == 0 && a <= b && Synced(listing, wh, a, b)
    requires OnUpperBound(listing, b) == {}
    ensures |Hits(listing, a, b)| <= |LiveIds(wh, a, b)|
    ensures |Hits(listing, a, b)| == |LiveIds(wh, a, b)| <==> Gone(listing, wh, a, b) == {}
  {
    CountsWeighDeletionsAgainstBoundary(listing, wh, a, b);
    hide Gone;
    if Gone(listing, wh, a, b) != {} { NonEmpty(Gone(listing, wh, a, b)); }
  }

  // --- what the sweep finds -------------------------------------------------------------

  datatype MissingWindow = MissingWindow(start: int, end: int, source: nat, warehouse: nat)

  function Middle(a: int, b: int): int {
    a + CeilDiv((b - a) / SECOND, 2) * SECOND
  }

  lemma MiddleIsInside(a: int, b: int)
    requires (b - a) / SECOND > 1
    ensures a < Middle(a, b) < b
    ensures a % SECOND == 0 ==> Middle(a, b) % SECOND == 0
  {
    WF.SplitStep((b - a) / SECOND, 2);
    assert (b - a) / SECOND * SECOND <= b - a;
    assert a == a / SECOND * SECOND + a % SECOND;
  }

  predicate Splits(wh: Warehouse, leafRows: nat, a: int, b: int) {
    |LiveIds(wh, a, b)| > leafRows && (b - a) / SECOND > 1
  }

  /** The ids a check of [a, b] confirms one way or the other. */
  function Found(listing: seq<Row>, wh: Warehouse, leafRows: nat, a: int, b: int): set<Id>
    decreases if a < b then b - a else 0
  {
    if |LiveIds(wh, a, b)| <= |Hits(listing, a, b)| then {}
    else if Splits(wh, leafRows, a, b) then
      MiddleIsInside(a, b);
      Found(listing, wh, leafRows, a, Middle(a, b)) + Found(listing, wh, leafRows, Middle(a, b), b)
    else Gone(listing, wh, a, b)
  }

  /** The windows it reports as holding less than the source. */
  function MissingIn(listing: seq<Row>, wh: Warehouse, leafRows: nat, a: int, b: int): seq<MissingWindow>
    decreases if a < b then b - a else 0
  {
    var n, m := |Hits(listing, a, b)|, |LiveIds(wh, a, b)|;
    if m < n then [MissingWindow(a, b, n, m)]
    else if m > n && Splits(wh, leafRows, a, b) then
      MiddleIsInside(a, b);
      MissingIn(listing, wh, leafRows, a, Middle(a, b)) + MissingIn(listing, wh, leafRows, Middle(a, b), b)
    else []
  }

  /** A reported window lies in the range checked and holds more rows at the source than live ones in the
      warehouse, by the counts it is reported with. */
  lemma {:induction false} ReportedWindowsAreShort(listing: seq<Row>, wh: Warehouse, leafRows: nat, a: int, b: int, m: MissingWindow)
    requires m in MissingIn(listing, wh, leafRows, a, b)
    ensures a <= m.start && m.end <= b
    ensures m.source == |Hits(listing, m.start, m.end)| && m.warehouse == |LiveIds(wh, m.start, m.end)| && m.warehouse < m.source
    decreases if a < b then b - a else 0
  {
    hide Hits;
    hide LiveIds;
    if |LiveIds(wh, a, b)| > |Hits(listing, a, b)| && Splits(wh, leafRows, a, b) {
      MiddleIsInside(a, b);
      var mid := Middle(a, b);
      if m in MissingIn(listing, wh, leafRows, a, mid) {
        ReportedWindowsAreShort(listing, wh, leafRows, a, mid, m);
      } else {
        ReportedWindowsAreShort(listing, wh, leafRows, mid, b, m);
      }
    }
  }

  function NextMonth(cursor: int, end: int): int {
    Min(cursor + 31 * DAY, end)
  }

  /** The whole sweep, month by month. */
  function FoundAll(listing: seq<Row>, wh: Warehouse, leafRows: nat, cursor: int, end: int): set<Id>
    decreases end - cursor
  {
    if cursor >= end then {}
    else
      Found(listing, wh, leafRows, cursor, NextMonth(cursor, end)) +
      FoundAll(listing, wh, leafRows, NextMonth(cursor, end), end)
  }

  function MissingAll(listing: seq<Row>, wh: Warehouse, leafRows: nat, cursor: int, end: int): seq<MissingWindow>
    decreases end - cursor
  {
    if cursor >= end then []
    else
      MissingIn(listing, wh, leafRows, cursor, NextMonth(cursor, end)) +
      MissingAll(listing, wh, leafRows, NextMonth(cursor, end), end)
  }

  /** Deletions in the window, and at least as many source rows on its upper bound. */
  predicate Masked(listing: seq<Row>, wh: Warehouse, a: int, b: int) {
    Gone(listing, wh, a, b) != {} && |Gone(listing, wh, a, b)| <= |OnUpperBound(listing, b)|
  }

  /** Some window the check looks at is masked. */
  predicate MaskedIn(listing: seq<Row>, wh: Warehouse, leafRows: nat, a: int, b: int)
    decreases if a < b then b - a else 0
  {
    || Masked(listing, wh, a, b)
    || (|LiveIds(wh, a, b)| > |Hits(listing, a, b)| && Splits(wh, leafRows, a, b) && (
          MiddleIsInside(a, b);
          MaskedIn(listing, wh, leafRows, a, Middle(a, b)) || MaskedIn(listing, wh, leafRows, Middle(a, b), b)))
  }

  predicate MaskedAll(listing: seq<Row>, wh: Warehouse, leafRows: nat, cursor: int, end: int)
    decreases end - cursor
  {
    cursor < end && (
      MaskedIn(listing, wh, leafRows, cursor, NextMonth(cursor, end)) ||
      MaskedAll(listing, wh, leafRows, NextMonth(cursor, end), end))
  }

  lemma SplitExact(f: set<Id>, g: set<Id>, f': set<Id>, g': set<Id>)
    requires f <= g && f' <= g' && g !! g'
    ensures f + f' <= g + g' && (f + f' == g + g' <==> f == g && f' == g')
  {
    if f + f' == g + g' {
      forall id | id in g ensures id in f { assert id in f + f'; }
      forall id | id in g' ensures id in f' { assert id in f + f'; }
    }
  }

  /** Exactness of one check, both ways: in a synced range it finds every deletion exactly when no
      window it looks at is masked; it never finds anything else. */
  lemma {:induction false} CheckIsExactIff(listing: seq<Row>, wh: Warehouse, leafRows: nat, a: int, b: int)
    requires DistinctIds(listing) && a % SECOND == 0 && b % SECOND == 0 && a <= b && Synced(listing, wh, a, b)
    ensures Found(listing, wh, leafRows, a, b) <= Gone(listing, wh, a, b)
    ensures Found(listing, wh, leafRows, a, b) == Gone(listing, wh, a, b) <==> !MaskedIn(listing, wh, leafRows, a, b)
    decreases b - a
  {
    CountsWeighDeletionsAgainstBoundary(listing, wh, a, b);
    hide Synced;
    hide LiveIds;
    hide SourceIds;
    hide Hits;
    hide OnUpperBound;
    if |LiveIds(wh, a, b)| > |Hits(listing, a, b)| && Splits(wh, leafRows, a, b) {
      MiddleIsInside(a, b);
      var mid := Middle(a, b);
      HalvesAddUp(listing, wh, a, mid, b);
      CheckIsExactIff(listing, wh, leafRows, a, mid);
      CheckIsExactIff(listing, wh, leafRows, mid, b);
      hide Gone;
      hide Middle;
      SplitExact(Found(listing, wh, leafRows, a, mid), Gone(listing, wh, a, mid),
                 Found(listing, wh, leafRows, mid, b), Gone(listing, wh, mid, b));
    }
  }

  /** Exactness of the whole sweep, both ways. */
  lemma {:induction false} SweepIsExactIff(listing: seq<Row>, wh: Warehouse, leafRows: nat, start: int, end: int)
    requires DistinctIds(listing) && start % SECOND == 0 && end % SECOND == 0 && start <= end && Synced(listing, wh, start, end)
    ensures FoundAll(listing, wh, leafRows, start, end) <= Gone(listing, wh, start, end)
    ensures FoundAll(listing, wh, leafRows, start, end) == Gone(listing, wh, start, end) <==>
              !MaskedAll(listing, wh, leafRows, start, end)
    decreases end - start
  {
    if start < end {
      var nxt := NextMonth(start, end);
      assert nxt % SECOND == 0 by { assert (31 * DAY) % SECOND == 0; }
      HalvesAddUp(listing, wh, start, nxt, end);
      CheckIsExactIff(listing, wh, leafRows, start, nxt);
      SweepIsExactIff(listing, wh, leafRows, nxt, end);
      hide Gone;
      hide Found;
      hide MaskedIn;
      hide Synced;
      SplitExact(Found(listing, wh, leafRows, start, nxt), Gone(listing, wh, start, nxt),
                 FoundAll(listing, wh, leafRows, nxt, end), Gone(listing, wh, nxt, end));
    } else {
      assert LiveIds(wh, start, end) == {};
    }
  }

  /** No source row on an upper bound the sweep looks at: nothing is masked. In particular none is
      while no row is stamped on a whole second. */
  lemma {:induction false} OffBoundsNothingIsMasked(listing: seq<Row>, wh: Warehouse, leafRows: nat, a: int, b: int)
    requires a % SECOND == 0 && b % SECOND == 0 && a <= b
    requires forall r :: r in listing && a <= r.stamp <= b ==> r.stamp % SECOND != 0
    ensures !MaskedIn(listing, wh, leafRows, a, b)
    decreases b - a
  {
    assert OnUpperBound(listing, b) == {};
    hide Gone;
    hide LiveIds;
    hide Hits;
    hide OnUpperBound;
    if Gone(listing, wh, a, b) != {} { NonEmpty(Gone(listing, wh, a, b)); }
    if |LiveIds(wh, a, b)| > |Hits(listing, a, b)| && Splits(wh, leafRows, a, b) {
      MiddleIsInside(a, b);
      OffBoundsNothingIsMasked(listing, wh, leafRows, a, Middle(a, b));
      OffBoundsNothingIsMasked(listing, wh, leafRows, Middle(a, b), b);
    }
  }

  /** So the sweep is exact whenever no source row of the range is stamped on a whole second. */
  lemma {:induction false} OffBoundsSweepIsExact(listing: seq<Row>, wh: Warehouse, leafRows: nat, start: int, end: int)
    requires start % SECOND == 0 && end % SECOND == 0 && start <= end
    requires forall r :: r in listing && start <= r.stamp <= end ==> r.stamp % SECOND != 0
    ensures !MaskedAll(listing, wh, leafRows, start, end)
    decreases end - start
  {
    if start < end {
      var nxt := NextMonth(start, end);
      assert nxt % SECOND == 0 by { assert (31 * DAY) % SECOND == 0; }
      OffBoundsNothingIsMasked(listing, wh, leafRows, start, nxt);
      OffBoundsSweepIsExact(listing, wh, leafRows, nxt, end);
    }
  }

  lemma NonEmpty(ids: set<Id>)
    requires ids != {}
    ensures |ids| > 0
  {
  }

  /** One row exactly on the bound hides one deletion from the whole sweep: it reports neither a
      deletion nor a missing window, although the range is synced. */
  lemma BoundaryRowHidesADeletion(kept: Id, deleted: Id, leafRows: nat)
    requires kept != deleted
    ensures exists listing, wh, end ::
              && DistinctIds(listing) && Synced(listing, wh, 0, end) && end % SECOND == 0
              && deleted in LiveIds(wh, 0, end) && deleted !in Ids(listing)
              && FoundAll(listing, wh, leafRows, 0, end) == {} && MissingAll(listing, wh, leafRows, 0, end) == []
  {
    var row := Row(Some(kept), 10 * SECOND, "");
    var wh: Warehouse := map[kept := WhRow(Some(10 * SECOND), None), deleted := WhRow(Some(5 * SECOND), None)];
    BoundaryCounts(kept, deleted, [row], wh);
    hide Hits;
    hide LiveIds;
    hide Synced;
    OneMonthNothing([row], wh, leafRows, 10 * SECOND);
    assert deleted !in Ids([row]) && DistinctIds([row]);
  }

  lemma BoundaryCounts(kept: Id, deleted: Id, listing: seq<Row>, wh: Warehouse)
    requires kept != deleted && listing == [Row(Some(kept), 10 * SECOND, "")]
    requires wh == map[kept := WhRow(Some(10 * SECOND), None), deleted := WhRow(Some(5 * SECOND), None)]
    ensures |Hits(listing, 0, 10 * SECOND)| == 1
    ensures LiveIds(wh, 0, 10 * SECOND) == {deleted} && Synced(listing, wh, 0, 10 * SECOND)
  {
    assert listing[..0] == [] && Hits([], 0, 10 * SECOND) == [];
  }

  /** Equal counts over less than a month: the sweep reports nothing. */
  lemma OneMonthNothing(listing: seq<Row>, wh: Warehouse, leafRows: nat, end: int)
    requires 0 < end <= 31 * DAY && |Hits(listing, 0, end)| == |LiveIds(wh, 0, end)|
    ensures FoundAll(listing, wh, leafRows, 0, end) == {} && MissingAll(listing, wh, leafRows, 0, end) == []
  {
    hide Hits;
    hide LiveIds;
    assert NextMonth(0, end) == end;
    assert FoundAll(listing, wh, leafRows, end, end) == {} && MissingAll(listing, wh, leafRows, end, end) == [];
  }
}
