/** Date-cursor streams: the window a run fetches, its slices, and what a cursor covers after any
    sequence of interrupted runs. Days are day numbers. */
module DateSlicing {
  import opened Wrappers
  import opened Instants

  datatype Slice = Slice(start: int, end: int)

  function SliceCount(start: int, end: int, step: int): nat
    requires step >= 1
  {
    if start > end then 0
    else
      CeilDivMonotone(0, end - start + 1, step);
      CeilDiv(end - start + 1, step)
  }

  /** Where slice `i` begins; slice `i + 1` begins the day after slice `i` ends. */
  function SliceStart(start: int, step: int, i: nat): int {
    start + i * step
  }

  function SliceAt(start: int, end: int, step: int, i: nat): Slice {
    Slice(SliceStart(start, step, i), Min(SliceStart(start, step, i + 1) - 1, end))
  }

  predicate Within(d: int, a: int, b: int) {
    a <= d <= b
  }

  function Days(a: int, b: int): set<int> {
    set d | a <= d <= b && Within(d, a, b)
  }

  lemma NextSliceStart(start: int, step: int, i: nat)
    ensures SliceStart(start, step, i + 1) == SliceStart(start, step, i) + step
  {
    Distribute(i, 1, step);
  }

  /** Slice `i` exists exactly when it begins inside the range, and the last one reaches its end. */
  lemma SliceInRange(start: int, end: int, step: int, i: nat)
    requires step >= 1
    ensures i < SliceCount(start, end, step) <==> SliceStart(start, step, i) <= end
    ensures i + 1 == SliceCount(start, end, step) ==> SliceAt(start, end, step, i).end == end
  {
    if start <= end {
      var n := SliceCount(start, end, step);
      CeilDivBounds(end - start + 1, step);
      if i < n {
        ScaleMonotone(i + 1, n, step);
        NextSliceStart(start, step, i);
      } else {
        ScaleMonotone(n, i, step);
      }
    } else {
      ScaleMonotone(0, i, step);
    }
  }

  /** The slices of a range of days, in order; their number and the two ends of each are fixed. */
  method DateSlices(start: int, end: int, stepDays: int) returns (slices: seq<Slice>)
    ensures var step := Max(1, stepDays);
            && |slices| == SliceCount(start, end, step)
            && forall i: nat :: i < |slices| ==> slices[i] == SliceAt(start, end, step, i)
  {
    hide SliceCount;
    hide SliceStart;
    slices := [];
    var step := Max(1, stepDays);
    SliceInRange(start, end, step, 0);
    if start > end {
      NoSlices(start, end, step);
      return;
    }
    var cursor := start;
    StartOfFirst(start, step);
    while cursor <= end
      invariant cursor == SliceStart(start, step, |slices|) || (cursor == end + 1 && |slices| == SliceCount(start, end, step))
      invariant cursor > end ==> |slices| == SliceCount(start, end, step)
      invariant forall i: nat :: i < |slices| ==> slices[i] == SliceAt(start, end, step, i)
      decreases end - cursor
    {
      var windowEnd := Min(cursor + step - 1, end);
      NextSliceStart(start, step, |slices|);
      SliceInRange(start, end, step, |slices|);
      SliceInRange(start, end, step, |slices| + 1);
      slices := slices + [Slice(cursor, windowEnd)];
      cursor := windowEnd + 1;
    }
  }

  lemma NoSlices(start: int, end: int, step: int)
    requires step >= 1 && start > end
    ensures SliceCount(start, end, step) == 0
  {
  }

  lemma StartOfFirst(start: int, step: int)
    ensures SliceStart(start, step, 0) == start
  {
  }

  lemma SliceAfterStart(start: int, step: int, i: nat)
    requires step >= 1
    ensures start <= SliceStart(start, step, i)
  {
    ScaleMonotone(0, i, step);
  }

  lemma SliceShape(start: int, end: int, step: int, n: nat)
    requires step >= 1 && 0 < n <= SliceCount(start, end, step)
    ensures var s := SliceAt(start, end, step, n - 1);
            && start <= s.start <= s.end <= end && s.end - s.start + 1 <= step && (n == 1 ==> s.start == start)
            && (n < SliceCount(start, end, step) ==>
                  s.end - s.start + 1 == step && SliceAt(start, end, step, n).start == s.end + 1)
            && (n == SliceCount(start, end, step) ==> s.end == end)
  {
    hide SliceStart;
    hide SliceCount;
    SliceInRange(start, end, step, n - 1);
    SliceInRange(start, end, step, n);
    NextSliceStart(start, step, n - 1);
    StartOfFirst(start, step);
    SliceAfterStart(start, step, n - 1);
  }

  /** The slices partition the range: none is empty or longer than a step, neighbours meet
      without gap or overlap, and the first `n` hold exactly the days up to their end. */
  lemma {:induction false} SlicesPartition(start: int, end: int, step: int, n: nat)
    requires step >= 1 && n <= SliceCount(start, end, step)
    ensures n > 0 ==> (
              var s := SliceAt(start, end, step, n - 1);
              && s.start <= s.end <= end && s.end - s.start + 1 <= step
              && (n < SliceCount(start, end, step) ==>
                    s.end - s.start + 1 == step && SliceAt(start, end, step, n).start == s.end + 1))
    ensures DaysOf(start, end, step, n) == if n == 0 then {} else Days(start, SliceAt(start, end, step, n - 1).end)
    ensures n > 0 && n == SliceCount(start, end, step) ==> DaysOf(start, end, step, n) == Days(start, end)
  {
    hide SliceAt;
    hide SliceCount;
    if n > 0 {
      SlicesPartition(start, end, step, n - 1);
      SliceShape(start, end, step, n);
      if n > 1 { SliceShape(start, end, step, n - 1); }
    }
  }

  function DaysOf(start: int, end: int, step: int, n: nat): set<int> {
    if n == 0 then {}
    else
      var s := SliceAt(start, end, step, n - 1);
      DaysOf(start, end, step, n - 1) + Days(s.start, s.end)
  }

  // --- the window of one run ------------------------------------------------------------

  /** `maxHistory` is the provider's retention in days, `lag` how far behind today it publishes. */
  datatype Policy = Policy(
    backfillStart: Option<int>, lookback: int, defaultBackfill: int, maxHistory: Option<int>, lag: int)

  datatype SyncWindow = SyncWindow(start: int, end: int)

  function RaisedTo(start: int, bound: Option<int>): int {
    if bound.Some? && start < bound.value then bound.value else start
  }

  function EarliestAllowed(p: Policy, today: int): Option<int> {
    if p.maxHistory.Some? then Some(today - p.maxHistory.value) else None
  }

  /** The dates a run should fetch; None when nothing is due. */
  function ResolveSyncWindow(cursor: Option<int>, today: int, p: Policy): Option<SyncWindow> {
    var end := today - Max(0, p.lag);
    var start :=
      if cursor.Some? then cursor.value - Max(0, p.lookback)
      else if p.backfillStart.Some? then p.backfillStart.value
      else today - p.defaultBackfill;
    var clamped := RaisedTo(RaisedTo(start, p.backfillStart), EarliestAllowed(p, today));
    if clamped > end then None else Some(SyncWindow(clamped, end))
  }

  /** Monotonic: a lookback never rewinds the cursor. */
  function AdvanceCursor(current: Option<int>, candidate: Option<int>): Option<int> {
    if candidate.None? then current
    else if current.None? || candidate.value > current.value then candidate
    else current
  }

  // --- runs -----------------------------------------------------------------------------

  /** One run of a stream, stopped after `slices` committed slices (or at its end). */
  datatype Run = Run(today: int, policy: Policy, fullRefresh: bool, step: int, slices: nat)

  /** `first` is the first day of the first window ever begun; `drained` the days of committed
      slices. */
  datatype Coverage = Coverage(cursor: Option<int>, first: Option<int>, drained: set<int>)

  const NOTHING_COVERED := Coverage(None, None, {})

  function WindowOf(c: Coverage, r: Run): Option<SyncWindow> {
    ResolveSyncWindow(if r.fullRefresh then None else c.cursor, r.today, r.policy)
  }

  function Committed(c: Coverage, w: SyncWindow, step: int, n: nat): Coverage
    requires step >= 1
  {
    if n == 0 then c
    else
      var reached := SliceAt(w.start, w.end, step, n - 1).end;
      Coverage(AdvanceCursor(c.cursor, Some(reached)), if c.first.None? then Some(w.start) else c.first,
               c.drained + Days(w.start, reached))
  }

  function AfterRun(c: Coverage, r: Run): Coverage {
    var w := WindowOf(c, r);
    if w.None? then c
    else
      var step := Max(1, r.step);
      Committed(c, w.value, step, Min(r.slices, SliceCount(w.value.start, w.value.end, step)))
  }

  function AfterRuns(c: Coverage, runs: seq<Run>): Coverage {
    if runs == [] then c else AfterRun(AfterRuns(c, runs[..|runs| - 1]), runs[|runs| - 1])
  }

  // --- the days of one run ----------------------------------------------------------------

  /** The days a run drains, whatever was drained before. */
  function DrainedBy(c: Coverage, r: Run): set<int> {
    AfterRun(c.(drained := {}), r).drained
  }

  /** A day the run has to fetch. It has been published: the provider is no more than its lag behind.
      The provider still has it, and the user wants it. An incremental run goes back a lookback before
      the cursor, because recent days are restated; a run without a cursor to go by begins at the
      configured start, or a fixed number of days back if there is none. */
  predicate Wanted(c: Coverage, r: Run, day: int) {
    && day <= r.today - Max(0, r.policy.lag)
    && (r.policy.maxHistory.Some? ==> r.today - r.policy.maxHistory.value <= day)
    && (r.policy.backfillStart.Some? ==> r.policy.backfillStart.value <= day)
    && (c.cursor.Some? && !r.fullRefresh ==> c.cursor.value - Max(0, r.policy.lookback) <= day)
    && ((c.cursor.None? || r.fullRefresh) && r.policy.backfillStart.None? ==> r.today - r.policy.defaultBackfill <= day)
  }

  /** Days covered by the first `n` slices of `step` days. */
  function Reach(n: nat, step: int): int {
    n * Max(1, step)
  }

  /** Stopped after `n` slices, the oldest n * step of the days to be fetched. */
  predicate Drains(c: Coverage, r: Run, day: int) {
    Wanted(c, r, day) && !Wanted(c, r, day - Reach(r.slices, r.step))
  }

  lemma WindowIsWanted(c: Coverage, r: Run, day: int)
    ensures Wanted(c, r, day) <==> WindowOf(c, r).Some? && WindowOf(c, r).value.start <= day <= WindowOf(c, r).value.end
  {
  }

  lemma DrainsInWindow(c: Coverage, r: Run, w: SyncWindow, day: int)
    requires WindowOf(c, r) == Some(w)
    ensures Drains(c, r, day) <==> w.start <= day <= w.end && day - r.slices * Max(1, r.step) < w.start
  {
    hide Wanted;
    hide WindowOf;
    WindowIsWanted(c, r, day);
    WindowIsWanted(c, r, day - Reach(r.slices, r.step));
    ScaleMonotone(0, r.slices, Max(1, r.step));
  }

  /** What a run drains, to the day. Nothing else, nothing left out in between, and the cursor ends on
      the last of them unless it was further on already. */
  lemma DrainsOldestWanted(c: Coverage, r: Run)
    ensures forall d :: d in DrainedBy(c, r) <==> Drains(c, r, d)
    ensures AfterRun(c, r).drained == c.drained + DrainedBy(c, r)
    ensures forall d :: d in DrainedBy(c, r) ==> AfterRun(c, r).cursor.Some? && d <= AfterRun(c, r).cursor.value
    ensures AfterRun(c, r).cursor == c.cursor || (AfterRun(c, r).cursor.Some? && AfterRun(c, r).cursor.value in DrainedBy(c, r))
  {
    hide Wanted;
    hide SliceCount;
    hide SliceAt;
    hide Drains;
    var window := WindowOf(c, r);
    assert WindowOf(c.(drained := {}), r) == window;
    if window.None? {
      forall d ensures !Drains(c, r, d) { NothingDue(c, r, d); }
    } else {
      var w, step := window.value, Max(1, r.step);
      hide WindowOf;
      forall d ensures Drains(c, r, d) <==> Within(d, w.start, w.end) && d - r.slices * step < w.start { DrainsInWindow(c, r, w, d); }
      FirstSlices(w, r.slices, step);
      var n := Min(r.slices, SliceCount(w.start, w.end, step));
      if n > 0 {
        var reached := SliceAt(w.start, w.end, step, n - 1).end;
        assert DrainedBy(c, r) == {} + Days(w.start, reached);
        assert forall d :: d in Days(w.start, reached) <==> Within(d, w.start, reached);
      }
    }
  }

  lemma NothingDue(c: Coverage, r: Run, day: int)
    requires WindowOf(c, r).None?
    ensures !Drains(c, r, day)
  {
    WindowIsWanted(c, r, day);
  }

  /** The days of the first `slices` slices of a window. */
  lemma FirstSlices(w: SyncWindow, slices: nat, step: int)
    requires step >= 1 && w.start <= w.end
    ensures var n := Min(slices, SliceCount(w.start, w.end, step));
            if n == 0 then slices * step == 0
            else
              var reached := SliceAt(w.start, w.end, step, n - 1).end;
              w.start <= reached && forall d :: Within(d, w.start, reached) <==> Within(d, w.start, w.end) && d - slices * step < w.start
  {
    var n := Min(slices, SliceCount(w.start, w.end, step));
    if n == 0 {
      SliceInRange(w.start, w.end, step, 0);
      StartOfFirst(w.start, step);
    } else {
      SliceShape(w.start, w.end, step, n);
      DrainedTo(w, slices, step, n);
    }
  }

  lemma DrainedTo(w: SyncWindow, slices: nat, step: int, n: nat)
    requires step >= 1 && 0 < n == Min(slices, SliceCount(w.start, w.end, step))
    ensures forall d :: Within(d, w.start, SliceAt(w.start, w.end, step, n - 1).end) <==>
              Within(d, w.start, w.end) && d - slices * step < w.start
  {
    hide SliceCount;
    SliceInRange(w.start, w.end, step, n - 1);
    SliceInRange(w.start, w.end, step, n);
    SliceInRange(w.start, w.end, step, slices);
    NextSliceStart(w.start, step, n - 1);
    assert SliceStart(w.start, step, slices) == w.start + slices * step;
  }

  /** Recent days are drained again: an incremental run that gets far enough drains every day from the
      lookback before the cursor to the last day published, except what retention and the configured
      start exclude; and no run commits past that last day. */
  lemma RecentDaysAreRedrained(c: Coverage, r: Run, day: int)
    requires c.cursor.Some? && !r.fullRefresh
    requires Reach(r.slices, r.step) > r.today - (c.cursor.value - Max(0, r.policy.lookback))
    ensures day in DrainedBy(c, r) <==>
              && c.cursor.value - Max(0, r.policy.lookback) <= day <= r.today - Max(0, r.policy.lag)
              && (r.policy.maxHistory.Some? ==> r.today - r.policy.maxHistory.value <= day)
              && (r.policy.backfillStart.Some? ==> r.policy.backfillStart.value <= day)
    ensures AfterRun(c, r).cursor == c.cursor || AfterRun(c, r).cursor.value <= r.today - Max(0, r.policy.lag)
  {
    hide AfterRun;
    hide DrainedBy;
    hide Reach;
    DrainsOldestWanted(c, r);
    assert day in DrainedBy(c, r) <==> Drains(c, r, day);
    if AfterRun(c, r).cursor != c.cursor { assert Drains(c, r, AfterRun(c, r).cursor.value); }
  }

  /** Why a run may pass over a day: the provider no longer has it, or the user excluded it. */
  predicate Excluded(r: Run, day: int) {
    || (EarliestAllowed(r.policy, r.today).Some? && day < EarliestAllowed(r.policy, r.today).value)
    || (r.policy.backfillStart.Some? && day < r.policy.backfillStart.value)
  }

  /** A full refresh without a configured start begins a fixed number of days back, even if the
      cursor is further back still. */
  predicate JumpsAhead(c: Coverage, r: Run) {
    && r.fullRefresh && r.policy.backfillStart.None? && c.cursor.Some?
    && c.cursor.value + 1 < r.today - r.policy.defaultBackfill
    && (r.policy.maxHistory.Some? ==> r.policy.maxHistory.value > r.policy.defaultBackfill)
  }

  /** Exactly such a run can leave days after the cursor undrained although nothing excludes them. */
  lemma HoleIff(c: Coverage, r: Run, w: SyncWindow)
    requires c.cursor.Some? && WindowOf(c, r) == Some(w)
    ensures (exists d :: c.cursor.value < d < w.start && !Excluded(r, d)) <==> JumpsAhead(c, r)
  {
    if JumpsAhead(c, r) {
      var d := w.start - 1;
      assert c.cursor.value < d < w.start && !Excluded(r, d);
    } else {
      forall d | c.cursor.value < d < w.start ensures Excluded(r, d) {}
    }
  }

  ghost predicate NeverJumps(runs: seq<Run>) {
    forall i :: 0 <= i < |runs| ==> !JumpsAhead(AfterRuns(NOTHING_COVERED, runs[..i]), runs[i])
  }

  /** Run `i` moved the cursor over the day. */
  predicate Passes(runs: seq<Run>, i: nat, day: int)
    requires i < |runs|
  {
    var before, after := AfterRuns(NOTHING_COVERED, runs[..i]).cursor, AfterRuns(NOTHING_COVERED, runs[..i + 1]).cursor;
    before.Some? && after.Some? && before.value < day <= after.value
  }

  /** The day was drained in a committed slice, or the very run that passed it could not fetch it. */
  ghost predicate Accounted(runs: seq<Run>, day: int) {
    || day in AfterRuns(NOTHING_COVERED, runs).drained
    || exists i: nat :: i < |runs| && Passes(runs, i, day) && Excluded(runs[i], day)
  }

  ghost predicate Covered(runs: seq<Run>) {
    var c := AfterRuns(NOTHING_COVERED, runs);
    && (c.cursor.Some? <==> c.first.Some?)
    && (c.cursor.Some? ==> forall d :: c.first.value <= d <= c.cursor.value ==> Accounted(runs, d))
  }

  /** What one run does to the cursor and the days drained. */
  lemma RunMovesOn(c: Coverage, r: Run)
    ensures c.drained <= AfterRun(c, r).drained
    ensures c.cursor.Some? ==> AfterRun(c, r).cursor.Some? && c.cursor.value <= AfterRun(c, r).cursor.value
    ensures WindowOf(c, r).None? || r.slices == 0 ==> AfterRun(c, r) == c
    ensures WindowOf(c, r).Some? && r.slices > 0 ==>
              var w, c' := WindowOf(c, r).value, AfterRun(c, r);
              && c'.cursor.Some? && w.start <= c'.cursor.value
              && c'.first == (if c.first.Some? then c.first else Some(w.start))
              && (forall d :: d in c'.drained ==> d in c.drained || w.start <= d <= c'.cursor.value)
              && (forall d :: (c.cursor.None? || c.cursor.value < d) && w.start <= d <= c'.cursor.value ==> d in c'.drained)
  {
    var window := WindowOf(c, r);
    if window.Some? {
      var w, step := window.value, Max(1, r.step);
      var n := Min(r.slices, SliceCount(w.start, w.end, step));
      SliceInRange(w.start, w.end, step, 0);
      StartOfFirst(w.start, step);
      if n > 0 {
        SlicesPartition(w.start, w.end, step, n);
        SliceAfterStart(w.start, step, n - 1);
      }
    }
  }

  lemma Extended(runs: seq<Run>, r: Run)
    ensures AfterRuns(NOTHING_COVERED, runs + [r]) == AfterRun(AfterRuns(NOTHING_COVERED, runs), r)
    ensures forall i: nat, d :: i < |runs| ==> (Passes(runs + [r], i, d) <==> Passes(runs, i, d))
    ensures forall d :: Accounted(runs, d) ==> Accounted(runs + [r], d)
  {
    var all := runs + [r];
    assert all[..|runs|] == runs;
    forall i: nat, d | i < |runs| ensures Passes(all, i, d) <==> Passes(runs, i, d) {
      assert all[..i] == runs[..i] && all[..i + 1] == runs[..i + 1];
    }
    RunMovesOn(AfterRuns(NOTHING_COVERED, runs), r);
    forall d | Accounted(runs, d) ensures Accounted(all, d) {
      if d !in AfterRuns(NOTHING_COVERED, runs).drained {
        var i: nat :| i < |runs| && Passes(runs, i, d) && Excluded(runs[i], d);
        assert all[i] == runs[i] && Passes(all, i, d);
      }
    }
  }

  lemma RunKeepsCoverage(runs: seq<Run>, r: Run)
    requires Covered(runs) && !JumpsAhead(AfterRuns(NOTHING_COVERED, runs), r)
    ensures Covered(runs + [r])
  {
    hide Excluded;
    hide JumpsAhead;
    var c, all := AfterRuns(NOTHING_COVERED, runs), runs + [r];
    var c' := AfterRun(c, r);
    Extended(runs, r);
    RunMovesOn(c, r);
    hide AfterRun;
    hide AfterRuns;
    hide Accounted;
    if c' == c { return; }
    var w := WindowOf(c, r).value;
    forall d | c'.first.value <= d <= c'.cursor.value ensures Accounted(all, d) {
      if c.cursor.Some? && d <= c.cursor.value {
        assert Accounted(runs, d);
      } else if w.start <= d {
        DrainedIsAccounted(all, d);
      } else {
        HoleIff(c, r, w);
        PassedIsAccounted(runs, r, d);
      }
    }
  }

  lemma DrainedIsAccounted(runs: seq<Run>, day: int)
    requires day in AfterRuns(NOTHING_COVERED, runs).drained
    ensures Accounted(runs, day)
  {
  }

  lemma PassedIsAccounted(runs: seq<Run>, r: Run, day: int)
    requires var c, c' := AfterRuns(NOTHING_COVERED, runs), AfterRuns(NOTHING_COVERED, runs + [r]);
             c.cursor.Some? && c'.cursor.Some? && c.cursor.value < day <= c'.cursor.value && Excluded(r, day)
    ensures Accounted(runs + [r], day)
  {
    var all := runs + [r];
    assert all[..|runs|] == runs && all[..|runs| + 1] == all && all[|runs|] == r;
    assert Passes(all, |runs|, day);
  }

  lemma {:induction false} RunsAreCovered(runs: seq<Run>)
    requires NeverJumps(runs)
    ensures Covered(runs)
  {
    if runs != [] {
      var init, r := runs[..|runs| - 1], runs[|runs| - 1];
      forall i | 0 <= i < |init| ensures !JumpsAhead(AfterRuns(NOTHING_COVERED, init[..i]), init[i]) {
        assert init[..i] == runs[..i];
      }
      RunsAreCovered(init);
      RunKeepsCoverage(init, r);
      assert init + [r] == runs;
    }
  }

  /** Resume: over any sequence of runs, each interrupted after any slice, every day from the
      first covered day to the cursor was drained in a committed slice, or the run that passed it
      was not allowed to fetch it. It needs only that no run jumps ahead. */
  lemma NoDayIsLost(runs: seq<Run>, day: int)
    requires NeverJumps(runs)
    ensures var c := AfterRuns(NOTHING_COVERED, runs);
            c.cursor.Some? ==> c.first.Some? && (c.first.value <= day <= c.cursor.value ==> Accounted(runs, day))
  {
    RunsAreCovered(runs);
  }

  /** Nothing beyond the cursor has been drained or passed, and it lies past the first day. */
  lemma {:induction false} NothingBeyondCursor(runs: seq<Run>)
    ensures var c := AfterRuns(NOTHING_COVERED, runs);
            && (c.cursor.Some? <==> c.first.Some?)
            && (forall d :: d in c.drained ==> c.cursor.Some? && d <= c.cursor.value)
            && (c.cursor.Some? ==> c.first.value <= c.cursor.value)
            && (forall i: nat, d :: i < |runs| && Passes(runs, i, d) ==> c.cursor.Some? && d <= c.cursor.value)
  {
    if runs != [] {
      var init, r := runs[..|runs| - 1], runs[|runs| - 1];
      assert runs == init + [r];
      NothingBeyondCursor(init);
      Extended(init, r);
      RunMovesOn(AfterRuns(NOTHING_COVERED, init), r);
      assert runs[..|init| + 1] == runs;
      hide AfterRun;
      hide AfterRuns;
    }
  }

  /** Does the run commit at least one slice? */
  predicate Commits(c: Coverage, r: Run) {
    WindowOf(c, r).Some? && r.slices > 0
  }

  /** Some day up to the cursor is neither drained nor was excluded by the run that passed it. */
  ghost predicate LosesDays(runs: seq<Run>) {
    var c := AfterRuns(NOTHING_COVERED, runs);
    c.cursor.Some? && c.first.Some? && exists d :: c.first.value <= d <= c.cursor.value && !Accounted(runs, d)
  }

  /** Exactly when days get lost: after runs that lost none, the next one loses some if and only if
      it jumps ahead and gets as far as committing a slice. */
  lemma LosesDaysIff(runs: seq<Run>, r: Run)
    requires NeverJumps(runs)
    ensures LosesDays(runs + [r]) <==>
              JumpsAhead(AfterRuns(NOTHING_COVERED, runs), r) && Commits(AfterRuns(NOTHING_COVERED, runs), r)
  {
    var c := AfterRuns(NOTHING_COVERED, runs);
    RunsAreCovered(runs);
    Extended(runs, r);
    RunMovesOn(c, r);
    if !JumpsAhead(c, r) {
      RunKeepsCoverage(runs, r);
    } else if Commits(c, r) {
      JumpLosesDays(runs, r);
    }
  }

  lemma HoleDay(c: Coverage, r: Run) returns (d: int)
    requires JumpsAhead(c, r) && WindowOf(c, r).Some?
    ensures c.cursor.Some? && c.cursor.value < d < WindowOf(c, r).value.start && !Excluded(r, d)
  {
    HoleIff(c, r, WindowOf(c, r).value);
    d :| c.cursor.value < d < WindowOf(c, r).value.start && !Excluded(r, d);
  }

  lemma JumpLosesDays(runs: seq<Run>, r: Run)
    requires var c := AfterRuns(NOTHING_COVERED, runs); JumpsAhead(c, r) && Commits(c, r)
    ensures LosesDays(runs + [r])
  {
    hide JumpsAhead;
    hide Excluded;
    hide WindowOf;
    var c := AfterRuns(NOTHING_COVERED, runs);
    NothingBeyondCursor(runs);
    Extended(runs, r);
    hide AfterRuns;
    hide Passes;
    hide Accounted;
    var d := HoleDay(c, r);
    RunMovesOn(c, r);
    hide AfterRun;
    HoleIsLost(runs, r, d);
  }

  lemma HoleIsLost(runs: seq<Run>, r: Run, d: int)
    requires !Excluded(r, d) && d !in AfterRuns(NOTHING_COVERED, runs + [r]).drained
    requires forall i: nat :: i < |runs| ==> !Passes(runs, i, d)
    ensures !Accounted(runs + [r], d)
  {
    hide Passes;
    hide Excluded;
    hide AfterRuns;
    Extended(runs, r);
    var all := runs + [r];
    forall i: nat | i < |all| && Passes(all, i, d) ensures !Excluded(all[i], d) {
      if i < |runs| { assert false; }
    }
  }

  const PLAIN := Policy(None, 3, 90, None, 0)
  const BEFORE_PAUSE := Run(100, PLAIN, false, 1000, 1)
  const REFRESH := Run(300, PLAIN, true, 1000, 1)

  lemma BeforePause()
    ensures NeverJumps([BEFORE_PAUSE]) && AfterRuns(NOTHING_COVERED, [BEFORE_PAUSE]).cursor == Some(100)
  {
    OneSlice(10, 100, 1000);
    hide SliceCount;
    hide SliceAt;
    var r := BEFORE_PAUSE;
    assert [r][..0] == [];
    assert AfterRuns(NOTHING_COVERED, [r]) == AfterRun(NOTHING_COVERED, r);
  }

  /** Such a run exists: after a pause longer than the default backfill, a full refresh. */
  lemma FullRefreshMayLoseDays()
    ensures exists runs :: LosesDays(runs)
  {
    BeforePause();
    hide AfterRuns;
    hide NeverJumps;
    hide LosesDays;
    LosesDaysIff([BEFORE_PAUSE], REFRESH);
    assert LosesDays([BEFORE_PAUSE] + [REFRESH]);
  }

  lemma OneSlice(start: int, end: int, step: int)
    requires start <= end < start + step
    ensures SliceCount(start, end, step) == 1 && SliceAt(start, end, step, 0) == Slice(start, end)
  {
    CeilDivBounds(end - start + 1, step);
    CancelFactor(0, SliceCount(start, end, step), step);
    CancelFactor(SliceCount(start, end, step), 2, step);
  }

  class DateStream {
    var cursor: Option<int>
    ghost var first: Option<int>
    ghost var drained: set<int>

    ghost function View(): Coverage
      reads this
    {
      Coverage(cursor, first, drained)
    }

    constructor ()
      ensures View() == NOTHING_COVERED
    {
      cursor, first, drained := None, None, {};
    }

    /** Drain a slice to the destination, then commit the cursor to its end. */
    method DrainSlice(slice: Slice, ghost start: int)
      modifies this
      ensures cursor == AdvanceCursor(old(cursor), Some(slice.end))
      ensures drained == old(drained) + Days(slice.start, slice.end)
      ensures first == if old(first).None? then Some(start) else old(first)
    {
      drained := drained + Days(slice.start, slice.end);
      first := if first.None? then Some(start) else first;
      if cursor.None? || slice.end > cursor.value {
        cursor := Some(slice.end);
      }
    }

    /** Sync the stream; the run may be interrupted after any slice. */
    method SyncStream(today: int, policy: Policy, fullRefresh: bool, step: int, stopAfter: nat)
      modifies this
      ensures View() == AfterRun(old(View()), Run(today, policy, fullRefresh, step, stopAfter))
      ensures var r := Run(today, policy, fullRefresh, step, stopAfter);
              && (forall d :: d in drained <==> d in old(drained) || Drains(old(View()), r, d))
              && (cursor == old(cursor) || (cursor.Some? && Drains(old(View()), r, cursor.value)))
    {
      hide Drains;
      DrainsOldestWanted(View(), Run(today, policy, fullRefresh, step, stopAfter));
      hide SliceAt;
      hide SliceCount;
      var window := ResolveSyncWindow(if fullRefresh then None else cursor, today, policy);
      if window.None? {
        return;
      }
      var w := window.value;
      var slices := DateSlices(w.start, w.end, step);
      ghost var c, m := View(), Max(1, step);
      var i := 0;
      while i < |slices| && i < stopAfter
        invariant i <= |slices| && i <= stopAfter
        invariant View() == Committed(c, w, m, i)
      {
        OneMoreSlice(c, w, m, i);
        DrainSlice(slices[i], w.start);
        i := i + 1;
      }
    }

    lemma OneMoreSlice(c: Coverage, w: SyncWindow, step: int, i: nat)
      requires step >= 1 && i < SliceCount(w.start, w.end, step)
      ensures var s, before := SliceAt(w.start, w.end, step, i), Committed(c, w, step, i);
              Committed(c, w, step, i + 1) == Coverage(
                AdvanceCursor(before.cursor, Some(s.end)),
                if before.first.None? then Some(w.start) else before.first,
                before.drained + Days(s.start, s.end))
    {
      SlicesPartition(w.start, w.end, step, i);
      SlicesPartition(w.start, w.end, step, i + 1);
      StartOfFirst(w.start, step);
    }
  }
}
