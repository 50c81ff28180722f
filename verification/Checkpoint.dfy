/** The checkpoint discipline as a step system: fetch a verified window, write it, commit the
    checkpoint, interleaved with other runs, crashes and a source that keeps changing. */
module Checkpoint {
  import opened Wrappers
  import opened Instants
  import opened Upsert

  /** A row's current version at the source. `visibleAt` is when the source began to serve it,
      which may be later than its own stamp. */
  datatype Version = Version(stamp: int, raw: string, visibleAt: int)

  /** The stored cursor. Only the timestamp form counts as coverage. */
  datatype Cursor = Absent | Legacy(day: int) | Timestamp(at: int)

  /** `safety` keeps a run away from "now"; `lookback` is the overlap re-read before the cursor. */
  datatype Config = Config(safety: int, lookback: int) {
    predicate Valid() {
      lookback >= 0
    }
  }

  /** A fetched window on its way to the destination; `written` rows have been committed. */
  datatype Leaf = Leaf(end: int, rows: seq<Incoming>, written: nat)

  /** A run in flight. `position` is where the next window starts. The last two fields are
      bookkeeping for the proof: real stamps up to `done` were handed over and committed, and what
      the run answers for begins at `from`. */
  datatype Run = Run(startedAt: int, start: int, end: int, position: int, leaf: Option<Leaf>, done: int, from: int)

  /** `seen` remembers the latest second of each row ever read; `lo` is where the coverage behind
      the checkpoint begins; `confirmed` are the keys each sweep has looked up and not found. */
  datatype State = State(
    now: int, src: map<Key, Version>, seen: map<Key, int>, wh: Table, cursor: Cursor, runs: map<nat, Run>, lo: int,
    confirmed: set<(nat, Key)>)

  datatype Step =
    | Tick(later: int)
    | Modify(key: Key, stamp: int, raw: string)
    | Delete(key: Key)
    | StartRun(run: nat, floor: int, fullRefresh: bool)
    | FetchLeaf(run: nat, end: int, rows: seq<Incoming>)
    | WriteBatch(run: nat, size: nat)
    | Commit(run: nat)
    | Stop(run: nat)
    | ResetCursor
    | Confirm(sweep: nat, key: Key)
    | Mark(sweep: nat, at: int)
    | Abandon(sweep: nat)

  /** The row is this version as the destination receives it: whole seconds, same payload. */
  predicate SameVersion(e: Incoming, key: Key, v: Version) {
    e.key == key && e.stamp == Some(FloorSecond(v.stamp)) && e.raw == v.raw
  }

  /** Never backwards; a legacy cursor is no basis for comparison. */
  function AdvanceCursor(cursor: Cursor, reached: int): (c: Cursor)
    ensures c.Timestamp? && FloorSecond(reached) <= c.at
    ensures cursor.Timestamp? ==> cursor.at <= c.at
    ensures c.at == FloorSecond(reached) || c == cursor
  {
    if cursor.Timestamp? then Timestamp(Max(cursor.at, FloorSecond(reached))) else Timestamp(FloorSecond(reached))
  }

  function StartOf(cfg: Config, cursor: Cursor, floor: int, fullRefresh: bool): int {
    if cursor.Timestamp? && !fullRefresh then Max(floor, cursor.at - cfg.lookback) else floor
  }

  function EndOf(cfg: Config, now: int): int {
    FloorSecond(now) - cfg.safety
  }

  /** Where a run's answerability begins: an incremental run goes on from the checkpoint's coverage
      as far as the configured start allows, any other run begins at its own start. */
  function FromOf(cfg: Config, s: State, floor: int, fullRefresh: bool): int {
    var start := FloorSecond(StartOf(cfg, s.cursor, floor, fullRefresh));
    if s.cursor.Timestamp? && !fullRefresh then Min(start, Max(s.lo, FloorSecond(floor))) else start
  }

  /** The coverage behind the checkpoint after a run committed up to `done`: the run's own once it
      moves the checkpoint, both together where it draws level. */
  function LoAfter(s: State, r: Run, done: int): int {
    if !s.cursor.Timestamp? || done > s.cursor.at then r.from
    else if done == s.cursor.at then Min(s.lo, r.from)
    else s.lo
  }

  // --- the step system ------------------------------------------------------------------

  /** The rows are exactly the versions in the closed whole-second interval, at this moment. */
  ghost predicate IsSnapshot(src: map<Key, Version>, from: int, to: int, rows: seq<Incoming>) {
    && (forall e :: e in rows ==> e.key in src && SameVersion(e, e.key, src[e.key])
                                  && FloorSecond(from) <= src[e.key].stamp <= FloorSecond(to))
    && (forall k :: k in src && FloorSecond(from) <= src[k].stamp <= FloorSecond(to) ==>
          exists e :: e in rows && e.key == k)
  }

  /** Some run holds this row in a window it has fetched but not committed. */
  ghost predicate InFlight(s: State, key: Key) {
    exists r, e :: r in s.runs && s.runs[r].leaf.Some? && e in s.runs[r].leaf.value.rows && e.key == key
  }

  ghost predicate Enabled(cfg: Config, s: State, step: Step) {
    match step
    case Tick(later) => later >= s.now
    // A version already read is superseded in a later second, or in the same second once no
    // run holds it in flight.
    case Modify(key, stamp, raw) =>
      key in s.seen ==> s.seen[key] <= FloorSecond(stamp) && (s.seen[key] == FloorSecond(stamp) ==> !InFlight(s, key))
    case Delete(key) => true
    case StartRun(run, floor, full) =>
      run !in s.runs && StartOf(cfg, s.cursor, floor, full) <= EndOf(cfg, s.now)
    case FetchLeaf(run, end, rows) =>
      && run in s.runs && s.runs[run].leaf.None?
      && s.runs[run].position <= end <= s.runs[run].end
      && IsSnapshot(s.src, s.runs[run].position, end, rows)
    case WriteBatch(run, size) =>
      && run in s.runs && s.runs[run].leaf.Some?
      && s.runs[run].leaf.value.written + size <= |s.runs[run].leaf.value.rows|
    case Commit(run) =>
      && run in s.runs && s.runs[run].leaf.Some?
      && s.runs[run].leaf.value.written == |s.runs[run].leaf.value.rows|
    case Stop(run) => run in s.runs
    case ResetCursor => true
    // A sweep looks each row up once, and marks what it did not find much later, without looking again.
    case Confirm(sweep, key) => key !in s.src
    case Mark(sweep, at) => true
    case Abandon(sweep) => true
  }

  function Read(seen: map<Key, int>, rows: seq<Incoming>): map<Key, int> {
    if rows == [] then seen
    else
      var rest := Read(seen, rows[..|rows| - 1]);
      var e := rows[|rows| - 1];
      if e.stamp.Some? then rest[e.key := if e.key in rest then Max(rest[e.key], e.stamp.value) else e.stamp.value]
      else rest
  }

  ghost function Apply(cfg: Config, s: State, step: Step): State
    requires Enabled(cfg, s, step)
  {
    match step
    case Tick(later) => s.(now := later)
    case Modify(key, stamp, raw) => s.(src := s.src[key := Version(stamp, raw, s.now)])
    case Delete(key) => s.(src := s.src - {key})
    case StartRun(run, floor, full) =>
      var start := StartOf(cfg, s.cursor, floor, full);
      var end := EndOf(cfg, s.now);
      s.(runs := s.runs[run := Run(s.now, start, end, start, None, FloorSecond(start) - 1, FromOf(cfg, s, floor, full))])
    case FetchLeaf(run, end, rows) =>
      s.(runs := s.runs[run := s.runs[run].(leaf := Some(Leaf(end, rows, 0)))], seen := Read(s.seen, rows))
    case WriteBatch(run, size) =>
      var leaf := s.runs[run].leaf.value;
      s.(wh := MergeAll(s.wh, leaf.rows[leaf.written..leaf.written + size]),
         runs := s.runs[run := s.runs[run].(leaf := Some(leaf.(written := leaf.written + size)))])
    case Commit(run) =>
      var end := s.runs[run].leaf.value.end;
      s.(cursor := AdvanceCursor(s.cursor, end), lo := LoAfter(s, s.runs[run], FloorSecond(end)),
         runs := s.runs[run := s.runs[run].(position := end, leaf := None, done := FloorSecond(end))])
    case Stop(run) => s.(runs := s.runs - {run})
    case ResetCursor => s.(cursor := Absent)
    case Confirm(sweep, key) => s.(confirmed := s.confirmed + {(sweep, key)})
    case Mark(sweep, at) => s.(wh := Marked(s.wh, s.confirmed, sweep, at), confirmed := Without(s.confirmed, sweep))
    case Abandon(sweep) => s.(confirmed := Without(s.confirmed, sweep))
  }

  /** One statement over all the sweep has confirmed; rows already marked keep their mark. */
  function Marked(wh: Table, confirmed: set<(nat, Key)>, sweep: nat, at: int): Table {
    map k | k in wh :: if (sweep, k) in confirmed && wh[k].deletedAt.None? then wh[k].(deletedAt := Some(at)) else wh[k]
  }

  function Without(confirmed: set<(nat, Key)>, sweep: nat): set<(nat, Key)> {
    set c | c in confirmed && c.0 != sweep
  }

  // --- what is claimed ------------------------------------------------------------------

  /** The warehouse holds the row's current version, live. */
  predicate Current(s: State, key: Key)
    requires key in s.src
  {
    key in s.wh && View(s.wh[key]) == Content(Some(FloorSecond(s.src[key].stamp)), true, s.src[key].raw)
  }

  /** The source served the version before any run could have passed its stamp. */
  predicate OnTime(cfg: Config, v: Version) {
    v.visibleAt < v.stamp + cfg.safety
  }

  /** The row became visible no later than lookback + safety after its own stamp. */
  predicate Recoverable(cfg: Config, v: Version) {
    v.visibleAt <= v.stamp + cfg.lookback + cfg.safety
  }

  /** The checkpoint has passed the row: its stamp, and the moment it became visible. For a row
      served in time the second follows from the first. */
  predicate Passed(cfg: Config, v: Version, at: int) {
    v.stamp <= at && v.visibleAt - cfg.safety < at
  }

  /** The checkpoint answers for the row: the source holds it, and it lies in what was passed. */
  predicate Answerable(cfg: Config, s: State, key: Key) {
    && s.cursor.Timestamp? && key in s.src && Recoverable(cfg, s.src[key])
    && s.lo <= s.src[key].stamp && Passed(cfg, s.src[key], s.cursor.at)
  }

  /** No skipped rows: everything the checkpoint has passed is in the warehouse, current. */
  ghost predicate NoSkip(cfg: Config, s: State) {
    forall k :: Answerable(cfg, s, k) ==> Current(s, k)
  }

  // --- the invariant --------------------------------------------------------------------

  /** Stored and in-flight versions never run ahead of the source. */
  ghost predicate StoredBehind(s: State) {
    && (forall k :: k in s.wh && s.wh[k].stamp.Some? ==> k in s.seen && s.wh[k].stamp.value <= s.seen[k])
    && (forall k :: k in s.seen && k in s.src ==> s.seen[k] <= FloorSecond(s.src[k].stamp))
  }

  predicate Harmless(s: State, e: Incoming) {
    && e.stamp.Some? && e.key in s.seen && e.stamp.value <= s.seen[e.key]
    && (e.key in s.src ==>
          e.stamp.value < FloorSecond(s.src[e.key].stamp) || SameVersion(e, e.key, s.src[e.key]))
  }

  ghost predicate LeafHarmless(s: State, r: Run) {
    r.leaf.Some? ==> forall e :: e in r.leaf.value.rows ==> Harmless(s, e)
  }

  predicate RunClock(cfg: Config, s: State, r: Run) {
    && r.startedAt <= s.now && r.end == EndOf(cfg, r.startedAt)
    && r.start <= r.position <= r.end && r.from <= FloorSecond(r.start)
    && (r.done == FloorSecond(r.position) || (r.position == r.start && r.done == FloorSecond(r.start) - 1))
    && (r.leaf.Some? ==> r.position <= r.leaf.value.end <= r.end && r.leaf.value.written <= |r.leaf.value.rows|)
  }

  ghost predicate Clocks(cfg: Config, s: State) {
    && (s.cursor.Timestamp? ==> s.cursor.at <= s.now - cfg.safety)
    && (forall k :: k in s.src ==> s.src[k].visibleAt <= s.now)
  }

  /** A run owes the warehouse every row that was visible before it began. */
  predicate Owed(r: Run, v: Version) {
    v.visibleAt < r.startedAt
  }

  ghost predicate RunCovers(cfg: Config, s: State, r: Run) {
    forall k :: k in s.src && Owed(r, s.src[k]) && s.src[k].stamp <= r.done &&
                (FloorSecond(r.start) <= s.src[k].stamp || (Recoverable(cfg, s.src[k]) && r.from <= s.src[k].stamp)) ==>
      Current(s, k)
  }

  /** Everything owed in the window being written is in the leaf, and stored once written. */
  ghost predicate LeafCovers(s: State, r: Run) {
    r.leaf.Some? ==>
      forall k :: k in s.src && Owed(r, s.src[k]) &&
                  FloorSecond(r.position) <= s.src[k].stamp <= FloorSecond(r.leaf.value.end) ==>
        InLeaf(s, r.leaf.value, k)
  }

  ghost predicate InLeaf(s: State, leaf: Leaf, k: Key)
    requires k in s.src
  {
    exists i :: 0 <= i < |leaf.rows| && SameVersion(leaf.rows[i], k, s.src[k]) && (i < leaf.written ==> Current(s, k))
  }

  ghost predicate RunOk(cfg: Config, s: State, r: Run) {
    RunClock(cfg, s, r) && LeafHarmless(s, r) && RunCovers(cfg, s, r) && LeafCovers(s, r)
  }

  ghost predicate Inv(cfg: Config, s: State) {
    && cfg.Valid() && Clocks(cfg, s) && StoredBehind(s) && NoSkip(cfg, s)
    && forall r :: r in s.runs ==> RunOk(cfg, s, s.runs[r])
  }

  /** A system before its first timestamp checkpoint: any rows, any legacy cursor, any older
      warehouse content that is not ahead of the source. */
  ghost predicate Init(cfg: Config, s: State) {
    && cfg.Valid() && !s.cursor.Timestamp? && s.runs == map[]
    && (forall k :: k in s.src ==> s.src[k].visibleAt <= s.now)
    && StoredBehind(s)
  }

  // --- every step keeps the invariant ---------------------------------------------------

  lemma FloorBelow(t: int)
    ensures FloorSecond(t) <= t
  {
    FloorSecondFacts(t);
  }

  /** Versions only disappear, current rows stay current, the bookkeeping only grows. */
  ghost predicate Extends(s: State, s': State) {
    && (forall k :: k in s'.src ==> k in s.src && s'.src[k] == s.src[k] && (Current(s, k) ==> Current(s', k)))
    && (forall k :: k in s.seen ==> k in s'.seen && s.seen[k] <= s'.seen[k])
    && s.now <= s'.now
  }

  /** A run untouched by a step is still fine after it. */
  lemma RunFrame(cfg: Config, s: State, s': State, r: Run)
    requires RunOk(cfg, s, r) && Extends(s, s')
    ensures RunOk(cfg, s', r)
  {
    if r.leaf.Some? {
      forall k | k in s'.src && InLeaf(s, r.leaf.value, k) ensures InLeaf(s', r.leaf.value, k) {}
    }
  }

  lemma RunsFrame(cfg: Config, s: State, s': State)
    requires Inv(cfg, s) && Extends(s, s')
    ensures forall r :: r in s.runs ==> RunOk(cfg, s', s.runs[r])
  {
    forall r | r in s.runs ensures RunOk(cfg, s', s.runs[r]) { RunFrame(cfg, s, s', s.runs[r]); }
  }

  lemma NoSkipFrame(cfg: Config, s: State, s': State)
    requires NoSkip(cfg, s) && Extends(s, s') && (s'.cursor.Timestamp? ==> s.cursor == s'.cursor && s.lo == s'.lo)
    ensures NoSkip(cfg, s')
  {
  }

  /** A mark that takes no row away which the source holds again and the warehouse has current. */
  ghost predicate HidesNone(s: State, step: Step) {
    step.Mark? ==> forall k :: (step.sweep, k) in s.confirmed && k in s.src ==> !Current(s, k)
  }

  lemma FramedStepKeeps(cfg: Config, s: State, step: Step)
    requires Inv(cfg, s) && Enabled(cfg, s, step)
    requires step.Tick? || step.Stop? || step.ResetCursor? || step.Delete? || step.Confirm? || step.Abandon? || step.Mark?
    requires HidesNone(s, step)
    ensures Inv(cfg, Apply(cfg, s, step))
  {
    hide RunOk;
    hide MergeAll;
    hide Read;
    hide IsSnapshot;
    var s' := Apply(cfg, s, step);
    assert Extends(s, s');
    RunsFrame(cfg, s, s');
    NoSkipFrame(cfg, s, s');
  }

  lemma ModifyKeepsRun(cfg: Config, s: State, step: Step, r: nat)
    requires Inv(cfg, s) && step.Modify? && Enabled(cfg, s, step) && r in s.runs
    ensures RunOk(cfg, Apply(cfg, s, step), s.runs[r])
  {
    var s', run := Apply(cfg, s, step), s.runs[r];
    assert RunOk(cfg, s, run);
    FloorBelow(run.startedAt);
    FloorBelow(run.position);
    assert LeafHarmless(s', run) by {
      if run.leaf.Some? {
        forall e | e in run.leaf.value.rows ensures Harmless(s', e) {
          assert Harmless(s, e);
          if e.key == step.key { assert InFlight(s, step.key); }
        }
      }
    }
    if run.leaf.Some? {
      FloorBelow(run.leaf.value.end);
      forall k | k in s'.src && Owed(run, s'.src[k]) &&
                 FloorSecond(run.position) <= s'.src[k].stamp <= FloorSecond(run.leaf.value.end)
        ensures InLeaf(s', run.leaf.value, k)
      {
        assert k != step.key;
        assert InLeaf(s, run.leaf.value, k);
      }
    }
  }

  lemma ModifyKeeps(cfg: Config, s: State, step: Step)
    requires Inv(cfg, s) && step.Modify? && Enabled(cfg, s, step)
    ensures Inv(cfg, Apply(cfg, s, step))
  {
    hide RunOk;
    var s' := Apply(cfg, s, step);
    forall r | r in s.runs ensures RunOk(cfg, s', s.runs[r]) { ModifyKeepsRun(cfg, s, step, r); }
    forall k | Answerable(cfg, s', k) ensures Current(s', k) { assert Answerable(cfg, s, k); }
  }

  /** What the checkpoint covers is what a new run may already answer for: below its own start an
      incremental run only leaves rows the old checkpoint had passed. */
  lemma NewRunCovers(cfg: Config, s: State, step: Step)
    requires Inv(cfg, s) && step.StartRun? && Enabled(cfg, s, step)
    ensures var s' := Apply(cfg, s, step); RunCovers(cfg, s', s'.runs[step.run])
  {
    var s' := Apply(cfg, s, step);
    var run := s'.runs[step.run];
    FloorSecondFacts(run.start);
    FloorSecondFacts(step.floor);
    forall k | k in s'.src && Recoverable(cfg, s'.src[k]) && run.from <= s'.src[k].stamp <= run.done ensures Current(s', k) {
      assert s.cursor.Timestamp? && s.lo <= s.src[k].stamp;
      assert run.start == s.cursor.at - cfg.lookback;
      assert Passed(cfg, s.src[k], s.cursor.at);
      assert Current(s, k);
    }
  }

  lemma StartRunKeeps(cfg: Config, s: State, step: Step)
    requires Inv(cfg, s) && step.StartRun? && Enabled(cfg, s, step)
    ensures Inv(cfg, Apply(cfg, s, step))
  {
    var s' := Apply(cfg, s, step);
    var run := s'.runs[step.run];
    FloorBelow(s.now);
    NewRunCovers(cfg, s, step);
    hide RunCovers;
    assert Extends(s, s');
    RunsFrame(cfg, s, s');
    NoSkipFrame(cfg, s, s');
    assert RunClock(cfg, s', run);
    assert RunOk(cfg, s', run);
  }

  lemma {:induction false} ReadFacts(seen: map<Key, int>, rows: seq<Incoming>, k: Key)
    ensures k in seen ==> k in Read(seen, rows) && seen[k] <= Read(seen, rows)[k]
    ensures forall e :: e in rows && e.key == k && e.stamp.Some? ==> k in Read(seen, rows) && e.stamp.value <= Read(seen, rows)[k]
    ensures k in Read(seen, rows) ==>
              (k in seen && Read(seen, rows)[k] == seen[k]) ||
              exists e :: e in rows && e.key == k && e.stamp == Some(Read(seen, rows)[k])
  {
    if rows != [] {
      var init, e := rows[..|rows| - 1], rows[|rows| - 1];
      assert rows == init + [e];
      ReadFacts(seen, init, k);
    }
  }

  /** A snapshot just taken: harmless to write, and it holds everything in its interval. */
  lemma FreshLeaf(cfg: Config, s: State, step: Step)
    requires Inv(cfg, s) && step.FetchLeaf? && Enabled(cfg, s, step)
    ensures var s' := Apply(cfg, s, step);
            Extends(s, s') && StoredBehind(s') && RunOk(cfg, s', s'.runs[step.run])
  {
    hide Read;
    hide MergeAll;
    hide NoSkip;
    var s' := Apply(cfg, s, step);
    var run := s'.runs[step.run];
    forall k
      ensures k in s.seen ==> k in s'.seen && s.seen[k] <= s'.seen[k]
      ensures k in s'.seen && k in s'.src ==> s'.seen[k] <= FloorSecond(s'.src[k].stamp)
    {
      ReadFacts(s.seen, step.rows, k);
    }
    forall e | e in step.rows ensures Harmless(s', e) { ReadFacts(s.seen, step.rows, e.key); }
    assert RunOk(cfg, s, s.runs[step.run]);
    forall k | k in s'.src && FloorSecond(run.position) <= s'.src[k].stamp <= FloorSecond(step.end)
      ensures InLeaf(s', run.leaf.value, k)
    {
      var e :| e in step.rows && e.key == k;
      var i :| 0 <= i < |step.rows| && step.rows[i] == e;
      assert SameVersion(run.leaf.value.rows[i], k, s'.src[k]);
    }
  }

  lemma FetchLeafKeeps(cfg: Config, s: State, step: Step)
    requires Inv(cfg, s) && step.FetchLeaf? && Enabled(cfg, s, step)
    ensures Inv(cfg, Apply(cfg, s, step))
  {
    hide RunOk;
    FreshLeaf(cfg, s, step);
    RunsFrame(cfg, s, Apply(cfg, s, step));
    NoSkipFrame(cfg, s, Apply(cfg, s, step));
  }

  lemma HarmlessWrite(s: State, e: Incoming)
    requires StoredBehind(s) && Harmless(s, e)
    ensures var s' := s.(wh := MergeRow(s.wh, e));
            && StoredBehind(s')
            && (forall k :: k in s.src && Current(s, k) ==> Current(s', k))
            && (forall k :: k in s.src && SameVersion(e, k, s.src[k]) ==> Current(s', k))
            && (forall x :: Harmless(s, x) ==> Harmless(s', x))
  {
  }

  /** Writing harmless rows: nothing current is lost, and every current version offered lands. */
  lemma {:induction false} HarmlessWrites(s: State, rows: seq<Incoming>)
    requires StoredBehind(s) && forall e :: e in rows ==> Harmless(s, e)
    ensures var s' := s.(wh := MergeAll(s.wh, rows));
            && StoredBehind(s')
            && (forall k :: k in s.src && Current(s, k) ==> Current(s', k))
            && (forall k, e :: k in s.src && e in rows && SameVersion(e, k, s.src[k]) ==> Current(s', k))
    decreases |rows|
  {
    if rows != [] {
      var e, rest := rows[0], rows[1..];
      assert rows == [e] + rest;
      assert e in rows && forall x :: x in rest ==> x in rows;
      HarmlessWrite(s, e);
      hide Harmless;
      hide StoredBehind;
      hide MergeRow;
      HarmlessWrites(s.(wh := MergeRow(s.wh, e)), rest);
    }
  }

  lemma BatchLands(cfg: Config, s: State, step: Step)
    requires Inv(cfg, s) && step.WriteBatch? && Enabled(cfg, s, step)
    ensures var s', leaf := Apply(cfg, s, step), s.runs[step.run].leaf.value;
            && Extends(s, s') && StoredBehind(s')
            && forall k, i ::
                 (k in s.src && leaf.written <= i < leaf.written + step.size && SameVersion(leaf.rows[i], k, s.src[k])) ==>
                   Current(s', k)
  {
    hide Clocks;
    hide NoSkip;
    hide RunCovers;
    hide LeafCovers;
    hide Harmless;
    hide MergeAll;
    hide Read;
    hide IsSnapshot;
    var run := s.runs[step.run];
    assert RunOk(cfg, s, run);
    var leaf := run.leaf.value;
    var batch := leaf.rows[leaf.written..leaf.written + step.size];
    forall e | e in batch ensures Harmless(s, e) { assert e in leaf.rows; }
    HarmlessWrites(s, batch);
    var s', stored := Apply(cfg, s, step), s.(wh := MergeAll(s.wh, batch));
    assert s'.wh == stored.wh && s'.src == s.src && s'.seen == s.seen;
    SameWarehouse(stored, s');
    forall i | leaf.written <= i < leaf.written + step.size ensures leaf.rows[i] in batch {
      assert batch[i - leaf.written] == leaf.rows[i];
    }
  }

  /** What is stored where does not depend on the runs. */
  lemma SameWarehouse(s: State, s': State)
    requires s.wh == s'.wh && s.src == s'.src && s.seen == s'.seen
    ensures StoredBehind(s) ==> StoredBehind(s')
    ensures forall k :: k in s.src ==> (Current(s, k) <==> Current(s', k))
  {
  }

  lemma BatchWritten(cfg: Config, s: State, step: Step)
    requires Inv(cfg, s) && step.WriteBatch? && Enabled(cfg, s, step)
    ensures var s' := Apply(cfg, s, step);
            Extends(s, s') && StoredBehind(s') && RunOk(cfg, s', s'.runs[step.run])
  {
    hide MergeAll;
    var s', run := Apply(cfg, s, step), s.runs[step.run];
    BatchLands(cfg, s, step);
    RunFrame(cfg, s, s', run);
    var leaf, leaf' := run.leaf.value, s'.runs[step.run].leaf.value;
    forall k | k in s.src && InLeaf(s', leaf, k) ensures InLeaf(s', leaf', k) {
      var i :| 0 <= i < |leaf.rows| && SameVersion(leaf.rows[i], k, s.src[k]) && (i < leaf.written ==> Current(s', k));
      assert i < leaf'.written ==> Current(s', k);
    }
  }

  lemma WriteBatchKeeps(cfg: Config, s: State, step: Step)
    requires Inv(cfg, s) && step.WriteBatch? && Enabled(cfg, s, step)
    ensures Inv(cfg, Apply(cfg, s, step))
  {
    hide RunOk;
    BatchWritten(cfg, s, step);
    RunsFrame(cfg, s, Apply(cfg, s, step));
    NoSkipFrame(cfg, s, Apply(cfg, s, step));
  }

  /** A fully written window extends what its run covers up to the window's end. */
  lemma WindowCommitted(cfg: Config, s: State, step: Step)
    requires Inv(cfg, s) && step.Commit? && Enabled(cfg, s, step)
    ensures var s' := Apply(cfg, s, step);
            Extends(s, s') && RunOk(cfg, s', s'.runs[step.run]) && Clocks(cfg, s')
  {
    var s' := Apply(cfg, s, step);
    var run, run' := s.runs[step.run], s'.runs[step.run];
    var leaf := run.leaf.value;
    assert RunOk(cfg, s, run);
    FloorBelow(leaf.end);
    FloorBelow(run.startedAt);
    FloorSecondMonotone(run.position, leaf.end);
    FloorSecondMonotone(run.start, run.position);
    forall k | k in s.src && run.done < s.src[k].stamp <= run'.done && Owed(run, s.src[k]) ensures Current(s', k) {
      assert InLeaf(s, leaf, k);
    }
    assert RunCovers(cfg, s', run');
  }

  /** A checkpoint moved by a run covers what the run covers: whatever it has passed was visible
      before the run began. */
  lemma CheckpointCovers(cfg: Config, s: State, step: Step)
    requires Inv(cfg, s) && step.Commit? && Enabled(cfg, s, step)
    requires var s' := Apply(cfg, s, step); Extends(s, s') && RunOk(cfg, s', s'.runs[step.run])
    ensures NoSkip(cfg, Apply(cfg, s, step))
  {
    var s' := Apply(cfg, s, step);
    var run' := s'.runs[step.run];
    FloorBelow(run'.position);
    FloorBelow(run'.startedAt);
    assert RunCovers(cfg, s', run');
    hide RunCovers;
    forall k | k in s'.src && Recoverable(cfg, s'.src[k]) && s'.lo <= s'.src[k].stamp && Passed(cfg, s'.src[k], s'.cursor.at)
      ensures Current(s', k)
    {
      if s'.cursor.at == run'.done && run'.from <= s'.src[k].stamp {
        RunAnswers(cfg, s', run', k);
      } else {
        assert s.cursor == s'.cursor && s.lo <= s.src[k].stamp;
      }
    }
  }

  lemma RunAnswers(cfg: Config, s: State, r: Run, k: Key)
    requires RunCovers(cfg, s, r) && k in s.src && Owed(r, s.src[k]) && Recoverable(cfg, s.src[k])
    requires r.from <= s.src[k].stamp <= r.done
    ensures Current(s, k)
  {
  }

  lemma CommitKeeps(cfg: Config, s: State, step: Step)
    requires Inv(cfg, s) && step.Commit? && Enabled(cfg, s, step)
    ensures Inv(cfg, Apply(cfg, s, step))
  {
    hide RunOk;
    WindowCommitted(cfg, s, step);
    CheckpointCovers(cfg, s, step);
    RunsFrame(cfg, s, Apply(cfg, s, step));
  }

  /** A mark is made on evidence from earlier. It loses a row exactly when one of the rows confirmed
      as gone is back and the checkpoint has passed it. */
  lemma MarkLosesIff(cfg: Config, s: State, sweep: nat, at: int)
    requires Inv(cfg, s)
    ensures NoSkip(cfg, Apply(cfg, s, Mark(sweep, at))) <==>
              !exists k :: (sweep, k) in s.confirmed && Answerable(cfg, s, k)
  {
    var s' := Apply(cfg, s, Mark(sweep, at));
    forall k | (sweep, k) in s.confirmed && k in s.src ensures !Current(s', k) {}
    forall k | k in s.src && (sweep, k) !in s.confirmed && Current(s, k) ensures Current(s', k) {}
    if k :| (sweep, k) in s.confirmed && Answerable(cfg, s, k) {
      assert Answerable(cfg, s', k);
    }
  }

  /** One step, by whichever run or by the environment. */
  lemma StepKeeps(cfg: Config, s: State, step: Step)
    requires Inv(cfg, s) && Enabled(cfg, s, step) && HidesNone(s, step)
    ensures Inv(cfg, Apply(cfg, s, step))
  {
    hide Inv;
    hide Apply;
    hide Enabled;
    match step
    case Modify(_, _, _) => ModifyKeeps(cfg, s, step);
    case StartRun(_, _, _) => StartRunKeeps(cfg, s, step);
    case FetchLeaf(_, _, _) => FetchLeafKeeps(cfg, s, step);
    case WriteBatch(_, _) => WriteBatchKeeps(cfg, s, step);
    case Commit(_) => CommitKeeps(cfg, s, step);
    case _ => FramedStepKeeps(cfg, s, step);
  }

  // --- whole behaviours -------------------------------------------------------------------

  ghost predicate Legal(cfg: Config, s: State, steps: seq<Step>)
    decreases |steps|
  {
    steps == [] || (Enabled(cfg, s, steps[0]) && Legal(cfg, Apply(cfg, s, steps[0]), steps[1..]))
  }

  ghost function After(cfg: Config, s: State, steps: seq<Step>): State
    requires Legal(cfg, s, steps)
    decreases |steps|
  {
    if steps == [] then s else After(cfg, Apply(cfg, s, steps[0]), steps[1..])
  }

  /** No mark of the behaviour takes away a row that is back and current. */
  ghost predicate NoneHidden(cfg: Config, s: State, steps: seq<Step>)
    requires Legal(cfg, s, steps)
    decreases |steps|
  {
    steps == [] || (HidesNone(s, steps[0]) && NoneHidden(cfg, Apply(cfg, s, steps[0]), steps[1..]))
  }

  /** No row a sweep has confirmed as gone comes back before that sweep is over. */
  ghost predicate NoneReappears(cfg: Config, s: State, steps: seq<Step>)
    requires Legal(cfg, s, steps)
    decreases |steps|
  {
    steps == [] ||
    (StaysAway(s, steps[0]) && NoneReappears(cfg, Apply(cfg, s, steps[0]), steps[1..]))
  }

  ghost predicate StaysAway(s: State, step: Step) {
    step.Modify? ==> forall sweep: nat :: (sweep, step.key) !in s.confirmed
  }

  ghost predicate ConfirmedAbsent(s: State) {
    forall c :: c in s.confirmed ==> c.1 !in s.src
  }

  lemma StepKeepsAbsent(cfg: Config, s: State, step: Step)
    requires ConfirmedAbsent(s) && Enabled(cfg, s, step) && StaysAway(s, step)
    ensures HidesNone(s, step) && ConfirmedAbsent(Apply(cfg, s, step))
  {
    hide MergeAll;
    hide Read;
    hide IsSnapshot;
    if step.Modify? {
      forall c | c in s.confirmed ensures c.1 != step.key { assert c == (c.0, c.1); }
    }
  }

  /** While confirmed rows stay away, no mark hides anything. */
  lemma {:induction false} AbsentRowsAreSafe(cfg: Config, s: State, steps: seq<Step>)
    requires ConfirmedAbsent(s) && Legal(cfg, s, steps) && NoneReappears(cfg, s, steps)
    ensures NoneHidden(cfg, s, steps)
    decreases |steps|
  {
    hide Enabled;
    hide Apply;
    if steps != [] {
      StepKeepsAbsent(cfg, s, steps[0]);
      AbsentRowsAreSafe(cfg, Apply(cfg, s, steps[0]), steps[1..]);
    }
  }

  lemma {:induction false} UnmarkedHidesNone(cfg: Config, s: State, steps: seq<Step>)
    requires Legal(cfg, s, steps) && forall step :: step in steps ==> !step.Mark?
    ensures NoneHidden(cfg, s, steps)
    decreases |steps|
  {
    hide Enabled;
    hide Apply;
    if steps != [] {
      assert steps[0] in steps && forall step :: step in steps[1..] ==> step in steps;
      UnmarkedHidesNone(cfg, Apply(cfg, s, steps[0]), steps[1..]);
    }
  }

  lemma {:induction false} BehaviourKeeps(cfg: Config, s: State, steps: seq<Step>)
    requires Inv(cfg, s) && Legal(cfg, s, steps) && NoneHidden(cfg, s, steps)
    ensures Inv(cfg, After(cfg, s, steps))
    decreases |steps|
  {
    hide Inv;
    hide Apply;
    hide Enabled;
    if steps != [] {
      StepKeeps(cfg, s, steps[0]);
      BehaviourKeeps(cfg, Apply(cfg, s, steps[0]), steps[1..]);
    }
  }

  /** The no-skip theorem. However runs, crashes, failed windows, full refreshes, budget stops,
      cursor resets, sweeps and source changes interleave, as long as no sweep marks a row that has
      come back and is current, a timestamp checkpoint means: every row it has passed, from where its
      coverage begins, is in the warehouse at its current version. That holds for rows served in time
      as soon as their stamp is reached, and for late ones, up to lookback + safety, once the
      checkpoint has also passed the moment they became visible. */
  lemma NoRowIsSkipped(cfg: Config, init: State, steps: seq<Step>, key: Key)
    requires Init(cfg, init) && Legal(cfg, init, steps) && NoneHidden(cfg, init, steps)
    ensures var s := After(cfg, init, steps);
            s.cursor.Timestamp? && key in s.src && OnTime(cfg, s.src[key]) && s.lo <= s.src[key].stamp <= s.cursor.at ==>
              Current(s, key)
    ensures var s := After(cfg, init, steps);
            s.cursor.Timestamp? && key in s.src && Recoverable(cfg, s.src[key]) &&
            s.lo <= s.src[key].stamp <= s.cursor.at && s.src[key].visibleAt - cfg.safety < s.cursor.at ==>
              Current(s, key)
  {
    assert Inv(cfg, init);
    BehaviourKeeps(cfg, init, steps);
  }

  /** Late rows are recovered, by any run started after they became visible, whatever became of the
      runs before it: once it has committed past the row's stamp, the row is current. */
  lemma LateRowIsRecovered(cfg: Config, init: State, steps: seq<Step>, run: nat, key: Key)
    requires Init(cfg, init) && Legal(cfg, init, steps) && NoneHidden(cfg, init, steps)
    ensures var s := After(cfg, init, steps);
            run in s.runs && key in s.src && s.src[key].visibleAt < s.runs[run].startedAt &&
            s.src[key].visibleAt <= s.src[key].stamp + cfg.lookback + cfg.safety &&
            s.runs[run].from <= s.src[key].stamp <= s.runs[run].done ==>
              Current(s, key)
  {
    assert Inv(cfg, init);
    BehaviourKeeps(cfg, init, steps);
    var s := After(cfg, init, steps);
    if run in s.runs { assert RunOk(cfg, s, s.runs[run]); }
  }

  // --- where coverage begins --------------------------------------------------------------

  /** Every run of the behaviour was configured to start at `high` or before. */
  predicate StartsUpTo(steps: seq<Step>, high: int) {
    forall step :: step in steps && step.StartRun? ==> step.floor <= high
  }

  /** Then coverage begins at `high` or before, for the checkpoint and for every run. */
  predicate CoverageFrom(s: State, high: int) {
    (s.cursor.Timestamp? ==> s.lo <= high) && forall r :: r in s.runs ==> s.runs[r].from <= high
  }

  lemma StepKeepsCoverageFrom(cfg: Config, s: State, step: Step, high: int)
    requires cfg.Valid() && Enabled(cfg, s, step) && CoverageFrom(s, high) && (step.StartRun? ==> step.floor <= high)
    ensures CoverageFrom(Apply(cfg, s, step), high)
  {
    hide MergeAll;
    hide Read;
    hide IsSnapshot;
    if step.StartRun? {
      FloorBelow(step.floor);
      FloorBelow(StartOf(cfg, s.cursor, step.floor, step.fullRefresh));
    }
  }

  lemma {:induction false} CoverageBeginsUpTo(cfg: Config, s: State, steps: seq<Step>, high: int)
    requires cfg.Valid() && Legal(cfg, s, steps) && CoverageFrom(s, high) && StartsUpTo(steps, high)
    ensures CoverageFrom(After(cfg, s, steps), high)
    decreases |steps|
  {
    hide Enabled;
    hide Apply;
    if steps != [] {
      assert steps[0] in steps && forall step :: step in steps[1..] ==> step in steps;
      StepKeepsCoverageFrom(cfg, s, steps[0], high);
      CoverageBeginsUpTo(cfg, Apply(cfg, s, steps[0]), steps[1..], high);
    }
  }

  /** A commit gives no coverage away: whoever put the checkpoint where it then is, the run or those
      before it, its coverage is kept, the wider one if both did. */
  lemma CommitKeepsWiderCoverage(cfg: Config, s: State, step: Step)
    requires step.Commit? && Enabled(cfg, s, step)
    ensures var s', r := Apply(cfg, s, step), s.runs[step.run];
            && (s'.cursor.at == FloorSecond(r.leaf.value.end) ==> s'.lo <= r.from)
            && (s.cursor.Timestamp? && s'.cursor == s.cursor ==> s'.lo <= s.lo)
            && (s'.lo == r.from || s'.lo == s.lo)
  {
  }

  /** The checkpoint itself never moves backwards, except by an explicit reset. */
  lemma CursorNeverRewinds(cfg: Config, s: State, step: Step)
    requires Enabled(cfg, s, step) && !step.ResetCursor? && s.cursor.Timestamp?
    ensures Apply(cfg, s, step).cursor.Timestamp? && s.cursor.at <= Apply(cfg, s, step).cursor.at
  {
  }

  lemma LegalStep(cfg: Config, s: State, step: Step, rest: seq<Step>)
    requires Enabled(cfg, s, step) && Legal(cfg, Apply(cfg, s, step), rest)
    ensures Legal(cfg, s, [step] + rest)
    ensures After(cfg, s, [step] + rest) == After(cfg, Apply(cfg, s, step), rest)
  {
    assert ([step] + rest)[1..] == rest;
  }

  lemma {:induction false} LegalJoin(cfg: Config, s: State, xs: seq<Step>, ys: seq<Step>)
    requires Legal(cfg, s, xs) && Legal(cfg, After(cfg, s, xs), ys)
    ensures Legal(cfg, s, xs + ys)
    ensures After(cfg, s, xs + ys) == After(cfg, After(cfg, s, xs), ys)
    decreases |xs|
  {
    hide Enabled;
    hide Apply;
    if xs == [] {
      assert xs + ys == ys;
    } else {
      assert (xs + ys)[1..] == xs[1..] + ys;
      LegalJoin(cfg, Apply(cfg, s, xs[0]), xs[1..], ys);
    }
  }

  lemma {:induction false} LegalSplit(cfg: Config, s: State, xs: seq<Step>, ys: seq<Step>)
    requires Legal(cfg, s, xs + ys)
    ensures Legal(cfg, s, xs) && Legal(cfg, After(cfg, s, xs), ys)
    ensures After(cfg, s, xs + ys) == After(cfg, After(cfg, s, xs), ys)
    decreases |xs|
  {
    hide Enabled;
    hide Apply;
    if xs == [] {
      assert xs + ys == ys;
    } else {
      assert (xs + ys)[1..] == xs[1..] + ys;
      LegalSplit(cfg, Apply(cfg, s, xs[0]), xs[1..], ys);
    }
  }

  lemma StepCommitsNothing(cfg: Config, s: State, step: Step, run: nat)
    requires Enabled(cfg, s, step) && !s.cursor.Timestamp? && !step.Commit?
    ensures var s' := Apply(cfg, s, step);
            && !s'.cursor.Timestamp?
            && (run in s.runs && step != Stop(run) ==> run in s'.runs && s'.runs[run].from == s.runs[run].from)
  {
    hide MergeAll;
    hide Read;
    hide IsSnapshot;
  }

  /** Without commits there is no checkpoint, and a run that is not stopped keeps what it answers for. */
  lemma {:induction false} NothingCommitted(cfg: Config, s: State, steps: seq<Step>, run: nat)
    requires Legal(cfg, s, steps) && !s.cursor.Timestamp? && forall step :: step in steps ==> !step.Commit?
    ensures !After(cfg, s, steps).cursor.Timestamp?
    ensures run in s.runs && Stop(run) !in steps ==>
              run in After(cfg, s, steps).runs && After(cfg, s, steps).runs[run].from == s.runs[run].from
    decreases |steps|
  {
    hide Enabled;
    hide Apply;
    if steps != [] {
      assert steps[0] in steps && forall step :: step in steps[1..] ==> step in steps;
      StepCommitsNothing(cfg, s, steps[0], run);
      NothingCommitted(cfg, Apply(cfg, s, steps[0]), steps[1..], run);
    }
  }

  /** A reset lets coverage begin anew: whatever it was before, once a run started after the reset
      is the first to commit, coverage begins at the start that run was configured with. */
  lemma CoverageRestarts(cfg: Config, s: State, before: seq<Step>, run: nat, floor: int, full: bool, after: seq<Step>)
    requires Legal(cfg, s, [ResetCursor] + before + [StartRun(run, floor, full)] + after + [Commit(run)])
    requires (forall step :: step in before + after ==> !step.Commit?) && Stop(run) !in after
    ensures var s' := After(cfg, s, [ResetCursor] + before + [StartRun(run, floor, full)] + after + [Commit(run)]);
            s'.cursor.Timestamp? && s'.lo == FloorSecond(floor)
  {
    hide Enabled;
    hide Apply;
    var start, commit := [StartRun(run, floor, full)], [Commit(run)];
    LegalSplit(cfg, s, [ResetCursor] + before + start + after, commit);
    LegalSplit(cfg, s, [ResetCursor] + before + start, after);
    LegalSplit(cfg, s, [ResetCursor] + before, start);
    LegalSplit(cfg, s, [ResetCursor], before);
    var s1 := After(cfg, s, [ResetCursor]);
    var s2 := After(cfg, s1, before);
    var s3 := After(cfg, s2, start);
    OneStep(cfg, s, ResetCursor);
    ResetForgets(cfg, s);
    NothingCommitted(cfg, s1, before, run);
    OneStep(cfg, s2, start[0]);
    FreshRunAnswersFromItsStart(cfg, s2, run, floor, full);
    NothingCommitted(cfg, s3, after, run);
    OneStep(cfg, After(cfg, s3, after), commit[0]);
    FirstCommitRestsOnItsRun(cfg, After(cfg, s3, after), run);
  }

  lemma OneStep(cfg: Config, s: State, step: Step)
    requires Legal(cfg, s, [step])
    ensures Enabled(cfg, s, step) && After(cfg, s, [step]) == Apply(cfg, s, step)
  {
    assert [step][1..] == [];
  }

  lemma ResetForgets(cfg: Config, s: State)
    ensures !Apply(cfg, s, ResetCursor).cursor.Timestamp?
  {
  }

  lemma FreshRunAnswersFromItsStart(cfg: Config, s: State, run: nat, floor: int, full: bool)
    requires Enabled(cfg, s, StartRun(run, floor, full)) && !s.cursor.Timestamp?
    ensures var s' := Apply(cfg, s, StartRun(run, floor, full));
            run in s'.runs && s'.runs[run].from == FloorSecond(floor) && !s'.cursor.Timestamp?
  {
  }

  lemma FirstCommitRestsOnItsRun(cfg: Config, s: State, run: nat)
    requires Enabled(cfg, s, Commit(run)) && !s.cursor.Timestamp?
    ensures Apply(cfg, s, Commit(run)).cursor.Timestamp? && Apply(cfg, s, Commit(run)).lo == s.runs[run].from
  {
  }

  /** After `steps`, an incremental run configured to start at `low` leaves the row unread, although
      the row lies between that start and the checkpoint and was served in time. */
  ghost predicate Gap(cfg: Config, s: State, run: nat, low: int, key: Key) {
    && run in s.runs && key in s.src && s.cursor.Timestamp? && OnTime(cfg, s.src[key])
    && low <= s.src[key].stamp <= s.cursor.at
    && s.src[key].stamp < FloorSecond(s.runs[run].start)
    && !Current(s, key)
  }

  ghost predicate LeavesGap(cfg: Config, init: State, steps: seq<Step>, run: nat, low: int, high: int, key: Key) {
    && Init(cfg, init) && StartsUpTo(steps, high)
    && Legal(cfg, init, steps) && NoneHidden(cfg, init, steps)
    && Legal(cfg, init, steps + [StartRun(run, low, false)])
    && Gap(cfg, After(cfg, init, steps + [StartRun(run, low, false)]), run, low, key)
  }

  /** Lowering the configured start loses rows, and nothing else does: among all behaviours whose
      runs started at `high` or before, some next incremental run from `low` leaves a row unread if
      and only if `low` is below `high`. */
  lemma LoweringTheStartIff(cfg: Config, key: Key, low: int, high: int)
    requires cfg.Valid() && low % SECOND == 0 && high % SECOND == 0
    ensures (exists init, steps, run :: LeavesGap(cfg, init, steps, run, low, high, key)) <==> low < high
  {
    if low < high {
      LoweredStartLeavesAGap(cfg, key, low, high);
    }
    forall init, steps, run | low >= high ensures !LeavesGap(cfg, init, steps, run, low, high, key) {
      if LeavesGap(cfg, init, steps, run, low, high, key) { UnloweredStartLeavesNone(cfg, init, steps, run, low, high, key); }
    }
  }

  lemma UnloweredStartLeavesNone(cfg: Config, init: State, steps: seq<Step>, run: nat, low: int, high: int, key: Key)
    requires Init(cfg, init) && StartsUpTo(steps, high) && low >= high
    requires Legal(cfg, init, steps) && NoneHidden(cfg, init, steps)
    requires Legal(cfg, init, steps + [StartRun(run, low, false)])
    ensures !Gap(cfg, After(cfg, init, steps + [StartRun(run, low, false)]), run, low, key)
  {
    var last := StartRun(run, low, false);
    LegalSplit(cfg, init, steps, [last]);
    var s := After(cfg, init, steps);
    OneStep(cfg, s, last);
    assert Inv(cfg, init) && CoverageFrom(init, high);
    BehaviourKeeps(cfg, init, steps);
    CoverageBeginsUpTo(cfg, init, steps, high);
    assert NoSkip(cfg, s) && CoverageFrom(s, high);
    assert Answerable(cfg, s, key) ==> Current(s, key);
  }

  /** The state before step `i` of a first run from `high`, over an unread row stamped `low`. It
      ends a lookback and a second past `high`. */
  function GapState(cfg: Config, key: Key, low: int, high: int, i: nat): State {
    var now := high + CeilSeconds(cfg.lookback) * SECOND + CeilSeconds(Max(cfg.safety, 0)) * SECOND + 2 * SECOND;
    var end := now - cfg.safety;
    var init := State(now, map[key := Version(low, "", Min(now, low + cfg.safety - 1))], map[], map[], Absent, map[], 0, {});
    var run := Run(now, high, end, high, None, high - 1, high);
    if i == 0 then init
    else if i == 1 then init.(runs := map[0 := run])
    else if i == 2 then init.(runs := map[0 := run.(leaf := Some(Leaf(end, [], 0)))])
    else init.(cursor := Timestamp(FloorSecond(end)), lo := high,
               runs := map[0 := run.(position := end, done := FloorSecond(end))])
  }

  function GapStep(cfg: Config, key: Key, low: int, high: int, i: nat): Step {
    if i == 0 then StartRun(0, high, false)
    else if i == 1 then FetchLeaf(0, GapState(cfg, key, low, high, 0).now - cfg.safety, [])
    else if i == 2 then Commit(0)
    else StartRun(1, low, false)
  }

  lemma GapTimes(cfg: Config, key: Key, low: int, high: int)
    requires cfg.Valid() && low % SECOND == 0 && high % SECOND == 0 && low < high
    ensures var now := GapState(cfg, key, low, high, 0).now;
            && now % SECOND == 0 && FloorSecond(now) == now && FloorSecond(high) == high && FloorSecond(low) == low
            && high + cfg.lookback + SECOND <= FloorSecond(now - cfg.safety) <= now - cfg.safety
            && high <= FloorSecond(FloorSecond(now - cfg.safety) - cfg.lookback)
  {
    var now := GapState(cfg, key, low, high, 0).now;
    CeilDivBounds(cfg.lookback, SECOND);
    CeilDivBounds(Max(cfg.safety, 0), SECOND);
    FloorSecondFacts(high);
    FloorSecondFacts(low);
    assert high == high / SECOND * SECOND;
    assert now == (high / SECOND + CeilSeconds(cfg.lookback) + CeilSeconds(Max(cfg.safety, 0)) + 2) * SECOND;
    FloorSecondFacts(now);
    FloorSecondFacts(now - cfg.safety);
    FloorSecondMonotone(high, FloorSecond(now - cfg.safety) - cfg.lookback);
  }

  lemma GapStepEnabled(cfg: Config, key: Key, low: int, high: int, i: nat)
    requires cfg.Valid() && low % SECOND == 0 && high % SECOND == 0 && low < high && i < 3
    ensures var s, step := GapState(cfg, key, low, high, i), GapStep(cfg, key, low, high, i);
            Enabled(cfg, s, step) && Apply(cfg, s, step) == GapState(cfg, key, low, high, i + 1)
  {
    GapTimes(cfg, key, low, high);
    hide FloorSecond;
  }

  lemma GapRunLeavesRow(cfg: Config, key: Key, low: int, high: int)
    requires cfg.Valid() && low % SECOND == 0 && high % SECOND == 0 && low < high
    ensures var s, step := GapState(cfg, key, low, high, 3), GapStep(cfg, key, low, high, 3);
            Enabled(cfg, s, step) && Gap(cfg, Apply(cfg, s, step), 1, low, key)
    ensures Init(cfg, GapState(cfg, key, low, high, 0))
  {
    GapTimes(cfg, key, low, high);
  }

  /** A checkpoint does not record where its sweep began: whatever the configuration, move the start
      back from `high` to `low` after a first run, and a row at `low` stays unread. */
  lemma LoweredStartLeavesAGap(cfg: Config, key: Key, low: int, high: int)
    requires cfg.Valid() && low % SECOND == 0 && high % SECOND == 0 && low < high
    ensures exists init, steps :: LeavesGap(cfg, init, steps, 1, low, high, key)
  {
    hide Enabled;
    hide Apply;
    hide Gap;
    hide Init;
    hide GapState;
    GapRunLeavesRow(cfg, key, low, high);
    var at := (i: nat) => GapState(cfg, key, low, high, i);
    var steps, last := seq(3, (i: nat) => GapStep(cfg, key, low, high, i)), GapStep(cfg, key, low, high, 3);
    forall i: nat | i < 3 ensures Enabled(cfg, at(0 + i), steps[i]) && Apply(cfg, at(0 + i), steps[i]) == at(0 + i + 1) {
      GapStepEnabled(cfg, key, low, high, i);
    }
    Played(cfg, at, 0, steps);
    UnmarkedHidesNone(cfg, at(0), steps);
    LegalStep(cfg, at(3), last, []);
    assert [last] + [] == [last];
    LegalJoin(cfg, at(0), steps, [last]);
    assert LeavesGap(cfg, at(0), steps, 1, low, high, key);
  }

  /** States that follow one from the other make a behaviour. */
  lemma {:induction false} Played(cfg: Config, at: nat -> State, i: nat, steps: seq<Step>)
    requires forall j: nat :: j < |steps| ==>
               Enabled(cfg, at(i + j), steps[j]) && Apply(cfg, at(i + j), steps[j]) == at(i + j + 1)
    ensures Legal(cfg, at(i), steps) && After(cfg, at(i), steps) == at(i + |steps|)
    decreases |steps|
  {
    hide Enabled;
    hide Apply;
    if steps != [] {
      var rest := steps[1..];
      assert steps[0] == steps[0 as nat] && at(i + 0) == at(i);
      forall j: nat | j < |rest| ensures Enabled(cfg, at(i + 1 + j), rest[j]) && Apply(cfg, at(i + 1 + j), rest[j]) == at(i + 1 + j + 1) {
        assert rest[j] == steps[j + 1] && i + (j + 1) == i + 1 + j;
      }
      Played(cfg, at, i + 1, rest);
    }
  }

  // --- a row that comes back ----------------------------------------------------------------

  /** The state before step `i`: a sweep confirms a row as gone, it comes back, a run reads, writes
      and commits it, and the sweep marks it. */
  function ReturnState(cfg: Config, key: Key, i: nat): State {
    var back, now := Version(0, "", cfg.safety - 1), CeilSeconds(Max(cfg.safety, 0)) * SECOND;
    var row := Incoming(key, Some(0), "", None);
    var end := now - cfg.safety;
    var run := Run(now, 0, end, 0, None, -1, 0);
    var init := State(cfg.safety - 1, map[], map[], map[], Absent, map[], 0, {});
    var found := init.(confirmed := {(0, key)});
    var served := found.(src := map[key := back]);
    var read := served.(now := now, seen := map[key := 0]);
    if i == 0 then init
    else if i == 1 then found
    else if i == 2 then served
    else if i == 3 then served.(now := now)
    else if i == 4 then served.(now := now, runs := map[0 := run])
    else if i == 5 then read.(runs := map[0 := run.(leaf := Some(Leaf(end, [row], 0)))])
    else if i == 6 then read.(wh := MergeAll(map[], [row]), runs := map[0 := run.(leaf := Some(Leaf(end, [row], 1)))])
    else
      var committed := read.(wh := MergeAll(map[], [row]), cursor := Timestamp(FloorSecond(end)),
                             runs := map[0 := run.(position := end, done := FloorSecond(end))]);
      if i == 7 then committed
      else committed.(wh := map[key := Stored(Some(0), Some(now), "", None)], confirmed := {})
  }

  function ReturnStep(cfg: Config, key: Key, i: nat): Step {
    var now := CeilSeconds(Max(cfg.safety, 0)) * SECOND;
    if i == 0 then Confirm(0, key)
    else if i == 1 then Modify(key, 0, "")
    else if i == 2 then Tick(now)
    else if i == 3 then StartRun(0, 0, false)
    else if i == 4 then FetchLeaf(0, now - cfg.safety, [Incoming(key, Some(0), "", None)])
    else if i == 5 then WriteBatch(0, 1)
    else if i == 6 then Commit(0)
    else Mark(0, now)
  }

  lemma ReturnTimes(cfg: Config)
    requires cfg.Valid()
    ensures var now := CeilSeconds(Max(cfg.safety, 0)) * SECOND;
            cfg.safety - 1 <= now && FloorSecond(now) == now && 0 <= FloorSecond(now - cfg.safety) <= now - cfg.safety
    ensures FloorSecond(0) == 0
  {
    var now := CeilSeconds(Max(cfg.safety, 0)) * SECOND;
    CeilDivBounds(Max(cfg.safety, 0), SECOND);
    FloorSecondFacts(0);
    FloorSecondFacts(now);
    FloorSecondFacts(now - cfg.safety);
    FloorSecondMonotone(0, now - cfg.safety);
  }

  /** The step leads from state `i` to the next. */
  ghost predicate Follows(cfg: Config, key: Key, i: nat) {
    var s, step := ReturnState(cfg, key, i), ReturnStep(cfg, key, i);
    Enabled(cfg, s, step) && Apply(cfg, s, step) == ReturnState(cfg, key, i + 1)
  }

  lemma ReturnBegins(cfg: Config, key: Key, i: nat)
    requires cfg.Valid() && i < 4
    ensures Follows(cfg, key, i)
  {
    hide MergeAll;
    hide Read;
    hide IsSnapshot;
    ReturnTimes(cfg);
    hide FloorSecond;
  }

  lemma ReturnIsFetched(cfg: Config, key: Key)
    requires cfg.Valid()
    ensures Follows(cfg, key, 4)
  {
    hide MergeAll;
    ReturnTimes(cfg);
    hide FloorSecond;
    var row := Incoming(key, Some(0), "", None);
    assert [row][..0] == [] && Read(map[], [row]) == map[key := 0];
  }

  lemma ReturnIsWritten(cfg: Config, key: Key)
    requires cfg.Valid()
    ensures Follows(cfg, key, 5)
  {
    hide MergeAll;
    hide Read;
    hide IsSnapshot;
    var row := Incoming(key, Some(0), "", None);
    assert [row][0..0 + 1] == [row];
  }

  lemma ReturnIsCommitted(cfg: Config, key: Key)
    requires cfg.Valid()
    ensures Follows(cfg, key, 6)
  {
    hide MergeAll;
    hide Read;
    hide IsSnapshot;
  }

  lemma ReturnIsMarked(cfg: Config, key: Key)
    requires cfg.Valid()
    ensures Follows(cfg, key, 7)
  {
    hide Read;
    hide IsSnapshot;
    hide FloorSecond;
    var row := Incoming(key, Some(0), "", None);
    assert [row][1..] == [];
    assert MergeAll(map[], [row]) == map[key := Stored(Some(0), None, "", None)];
  }

  lemma ReturnStepEnabled(cfg: Config, key: Key, i: nat)
    requires cfg.Valid() && i < 8
    ensures Follows(cfg, key, i)
  {
    hide Follows;
    if i < 4 { ReturnBegins(cfg, key, i); }
    else if i == 4 { ReturnIsFetched(cfg, key); }
    else if i == 5 { ReturnIsWritten(cfg, key); }
    else if i == 6 { ReturnIsCommitted(cfg, key); }
    else { ReturnIsMarked(cfg, key); }
  }

  /** Such a loss is reachable under every configuration, even for a row that was served in time:
      the sweep looked it up before it came back and marks it after it was synced. */
  lemma ReappearedRowMayBeLost(cfg: Config, key: Key)
    requires cfg.Valid()
    ensures exists init, steps ::
              && Init(cfg, init) && Legal(cfg, init, steps)
              && var s := After(cfg, init, steps);
              && s.cursor.Timestamp? && key in s.src && OnTime(cfg, s.src[key])
              && s.lo <= s.src[key].stamp <= s.cursor.at && !Current(s, key)
  {
    hide Enabled;
    hide Apply;
    hide ReturnState;
    var at := (i: nat) => ReturnState(cfg, key, i);
    var steps := seq(8, (i: nat) => ReturnStep(cfg, key, i));
    forall i: nat | i < 8 ensures Enabled(cfg, at(0 + i), steps[i]) && Apply(cfg, at(0 + i), steps[i]) == at(0 + i + 1) {
      ReturnStepEnabled(cfg, key, i);
    }
    Played(cfg, at, 0, steps);
    ReturnedRowIsMarked(cfg, key);
  }

  lemma ReturnedRowIsMarked(cfg: Config, key: Key)
    requires cfg.Valid()
    ensures Init(cfg, ReturnState(cfg, key, 0))
    ensures var s := ReturnState(cfg, key, 8);
            && s.cursor.Timestamp? && key in s.src && OnTime(cfg, s.src[key])
            && s.lo <= s.src[key].stamp <= s.cursor.at && !Current(s, key)
  {
    ReturnTimes(cfg);
  }
}
