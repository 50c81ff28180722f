/** One timestamp-cursor stream of one run: fetch, write, reconcile, commit, window by window. */
module SyncStream {
  import opened Wrappers
  import opened Instants
  import opened Source
  import opened WindowSpec
  import WF = WindowFetch
  import opened Upsert
  import opened Writer
  import CP = Checkpoint
  import opened Script

  class StreamState {
    var cursor: CP.Cursor

    constructor (cursor: CP.Cursor)
      ensures this.cursor == cursor
    {
      this.cursor := cursor;
    }

    /** Compares with the cursor stored at this moment, unless that is a legacy one. */
    method CommitStateTs(reached: int)
      modifies this
      ensures cursor == CP.AdvanceCursor(old(cursor), reached)
      ensures cursor.Timestamp? && FloorSecond(reached) <= cursor.at
      ensures old(cursor).Timestamp? ==> old(cursor).at <= cursor.at
    {
      var candidate := FloorSecond(reached);
      if !cursor.Timestamp? || candidate > cursor.at {
        cursor := CP.Timestamp(candidate);
      }
    }
  }

  function WindowRows(w: Window, runId: Option<int>): seq<Incoming>
    requires forall r :: r in w.rows ==> r.id.Some?
  {
    ReportRows(BatchOf(w).records, runId)
  }

  predicate Identified(leaves: seq<Window>) {
    forall w, r :: w in leaves && r in w.rows ==> r.id.Some?
  }

  /** Everything a chain of windows hands to the destination. */
  function AllRows(leaves: seq<Window>, runId: Option<int>): seq<Incoming>
    requires Identified(leaves)
  {
    if leaves == [] then []
    else
      var last := leaves[|leaves| - 1];
      AllRows(leaves[..|leaves| - 1], runId) + WindowRows(last, runId)
  }

  function CursorAfter(cursor: CP.Cursor, leaves: seq<Window>): CP.Cursor {
    if leaves == [] then cursor
    else CP.AdvanceCursor(CursorAfter(cursor, leaves[..|leaves| - 1]), leaves[|leaves| - 1].end)
  }

  /** An accepted window is a legal fetch step: an exact snapshot of its interval at the moment
      its first request was answered. */
  lemma AcceptedWindowIsSnapshot(
    src: Source, truth: nat -> seq<Row>, k: nat, m: nat, w: Window, versions: map<Key, CP.Version>, runId: Option<int>)
    requires Truthful(src, truth) && src.pageSize > 0 && w.start <= w.end && Pull(src, k, m, w)
    requires w.pagedFallback ==> OnlyShrinks(truth, k, m, w.start, w.end)
    requires Represents(truth(k), versions)
    ensures forall r :: r in w.rows ==> r.id.Some?
    ensures CP.IsSnapshot(versions, w.start, w.end, WindowRows(w, runId))
  {
    hide Truthful;
    hide Pull;
    hide OnlyShrinks;
    AcceptedIsSnapshot(src, truth, k, m, w);
    HitsFacts(truth(k), FloorSecond(w.start), FloorSecond(w.end));
    SnapshotOf(truth(k), w, versions, runId);
  }

  lemma WindowRowAt(w: Window, i: nat, runId: Option<int>)
    requires (forall r :: r in w.rows ==> r.id.Some?) && i < |w.rows|
    ensures |WindowRows(w, runId)| == |w.rows|
    ensures WindowRows(w, runId)[i] ==
              Incoming([w.rows[i].id.value], Some(FloorSecond(w.rows[i].stamp)), w.rows[i].payload, runId)
  {
    var record := BatchOf(w).records[i];
    assert record == RecordOf(w.rows[i]) && WindowRows(w, runId)[i] == IncomingOf(record, runId);
    assert KeyOf(record) == [w.rows[i].id.value];
  }

  lemma SnapshotOf(listing: seq<Row>, w: Window, versions: map<Key, CP.Version>, runId: Option<int>)
    requires Represents(listing, versions)
    requires forall r :: r in w.rows ==> r.id.Some?
    requires forall r :: r in w.rows <==> r.id.Some? && r in listing && FloorSecond(w.start) <= r.stamp <= FloorSecond(w.end)
    ensures CP.IsSnapshot(versions, w.start, w.end, WindowRows(w, runId))
  {
    hide WindowRows;
    var rows := WindowRows(w, runId);
    if w.rows != [] { WindowRowAt(w, 0, runId); } else { NoRows(w, runId); }
    forall e | e in rows
      ensures e.key in versions && CP.SameVersion(e, e.key, versions[e.key])
      ensures FloorSecond(w.start) <= versions[e.key].stamp <= FloorSecond(w.end)
    {
      var i :| 0 <= i < |rows| && rows[i] == e;
      WindowRowAt(w, i, runId);
      assert w.rows[i] in w.rows;
    }
    forall key | key in versions && FloorSecond(w.start) <= versions[key].stamp <= FloorSecond(w.end)
      ensures exists e :: e in rows && e.key == key
    {
      var r :| r in listing && r.id.Some? && key == [r.id.value];
      var i :| 0 <= i < |w.rows| && w.rows[i] == r;
      WindowRowAt(w, i, runId);
      assert rows[i].key == key;
    }
  }

  lemma NoRows(w: Window, runId: Option<int>)
    requires w.rows == []
    ensures WindowRows(w, runId) == []
  {
  }

  /** Run `run` of `t` waits at `position` with nothing fetched. */
  predicate Idle(t: CP.State, run: nat, position: int) {
    run in t.runs && t.runs[run].leaf.None? && t.runs[run].position == position && position <= t.runs[run].end
  }

  /** Run `run` of `t` holds the whole window, nothing of it written yet. */
  predicate Holds(t: CP.State, run: nat, w: Window, runId: Option<int>)
    requires forall r :: r in w.rows ==> r.id.Some?
  {
    && run in t.runs && t.runs[run].leaf == Some(CP.Leaf(w.end, WindowRows(w, runId), 0))
    && t.runs[run].position == w.start && w.end <= t.runs[run].end
  }

  lemma FetchIsLegal(cfg: CP.Config, t: CP.State, run: nat, w: Window, runId: Option<int>)
    requires Idle(t, run, w.start) && w.start <= w.end <= t.runs[run].end
    requires forall r :: r in w.rows ==> r.id.Some?
    requires CP.IsSnapshot(t.src, w.start, w.end, WindowRows(w, runId))
    ensures var step := CP.FetchLeaf(run, w.end, WindowRows(w, runId));
            && CP.Legal(cfg, t, [step])
            && var t' := CP.After(cfg, t, [step]);
            && Holds(t', run, w, runId) && t'.runs[run] == t.runs[run].(leaf := t'.runs[run].leaf)
            && t'.src == t.src && t'.wh == t.wh && t'.cursor == t.cursor
  {
    hide CP.IsSnapshot;
    hide CP.Read;
    var step := CP.FetchLeaf(run, w.end, WindowRows(w, runId));
    CP.LegalStep(cfg, t, step, []);
    assert [step] + [] == [step];
  }

  /** Writing the window (its transactions taken together) and committing the checkpoint. */
  lemma StoreIsLegal(cfg: CP.Config, t: CP.State, run: nat, w: Window, runId: Option<int>)
    requires (forall r :: r in w.rows ==> r.id.Some?) && Holds(t, run, w, runId)
    ensures var steps := [CP.WriteBatch(run, |WindowRows(w, runId)|), CP.Commit(run)];
            && CP.Legal(cfg, t, steps)
            && var t' := CP.After(cfg, t, steps);
            && Idle(t', run, w.end)
            && t'.runs[run] == t.runs[run].(position := w.end, leaf := None, done := FloorSecond(w.end))
            && t'.src == t.src && t'.wh == MergeAll(t.wh, WindowRows(w, runId))
            && t'.cursor == CP.AdvanceCursor(t.cursor, w.end)
  {
    hide MergeAll;
    var rows := WindowRows(w, runId);
    var b, c := CP.WriteBatch(run, |rows|), CP.Commit(run);
    assert rows[0..0 + |rows|] == rows;
    CP.LegalStep(cfg, CP.Apply(cfg, t, b), c, []);
    CP.LegalStep(cfg, t, b, [c] + []);
    assert [b] + ([c] + []) == [b, c];
  }

  lemma {:induction false} ChainPrefix(start: int, leaves: seq<Window>, end: int, i: nat)
    requires Chain(start, leaves, end) && i <= |leaves|
    ensures Chain(start, leaves[..i], WF.EndOf(start, leaves[..i]))
    ensures start <= WF.EndOf(start, leaves[..i]) <= end
    ensures i < |leaves| ==>
              leaves[i].start == WF.EndOf(start, leaves[..i]) <= leaves[i].end <= end &&
              WF.EndOf(start, leaves[..i + 1]) == leaves[i].end
    decreases i
  {
    ChainGrows(start, leaves, end);
    if i > 0 {
      var w, rest := leaves[0], leaves[1..];
      ChainPrefix(w.end, rest, end, i - 1);
      assert leaves[..i][1..] == rest[..i - 1];
      assert leaves[..i] == [w] + rest[..i - 1];
    } else if leaves != [] {
      ChainGrows(leaves[0].end, leaves[1..], end);
    }
  }

  lemma AllIdentified(src: Source, lo: nat, hi: nat, leaves: seq<Window>)
    requires AllAccepted(src, lo, hi, leaves)
    ensures Identified(leaves)
  {
    forall w, r | w in leaves && r in w.rows ensures r.id.Some? {
      AcceptedMember(src, lo, hi, leaves, w);
      var k: nat, m: nat :| lo <= k && k + m <= hi && Pull(src, k, m, w);
      AcceptedWindowAccounts(src, k, m, w);
    }
  }

  lemma {:induction false} SumCallsAppend(leaves: seq<Window>, w: Window)
    ensures SumCalls(leaves + [w]) == SumCalls(leaves) + w.apiCalls
  {
    if leaves == [] {
      assert [w][1..] == [] && [] + [w] == [w];
    } else {
      assert (leaves + [w])[1..] == leaves[1..] + [w];
      SumCallsAppend(leaves[1..], w);
    }
  }

  // --- a run among others, against a source that changes --------------------------------

  /** The listing at each request, and what everybody else does: `before(k)` ends with request `k`
      and begins with our last statements before it, or where `after(k - 1)` ended; `after(k)` runs
      from the answer to our statements that follow it, if any do. */
  datatype Timeline = Timeline(truth: nat -> seq<Row>, before: nat -> seq<CP.Step>, after: nat -> seq<CP.Step>)

  /** A run of the program beside the step system: the state it starts from, its name there, and
      what happens around it. */
  datatype Scenario = Scenario(cfg: CP.Config, init: CP.State, run: nat, line: Timeline)

  /** The source answers truthfully, and the other parties are never mistaken for our run. */
  ghost predicate Faithful(sc: Scenario, src: Source) {
    && Truthful(src, sc.line.truth) && src.pageSize > 0
    && forall k: nat, step :: step in sc.line.before(k) || step in sc.line.after(k) ==> Foreign(step, sc.run)
  }

  /** From the answer to request `j` to the answer to request `k`. */
  function Onward(line: Timeline, j: nat, k: nat): seq<Chunk> {
    if k <= j then []
    else Onward(line, j, k - 1) + [Theirs(line.after(k - 1), None), Theirs(line.before(k), Some(line.truth(k)))]
  }

  /** From our last statements, before request `next`, to the answer to request `k`. */
  function Approach(line: Timeline, next: nat, k: nat): seq<Chunk> {
    [Theirs(line.before(next), Some(line.truth(next)))] + Onward(line, next, k)
  }

  /** While the remaining requests `k + 1 ..` of a window are answered, up to our next statements. */
  function Meanwhile(line: Timeline, k: nat, m: nat): seq<Chunk>
    requires m >= 1
  {
    Onward(line, k, k + m - 1) + [Theirs(line.after(k + m - 1), None)]
  }

  /** One window, resting on requests [k, k + m) with `next` the first one since our last
      statements: others go on, we fetch, others go on, we find the table and cursor as they are,
      and write and commit. */
  function WindowScript(sc: Scenario, w: Window, k: nat, m: nat, next: nat, table: Table, cursor: CP.Cursor,
                        runId: Option<int>): seq<Chunk>
    requires m >= 1 && forall r :: r in w.rows ==> r.id.Some?
  {
    Approach(sc.line, next, k) + [Ours([CP.FetchLeaf(sc.run, w.end, WindowRows(w, runId))])] +
    Meanwhile(sc.line, k, m) + [Finds(table, cursor)] +
    [Ours([CP.WriteBatch(sc.run, |WindowRows(w, runId)|), CP.Commit(sc.run)])]
  }

  /** Our run of the step system: where the program's is, over the program's table and cursor. */
  predicate At(sc: Scenario, u: CP.State, start: int, end: int, position: int, table: Table, cursor: CP.Cursor, moved: bool) {
    && u.wh == table && u.cursor == cursor && Idle(u, sc.run, position)
    && u.runs[sc.run].start == start && u.runs[sc.run].end == end && u.runs[sc.run].startedAt == sc.init.now
    && (moved ==> u.runs[sc.run].done == FloorSecond(position))
  }

  lemma {:induction false} OnwardIsForeign(sc: Scenario, src: Source, j: nat, k: nat)
    requires Faithful(sc, src) && j <= k
    ensures AllForeign(Onward(sc.line, j, k), sc.run)
    ensures k > j ==> Onward(sc.line, j, k) != [] &&
                      Onward(sc.line, j, k)[|Onward(sc.line, j, k)| - 1] == Theirs(sc.line.before(k), Some(sc.line.truth(k)))
  {
    if k > j { OnwardIsForeign(sc, src, j, k - 1); }
  }

  lemma ApproachIsForeign(sc: Scenario, src: Source, next: nat, k: nat)
    requires Faithful(sc, src) && next <= k
    ensures AllForeign(Approach(sc.line, next, k), sc.run)
    ensures var chunks := Approach(sc.line, next, k);
            chunks != [] && chunks[|chunks| - 1].Theirs? && chunks[|chunks| - 1].listing == Some(sc.line.truth(k))
  {
    OnwardIsForeign(sc, src, next, k);
  }

  lemma MeanwhileIsForeign(sc: Scenario, src: Source, k: nat, m: nat)
    requires Faithful(sc, src) && m >= 1
    ensures AllForeign(Meanwhile(sc.line, k, m), sc.run)
  {
    OnwardIsForeign(sc, src, k, k + m - 1);
  }

  /** The first half of a window: the source is asked, and the accepted window is an enabled fetch. */
  lemma FetchPlays(sc: Scenario, u: CP.State, w: Window, src: Source, k: nat, m: nat, next: nat, runId: Option<int>)
    requires Faithful(sc, src) && next <= k && Pull(src, k, m, w)
    requires w.pagedFallback ==> OnlyShrinks(sc.line.truth, k, m, w.start, w.end)
    requires forall r :: r in w.rows ==> r.id.Some?
    requires Idle(u, sc.run, w.start) && w.start <= w.end <= u.runs[sc.run].end
    requires Cooperates(sc.cfg, u, Approach(sc.line, next, k))
    ensures var chunks := Approach(sc.line, next, k) + [Ours([CP.FetchLeaf(sc.run, w.end, WindowRows(w, runId))])];
            && Plays(sc.cfg, u, chunks)
            && Holds(End(sc.cfg, u, chunks), sc.run, w, runId)
            && End(sc.cfg, u, chunks).runs[sc.run] == u.runs[sc.run].(leaf := End(sc.cfg, u, chunks).runs[sc.run].leaf)
  {
    ApproachIsForeign(sc, src, next, k);
    hide Approach;
    hide CP.Legal;
    hide CP.After;
    hide CP.IsSnapshot;
    hide Cooperates;
    hide Plays;
    hide End;
    hide WindowRows;
    var chunks := Approach(sc.line, next, k);
    EnvironmentPlays(sc.cfg, u, chunks, sc.run);
    var v := End(sc.cfg, u, chunks);
    AcceptedWindowIsSnapshot(src, sc.line.truth, k, m, w, v.src, runId);
    hide Faithful;
    hide Pull;
    hide OnlyShrinks;
    hide Represents;
    FetchIsLegal(sc.cfg, v, sc.run, w, runId);
    var fetch := Ours([CP.FetchLeaf(sc.run, w.end, WindowRows(w, runId))]);
    OneChunk(sc.cfg, v, fetch);
    PlaysAppend(sc.cfg, u, chunks, [fetch]);
  }

  /** The second half: others go on, and the window is written and committed over what they left. */
  lemma StorePlays(sc: Scenario, v: CP.State, w: Window, src: Source, k: nat, m: nat, table: Table, cursor: CP.Cursor, runId: Option<int>)
    requires Faithful(sc, src) && m >= 1
    requires forall r :: r in w.rows ==> r.id.Some?
    requires Holds(v, sc.run, w, runId)
    requires Cooperates(sc.cfg, v, Meanwhile(sc.line, k, m) + [Finds(table, cursor)])
    ensures var chunks := Meanwhile(sc.line, k, m) + [Finds(table, cursor)] +
                          [Ours([CP.WriteBatch(sc.run, |WindowRows(w, runId)|), CP.Commit(sc.run)])];
            && Plays(sc.cfg, v, chunks)
            && var u := End(sc.cfg, v, chunks);
            && Idle(u, sc.run, w.end)
            && u.runs[sc.run] == v.runs[sc.run].(position := w.end, leaf := None, done := FloorSecond(w.end))
            && u.wh == MergeAll(table, WindowRows(w, runId)) && u.cursor == CP.AdvanceCursor(cursor, w.end)
  {
    MeanwhileIsForeign(sc, src, k, m);
    hide Meanwhile;
    hide Faithful;
    hide MergeAll;
    hide WindowRows;
    hide CP.AdvanceCursor;
    var chunks := Meanwhile(sc.line, k, m);
    CooperatesSplit(sc.cfg, v, chunks, [Finds(table, cursor)]);
    EnvironmentPlays(sc.cfg, v, chunks, sc.run);
    var x := End(sc.cfg, v, chunks);
    assert x.wh == table && x.cursor == cursor;
    hide Cooperates;
    OneChunk(sc.cfg, x, Finds(table, cursor));
    assert CP.After(sc.cfg, x, []) == x;
    hide Plays;
    hide End;
    hide CP.Legal;
    hide CP.After;
    PlaysAppend(sc.cfg, v, chunks, [Finds(table, cursor)]);
    StoreIsLegal(sc.cfg, x, sc.run, w, runId);
    var store := Ours([CP.WriteBatch(sc.run, |WindowRows(w, runId)|), CP.Commit(sc.run)]);
    OneChunk(sc.cfg, x, store);
    PlaysAppend(sc.cfg, v, chunks + [Finds(table, cursor)], [store]);
  }

  /** One more window, from wherever our run is. */
  lemma WindowPlays(sc: Scenario, u: CP.State, start: int, end: int, w: Window, src: Source, k: nat, m: nat, next: nat,
                    before: (Table, CP.Cursor), moved: bool, table: Table, cursor: CP.Cursor, runId: Option<int>)
    requires Faithful(sc, src) && next <= k && Pull(src, k, m, w) && m >= 1
    requires w.pagedFallback ==> OnlyShrinks(sc.line.truth, k, m, w.start, w.end)
    requires forall r :: r in w.rows ==> r.id.Some?
    requires At(sc, u, start, end, w.start, before.0, before.1, moved) && w.start <= w.end <= end
    requires Cooperates(sc.cfg, u, WindowScript(sc, w, k, m, next, table, cursor, runId))
    ensures var chunks := WindowScript(sc, w, k, m, next, table, cursor, runId);
            && Plays(sc.cfg, u, chunks)
            && At(sc, End(sc.cfg, u, chunks), start, end, w.end,
                  MergeAll(table, WindowRows(w, runId)), CP.AdvanceCursor(cursor, w.end), true)
  {
    hide Faithful;
    hide Pull;
    hide OnlyShrinks;
    hide MergeAll;
    hide WindowRows;
    hide Approach;
    hide Meanwhile;
    hide CP.AdvanceCursor;
    hide Cooperates;
    hide Plays;
    hide End;
    var fetch := [Ours([CP.FetchLeaf(sc.run, w.end, WindowRows(w, runId))])];
    var store := [Ours([CP.WriteBatch(sc.run, |WindowRows(w, runId)|), CP.Commit(sc.run)])];
    var a, c := Approach(sc.line, next, k), Meanwhile(sc.line, k, m) + [Finds(table, cursor)];
    var all := WindowScript(sc, w, k, m, next, table, cursor, runId);
    assert all == (a + fetch) + (c + store);
    assert all == a + (fetch + (c + store));
    CooperatesSplit(sc.cfg, u, a, fetch + (c + store));
    FetchPlays(sc, u, w, src, k, m, next, runId);
    CooperatesSplit(sc.cfg, u, a + fetch, c + store);
    var v := End(sc.cfg, u, a + fetch);
    CooperatesSplit(sc.cfg, v, c, store);
    StorePlays(sc, v, w, src, k, m, table, cursor, runId);
    assert c + store == Meanwhile(sc.line, k, m) + [Finds(table, cursor)] + store;
    PlaysAppend(sc.cfg, u, a + fetch, c + store);
  }

  // --- whole runs -----------------------------------------------------------------------

  /** Which requests each window rests on, later windows on later requests. */
  ghost predicate Pulled(src: Source, lo: nat, hi: nat, leaves: seq<Window>, pulls: seq<(nat, nat)>) {
    && |pulls| == |leaves|
    && forall i: nat :: i < |leaves| ==>
         && Pull(src, pulls[i].0, pulls[i].1, leaves[i]) && pulls[i].1 >= 1
         && NextRequest(lo, pulls, i) <= pulls[i].0 && pulls[i].0 + pulls[i].1 <= hi
  }

  function NextRequest(lo: nat, pulls: seq<(nat, nat)>, i: nat): nat
    requires i <= |pulls|
  {
    if i == 0 then lo else pulls[i - 1].0 + pulls[i - 1].1
  }

  lemma {:induction false} PullsOf(src: Source, lo: nat, hi: nat, leaves: seq<Window>) returns (pulls: seq<(nat, nat)>)
    requires AllAccepted(src, lo, hi, leaves)
    ensures Pulled(src, lo, hi, leaves, pulls)
    decreases |leaves|
  {
    hide PagedPull;
    if leaves == [] {
      pulls := [];
    } else {
      var k: nat, m: nat :| AcceptedFirst(src, lo, hi, leaves, k, m);
      PullAsks(src, k, m, leaves[0]);
      var rest := PullsOf(src, k + m, hi, leaves[1..]);
      pulls := [(k, m)] + rest;
      hide Pull;
      forall i: nat | i < |leaves|
        ensures Pull(src, pulls[i].0, pulls[i].1, leaves[i]) && pulls[i].1 >= 1
        ensures NextRequest(lo, pulls, i) <= pulls[i].0 && pulls[i].0 + pulls[i].1 <= hi
      {
        if i > 0 {
          assert leaves[i] == leaves[1..][i - 1] && pulls[i] == rest[i - 1];
          assert NextRequest(lo, pulls, i) == NextRequest(k + m, rest, i - 1);
        }
      }
    }
  }

  lemma PullAsks(src: Source, k: nat, m: nat, w: Window)
    requires Pull(src, k, m, w)
    ensures m >= 1
  {
  }

  /** Rows only leave a one-second window while it is pulled page by page. */
  ghost predicate ShrinkWhilePulled(truth: nat -> seq<Row>, leaves: seq<Window>, pulls: seq<(nat, nat)>)
    requires |pulls| == |leaves|
  {
    forall i :: 0 <= i < |leaves| && leaves[i].pagedFallback ==>
      OnlyShrinks(truth, pulls[i].0, pulls[i].1, leaves[i].start, leaves[i].end)
  }

  /** What other processes left in the table and the stored cursor by the time we store window
      `i`; None if they touched neither since our last statement. */
  type Others = nat -> Option<(Table, CP.Cursor)>

  /** A run of the program as it went: configured start and mode, the first request's number, the
      windows and the requests they rest on, table and cursor at the beginning, and what other
      processes left in them meanwhile. */
  datatype RunRecord = RunRecord(
    sc: Scenario, floor: int, full: bool, lo: nat, leaves: seq<Window>, pulls: seq<(nat, nat)>,
    first: (Table, CP.Cursor), others: Others, runId: Option<int>) {

    ghost predicate Shaped() {
      Identified(leaves) && |pulls| == |leaves| && forall i :: 0 <= i < |pulls| ==> pulls[i].1 >= 1
    }

    function Start(): int {
      CP.StartOf(sc.cfg, sc.init.cursor, floor, full)
    }

    function Finish(): int {
      CP.EndOf(sc.cfg, sc.init.now)
    }

    function Resumed(): Option<int> {
      ResumedFrom(sc.init.cursor, full)
    }

    predicate IsDue() {
      DueAt(sc.cfg, sc.init.now, floor, Resumed())
    }

    function Position(n: nat): int
      requires n <= |leaves|
    {
      WF.EndOf(Start(), leaves[..n])
    }

    /** Table and cursor after the first `n` windows. */
    function Stored(n: nat): (Table, CP.Cursor)
      requires Shaped() && n <= |leaves|
      decreases n, 0
    {
      if n == 0 then first
      else (MergeAll(Found(n - 1).0, WindowRows(leaves[n - 1], runId)), CP.AdvanceCursor(Found(n - 1).1, leaves[n - 1].end))
    }

    /** Table and cursor as they are when window `i` is stored. */
    function Found(i: nat): (Table, CP.Cursor)
      requires Shaped() && i < |leaves|
      decreases i, 1
    {
      if others(i).Some? then others(i).value else Stored(i)
    }

    lemma StoredFirst()
      requires Shaped()
      ensures Stored(0) == first
    {
    }

    lemma StoredNext(i: nat)
      requires Shaped() && i < |leaves|
      ensures Stored(0) == first && Found(i) == if others(i).Some? then others(i).value else Stored(i)
      ensures Stored(i + 1) == (MergeAll(Found(i).0, WindowRows(leaves[i], runId)), CP.AdvanceCursor(Found(i).1, leaves[i].end))
    {
    }

    /** What happens while window `i` is fetched and stored. */
    function WindowPart(i: nat): seq<Chunk>
      requires Shaped() && i < |leaves|
    {
      WindowScript(sc, leaves[i], pulls[i].0, pulls[i].1, NextRequest(lo, pulls, i), Found(i).0, Found(i).1, runId)
    }

    /** Everything that happens up to the `n`th window's commit. */
    function Script(n: nat): seq<Chunk>
      requires Shaped() && n <= |leaves|
    {
      if n == 0 then [Ours([CP.StartRun(sc.run, floor, full)])] else Script(n - 1) + WindowPart(n - 1)
    }

    /** A faithful source, windows with their requests, and a step system linked to the program at
        the start. */
    ghost predicate Fits(src: Source, hi: nat) {
      && Faithful(sc, src) && Identified(leaves) && Pulled(src, lo, hi, leaves, pulls)
      && ShrinkWhilePulled(sc.line.truth, leaves, pulls)
      && Chain(Start(), leaves, WF.EndOf(Start(), leaves)) && WF.EndOf(Start(), leaves) <= Finish()
      && first == (sc.init.wh, sc.init.cursor) && sc.run !in sc.init.runs && Start() <= Finish()
    }

    /** What the theorem asks of the surroundings: a faithful source, rows that only leave a
        one-second window while it is paged, and a step system that begins where the program does. */
    ghost predicate Scene(src: Source)
      requires |pulls| == |leaves|
    {
      && Faithful(sc, src) && ShrinkWhilePulled(sc.line.truth, leaves, pulls)
      && first == (sc.init.wh, sc.init.cursor) && sc.run !in sc.init.runs
    }

    /** The same run up to its `n`th window. */
    function Prefix(n: nat): RunRecord
      requires |pulls| == |leaves| && n <= |leaves|
    {
      this.(leaves := leaves[..n], pulls := pulls[..n])
    }

    lemma {:induction false} PrefixStores(n: nat, i: nat)
      requires Shaped() && i <= n <= |leaves|
      ensures Prefix(n).Shaped() && Prefix(n).Stored(i) == Stored(i)
      decreases i
    {
      if i > 0 { PrefixStores(n, i - 1); }
    }

    /** Our run has committed `n` windows. */
    predicate Reached(u: CP.State, n: nat)
      requires Shaped() && n <= |leaves|
    {
      At(sc, u, Start(), Finish(), Position(n), Stored(n).0, Stored(n).1, n > 0)
    }

    lemma Leaf(src: Source, hi: nat, i: nat)
      requires Fits(src, hi) && i < |leaves|
      ensures Shaped() && Faithful(sc, src) && NextRequest(lo, pulls, i) <= pulls[i].0
      ensures Pull(src, pulls[i].0, pulls[i].1, leaves[i])
      ensures leaves[i].pagedFallback ==> OnlyShrinks(sc.line.truth, pulls[i].0, pulls[i].1, leaves[i].start, leaves[i].end)
      ensures forall r :: r in leaves[i].rows ==> r.id.Some?
      ensures leaves[i].start == Position(i) <= leaves[i].end <= Finish() && Position(i + 1) == leaves[i].end
    {
      hide Faithful;
      hide Pull;
      hide OnlyShrinks;
      ChainPrefix(Start(), leaves, WF.EndOf(Start(), leaves), i);
    }

    lemma Starts(src: Source, hi: nat)
      requires Fits(src, hi)
      ensures Shaped() && Plays(sc.cfg, sc.init, Script(0)) && Reached(End(sc.cfg, sc.init, Script(0)), 0)
      ensures End(sc.cfg, sc.init, Script(0)).src == sc.init.src
    {
      hide Faithful;
      hide Pull;
      hide Plays;
      hide End;
      StartPlays(sc, floor, full, Start(), Finish());
      NoLeaves(Start(), leaves);
    }

    lemma NextPlays(src: Source, hi: nat, i: nat, u: CP.State)
      requires Fits(src, hi) && i < |leaves| && Shaped()
      requires Reached(u, i) && Cooperates(sc.cfg, u, WindowPart(i))
      ensures Plays(sc.cfg, u, WindowPart(i)) && Reached(End(sc.cfg, u, WindowPart(i)), i + 1)
    {
      Leaf(src, hi, i);
      hide Fits;
      hide Faithful;
      hide Pull;
      hide OnlyShrinks;
      hide MergeAll;
      hide CP.AdvanceCursor;
      hide Cooperates;
      hide Plays;
      hide End;
      hide WindowScript;
      hide Position;
      hide At;
      WindowPlays(sc, u, Start(), Finish(), leaves[i], src, pulls[i].0, pulls[i].1, NextRequest(lo, pulls, i),
                  Stored(i), i > 0, Found(i).0, Found(i).1, runId);
    }

    /** If the environment keeps its side, the whole script is a behaviour of the step system, and it
        ends over the program's own table and cursor. */
    lemma {:induction false} RunPlays(src: Source, hi: nat, n: nat)
      requires Fits(src, hi) && Shaped() && n <= |leaves|
      requires Cooperates(sc.cfg, sc.init, Script(n))
      ensures Plays(sc.cfg, sc.init, Script(n)) && Reached(End(sc.cfg, sc.init, Script(n)), n)
    {
      hide Cooperates;
      hide Plays;
      hide End;
      hide Fits;
      hide Reached;
      hide WindowPart;
      if n == 0 {
        Starts(src, hi);
      } else {
        CooperatesSplit(sc.cfg, sc.init, Script(n - 1), WindowPart(n - 1));
        RunPlays(src, hi, n - 1);
        NextPlays(src, hi, n - 1, End(sc.cfg, sc.init, Script(n - 1)));
        PlaysAppend(sc.cfg, sc.init, Script(n - 1), WindowPart(n - 1));
      }
    }

    /** Undisturbed, table and cursor are those of all windows merged in order. */
    lemma {:induction false} Undisturbed(n: nat)
      requires Shaped() && n <= |leaves| && forall i :: others(i).None?
      ensures Identified(leaves[..n])
      ensures Stored(n) == (MergeAll(first.0, AllRows(leaves[..n], runId)), CursorAfter(first.1, leaves[..n]))
    {
      if n > 0 {
        Undisturbed(n - 1);
        StoredNext(n - 1);
        assert leaves[..n][..n - 1] == leaves[..n - 1];
        hide Stored;
        hide Found;
        hide WindowRows;
        hide MergeAll;
        hide CP.AdvanceCursor;
        MergeAllAppend(first.0, AllRows(leaves[..n - 1], runId), WindowRows(leaves[n - 1], runId));
      }
    }
  }

  lemma NoLeaves(start: int, leaves: seq<Window>)
    ensures WF.EndOf(start, leaves[..0]) == start
  {
  }

  lemma StartPlays(sc: Scenario, floor: int, full: bool, start: int, end: int)
    requires sc.run !in sc.init.runs
    requires start == CP.StartOf(sc.cfg, sc.init.cursor, floor, full) && end == CP.EndOf(sc.cfg, sc.init.now) && start <= end
    ensures var script := [Ours([CP.StartRun(sc.run, floor, full)])];
            && Plays(sc.cfg, sc.init, script) && End(sc.cfg, sc.init, script).src == sc.init.src
            && At(sc, End(sc.cfg, sc.init, script), start, end, start, sc.init.wh, sc.init.cursor, false)
  {
    var step := CP.StartRun(sc.run, floor, full);
    CP.LegalStep(sc.cfg, sc.init, step, []);
    assert [step] + [] == [step];
    OneChunk(sc.cfg, sc.init, Ours([step]));
  }

  /** The checkpoint an incremental run resumes from. */
  function ResumedFrom(cursor: CP.Cursor, fullRefresh: bool): Option<int> {
    if cursor.Timestamp? && !fullRefresh then Some(cursor.at) else None
  }

  /** An instant a run started at `now` may ask for: not before the configured start, not more than a
      lookback before the checkpoint it resumes from, and a safety margin behind the present second. */
  predicate MayAsk(cfg: CP.Config, now: int, floor: int, resumed: Option<int>, t: int) {
    floor <= t <= FloorSecond(now) - cfg.safety && (resumed.Some? ==> resumed.value - cfg.lookback <= t)
  }

  /** The run has something to ask for. */
  predicate DueAt(cfg: CP.Config, now: int, floor: int, resumed: Option<int>) {
    MayAsk(cfg, now, floor, resumed, FloorSecond(now) - cfg.safety)
  }

  /** Stamps the source is asked for: the same instants, in whole seconds. */
  predicate InRange(cfg: CP.Config, now: int, floor: int, resumed: Option<int>, stamp: int) {
    && FloorSecond(floor) <= stamp <= FloorSecond(FloorSecond(now) - cfg.safety)
    && (resumed.Some? ==> FloorSecond(resumed.value - cfg.lookback) <= stamp)
  }

  lemma DueMeansStarts(cfg: CP.Config, now: int, floor: int, cursor: CP.Cursor, full: bool)
    ensures var start, end := CP.StartOf(cfg, cursor, floor, full), CP.EndOf(cfg, now);
            && (DueAt(cfg, now, floor, ResumedFrom(cursor, full)) <==> start <= end)
            && (forall t :: MayAsk(cfg, now, floor, ResumedFrom(cursor, full), t) <==> start <= t <= end)
            && (forall t :: InRange(cfg, now, floor, ResumedFrom(cursor, full), t) ==> FloorSecond(start) <= t <= FloorSecond(end))
  {
  }

  /** Every row visible before the run began, in the range it had to read, is current in the
      warehouse. */
  ghost predicate CaughtUp(cfg: CP.Config, u: CP.State, now: int, floor: int, resumed: Option<int>) {
    forall k :: k in u.src && u.src[k].visibleAt < now && InRange(cfg, now, floor, resumed, u.src[k].stamp) ==>
      CP.Current(u, k)
  }

  /** What a run is shown to be: a behaviour of the step system that ends in the program's own
      table and cursor. So no row is skipped, and a run that went to its end has caught up, unless a
      sweep beside it marked a row that had come back. */
  ghost predicate Explained(sc: Scenario, script: seq<Chunk>, toItsEnd: bool, floor: int, resumed: Option<int>, table: Table, cursor: CP.Cursor) {
    && Plays(sc.cfg, sc.init, script)
    && var u := End(sc.cfg, sc.init, script);
    && u.wh == table && u.cursor == cursor
    && (CP.Inv(sc.cfg, sc.init) && CP.NoneHidden(sc.cfg, sc.init, Flat(script)) ==>
          CP.Inv(sc.cfg, u) && CP.NoSkip(sc.cfg, u) && (toItsEnd ==> CaughtUp(sc.cfg, u, sc.init.now, floor, resumed)))
  }

  lemma PlayedRunIsExplained(sc: Scenario, script: seq<Chunk>, floor: int, full: bool, position: int, table: Table, cursor: CP.Cursor,
                             moved: bool, toItsEnd: bool)
    requires Plays(sc.cfg, sc.init, script)
    requires var start, end := CP.StartOf(sc.cfg, sc.init.cursor, floor, full), CP.EndOf(sc.cfg, sc.init.now);
             && At(sc, End(sc.cfg, sc.init, script), start, end, position, table, cursor, moved)
             && (toItsEnd ==> moved && position == end)
    ensures Explained(sc, script, toItsEnd, floor, ResumedFrom(sc.init.cursor, full), table, cursor)
  {
    if CP.Inv(sc.cfg, sc.init) && CP.NoneHidden(sc.cfg, sc.init, Flat(script)) {
      CP.BehaviourKeeps(sc.cfg, sc.init, Flat(script));
      var u := End(sc.cfg, sc.init, script);
      DueMeansStarts(sc.cfg, sc.init.now, floor, sc.init.cursor, full);
      assert CP.RunOk(sc.cfg, u, u.runs[sc.run]);
    }
  }

  // --- a source that sits still, and nobody else about ------------------------------------

  ghost predicate Quiet(line: Timeline, listing: seq<Row>) {
    forall k: nat :: line.truth(k) == listing && line.before(k) == [] && line.after(k) == []
  }

  lemma QuietShrinks(line: Timeline, listing: seq<Row>, k: nat, m: nat, a: int, b: int)
    requires Quiet(line, listing)
    ensures OnlyShrinks(line.truth, k, m, a, b)
  {
    SubsequenceReflexive(Hits(listing, FloorSecond(a), FloorSecond(b)));
    forall j: nat | j < m - 1 ensures StepShrinks(line.truth, k, j, a, b) {
      assert line.truth(k + j) == listing == line.truth(k + (j + 1));
    }
  }

  lemma {:induction false} QuietTurns(cfg: CP.Config, t: CP.State, chunks: seq<Chunk>, listing: seq<Row>)
    requires Represents(listing, t.src)
    requires forall c :: c in chunks ==> c.Theirs? && c.steps == [] && (c.listing == None || c.listing == Some(listing))
    ensures Cooperates(cfg, t, chunks) && Plays(cfg, t, chunks) && End(cfg, t, chunks) == t
    decreases |chunks|
  {
    hide Represents;
    if chunks != [] {
      assert chunks[0] in chunks && forall c :: c in chunks[1..] ==> c in chunks;
      QuietTurns(cfg, t, chunks[1..], listing);
      assert [] + Flat(chunks[1..]) == Flat(chunks[1..]);
    }
  }

  lemma {:induction false} QuietOnward(line: Timeline, listing: seq<Row>, j: nat, k: nat)
    requires Quiet(line, listing)
    ensures forall c :: c in Onward(line, j, k) ==> c.Theirs? && c.steps == [] && (c.listing == None || c.listing == Some(listing))
  {
    if k > j { QuietOnward(line, listing, j, k - 1); }
  }

  lemma OursCooperates(cfg: CP.Config, t: CP.State, steps: seq<CP.Step>)
    ensures Cooperates(cfg, t, [Ours(steps)])
  {
    assert [Ours(steps)][1..] == [];
  }

  lemma FindsCooperates(cfg: CP.Config, t: CP.State)
    ensures Cooperates(cfg, t, [Finds(t.wh, t.cursor)])
    ensures Plays(cfg, t, [Finds(t.wh, t.cursor)]) && End(cfg, t, [Finds(t.wh, t.cursor)]) == t
  {
    assert [Finds(t.wh, t.cursor)][1..] == [];
    OneChunk(cfg, t, Finds(t.wh, t.cursor));
  }

  /** Cooperation and play, put together one part after another. */
  lemma Continue(cfg: CP.Config, t: CP.State, xs: seq<Chunk>, ys: seq<Chunk>)
    requires Cooperates(cfg, t, xs) && Plays(cfg, t, xs)
    requires Cooperates(cfg, End(cfg, t, xs), ys) && Plays(cfg, End(cfg, t, xs), ys)
    ensures Cooperates(cfg, t, xs + ys) && Plays(cfg, t, xs + ys) && End(cfg, t, xs + ys) == End(cfg, End(cfg, t, xs), ys)
  {
    CooperatesAppend(cfg, t, xs, ys);
    PlaysAppend(cfg, t, xs, ys);
  }

  lemma OursPlays(cfg: CP.Config, t: CP.State, steps: seq<CP.Step>)
    requires CP.Legal(cfg, t, steps)
    ensures Cooperates(cfg, t, [Ours(steps)]) && Plays(cfg, t, [Ours(steps)])
    ensures End(cfg, t, [Ours(steps)]) == CP.After(cfg, t, steps)
  {
    OursCooperates(cfg, t, steps);
    OneChunk(cfg, t, Ours(steps));
  }

  lemma QuietFetch(sc: Scenario, u: CP.State, w: Window, src: Source, k: nat, m: nat, next: nat, runId: Option<int>, listing: seq<Row>)
    requires Faithful(sc, src) && Quiet(sc.line, listing) && Represents(listing, u.src)
    requires next <= k && Pull(src, k, m, w) && m >= 1 && forall r :: r in w.rows ==> r.id.Some?
    requires Idle(u, sc.run, w.start) && w.start <= w.end <= u.runs[sc.run].end
    ensures var chunks := Approach(sc.line, next, k) + [Ours([CP.FetchLeaf(sc.run, w.end, WindowRows(w, runId))])];
            && Cooperates(sc.cfg, u, chunks) && Plays(sc.cfg, u, chunks)
            && var v := End(sc.cfg, u, chunks);
            && Holds(v, sc.run, w, runId) && v.src == u.src && v.wh == u.wh && v.cursor == u.cursor
  {
    QuietShrinks(sc.line, listing, k, m, w.start, w.end);
    assert sc.line.truth(k) == listing;
    AcceptedWindowIsSnapshot(src, sc.line.truth, k, m, w, u.src, runId);
    QuietOnward(sc.line, listing, next, k);
    QuietTurns(sc.cfg, u, Approach(sc.line, next, k), listing);
    hide Faithful;
    hide Pull;
    hide CP.IsSnapshot;
    hide WindowRows;
    hide Represents;
    hide Approach;
    hide Cooperates;
    hide Plays;
    hide End;
    FetchIsLegal(sc.cfg, u, sc.run, w, runId);
    hide CP.Legal;
    hide CP.After;
    OursPlays(sc.cfg, u, [CP.FetchLeaf(sc.run, w.end, WindowRows(w, runId))]);
    Continue(sc.cfg, u, Approach(sc.line, next, k), [Ours([CP.FetchLeaf(sc.run, w.end, WindowRows(w, runId))])]);
  }

  lemma QuietStore(sc: Scenario, v: CP.State, w: Window, k: nat, m: nat, runId: Option<int>, listing: seq<Row>)
    requires Quiet(sc.line, listing) && Represents(listing, v.src) && m >= 1 && forall r :: r in w.rows ==> r.id.Some?
    requires Holds(v, sc.run, w, runId)
    ensures var chunks := Meanwhile(sc.line, k, m) + [Finds(v.wh, v.cursor)] +
                          [Ours([CP.WriteBatch(sc.run, |WindowRows(w, runId)|), CP.Commit(sc.run)])];
            Cooperates(sc.cfg, v, chunks) && Plays(sc.cfg, v, chunks) && End(sc.cfg, v, chunks).src == v.src
  {
    QuietOnward(sc.line, listing, k, k + m - 1);
    QuietTurns(sc.cfg, v, Meanwhile(sc.line, k, m), listing);
    FindsCooperates(sc.cfg, v);
    hide Quiet;
    hide WindowRows;
    hide Represents;
    hide MergeAll;
    hide Meanwhile;
    hide Cooperates;
    hide Plays;
    hide End;
    Continue(sc.cfg, v, Meanwhile(sc.line, k, m), [Finds(v.wh, v.cursor)]);
    StoreIsLegal(sc.cfg, v, sc.run, w, runId);
    hide CP.Legal;
    hide CP.After;
    var store := [CP.WriteBatch(sc.run, |WindowRows(w, runId)|), CP.Commit(sc.run)];
    OursPlays(sc.cfg, v, store);
    Continue(sc.cfg, v, Meanwhile(sc.line, k, m) + [Finds(v.wh, v.cursor)], [Ours(store)]);
  }

  lemma QuietWindowCooperates(sc: Scenario, u: CP.State, w: Window, src: Source, k: nat, m: nat, next: nat, runId: Option<int>,
                              listing: seq<Row>)
    requires Faithful(sc, src) && Quiet(sc.line, listing) && Represents(listing, u.src)
    requires next <= k && Pull(src, k, m, w) && m >= 1 && forall r :: r in w.rows ==> r.id.Some?
    requires Idle(u, sc.run, w.start) && w.start <= w.end <= u.runs[sc.run].end
    ensures var chunks := WindowScript(sc, w, k, m, next, u.wh, u.cursor, runId);
            Cooperates(sc.cfg, u, chunks) && Plays(sc.cfg, u, chunks) && End(sc.cfg, u, chunks).src == u.src
  {
    hide Faithful;
    hide Quiet;
    hide Pull;
    hide Represents;
    hide WindowRows;
    hide Approach;
    hide Meanwhile;
    hide Cooperates;
    hide Plays;
    hide End;
    var a := Approach(sc.line, next, k) + [Ours([CP.FetchLeaf(sc.run, w.end, WindowRows(w, runId))])];
    var b := Meanwhile(sc.line, k, m) + [Finds(u.wh, u.cursor)] +
             [Ours([CP.WriteBatch(sc.run, |WindowRows(w, runId)|), CP.Commit(sc.run)])];
    QuietFetch(sc, u, w, src, k, m, next, runId, listing);
    QuietStore(sc, End(sc.cfg, u, a), w, k, m, runId, listing);
    Continue(sc.cfg, u, a, b);
    assert a + b == WindowScript(sc, w, k, m, next, u.wh, u.cursor, runId);
  }

  lemma QuietNext(r: RunRecord, src: Source, hi: nat, i: nat, u: CP.State, listing: seq<Row>)
    requires r.Fits(src, hi) && i < |r.leaves| && r.Shaped() && r.others(i).None?
    requires Quiet(r.sc.line, listing) && Represents(listing, u.src) && r.Reached(u, i)
    ensures Cooperates(r.sc.cfg, u, r.WindowPart(i)) && Plays(r.sc.cfg, u, r.WindowPart(i))
    ensures End(r.sc.cfg, u, r.WindowPart(i)).src == u.src
  {
    r.Leaf(src, hi, i);
    hide RunRecord.Fits;
    hide Faithful;
    hide Pull;
    hide OnlyShrinks;
    hide Cooperates;
    hide Plays;
    hide End;
    hide WindowScript;
    hide Quiet;
    hide Represents;
    hide RunRecord.Stored;
    hide RunRecord.Position;
    QuietWindowCooperates(r.sc, u, r.leaves[i], src, r.pulls[i].0, r.pulls[i].1, NextRequest(r.lo, r.pulls, i), r.runId, listing);
  }

  /** The hypotheses can be met: with a source nobody modifies and nobody else about, the
      environment keeps its side throughout. */
  lemma {:induction false} QuietRunCooperates(r: RunRecord, src: Source, hi: nat, n: nat, listing: seq<Row>)
    requires r.Fits(src, hi) && r.Shaped() && n <= |r.leaves|
    requires Quiet(r.sc.line, listing) && Represents(listing, r.sc.init.src) && forall i :: r.others(i).None?
    ensures Cooperates(r.sc.cfg, r.sc.init, r.Script(n)) && Plays(r.sc.cfg, r.sc.init, r.Script(n))
    ensures End(r.sc.cfg, r.sc.init, r.Script(n)).src == r.sc.init.src
  {
    hide Cooperates;
    hide Plays;
    hide End;
    hide RunRecord.Fits;
    hide RunRecord.Reached;
    hide RunRecord.WindowPart;
    hide Represents;
    hide Quiet;
    if n == 0 {
      r.Starts(src, hi);
      OursCooperates(r.sc.cfg, r.sc.init, [CP.StartRun(r.sc.run, r.floor, r.full)]);
    } else {
      QuietRunCooperates(r, src, hi, n - 1, listing);
      r.RunPlays(src, hi, n - 1);
      QuietNext(r, src, hi, n - 1, End(r.sc.cfg, r.sc.init, r.Script(n - 1)), listing);
      Continue(r.sc.cfg, r.sc.init, r.Script(n - 1), r.WindowPart(n - 1));
    }
  }

  predicate Unmarked(chunks: seq<Chunk>) {
    forall c, step :: c in chunks && step in StepsOf(c) ==> !step.Mark?
  }

  lemma {:induction false} UnmarkedSteps(chunks: seq<Chunk>)
    requires Unmarked(chunks)
    ensures forall step :: step in Flat(chunks) ==> !step.Mark?
  {
    if chunks != [] {
      assert chunks[0] in chunks && forall c :: c in chunks[1..] ==> c in chunks;
      UnmarkedSteps(chunks[1..]);
    }
  }

  lemma UnmarkedJoin(xs: seq<Chunk>, ys: seq<Chunk>)
    requires Unmarked(xs) && Unmarked(ys)
    ensures Unmarked(xs + ys)
  {
  }

  lemma QuietWindowIsUnmarked(r: RunRecord, i: nat, listing: seq<Row>)
    requires r.Shaped() && i < |r.leaves| && Quiet(r.sc.line, listing)
    ensures Unmarked(r.WindowPart(i))
  {
    hide Quiet;
    hide WindowRows;
    hide RunRecord.Found;
    var w, k, m, next := r.leaves[i], r.pulls[i].0, r.pulls[i].1, NextRequest(r.lo, r.pulls, i);
    var fetch := [Ours([CP.FetchLeaf(r.sc.run, w.end, WindowRows(w, r.runId))])];
    var store := [Ours([CP.WriteBatch(r.sc.run, |WindowRows(w, r.runId)|), CP.Commit(r.sc.run)])];
    var look := [Finds(r.Found(i).0, r.Found(i).1)];
    QuietOnward(r.sc.line, listing, next, k);
    QuietOnward(r.sc.line, listing, k, k + m - 1);
    QuietEnds(r.sc.line, listing, next, k + m - 1);
    var a, c := Approach(r.sc.line, next, k), Meanwhile(r.sc.line, k, m);
    assert Unmarked(a) && Unmarked(c) && Unmarked(fetch) && Unmarked(look) && Unmarked(store);
    assert r.WindowPart(i) == a + fetch + c + look + store;
    hide Unmarked;
    UnmarkedJoin(a, fetch);
    UnmarkedJoin(a + fetch, c);
    UnmarkedJoin(a + fetch + c, look);
    UnmarkedJoin(a + fetch + c + look, store);
  }

  lemma QuietEnds(line: Timeline, listing: seq<Row>, j: nat, k: nat)
    requires Quiet(line, listing)
    ensures line.before(j) == [] && line.after(k) == []
  {
  }

  lemma {:induction false} QuietScriptIsUnmarked(r: RunRecord, n: nat, listing: seq<Row>)
    requires r.Shaped() && n <= |r.leaves| && Quiet(r.sc.line, listing)
    ensures Unmarked(r.Script(n))
  {
    hide RunRecord.WindowPart;
    if n > 0 {
      hide Unmarked;
      QuietScriptIsUnmarked(r, n - 1, listing);
      QuietWindowIsUnmarked(r, n - 1, listing);
      UnmarkedJoin(r.Script(n - 1), r.WindowPart(n - 1));
    }
  }

  /** The run's source holds this listing throughout, nobody else is about, and the step system
      begins where the program does. */
  ghost predicate StillAndAlone(r: RunRecord, src: Source, cfg: CP.Config, now: int, listing: seq<Row>) {
    && Fixed(src, listing) && src.pageSize > 0 && Quiet(r.sc.line, listing) && Represents(listing, r.sc.init.src)
    && (forall i :: r.others(i).None?) && r.sc.cfg == cfg && r.sc.init.now == now
    && r.first == (r.sc.init.wh, r.sc.init.cursor) && r.sc.run !in r.sc.init.runs
  }

  /** The identified rows of the listing that were visible before `now` and in the range to be read
      are in the table as they stand at the source. */
  ghost predicate Loaded(table: Table, listing: seq<Row>, src: map<Key, CP.Version>, cfg: CP.Config, now: int, floor: int,
                         resumed: Option<int>)
    requires Represents(listing, src)
  {
    forall row :: row in listing && row.id.Some? && src[[row.id.value]].visibleAt < now &&
                  InRange(cfg, now, floor, resumed, row.stamp) ==>
      [row.id.value] in table &&
      View(table[[row.id.value]]) == Content(Some(FloorSecond(row.stamp)), true, row.payload)
  }

  /** The whole-run theorem without a hypothesis about anybody else. */
  ghost predicate ExplainedAlone(r: RunRecord, toItsEnd: bool, listing: seq<Row>) {
    && r.Shaped()
    && var n := |r.leaves|;
    && Explained(r.sc, r.Script(n), toItsEnd, r.floor, r.Resumed(), r.Stored(n).0, r.Stored(n).1)
    && CP.NoneHidden(r.sc.cfg, r.sc.init, Flat(r.Script(n)))
    && Represents(listing, r.sc.init.src)
    && (CP.Inv(r.sc.cfg, r.sc.init) && toItsEnd ==>
          Loaded(r.Stored(n).0, listing, r.sc.init.src, r.sc.cfg, r.sc.init.now, r.floor, r.Resumed()))
  }

  lemma CaughtUpIsLoaded(u: CP.State, listing: seq<Row>, cfg: CP.Config, now: int, floor: int, resumed: Option<int>)
    requires Represents(listing, u.src) && CaughtUp(cfg, u, now, floor, resumed)
    ensures Loaded(u.wh, listing, u.src, cfg, now, floor, resumed)
  {
  }

  lemma StillIsTruthful(src: Source, line: Timeline, listing: seq<Row>)
    requires Fixed(src, listing) && Quiet(line, listing)
    ensures Truthful(src, line.truth)
  {
    hide Serve;
    var truth := (k: nat) => listing;
    assert forall k: nat :: line.truth(k) == truth(k);
  }

  lemma StillRunFits(r: RunRecord, src: Source, hi: nat, listing: seq<Row>)
    requires Identified(r.leaves) && Pulled(src, r.lo, hi, r.leaves, r.pulls) && r.Start() <= r.Finish()
    requires Chain(r.Start(), r.leaves, WF.EndOf(r.Start(), r.leaves)) && WF.EndOf(r.Start(), r.leaves) <= r.Finish()
    requires StillAndAlone(r, src, r.sc.cfg, r.sc.init.now, listing)
    ensures r.Shaped() && r.Scene(src) && r.Fits(src, hi)
  {
    hide Pull;
    hide OnlyShrinks;
    hide Chain;
    hide Fixed;
    hide Truthful;
    hide Represents;
    StillIsTruthful(src, r.sc.line, listing);
    forall i | 0 <= i < |r.leaves| && r.leaves[i].pagedFallback
      ensures OnlyShrinks(r.sc.line.truth, r.pulls[i].0, r.pulls[i].1, r.leaves[i].start, r.leaves[i].end)
    {
      QuietShrinks(r.sc.line, listing, r.pulls[i].0, r.pulls[i].1, r.leaves[i].start, r.leaves[i].end);
    }
  }

  /** A run alone with a still source meets every hypothesis. */
  lemma StillRunIsExplained(r: RunRecord, src: Source, hi: nat, toItsEnd: bool, listing: seq<Row>)
    requires Identified(r.leaves) && Pulled(src, r.lo, hi, r.leaves, r.pulls) && r.Start() <= r.Finish()
    requires Chain(r.Start(), r.leaves, WF.EndOf(r.Start(), r.leaves)) && WF.EndOf(r.Start(), r.leaves) <= r.Finish()
    requires StillAndAlone(r, src, r.sc.cfg, r.sc.init.now, listing)
    requires toItsEnd ==> r.leaves != [] && WF.EndOf(r.Start(), r.leaves) == r.Finish()
    ensures ExplainedAlone(r, toItsEnd, listing)
  {
    StillRunFits(r, src, hi, listing);
    hide Chain;
    hide Pulled;
    hide Represents;
    hide Fixed;
    hide Faithful;
    hide RunRecord.Fits;
    hide RunRecord.Stored;
    hide RunRecord.Script;
    hide Explained;
    var n := |r.leaves|;
    QuietRunCooperates(r, src, hi, n, listing);
    QuietScriptIsUnmarked(r, n, listing);
    UnmarkedSteps(r.Script(n));
    CP.UnmarkedHidesNone(r.sc.cfg, r.sc.init, Flat(r.Script(n)));
    RunIsExplained(r, src, hi, toItsEnd);
    LoadsItsRange(r, toItsEnd, listing);
  }

  lemma LoadsItsRange(r: RunRecord, toItsEnd: bool, listing: seq<Row>)
    requires r.Shaped() && Represents(listing, r.sc.init.src)
    requires var n := |r.leaves|;
             && Explained(r.sc, r.Script(n), toItsEnd, r.floor, r.Resumed(), r.Stored(n).0, r.Stored(n).1)
             && CP.NoneHidden(r.sc.cfg, r.sc.init, Flat(r.Script(n)))
             && End(r.sc.cfg, r.sc.init, r.Script(n)).src == r.sc.init.src
    ensures CP.Inv(r.sc.cfg, r.sc.init) && toItsEnd ==>
              Loaded(r.Stored(|r.leaves|).0, listing, r.sc.init.src, r.sc.cfg, r.sc.init.now, r.floor, r.Resumed())
  {
    hide CP.Inv;
    hide CP.NoneHidden;
    hide CP.NoSkip;
    hide RunRecord.Script;
    hide RunRecord.Stored;
    hide Represents;
    hide CaughtUp;
    hide Loaded;
    hide End;
    hide Plays;
    if CP.Inv(r.sc.cfg, r.sc.init) && toItsEnd {
      var u := End(r.sc.cfg, r.sc.init, r.Script(|r.leaves|));
      CaughtUpIsLoaded(u, listing, r.sc.cfg, r.sc.init.now, r.floor, r.Resumed());
    }
  }

  /** One page that carries everything the listing holds between two instants. */
  lemma WholePage(listing: seq<Row>, src: Source, k: nat, start: int, end: int) returns (w: Window)
    requires Fixed(src, listing) && start <= end && |Hits(listing, FloorSecond(start), FloorSecond(end))| <= src.pageSize
    ensures w.start == start && w.end == end && Pull(src, k, 1, w)
  {
    hide PagedPull;
    hide Hits;
    hide Dedup;
    hide Unmappable;
    hide DistinctIds;
    hide FloorSecond;
    PageIsServed(listing, src, k, start, end);
    hide Fixed;
    hide Source.Fetch;
    hide Serve;
    var hits := Hits(listing, FloorSecond(start), FloorSecond(end));
    DedupAccounting(hits);
    w := Window(start, end, Dedup(hits), |hits|, |hits|, Unmappable(hits), 1, false, false);
  }

  lemma PageIsServed(listing: seq<Row>, src: Source, k: nat, start: int, end: int)
    requires Fixed(src, listing) && start <= end && |Hits(listing, FloorSecond(start), FloorSecond(end))| <= src.pageSize
    ensures var hits := Hits(listing, FloorSecond(start), FloorSecond(end));
            PullPage(src, k, start, end, 0) == Success(Page(|hits|, hits)) && DistinctIds(hits)
  {
    hide Hits;
    hide DistinctIds;
    FloorSecondMonotone(start, end);
    hide FloorSecond;
    HitsFacts(listing, FloorSecond(start), FloorSecond(end));
    var truth := (n: nat) => listing;
    var hits := Hits(truth(k), FloorSecond(start), FloorSecond(end));
    assert src.respond(k, FloorSecond(start), FloorSecond(end), 1, src.pageSize)
        == Serve(truth(k), FloorSecond(start), FloorSecond(end), 1, src.pageSize);
    assert Slice(hits, 0, src.pageSize) == hits;
  }

  /** A run whose whole range came in one page. */
  function OnePageRun(sc: Scenario, floor: int, full: bool, w: Window): RunRecord {
    RunRecord(sc, floor, full, 0, [w], [(0, 1)], (sc.init.wh, sc.init.cursor), (i: nat) => None, None)
  }

  lemma OnePageRunFacts(sc: Scenario, floor: int, full: bool, w: Window, src: Source)
    requires Pull(src, 0, 1, w) && w.start <= w.end
    ensures var r := OnePageRun(sc, floor, full, w);
            && Identified(r.leaves) && Pulled(src, 0, 1, r.leaves, r.pulls)
            && WF.EndOf(w.start, r.leaves) == w.end && Chain(w.start, r.leaves, w.end)
  {
    AcceptedWindowAccounts(src, 0, 1, w);
    hide Pull;
    assert [w][1..] == [];
  }

  /** Such runs exist around any listing, from any state a run may start from: one that fetches its
      whole range, keeps every hypothesis and goes to its end. */
  lemma SettingsExist(listing: seq<Row>, sc: Scenario, floor: int, full: bool)
    requires DistinctIds(listing) && Quiet(sc.line, listing) && sc.run !in sc.init.runs
    requires Represents(listing, sc.init.src) && CP.StartOf(sc.cfg, sc.init.cursor, floor, full) <= CP.EndOf(sc.cfg, sc.init.now)
    ensures exists r: RunRecord, src ::
              && r.sc == sc && r.floor == floor && r.full == full && r.leaves != [] && r.Fits(src, 1)
              && WF.EndOf(r.Start(), r.leaves) == r.Finish() && ExplainedAlone(r, true, listing)
  {
    hide Pull;
    hide Pulled;
    hide Chain;
    hide WF.EndOf;
    hide Fixed;
    hide Quiet;
    hide Hits;
    hide Represents;
    hide ExplainedAlone;
    hide RunRecord.Fits;
    hide RunRecord.Scene;
    hide RunRecord.Shaped;
    hide CP.StartOf;
    hide CP.EndOf;
    var start, end := CP.StartOf(sc.cfg, sc.init.cursor, floor, full), CP.EndOf(sc.cfg, sc.init.now);
    var src := StillSourceExists(listing, |Hits(listing, FloorSecond(start), FloorSecond(end))| + 1);
    var w := WholePage(listing, src, 0, start, end);
    var r := OnePageRun(sc, floor, full, w);
    OnePageRunFacts(sc, floor, full, w, src);
    StillRunFits(r, src, 1, listing);
    StillRunIsExplained(r, src, 1, true, listing);
  }

  // --- the program ------------------------------------------------------------------------

  /** What the HTTP layer's counter has grown by since request `first`, once the fetcher has sent
      the requests behind these windows. `http(k)` is its reading after `k` requests; retries and
      unanswered attempts make it differ from `k`. */
  function Spent(http: nat -> nat, first: nat, committed: seq<Window>): int {
    http(first + SumCalls(committed)) - http(first)
  }

  /** A capped run goes on below its cap, and is deferred exactly once it has reached it. */
  predicate StopsAtCap(committed: seq<Window>, cap: Option<nat>, deferred: bool, http: nat -> nat, first: nat) {
    && (deferred <==> cap.Some? && committed != [] && Spent(http, first, committed) >= cap.value)
    && (cap.Some? && |committed| > 1 ==> Spent(http, first, committed[..|committed| - 1]) < cap.value)
  }

  lemma SomePulled(src: Source, lo: nat, hi: nat, leaves: seq<Window>, pulls: seq<(nat, nat)>, n: nat)
    requires Pulled(src, lo, hi, leaves, pulls) && n <= |leaves|
    ensures Pulled(src, lo, hi, leaves[..n], pulls[..n])
  {
    hide Pull;
    forall i: nat | i < n
      ensures Pull(src, pulls[..n][i].0, pulls[..n][i].1, leaves[..n][i]) && pulls[..n][i].1 >= 1
      ensures NextRequest(lo, pulls[..n], i) <= pulls[..n][i].0 && pulls[..n][i].0 + pulls[..n][i].1 <= hi
    {
      assert NextRequest(lo, pulls[..n], i) == NextRequest(lo, pulls, i);
    }
  }

  lemma {:induction false} SomeAccepted(src: Source, lo: nat, hi: nat, leaves: seq<Window>, n: nat)
    requires AllAccepted(src, lo, hi, leaves) && n <= |leaves|
    ensures AllAccepted(src, lo, hi, leaves[..n])
    decreases n
  {
    hide Pull;
    if n > 0 {
      var k: nat, m: nat :| AcceptedFirst(src, lo, hi, leaves, k, m);
      SomeAccepted(src, k + m, hi, leaves[1..], n - 1);
      assert leaves[..n][1..] == leaves[1..][..n - 1];
      assert AcceptedFirst(src, lo, hi, leaves[..n], k, m);
    }
  }

  /** The theorem about a finished run, from its record. */
  lemma RunIsExplained(r: RunRecord, src: Source, hi: nat, toItsEnd: bool)
    requires Identified(r.leaves) && Pulled(src, r.lo, hi, r.leaves, r.pulls)
    requires Chain(r.Start(), r.leaves, WF.EndOf(r.Start(), r.leaves)) && WF.EndOf(r.Start(), r.leaves) <= r.Finish()
    requires r.Scene(src) && r.Start() <= r.Finish() && r.Shaped()
    requires Cooperates(r.sc.cfg, r.sc.init, r.Script(|r.leaves|))
    requires toItsEnd ==> r.leaves != [] && WF.EndOf(r.Start(), r.leaves) == r.Finish()
    ensures var n := |r.leaves|;
            Explained(r.sc, r.Script(n), toItsEnd, r.floor, r.Resumed(), r.Stored(n).0, r.Stored(n).1)
  {
    var n := |r.leaves|;
    assert r.Fits(src, hi);
    assert r.leaves[..n] == r.leaves;
    hide Faithful;
    hide Pulled;
    hide Cooperates;
    hide Plays;
    hide End;
    hide Explained;
    hide At;
    r.RunPlays(src, hi, n);
    PlayedRunIsExplained(r.sc, r.Script(n), r.floor, r.full, r.Position(n), r.Stored(n).0, r.Stored(n).1, n > 0, toItsEnd);
  }

  /** The whole-run theorem, for a run as recorded: if everything around it keeps to the step
      system, it is explained. */
  ghost predicate ExplainedIfAllCooperate(r: RunRecord, src: Source, cfg: CP.Config, now: int, toItsEnd: bool) {
    r.Shaped() && r.IsDue() && r.sc.cfg == cfg && r.sc.init.now == now && r.Scene(src) &&
    Cooperates(cfg, r.sc.init, r.Script(|r.leaves|)) ==>
      Explained(r.sc, r.Script(|r.leaves|), toItsEnd, r.floor, r.Resumed(), r.Stored(|r.leaves|).0, r.Stored(|r.leaves|).1)
  }

  lemma RecordedRunIsExplained(r: RunRecord, src: Source, hi: nat, cfg: CP.Config, now: int, start: int, end: int, toItsEnd: bool)
    requires Identified(r.leaves) && Pulled(src, r.lo, hi, r.leaves, r.pulls)
    requires start == CP.StartOf(cfg, r.first.1, r.floor, r.full) && end == CP.EndOf(cfg, now)
    requires Chain(start, r.leaves, WF.EndOf(start, r.leaves)) && (start <= end ==> WF.EndOf(start, r.leaves) <= end)
    requires toItsEnd ==> r.leaves != [] && WF.EndOf(start, r.leaves) == end
    ensures ExplainedIfAllCooperate(r, src, cfg, now, toItsEnd)
  {
    hide Faithful;
    hide Pulled;
    hide Cooperates;
    hide Explained;
    hide Chain;
    hide WF.EndOf;
    hide RunRecord.Script;
    hide RunRecord.Stored;
    if r.Shaped() && r.IsDue() && r.sc.cfg == cfg && r.sc.init.now == now && r.Scene(src) &&
       Cooperates(cfg, r.sc.init, r.Script(|r.leaves|)) {
      DueMeansStarts(cfg, now, r.floor, r.sc.init.cursor, r.full);
      RunIsExplained(r, src, hi, toItsEnd);
    }
  }

  ghost predicate ExplainedIfAlone(r: RunRecord, src: Source, cfg: CP.Config, now: int, listing: seq<Row>, toItsEnd: bool) {
    StillAndAlone(r, src, cfg, now, listing) && r.IsDue() ==> ExplainedAlone(r, toItsEnd, listing)
  }

  lemma RunAloneIsExplained(r: RunRecord, src: Source, hi: nat, cfg: CP.Config, now: int, start: int, end: int, toItsEnd: bool,
                            listing: seq<Row>)
    requires Identified(r.leaves) && Pulled(src, r.lo, hi, r.leaves, r.pulls)
    requires start == CP.StartOf(cfg, r.first.1, r.floor, r.full) && end == CP.EndOf(cfg, now)
    requires Chain(start, r.leaves, WF.EndOf(start, r.leaves)) && (start <= end ==> WF.EndOf(start, r.leaves) <= end)
    requires toItsEnd ==> r.leaves != [] && WF.EndOf(start, r.leaves) == end
    ensures ExplainedIfAlone(r, src, cfg, now, listing, toItsEnd)
  {
    hide Pulled;
    hide Fixed;
    hide Quiet;
    hide Represents;
    hide ExplainedAlone;
    hide Chain;
    hide WF.EndOf;
    hide RunRecord.Script;
    hide RunRecord.Stored;
    if StillAndAlone(r, src, cfg, now, listing) && r.IsDue() {
      DueMeansStarts(cfg, now, r.floor, r.sc.init.cursor, r.full);
      StillRunIsExplained(r, src, hi, toItsEnd, listing);
    }
  }

  /** The range a run reads, end to end: its windows lie in it, a run with nothing to ask for does
      nothing, any other commits something unless it fails, and one that is neither failed nor
      deferred moves the checkpoint to the last second it may ask for. */
  ghost predicate Ranged(cfg: CP.Config, now: int, floor: int, resumed: Option<int>, committed: seq<Window>,
                         failed: bool, deferred: bool, cursor: CP.Cursor) {
    && (forall w :: w in committed ==> MayAsk(cfg, now, floor, resumed, w.start) && MayAsk(cfg, now, floor, resumed, w.end))
    && (!DueAt(cfg, now, floor, resumed) ==> committed == [] && !failed)
    && (DueAt(cfg, now, floor, resumed) && !failed ==> committed != [])
    && (committed != [] && !failed && !deferred ==>
          cursor.Timestamp? && cursor.at >= FloorSecond(FloorSecond(now) - cfg.safety))
  }

  class TimestampSync {
    const fetcher: WF.WindowFetcher
    const writer: DestinationWriter
    const state: StreamState

    constructor (fetcher: WF.WindowFetcher, writer: DestinationWriter, state: StreamState)
      ensures this.fetcher == fetcher && this.writer == writer && this.state == state
    {
      this.fetcher := fetcher;
      this.writer := writer;
      this.state := state;
    }

    /** Write, reconcile and only then commit one window. */
    method ProcessWindow(w: Window, ghost k: nat, ghost m: nat)
      requires Pull(fetcher.source, k, m, w)
      requires forall r :: r in w.rows ==> r.id.Some?
      modifies writer.db, state
      ensures writer.db.table == MergeAll(old(writer.db.table), WindowRows(w, writer.runId))
      ensures state.cursor == CP.AdvanceCursor(old(state.cursor), w.end)
    {
      var written, problems := StoreWindow(writer, w, fetcher.source, k, m);
      assert problems == [];
      state.CommitStateTs(w.end);
    }

    /** Store window `i` over whatever other processes left in the table and the stored cursor. */
    method StoreNext(w: Window, i: nat, others: Others, ghost r: RunRecord, ghost hi: nat)
      requires r.Shaped() && Pulled(fetcher.source, r.lo, hi, r.leaves, r.pulls) && i < |r.leaves| && r.leaves[i] == w
      requires r.others == others && r.runId == writer.runId && (writer.db.table, state.cursor) == r.Stored(i)
      modifies writer.db, state
      ensures (writer.db.table, state.cursor) == r.Stored(i + 1)
    {
      NextWindow(r, hi, i);
      r.StoredNext(i);
      hide Pull;
      hide Pulled;
      hide Identified;
      hide MergeAll;
      hide WindowRows;
      hide CP.AdvanceCursor;
      hide RunRecord.Stored;
      hide RunRecord.Found;
      if others(i).Some? {
        writer.db.table, state.cursor := others(i).value.0, others(i).value.1;
      }
      ProcessWindow(w, r.pulls[i].0, r.pulls[i].1);
    }

    /** Persist windows in order until the call cap is spent. */
    method Drain(leaves: seq<Window>, cap: Option<nat>, http: nat -> nat, first: nat, others: Others,
                 ghost r: RunRecord, ghost hi: nat)
      returns (n: nat, deferred: bool)
      requires r.leaves == leaves && r.Shaped() && Pulled(fetcher.source, r.lo, hi, leaves, r.pulls)
      requires r.first == (writer.db.table, state.cursor) && r.others == others && r.runId == writer.runId
      modifies writer.db, state
      ensures n <= |leaves| && (!deferred ==> n == |leaves|)
      ensures (writer.db.table, state.cursor) == r.Stored(n)
      ensures StopsAtCap(leaves[..n], cap, deferred, http, first)
    {
      hide SumCalls;
      hide RunRecord.Stored;
      hide RunRecord.Shaped;
      hide Pulled;
      hide StopsAtCap;
      n, deferred := 0, false;
      var spent := 0;
      r.StoredFirst();
      NoCalls(leaves, cap, http, first);
      while n < |leaves| && !deferred
        invariant n <= |leaves| && spent == SumCalls(leaves[..n])
        invariant (writer.db.table, state.cursor) == r.Stored(n)
        invariant StopsAtCap(leaves[..n], cap, deferred, http, first)
        invariant cap.Some? && n > 0 && !deferred ==> http(first + spent) - http(first) < cap.value
      {
        CallsNext(leaves, n, cap, http, first);
        StoreNext(leaves[n], n, others, r, hi);
        spent := spent + leaves[n].apiCalls;
        n := n + 1;
        deferred := cap.Some? && http(first + spent) - http(first) >= cap.value;
      }
    }

    lemma NextWindow(r: RunRecord, hi: nat, i: nat)
      requires r.Shaped() && Pulled(fetcher.source, r.lo, hi, r.leaves, r.pulls) && i < |r.leaves|
      ensures Pull(fetcher.source, r.pulls[i].0, r.pulls[i].1, r.leaves[i])
      ensures forall row :: row in r.leaves[i].rows ==> row.id.Some?
    {
    }

    lemma CallsNext(leaves: seq<Window>, n: nat, cap: Option<nat>, http: nat -> nat, first: nat)
      requires n < |leaves| && (cap.Some? && n > 0 ==> http(first + SumCalls(leaves[..n])) - http(first) < cap.value)
      ensures SumCalls(leaves[..n + 1]) == SumCalls(leaves[..n]) + leaves[n].apiCalls
      ensures var over := cap.Some? && http(first + SumCalls(leaves[..n + 1])) - http(first) >= cap.value;
              StopsAtCap(leaves[..n + 1], cap, over, http, first)
    {
      hide SumCalls;
      assert leaves[..n + 1] == leaves[..n] + [leaves[n]];
      assert leaves[..n + 1][..n] == leaves[..n];
      SumCallsAppend(leaves[..n], leaves[n]);
    }

    lemma NoCalls(leaves: seq<Window>, cap: Option<nat>, http: nat -> nat, first: nat)
      ensures SumCalls(leaves[..0]) == 0 && StopsAtCap(leaves[..0], cap, false, http, first)
    {
    }

    /** Sync the stream. `committed` is the part of the fetcher's windows that was persisted: all
        of them unless the call cap stopped the run at a checkpoint. Whatever a truthful source does
        meanwhile, and whatever other runs, sweeps and resets do to the shared table and cursor
        between our windows: as long as they only take steps the step system allows, the run is a
        behaviour of that system, and as long as no sweep marks a row that has come back, no row is
        skipped, and a run that ended neither deferred nor failed has caught up. Alone with a still
        source it never fails, and nothing else is asked. */
    method SyncStreamTs(now: int, floor: int, fullRefresh: bool, cap: Option<nat>, cfg: CP.Config, http: nat -> nat,
                        others: Others, ghost sc: Scenario, ghost listing: seq<Row>)
      returns (committed: seq<Window>, failure: Option<WF.Error>, deferred: bool, ghost r: RunRecord, ghost tops: seq<WF.Top>)
      requires fetcher.Valid() && fetcher.calls == fetcher.callsReported
      modifies fetcher, writer.db, state
      ensures r == RunRecord(sc, floor, fullRefresh, old(fetcher.calls), committed, r.pulls,
                             (old(writer.db.table), old(state.cursor)), others, writer.runId)
      ensures Identified(committed) && Pulled(fetcher.source, old(fetcher.calls), fetcher.calls, committed, r.pulls) && r.Shaped()
      ensures AllAccepted(fetcher.source, old(fetcher.calls), fetcher.calls, committed)
      ensures var start, end := CP.StartOf(cfg, old(state.cursor), floor, fullRefresh), CP.EndOf(cfg, now);
              && Chain(start, committed, WF.EndOf(start, committed))
              && (start > end ==> committed == [] && failure.None?)
              && (start <= end && failure.None? ==> committed != [])
              && (start <= end && failure.None? && !deferred ==> WF.EndOf(start, committed) == end)
      ensures Ranged(cfg, now, floor, ResumedFrom(old(state.cursor), fullRefresh), committed, failure.Some?, deferred, state.cursor)
      ensures var start, end := CP.StartOf(cfg, old(state.cursor), floor, fullRefresh), CP.EndOf(cfg, now);
              fetcher.Paced(start, end, if ResumedFrom(old(state.cursor), fullRefresh).Some? then 0 else DAY, tops)
      ensures (writer.db.table, state.cursor) == r.Stored(|committed|)
      ensures (forall i :: others(i).None?) ==>
                && writer.db.table == MergeAll(old(writer.db.table), AllRows(committed, writer.runId))
                && state.cursor == CursorAfter(old(state.cursor), committed)
      ensures StopsAtCap(committed, cap, deferred, http, old(fetcher.calls)) && (deferred ==> failure.None?)
      ensures Fixed(fetcher.source, listing) ==> failure.None?
      ensures ExplainedIfAllCooperate(r, fetcher.source, cfg, now, committed != [] && !deferred && failure.None?)
      ensures ExplainedIfAlone(r, fetcher.source, cfg, now, listing, committed != [] && !deferred && failure.None?)
    {
      hide Fixed;
      hide MergeAll;
      hide AllAccepted;
      hide Pulled;
      hide Cooperates;
      hide ExplainedIfAllCooperate;
      hide ExplainedIfAlone;
      hide Ranged;
      hide RunRecord.Stored;
      hide WF.WindowFetcher.Paced;
      hide WF.WindowFetcher.SpanBefore;
      var start, end := CP.StartOf(cfg, state.cursor, floor, fullRefresh), CP.EndOf(cfg, now);
      ghost var lo, first := fetcher.calls, (writer.db.table, state.cursor);
      committed, failure, deferred, tops := [], None, false, [];
      fetcher.NothingReported(start, end, if ResumedFrom(state.cursor, fullRefresh).Some? then 0 else DAY);
      WF.NothingAccepted(fetcher.source, lo, lo);
      r := RunRecord(sc, floor, fullRefresh, lo, [], [], first, others, writer.runId);
      NothingDone(r, fetcher.source, lo, cap, http);
      if start > end {
        RecordedRunIsExplained(r, fetcher.source, lo, cfg, now, start, end, false);
        RunAloneIsExplained(r, fetcher.source, lo, cfg, now, start, end, false, listing);
        IsRanged(r, cfg, now, false, deferred);
        return;
      }
      hide Chain;
      hide AllRows;
      hide CursorAfter;
      hide WF.EndOf;
      hide StopsAtCap;
      var incremental := state.cursor.Timestamp? && !fullRefresh;
      var leaves, fault;
      ghost var nodes;
      var calls0 := fetcher.calls;
      leaves, fault, nodes, tops := fetcher.Windows(start, end, if incremental then 0 else DAY, listing, 0);
      AllIdentified(fetcher.source, lo, fetcher.calls, leaves);
      ghost var pulls := PullsOf(fetcher.source, lo, fetcher.calls, leaves);
      ghost var all := RunRecord(sc, floor, fullRefresh, lo, leaves, pulls, first, others, writer.runId);
      PulledShapes(all, fetcher.source, fetcher.calls);
      var n;
      n, deferred := Drain(leaves, cap, http, calls0, others, all, fetcher.calls);
      ChainPrefix(start, leaves, WF.EndOf(start, leaves), n);
      SomeAccepted(fetcher.source, lo, fetcher.calls, leaves, n);
      SomePulled(fetcher.source, lo, fetcher.calls, leaves, pulls, n);
      all.PrefixStores(n, n);
      committed := leaves[..n];
      r := all.Prefix(n);
      AllIdentified(fetcher.source, lo, fetcher.calls, committed);
      UndisturbedRun(r);
      if !deferred {
        failure := fault;
        assert committed == leaves;
      }
      RecordedRunIsExplained(r, fetcher.source, fetcher.calls, cfg, now, start, end,
                             committed != [] && !deferred && failure.None?);
      RunAloneIsExplained(r, fetcher.source, fetcher.calls, cfg, now, start, end,
                          committed != [] && !deferred && failure.None?, listing);
      IsRanged(r, cfg, now, failure.Some?, deferred);
    }

    lemma IsRanged(r: RunRecord, cfg: CP.Config, now: int, failed: bool, deferred: bool)
      requires r.Shaped()
      requires var start, end := CP.StartOf(cfg, r.first.1, r.floor, r.full), CP.EndOf(cfg, now);
               && Chain(start, r.leaves, WF.EndOf(start, r.leaves))
               && (start > end ==> r.leaves == [] && !failed)
               && (start <= end && !failed ==> r.leaves != [])
               && (start <= end ==> WF.EndOf(start, r.leaves) <= end)
               && (start <= end && !failed && !deferred ==> WF.EndOf(start, r.leaves) == end)
      ensures Ranged(cfg, now, r.floor, ResumedFrom(r.first.1, r.full), r.leaves, failed, deferred, r.Stored(|r.leaves|).1)
    {
      var start, end, n := CP.StartOf(cfg, r.first.1, r.floor, r.full), CP.EndOf(cfg, now), |r.leaves|;
      DueMeansStarts(cfg, now, r.floor, r.first.1, r.full);
      forall w | w in r.leaves ensures start <= w.start <= w.end <= end {
        var i :| 0 <= i < n && r.leaves[i] == w;
        ChainPrefix(start, r.leaves, WF.EndOf(start, r.leaves), i);
      }
      if n > 0 { r.StoredNext(n - 1); }
    }

    lemma PulledShapes(r: RunRecord, src: Source, hi: nat)
      requires Identified(r.leaves) && Pulled(src, r.lo, hi, r.leaves, r.pulls)
      ensures r.Shaped()
    {
    }

    lemma UndisturbedRun(r: RunRecord)
      requires r.Shaped()
      ensures Identified(r.leaves) && r.first == r.Prefix(0).Stored(0)
      ensures (forall i :: r.others(i).None?) ==>
                r.Stored(|r.leaves|) == (MergeAll(r.first.0, AllRows(r.leaves, r.runId)), CursorAfter(r.first.1, r.leaves))
    {
      assert r.leaves[..|r.leaves|] == r.leaves;
      if forall i :: r.others(i).None? { r.Undisturbed(|r.leaves|); }
    }

    lemma NothingDone(r: RunRecord, src: Source, hi: nat, cap: Option<nat>, http: nat -> nat)
      requires r.leaves == [] && r.pulls == []
      ensures Identified(r.leaves) && r.Shaped() && Pulled(src, r.lo, hi, r.leaves, r.pulls) && r.Stored(0) == r.first
      ensures r.first == (MergeAll(r.first.0, AllRows([], r.runId)), CursorAfter(r.first.1, []))
      ensures StopsAtCap([], cap, false, http, r.lo)
    {
    }
  }
}
