/** Who may work on a connection: claims, renewals, releases and recovery as conditional updates. */
module Lease {
  import opened Wrappers
  import opened Instants

  type Worker = string

  /** The columns of a connection row that claiming, scheduling and finalizing touch. */
  datatype Conn = Conn(
    enabled: bool, paused: bool, nextRun: Option<int>, lastRun: Option<int>,
    lockedBy: Option<Worker>, lockedAt: Option<int>, expires: Option<int>)

  /** The holder states its own expiry. */
  function LeaseValues(c: Conn, now: int, w: Worker, length: int): Conn {
    c.(lockedAt := Some(now), lockedBy := Some(w), expires := Some(now + length))
  }

  function Unlocked(c: Conn): Conn {
    c.(lockedAt := None, lockedBy := None, expires := None)
  }

  /** The lease has lapsed. A row without an expiry was locked by older code and falls back to
      the observer's own lease length. */
  predicate Expired(c: Conn, now: int, observerLength: int) {
    (c.expires.Some? && c.expires.value < now) ||
    (c.expires.None? && c.lockedAt.Some? && c.lockedAt.value < now - observerLength)
  }

  predicate Free(c: Conn, now: int, observerLength: int) {
    c.lockedAt.None? || Expired(c, now, observerLength)
  }

  predicate Due(c: Conn, now: int) {
    c.enabled && !c.paused && c.nextRun.Some? && c.nextRun.value <= now
  }

  predicate SameLock(c: Conn, c': Conn) {
    c.lockedBy == c'.lockedBy && c.lockedAt == c'.lockedAt && c.expires == c'.expires
  }

  // --- statements over one row ----------------------------------------------------------

  predicate MayClaim(c: Conn, w: Worker, now: int, length: int) {
    Free(c, now, length) || c.lockedBy == Some(w)
  }

  /** UPDATE ... WHERE free or already ours. */
  function Claimed(c: Conn, w: Worker, now: int, length: int): Conn {
    if MayClaim(c, w, now, length) then LeaseValues(c, now, w, length) else c
  }

  /** UPDATE ... WHERE locked_by = w. */
  function Renewed(c: Conn, w: Worker, now: int, length: int): Conn {
    if c.lockedBy == Some(w) then LeaseValues(c, now, w, length) else c
  }

  function Released(c: Conn, w: Worker): Conn {
    if c.lockedBy == Some(w) then Unlocked(c) else c
  }

  predicate IsCandidate(c: Conn, self: Worker, length: int, now: int) {
    c.lockedAt.Some? && (Expired(c, now, length) || c.lockedBy == Some(self))
  }

  /** Compare-and-set on the lock that was read; the connection is due again. */
  function Reaped(c: Conn, read: Conn, now: int): Conn {
    if c.lockedBy == read.lockedBy && c.lockedAt == read.lockedAt then Unlocked(c).(nextRun := Some(now)) else c
  }

  // --- statements over the table --------------------------------------------------------

  function ClaimAll(rows: map<int, Conn>, ids: seq<int>, w: Worker, now: int, length: int): map<int, Conn> {
    map id | id in rows :: if id in ids then LeaseValues(rows[id], now, w, length) else rows[id]
  }

  /** A connection to be run now, with nobody on it whose lease still runs. */
  ghost predicate Claimable(rows: map<int, Conn>, id: int, now: int, length: int) {
    && id in rows && rows[id].enabled && !rows[id].paused && rows[id].nextRun.Some? && rows[id].nextRun.value <= now
    && (rows[id].lockedAt.None? || Lapsed(rows[id], now, length))
  }

  /** The holder's own word decides where there is one. */
  predicate Lapsed(c: Conn, now: int, observerLength: int)
    requires c.lockedAt.Some?
  {
    if c.expires.Some? then c.expires.value < now else c.lockedAt.value < now - observerLength
  }

  /** Locked by `w` from `now` on, for `length`; everything else as it was. */
  predicate LockedFor(c: Conn, c': Conn, w: Worker, now: int, length: int) {
    && c'.lockedBy == Some(w) && c'.lockedAt == Some(now) && c'.expires == Some(now + length)
    && SameSchedule(c, c')
  }

  /** All three columns of the lock are empty. */
  predicate NoLock(c: Conn) {
    c.lockedBy.None? && c.lockedAt.None? && c.expires.None?
  }

  predicate SameSchedule(c: Conn, c': Conn) {
    c'.enabled == c.enabled && c'.paused == c.paused && c'.nextRun == c.nextRun && c'.lastRun == c.lastRun
  }

  /** The due connections one claim takes: the earliest ones, at most `limit`. */
  ghost predicate IsDueSelection(rows: map<int, Conn>, now: int, length: int, limit: int, ids: seq<int>) {
    && (forall i, j :: 0 <= i < j < |ids| ==> ids[i] != ids[j])
    && |ids| <= (if limit > 0 then limit else 0)
    && (forall id :: id in ids ==> Claimable(rows, id, now, length))
    && (forall id :: Claimable(rows, id, now, length) && id !in ids ==>
          |ids| >= limit && forall x :: x in ids ==> rows[x].nextRun.value <= rows[id].nextRun.value)
  }

  lemma Pick(ids: set<int>) returns (id: int)
    requires ids != {}
    ensures id in ids
  {
    assert exists x :: x in ids by {
      if forall x :: x !in ids { assert false; }
    }
    id :| id in ids;
  }

  lemma {:induction false} EarliestExists(rows: map<int, Conn>, due: set<int>) returns (first: int)
    requires due != {} && forall id :: id in due ==> id in rows && rows[id].nextRun.Some?
    ensures first in due && forall id :: id in due ==> rows[first].nextRun.value <= rows[id].nextRun.value
    decreases |due|
  {
    var some := Pick(due);
    var rest := due - {some};
    first := some;
    if rest != {} {
      var other := EarliestExists(rows, rest);
      if rows[other].nextRun.value < rows[some].nextRun.value { first := other; }
    }
    forall id | id in due ensures rows[first].nextRun.value <= rows[id].nextRun.value {
      if id != some { assert id in rest; }
    }
  }

  class ConnectionTable {
    var rows: map<int, Conn>

    /** Tells whether the conditional update hit the row. */
    method ClaimConnection(id: int, w: Worker, length: int, now: int) returns (claimed: bool)
      modifies this
      ensures claimed <==> id in old(rows) && MayClaim(old(rows)[id], w, now, length)
      ensures id in old(rows) ==> var c := old(rows)[id];
                (claimed <==> c.lockedAt.None? || c.lockedBy == Some(w) || Lapsed(c, now, length))
      ensures claimed ==> id in rows && LockedFor(old(rows)[id], rows[id], w, now, length)
      ensures rows == if id in old(rows) then old(rows)[id := Claimed(old(rows)[id], w, now, length)] else old(rows)
    {
      claimed := id in rows && (Free(rows[id], now, length) || rows[id].lockedBy == Some(w));
      if claimed {
        rows := rows[id := LeaseValues(rows[id], now, w, length)];
      }
    }

    /** The scheduler's claim: the due rows are picked and locked together. */
    method ClaimDue(w: Worker, limit: int, length: int, now: int) returns (ids: seq<int>)
      modifies this
      ensures IsDueSelection(old(rows), now, length, limit, ids)
      ensures rows == ClaimAll(old(rows), ids, w, now, length)
    {
      ids := [];
      var due := set id | id in rows && Due(rows[id], now) && Free(rows[id], now, length);
      ghost var all := due;
      while due != {} && |ids| < limit
        invariant rows == old(rows) && due <= all
        invariant |ids| <= (if limit > 0 then limit else 0)
        invariant forall id :: id in all <==> id in due || id in ids
        invariant forall id :: id in ids ==> id !in due
        invariant forall i, j :: 0 <= i < j < |ids| ==> ids[i] != ids[j]
        invariant forall x, id :: x in ids && id in due ==> rows[x].nextRun.value <= rows[id].nextRun.value
        decreases |due|
      {
        ghost var earliest := EarliestExists(rows, due);
        var first :| first in due && forall id :: id in due ==> rows[first].nextRun.value <= rows[id].nextRun.value;
        ids := ids + [first];
        due := due - {first};
      }
      rows := ClaimAll(rows, ids, w, now, length);
    }

    /** False is the fencing signal: the lease is no longer ours. */
    method RenewLease(id: int, w: Worker, length: int, now: int) returns (ours: bool)
      modifies this
      ensures ours <==> id in old(rows) && old(rows)[id].lockedBy == Some(w)
      ensures ours ==> id in rows && LockedFor(old(rows)[id], rows[id], w, now, length)
      ensures rows == if id in old(rows) then old(rows)[id := Renewed(old(rows)[id], w, now, length)] else old(rows)
    {
      ours := id in rows && rows[id].lockedBy == Some(w);
      if ours {
        rows := rows[id := LeaseValues(rows[id], now, w, length)];
      }
    }

    method ReleaseLease(id: int, w: Worker)
      modifies this
      ensures rows == if id in old(rows) then old(rows)[id := Released(old(rows)[id], w)] else old(rows)
      ensures id in old(rows) && old(rows)[id].lockedBy == Some(w) ==> NoLock(rows[id]) && SameSchedule(old(rows)[id], rows[id])
      ensures id in old(rows) && old(rows)[id].lockedBy != Some(w) ==> rows == old(rows)
    {
      if id in rows && rows[id].lockedBy == Some(w) {
        rows := rows[id := Unlocked(rows[id])];
      }
    }

    /** Recover connections whose worker died: lapsed leases, and our own id on a connection this
        process is not running. Each is due again at once; the others are untouched. */
    method ReapOrphanedLocks(self: Worker, running: set<int>, length: int, now: int) returns (reaped: nat)
      modifies this
      ensures rows == ReapAll(old(rows), Orphans(old(rows), self, running, length, now), now)
      ensures reaped == |Orphans(old(rows), self, running, length, now)|
      ensures forall id :: id in old(rows) ==>
                id in rows && RightlyReaped(old(rows)[id], rows[id], self, id in running, length, now)
    {
      var candidates := set id | id in rows && IsCandidate(rows[id], self, length, now);
      ghost var before := rows;
      ghost var done: set<int> := {};
      reaped := 0;
      while candidates != {}
        invariant forall id :: id in candidates ==> id in before && IsCandidate(before[id], self, length, now) && id !in done
        invariant forall id :: id in Orphans(before, self, running, length, now) <==> id in done || (id in candidates && id !in running)
        invariant rows == ReapAll(before, done, now) && reaped == |done|
        decreases |candidates|
      {
        ghost var any := Pick(candidates);
        var id :| id in candidates;
        candidates := candidates - {id};
        if id !in running {
          var heldBy, heldAt := rows[id].lockedBy, rows[id].lockedAt;
          if rows[id].lockedBy == heldBy && rows[id].lockedAt == heldAt {  // compare-and-set
            rows := rows[id := Unlocked(rows[id]).(nextRun := Some(now))];
            done := done + {id};
            reaped := reaped + 1;
          }
        }
      }
      forall id ensures id in done <==> id in Orphans(before, self, running, length, now) {
        assert id !in candidates;
      }
      assert done == Orphans(before, self, running, length, now);
      OrphansAreRight(before, self, running, length, now);
    }
  }

  /** What recovery makes of a row: a lock nobody stands behind any more is gone and the connection due
      at once, any other row is untouched. */
  predicate RightlyReaped(c: Conn, c': Conn, self: Worker, runningHere: bool, length: int, now: int) {
    if c.lockedAt.Some? && (Lapsed(c, now, length) || c.lockedBy == Some(self)) && !runningHere then
      NoLock(c') && c'.nextRun == Some(now) && c'.enabled == c.enabled && c'.paused == c.paused && c'.lastRun == c.lastRun
    else c' == c
  }

  lemma OrphansAreRight(rows: map<int, Conn>, self: Worker, running: set<int>, length: int, now: int)
    ensures forall id :: id in rows ==>
              RightlyReaped(rows[id], ReapAll(rows, Orphans(rows, self, running, length, now), now)[id], self, id in running, length, now)
  {
  }

  function Orphans(rows: map<int, Conn>, self: Worker, running: set<int>, length: int, now: int): set<int> {
    set id | id in rows && IsCandidate(rows[id], self, length, now) && id !in running
  }

  /** The lock read and the lock compared are the row's own. */
  function ReapAll(rows: map<int, Conn>, ids: set<int>, now: int): map<int, Conn> {
    map id | id in rows :: if id in ids then Reaped(rows[id], rows[id], now) else rows[id]
  }

  // --- all interleavings over one connection --------------------------------------------

  /** What workers do to one connection. `Reap` compares the row with what it read at `readAt`;
      `owns` is the flag a run is closed with. */
  datatype Event =
    | Claim(w: Worker)
    | ClaimIfDue(w: Worker)
    | Renew(w: Worker)
    | Release(w: Worker)
    | Finalize(w: Worker, next: Option<int>, owns: bool)
    | Reap(w: Worker, readAt: int, read: Conn)
    | Edit(enabled: bool, paused: bool, next: Option<int>)

  /** `promised[w]` is the expiry w last wrote and has not given up; `fenced` are the workers
      whose renewal failed; `clock` is the latest instant at which anything happened. */
  datatype System = System(row: Conn, promised: map<Worker, int>, fenced: set<Worker>, clock: int)

  /** Lease lengths by worker, and the workers still running code that writes no expiry. */
  datatype Fleet = Fleet(length: Worker -> int, older: set<Worker>)

  /** Who locked a row and when determine until when. */
  predicate WellFormed(f: Fleet, c: Conn) {
    c.lockedBy.Some? ==>
      && c.lockedAt.Some?
      && c.expires == if c.lockedBy.value in f.older then None else Some(c.lockedAt.value + f.length(c.lockedBy.value))
  }

  predicate Possible(f: Fleet, s: System, e: Event, now: int) {
    && s.clock <= now
    && match e
       case Reap(w, readAt, read) =>
         w !in f.older && readAt <= now && WellFormed(f, read) && IsCandidate(read, w, f.length(w), readAt)
       case Edit(_, _, _) => true
       // Only a run cancelled for its lost lease gives up the flag, and only if that cancellation
       // reaches it while it is syncing: later, it is closed like any interrupted run.
       case Finalize(w, _, owns) => w !in f.older && (!owns ==> w in s.fenced)
       case _ => e.w !in f.older
  }

  predicate Succeeds(f: Fleet, s: System, e: Event, now: int) {
    match e
    case Claim(w) => MayClaim(s.row, w, now, f.length(w))
    case ClaimIfDue(w) => Due(s.row, now) && Free(s.row, now, f.length(w))
    case Renew(w) => s.row.lockedBy == Some(w)
    case Release(w) => s.row.lockedBy == Some(w)
    case Finalize(_, _, owns) => owns
    case Reap(_, _, read) => s.row.lockedBy == read.lockedBy && s.row.lockedAt == read.lockedAt
    case Edit(_, _, _) => true
  }

  /** Closing a run updates the schedule if it is closed as the owner's, and then gives up a lock
      that is really held. */
  function Finalized(c: Conn, w: Worker, owns: bool, finished: int, next: Option<int>): Conn {
    if !owns then c
    else
      var c' := c.(lastRun := Some(finished), nextRun := next);
      if c.lockedBy == Some(w) then Unlocked(c') else c'
  }

  /** What an event makes of the row: the very statements the table's methods are proved against. */
  function RowAfter(f: Fleet, s: System, e: Event, now: int): Conn {
    match e
    case Claim(w) => Claimed(s.row, w, now, f.length(w))
    case ClaimIfDue(w) => if Due(s.row, now) && Free(s.row, now, f.length(w)) then LeaseValues(s.row, now, w, f.length(w)) else s.row
    case Renew(w) => Renewed(s.row, w, now, f.length(w))
    case Release(w) => Released(s.row, w)
    case Finalize(w, next, owns) => Finalized(s.row, w, owns, now, next)
    case Reap(_, _, read) => Reaped(s.row, read, now)
    case Edit(enabled, paused, next) => s.row.(enabled := enabled, paused := paused, nextRun := next)
  }

  function Happen(f: Fleet, s: System, e: Event, now: int): System {
    var t := s.(row := RowAfter(f, s, e, now), clock := now);
    var ok := Succeeds(f, s, e, now);
    match e
    case Claim(w) => if ok then Promised(t, w, now + f.length(w)) else t
    case ClaimIfDue(w) => if ok then Promised(t, w, now + f.length(w)) else t
    case Renew(w) =>
      if ok then Promised(t, w, now + f.length(w)) else t.(promised := t.promised - {w}, fenced := t.fenced + {w})
    case Release(w) => t.(promised := t.promised - {w})
    case Finalize(w, _, _) => t.(promised := t.promised - {w})
    case Reap(w, _, _) => if ok then t.(promised := t.promised - {w}) else t
    case Edit(_, _, _) => t
  }

  function Promised(t: System, w: Worker, expiry: int): System {
    t.(promised := t.promised[w := expiry], fenced := t.fenced - {w})
  }

  /** An unexpired promise is the row's own lock. */
  ghost predicate Inv(f: Fleet, s: System) {
    && WellFormed(f, s.row)
    && forall w :: w in s.promised && s.clock <= s.promised[w] ==>
         w !in f.older && s.row.lockedBy == Some(w) && s.row.expires == Some(s.promised[w])
  }

  lemma HappenKeeps(f: Fleet, s: System, e: Event, now: int)
    requires Inv(f, s) && Possible(f, s, e, now)
    ensures Inv(f, Happen(f, s, e, now))
  {
  }

  predicate Legal(f: Fleet, s: System, events: seq<(Event, int)>)
    decreases |events|
  {
    events == [] ||
    (Possible(f, s, events[0].0, events[0].1) && Legal(f, Happen(f, s, events[0].0, events[0].1), events[1..]))
  }

  function After(f: Fleet, s: System, events: seq<(Event, int)>): System
    decreases |events|
  {
    if events == [] then s else After(f, Happen(f, s, events[0].0, events[0].1), events[1..])
  }

  lemma {:induction false} TraceKeeps(f: Fleet, s: System, events: seq<(Event, int)>)
    requires Inv(f, s) && Legal(f, s, events)
    ensures Inv(f, After(f, s, events))
    decreases |events|
  {
    if events != [] {
      HappenKeeps(f, s, events[0].0, events[0].1);
      TraceKeeps(f, Happen(f, s, events[0].0, events[0].1), events[1..]);
    }
  }

  /** Mutual exclusion on every trace: two different workers never both hold an unexpired lease,
      and while one does, the row says so. */
  lemma LeaseIsExclusive(f: Fleet, row: Conn, clock: int, events: seq<(Event, int)>, w: Worker, w': Worker)
    requires WellFormed(f, row) && Legal(f, System(row, map[], {}, clock), events)
    ensures var s := After(f, System(row, map[], {}, clock), events);
            w in s.promised && w' in s.promised && s.clock <= s.promised[w] && s.clock <= s.promised[w'] ==> w == w'
    ensures var s := After(f, System(row, map[], {}, clock), events);
            w in s.promised && s.clock <= s.promised[w] ==> s.row.lockedBy == Some(w)
  {
    TraceKeeps(f, System(row, map[], {}, clock), events);
  }

  /** An event of worker `w` itself that ends its hold. */
  predicate GivesUp(e: Event, w: Worker) {
    (e.Release? || e.Finalize? || e.Reap?) && e.w == w
  }

  /** The heartbeat of `w` is on time throughout: whatever happens, happens before the expiry it
      last wrote, and it does not let go. */
  predicate KeepsRenewing(f: Fleet, s: System, events: seq<(Event, int)>, w: Worker)
    decreases |events|
  {
    w in s.promised &&
    (events == [] ||
     (events[0].1 <= s.promised[w] && !GivesUp(events[0].0, w) &&
      KeepsRenewing(f, Happen(f, s, events[0].0, events[0].1), events[1..], w)))
  }

  /** A worker that renews within each lease period is never taken over, fenced or reaped, by
      anyone, however long it runs; every claim by another worker fails meanwhile. */
  lemma {:induction false} PunctualWorkerKeepsLease(f: Fleet, s: System, events: seq<(Event, int)>, w: Worker)
    requires Inv(f, s) && Legal(f, s, events) && w !in f.older
    requires s.row.lockedBy == Some(w) && w in s.promised && s.row.expires == Some(s.promised[w]) && w !in s.fenced
    requires KeepsRenewing(f, s, events, w)
    ensures var t := After(f, s, events);
            t.row.lockedBy == Some(w) && w !in t.fenced && w in t.promised && t.row.expires == Some(t.promised[w])
    decreases |events|
  {
    if events != [] {
      var e, now := events[0].0, events[0].1;
      HappenKeeps(f, s, e, now);
      if e.Edit? || e.w != w { OthersAreLockedOut(f, s, e, now, w); }
      PunctualWorkerKeepsLease(f, Happen(f, s, e, now), events[1..], w);
    }
  }

  /** Before the expiry on the row nobody else's event touches the lock. */
  lemma OthersAreLockedOut(f: Fleet, s: System, e: Event, now: int, w: Worker)
    requires Inv(f, s) && Possible(f, s, e, now) && w !in f.older
    requires s.row.lockedBy == Some(w) && s.row.expires.Some? && now <= s.row.expires.value
    requires !e.Edit? ==> e.w != w
    ensures SameLock(s.row, Happen(f, s, e, now).row)
    ensures e.Claim? || e.ClaimIfDue? ==> !Succeeds(f, s, e, now)
  {
  }

  // --- when a claim succeeds --------------------------------------------------------------

  /** The lock is given up or taken away: released or finalized as the owner's by its holder, or
      reaped with the lock still as it was read. */
  predicate LetsGo(s: System, e: Event) {
    match e
    case Release(w) => s.row.lockedBy == Some(w)
    case Finalize(w, _, owns) => owns && s.row.lockedBy == Some(w)
    case Reap(_, _, read) => s.row.lockedBy == read.lockedBy && s.row.lockedAt == read.lockedAt
    case _ => false
  }

  predicate OnlyEdits(events: seq<(Event, int)>) {
    forall i :: 0 <= i < |events| ==> events[i].0.Edit?
  }

  lemma {:induction false} EditsKeepNoLock(f: Fleet, s: System, edits: seq<(Event, int)>)
    requires NoLock(s.row) && OnlyEdits(edits)
    ensures NoLock(After(f, s, edits).row)
    decreases |edits|
  {
    if edits != [] {
      assert edits[0].0.Edit?;
      forall i | 0 <= i < |edits[1..]| ensures edits[1..][i].0.Edit? { assert edits[1..][i] == edits[i + 1]; }
      EditsKeepNoLock(f, Happen(f, s, edits[0].0, edits[0].1), edits[1..]);
    }
  }

  /** Whoever lets go lets others in: after it, and whatever the owner edits meanwhile, the next claim
      succeeds, whoever makes it and however long its lease; so does the next due claim on a
      connection that is due, which a reaped one is at once. */
  lemma LetGoMeansFree(f: Fleet, s: System, e: Event, now: int, edits: seq<(Event, int)>, w: Worker, later: int)
    requires LetsGo(s, e) && OnlyEdits(edits) && now <= later
    ensures var t := After(f, Happen(f, s, e, now), edits);
            && NoLock(t.row)
            && Succeeds(f, t, Claim(w), later)
            && LockedFor(t.row, Happen(f, t, Claim(w), later).row, w, later, f.length(w))
            && (t.row.enabled && !t.row.paused && t.row.nextRun.Some? && t.row.nextRun.value <= later ==>
                  Succeeds(f, t, ClaimIfDue(w), later) &&
                  LockedFor(t.row, Happen(f, t, ClaimIfDue(w), later).row, w, later, f.length(w)))
    ensures e.Reap? && s.row.enabled && !s.row.paused ==> Succeeds(f, Happen(f, s, e, now), ClaimIfDue(w), later)
  {
    assert NoLock(Happen(f, s, e, now).row);
    EditsKeepNoLock(f, Happen(f, s, e, now), edits);
  }

  /** The lock is all there or not there. */
  predicate Settled(c: Conn) {
    c.lockedBy.None? ==> NoLock(c)
  }

  /** What the holder last promised is what the row says. */
  ghost predicate PromiseOnRow(s: System) {
    forall w :: w in s.promised && s.row.lockedBy == Some(w) ==> s.row.expires == Some(s.promised[w])
  }

  lemma {:induction false} TraceKeepsPromiseOnRow(f: Fleet, s: System, events: seq<(Event, int)>)
    requires Legal(f, s, events) && Settled(s.row) && PromiseOnRow(s) && WellFormed(f, s.row)
    ensures Settled(After(f, s, events).row) && PromiseOnRow(After(f, s, events)) && WellFormed(f, After(f, s, events).row)
    decreases |events|
  {
    if events != [] {
      var e, now := events[0].0, events[0].1;
      assert Settled(Happen(f, s, e, now).row) && PromiseOnRow(Happen(f, s, e, now)) && WellFormed(f, Happen(f, s, e, now).row);
      TraceKeepsPromiseOnRow(f, Happen(f, s, e, now), events[1..]);
    }
  }

  /** On every trace a claim succeeds exactly if nobody holds the lock, the claimer does, or the
      holder's time is over: by the holder's own lease length, whatever the claimer's is, unless the
      holder runs code that states none. */
  lemma ClaimSucceedsIff(f: Fleet, row: Conn, clock: int, events: seq<(Event, int)>, w: Worker, now: int)
    requires WellFormed(f, row) && Settled(row) && Legal(f, System(row, map[], {}, clock), events)
    ensures var s := After(f, System(row, map[], {}, clock), events);
            Succeeds(f, s, Claim(w), now) <==>
              match s.row.lockedBy
              case None => true
              case Some(h) =>
                || h == w
                || (s.row.lockedAt.Some? && s.row.lockedAt.value + (if h in f.older then f.length(w) else f.length(h)) < now)
  {
    TraceKeepsPromiseOnRow(f, System(row, map[], {}, clock), events);
  }

  /** So nobody is locked out for ever: at any instant after the expiry a holder last wrote, anybody's
      claim succeeds, whatever its own lease length. */
  lemma LapsedLeaseIsTaken(f: Fleet, row: Conn, clock: int, events: seq<(Event, int)>, h: Worker, w: Worker, now: int)
    requires WellFormed(f, row) && Settled(row) && Legal(f, System(row, map[], {}, clock), events)
    ensures var s := After(f, System(row, map[], {}, clock), events);
            s.row.lockedBy == Some(h) && h in s.promised && s.promised[h] < now ==>
              Succeeds(f, s, Claim(w), now) &&
              LockedFor(s.row, Happen(f, s, Claim(w), now).row, w, now, f.length(w))
  {
    TraceKeepsPromiseOnRow(f, System(row, map[], {}, clock), events);
  }

  /** The holder's heartbeat always gets through, and nobody else's does: a renewal extends the lease from
      now on, or tells the worker that it has lost it. */
  lemma HolderRenews(f: Fleet, s: System, w: Worker, now: int)
    ensures var t := Happen(f, s, Renew(w), now);
            if s.row.lockedBy == Some(w) then
              LockedFor(s.row, t.row, w, now, f.length(w)) && w in t.promised && t.promised[w] == now + f.length(w) && w !in t.fenced
            else t.row == s.row && w !in t.promised && w in t.fenced
  {
  }

  /** Fencing: once the lock is another worker's, a late renewal, release or finalization leaves
      that lock alone, and the whole row unless the run is closed as the owner's. */
  lemma FencedWorkerCannotTouch(f: Fleet, s: System, e: Event, now: int)
    requires Possible(f, s, e, now) && (e.Renew? || e.Release? || e.Finalize?) && s.row.lockedBy != Some(e.w)
    ensures SameLock(s.row, Happen(f, s, e, now).row)
    ensures !e.Finalize? || !e.owns ==> Happen(f, s, e, now).row == s.row
    ensures e.Renew? ==> e.w in Happen(f, s, e, now).fenced
  {
  }

  /** A late finalization leaves the successor's row alone exactly when the run is not closed as the
      owner's (or writes what is there already), whether or not the worker noticed the loss. */
  lemma LateFinalizeLeavesRowIff(f: Fleet, s: System, w: Worker, next: Option<int>, owns: bool, now: int)
    requires s.row.lockedBy != Some(w)
    ensures Happen(f, s, Finalize(w, next, owns), now).row == s.row <==>
              !owns || (s.row.lastRun == Some(now) && s.row.nextRun == next)
  {
  }

  lemma OneMoreEvent(f: Fleet, s: System, e: (Event, int), rest: seq<(Event, int)>)
    requires Possible(f, s, e.0, e.1) && Legal(f, Happen(f, s, e.0, e.1), rest)
    ensures Legal(f, s, [e] + rest) && After(f, s, [e] + rest) == After(f, Happen(f, s, e.0, e.1), rest)
  {
    assert ([e] + rest)[1..] == rest;
  }

  function FreeRow(): System {
    System(Conn(true, false, Some(0), None, None, None, None), map[], {}, 0)
  }

  /** Such a loss is reachable: claimed at 0 for 10, taken over at 11, finalized at 12. */
  lemma UnnoticedTakeover(w: Worker, w': Worker)
    requires w != w'
    ensures exists f: Fleet, events ::
              && Legal(f, FreeRow(), events)
              && var s := After(f, FreeRow(), events);
              && s.row.lockedBy == Some(w') && s.row.lastRun == Some(12) && w !in s.fenced
  {
    TakeoverTrace(Fleet(_ => 10, {}), w, w', [(Finalize(w, None, true), 12)]);
  }

  /** Noticing is not enough: claimed at 0 for 10, taken over at 11, the heartbeat fails at 12 while
      the connector is being closed, and the interrupted run is finalized as the owner's at 13. */
  lemma NoticedTakeover(w: Worker, w': Worker)
    requires w != w'
    ensures exists f: Fleet, events ::
              && Legal(f, FreeRow(), events)
              && var s := After(f, FreeRow(), events);
              && s.row.lockedBy == Some(w') && s.row.lastRun == Some(13) && w in s.fenced
  {
    var f, late, close := Fleet(_ => 10, {}), (Renew(w), 12), (Finalize(w, None, true), 13);
    OneMoreEvent(f, TakenOver(f, w, w'), late, [close]);
    assert [late] + [close] == [late, close];
    TakeoverTrace(f, w, w', [late, close]);
  }

  /** Claimed by `w` at 0, by `w'` at 11. */
  function TakenOver(f: Fleet, w: Worker, w': Worker): System {
    Happen(f, Happen(f, FreeRow(), Claim(w), 0), Claim(w'), 11)
  }

  lemma TakeoverTrace(f: Fleet, w: Worker, w': Worker, rest: seq<(Event, int)>)
    requires w != w' && f.length(w) == 10 && f.older == {}
    requires Legal(f, TakenOver(f, w, w'), rest)
    ensures Legal(f, FreeRow(), [(Claim(w), 0), (Claim(w'), 11)] + rest)
    ensures After(f, FreeRow(), [(Claim(w), 0), (Claim(w'), 11)] + rest) == After(f, TakenOver(f, w, w'), rest)
  {
    var a, b := (Claim(w), 0), (Claim(w'), 11);
    OneMoreEvent(f, Happen(f, FreeRow(), a.0, 0), b, rest);
    OneMoreEvent(f, FreeRow(), a, [b] + rest);
    assert [a, b] + rest == [a] + ([b] + rest);
  }

  // --- all interleavings over the whole table -------------------------------------------

  /** One connection's event, or one claim that took the connections `ids` at once. */
  datatype TableEvent =
    | On(id: int, e: Event)
    | DueClaim(w: Worker, limit: int, ids: seq<int>)

  type Systems = map<int, System>

  function Rows(ss: Systems): map<int, Conn> {
    map id | id in ss :: ss[id].row
  }

  ghost predicate TablePossible(f: Fleet, ss: Systems, te: TableEvent, now: int) {
    match te
    case On(id, e) => id in ss && Possible(f, ss[id], e, now)
    case DueClaim(w, limit, ids) =>
      && w !in f.older && IsDueSelection(Rows(ss), now, f.length(w), limit, ids)
      && forall id :: id in ss ==> ss[id].clock <= now
  }

  function TableHappen(f: Fleet, ss: Systems, te: TableEvent, now: int): Systems {
    match te
    case On(id, e) => if id in ss then ss[id := Happen(f, ss[id], e, now)] else ss
    case DueClaim(w, _, ids) =>
      map id | id in ss :: if id in ids then Happen(f, ss[id], ClaimIfDue(w), now) else ss[id]
  }

  ghost predicate TableLegal(f: Fleet, ss: Systems, events: seq<(TableEvent, int)>)
    decreases |events|
  {
    events == [] ||
    (TablePossible(f, ss, events[0].0, events[0].1) && TableLegal(f, TableHappen(f, ss, events[0].0, events[0].1), events[1..]))
  }

  function TableAfter(f: Fleet, ss: Systems, events: seq<(TableEvent, int)>): Systems
    decreases |events|
  {
    if events == [] then ss else TableAfter(f, TableHappen(f, ss, events[0].0, events[0].1), events[1..])
  }

  /** What one connection sees of a table event: nothing, or one event of its own. */
  function Seen(te: TableEvent, id: int): Option<Event> {
    match te
    case On(id', e) => if id' == id then Some(e) else None
    case DueClaim(w, _, ids) => if id in ids then Some(ClaimIfDue(w)) else None
  }

  function Projection(events: seq<(TableEvent, int)>, id: int): seq<(Event, int)> {
    if events == [] then []
    else
      var rest := Projection(events[1..], id);
      match Seen(events[0].0, id)
      case None => rest
      case Some(e) => [(e, events[0].1)] + rest
  }

  /** The atomic claim of many connections is, on the table, the statement ClaimDue is proved
      against. */
  lemma DueClaimIsOneStatement(f: Fleet, ss: Systems, w: Worker, limit: int, ids: seq<int>, now: int)
    requires TablePossible(f, ss, DueClaim(w, limit, ids), now)
    ensures Rows(TableHappen(f, ss, DueClaim(w, limit, ids), now)) == ClaimAll(Rows(ss), ids, w, now, f.length(w))
    ensures forall id :: id in ids ==>
              id in ss && var s := TableHappen(f, ss, DueClaim(w, limit, ids), now)[id];
              s.row.lockedBy == Some(w) && w in s.promised && s.promised[w] == now + f.length(w)
              && s.row.expires == Some(s.promised[w]) && w !in s.fenced
  {
    forall id | id in ids ensures id in ss && Due(ss[id].row, now) && Free(ss[id].row, now, f.length(w)) {
      assert Claimable(Rows(ss), id, now, f.length(w));
    }
    var left, right := Rows(TableHappen(f, ss, DueClaim(w, limit, ids), now)), ClaimAll(Rows(ss), ids, w, now, f.length(w));
    assert left.Keys == right.Keys == ss.Keys;
    assert forall id :: id in ss ==> left[id] == right[id];
  }

  lemma TableStepProjects(f: Fleet, ss: Systems, te: TableEvent, now: int, id: int)
    requires TablePossible(f, ss, te, now) && id in ss
    ensures id in TableHappen(f, ss, te, now)
    ensures match Seen(te, id)
            case None => TableHappen(f, ss, te, now)[id] == ss[id]
            case Some(e) => Possible(f, ss[id], e, now) && TableHappen(f, ss, te, now)[id] == Happen(f, ss[id], e, now)
  {
  }

  /** A trace of the table is, for each connection, a trace of that connection. */
  lemma {:induction false} TraceProjects(f: Fleet, ss: Systems, events: seq<(TableEvent, int)>, id: int)
    requires TableLegal(f, ss, events) && id in ss
    ensures id in TableAfter(f, ss, events)
    ensures Legal(f, ss[id], Projection(events, id))
    ensures TableAfter(f, ss, events)[id] == After(f, ss[id], Projection(events, id))
    decreases |events|
  {
    hide Happen;
    hide Possible;
    if events != [] {
      var (te, now) := events[0];
      TableStepProjects(f, ss, te, now, id);
      hide TableHappen;
      hide TablePossible;
      TraceProjects(f, TableHappen(f, ss, te, now), events[1..], id);
      match Seen(te, id)
      case None =>
      case Some(e) => assert ([(e, now)] + Projection(events[1..], id))[1..] == Projection(events[1..], id);
    }
  }

  /** Claims of due connections never overlap inside a lease, whatever happens in between: after a
      claim by `w` took a connection, and while `w` keeps renewing it and does not let go, no due
      claim by anyone takes it; what such a claim does take is due and within its limit. */
  lemma DueClaimsAreDisjoint(
    f: Fleet, ss: Systems, w: Worker, limit: int, ids: seq<int>, now: int, events: seq<(TableEvent, int)>,
    w': Worker, limit': int, ids': seq<int>, now': int, id: int)
    requires forall x :: x in ss ==> Inv(f, ss[x])
    requires TablePossible(f, ss, DueClaim(w, limit, ids), now) && id in ids
    requires var held := TableHappen(f, ss, DueClaim(w, limit, ids), now);
             && TableLegal(f, held, events)
             && (id in held ==> KeepsRenewing(f, held[id], Projection(events, id), w))
             && TablePossible(f, TableAfter(f, held, events), DueClaim(w', limit', ids'), now')
             && (id in TableAfter(f, held, events) && w in TableAfter(f, held, events)[id].promised ==>
                   now' <= TableAfter(f, held, events)[id].promised[w])
    ensures id !in ids'
    ensures |ids'| <= Max(limit', 0)
    ensures var rows := Rows(TableAfter(f, TableHappen(f, ss, DueClaim(w, limit, ids), now), events));
            forall x :: x in ids' ==> x in rows && Due(rows[x], now')
  {
    hide Happen;
    hide KeepsRenewing;
    DueClaimIsOneStatement(f, ss, w, limit, ids, now);
    var held := TableHappen(f, ss, DueClaim(w, limit, ids), now);
    var end := TableAfter(f, held, events);
    HappenKeeps(f, ss[id], ClaimIfDue(w), now);
    TraceProjects(f, held, events, id);
    TraceKeeps(f, held[id], Projection(events, id));
    PunctualWorkerKeepsLease(f, held[id], Projection(events, id), w);
    assert !Free(end[id].row, now', f.length(w'));
    assert forall x :: x in ids' ==> Claimable(Rows(end), x, now', f.length(w'));
  }
}
