/** The sweep itself: compare counts, halve, diff, confirm, and only then tombstone. */
module Sweeper {
  import opened Wrappers
  import opened Instants
  import opened Source
  import opened WindowSpec
  import opened Sweep
  import WF = WindowFetch

  datatype Stop = NotCaughtUp | UndatedRows(count: nat) | TooMany(found: nat, allowed: int)
    | SourceFault(fault: Fault) | FetchFailed(error: WF.Error)

  lemma FindingsNone(src: Source, exists_: Existence, lo: nat, hi: nat, seen: set<Warehouse>, a: int, b: int)
    ensures Findings(src, exists_, lo, hi, seen, a, b, [], [])
  {
  }

  lemma MissingWidens(src: Source, lo: nat, hi: nat, x: int, y: int, id: Id, lo': nat, hi': nat)
    requires MissingFrom(src, lo, hi, x, y, id) && lo' <= lo && hi <= hi'
    ensures MissingFrom(src, lo', hi', x, y, id)
  {
    var leaves :| PullWithout(src, lo, hi, x, y, leaves, id);
    WF.AcceptedWiden(src, lo, hi, leaves, lo', hi');
    assert PullWithout(src, lo', hi', x, y, leaves, id);
  }

  lemma ExaminedWidens(
    src: Source, lo: nat, hi: nat, seen: set<Warehouse>, a: int, b: int, id: Id,
    lo': nat, hi': nat, seen': set<Warehouse>, a': int, b': int)
    requires Examined(src, lo, hi, seen, a, b, id) && lo' <= lo && hi <= hi' && seen <= seen' && a' <= a && b <= b'
    ensures Examined(src, lo', hi', seen', a', b', id)
  {
    var wh, x, y :| wh in seen && LiveButMissing(src, lo, hi, wh, a, b, id, x, y);
    MissingWidens(src, lo, hi, x, y, id, lo', hi');
    assert LiveButMissing(src, lo', hi', wh, a', b', id, x, y);
  }

  lemma FindingsWiden(
    src: Source, exists_: Existence, lo: nat, hi: nat, seen: set<Warehouse>, a: int, b: int, gone: seq<Id>, present: seq<Id>,
    lo': nat, hi': nat, seen': set<Warehouse>, a': int, b': int)
    requires Findings(src, exists_, lo, hi, seen, a, b, gone, present)
    requires lo' <= lo && hi <= hi' && seen <= seen' && a' <= a && b <= b'
    ensures Findings(src, exists_, lo', hi', seen', a', b', gone, present)
  {
    forall id | id in gone + present ensures Examined(src, lo', hi', seen', a', b', id) {
      ExaminedWidens(src, lo, hi, seen, a, b, id, lo', hi', seen', a', b');
    }
  }

  lemma NoRepeatsMerge(g: seq<Id>, p: seq<Id>, g': seq<Id>, p': seq<Id>)
    requires NoRepeats(g + p) && NoRepeats(g' + p')
    requires forall id :: id in g + p ==> id !in g' + p'
    ensures NoRepeats((g + g') + (p + p'))
  {
    var all, one, two := (g + g') + (p + p'), g + p, g' + p';
    forall i, j | 0 <= i < j < |all| ensures all[i] != all[j] {
      var x := Place(|g|, |g'|, |p|, i);
      var y := Place(|g|, |g'|, |p|, j);
      assert all[i] == if x.0 then one[x.1] else two[x.1];
      assert all[j] == if y.0 then one[y.1] else two[y.1];
      assert x.0 ==> one[x.1] in one;
      assert !x.0 ==> two[x.1] in two;
      assert y.0 ==> one[y.1] in one;
      assert !y.0 ==> two[y.1] in two;
      assert x.0 == y.0 ==> x.1 != y.1;
    }
  }

  /** Where element `i` of (g + g') + (p + p') sits: in g + p (true) or in g' + p'. */
  function Place(g: nat, g': nat, p: nat, i: nat): (bool, nat) {
    if i < g then (true, i)
    else if i < g + g' then (false, i - g)
    else if i < g + g' + p then (true, i - g')
    else (false, i - g - p)
  }

  /** Findings of neighbouring windows combine. Over one table their stamps, hence their ids, are
      disjoint. */
  lemma FindingsMerge(
    src: Source, exists_: Existence, lo: nat, mid: nat, hi: nat, before: set<Warehouse>, seen: set<Warehouse>,
    a: int, m: int, b: int, g: seq<Id>, p: seq<Id>, g': seq<Id>, p': seq<Id>)
    requires Findings(src, exists_, lo, mid, before, a, m, g, p) && Findings(src, exists_, mid, hi, seen, m, b, g', p')
    requires lo <= mid <= hi && before <= seen && a <= m <= b
    ensures Findings(src, exists_, lo, hi, seen, a, b, g + g', p + p')
  {
    if OneTable(seen) {
      forall id | id in g + p ensures id !in g' + p' {
        assert Examined(src, lo, mid, before, a, m, id);
        assert id in g' + p' ==> Examined(src, mid, hi, seen, m, b, id);
      }
      NoRepeatsMerge(g, p, g', p');
    }
    FindingsWiden(src, exists_, lo, mid, before, a, m, g, p, lo, hi, seen, a, b);
    FindingsWiden(src, exists_, mid, hi, seen, m, b, g', p', lo, hi, seen, a, b);
  }

  lemma FindingsAddOne(
    src: Source, exists_: Existence, lo: nat, hi: nat, seen: set<Warehouse>, a: int, b: int, g: seq<Id>, p: seq<Id>, id: Id, gone: bool)
    requires Findings(src, exists_, lo, hi, seen, a, b, g, p) && id !in g + p && lo <= hi
    requires exists_(hi, id) == Success(!gone) && Examined(src, lo, hi, seen, a, b, id)
    ensures Findings(src, exists_, lo, hi + 1, seen, a, b, if gone then g + [id] else g, if gone then p else p + [id])
  {
    FindingsWiden(src, exists_, lo, hi, seen, a, b, g, p, lo, hi + 1, seen, a, b);
    ExaminedWidens(src, lo, hi, seen, a, b, id, lo, hi + 1, seen, a, b);
    if gone {
      if OneTable(seen) { NoRepeatsMerge(g, p, [id], []); }
      assert p + [] == p;
      assert ConfirmedGone(exists_, lo, hi + 1, id);
    } else {
      if OneTable(seen) { NoRepeatsMerge(g, p, [], [id]); }
      assert g + [] == g;
      assert ConfirmedPresent(exists_, lo, hi + 1, id);
    }
  }

  lemma NoneTicked(candidates: set<Id>)
    ensures ToSet([] + []) == candidates - candidates
  {
  }

  /** One more candidate has been looked up. */
  lemma TickOff(g: seq<Id>, p: seq<Id>, id: Id, gone: bool, candidates: set<Id>, rest: set<Id>)
    requires ToSet(g + p) == candidates - rest && id in rest && rest <= candidates
    ensures id !in g + p
    ensures ToSet((if gone then g + [id] else g) + (if gone then p else p + [id])) == candidates - (rest - {id})
  {
    assert id !in ToSet(g + p);
    var all := (if gone then g + [id] else g) + (if gone then p else p + [id]);
    forall x ensures x in ToSet(all) <==> x in ToSet(g + p) || x == id {
      if x == id { assert all[if gone then |g| else |g| + |p|] == id; }
    }
  }

  lemma FixedCount(src: Source, listing: seq<Row>, k: nat, a: int, b: int)
    requires Fixed(src, listing) && a % SECOND == 0 && b % SECOND == 0 && a <= b
    ensures src.Fetch(k, a, b, 1, 1).Success? && src.Fetch(k, a, b, 1, 1).value.recordCount == |Hits(listing, a, b)|
  {
    FloorSecondFacts(a);
    FloorSecondFacts(b);
    var truth := (n: nat) => listing;
    assert src.Fetch(k, a, b, 1, 1) == Serve(truth(k), a, b, 1, 1);
  }

  /** What other processes left in the table by our look number `n`; None if they left it alone. */
  type Elsewhere = nat -> Option<Warehouse>

  /** The table our look number `n` finds, as long as we have not written ourselves. */
  function TableAt(first: Warehouse, elsewhere: Elsewhere, n: nat): Warehouse {
    if elsewhere(n).Some? then elsewhere(n).value else if n == 0 then first else TableAt(first, elsewhere, n - 1)
  }

  ghost predicate Undisturbed(elsewhere: Elsewhere) {
    forall n :: elsewhere(n).None?
  }

  lemma {:induction false} UndisturbedTable(first: Warehouse, elsewhere: Elsewhere, n: nat)
    requires Undisturbed(elsewhere)
    ensures TableAt(first, elsewhere, n) == first
  {
    if n > 0 { UndisturbedTable(first, elsewhere, n - 1); }
  }

  class SweepRun {
    const source: Source
    const exists_: Existence
    const leafRows: nat
    /** The table as it is before our first look. */
    const first: Warehouse
    const elsewhere: Elsewhere
    var wh: Warehouse
    var looks: nat
    /** Number of the next request on the source's timeline. */
    var clock: nat
    var missing: seq<MissingWindow>
    var deleted: seq<Id>
    var stillExist: seq<Id>
    var tombstoned: nat
    var applied: bool

    constructor (source: Source, exists_: Existence, wh: Warehouse, elsewhere: Elsewhere, leafRows: nat := 500, firstCall: nat := 0)
      requires source.pageSize > 0
      ensures this.source == source && this.exists_ == exists_ && this.leafRows == leafRows
      ensures this.wh == first == wh && this.elsewhere == elsewhere && looks == 0
      ensures clock == firstCall && tombstoned == 0 && !applied
      ensures missing == [] && deleted == stillExist == []
    {
      this.source := source;
      this.exists_ := exists_;
      this.leafRows := leafRows;
      this.wh, first := wh, wh;
      this.elsewhere, looks := elsewhere, 0;
      clock := firstCall;
      tombstoned, applied := 0, false;
      missing, deleted, stillExist := [], [], [];
    }

    /** We have not written yet: the table is the one our last look found. */
    ghost predicate Valid()
      reads this`wh, this`looks
    {
      wh == if looks == 0 then first else TableAt(first, elsewhere, looks - 1)
    }

    /** Every table found so far. */
    ghost function Seen(): set<Warehouse>
      reads this`looks
    {
      set n | 0 <= n < looks :: TableAt(first, elsewhere, n)
    }

    /** Before each statement of ours others may have written to the table. */
    method Look()
      requires Valid()
      modifies this`wh, this`looks
      ensures Valid() && looks == old(looks) + 1 && wh == TableAt(first, elsewhere, old(looks))
      ensures Seen() == old(Seen()) + {wh}
    {
      if elsewhere(looks).Some? {
        wh := elsewhere(looks).value;
      }
      looks := looks + 1;
    }

    /** Nothing changes under the sweep, which is over a synced range. */
    ghost predicate Exact(listing: seq<Row>, a: int, b: int) {
      Undisturbed(elsewhere) && ExactConditions(source, exists_, listing, first, a, b)
    }

    lemma SameTable()
      requires Valid() && Undisturbed(elsewhere)
      ensures wh == first && (forall t :: t in Seen() ==> t == first) && OneTable(Seen())
    {
      forall n: nat ensures TableAt(first, elsewhere, n) == first { UndisturbedTable(first, elsewhere, n); }
    }

    /** What the source counts between two instants, asked with a page of one row. */
    method CountWindow(a: int, b: int) returns (r: Result<nat, Fault>)
      modifies this`clock
      ensures clock == old(clock) + 1
      ensures var reply := source.Fetch(old(clock), a, b, 1, 1);
              r == if reply.Success? then Success(reply.value.recordCount) else Failure(reply.error)
    {
      var reply := source.Fetch(clock, a, b, 1, 1);
      clock := clock + 1;
      r := if reply.Success? then Success(reply.value.recordCount) else Failure(reply.error);
    }

    /** The ids of a verified pull; against a still source these are all ids of the window. */
    method WindowIds(a: int, b: int, ghost listing: seq<Row>) returns (ids: set<Id>, failure: Option<WF.Error>, ghost pulled: seq<Window>)
      requires source.pageSize > 0 && a <= b
      modifies this`clock
      ensures clock >= old(clock)
      ensures failure.None? ==>
                && pulled != [] && Chain(a, pulled, b) && AllAccepted(source, old(clock), clock, pulled)
                && forall id :: id in ids <==> Delivers(pulled, id)
      ensures Fixed(source, listing) ==>
                failure.None? && ids == SourceIds(listing, FloorSecond(a), FloorSecond(b))
    {
      var fetcher := new WF.WindowFetcher(source, clock);
      var leaves;
      ghost var nodes, tops;
      leaves, failure, nodes, tops := fetcher.Windows(a, b, 0, listing, 0);
      ids := set w, r | w in leaves && r in w.rows && r.id.Some? :: r.id.value;
      pulled := leaves;
      ghost var lo := clock;
      clock := fetcher.calls;
      if failure.None? {
        WF.ChainEnd(a, leaves, WF.EndOf(a, leaves));
        forall id ensures id in ids <==> Delivers(leaves, id) {
          if id in ids {
            var w, r :| w in leaves && r in w.rows && r.id == Some(id);
            assert Delivers(leaves, id);
          }
        }
        if Fixed(source, listing) { CompleteIds(listing, lo, clock, leaves, a, b, ids); }
      }
    }

    lemma NotDelivered(pulled: seq<Window>, id: Id)
      requires !Delivers(pulled, id)
      ensures forall w, r :: w in pulled && r in w.rows ==> r.id != Some(id)
    {
    }

    lemma CompleteIds(listing: seq<Row>, lo: nat, hi: nat, leaves: seq<Window>, a: int, b: int, ids: set<Id>)
      requires Fixed(source, listing) && source.pageSize > 0
      requires leaves != [] && Chain(a, leaves, b) && AllAccepted(source, lo, hi, leaves)
      requires ids == set w, r | w in leaves && r in w.rows && r.id.Some? :: r.id.value
      ensures ids == SourceIds(listing, FloorSecond(a), FloorSecond(b))
    {
      WindowsAreComplete(source, listing, lo, hi, leaves, a, b);
      HitsFacts(listing, FloorSecond(a), FloorSecond(b));
      var hits := Hits(listing, FloorSecond(a), FloorSecond(b));
      forall id ensures id in ids <==> id in Ids(hits) {
        if id in ids {
          var w, r :| w in leaves && r in w.rows && r.id == Some(id);
          assert r in hits;
        }
        if id in Ids(hits) {
          var r :| r in hits && r.id == Some(id);
          var w :| w in leaves && r in w.rows;
        }
      }
    }

    /** Look up each candidate by id; only a definite "not found" counts as deleted. */
    method Confirm(candidates: set<Id>, a: int, b: int, ghost lo: nat)
      returns (failure: Option<Fault>, ghost gone: seq<Id>, ghost present: seq<Id>)
      requires lo <= clock && forall id :: id in candidates ==> Examined(source, lo, clock, Seen(), a, b, id)
      modifies this`clock, this`deleted, this`stillExist
      ensures clock >= old(clock)
      ensures deleted == old(deleted) + gone && stillExist == old(stillExist) + present
      ensures Findings(source, exists_, lo, clock, Seen(), a, b, gone, present)
      ensures failure.None? ==> ToSet(gone + present) == candidates
      ensures (forall j: nat, id :: exists_(j, id).Success?) ==> failure.None?
    {
      hide Findings;
      hide Examined;
      hide ToSet;
      hide Seen;
      gone, present, failure := [], [], None;
      ghost var seen := Seen();
      NoneTicked(candidates);
      FindingsNone(source, exists_, lo, clock, seen, a, b);
      var rest := candidates;
      while rest != {}
        invariant clock >= old(clock) && rest <= candidates
        invariant deleted == old(deleted) + gone && stillExist == old(stillExist) + present
        invariant Findings(source, exists_, lo, clock, seen, a, b, gone, present)
        invariant ToSet(gone + present) == candidates - rest
        decreases |rest|
      {
        assert exists x :: x in rest by {
          if forall x :: x !in rest { assert false; }
        }
        var id :| id in rest;
        var found := exists_(clock, id);
        ghost var k := clock;
        ExaminedWidens(source, lo, old(clock), seen, a, b, id, lo, clock, seen, a, b);
        clock := clock + 1;
        if found.Failure? {
          FindingsWiden(source, exists_, lo, k, seen, a, b, gone, present, lo, clock, seen, a, b);
          failure := Some(found.error);
          return;
        }
        TickOff(gone, present, id, !found.value, candidates, rest);
        FindingsAddOne(source, exists_, lo, k, seen, a, b, gone, present, id, !found.value);
        rest := rest - {id};
        if found.value {
          stillExist := stillExist + [id];
          present := present + [id];
        } else {
          deleted := deleted + [id];
          gone := gone + [id];
        }
      }
    }

    /** What the report holds, and the ids looked up. */
    ghost function Sofar(looked: seq<Id>): Report
      reads this`missing
    {
      Report((set m | m in missing), ToSet(looked))
    }

    ghost predicate Done(lo: nat, a: int, b: int, looked: seq<Id>)
      reads this`clock, this`looks, this`missing
    {
      Settled(source, leafRows, lo, clock, Seen(), a, b, Sofar(looked))
    }

    /** One count decides what has to be done with a window. */
    lemma CountDecides(lo: nat, k: nat, a: int, b: int, looked: seq<Id>, n: nat, table: Warehouse)
      requires lo <= k < clock && table in Seen()
      requires source.Fetch(k, a, b, 1, 1).Success? && source.Fetch(k, a, b, 1, 1).value.recordCount == n
      requires |LiveIds(table, a, b)| < n ==> MissingWindow(a, b, n, |LiveIds(table, a, b)|) in missing
      requires |LiveIds(table, a, b)| > n ==>
                 if |LiveIds(table, a, b)| > leafRows && (b - a) / SECOND > 1 then
                   Done(lo, a, Middle(a, b), looked) && Done(lo, Middle(a, b), b, looked)
                 else Diffed(source, lo, clock, Seen(), a, b, ToSet(looked))
      ensures Done(lo, a, b, looked)
    {
      hide LiveIds;
      hide Diffed;
      hide Seen;
      assert SettledBy(source, leafRows, lo, clock, Seen(), a, b, Sofar(looked), k, table);
    }

    /** What a check of [a, b] adds to the report. */
    ghost predicate Checked(lo: nat, a: int, b: int, listing: seq<Row>, failure: Option<Stop>, gone: seq<Id>, present: seq<Id>, before: seq<MissingWindow>)
      reads this
    {
      && Valid() && lo <= clock
      && Findings(source, exists_, lo, clock, Seen(), a, b, gone, present)
      && before <= missing
      && (failure.Some? ==> failure.value.SourceFault? || failure.value.FetchFailed?)
      && (failure.None? ==> Done(lo, a, b, gone + present))
      && (Exact(listing, a, b) ==>
            && failure.None? && missing == before + MissingIn(listing, first, leafRows, a, b)
            && ToSet(gone + present) == Found(listing, first, leafRows, a, b))
    }

    /** Compare counts; halve or diff a window the warehouse holds more of. While neither source nor
        warehouse changes, the outcome is the one `Found` and `MissingIn` describe. */
    method Check(a: int, b: int, ghost listing: seq<Row>)
      returns (failure: Option<Stop>, ghost gone: seq<Id>, ghost present: seq<Id>)
      requires source.pageSize > 0 && a < b && Valid()
      modifies this
      ensures tombstoned == old(tombstoned) && applied == old(applied)
      ensures old(Seen()) <= Seen() && looks >= old(looks)
      ensures deleted == old(deleted) + gone && stillExist == old(stillExist) + present
      ensures Checked(old(clock), a, b, listing, failure, gone, present, old(missing))
      decreases b - a
    {
      hide Findings;
      hide Fixed;
      hide Synced;
      hide LiveIds;
      hide Hits;
      hide Gone;
      hide MissingIn;
      hide Found;
      hide Seen;
      hide TableAt;
      hide Settled;
      hide Diffed;
      hide ToSet;
      gone, present, failure := [], [], None;
      ghost var lo, exact := clock, Exact(listing, a, b);
      if exact { FixedCount(source, listing, clock, a, b); }
      CheckOutcome(listing, a, b);
      var counted := CountWindow(a, b);
      FindingsNone(source, exists_, lo, clock, Seen(), a, b);
      ghost var k := lo;
      if counted.Failure? {
        failure := Some(SourceFault(counted.error));
        return;
      }
      var sourceN := counted.value;
      Look();
      if exact { SameTable(); }
      FindingsNone(source, exists_, lo, clock, Seen(), a, b);
      ghost var table := wh;
      var whN := |LiveIds(wh, a, b)|;
      if sourceN == whN {
        CountDecides(lo, k, a, b, [] + [], sourceN, table);
        return;
      }
      if whN < sourceN {
        missing := missing + [MissingWindow(a, b, sourceN, whN)];
        assert missing[|missing| - 1] == MissingWindow(a, b, sourceN, whN);
        CountDecides(lo, k, a, b, [] + [], sourceN, table);
        return;
      }
      var secs := (b - a) / SECOND;
      if whN > leafRows && secs > 1 {
        failure, gone, present := Halve(a, b, secs, listing);
        Later(lo, a, b, gone, present);
        if failure.None? {
          DoneLater(lo, a, Middle(a, b), gone + present);
          DoneLater(lo, Middle(a, b), b, gone + present);
          CountDecides(lo, k, a, b, gone + present, sourceN, table);
        }
        return;
      }
      failure, gone, present := Diff(a, b, listing);
      Later(lo, a, b, gone, present);
      if failure.None? {
        DiffedWidens(source, lo + 1, clock, Seen(), a, b, ToSet(gone + present), lo, clock, Seen(), ToSet(gone + present));
        CountDecides(lo, k, a, b, gone + present, sourceN, table);
      }
    }

    lemma DoneLater(lo: nat, a: int, b: int, looked: seq<Id>)
      requires Done(lo + 1, a, b, looked)
      ensures Done(lo, a, b, looked)
    {
      SettledWidens(source, leafRows, lo + 1, clock, Seen(), a, b, Sofar(looked), lo, clock, Seen(), Sofar(looked));
    }

    /** The cases of a check's outcome. */
    lemma CheckOutcome(listing: seq<Row>, a: int, b: int)
      ensures ToSet([] + []) == {}
      ensures var n, m := |Hits(listing, a, b)|, |LiveIds(first, a, b)|;
              && (m <= n ==> Found(listing, first, leafRows, a, b) == {})
              && (m == n ==> MissingIn(listing, first, leafRows, a, b) == [])
              && (m < n ==> MissingIn(listing, first, leafRows, a, b) == [MissingWindow(a, b, n, m)])
              && (m > n && !Splits(first, leafRows, a, b) ==>
                    Found(listing, first, leafRows, a, b) == Gone(listing, first, a, b) && MissingIn(listing, first, leafRows, a, b) == [])
              && (m > n && Splits(first, leafRows, a, b) ==>
                    var mid := Middle(a, b);
                    Found(listing, first, leafRows, a, b) == Found(listing, first, leafRows, a, mid) + Found(listing, first, leafRows, mid, b) &&
                    MissingIn(listing, first, leafRows, a, b)
                      == MissingIn(listing, first, leafRows, a, mid) + MissingIn(listing, first, leafRows, mid, b))
    {
    }

    lemma Later(lo: nat, a: int, b: int, gone: seq<Id>, present: seq<Id>)
      requires lo + 1 <= clock && Findings(source, exists_, lo + 1, clock, Seen(), a, b, gone, present)
      ensures Findings(source, exists_, lo, clock, Seen(), a, b, gone, present)
    {
      FindingsWiden(source, exists_, lo + 1, clock, Seen(), a, b, gone, present, lo, clock, Seen(), a, b);
    }

    /** Too big to diff cheaply: both halves, sharing the boundary second. */
    method Halve(a: int, b: int, secs: int, ghost listing: seq<Row>)
      returns (failure: Option<Stop>, ghost gone: seq<Id>, ghost present: seq<Id>)
      requires source.pageSize > 0 && a < b && secs == (b - a) / SECOND && secs > 1 && Valid()
      modifies this
      ensures tombstoned == old(tombstoned) && applied == old(applied)
      ensures Valid() && old(Seen()) <= Seen() && looks >= old(looks)
      ensures deleted == old(deleted) + gone && stillExist == old(stillExist) + present
      ensures var mid := Middle(a, b);
              && old(clock) <= clock && old(missing) <= missing
              && Findings(source, exists_, old(clock), clock, Seen(), a, b, gone, present)
              && (failure.Some? ==> failure.value.SourceFault? || failure.value.FetchFailed?)
              && (failure.None? ==> Done(old(clock), a, mid, gone + present) && Done(old(clock), mid, b, gone + present))
              && (Exact(listing, a, b) ==>
                    && failure.None?
                    && missing == old(missing) + (MissingIn(listing, first, leafRows, a, mid) + MissingIn(listing, first, leafRows, mid, b))
                    && ToSet(gone + present) == Found(listing, first, leafRows, a, mid) + Found(listing, first, leafRows, mid, b))
      decreases b - a, 0
    {
      hide Fixed;
      hide Found;
      hide MissingIn;
      hide Settled;
      hide Findings;
      hide Seen;
      hide TableAt;
      var mid := a + CeilDiv(secs, 2) * SECOND;
      MiddleIsInside(a, b);
      ghost var lo, exact := clock, Exact(listing, a, b);
      if exact { HalvesAddUp(listing, first, a, mid, b); }
      failure, gone, present := Check(a, mid, listing);
      if failure.Some? {
        FindingsWiden(source, exists_, lo, clock, Seen(), a, mid, gone, present, lo, clock, Seen(), a, b);
        return;
      }
      ghost var k, seen, g, p, report := clock, Seen(), gone, present, Sofar(gone + present);
      failure, gone, present := Check(mid, b, listing);
      FindingsMerge(source, exists_, lo, k, clock, seen, Seen(), a, mid, b, g, p, gone, present);
      UnionOfBoth(g, p, gone, present);
      if failure.None? {
        ghost var later := Sofar((g + gone) + (p + present));
        assert Contains(later, report) && Contains(later, Sofar(gone + present));
        SettledWidens(source, leafRows, lo, k, seen, a, mid, report, lo, clock, Seen(), later);
        SettledWidens(source, leafRows, k, clock, Seen(), mid, b, Sofar(gone + present), lo, clock, Seen(), later);
      }
      gone, present := g + gone, p + present;
    }

    lemma UnionOfBoth(g: seq<Id>, p: seq<Id>, g': seq<Id>, p': seq<Id>)
      ensures ToSet((g + g') + (p + p')) == ToSet(g + p) + ToSet(g' + p')
    {
    }

    /** Small enough: what the warehouse shows live and a verified pull does not deliver. */
    method Diff(a: int, b: int, ghost listing: seq<Row>)
      returns (failure: Option<Stop>, ghost gone: seq<Id>, ghost present: seq<Id>)
      requires source.pageSize > 0 && a < b && Valid()
      modifies this`clock, this`wh, this`looks, this`deleted, this`stillExist
      ensures Valid() && old(Seen()) <= Seen() && looks >= old(looks)
      ensures deleted == old(deleted) + gone && stillExist == old(stillExist) + present
      ensures old(clock) <= clock && Findings(source, exists_, old(clock), clock, Seen(), a, b, gone, present)
      ensures failure.Some? ==> failure.value.SourceFault? || failure.value.FetchFailed?
      ensures failure.None? ==> Diffed(source, old(clock), clock, Seen(), a, b, ToSet(gone + present))
      ensures Exact(listing, a, b) ==> failure.None? && ToSet(gone + present) == Gone(listing, first, a, b)
    {
      hide Findings;
      hide Seen;
      hide TableAt;
      gone, present := [], [];
      ghost var lo := clock;
      ghost var exact := Exact(listing, a, b);
      var ids, error;
      ghost var pulled;
      ids, error, pulled := WindowIds(a, b, listing);
      ghost var until := clock;
      FindingsNone(source, exists_, lo, clock, Seen(), a, b);
      if error.Some? {
        return Some(FetchFailed(error.value)), [], [];
      }
      if exact {
        FloorSecondFacts(a);
        FloorSecondFacts(b);
      }
      Look();
      if exact { SameTable(); }
      var candidates := LiveIds(wh, a, b) - ids;
      forall id | id in candidates ensures Examined(source, lo, clock, Seen(), a, b, id) {
        assert PullWithout(source, lo, clock, a, b, pulled, id) by { NotDelivered(pulled, id); }
        assert wh in Seen() && LiveButMissing(source, lo, clock, wh, a, b, id, a, b);
      }
      var fault;
      ghost var table := wh;
      fault, gone, present := Confirm(candidates, a, b, lo);
      if fault.None? {
        assert DiffedBy(source, lo, until, table, pulled, a, b, ToSet(gone + present));
        DiffedWidens(source, lo, until, Seen(), a, b, ToSet(gone + present), lo, clock, Seen(), ToSet(gone + present));
      }
      failure := if fault.Some? then Some(SourceFault(fault.value)) else None;
    }

    /** The whole sweep of [start, end), which only looks unless `apply` is set. It is refused unless
        the checkpoint has passed the range plus the lookback and every live row is dated. Syncs may
        write to the warehouse throughout; what is marked are the confirmed rows that are live at that
        moment, on the evidence of earlier looks. */
    method SweepDeletions(start: int, end: int, checkpoint: Option<int>, apply: bool, now: int,
                          lookback: int, fraction: real, alwaysAllowed: int, ghost listing: seq<Row>)
      returns (stop: Option<Stop>)
      requires source.pageSize > 0 && looks == 0 && wh == first
      requires deleted == stillExist == [] && missing == [] && tombstoned == 0 && !applied
      modifies this
      ensures stop == Some(NotCaughtUp) <==> checkpoint.None? || checkpoint.value < end + lookback
      ensures stop == Some(NotCaughtUp) ==> clock == old(clock) && looks == 0
      ensures stop != Some(NotCaughtUp) ==>
                (stop.Some? && stop.value.UndatedRows? <==> HoldsUndated(TableAt(first, elsewhere, 0)))
      ensures stop.Some? && stop.value.UndatedRows? ==>
                clock == old(clock) && stop.value.count == |Undated(TableAt(first, elsewhere, 0))|
      ensures Findings(source, exists_, old(clock), clock, Seen(), start, end, deleted, stillExist)
      ensures stop.None? || stop.value.TooMany? ==> DoneMonths(old(clock), start, end, end)
      ensures applied <==> stop.None? && apply && deleted != []
      ensures !applied ==> Valid() && tombstoned == 0
      ensures applied ==>
                && looks >= 2
                && var table := TableAt(first, elsewhere, looks - 1);
                && MarksOnly(table, wh, ToSet(deleted), now, tombstoned) && tombstoned <= |deleted|
                && WithinAllowance(|deleted|, |LiveIds(TableAt(first, elsewhere, looks - 2), start, end)|, alwaysAllowed, fraction)
      ensures stop.Some? && stop.value.TooMany? ==>
                && looks >= 1 && stop.value.found == |deleted|
                && !WithinAllowance(|deleted|, |LiveIds(TableAt(first, elsewhere, looks - 1), start, end)|, alwaysAllowed, fraction)
      ensures Undisturbed(elsewhere) ==> NoRepeats(deleted + stillExist) && (applied ==> tombstoned == |deleted|)
      ensures Exact(listing, start, end) && clock > old(clock) ==>
                && (stop.Some? ==> stop.value.TooMany?)
                && missing == MissingAll(listing, first, leafRows, start, end)
                && ToSet(deleted + stillExist) == FoundAll(listing, first, leafRows, start, end)
                && ToSet(deleted) == FoundAll(listing, first, leafRows, start, end) - Ids(listing)
    {
      hide SettledMonths;
      hide Findings;
      hide Fixed;
      hide Synced;
      hide FoundAll;
      hide MissingAll;
      hide LiveIds;
      hide LiveAmong;
      hide Allowed;
      hide WithinAllowance;
      hide Undated;
      hide HoldsUndated;
      hide MarksOnly;
      hide Seen;
      hide TableAt;
      hide OneTable;
      FindingsNone(source, exists_, clock, clock, Seen(), start, end);
      if checkpoint.None? || checkpoint.value < end + lookback {
        return Some(NotCaughtUp);
      }
      Look();
      FindingsNone(source, exists_, clock, clock, Seen(), start, end);
      UndatedIff(wh);
      if Undated(wh) != {} {
        return Some(UndatedRows(|Undated(wh)|));
      }
      stop := Walk(start, end, listing);
      FoundOnce(old(clock), start, end);
      if Exact(listing, start, end) {
        LookupsTellTruth(listing, old(clock), start, end, deleted, stillExist);
      }
      if stop.Some? {
        return;
      }
      if apply && deleted != [] {
        ghost var seen, report := Seen(), Sofar(deleted + stillExist);
        if Undisturbed(elsewhere) { AllLive(start, end, old(clock)); }
        stop := MarkFound(start, end, now, fraction, alwaysAllowed);
        if stop.None? { MarkedAtMost(TableAt(first, elsewhere, looks - 1), wh, deleted, now, tombstoned); }
        if Undisturbed(elsewhere) { UndisturbedTable(first, elsewhere, looks - 1); }
        FindingsWiden(source, exists_, old(clock), clock, seen, start, end, deleted, stillExist, old(clock), clock, Seen(), start, end);
        MonthsWiden(source, leafRows, old(clock), clock, seen, start, end, end, report, clock, Seen(), report);
      }
    }

    /** The cap, and then one statement over everything confirmed as gone. */
    method MarkFound(start: int, end: int, now: int, fraction: real, alwaysAllowed: int) returns (stop: Option<Stop>)
      requires Valid() && deleted != [] && !applied && tombstoned == 0
      modifies this`wh, this`looks, this`tombstoned, this`applied
      ensures old(Seen()) <= Seen() && (applied <==> stop.None?) && (!applied ==> Valid() && tombstoned == 0)
      ensures looks == old(looks) + (if applied then 2 else 1)
      ensures stop.None? <==>
                WithinAllowance(|deleted|, |LiveIds(TableAt(first, elsewhere, old(looks)), start, end)|, alwaysAllowed, fraction)
      ensures applied ==> MarksOnly(TableAt(first, elsewhere, old(looks) + 1), wh, ToSet(deleted), now, tombstoned)
      ensures stop.Some? ==> stop.value.TooMany? && stop.value.found == |deleted|
    {
      hide ToSet;
      hide LiveIds;
      hide LiveAmong;
      hide WithinAllowance;
      hide MarksOnly;
      hide Seen;
      hide TableAt;
      stop := CheckCap(start, end, fraction, alwaysAllowed);
      if stop.None? {
        tombstoned := Tombstone(deleted, now);
        applied := true;
      }
    }

    /** Too many at once are refused: that is far likelier a broken sync than deletions. */
    method CheckCap(start: int, end: int, fraction: real, alwaysAllowed: int) returns (stop: Option<Stop>)
      requires Valid() && deleted != []
      modifies this`wh, this`looks
      ensures Valid() && looks == old(looks) + 1 && old(Seen()) <= Seen()
      ensures stop.None? <==>
                WithinAllowance(|deleted|, |LiveIds(TableAt(first, elsewhere, old(looks)), start, end)|, alwaysAllowed, fraction)
      ensures stop.Some? ==> stop.value.TooMany? && stop.value.found == |deleted|
    {
      hide LiveIds;
      hide Allowed;
      hide WithinAllowance;
      hide Seen;
      hide TableAt;
      Look();
      var live := |LiveIds(wh, start, end)|;
      var allowed := Allowed(live, alwaysAllowed, fraction);
      AllowedIff(|deleted|, live, alwaysAllowed, fraction);
      stop := if |deleted| > allowed then Some(TooMany(|deleted|, allowed)) else None;
    }

    lemma FoundOnce(lo: nat, start: int, end: int)
      requires Valid() && Findings(source, exists_, lo, clock, Seen(), start, end, deleted, stillExist)
      ensures Undisturbed(elsewhere) ==> NoRepeats(deleted + stillExist)
    {
      if Undisturbed(elsewhere) { SameTable(); }
    }

    /** A lookup that tells the truth splits what was found into deleted and still existing. */
    lemma LookupsTellTruth(listing: seq<Row>, lo: nat, a: int, b: int, gone: seq<Id>, present: seq<Id>)
      requires Findings(source, exists_, lo, clock, Seen(), a, b, gone, present)
      requires forall j: nat, id :: exists_(j, id) == Success(id in Ids(listing))
      ensures ToSet(gone) == ToSet(gone + present) - Ids(listing)
    {
      forall id | id in gone ensures id !in Ids(listing) { assert ConfirmedGone(exists_, lo, clock, id); }
      forall id | id in present ensures id in Ids(listing) { assert ConfirmedPresent(exists_, lo, clock, id); }
    }

    /** UPDATE ... SET deleted_at WHERE id IN ids AND deleted_at IS NULL; returns the rowcount. */
    method Tombstone(ids: seq<Id>, at: int) returns (count: nat)
      requires Valid()
      modifies this`wh, this`looks
      ensures looks == old(looks) + 1 && old(Seen()) <= Seen()
      ensures count == |LiveAmong(TableAt(first, elsewhere, old(looks)), ToSet(ids))|
      ensures MarksOnly(TableAt(first, elsewhere, old(looks)), wh, ToSet(ids), at, count)
    {
      Look();
      TombstonedMarksOnly(wh, ToSet(ids), at);
      count := |LiveAmong(wh, ToSet(ids))|;
      wh := Tombstoned(wh, ToSet(ids), at);
    }

    /** No row is marked that was not found, and each live one is. */
    lemma MarkedAtMost(before: Warehouse, after: Warehouse, ids: seq<Id>, at: int, marked: nat)
      requires MarksOnly(before, after, ToSet(ids), at, marked)
      ensures marked == |LiveAmong(before, ToSet(ids))| <= |ids|
    {
      assert Changed(before, after) == LiveAmong(before, ToSet(ids));
      SubsetSizes(LiveAmong(before, ToSet(ids)), ToSet(ids));
      ToSetSize(ids);
    }

    /** Left alone, every confirmed id is still a live row. */
    lemma AllLive(start: int, end: int, lo: nat)
      requires Undisturbed(elsewhere) && Valid() && NoRepeats(deleted + stillExist)
      requires Findings(source, exists_, lo, clock, Seen(), start, end, deleted, stillExist)
      ensures |LiveAmong(first, ToSet(deleted))| == |deleted|
    {
      SameTable();
      assert forall i, j :: 0 <= i < j < |deleted| ==>
        deleted[i] == (deleted + stillExist)[i] && deleted[j] == (deleted + stillExist)[j];
      ToSetSize(deleted);
      forall id | id in deleted ensures id in first && first[id].deletedAt.None? {
        assert id in deleted + stillExist && Examined(source, lo, clock, Seen(), start, end, id);
      }
      assert LiveAmong(first, ToSet(deleted)) == ToSet(deleted);
    }

    lemma {:induction false} ToSetSize(ids: seq<Id>)
      ensures |ToSet(ids)| <= |ids|
      ensures NoRepeats(ids) ==> |ToSet(ids)| == |ids|
    {
      if ids != [] {
        var init, last := ids[..|ids| - 1], ids[|ids| - 1];
        ToSetSize(init);
        assert ids == init + [last];
        assert ToSet(ids) == ToSet(init) + {last};
      }
    }

    /** Month-sized top-level windows, one after the other. */
    method Walk(start: int, end: int, ghost listing: seq<Row>) returns (failure: Option<Stop>)
      requires source.pageSize > 0 && deleted == stillExist == [] && missing == [] && Valid()
      modifies this
      ensures tombstoned == old(tombstoned) && applied == old(applied) && clock >= old(clock)
      ensures Valid() && old(Seen()) <= Seen() && looks >= old(looks)
      ensures Findings(source, exists_, old(clock), clock, Seen(), start, end, deleted, stillExist)
      ensures failure.Some? ==> failure.value.SourceFault? || failure.value.FetchFailed?
      ensures failure.None? ==> DoneMonths(old(clock), start, end, end)
      ensures Exact(listing, start, end) ==>
                && failure.None? && missing == MissingAll(listing, first, leafRows, start, end)
                && ToSet(deleted + stillExist) == FoundAll(listing, first, leafRows, start, end)
    {
      hide SettledMonths;
      hide Settled;
      hide OneTable;
      hide Hits;
      hide Synced;
      hide Findings;
      hide Fixed;
      hide Found;
      hide MissingIn;
      hide LiveIds;
      hide FoundAll;
      hide MissingAll;
      hide ToSet;
      hide Seen;
      hide TableAt;
      ghost var lo := clock;
      ghost var exact := Exact(listing, start, end);
      NothingFound();
      FindingsNone(source, exists_, lo, clock, Seen(), start, start);
      failure := None;
      var cursor := start;
      ghost var n: nat := 0;
      NoMonths(lo, start, end);
      while cursor < end
        invariant cursor == MonthStart(start, n) || cursor >= end
        invariant DoneMonths(lo, start, cursor, end)
        invariant tombstoned == old(tombstoned) && applied == old(applied) && clock >= lo
        invariant Valid() && old(Seen()) <= Seen() && looks >= old(looks)
        invariant start <= cursor && (cursor <= end || cursor == start)
        invariant Findings(source, exists_, lo, clock, Seen(), start, cursor, deleted, stillExist)
        invariant failure.None? && (cursor == start ==> deleted == stillExist == [])
        invariant exact ==> cursor % SECOND == 0
        invariant exact ==> missing + MissingAll(listing, first, leafRows, cursor, end) == MissingAll(listing, first, leafRows, start, end)
        invariant exact ==> ToSet(deleted + stillExist) + FoundAll(listing, first, leafRows, cursor, end)
                              == FoundAll(listing, first, leafRows, start, end)
        decreases end - cursor
      {
        var nxt := Min(cursor + 31 * DAY, end);
        ghost var k, seen, g, p, report := clock, Seen(), deleted, stillExist, Sofar(deleted + stillExist);
        if exact {
          assert (31 * DAY) % SECOND == 0;
          PartIsExact(listing, start, cursor, nxt, end);
        }
        ghost var gone, present;
        failure, gone, present := Check(cursor, nxt, listing);
        FindingsMerge(source, exists_, lo, k, clock, seen, Seen(), start, cursor, nxt, g, p, gone, present);
        if failure.Some? {
          FindingsWiden(source, exists_, lo, clock, Seen(), start, nxt, deleted, stillExist, lo, clock, Seen(), start, end);
          return;
        }
        UnionOfBoth(g, p, gone, present);
        ghost var later := Sofar(deleted + stillExist);
        assert Contains(later, report) && Contains(later, Sofar(gone + present)) by { MoreLooked(g, p, gone, present); }
        MonthsWiden(source, leafRows, lo, k, seen, start, cursor, end, report, clock, Seen(), later);
        SettledWidens(source, leafRows, k, clock, Seen(), cursor, nxt, Sofar(gone + present), lo, clock, Seen(), later);
        NextMonthSettled(source, leafRows, lo, clock, Seen(), start, n, end, later);
        MonthOutcome(listing, cursor, end);
        cursor := nxt;
        n := n + 1;
      }
      FewerMonths(lo, start, cursor, end);
      MonthOutcome(listing, cursor, end);
      if cursor > end { FindingsNone(source, exists_, lo, clock, Seen(), start, end); }
    }

    /** The months of [start, end) that begin before `to` have been dealt with. */
    ghost predicate DoneMonths(lo: nat, start: int, to: int, end: int)
      reads this`clock, this`looks, this`missing, this`deleted, this`stillExist
    {
      SettledMonths(source, leafRows, lo, clock, Seen(), start, to, end, Sofar(deleted + stillExist))
    }

    lemma FewerMonths(lo: nat, start: int, to: int, end: int)
      requires DoneMonths(lo, start, to, end) && end <= to
      ensures DoneMonths(lo, start, end, end)
    {
    }

    lemma NoMonths(lo: nat, start: int, end: int)
      ensures DoneMonths(lo, start, start, end)
    {
    }

    lemma MoreLooked(g: seq<Id>, p: seq<Id>, gone: seq<Id>, present: seq<Id>)
      ensures ToSet(g + p) <= ToSet((g + gone) + (p + present)) && ToSet(gone + present) <= ToSet((g + gone) + (p + present))
    {
    }

    lemma NothingFound()
      ensures ToSet([] + []) == {}
    {
    }

    lemma MonthOutcome(listing: seq<Row>, cursor: int, end: int)
      ensures cursor >= end ==> FoundAll(listing, first, leafRows, cursor, end) == {} && MissingAll(listing, first, leafRows, cursor, end) == []
      ensures cursor < end ==>
                var nxt := Min(cursor + 31 * DAY, end);
                && FoundAll(listing, first, leafRows, cursor, end)
                     == Found(listing, first, leafRows, cursor, nxt) + FoundAll(listing, first, leafRows, nxt, end)
                && MissingAll(listing, first, leafRows, cursor, end)
                     == MissingIn(listing, first, leafRows, cursor, nxt) + MissingAll(listing, first, leafRows, nxt, end)
    {
    }

    lemma PartIsExact(listing: seq<Row>, start: int, cursor: int, nxt: int, end: int)
      requires Exact(listing, start, end)
      requires start <= cursor <= nxt <= end && cursor % SECOND == 0 && nxt % SECOND == 0
      ensures Exact(listing, cursor, nxt)
    {
    }
  }
}
