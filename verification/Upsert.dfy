/** The guarded upsert: a per-key merge decided inside one SQL statement. */
module Upsert {
  import opened Wrappers
  import opened Instants

  // --- SQL three-valued logic -----------------------------------------------------------

  datatype Tri = True | False | Unknown

  function Or(a: Tri, b: Tri): Tri {
    if a == True || b == True then True else if a == Unknown || b == Unknown then Unknown else False
  }

  function And(a: Tri, b: Tri): Tri {
    if a == False || b == False then False else if a == Unknown || b == Unknown then Unknown else True
  }

  function Truth(b: bool): Tri {
    if b then True else False
  }

  function SqlGreater(a: Option<int>, b: Option<int>): Tri {
    if a.None? || b.None? then Unknown else Truth(a.value > b.value)
  }

  function SqlEqual(a: Option<int>, b: Option<int>): Tri {
    if a.None? || b.None? then Unknown else Truth(a.value == b.value)
  }

  // --- rows -----------------------------------------------------------------------------

  /** Primary-key values of a record; the stored key is an injective digest of them. */
  type Key = seq<string>

  datatype Stored = Stored(stamp: Option<int>, deletedAt: Option<int>, raw: string, runId: Option<int>)

  /** A row of an INSERT; `deleted_at` is always NULL in it. */
  datatype Incoming = Incoming(key: Key, stamp: Option<int>, raw: string, runId: Option<int>)

  type Table = map<Key, Stored>

  /** When may an incoming row overwrite the stored one? */
  function UpsertGuard(t: Stored, e: Incoming): Tri {
    Or(Truth(t.stamp.None?),
       Or(SqlGreater(e.stamp, t.stamp),
          Or(Truth(t.deletedAt.Some?),
             And(SqlEqual(e.stamp, t.stamp), Truth(t.raw != e.raw)))))
  }

  function Written(e: Incoming): Stored {
    Stored(e.stamp, None, e.raw, e.runId)
  }

  /** INSERT ... ON CONFLICT DO UPDATE ... WHERE guard, for one key. */
  function Merge(t: Option<Stored>, e: Incoming): Stored {
    if t.None? || UpsertGuard(t.value, e) == True then Written(e) else t.value
  }

  function Lookup(table: Table, key: Key): Option<Stored> {
    if key in table then Some(table[key]) else None
  }

  function MergeRow(table: Table, e: Incoming): Table {
    table[e.key := Merge(Lookup(table, e.key), e)]
  }

  function MergeAll(table: Table, rows: seq<Incoming>): Table
    decreases |rows|
  {
    if rows == [] then table else MergeAll(MergeRow(table, rows[0]), rows[1..])
  }

  lemma {:induction false} MergeAllAppend(table: Table, xs: seq<Incoming>, ys: seq<Incoming>)
    ensures MergeAll(table, xs + ys) == MergeAll(MergeAll(table, xs), ys)
    decreases |xs|
  {
    if xs == [] {
      assert xs + ys == ys;
    } else {
      assert (xs + ys)[1..] == xs[1..] + ys;
      MergeAllAppend(MergeRow(table, xs[0]), xs[1..], ys);
    }
  }

  /** Other keys are not touched. */
  lemma {:induction false} OtherKeysKeep(table: Table, rows: seq<Incoming>, k: Key)
    requires forall e :: e in rows ==> e.key != k
    ensures Lookup(MergeAll(table, rows), k) == Lookup(table, k)
    decreases |rows|
  {
    if rows != [] {
      assert rows[0] in rows && forall e :: e in rows[1..] ==> e in rows;
      OtherKeysKeep(MergeRow(table, rows[0]), rows[1..], k);
    }
  }

  /** A row whose key comes once is decided against the table as it was. */
  lemma {:induction false} DecidedOnce(table: Table, rows: seq<Incoming>, i: nat)
    requires i < |rows| && forall j :: 0 <= j < |rows| && j != i ==> rows[j].key != rows[i].key
    ensures Lookup(MergeAll(table, rows), rows[i].key) == Some(Merge(Lookup(table, rows[i].key), rows[i]))
    decreases |rows|
  {
    if i == 0 {
      forall e | e in rows[1..] ensures e.key != rows[0].key {
        var j :| 0 <= j < |rows[1..]| && rows[1..][j] == e;
        assert rows[j + 1] == e;
      }
      OtherKeysKeep(MergeRow(table, rows[0]), rows[1..], rows[0].key);
    } else {
      assert rows[1..][i - 1] == rows[i];
      forall j | 0 <= j < |rows[1..]| && j != i - 1 ensures rows[1..][j].key != rows[i].key { assert rows[1..][j] == rows[j + 1]; }
      DecidedOnce(MergeRow(table, rows[0]), rows[1..], i - 1);
    }
  }

  // --- one key --------------------------------------------------------------------------

  /** What readers of the warehouse see: who wrote a row is bookkeeping. */
  datatype Content = Content(stamp: Option<int>, live: bool, raw: string)

  function View(s: Stored): Content {
    Content(s.stamp, s.deletedAt.None?, s.raw)
  }

  /** A stored stamp moves backwards exactly when the row was tombstoned and the incoming row
      is older or carries no stamp at all. */
  lemma StampRegressesIff(t: Stored, e: Incoming)
    requires t.stamp.Some?
    ensures var after := Merge(Some(t), e).stamp;
            (after.None? || after.value < t.stamp.value) <==>
            (t.deletedAt.Some? && (e.stamp.None? || e.stamp.value < t.stamp.value))
  {
  }

  /** NULL comparisons are not true: an undated row never replaces a dated live one. */
  lemma UndatedNeverOverwrites(t: Stored, e: Incoming)
    requires t.stamp.Some? && t.deletedAt.None? && e.stamp.None?
    ensures UpsertGuard(t, e) == Unknown && Merge(Some(t), e) == t
  {
  }

  /** Is the outcome of two dated rows for one key decided by the order they arrive in? */
  predicate OrderMatters(t: Option<Stored>, x: Incoming, y: Incoming)
    requires x.stamp.Some?
  {
    && x.stamp == y.stamp && x.raw != y.raw
    && (t.None? || t.value.stamp.None? || t.value.deletedAt.Some? || t.value.stamp.value <= x.stamp.value)
  }

  /** Two dated rows commute except in one family: equal stamps, different payloads, and a
      stored row that does not outrank them. */
  lemma RowsCommuteIff(t: Option<Stored>, x: Incoming, y: Incoming)
    requires x.key == y.key && x.stamp.Some? && y.stamp.Some?
    ensures View(Merge(Some(Merge(t, x)), y)) == View(Merge(Some(Merge(t, y)), x)) <==> !OrderMatters(t, x, y)
  {
  }

  /** The stored row is live and no older than the incoming version. */
  predicate AtLeastAsNew(s: Stored, e: Incoming) {
    s.deletedAt.None? && (e.stamp.Some? ==> s.stamp.Some? && e.stamp.value <= s.stamp.value)
  }

  // --- whole tables ---------------------------------------------------------------------

  /** Payloads are determined by key and stamp, and every row is dated. */
  ghost predicate Versioned(rows: seq<Incoming>, payload: (Key, int) -> string) {
    forall e :: e in rows ==> e.stamp.Some? && e.raw == payload(e.key, e.stamp.value)
  }

  ghost predicate Clean(table: Table, payload: (Key, int) -> string) {
    forall k :: k in table ==>
      table[k].deletedAt.None? && (table[k].stamp.Some? ==> table[k].raw == payload(k, table[k].stamp.value))
  }

  /** `s` is what `key` must hold after `rows` were applied to `table`. */
  ghost predicate IsNewest(table: Table, rows: seq<Incoming>, key: Key, s: Stored) {
    && (forall e :: e in rows && e.key == key ==> s.stamp.Some? && e.stamp.Some? && e.stamp.value <= s.stamp.value)
    && (key in table && table[key].stamp.Some? ==> s.stamp.Some? && table[key].stamp.value <= s.stamp.value)
    && ((key in table && s == table[key]) || exists e :: e in rows && e.key == key && s == Written(e))
  }

  lemma {:induction false} MergedKeys(table: Table, rows: seq<Incoming>)
    ensures forall k :: k in MergeAll(table, rows) <==> k in table || exists e :: e in rows && e.key == k
    decreases |rows|
  {
    if rows != [] {
      var next := MergeRow(table, rows[0]);
      MergedKeys(next, rows[1..]);
      assert rows == [rows[0]] + rows[1..];
      assert rows[0] in rows;
    }
  }

  lemma MergeRowClean(table: Table, e: Incoming, payload: (Key, int) -> string)
    requires Versioned([e], payload) && Clean(table, payload)
    ensures Clean(MergeRow(table, e), payload)
    ensures IsNewest(table, [e], e.key, MergeRow(table, e)[e.key])
  {
    assert e in [e];
    assert e.stamp.Some? && e.raw == payload(e.key, e.stamp.value);
  }

  /** Convergence: whatever the order, the repeats and the batching, every key ends at the
      newest version offered for it, and no stored stamp went back. */
  lemma {:induction false} MergeAllIsNewest(table: Table, rows: seq<Incoming>, payload: (Key, int) -> string, key: Key)
    requires Versioned(rows, payload) && Clean(table, payload)
    requires key in MergeAll(table, rows)
    ensures Clean(MergeAll(table, rows), payload)
    ensures IsNewest(table, rows, key, MergeAll(table, rows)[key])
    decreases |rows|
  {
    if rows != [] {
      var e, rest := rows[0], rows[1..];
      assert rows == [e] + rest;
      assert e in rows && forall x :: x in rest ==> x in rows;
      MergeRowClean(table, e, payload);
      MergeAllIsNewest(MergeRow(table, e), rest, payload, key);
    }
  }

  function Versions(rows: seq<Incoming>): set<(Key, Option<int>)> {
    set e | e in rows :: (e.key, e.stamp)
  }

  lemma NewestIsUnique(
    table: Table, xs: seq<Incoming>, ys: seq<Incoming>, payload: (Key, int) -> string, key: Key, s: Stored, s': Stored)
    requires Versioned(xs, payload) && Versioned(ys, payload) && Clean(table, payload)
    requires Versions(xs) <= Versions(ys) && Versions(ys) <= Versions(xs)
    requires IsNewest(table, xs, key, s) && IsNewest(table, ys, key, s')
    ensures View(s) == View(s')
  {
    VersionOffered(table, xs, ys, payload, key, s, s');
    VersionOffered(table, ys, xs, payload, key, s', s);
  }

  lemma VersionOffered(
    table: Table, xs: seq<Incoming>, ys: seq<Incoming>, payload: (Key, int) -> string, key: Key, s: Stored, s': Stored)
    requires Versioned(xs, payload) && Versioned(ys, payload) && Clean(table, payload)
    requires Versions(xs) <= Versions(ys)
    requires IsNewest(table, xs, key, s) && IsNewest(table, ys, key, s')
    ensures s.deletedAt.None? && (s.stamp.Some? ==> s.raw == payload(key, s.stamp.value))
    ensures s.stamp.Some? ==> s'.stamp.Some? && s.stamp.value <= s'.stamp.value
    ensures s.stamp.None? ==> key in table && s == table[key]
  {
    if !(key in table && s == table[key]) {
      var e :| e in xs && e.key == key && s == Written(e);
      assert (e.key, e.stamp) in Versions(xs);
      var e' :| e' in ys && (e'.key, e'.stamp) == (e.key, e.stamp);
    }
  }

  /** Any two histories that offered the same versions leave the same warehouse. */
  lemma MergeConverges(table: Table, xs: seq<Incoming>, ys: seq<Incoming>, payload: (Key, int) -> string)
    requires Versioned(xs, payload) && Versioned(ys, payload) && Clean(table, payload)
    requires Versions(xs) == Versions(ys)
    ensures MergeAll(table, xs).Keys == MergeAll(table, ys).Keys
    ensures forall k :: k in MergeAll(table, xs) ==> View(MergeAll(table, xs)[k]) == View(MergeAll(table, ys)[k])
  {
    SameKeysOffered(table, xs, ys);
    SameKeysOffered(table, ys, xs);
    forall k | k in MergeAll(table, xs) ensures View(MergeAll(table, xs)[k]) == View(MergeAll(table, ys)[k]) {
      MergeAllIsNewest(table, xs, payload, k);
      MergeAllIsNewest(table, ys, payload, k);
      NewestIsUnique(table, xs, ys, payload, k, MergeAll(table, xs)[k], MergeAll(table, ys)[k]);
    }
  }

  lemma SameKeysOffered(table: Table, xs: seq<Incoming>, ys: seq<Incoming>)
    requires Versions(xs) <= Versions(ys)
    ensures MergeAll(table, xs).Keys <= MergeAll(table, ys).Keys
  {
    MergedKeys(table, xs);
    MergedKeys(table, ys);
    forall k | k in MergeAll(table, xs) ensures k in MergeAll(table, ys) {
      if k !in table {
        var e :| e in xs && e.key == k;
        assert (e.key, e.stamp) in Versions(xs);
        var e' :| e' in ys && (e'.key, e'.stamp) == (e.key, e.stamp);
      }
    }
  }

  lemma OutrankedRowIsNoOp(table: Table, e: Incoming, payload: (Key, int) -> string)
    requires Clean(table, payload) && e.key in table && table[e.key].stamp.Some?
    requires e.stamp.Some? && e.raw == payload(e.key, e.stamp.value) && e.stamp.value <= table[e.key].stamp.value
    ensures MergeRow(table, e) == table
  {
  }

  lemma {:induction false} OutrankedRowsAreNoOps(table: Table, rows: seq<Incoming>, payload: (Key, int) -> string)
    requires Clean(table, payload) && Versioned(rows, payload)
    requires forall e :: e in rows ==> e.key in table && table[e.key].stamp.Some? && e.stamp.value <= table[e.key].stamp.value
    ensures MergeAll(table, rows) == table
    decreases |rows|
  {
    if rows != [] {
      assert rows[0] in rows;
      OutrankedRowIsNoOp(table, rows[0], payload);
      assert forall e :: e in rows[1..] ==> e in rows;
      OutrankedRowsAreNoOps(table, rows[1..], payload);
    }
  }

  /** Replaying an overlap of versions already applied changes nothing at all, not even which
      run is recorded as the last writer. */
  lemma ReplayIsNoOp(table: Table, rows: seq<Incoming>, again: seq<Incoming>, payload: (Key, int) -> string)
    requires Versioned(rows, payload) && Versioned(again, payload) && Clean(table, payload)
    requires Versions(again) <= Versions(rows)
    ensures MergeAll(MergeAll(table, rows), again) == MergeAll(table, rows)
  {
    var after := MergeAll(table, rows);
    MergedKeys(table, rows);
    forall e | e in again
      ensures Clean(after, payload) && e.key in after && after[e.key].stamp.Some? && e.stamp.value <= after[e.key].stamp.value
    {
      assert (e.key, e.stamp) in Versions(again);
      var e' :| e' in rows && (e'.key, e'.stamp) == (e.key, e.stamp);
      MergeAllIsNewest(table, rows, payload, e.key);
    }
    if again != [] {
      assert again[0] in again;
      OutrankedRowsAreNoOps(after, again, payload);
    }
  }

  /** Whatever the table held and whatever else is written: every row applied is present
      afterwards, live, at its own version or a newer one. */
  lemma {:induction false} AppliedRowIsPresent(table: Table, rows: seq<Incoming>, e: Incoming)
    requires e in rows
    ensures e.key in MergeAll(table, rows) && AtLeastAsNew(MergeAll(table, rows)[e.key], e)
    decreases |rows|
  {
    var next := MergeRow(table, rows[0]);
    if e in rows[1..] {
      AppliedRowIsPresent(next, rows[1..], e);
    } else {
      assert e == rows[0];
      StaysAtLeastAsNew(next, rows[1..], e);
    }
  }

  lemma {:induction false} StaysAtLeastAsNew(table: Table, rows: seq<Incoming>, e: Incoming)
    requires e.key in table && AtLeastAsNew(table[e.key], e)
    ensures e.key in MergeAll(table, rows) && AtLeastAsNew(MergeAll(table, rows)[e.key], e)
    decreases |rows|
  {
    if rows != [] { StaysAtLeastAsNew(MergeRow(table, rows[0]), rows[1..], e); }
  }

  class Database {
    var table: Table

    constructor ()
      ensures table == map[]
    {
      table := map[];
    }

    /** Batch INSERT ... ON CONFLICT in chunks: the chunking is invisible in the result. */
    method BulkUpsert(rows: seq<Incoming>, chunkSize: nat := 500) returns (total: nat)
      requires chunkSize > 0
      modifies this
      ensures table == MergeAll(old(table), rows) && total == |rows|
    {
      total := 0;
      var start := 0;
      while start < |rows|
        invariant 0 <= start && total == Min(start, |rows|)
        invariant table == MergeAll(old(table), rows[..Min(start, |rows|)])
        decreases |rows| - start
      {
        var end := Min(start + chunkSize, |rows|);
        var chunk := rows[start..end];
        MergeAllAppend(old(table), rows[..start], chunk);
        assert rows[..start] + chunk == rows[..end];
        table := MergeAll(table, chunk);
        total := total + |chunk|;
        start := start + chunkSize;
      }
      assert rows[..|rows|] == rows;
    }
  }
}
