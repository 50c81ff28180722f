/** Validation, the destination write with its accounting, and the reconciliation gate. */
module Writer {
  import opened Wrappers
  import opened Instants
  import opened Source
  import opened WindowSpec
  import opened Upsert

  /** A record on its way to the destination. `keyValues` follows the primary-key fields. */
  datatype Record = Record(keyValues: seq<Option<string>>, date: Option<int>, stamp: Option<int>, raw: string)

  datatype Reason = MissingKey | MissingDate | DuplicateKey

  predicate HasKey(r: Record) {
    forall i :: 0 <= i < |r.keyValues| ==> r.keyValues[i] != None && r.keyValues[i] != Some("")
  }

  /** Some part of the key is missing or blank. */
  ghost predicate BlankKey(r: Record) {
    exists i :: 0 <= i < |r.keyValues| && (r.keyValues[i].None? || r.keyValues[i].value == "")
  }

  predicate Acceptable(r: Record, requireDate: bool) {
    HasKey(r) && (requireDate ==> r.date.Some?)
  }

  function KeyOf(r: Record): Key
    requires HasKey(r)
  {
    seq(|r.keyValues|, i requires 0 <= i < |r.keyValues| => r.keyValues[i].value)
  }

  /** The records validation keeps: acceptable ones, the first of each key. */
  function Kept(records: seq<Record>, requireDate: bool): (kept: seq<Record>)
    ensures forall r :: r in kept ==> r in records && Acceptable(r, requireDate)
  {
    if records == [] then []
    else
      var init := Kept(records[..|records| - 1], requireDate);
      var r := records[|records| - 1];
      if Acceptable(r, requireDate) && KeyOf(r) !in KeysOf(init) then init + [r] else init
  }

  function KeysOf(records: seq<Record>): set<Key>
    requires forall r :: r in records ==> HasKey(r)
  {
    set r | r in records :: KeyOf(r)
  }

  lemma {:induction false} KeptFacts(records: seq<Record>, requireDate: bool)
    ensures |Kept(records, requireDate)| <= |records|
    ensures |KeysOf(Kept(records, requireDate))| == |Kept(records, requireDate)|
    ensures forall r :: r in records && Acceptable(r, requireDate) ==> KeyOf(r) in KeysOf(Kept(records, requireDate))
  {
    if records != [] {
      var init, r := records[..|records| - 1], records[|records| - 1];
      assert records == init + [r];
      KeptFacts(init, requireDate);
      var kept := Kept(init, requireDate);
      if Acceptable(r, requireDate) {
        assert KeysOf(kept + [r]) == KeysOf(kept) + {KeyOf(r)} by {
          assert (kept + [r])[|kept|] == r;
        }
      }
    }
  }

  /** Identified, dated, all keys different: nothing for validation to reject. */
  predicate Distinct(records: seq<Record>, requireDate: bool) {
    && (forall r :: r in records ==> Acceptable(r, requireDate))
    && (forall i, j :: 0 <= i < j < |records| ==> records[i].keyValues != records[j].keyValues)
  }

  lemma KeyOfInjective(r: Record, r': Record)
    requires HasKey(r) && HasKey(r') && KeyOf(r) == KeyOf(r')
    ensures r.keyValues == r'.keyValues
  {
    assert |r.keyValues| == |KeyOf(r)| == |r'.keyValues|;
    forall i | 0 <= i < |r.keyValues| ensures r.keyValues[i] == r'.keyValues[i] {
      assert KeyOf(r)[i] == KeyOf(r')[i];
    }
  }

  lemma KeyFollowsValues(r: Record, r': Record)
    requires HasKey(r) && HasKey(r')
    ensures r.keyValues == r'.keyValues ==> KeyOf(r) == KeyOf(r')
  {
  }

  lemma LastKeyIsNew(records: seq<Record>, requireDate: bool)
    requires Distinct(records, requireDate) && records != []
    ensures Distinct(records[..|records| - 1], requireDate)
    ensures Acceptable(records[|records| - 1], requireDate)
    ensures KeyOf(records[|records| - 1]) !in KeysOf(records[..|records| - 1])
  {
    var init, r := records[..|records| - 1], records[|records| - 1];
    assert r in records;
    forall x | x in init
      ensures Acceptable(x, requireDate) && KeyOf(x) != KeyOf(r)
    {
      var i :| 0 <= i < |init| && records[i] == x;
      assert x in records && records[i].keyValues != records[|init|].keyValues;
      if KeyOf(x) == KeyOf(r) { KeyOfInjective(x, r); }
    }
  }

  lemma {:induction false} DistinctRecordsAreKept(records: seq<Record>, requireDate: bool)
    requires Distinct(records, requireDate)
    ensures Kept(records, requireDate) == records
  {
    if records != [] {
      LastKeyIsNew(records, requireDate);
      DistinctRecordsAreKept(records[..|records| - 1], requireDate);
      hide Distinct;
      hide Kept;
      hide HasKey;
      KeepNext(records, requireDate, |records| - 1);
      assert records[..|records| - 1 + 1] == records;
    }
  }

  lemma {:induction false} KeptIsDistinct(records: seq<Record>, requireDate: bool)
    ensures Distinct(Kept(records, requireDate), requireDate)
  {
    if records != [] {
      var init, r := Kept(records[..|records| - 1], requireDate), records[|records| - 1];
      KeptIsDistinct(records[..|records| - 1], requireDate);
      if Kept(records, requireDate) != init {
        forall x | x in init ensures x.keyValues != r.keyValues { KeyFollowsValues(x, r); }
      }
    }
  }

  /** Why a record may be left out. */
  predicate Explains(skip: (Record, Reason), requireDate: bool, keys: set<Key>) {
    match skip.1
    case MissingKey => !HasKey(skip.0)
    case MissingDate => HasKey(skip.0) && requireDate && skip.0.date.None?
    case DuplicateKey => Acceptable(skip.0, requireDate) && KeyOf(skip.0) in keys
  }

  lemma KeepNext(records: seq<Record>, requireDate: bool, i: nat)
    requires i < |records|
    ensures var kept, r := Kept(records[..i], requireDate), records[i];
            if Acceptable(r, requireDate) && KeyOf(r) !in KeysOf(kept) then
              Kept(records[..i + 1], requireDate) == kept + [r] &&
              KeysOf(kept + [r]) == KeysOf(kept) + {KeyOf(r)}
            else Kept(records[..i + 1], requireDate) == kept
  {
    assert records[..i + 1][..i] == records[..i];
    var kept, r := Kept(records[..i], requireDate), records[i];
    assert (kept + [r])[|kept|] == r;
  }

  /** One record per key is kept; whatever is dropped is dropped for a stated reason. */
  method ValidateRecords(records: seq<Record>, requireDate: bool)
    returns (valid: seq<Record>, skipped: seq<(Record, Reason)>)
    ensures valid == Kept(records, requireDate)
    ensures |valid| + |skipped| == |records|
    ensures forall s :: s in skipped ==> s.0 in records && Explains(s, requireDate, KeysOf(valid))
    ensures forall r :: r in valid ==> !BlankKey(r) && (requireDate ==> r.date.Some?)
    ensures forall s :: s in skipped ==> (s.1.MissingKey? <==> BlankKey(s.0))
  {
    BlankIff(records);
    hide Kept;
    hide BlankKey;
    hide HasKey;
    hide KeyOf;
    valid, skipped := [], [];
    var seen: set<Key> := {};
    KeepNone(requireDate);
    assert records[..0] == [];
    for i := 0 to |records|
      invariant valid == Kept(records[..i], requireDate) && seen == KeysOf(valid)
      invariant |valid| + |skipped| == i
      invariant forall s :: s in skipped ==> s.0 in records && Explains(s, requireDate, seen)
    {
      var record := records[i];
      KeepNext(records, requireDate, i);
      if !HasKey(record) {
        skipped := skipped + [(record, MissingKey)];
      } else if requireDate && record.date.None? {
        skipped := skipped + [(record, MissingDate)];
      } else if KeyOf(record) in seen {
        skipped := skipped + [(record, DuplicateKey)];
      } else {
        seen := seen + {KeyOf(record)};
        valid := valid + [record];
      }
    }
    assert records[..|records|] == records;
  }

  lemma BlankIff(records: seq<Record>)
    ensures forall r :: r in records ==> (BlankKey(r) <==> !HasKey(r))
  {
    forall r | r in records ensures BlankKey(r) <==> !HasKey(r) {
      if !HasKey(r) {
        var i :| 0 <= i < |r.keyValues| && !(r.keyValues[i] != None && r.keyValues[i] != Some(""));
        assert r.keyValues[i].None? || r.keyValues[i].value == "";
      }
    }
  }

  lemma KeepNone(requireDate: bool)
    ensures Kept([], requireDate) == [] && KeysOf([]) == {}
  {
  }

  // --- the write --------------------------------------------------------------------------

  datatype WriteResult = WriteResult(
    fetched: nat, inserted: int, updated: int, skipped: nat, persisted: nat, leftAlone: int) {

    function Add(other: WriteResult): WriteResult {
      WriteResult(fetched + other.fetched, inserted + other.inserted, updated + other.updated,
                  skipped + other.skipped, persisted + other.persisted, leftAlone + other.leftAlone)
    }
  }

  const NOTHING_WRITTEN := WriteResult(0, 0, 0, 0, 0, 0)

  function IncomingOf(r: Record, runId: Option<int>): Incoming
    requires HasKey(r)
  {
    Incoming(KeyOf(r), r.stamp, r.raw, runId)
  }

  function ReportRows(records: seq<Record>, runId: Option<int>): (rows: seq<Incoming>)
    requires forall r :: r in records ==> HasKey(r)
    ensures |rows| == |records|
    ensures forall i :: 0 <= i < |rows| ==> rows[i] == IncomingOf(records[i], runId)
  {
    seq(|records|, i requires 0 <= i < |records| => IncomingOf(records[i], runId))
  }

  /** SELECT count(*) ... WHERE record_key IN keys. */
  function Existing(table: Table, keys: set<Key>): set<Key> {
    set k | k in keys && k in table
  }

  /** ... AND sync_run_id = this run. */
  function WrittenBy(table: Table, keys: set<Key>, runId: Option<int>): set<Key> {
    set k | k in keys && k in table && table[k].runId == runId
  }

  // --- what the counters mean -------------------------------------------------------------

  /** Records whose stored row the guard lets them overwrite. */
  function Overwritten(table: Table, records: seq<Record>, runId: Option<int>): set<Key>
    requires forall r :: r in records ==> HasKey(r)
  {
    set r | r in records && KeyOf(r) in table && UpsertGuard(table[KeyOf(r)], IncomingOf(r, runId)) == True :: KeyOf(r)
  }

  /** The run is new to the rows it meets. */
  ghost predicate NewToRun(table: Table, keys: set<Key>, runId: Option<int>) {
    forall k :: k in keys && k in table ==> table[k].runId != runId
  }

  /** Keys that were not there, rows the guard let us overwrite, and rows it left alone. Without a run
      id every row that was there counts as updated. */
  ghost predicate CountsAre(keys: set<Key>, overwritten: set<Key>, there: set<Key>, isNew: bool, runId: Option<int>, r: WriteResult) {
    && r.inserted == |keys - there|
    && (runId.None? ==> r.updated == |keys * there| && r.leftAlone == 0)
    && (runId.Some? && isNew ==> r.updated == |overwritten| && r.updated + r.leftAlone == |keys * there|)
  }

  /** The counters of `records`, all different, written over `before`. */
  ghost predicate Tallies(before: Table, records: seq<Record>, requireDate: bool, runId: Option<int>, r: WriteResult) {
    Distinct(records, requireDate) ==>
      CountsAre(KeysOf(records), Overwritten(before, records, runId), before.Keys, NewToRun(before, KeysOf(records), runId), runId, r)
  }

  /** A key of distinct records is written exactly if it is new or its stored row may be overwritten. */
  lemma WrittenByIff(before: Table, records: seq<Record>, requireDate: bool, runId: Option<int>, i: nat)
    requires Distinct(records, requireDate) && i < |records| && NewToRun(before, KeysOf(records), runId)
    ensures KeyOf(records[i]) in WrittenBy(MergeAll(before, ReportRows(records, runId)), KeysOf(records), runId) <==>
              KeyOf(records[i]) !in before || UpsertGuard(before[KeyOf(records[i])], IncomingOf(records[i], runId)) == True
  {
    var rows, k := ReportRows(records, runId), KeyOf(records[i]);
    assert records[i] in records;
    forall j | 0 <= j < |rows| && j != i ensures rows[j].key != rows[i].key {
      assert records[j] in records && records[j].keyValues != records[i].keyValues;
      if KeyOf(records[j]) == k { KeyOfInjective(records[j], records[i]); }
    }
    DecidedOnce(before, rows, i);
  }

  lemma WrittenIsNewOrOverwritten(before: Table, records: seq<Record>, requireDate: bool, runId: Option<int>)
    requires Distinct(records, requireDate) && NewToRun(before, KeysOf(records), runId)
    ensures WrittenBy(MergeAll(before, ReportRows(records, runId)), KeysOf(records), runId)
         == (KeysOf(records) - before.Keys) + Overwritten(before, records, runId)
  {
    var written := WrittenBy(MergeAll(before, ReportRows(records, runId)), KeysOf(records), runId);
    forall k | k in KeysOf(records)
      ensures k in written <==> k in (KeysOf(records) - before.Keys) + Overwritten(before, records, runId)
    {
      var r :| r in records && KeyOf(r) == k;
      var i :| 0 <= i < |records| && records[i] == r;
      WrittenByIff(before, records, requireDate, runId, i);
      if k in Overwritten(before, records, runId) {
        var r' :| r' in records && KeyOf(r') == k && k in before && UpsertGuard(before[k], IncomingOf(r', runId)) == True;
        var j :| 0 <= j < |records| && records[j] == r';
        WrittenByIff(before, records, requireDate, runId, j);
      }
    }
  }

  lemma Disjoint(xs: set<Key>, ys: set<Key>)
    requires xs !! ys
    ensures |xs + ys| == |xs| + |ys|
  {
  }

  /** Two distinct parts of distinct records: the second finds its rows as the first did. */
  lemma PartsAreApart(before: Table, xs: seq<Record>, ys: seq<Record>, requireDate: bool, runId: Option<int>)
    requires Distinct(xs + ys, requireDate) && Distinct(xs, requireDate) && Distinct(ys, requireDate)
    ensures KeysOf(xs) !! KeysOf(ys) && KeysOf(xs + ys) == KeysOf(xs) + KeysOf(ys)
    ensures forall k :: k in KeysOf(ys) ==> Lookup(MergeAll(before, ReportRows(xs, runId)), k) == Lookup(before, k)
    ensures Overwritten(before, xs + ys, runId) == Overwritten(before, xs, runId) + Overwritten(before, ys, runId)
    ensures Overwritten(MergeAll(before, ReportRows(xs, runId)), ys, runId) == Overwritten(before, ys, runId)
  {
    var all, rows, mid := xs + ys, ReportRows(xs, runId), MergeAll(before, ReportRows(xs, runId));
    forall x, y | x in xs && y in ys ensures KeyOf(x) != KeyOf(y) {
      var i :| 0 <= i < |xs| && xs[i] == x;
      var j :| 0 <= j < |ys| && ys[j] == y;
      assert all[i] == x && all[|xs| + j] == y;
      if KeyOf(x) == KeyOf(y) { KeyOfInjective(x, y); }
    }
    assert forall r :: r in all <==> r in xs || r in ys;
    forall k | k in KeysOf(ys) ensures Lookup(mid, k) == Lookup(before, k) {
      forall e | e in rows ensures e.key != k {
        var i :| 0 <= i < |rows| && rows[i] == e;
        assert xs[i] in xs;
      }
      OtherKeysKeep(before, rows, k);
    }
    forall y | y in ys
      ensures KeyOf(y) in mid <==> KeyOf(y) in before
      ensures KeyOf(y) in before ==> mid[KeyOf(y)] == before[KeyOf(y)]
    {
      assert KeyOf(y) in KeysOf(ys);
      assert Lookup(mid, KeyOf(y)) == Lookup(before, KeyOf(y));
    }
  }

  lemma CountsAdd(kx: set<Key>, ky: set<Key>, ox: set<Key>, oy: set<Key>, there: set<Key>, newX: bool, newY: bool, both: bool,
                  runId: Option<int>, a: WriteResult, b: WriteResult)
    requires kx !! ky && ox <= kx && oy <= ky && (both ==> newX && newY)
    requires CountsAre(kx, ox, there, newX, runId, a) && CountsAre(ky, oy, there, newY, runId, b)
    ensures CountsAre(kx + ky, ox + oy, there, both, runId, a.Add(b))
  {
    assert (kx + ky) - there == (kx - there) + (ky - there);
    assert (kx + ky) * there == kx * there + ky * there;
    Disjoint(kx - there, ky - there);
    Disjoint(kx * there, ky * there);
    Disjoint(ox, oy);
  }

  lemma SameCounts(keys: set<Key>, overwritten: set<Key>, there: set<Key>, there': set<Key>, isNew: bool, isNew': bool,
                   runId: Option<int>, r: WriteResult)
    requires keys - there == keys - there' && keys * there == keys * there' && (isNew' ==> isNew)
    requires CountsAre(keys, overwritten, there, isNew, runId, r)
    ensures CountsAre(keys, overwritten, there', isNew', runId, r)
  {
  }

  lemma SameWhereLookedUp(before: Table, mid: Table, keys: set<Key>, runId: Option<int>)
    requires forall k :: k in keys ==> Lookup(mid, k) == Lookup(before, k)
    ensures keys - mid.Keys == keys - before.Keys && keys * mid.Keys == keys * before.Keys
    ensures NewToRun(before, keys, runId) ==> NewToRun(mid, keys, runId)
  {
    forall k | k in keys
      ensures (k in mid <==> k in before) && (k in before ==> mid[k] == before[k])
    {
      assert Lookup(mid, k) == Lookup(before, k);
    }
  }

  lemma NewToParts(before: Table, kx: set<Key>, ky: set<Key>, runId: Option<int>)
    ensures NewToRun(before, kx + ky, runId) ==> NewToRun(before, kx, runId) && NewToRun(before, ky, runId)
  {
  }

  lemma OverwrittenKeys(table: Table, records: seq<Record>, runId: Option<int>)
    requires forall r :: r in records ==> HasKey(r)
    ensures Overwritten(table, records, runId) <= KeysOf(records) && Overwritten(table, records, runId) <= table.Keys
  {
  }

  /** The counters of two batches add up to those of both. */
  lemma TalliesAdd(before: Table, xs: seq<Record>, ys: seq<Record>, requireDate: bool, runId: Option<int>, a: WriteResult, b: WriteResult)
    requires Distinct(xs + ys, requireDate) && Distinct(xs, requireDate) && Distinct(ys, requireDate)
    requires Tallies(before, xs, requireDate, runId, a)
    requires Tallies(MergeAll(before, ReportRows(xs, runId)), ys, requireDate, runId, b)
    ensures Tallies(before, xs + ys, requireDate, runId, a.Add(b))
  {
    hide KeysOf;
    hide Overwritten;
    hide MergeAll;
    hide HasKey;
    hide Lookup;
    hide NewToRun;
    hide CountsAre;
    PartsAreApart(before, xs, ys, requireDate, runId);
    OverwrittenKeys(before, xs, runId);
    OverwrittenKeys(before, ys, runId);
    var mid, kx, ky := MergeAll(before, ReportRows(xs, runId)), KeysOf(xs), KeysOf(ys);
    var ox, oy := Overwritten(before, xs, runId), Overwritten(before, ys, runId);
    SameWhereLookedUp(before, mid, ky, runId);
    NewToParts(before, kx, ky, runId);
    SameCounts(ky, oy, mid.Keys, before.Keys, NewToRun(mid, ky, runId), NewToRun(before, ky, runId), runId, b);
    CountsAdd(kx, ky, ox, oy, before.Keys, NewToRun(before, kx, runId), NewToRun(before, ky, runId),
              NewToRun(before, kx + ky, runId), runId, a, b);
  }

  lemma ReportRowsAppend(xs: seq<Record>, ys: seq<Record>, runId: Option<int>)
    requires forall r :: r in xs + ys ==> HasKey(r)
    ensures (forall r :: r in xs ==> HasKey(r)) && (forall r :: r in ys ==> HasKey(r))
    ensures ReportRows(xs + ys, runId) == ReportRows(xs, runId) + ReportRows(ys, runId)
  {
    forall r | r in xs ensures r in xs + ys {}
    forall r | r in ys ensures r in xs + ys {}
  }

  /** After the upsert every submitted key is present, and a key that was not there before was
      written by this run. */
  lemma SubmittedKeysPresent(before: Table, records: seq<Record>, runId: Option<int>)
    requires forall r :: r in records ==> HasKey(r)
    ensures var after := MergeAll(before, ReportRows(records, runId));
            Existing(after, KeysOf(records)) == KeysOf(records)
    ensures var after := MergeAll(before, ReportRows(records, runId));
            KeysOf(records) - Existing(before, KeysOf(records)) <= WrittenBy(after, KeysOf(records), runId)
  {
    var rows := ReportRows(records, runId);
    MergedKeys(before, rows);
    forall r | r in records ensures KeyOf(r) in MergeAll(before, rows) {
      var i :| 0 <= i < |records| && records[i] == r;
      assert rows[i] in rows;
    }
    forall k | k in KeysOf(records) && k !in before ensures MergeAll(before, rows)[k].runId == runId {
      NewKeyCarriesRun(before, rows, runId, k);
    }
  }

  lemma {:induction false} NewKeyCarriesRun(table: Table, rows: seq<Incoming>, runId: Option<int>, k: Key)
    requires forall e :: e in rows ==> e.runId == runId
    requires k in table ==> table[k].runId == runId
    requires k in MergeAll(table, rows)
    ensures MergeAll(table, rows)[k].runId == runId
    decreases |rows|
  {
    if rows != [] {
      assert rows[0] in rows;
      NewKeyCarriesRun(MergeRow(table, rows[0]), rows[1..], runId, k);
    }
  }

  class DestinationWriter {
    const db: Database
    const runId: Option<int>

    constructor (db: Database, runId: Option<int>)
      ensures this.db == db && this.runId == runId
    {
      this.db := db;
      this.runId := runId;
    }

    /** What one batch write leaves behind and reports. */
    ghost predicate Reports(before: Table, after: Table, records: seq<Record>, requireDate: bool, r: WriteResult) {
      var kept := Kept(records, requireDate);
      var keys := KeysOf(kept);
      && after == MergeAll(before, ReportRows(kept, runId))
      && r.fetched == |records|
      && r.persisted == |kept|
      && r.skipped == |records| - |kept|
      && r.inserted == |keys - Existing(before, keys)|
      && (runId.Some? ==> r.inserted + r.updated == |WrittenBy(after, keys, runId)|)
      && (runId.None? ==> r.updated == |Existing(before, keys)| && r.leftAlone == 0)
      && (runId.Some? ==> r.inserted + r.updated + r.leftAlone == |kept|)
    }

    lemma ReportedTallies(before: Table, after: Table, records: seq<Record>, requireDate: bool, r: WriteResult)
      requires Reports(before, after, records, requireDate, r)
      ensures Tallies(before, Kept(records, requireDate), requireDate, runId, r)
    {
      hide Kept;
      hide MergeAll;
      hide ReportRows;
      hide HasKey;
      hide NewToRun;
      var kept := Kept(records, requireDate);
      KeptFacts(records, requireDate);
      KeptIsDistinct(records, requireDate);
      hide Distinct;
      var keys := KeysOf(kept);
      var written, overwritten, isNew := WrittenBy(after, keys, runId), Overwritten(before, kept, runId), NewToRun(before, keys, runId);
      ExistingIs(before, keys);
      if isNew { WrittenIsNewOrOverwritten(before, kept, requireDate, runId); }
      OverwrittenKeys(before, kept, runId);
      hide KeysOf;
      hide Overwritten;
      hide WrittenBy;
      hide Existing;
      CountersAdd(keys, overwritten, written, before.Keys, isNew, r);
    }

    lemma ExistingIs(before: Table, keys: set<Key>)
      ensures Existing(before, keys) == keys * before.Keys && keys - Existing(before, keys) == keys - before.Keys
    {
    }

    lemma CountersAdd(keys: set<Key>, overwritten: set<Key>, written: set<Key>, there: set<Key>, isNew: bool, r: WriteResult)
      requires r.inserted == |keys - there| && overwritten <= there
      requires runId.Some? ==> r.inserted + r.updated == |written| && r.inserted + r.updated + r.leftAlone == |keys|
      requires runId.None? ==> r.updated == |keys * there| && r.leftAlone == 0
      requires isNew ==> written == (keys - there) + overwritten
      ensures CountsAre(keys, overwritten, there, isNew, runId, r)
    {
      SplitCount(keys, keys * there);
      assert keys - keys * there == keys - there;
      Disjoint(keys - there, overwritten);
    }

    /** Validate, upsert in one transaction, then measure what is really in the table. */
    method WriteRecords(records: seq<Record>, requireDate: bool) returns (result: WriteResult)
      modifies db
      ensures Reports(old(db.table), db.table, records, requireDate, result)
      ensures Tallies(old(db.table), Kept(records, requireDate), requireDate, runId, result)
    {
      hide Tallies;
      hide Kept;
      hide HasKey;
      hide MergeAll;
      hide BlankKey;
      hide Explains;
      result := NOTHING_WRITTEN.(fetched := |records|);
      ghost var before := db.table;
      var valid, skips := ValidateRecords(records, requireDate);
      KeptFacts(records, requireDate);
      if valid != [] {
        var keys := KeysOf(valid);
        var existing := |Existing(db.table, keys)|;
        var submitted := db.BulkUpsert(ReportRows(valid, runId));
        result := result.(updated := existing, inserted := |valid| - existing);
        SubmittedKeysPresent(before, valid, runId);
        SplitCount(keys, Existing(before, keys));
        result := result.(persisted := |Existing(db.table, keys)|);
        if runId.Some? {
          var written := |WrittenBy(db.table, keys, runId)|;
          SubsetCount(keys - Existing(before, keys), WrittenBy(db.table, keys, runId));
          SubsetCount(WrittenBy(db.table, keys, runId), keys);
          result := result.(updated := Max(0, written - result.inserted));
          result := result.(leftAlone := Max(0, existing - result.updated));
        }
      } else {
        NoKeys(before, db.table);
      }
      result := result.(skipped := |skips|);
      ReportedTallies(before, db.table, records, requireDate, result);
    }

    lemma NoKeys(before: Table, after: Table)
      ensures KeysOf([]) == {} && Existing(before, {}) == {} && WrittenBy(after, {}, runId) == {}
      ensures MergeAll(before, ReportRows([], runId)) == before
    {
    }

    lemma SplitCount(all: set<Key>, part: set<Key>)
      requires part <= all
      ensures |all - part| + |part| == |all|
    {
      assert (all - part) + part == all;
    }

    lemma SubsetCount(small: set<Key>, large: set<Key>)
      requires small <= large
      ensures |small| <= |large|
    {
      SplitCount(large, small);
    }

    /** Write a verified window batch by batch, as the run does before reconciling it. */
    method WriteWindow(records: seq<Record>, requireDate: bool, batchSize: nat := 1000) returns (total: WriteResult)
      requires batchSize > 0
      modifies db
      ensures total.fetched == |records| == total.persisted + total.skipped
      ensures Distinct(records, requireDate) ==>
                total.skipped == 0 && Applied(old(db.table), db.table, records, requireDate)
      ensures Tallies(old(db.table), records, requireDate, runId, total)
    {
      hide Tallies;
      hide Distinct;
      hide Reports;
      hide Kept;
      hide MergeAll;
      total := NOTHING_WRITTEN;
      ghost var before := db.table;
      NothingYet(before, records, requireDate);
      var i := 0;
      while i < |records|
        invariant 0 <= i && total.fetched == Min(i, |records|) == total.persisted + total.skipped
        invariant Distinct(records, requireDate) ==> total.skipped == 0
        invariant Distinct(records, requireDate) ==> Applied(before, db.table, records[..Min(i, |records|)], requireDate)
        invariant Distinct(records, requireDate) ==> Tallies(before, records[..Min(i, |records|)], requireDate, runId, total)
        decreases |records| - i
      {
        var end := Min(i + batchSize, |records|);
        ghost var mid := db.table;
        var written := WriteRecords(records[i..end], requireDate);
        BatchCounts(mid, db.table, records[i..end], requireDate, written);
        if Distinct(records, requireDate) {
          NextBatch(before, mid, db.table, records, requireDate, i, end, written);
          NextTallies(before, mid, records, requireDate, i, end, total, written);
        }
        total := total.Add(written);
        i := i + batchSize;
      }
      assert records[..|records|] == records;
      if !Distinct(records, requireDate) { UntalliedRepeats(before, records, requireDate, total); }
    }

    lemma UntalliedRepeats(before: Table, records: seq<Record>, requireDate: bool, r: WriteResult)
      requires !Distinct(records, requireDate)
      ensures Tallies(before, records, requireDate, runId, r)
    {
    }

    lemma NextTallies(before: Table, mid: Table, records: seq<Record>, requireDate: bool, i: nat, end: nat, total: WriteResult, written: WriteResult)
      requires Distinct(records, requireDate) && i <= end <= |records|
      requires Applied(before, mid, records[..i], requireDate)
      requires Tallies(before, records[..i], requireDate, runId, total)
      requires Tallies(mid, Kept(records[i..end], requireDate), requireDate, runId, written)
      ensures Tallies(before, records[..end], requireDate, runId, total.Add(written))
    {
      hide Tallies;
      hide Kept;
      PartsAreDistinct(records, requireDate, i, end);
      DistinctRecordsAreKept(records[i..end], requireDate);
      TalliesAdd(before, records[..i], records[i..end], requireDate, runId, total, written);
    }

    lemma NothingYet(before: Table, records: seq<Record>, requireDate: bool)
      ensures Applied(before, before, records[..0], requireDate)
      ensures Tallies(before, records[..0], requireDate, runId, NOTHING_WRITTEN)
    {
      assert records[..0] == [] && KeysOf([]) == {} && Overwritten(before, [], runId) == {};
    }

    lemma BatchCounts(before: Table, after: Table, records: seq<Record>, requireDate: bool, r: WriteResult)
      requires Reports(before, after, records, requireDate, r)
      ensures r.fetched == |records| == r.persisted + r.skipped
    {
      KeptFacts(records, requireDate);
    }

    /** `records`, all different, are applied to `before`. */
    ghost predicate Applied(before: Table, after: Table, records: seq<Record>, requireDate: bool) {
      Distinct(records, requireDate) && after == MergeAll(before, ReportRows(records, runId))
    }

    lemma NextBatch(
      before: Table, mid: Table, after: Table, records: seq<Record>, requireDate: bool, i: nat, end: nat, r: WriteResult)
      requires Distinct(records, requireDate) && i <= end <= |records|
      requires Applied(before, mid, records[..i], requireDate)
      requires Reports(mid, after, records[i..end], requireDate, r)
      ensures r.skipped == 0 && Applied(before, after, records[..end], requireDate)
    {
      PartsAreDistinct(records, requireDate, i, end);
      DistinctRecordsAreKept(records[i..end], requireDate);
      ReportRowsAppend(records[..i], records[i..end], runId);
      MergeAllAppend(before, ReportRows(records[..i], runId), ReportRows(records[i..end], runId));
    }

    lemma PartsAreDistinct(records: seq<Record>, requireDate: bool, i: nat, end: nat)
      requires Distinct(records, requireDate) && i <= end <= |records|
      ensures Distinct(records[i..end], requireDate) && Distinct(records[..end], requireDate)
      ensures records[..end] == records[..i] + records[i..end]
    {
      forall r | r in records[i..end] || r in records[..end] ensures r in records {}
    }
  }

  // --- the gate ---------------------------------------------------------------------------

  datatype WindowBatch = WindowBatch(
    start: int, end: int, records: seq<Record>, sourceCount: nat, fetchedRows: nat, distinctIds: nat, unmappable: nat)

  datatype Mismatch = NotDelivered | NotDistinct | NotBuilt | NotPersisted

  /** The gate before a checkpoint: each number that disagrees is a problem of its own. */
  function ReconcileWindow(batch: WindowBatch, written: WriteResult): (problems: seq<Mismatch>)
    ensures problems == [] <==>
              && batch.sourceCount == batch.fetchedRows == batch.distinctIds + batch.unmappable
              && batch.distinctIds == |batch.records| == written.persisted + written.skipped
    ensures problems == [] ==> batch.sourceCount == written.persisted + written.skipped + batch.unmappable
    ensures NotDelivered in problems <==> batch.fetchedRows != batch.sourceCount
    ensures NotDistinct in problems <==> batch.distinctIds + batch.unmappable != batch.sourceCount
    ensures NotBuilt in problems <==> |batch.records| != batch.distinctIds
    ensures NotPersisted in problems <==> written.persisted + written.skipped != |batch.records|
  {
    var n := batch.sourceCount;
    (if batch.fetchedRows != n then [NotDelivered] else []) +
    (if batch.distinctIds + batch.unmappable != n then [NotDistinct] else []) +
    (if |batch.records| != batch.distinctIds then [NotBuilt] else []) +
    (if written.persisted + written.skipped != |batch.records| then [NotPersisted] else [])
  }

  /** One batch as the gate sees it: what was handed over and the table found after its commit,
      which may be any table at all. */
  datatype Measured = Measured(records: seq<Record>, after: Table)

  function PersistedIn(m: Measured, requireDate: bool): nat {
    |Existing(m.after, KeysOf(Kept(m.records, requireDate)))|
  }

  function SkippedIn(m: Measured, requireDate: bool): int {
    |m.records| - |Kept(m.records, requireDate)|
  }

  function CountedIn(batches: seq<Measured>, requireDate: bool): int {
    if batches == [] then 0
    else PersistedIn(batches[0], requireDate) + SkippedIn(batches[0], requireDate) + CountedIn(batches[1..], requireDate)
  }

  function SubmittedIn(batches: seq<Measured>): nat {
    if batches == [] then 0 else |batches[0].records| + SubmittedIn(batches[1..])
  }

  predicate AllLanded(m: Measured, requireDate: bool) {
    KeysOf(Kept(m.records, requireDate)) <= m.after.Keys
  }

  lemma BatchLandedIff(m: Measured, requireDate: bool)
    ensures PersistedIn(m, requireDate) + SkippedIn(m, requireDate) <= |m.records|
    ensures PersistedIn(m, requireDate) + SkippedIn(m, requireDate) == |m.records| <==> AllLanded(m, requireDate)
  {
    KeptFacts(m.records, requireDate);
    var keys := KeysOf(Kept(m.records, requireDate));
    var found := Existing(m.after, keys);
    assert found + (keys - found) == keys;
    if |found| == |keys| {
      assert keys - found == {};
    } else {
      assert found != keys;
    }
  }

  /** What the gate's last comparison is for: whatever the database did with the batches, the
      counts add up exactly when every key that was not rejected is in the table. */
  lemma {:induction false} GateSeesEveryLostWrite(batches: seq<Measured>, requireDate: bool)
    ensures CountedIn(batches, requireDate) <= SubmittedIn(batches)
    ensures CountedIn(batches, requireDate) == SubmittedIn(batches) <==>
              forall m :: m in batches ==> AllLanded(m, requireDate)
  {
    if batches != [] {
      BatchLandedIff(batches[0], requireDate);
      GateSeesEveryLostWrite(batches[1..], requireDate);
      assert batches == [batches[0]] + batches[1..];
    }
  }

  /** A source row as a record: its id is the key and its printed stamp has whole seconds. */
  function RecordOf(row: Row): Record
    requires row.id.Some?
  {
    Record([row.id], Some(FloorSecond(row.stamp) / DAY), Some(FloorSecond(row.stamp)), row.payload)
  }

  function BatchOf(w: Window): WindowBatch
    requires forall r :: r in w.rows ==> r.id.Some?
  {
    WindowBatch(w.start, w.end, seq(|w.rows|, i requires 0 <= i < |w.rows| => RecordOf(w.rows[i])),
                w.sourceCount, w.fetchedRows, |w.rows|, w.unmappable)
  }

  /** An accepted window always yields records validation has nothing against. */
  lemma BatchIsDistinct(src: Source, k: nat, m: nat, w: Window)
    requires Pull(src, k, m, w)
    ensures forall r :: r in w.rows ==> r.id.Some?
    ensures Distinct(BatchOf(w).records, true)
  {
    AcceptedWindowAccounts(src, k, m, w);
    var records := BatchOf(w).records;
    forall i, j | 0 <= i < j < |records| ensures records[i].keyValues != records[j].keyValues {
      assert w.rows[i].id != w.rows[j].id;
      assert records[i].keyValues[0] == w.rows[i].id && records[j].keyValues[0] == w.rows[j].id;
    }
    forall r | r in records ensures Acceptable(r, true) {
      var i :| 0 <= i < |records| && records[i] == r;
      assert w.rows[i] in w.rows;
    }
  }

  /** The gate meets the table. Writing an accepted window and reconciling it always passes,
      nothing is skipped, the source's count is the rows persisted plus those without an id, and
      every id of the window is in the destination, live, at the delivered version or newer. */
  method StoreWindow(writer: DestinationWriter, w: Window, ghost src: Source, ghost k: nat, ghost m: nat)
    returns (written: WriteResult, problems: seq<Mismatch>)
    requires Pull(src, k, m, w)
    requires forall r :: r in w.rows ==> r.id.Some?
    modifies writer.db
    ensures problems == [] && written.skipped == 0
    ensures w.sourceCount == written.persisted + w.unmappable
    ensures writer.db.table == MergeAll(old(writer.db.table), ReportRows(BatchOf(w).records, writer.runId))
    ensures forall r :: r in w.rows ==>
              [r.id.value] in writer.db.table &&
              AtLeastAsNew(writer.db.table[[r.id.value]], IncomingOf(RecordOf(r), writer.runId))
  {
    hide Pull;
    hide Delivered;
    hide Distinct;
    hide DistinctIds;
    hide MergeAll;
    hide Tallies;
    hide Dedup;
    hide Unmappable;
    BatchIsDistinct(src, k, m, w);
    AcceptedWindowAccounts(src, k, m, w);
    var batch := BatchOf(w);
    written := writer.WriteWindow(batch.records, true);
    problems := ReconcileWindow(batch, written);
    ghost var before, rows := old(writer.db.table), ReportRows(batch.records, writer.runId);
    forall r | r in w.rows
      ensures [r.id.value] in writer.db.table
      ensures AtLeastAsNew(writer.db.table[[r.id.value]], IncomingOf(RecordOf(r), writer.runId))
    {
      WindowRowLands(before, w, r, writer.runId);
    }
  }

  lemma WindowRowLands(before: Table, w: Window, r: Row, runId: Option<int>)
    requires r in w.rows && forall x :: x in w.rows ==> x.id.Some?
    ensures var after := MergeAll(before, ReportRows(BatchOf(w).records, runId));
            [r.id.value] in after && AtLeastAsNew(after[[r.id.value]], IncomingOf(RecordOf(r), runId))
  {
    var rows := ReportRows(BatchOf(w).records, runId);
    var i :| 0 <= i < |w.rows| && w.rows[i] == r;
    assert rows[i] == IncomingOf(RecordOf(r), runId);
    AppliedRowIsPresent(before, rows, rows[i]);
    assert rows[i].key == [r.id.value];
  }
}
