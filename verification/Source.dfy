/** The paged source as its callers see it, and the contract a truthful source keeps. */
module Source {
  import opened Wrappers
  import opened Instants

  /** A blank id counts as none. */
  type Id = s: string | s != "" witness "-"

  /** One source row. `stamp` is its real modification instant, finer than the whole
      seconds the source prints and accepts. */
  datatype Row = Row(id: Option<Id>, stamp: int, payload: string)

  datatype Page = Page(recordCount: nat, rows: seq<Row>)

  /** A malformed payload, an error body or an exhausted transport. */
  datatype Fault = Fault(reason: string)

  type Reply = Result<Page, Fault>

  /** An endpoint. Request number `k` gets an arbitrary answer of its own, so any behaviour
      over time is covered: rows changing between requests, wrong counts, faults. */
  datatype Source = Source(pageSize: nat, respond: (nat, int, int, nat, nat) -> Reply) {

    /** Both bounds are printed as whole seconds, whatever the caller computed. */
    function Fetch(k: nat, from: int, to: int, pageIndex: nat, size: nat): Reply {
      respond(k, FloorSecond(from), FloorSecond(to), pageIndex, size)
    }
  }

  /** The rows of a listing whose real stamp lies in the closed interval. */
  function Hits(listing: seq<Row>, from: int, to: int): seq<Row> {
    if listing == [] then []
    else
      var init := Hits(listing[..|listing| - 1], from, to);
      var row := listing[|listing| - 1];
      if from <= row.stamp <= to then init + [row] else init
  }

  function Slice(rows: seq<Row>, start: nat, size: nat): seq<Row> {
    if start >= |rows| then [] else rows[start..Min(start + size, |rows|)]
  }

  /** What a truthful source answers when its rows, in unique-id order, are `listing`. */
  function Serve(listing: seq<Row>, from: int, to: int, pageIndex: nat, size: nat): Reply
    requires pageIndex >= 1
  {
    if from > to then Failure(Fault("FromDate can't be greater than ToDate."))
    else
      var hits := Hits(listing, from, to);
      var page := Slice(hits, (pageIndex - 1) * size, size);
      if hits == [] || (page == [] && pageIndex > 1) then Success(Page(0, []))
      else Success(Page(|hits|, page))
  }

  /** Ids present in a batch of rows. */
  function Ids(rows: seq<Row>): set<Id> {
    set r | r in rows && r.id.Some? :: r.id.value
  }

  predicate DistinctIds(rows: seq<Row>) {
    forall i, j :: 0 <= i < j < |rows| && rows[i].id.Some? ==> rows[i].id != rows[j].id
  }

  /** Request `k` is answered from the listing `truth(k)` the source held at that moment. */
  ghost predicate Truthful(src: Source, truth: nat -> seq<Row>) {
    && (forall k :: DistinctIds(truth(k)))
    && (forall k: nat, from, to, i: nat, n: nat :: i >= 1 ==>
          src.respond(k, from, to, i, n) == Serve(truth(k), from, to, i, n))
  }

  /** A truthful source nobody modifies. */
  ghost predicate Fixed(src: Source, listing: seq<Row>) {
    Truthful(src, (k: nat) => listing)
  }

  /** Any listing without repeated ids has a truthful source that serves it. */
  lemma StillSourceExists(listing: seq<Row>, pageSize: nat) returns (src: Source)
    requires DistinctIds(listing)
    ensures Fixed(src, listing) && src.pageSize == pageSize
  {
    src := Source(pageSize, (k: nat, from: int, to: int, i: nat, n: nat) =>
      if i >= 1 then Serve(listing, from, to, i, n) else Failure(Fault("no such page")));
  }

  // --- accounting over delivered rows -----------------------------------------------

  /** Identified rows, the first occurrence of each id, in order of delivery. */
  function Dedup(rows: seq<Row>): seq<Row> {
    if rows == [] then []
    else
      var kept := Dedup(rows[..|rows| - 1]);
      var r := rows[|rows| - 1];
      if r.id.None? || r.id.value in Ids(kept) then kept else kept + [r]
  }

  function Unmappable(rows: seq<Row>): nat {
    if rows == [] then 0
    else Unmappable(rows[..|rows| - 1]) + (if rows[|rows| - 1].id.None? then 1 else 0)
  }

  lemma FoldOneRow(rows: seq<Row>, r: Row)
    ensures Dedup(rows + [r]) == if r.id.None? || r.id.value in Ids(Dedup(rows)) then Dedup(rows) else Dedup(rows) + [r]
    ensures Unmappable(rows + [r]) == Unmappable(rows) + (if r.id.None? then 1 else 0)
  {
    assert (rows + [r])[..|rows|] == rows;
  }

  lemma IdsOfAppend(rows: seq<Row>, r: Row)
    ensures Ids(rows + [r]) == Ids(rows) + (if r.id.Some? then {r.id.value} else {})
  {
    if r.id.Some? {
      assert (rows + [r])[|rows|] == r;
    }
  }

  lemma DistinctIdsOfAppend(rows: seq<Row>, r: Row)
    ensures DistinctIds(rows + [r]) <==> DistinctIds(rows) && (r.id.None? || r.id.value !in Ids(rows))
  {
    var all := rows + [r];
    if DistinctIds(all) {
      assert forall i :: 0 <= i < |rows| ==> all[i] == rows[i];
      forall x | x in rows && r.id.Some? ensures x.id != r.id {
        var i :| 0 <= i < |rows| && rows[i] == x;
        assert all[i] == x && all[|rows|] == r;
      }
    } else if DistinctIds(rows) {
      var i, j :| 0 <= i < j < |all| && all[i].id.Some? && all[i].id == all[j].id;
      assert all[i] in rows;
    }
  }

  /** De-duplication loses no id and keeps no id twice. */
  lemma {:induction false} DedupKeepsIds(rows: seq<Row>)
    ensures Ids(Dedup(rows)) == Ids(rows) && |Ids(rows)| == |Dedup(rows)|
    ensures DistinctIds(Dedup(rows))
    ensures forall r :: r in Dedup(rows) ==> r in rows && r.id.Some?
  {
    if rows != [] {
      var init, r := rows[..|rows| - 1], rows[|rows| - 1];
      assert rows == init + [r];
      DedupKeepsIds(init);
      IdsOfAppend(init, r);
      IdsOfAppend(Dedup(init), r);
      DistinctIdsOfAppend(Dedup(init), r);
    }
  }

  /** Distinct rows and rows without an id add up to the rows delivered exactly when no id was
      delivered twice, and then no identified row was dropped. */
  lemma {:induction false} DedupAccounting(rows: seq<Row>)
    ensures |Dedup(rows)| + Unmappable(rows) <= |rows|
    ensures |Dedup(rows)| + Unmappable(rows) == |rows| <==> DistinctIds(rows)
    ensures DistinctIds(rows) ==> forall r :: r in rows && r.id.Some? ==> r in Dedup(rows)
  {
    if rows != [] {
      var init, r := rows[..|rows| - 1], rows[|rows| - 1];
      assert rows == init + [r];
      DedupAccounting(init);
      DedupKeepsIds(init);
      DistinctIdsOfAppend(init, r);
    }
  }

  lemma {:induction false} HitsFacts(listing: seq<Row>, from: int, to: int)
    ensures forall r :: r in Hits(listing, from, to) <==> r in listing && from <= r.stamp <= to
    ensures DistinctIds(listing) ==> DistinctIds(Hits(listing, from, to))
  {
    if listing != [] {
      var init, row := listing[..|listing| - 1], listing[|listing| - 1];
      assert listing == init + [row];
      HitsFacts(init, from, to);
      DistinctIdsOfAppend(init, row);
      DistinctIdsOfAppend(Hits(init, from, to), row);
    }
  }

  /** `xs` is `ys` with some rows removed and the others in the same order. */
  predicate Subsequence(xs: seq<Row>, ys: seq<Row>) {
    if xs == [] then true
    else if ys == [] then false
    else (xs[0] == ys[0] && Subsequence(xs[1..], ys[1..])) || Subsequence(xs, ys[1..])
  }

  lemma {:induction false} SubsequenceLength(xs: seq<Row>, ys: seq<Row>)
    requires Subsequence(xs, ys)
    ensures |xs| <= |ys|
    ensures |xs| == |ys| ==> xs == ys
    decreases |ys|
  {
    if xs != [] {
      if xs[0] == ys[0] && Subsequence(xs[1..], ys[1..]) {
        SubsequenceLength(xs[1..], ys[1..]);
        assert xs == [xs[0]] + xs[1..] && ys == [ys[0]] + ys[1..];
      } else {
        SubsequenceLength(xs, ys[1..]);
      }
    }
  }
}
