/** A run of the program interleaved with everything else: its own steps of the step system, the
    turns of the environment (the source, other runs, the sweep, resets), and the moments at which
    the program looks at the shared table. */
module Script {
  import opened Wrappers
  import opened Source
  import opened Upsert
  import CP = Checkpoint

  /** The listing the source serves and the step system's source state are the same rows. */
  ghost predicate Represents(listing: seq<Row>, src: map<Key, CP.Version>) {
    && (forall r :: r in listing && r.id.Some? ==>
          [r.id.value] in src && src[[r.id.value]].stamp == r.stamp && src[[r.id.value]].raw == r.payload)
    && (forall k :: k in src ==> exists r :: r in listing && r.id.Some? && k == [r.id.value])
  }

  /** Our own steps; the environment's, after which the source may be asked and answers from
      `listing`; or a look at the table and the stored cursor. */
  datatype Chunk =
    | Ours(steps: seq<CP.Step>)
    | Theirs(steps: seq<CP.Step>, listing: Option<seq<Row>>)
    | Finds(table: Table, cursor: CP.Cursor)

  function StepsOf(chunk: Chunk): seq<CP.Step> {
    if chunk.Finds? then [] else chunk.steps
  }

  function Flat(chunks: seq<Chunk>): seq<CP.Step> {
    if chunks == [] then [] else StepsOf(chunks[0]) + Flat(chunks[1..])
  }

  /** The environment keeps its side: at each of its turns it only does what the step system
      allows, the source answers from what those steps made of it, and the table and cursor the
      program finds are the ones they left. */
  ghost predicate Cooperates(cfg: CP.Config, t: CP.State, chunks: seq<Chunk>)
    decreases |chunks|
  {
    chunks == [] ||
    match chunks[0]
    case Ours(steps) => CP.Legal(cfg, t, steps) ==> Cooperates(cfg, CP.After(cfg, t, steps), chunks[1..])
    case Theirs(steps, listing) =>
      && CP.Legal(cfg, t, steps)
      && (listing.Some? ==> Represents(listing.value, CP.After(cfg, t, steps).src))
      && Cooperates(cfg, CP.After(cfg, t, steps), chunks[1..])
    case Finds(table, cursor) => t.wh == table && t.cursor == cursor && Cooperates(cfg, t, chunks[1..])
  }

  /** The chunks can be played from `t`. */
  ghost predicate Plays(cfg: CP.Config, t: CP.State, chunks: seq<Chunk>) {
    CP.Legal(cfg, t, Flat(chunks))
  }

  ghost function End(cfg: CP.Config, t: CP.State, chunks: seq<Chunk>): CP.State
    requires Plays(cfg, t, chunks)
  {
    CP.After(cfg, t, Flat(chunks))
  }

  lemma {:induction false} FlatAppend(xs: seq<Chunk>, ys: seq<Chunk>)
    ensures Flat(xs + ys) == Flat(xs) + Flat(ys)
    decreases |xs|
  {
    if xs == [] {
      assert xs + ys == ys;
    } else {
      assert (xs + ys)[1..] == xs[1..] + ys;
      FlatAppend(xs[1..], ys);
    }
  }

  lemma PlaysAppend(cfg: CP.Config, t: CP.State, xs: seq<Chunk>, ys: seq<Chunk>)
    requires Plays(cfg, t, xs) && Plays(cfg, End(cfg, t, xs), ys)
    ensures Plays(cfg, t, xs + ys) && End(cfg, t, xs + ys) == End(cfg, End(cfg, t, xs), ys)
  {
    FlatAppend(xs, ys);
    CP.LegalJoin(cfg, t, Flat(xs), Flat(ys));
  }

  lemma OneChunk(cfg: CP.Config, t: CP.State, chunk: Chunk)
    ensures Flat([chunk]) == StepsOf(chunk)
    ensures CP.Legal(cfg, t, StepsOf(chunk)) ==>
              Plays(cfg, t, [chunk]) && End(cfg, t, [chunk]) == CP.After(cfg, t, StepsOf(chunk))
  {
    assert [chunk][1..] == [];
    assert StepsOf(chunk) + [] == StepsOf(chunk);
  }

  lemma FirstChunk(cfg: CP.Config, t: CP.State, chunks: seq<Chunk>)
    requires chunks != [] && CP.Legal(cfg, t, StepsOf(chunks[0])) && Plays(cfg, CP.After(cfg, t, StepsOf(chunks[0])), chunks[1..])
    ensures Plays(cfg, t, chunks) && End(cfg, t, chunks) == End(cfg, CP.After(cfg, t, StepsOf(chunks[0])), chunks[1..])
  {
    CP.LegalJoin(cfg, t, StepsOf(chunks[0]), Flat(chunks[1..]));
  }

  /** Cooperation in a script is cooperation in its first part and, from there, in the rest. */
  lemma {:induction false} CooperatesSplit(cfg: CP.Config, t: CP.State, xs: seq<Chunk>, ys: seq<Chunk>)
    requires Cooperates(cfg, t, xs + ys)
    ensures Cooperates(cfg, t, xs)
    ensures Plays(cfg, t, xs) ==> Cooperates(cfg, End(cfg, t, xs), ys)
    decreases |xs|
  {
    hide CP.Enabled;
    hide CP.Apply;
    hide Represents;
    if xs == [] {
      assert xs + ys == ys;
    } else {
      var all := xs + ys;
      assert all[0] == xs[0] && all[1..] == xs[1..] + ys;
      if CP.Legal(cfg, t, StepsOf(xs[0])) {
        assert xs[0].Finds? ==> CP.After(cfg, t, StepsOf(xs[0])) == t;
        CooperatesSplit(cfg, CP.After(cfg, t, StepsOf(xs[0])), xs[1..], ys);
      }
      if Plays(cfg, t, xs) {
        CP.LegalSplit(cfg, t, StepsOf(xs[0]), Flat(xs[1..]));
      }
    }
  }

  lemma {:induction false} CooperatesAppend(cfg: CP.Config, t: CP.State, xs: seq<Chunk>, ys: seq<Chunk>)
    requires Cooperates(cfg, t, xs) && Plays(cfg, t, xs) && Cooperates(cfg, End(cfg, t, xs), ys)
    ensures Cooperates(cfg, t, xs + ys)
    decreases |xs|
  {
    hide CP.Enabled;
    hide CP.Apply;
    hide Represents;
    if xs == [] {
      assert xs + ys == ys;
    } else {
      var all := xs + ys;
      assert all[0] == xs[0] && all[1..] == xs[1..] + ys;
      CP.LegalSplit(cfg, t, StepsOf(xs[0]), Flat(xs[1..]));
      CooperatesAppend(cfg, CP.After(cfg, t, StepsOf(xs[0])), xs[1..], ys);
    }
  }

  // --- the environment leaves our run alone ---------------------------------------------

  /** A step of anybody but run `run`: the source, another run, the sweep or an operator. */
  predicate Foreign(step: CP.Step, run: nat) {
    step.StartRun? || step.FetchLeaf? || step.WriteBatch? || step.Commit? || step.Stop? ==> step.run != run
  }

  predicate AllForeign(chunks: seq<Chunk>, run: nat) {
    forall c :: c in chunks ==> c.Theirs? && forall step :: step in c.steps ==> Foreign(step, run)
  }

  lemma ForeignStepKeepsRun(cfg: CP.Config, t: CP.State, step: CP.Step, run: nat)
    requires CP.Enabled(cfg, t, step) && Foreign(step, run) && run in t.runs
    ensures run in CP.Apply(cfg, t, step).runs && CP.Apply(cfg, t, step).runs[run] == t.runs[run]
  {
    hide CP.Read;
    hide MergeAll;
    hide CP.IsSnapshot;
  }

  lemma {:induction false} ForeignStepsKeepRun(cfg: CP.Config, t: CP.State, steps: seq<CP.Step>, run: nat)
    requires CP.Legal(cfg, t, steps) && (forall step :: step in steps ==> Foreign(step, run)) && run in t.runs
    ensures run in CP.After(cfg, t, steps).runs && CP.After(cfg, t, steps).runs[run] == t.runs[run]
    decreases |steps|
  {
    if steps != [] {
      ForeignStepKeepsRun(cfg, t, steps[0], run);
      hide CP.Enabled;
      hide CP.Apply;
      assert forall step :: step in steps[1..] ==> step in steps;
      ForeignStepsKeepRun(cfg, CP.Apply(cfg, t, steps[0]), steps[1..], run);
    }
  }

  /** The environment's turns can all be played, our run is where it was, and the source ends as
      the last listing says. */
  lemma {:induction false} EnvironmentPlays(cfg: CP.Config, t: CP.State, chunks: seq<Chunk>, run: nat)
    requires Cooperates(cfg, t, chunks) && AllForeign(chunks, run) && run in t.runs
    ensures Plays(cfg, t, chunks)
    ensures run in End(cfg, t, chunks).runs && End(cfg, t, chunks).runs[run] == t.runs[run]
    ensures chunks != [] && chunks[|chunks| - 1].listing.Some? ==>
              Represents(chunks[|chunks| - 1].listing.value, End(cfg, t, chunks).src)
    decreases |chunks|
  {
    hide CP.Enabled;
    hide CP.Apply;
    hide Represents;
    if chunks != [] {
      var c, rest := chunks[0], chunks[1..];
      assert c in chunks && forall x :: x in rest ==> x in chunks;
      ForeignStepsKeepRun(cfg, t, c.steps, run);
      EnvironmentPlays(cfg, CP.After(cfg, t, c.steps), rest, run);
      FirstChunk(cfg, t, chunks);
      if rest == [] { assert CP.After(cfg, CP.After(cfg, t, c.steps), []) == CP.After(cfg, t, c.steps); }
    }
  }
}
