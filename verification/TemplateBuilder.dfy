/** `calculate_block_templates`: the optimised builder, refining the abstract step machine. */
module TemplateBuilder {
  import opened Collections
  import opened TxGraph
  import opened TemplateSpec
  import opened TemplateSafety
  import TemplateBounds
  import TemplateRates
  import opened TemplateProgress
  import opened HashOrder
  import opened ModifiedQueues
  import opened Relatives
  import opened Descendants
  import opened Packing
  import opened Packers

  // ---- placing a package ------------------------------------------------------------------------

  lemma SameCover(q: ModifiedQueue, pool: Pool, next: Pool)
    requires q.Valid(pool) && ScoresOf(pool) == ScoresOf(next)
    ensures q.Valid(next)
  {
    forall t | t in q.contents
      ensures t in next && ModifiedEntry(next[t].score, t) in q.heap
    {
      assert ScoresOf(pool)[t] == ScoresOf(next)[t];
    }
  }

  lemma ScoresFromPlaced(e: Env, placed: set<Txid>, used: set<Txid>, dep: map<Txid, real>, pool: Pool)
    requires ValidEnv(e) && PoolMatches(e, placed, used, dep, pool)
    ensures ScoresOf(pool) == Scores(e, placed)
  {
    hide Remaining, PackageFee, PackageVsize, Score, Modified, StaticMatches;
  }

  /** Lower the descendants of every newly placed transaction, in package order. */
  method LowerAll(
    ghost e: Env, ghost placed: set<Txid>, ghost used: set<Txid>, ghost dep: map<Txid, real>,
    more: seq<Txid>, pool0: Pool, modified: ModifiedQueue, rate: (nat, nat) -> real, cluster: real)
    returns (pool: Pool)
    requires ValidEnv(e) && FromGraph(e) && e.rate == rate && Distinct(more)
    requires Elements(more) <= e.txs.Keys && Elements(more) !! placed
    requires dep.Keys == e.txs.Keys && PoolMatches(e, placed, used, dep, pool0) && modified.Valid(pool0)
    modifies modified
    ensures LoweredTo(e, placed, used, dep, Elements(more), cluster, pool, old(modified.contents), modified.contents)
    ensures modified.Valid(pool)
  {
    hide FromGraph, PoolMatches, Grown, NewlyModified, LowerRates, ModifiedQueue.Valid;
    pool := pool0;
    LoweredNone(e, placed, used, dep, cluster, pool0, modified.contents);
    assert Elements(more[..0]) == {};
    for i := 0 to |more|
      invariant LoweredTo(e, placed, used, dep, Elements(more[..i]), cluster, pool, old(modified.contents), modified.contents)
      invariant modified.Valid(pool)
    {
      ghost var done, mid := Elements(more[..i]), modified.contents;
      assert Elements(more[..i + 1]) == done + {more[i]};
      assert more[i] in Elements(more) && more[i] !in placed + done;
      pool := UpdateDescendants(e, placed + done, used, LowerRates(e, dep, done, cluster), more[i], pool, modified, rate, cluster);
      LoweredMore(e, placed, used, dep, done, more[i], cluster, pool, old(modified.contents), mid, modified.contents);
    }
    assert more[..|more|] == more;
  }

  lemma {:induction false} NotInDistinct(used: set<Txid>, pkg: seq<Txid>)
    requires Distinct(pkg)
    ensures Distinct(NotIn(used, pkg)) && Elements(NotIn(used, pkg)) !! used
  {
    if pkg != [] {
      NotInDistinct(used, pkg[..|pkg| - 1]);
    }
  }

  /** Placing: the marked and lowered pool represents the abstract state after `PlaceMembers`. */
  lemma PlacedPool(e: Env, st: State, more: seq<Txid>, rate: real, pool: Pool, queue: multiset<Txid>)
    requires ValidEnv(e) && Wf(e, st) && Elements(more) <= e.txs.Keys
    requires Elements(more) !! st.rates.Keys + st.dropped && st.dropped !! st.rates.Keys
    requires LoweredTo(e, st.rates.Keys, st.rates.Keys + st.dropped + Elements(more), st.dep, Elements(more), rate,
                       pool, st.queue, queue)
    ensures var r := PlaceMembers(e, st, more, rate);
            && r.queue == queue
            && PoolOf(e, r.rates, r.dropped, r.dep, pool)
            && Dropped(pool, r.rates) == r.dropped && Deps(pool) == r.dep
  {
    hide PoolMatches, NewlyModified, LowerRates, SpentBy, SumSeq;
    var r := PlaceMembers(e, st, more, rate);
    assert r.rates.Keys == st.rates.Keys + Elements(more);
    assert r.rates.Keys + r.dropped == st.rates.Keys + st.dropped + Elements(more);
    hide PlaceMembers, Dropped, Deps;
    PoolDetermines(e, r, pool);
  }

  /** Everything placing a package computes: the new pool, and the entries of the block. */
  method ComputePlacement(ghost e: Env, ghost st: State, before: Marks, modified: ModifiedQueue, pkg: seq<Txid>,
                          rate: (nat, nat) -> real, effectiveRate: real)
    returns (pool: Pool, after: Marks, more: seq<Txid>)
    requires ValidEnv(e) && FromGraph(e) && e.rate == rate && Wf(e, st) && st.queue == modified.contents
    requires PoolOf(e, st.rates, st.dropped, st.dep, before.pool) && modified.Valid(before.pool)
    requires Distinct(pkg) && Elements(pkg) <= e.txs.Keys
    modifies modified
    ensures more == Unused(st, pkg)
    ensures Marked(e, st.rates.Keys, st.rates.Keys + st.dropped, st.dep, effectiveRate, before, more, after)
    ensures var r := PlaceMembers(e, st, more, effectiveRate);
            && r.queue == modified.contents
            && PoolOf(e, r.rates, r.dropped, r.dep, pool)
            && Dropped(pool, r.rates) == r.dropped && Deps(pool) == r.dep
    ensures modified.Valid(pool)
  {
    hide FromGraph, PoolMatches, NotIn, Dropped, Deps, ModifiedQueue.Valid, Unused, LoweredTo, PlaceMembers, Scores, ScoresOf;
    ghost var placed, used := st.rates.Keys, st.rates.Keys + st.dropped;
    after, more := MarkPackage(e, placed, used, st.dep, before, pkg, effectiveRate);
    NotInIsUnused(st, pkg);
    NotInDistinct(used, pkg);
    ScoresFromPlaced(e, placed, used, st.dep, before.pool);
    ScoresFromPlaced(e, placed, used + Elements(more), st.dep, after.pool);
    SameCover(modified, before.pool, after.pool);
    pool := LowerAll(e, placed, used + Elements(more), st.dep, more, after.pool, modified, rate, effectiveRate);
    PlacedPool(e, st, more, effectiveRate, pool, modified.contents);
  }

  method PlacePackage(ghost e: Env, packer: Packer, modified: ModifiedQueue, t: Txid, pkg: seq<Txid>)
    requires packer.Valid(e, modified.contents) && modified.Valid(packer.pool)
    requires t in e.txs && pkg == Package(e, packer.rates.Keys, t)
    modifies packer, modified
    ensures packer.Valid(e, modified.contents) && modified.Valid(packer.pool)
    ensures packer.View(modified.contents) == Place(e, old(packer.View(modified.contents)), t)
  {
    hide Nested, FromGraph, PoolOf, Package, Wf, Dropped, Deps, Marked, ModifiedQueue.Valid, EffectiveRate, Unused, PlaceMembers;
    ghost var st := packer.View(modified.contents);
    var effectiveRate := RateOf(e, packer, modified.contents, t);
    PackageElements(e, st.rates.Keys, t);
    var before := Marks(packer.pool, packer.spent, packer.rates, packer.weight);
    var pool, after, more := ComputePlacement(e, st, before, modified, pkg, packer.rate, effectiveRate);
    packer.Enter(e, st, modified.contents, effectiveRate, pool, after, more);
  }

  /** The rate a package enters the block at: no better than what its placed ancestors entered at. */
  method RateOf(ghost e: Env, packer: Packer, ghost queue: multiset<Txid>, t: Txid) returns (r: real)
    requires packer.Valid(e, queue) && t in e.txs
    ensures r == EffectiveRate(e, packer.View(queue), t)
  {
    hide Nested, FromGraph, PoolOf, Dropped, Deps, SumOver;
    Flags(e, packer.View(queue), packer.pool, t);
    var m := packer.pool[t];
    r := MinReal(m.dependencyRate, packer.rate(m.ancestorFee, Max(m.ancestorVsize, 1)));
  }

  // ---- choosing a candidate ------------------------------------------------------------------------

  lemma ChosenFromQueue(e: Env, st: State, pool: Pool, best: Option<Txid>)
    requires ValidEnv(e) && Wf(e, st) && PoolOf(e, st.rates, st.dropped, st.dep, pool)
    requires best.None? <==> st.queue == multiset{}
    requires best.Some? ==> (forall u :: u in st.queue ==> u in ScoresOf(pool)) && IsBest(ScoresOf(pool), st.queue, best.value)
    ensures ScoresOf(pool) == Scores(e, st.rates.Keys)
    ensures best.Some? ==> best.value == Best(Scores(e, st.rates.Keys), st.queue) && best.value in pool
    ensures TakesArray(e, st) <==>
              && st.top < |st.arr|
              && (best.Some? ==> ScoresOf(pool)[st.arr[st.top]] > ScoresOf(pool)[best.value])
  {
    hide PoolMatches, Scores;
    ScoresFromPlaced(e, st.rates.Keys, st.rates.Keys + st.dropped, st.dep, pool);
    if best.Some? {
      BestIsUnique(Scores(e, st.rates.Keys), st.queue, best.value, Best(Scores(e, st.rates.Keys), st.queue));
    }
  }

  method Select(ghost e: Env, packer: Packer, modified: ModifiedQueue) returns (next: Option<Txid>)
    requires packer.Valid(e, modified.contents) && modified.Valid(packer.pool)
    modifies packer, modified
    ensures packer.Valid(e, modified.contents) && modified.Valid(packer.pool)
    ensures next == Candidate(e, old(packer.View(modified.contents)))
    ensures packer.View(modified.contents) == Take(e, old(packer.View(modified.contents)))
  {
    hide Nested, FromGraph, PoolOf, Dropped, Deps, ModifiedQueue.Valid, IsBest, TakesArray, Best, Scores;
    ghost var st := packer.View(modified.contents);
    var best := modified.Peek(packer.pool);
    ChosenFromQueue(e, st, packer.pool, best);
    var takesArray := packer.top < |packer.arr|
      && (best.None? || packer.pool[packer.arr[packer.top]].score > packer.pool[best.value].score);
    if takesArray {
      next := Some(packer.arr[packer.top]);
      packer.TakeTop(e, modified.contents);
    } else if best.Some? {
      var popped := modified.Pop(packer.pool);
      ChosenFromQueue(e, st, packer.pool, popped);
      next := best;
      Shrunk(e, packer, st.queue, modified.contents);
    } else {
      next := None;
    }
  }

  /** Fewer queued transactions do not disturb the rest of the state. */
  lemma Shrunk(e: Env, packer: Packer, before: multiset<Txid>, after: multiset<Txid>)
    requires packer.Valid(e, before) && after <= before
    ensures packer.Valid(e, after) && packer.View(after) == packer.View(before).(queue := after)
  {
    hide Nested, FromGraph, PoolOf, Dropped, Deps;
  }

  /** What becomes of a candidate; `skip` tells that the iteration ends without the block-close test. */
  method Judge(ghost e: Env, packer: Packer, modified: ModifiedQueue, t: Txid) returns (skip: bool)
    requires packer.Valid(e, modified.contents) && modified.Valid(packer.pool) && t in e.txs
    modifies packer, modified
    ensures packer.Valid(e, modified.contents) && modified.Valid(packer.pool)
    ensures var st, r := old(packer.View(modified.contents)), packer.View(modified.contents);
            Consider(e, st, t) == if skip then Running(r) else MaybeClose(e, r)
  {
    hide Nested, FromGraph, PoolOf, Dropped, Deps, ModifiedQueue.Valid, MaybeClose, Package, Fits, Conflicts, Place, Wf;
    ghost var st := packer.View(modified.contents);
    Flags(e, st, packer.pool, t);
    if packer.pool[t].used {
      return true;
    }
    var fits := packer.PackageFits(e, modified.contents, t);
    if !fits {
      packer.PostponeCandidate(e, modified.contents, t);
      return false;
    }
    var pkg := packer.PackageOf(e, modified.contents, t);
    SameConflicts(e, st, packer.pool, pkg);
    if PackageConflicts(packer.pool, packer.spent, pkg) {
      ghost var pool := packer.pool;
      packer.DropCandidate(e, modified.contents, t);
      SameCover(modified, pool, packer.pool);
      return true;
    }
    PlacePackage(e, packer, modified, t, pkg);
    return false;
  }

  // ---- closing a block -------------------------------------------------------------------------------

  /** Put the postponed transactions back, last one first. */
  method ReinsertAll(ghost e: Env, packer: Packer, modified: ModifiedQueue, back: seq<Txid>)
    requires packer.Valid(e, modified.contents) && modified.Valid(packer.pool)
    requires forall t :: t in back ==> t in e.txs
    modifies packer, modified
    ensures packer.Valid(e, modified.contents) && modified.Valid(packer.pool)
    ensures packer.View(modified.contents) == Reinsert(e, old(packer.View(modified.contents)), back)
  {
    hide Nested, FromGraph, PoolOf, Dropped, Deps, ModifiedQueue.Valid, Modified, Wf, Requeue, Reinsert, ValidEnv;
    ghost var st := packer.View(modified.contents);
    var i := |back|;
    assert back[..i] == back;
    while i > 0
      invariant 0 <= i <= |back|
      invariant packer.Valid(e, modified.contents) && modified.Valid(packer.pool)
      invariant Reinsert(e, packer.View(modified.contents), back[..i]) == Reinsert(e, st, back)
    {
      i := i - 1;
      ReinsertStep(e, packer.View(modified.contents), back, i);
      RequeueOne(e, packer, modified, back[i]);
    }
    ReinsertNothing(e, packer.View(modified.contents), back[..0]);
  }

  method RequeueOne(ghost e: Env, packer: Packer, modified: ModifiedQueue, t: Txid)
    requires packer.Valid(e, modified.contents) && modified.Valid(packer.pool) && t in e.txs
    modifies packer, modified
    ensures packer.Valid(e, modified.contents) && modified.Valid(packer.pool)
    ensures packer.View(modified.contents) == Requeue(e, old(packer.View(modified.contents)), t)
  {
    hide Nested, FromGraph, PoolOf, Dropped, Deps, ModifiedQueue.Valid, ModifiedQueue.ValidExcept, Modified;
    ghost var st := packer.View(modified.contents);
    Flags(e, st, packer.pool, t);
    if packer.pool[t].modified {
      CanEnqueue(modified, packer.pool, t);
      modified.Enqueue(t, packer.pool);
    } else {
      packer.PutBack(e, modified.contents, t);
    }
  }

  lemma CanEnqueue(q: ModifiedQueue, pool: Pool, t: Txid)
    requires q.Valid(pool)
    ensures q.ValidExcept(pool, t)
  {
  }

  method CloseIfDue(ghost e: Env, packer: Packer, modified: ModifiedQueue) returns (stop: bool)
    requires packer.Valid(e, modified.contents) && modified.Valid(packer.pool)
    modifies packer, modified
    ensures packer.Valid(e, modified.contents) && modified.Valid(packer.pool)
    ensures var st, r := old(packer.View(modified.contents)), packer.View(modified.contents);
            MaybeClose(e, st) == if stop then Finished(r) else Running(r)
  {
    hide Nested, FromGraph, PoolOf, Dropped, Deps, ModifiedQueue.Valid, Reinsert;
    stop := false;
    var queueEmpty := modified.IsEmpty(packer.pool);
    var exceededTries := packer.failures > MAX_FAILURES && packer.weight > Monus(packer.weightLimit, BLOCK_RESERVED_WEIGHT);
    if (exceededTries || (packer.top >= |packer.arr| && queueEmpty)) && |packer.blocks| < Monus(packer.maxBlocks, 1) {
      if packer.block == [] {
        return true;
      }
      var back := packer.StartBlock(e, modified.contents);
      ReinsertAll(e, packer, modified, back);
    }
  }

  // ---- the packing loop --------------------------------------------------------------------------------

  method Iteration(ghost e: Env, packer: Packer, modified: ModifiedQueue) returns (stop: bool)
    requires packer.Valid(e, modified.contents) && modified.Valid(packer.pool)
    requires HasWork(packer.View(modified.contents))
    modifies packer, modified
    ensures packer.Valid(e, modified.contents) && modified.Valid(packer.pool)
    ensures var st, r := old(packer.View(modified.contents)), packer.View(modified.contents);
            Step(e, st) == if stop then Finished(r) else Running(r)
  {
    hide Nested, FromGraph, PoolOf, Dropped, Deps, ModifiedQueue.Valid, MaybeClose, Consider, Candidate, Take, SkipTop, Wf;
    packer.SkipUsed(e, modified.contents);
    ghost var st := packer.View(modified.contents);
    var next := Select(e, packer, modified);
    if next.Some? {
      var skip := Judge(e, packer, modified, next.value);
      if skip {
        return false;
      }
    } else {
      NothingTaken(e, st);
    }
    stop := CloseIfDue(e, packer, modified);
  }

  lemma NothingTaken(e: Env, st: State)
    requires ValidEnv(e) && Wf(e, st) && Candidate(e, st).None?
    ensures Take(e, st) == st
  {
  }

  method Run(ghost e: Env, packer: Packer, modified: ModifiedQueue)
    requires packer.Valid(e, modified.contents) && modified.Valid(packer.pool)
    modifies packer, modified
    ensures packer.Valid(e, modified.contents)
    ensures exists n: nat :: Iterate(e, old(packer.View(modified.contents)), n) == Finished(packer.View(modified.contents))
  {
    hide Nested, FromGraph, PoolOf, Dropped, Deps, ModifiedQueue.Valid, Step, Wf, Unmodified;
    ghost var st, n := packer.View(modified.contents), 0;
    var empty := modified.IsEmpty(packer.pool);
    while packer.top < |packer.arr| || !empty
      invariant packer.Valid(e, modified.contents) && modified.Valid(packer.pool)
      invariant empty <==> modified.contents == multiset{}
      invariant Iterate(e, st, n) == Running(packer.View(modified.contents))
      decreases BlocksLeft(e, packer.View(modified.contents)),
                |Unmodified(e, packer.View(modified.contents).rates.Keys)|,
                Slots(packer.View(modified.contents))
    {
      StepProgresses(e, packer.View(modified.contents));
      var stop := Iteration(e, packer, modified);
      n := n + 1;
      if stop {
        assert Iterate(e, st, n) == Finished(packer.View(modified.contents));
        return;
      }
      empty := modified.IsEmpty(packer.pool);
    }
    Idle(e, packer.View(modified.contents));
    assert Iterate(e, st, n + 1) == Finished(packer.View(modified.contents));
  }

  lemma Idle(e: Env, st: State)
    requires ValidEnv(e) && Wf(e, st) && !HasWork(st)
    ensures Step(e, st) == Finished(st)
  {
  }

  // ---- the whole computation --------------------------------------------------------------------------------

  lemma StartsInOrder(e: Env, pool: Pool, keys: seq<Txid>)
    requires ValidEnv(e) && PoolMatches(e, {}, {}, InitialDep(e.txs), pool) && multiset(keys) == multiset(pool.Keys)
    ensures Scored(keys, ScoresOf(pool)) && InitialArray(e, SortByScore(keys, ScoresOf(pool)))
  {
    hide Matches, Scores;
    ScoresFromPlaced(e, {}, {}, InitialDep(e.txs), pool);
    assert forall t :: t in keys ==> t in multiset(keys);
    SortByScoreSorts(keys, ScoresOf(pool));
  }

  lemma EnvIsReady(txs: Mempool, e: Env)
    requires ValidEnv(e) && e.txs == txs && Acyclic(ParentGraph(txs)) && FromGraph(e)
    ensures Nested(e)
  {
    AcyclicIsNested(txs, e);
  }

  lemma EnvFromGraph(txs: Mempool, maxBlocks: nat, weightLimit: nat, arrange: set<Txid> -> seq<Txid>, rate: (nat, nat) -> real)
    requires Arranges(arrange)
    ensures FromGraph(EnvOf(txs, maxBlocks, weightLimit, arrange, rate))
  {
    hide Ancestors;
  }

  /** The templates of a mempool, as one run of the step machine produces them. */
  ghost predicate TemplatesOf(e: Env, blocks: seq<seq<Txid>>, rates: map<Txid, real>)
    requires ValidEnv(e)
  {
    exists arr :: InitialArray(e, arr) && Produces(e, arr, blocks, rates)
  }

  method CalculateBlockTemplates(txs: Mempool, maxBlocks: nat, weightLimit: nat,
                                 arrange: set<Txid> -> seq<Txid>, rate: (nat, nat) -> real)
    returns (blocks: seq<seq<Txid>>, rates: map<Txid, real>)
    requires Arranges(arrange) && Acyclic(ParentGraph(txs))
    ensures TemplatesOf(EnvOf(txs, maxBlocks, weightLimit, arrange, rate), blocks, rates)
    ensures TopologicallyValid(txs, blocks) && rates.Keys == Elements(Flatten(blocks))
    ensures TemplateRates.RatesExplained(EnvOf(txs, maxBlocks, weightLimit, arrange, rate), blocks, rates)
    ensures |blocks| <= Max(1, maxBlocks)
  {
    blocks, rates := BuildTemplates(txs, maxBlocks, weightLimit, arrange, rate);
    TemplatesAreSound(txs, maxBlocks, weightLimit, arrange, rate, blocks, rates);
  }

  lemma TemplatesAreSound(txs: Mempool, maxBlocks: nat, weightLimit: nat,
                          arrange: set<Txid> -> seq<Txid>, rate: (nat, nat) -> real, blocks: seq<seq<Txid>>, rates: map<Txid, real>)
    requires Arranges(arrange) && Acyclic(ParentGraph(txs))
    requires TemplatesOf(EnvOf(txs, maxBlocks, weightLimit, arrange, rate), blocks, rates)
    ensures TopologicallyValid(txs, blocks) && rates.Keys == Elements(Flatten(blocks))
    ensures TemplateRates.RatesExplained(EnvOf(txs, maxBlocks, weightLimit, arrange, rate), blocks, rates)
    ensures |blocks| <= Max(1, maxBlocks)
  {
    hide Acyclic, InitialArray, Produces, TopologicallyValid, Flatten, ValidEnv, TemplateRates.RatesExplained;
    var e := EnvOf(txs, maxBlocks, weightLimit, arrange, rate);
    var arr :| InitialArray(e, arr) && Produces(e, arr, blocks, rates);
    TemplatesAreTopologicallyValid(txs, maxBlocks, weightLimit, arrange, rate, arr, blocks, rates);
    AcyclicIsNested(txs, e);
    TemplateBounds.TemplatesFit(e, arr, blocks, rates);
    TemplateRates.RatesAreExplained(e, arr, blocks, rates);
  }

  method BuildTemplates(txs: Mempool, maxBlocks: nat, weightLimit: nat,
                        arrange: set<Txid> -> seq<Txid>, rate: (nat, nat) -> real)
    returns (blocks: seq<seq<Txid>>, rates: map<Txid, real>)
    requires Arranges(arrange) && Acyclic(ParentGraph(txs))
    ensures TemplatesOf(EnvOf(txs, maxBlocks, weightLimit, arrange, rate), blocks, rates)
  {
    hide Acyclic, Half, FromGraph, Nested, PoolMatches, InitialArray, Iterate, Step, Wf, Dropped, Deps, ModifiedQueue.Valid, SortByScore;
    ghost var e := EnvOf(txs, maxBlocks, weightLimit, arrange, rate);
    EnvFromGraph(txs, maxBlocks, weightLimit, arrange, rate);
    EnvIsReady(txs, e);
    var pool0 := map t | t in txs :: MinerEntry(txs[t], InPoolParents(txs, txs[t].inputs));
    SameGraph(txs, pool0);
    var pool := ComputeRelatives(pool0, rate);
    RelativesMatch(e, pool0, pool);
    var keys := Enumerate(pool.Keys);
    StartsInOrder(e, pool, keys);
    var arr := SortByScore(keys, ScoresOf(pool));
    var modified := new ModifiedQueue();
    var packer := new Packer(pool, arr, maxBlocks, weightLimit, arrange, rate);
    StartView(e, pool, arr);
    assert packer.View(modified.contents) == Init(e, arr);
    Run(e, packer, modified);
    blocks := if packer.block == [] then packer.blocks else packer.blocks + [packer.block];
    rates := packer.rates;
    assert Produces(e, arr, blocks, rates);
  }

  lemma StartView(e: Env, pool: Pool, arr: seq<Txid>)
    requires ValidEnv(e) && PoolMatches(e, {}, {}, InitialDep(e.txs), pool) && InitialArray(e, arr)
    ensures Init(e, arr) == State(arr, 0, multiset{}, [], 0, [], [], BLOCK_RESERVED_WEIGHT, {}, map[], Dropped(pool, map[]), Deps(pool))
    ensures PoolOf(e, map[], Dropped(pool, map[]), Deps(pool), pool)
  {
    hide Matches, InitialArray, Dropped, Deps;
    var st := Init(e, arr);
    assert st.rates.Keys == {} && st.rates.Keys + st.dropped == {};
    PoolDetermines(e, st, pool);
  }
}
