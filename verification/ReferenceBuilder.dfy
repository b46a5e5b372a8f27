/** The older block-template builder, kept by the source as the reference: recursive ancestor sets, and a
    plain list of modified transactions that is sorted again in every iteration. */
module ReferenceBuilder {
  import opened Collections
  import opened TxGraph
  import opened TemplateSpec
  import opened TemplateSafety
  import opened TemplateProgress
  import opened HashOrder
  import opened ModifiedQueues
  import opened Relatives
  import opened ReferenceRelatives
  import opened Descendants
  import opened Packing
  import opened Packers
  import TemplateBuilder

  // ---- lowering descendants --------------------------------------------------------------------

  method UpdateDescendants(
    ghost e: Env, ghost placed: set<Txid>, ghost used: set<Txid>, ghost dep: map<Txid, real>,
    root: Txid, pool0: Pool, modified0: seq<Txid>, rate: (nat, nat) -> real, cluster: real)
    returns (pool: Pool, modified: seq<Txid>)
    requires ValidEnv(e) && FromGraph(e) && e.rate == rate && root in e.txs && root !in placed
    requires PoolMatches(e, placed, used, dep, pool0)
    ensures PoolMatches(e, placed + {root}, used, LowerRates(e, dep, {root}, cluster), pool)
    ensures Grown(multiset(modified0), multiset(modified), NewlyModified(e, placed, {root}))
  {
    hide Matches, Raised, Forget, NewlyModified, LowerRates, Children, DescendantsOf, FromGraph, PoolAfter, Frontier, Grown;
    MatchesSummary(e, placed, used, dep, pool0, root);
    var stack := Enumerate(pool0[root].children);
    StartFrontier(e, root, stack);
    NothingSeen(pool0, root, rate, cluster);
    GrowsByOne(multiset(modified0), root);
    var seen: set<Txid> := {};
    pool, modified := pool0, modified0;
    while stack != []
      invariant Frontier(e, root, seen, stack)
      invariant PoolAfter(pool0, pool, seen, root, rate, cluster)
      invariant Grown(multiset(modified0), multiset(modified), Raised(pool0, seen, root))
      decreases |e.txs.Keys - seen|, |stack|
    {
      var child := stack[|stack| - 1];
      if child in seen {
        PopSeen(e, root, seen, stack);
        stack := stack[..|stack| - 1];
      } else {
        Unvisited(e, placed, used, dep, root, pool0, pool, seen, stack, rate, cluster);
        var children := Enumerate(pool[child].children);
        PopNew(e, root, seen, stack, children);
        ghost var mid := multiset(modified);
        pool, modified := VisitChild(pool0, pool, seen, child, root, modified, rate, cluster);
        GrowsByRaised(pool0, seen, child, root, multiset(modified0), mid, multiset(modified));
        seen := seen + {child};
        stack := stack[..|stack| - 1] + children;
      }
    }
    FrontierDone(e, root, seen);
    RaisedAreNewlyModified(e, placed, used, dep, root, pool0);
    AllForgot(e, placed, used, dep, root, pool0, pool, cluster);
  }

  lemma StartFrontier(e: Env, root: Txid, stack: seq<Txid>)
    requires ValidEnv(e) && FromGraph(e) && root in e.txs && Elements(stack) == Children(e, root)
    ensures Frontier(e, root, {}, stack)
  {
    ChildrenDescend(e, root, root);
  }

  method VisitChild(pool0: Pool, pool: Pool, ghost seen: set<Txid>, child: Txid, root: Txid, modified: seq<Txid>,
                    rate: (nat, nat) -> real, cluster: real) returns (next: Pool, modified': seq<Txid>)
    requires root in pool0 && child in pool0 && child !in seen
    requires PoolAfter(pool0, pool, seen, root, rate, cluster)
    ensures PoolAfter(pool0, next, seen + {child}, root, rate, cluster)
    ensures Grown(multiset(modified), multiset(modified'), Raised(pool0, {child}, root))
  {
    hide PoolAfter, Raised, Grown, Forget;
    ForgetOne(pool0, pool, seen, child, root, rate, cluster);
    GrowsByOne(multiset(modified), child);
    var m := pool[child];
    next := pool[child := Forget(m, root, pool0[root].fee, pool0[root].adjustedVsize, rate, cluster)];
    modified' := modified;
    if root in m.ancestors && !m.modified {
      modified' := modified + [child];
    }
  }

  method LowerAll(
    ghost e: Env, ghost placed: set<Txid>, ghost used: set<Txid>, ghost dep: map<Txid, real>,
    more: seq<Txid>, pool0: Pool, modified0: seq<Txid>, rate: (nat, nat) -> real, cluster: real)
    returns (pool: Pool, modified: seq<Txid>)
    requires ValidEnv(e) && FromGraph(e) && e.rate == rate && Distinct(more)
    requires Elements(more) <= e.txs.Keys && Elements(more) !! placed
    requires dep.Keys == e.txs.Keys && PoolMatches(e, placed, used, dep, pool0)
    ensures LoweredTo(e, placed, used, dep, Elements(more), cluster, pool, multiset(modified0), multiset(modified))
  {
    hide FromGraph, PoolMatches, Grown, NewlyModified, LowerRates;
    pool, modified := pool0, modified0;
    LoweredNone(e, placed, used, dep, cluster, pool0, multiset(modified0));
    assert Elements(more[..0]) == {};
    for i := 0 to |more|
      invariant LoweredTo(e, placed, used, dep, Elements(more[..i]), cluster, pool, multiset(modified0), multiset(modified))
    {
      ghost var done, mid := Elements(more[..i]), multiset(modified);
      assert Elements(more[..i + 1]) == done + {more[i]};
      assert more[i] in Elements(more) && more[i] !in placed + done;
      pool, modified := UpdateDescendants(e, placed + done, used, LowerRates(e, dep, done, cluster), more[i], pool, modified, rate, cluster);
      LoweredMore(e, placed, used, dep, done, more[i], cluster, pool, multiset(modified0), mid, multiset(modified));
    }
    assert more[..|more|] == more;
  }

  // ---- one candidate ----------------------------------------------------------------------------

  method PlacePackage(ghost e: Env, packer: Packer, modified: seq<Txid>, t: Txid, pkg: seq<Txid>) returns (modified': seq<Txid>)
    requires packer.Valid(e, multiset(modified))
    requires t in e.txs && pkg == Package(e, packer.rates.Keys, t)
    modifies packer
    ensures packer.Valid(e, multiset(modified'))
    ensures packer.View(multiset(modified')) == Place(e, old(packer.View(multiset(modified))), t)
  {
    hide Nested, FromGraph, PoolMatches, Package, Dropped, Deps, Marked, EffectiveRate, NotIn, Unused, LoweredTo, PlaceMembers;
    ghost var st := packer.View(multiset(modified));
    ghost var placed, used := st.rates.Keys, st.rates.Keys + st.dropped;
    var effectiveRate := TemplateBuilder.RateOf(e, packer, multiset(modified), t);
    PackageElements(e, placed, t);
    var before := Marks(packer.pool, packer.spent, packer.rates, packer.weight);
    var after, more := MarkPackage(e, placed, used, st.dep, before, pkg, effectiveRate);
    NotInIsUnused(st, pkg);
    TemplateBuilder.NotInDistinct(used, pkg);
    MarkedPool(e, placed, used, st.dep, effectiveRate, before, more, after);
    var pool;
    pool, modified' := LowerAll(e, placed, used + Elements(more), st.dep, more, after.pool, modified, packer.rate, effectiveRate);
    TemplateBuilder.PlacedPool(e, st, more, effectiveRate, pool, multiset(modified'));
    packer.Enter(e, st, multiset(modified'), effectiveRate, pool, after, more);
  }

  lemma MarkedPool(e: Env, placed: set<Txid>, used: set<Txid>, dep: map<Txid, real>, effectiveRate: real,
                   before: Marks, more: seq<Txid>, after: Marks)
    requires ValidEnv(e) && Marked(e, placed, used, dep, effectiveRate, before, more, after)
    ensures Elements(more) <= e.txs.Keys && PoolMatches(e, placed, used + Elements(more), dep, after.pool)
  {
    hide PoolMatches;
  }

  /** Sort the whole list again, then take the better of its head and the first array slot. */
  method Select(ghost e: Env, packer: Packer, modified: seq<Txid>) returns (next: Option<Txid>, modified': seq<Txid>)
    requires packer.Valid(e, multiset(modified))
    modifies packer
    ensures packer.Valid(e, multiset(modified'))
    ensures next == Candidate(e, old(packer.View(multiset(modified))))
    ensures packer.View(multiset(modified')) == Take(e, old(packer.View(multiset(modified))))
  {
    hide Nested, FromGraph, PoolOf, Dropped, Deps, IsBest, TakesArray, Best, Scores, SortByScore, BestFirst;
    ghost var st := packer.View(multiset(modified));
    QueueIsScored(e, st, packer.pool, modified);
    var sorted := SortByScore(modified, ScoresOf(packer.pool));
    SortByScoreSorts(modified, ScoresOf(packer.pool));
    var best := if sorted == [] then None else Some(sorted[0]);
    assert best.None? <==> st.queue == multiset{} by {
      assert |sorted| == |multiset(sorted)| == |st.queue|;
    }
    if sorted != [] {
      HeadIsBest(sorted, ScoresOf(packer.pool));
    }
    TemplateBuilder.ChosenFromQueue(e, st, packer.pool, best);
    var takesArray := packer.top < |packer.arr|
      && (best.None? || packer.pool[packer.arr[packer.top]].score > packer.pool[best.value].score);
    modified' := sorted;
    if takesArray {
      next := Some(packer.arr[packer.top]);
      packer.TakeTop(e, multiset(sorted));
    } else if best.Some? {
      next := best;
      modified' := sorted[1..];
      TailMultiset(sorted);
      TemplateBuilder.Shrunk(e, packer, multiset(sorted), multiset(modified'));
    } else {
      next := None;
    }
  }

  lemma QueueIsScored(e: Env, st: State, pool: Pool, modified: seq<Txid>)
    requires ValidEnv(e) && Wf(e, st) && PoolOf(e, st.rates, st.dropped, st.dep, pool) && st.queue == multiset(modified)
    ensures Scored(modified, ScoresOf(pool))
  {
    assert forall t :: t in modified ==> t in multiset(modified);
  }

  method Judge(ghost e: Env, packer: Packer, modified: seq<Txid>, t: Txid) returns (skip: bool, modified': seq<Txid>)
    requires packer.Valid(e, multiset(modified)) && t in e.txs
    modifies packer
    ensures packer.Valid(e, multiset(modified'))
    ensures var st, r := old(packer.View(multiset(modified))), packer.View(multiset(modified'));
            Consider(e, st, t) == if skip then Running(r) else MaybeClose(e, r)
  {
    hide Nested, FromGraph, PoolOf, Dropped, Deps, MaybeClose, Package, Fits, Conflicts, Place, Wf;
    modified' := modified;
    ghost var st := packer.View(multiset(modified));
    Flags(e, st, packer.pool, t);
    if packer.pool[t].used {
      return true, modified;
    }
    var fits := packer.PackageFits(e, multiset(modified), t);
    if !fits {
      packer.PostponeCandidate(e, multiset(modified), t);
      return false, modified;
    }
    var pkg := packer.PackageOf(e, multiset(modified), t);
    SameConflicts(e, st, packer.pool, pkg);
    if PackageConflicts(packer.pool, packer.spent, pkg) {
      packer.DropCandidate(e, multiset(modified), t);
      return true, modified;
    }
    modified' := PlacePackage(e, packer, modified, t, pkg);
    skip := false;
  }

  // ---- closing a block ----------------------------------------------------------------------------

  method ReinsertAll(ghost e: Env, packer: Packer, modified: seq<Txid>, back: seq<Txid>) returns (modified': seq<Txid>)
    requires packer.Valid(e, multiset(modified)) && forall t :: t in back ==> t in e.txs
    modifies packer
    ensures packer.Valid(e, multiset(modified'))
    ensures packer.View(multiset(modified')) == Reinsert(e, old(packer.View(multiset(modified))), back)
  {
    hide Nested, FromGraph, PoolOf, Dropped, Deps, Modified, Wf, Requeue, Reinsert, ValidEnv;
    ghost var st := packer.View(multiset(modified));
    modified' := modified;
    var i := |back|;
    assert back[..i] == back;
    while i > 0
      invariant 0 <= i <= |back|
      invariant packer.Valid(e, multiset(modified'))
      invariant Reinsert(e, packer.View(multiset(modified')), back[..i]) == Reinsert(e, st, back)
    {
      i := i - 1;
      ReinsertStep(e, packer.View(multiset(modified')), back, i);
      modified' := RequeueOne(e, packer, modified', back[i]);
    }
    ReinsertNothing(e, packer.View(multiset(modified')), back[..0]);
  }

  method RequeueOne(ghost e: Env, packer: Packer, modified: seq<Txid>, t: Txid) returns (modified': seq<Txid>)
    requires packer.Valid(e, multiset(modified)) && t in e.txs
    modifies packer
    ensures packer.Valid(e, multiset(modified'))
    ensures packer.View(multiset(modified')) == Requeue(e, old(packer.View(multiset(modified))), t)
  {
    hide Nested, FromGraph, PoolOf, Dropped, Deps, Modified;
    Flags(e, packer.View(multiset(modified)), packer.pool, t);
    if packer.pool[t].modified {
      modified' := modified + [t];
    } else {
      modified' := modified;
      packer.PutBack(e, multiset(modified), t);
    }
  }

  method CloseIfDue(ghost e: Env, packer: Packer, modified: seq<Txid>) returns (stop: bool, modified': seq<Txid>)
    requires packer.Valid(e, multiset(modified))
    modifies packer
    ensures packer.Valid(e, multiset(modified'))
    ensures var st, r := old(packer.View(multiset(modified))), packer.View(multiset(modified'));
            MaybeClose(e, st) == if stop then Finished(r) else Running(r)
  {
    hide Nested, FromGraph, PoolOf, Dropped, Deps, Reinsert;
    stop, modified' := false, modified;
    assert modified == [] <==> multiset(modified) == multiset{} by {
      assert |modified| == |multiset(modified)|;
    }
    var exceededTries := packer.failures > MAX_FAILURES && packer.weight > Monus(packer.weightLimit, BLOCK_RESERVED_WEIGHT);
    if (exceededTries || (packer.top >= |packer.arr| && modified == [])) && |packer.blocks| < Monus(packer.maxBlocks, 1) {
      if packer.block == [] {
        return true, modified;
      }
      var back := packer.StartBlock(e, multiset(modified));
      modified' := ReinsertAll(e, packer, modified, back);
    }
  }

  // ---- the packing loop -----------------------------------------------------------------------------

  method Iteration(ghost e: Env, packer: Packer, modified: seq<Txid>) returns (stop: bool, modified': seq<Txid>)
    requires packer.Valid(e, multiset(modified)) && HasWork(packer.View(multiset(modified)))
    modifies packer
    ensures packer.Valid(e, multiset(modified'))
    ensures var st, r := old(packer.View(multiset(modified))), packer.View(multiset(modified'));
            Step(e, st) == if stop then Finished(r) else Running(r)
  {
    hide Nested, FromGraph, PoolOf, Dropped, Deps, MaybeClose, Consider, Candidate, Take, SkipTop, Wf;
    packer.SkipUsed(e, multiset(modified));
    ghost var st := packer.View(multiset(modified));
    var next;
    next, modified' := Select(e, packer, modified);
    if next.Some? {
      var skip;
      skip, modified' := Judge(e, packer, modified', next.value);
      if skip {
        return false, modified';
      }
    } else {
      TemplateBuilder.NothingTaken(e, st);
    }
    stop, modified' := CloseIfDue(e, packer, modified');
  }

  method Run(ghost e: Env, packer: Packer) returns (modified: seq<Txid>)
    requires packer.Valid(e, multiset{})
    modifies packer
    ensures packer.Valid(e, multiset(modified))
    ensures exists n: nat :: Iterate(e, old(packer.View(multiset{})), n) == Finished(packer.View(multiset(modified)))
  {
    hide Nested, FromGraph, PoolOf, Dropped, Deps, Step, Wf, Unmodified;
    modified := [];
    ghost var st, n := packer.View(multiset{}), 0;
    while packer.top < |packer.arr| || modified != []
      invariant packer.Valid(e, multiset(modified))
      invariant Iterate(e, st, n) == Running(packer.View(multiset(modified)))
      decreases BlocksLeft(e, packer.View(multiset(modified))),
                |Unmodified(e, packer.View(multiset(modified)).rates.Keys)|,
                Slots(packer.View(multiset(modified)))
    {
      assert |modified| == |multiset(modified)|;
      StepProgresses(e, packer.View(multiset(modified)));
      var stop;
      stop, modified := Iteration(e, packer, modified);
      n := n + 1;
      if stop {
        assert Iterate(e, st, n) == Finished(packer.View(multiset(modified)));
        return;
      }
    }
    TemplateBuilder.Idle(e, packer.View(multiset(modified)));
    assert Iterate(e, st, n + 1) == Finished(packer.View(multiset(modified)));
  }

  /** All in-pool inputs, repetitions included. */
  function InPoolInputs(txs: Mempool, inputs: seq<Txid>): (r: seq<Txid>)
    ensures forall p :: p in r <==> p in inputs && p in txs
  {
    if inputs == [] then []
    else
      var n := |inputs| - 1;
      assert inputs == inputs[..n] + [inputs[n]];
      InPoolInputs(txs, inputs[..n]) + (if inputs[n] in txs then [inputs[n]] else [])
  }

  method OldCalculateBlockTemplates(txs: Mempool, maxBlocks: nat, weightLimit: nat,
                                    arrange: set<Txid> -> seq<Txid>, rate: (nat, nat) -> real)
    returns (blocks: seq<seq<Txid>>, rates: map<Txid, real>)
    requires Arranges(arrange) && Acyclic(ParentGraph(txs))
    ensures TemplateBuilder.TemplatesOf(EnvOf(txs, maxBlocks, weightLimit, arrange, rate), blocks, rates)
  {
    hide Acyclic, Half, FromGraph, Nested, PoolMatches, InitialArray, Iterate, Step, Wf, Dropped, Deps, SortByScore;
    ghost var e := EnvOf(txs, maxBlocks, weightLimit, arrange, rate);
    TemplateBuilder.EnvFromGraph(txs, maxBlocks, weightLimit, arrange, rate);
    TemplateBuilder.EnvIsReady(txs, e);
    var pool0 := map t | t in txs :: MinerEntry(txs[t], InPoolInputs(txs, txs[t].inputs));
    SameGraph(txs, pool0);
    var pool := SetAllRelatives(pool0, rate);
    RelativesMatch(e, pool0, pool);
    var keys := Enumerate(pool.Keys);
    TemplateBuilder.StartsInOrder(e, pool, keys);
    var arr := SortByScore(keys, ScoresOf(pool));
    var packer := new Packer(pool, arr, maxBlocks, weightLimit, arrange, rate);
    TemplateBuilder.StartView(e, pool, arr);
    assert packer.View(multiset{}) == Init(e, arr);
    var modified := Run(e, packer);
    blocks := if packer.block == [] then packer.blocks else packer.blocks + [packer.block];
    rates := packer.rates;
    assert Produces(e, arr, blocks, rates);
  }

  // ---- both builders agree ------------------------------------------------------------------------------

  lemma {:induction false} FinishedStays(e: Env, st: State, n: nat, m: nat)
    requires ValidEnv(e) && Wf(e, st) && n <= m && Iterate(e, st, n).Finished?
    ensures Iterate(e, st, m) == Iterate(e, st, n)
  {
    hide Step;
    if n < m {
      FinishedStays(e, st, n, m - 1);
    }
  }

  lemma StartIsUnique(e: Env, arr: seq<Txid>, arr': seq<Txid>)
    requires ValidEnv(e) && InitialArray(e, arr) && InitialArray(e, arr')
    ensures arr == arr'
  {
    hide Scores, Before;
    BestFirstIsUnique(arr, arr', Scores(e, {}));
  }

  lemma EndIsUnique(e: Env, arr: seq<Txid>, blocks: seq<seq<Txid>>, rates: map<Txid, real>, blocks': seq<seq<Txid>>, rates': map<Txid, real>)
    requires ValidEnv(e) && InitialArray(e, arr) && Produces(e, arr, blocks, rates) && Produces(e, arr, blocks', rates')
    ensures blocks == blocks' && rates == rates'
  {
    hide Iterate, Init, InitialArray, Wf;
    var n: nat :|
      var r := Iterate(e, Init(e, arr), n);
      r.Finished? && blocks == BlocksOf(r.st) && rates == r.st.rates;
    var m: nat :|
      var r := Iterate(e, Init(e, arr), m);
      r.Finished? && blocks' == BlocksOf(r.st) && rates' == r.st.rates;
    if n <= m {
      FinishedStays(e, Init(e, arr), n, m);
    } else {
      FinishedStays(e, Init(e, arr), m, n);
    }
  }

  /** The step machine determines the templates: there is one starting array and one final state. */
  lemma TemplatesAreUnique(e: Env, blocks: seq<seq<Txid>>, rates: map<Txid, real>, blocks': seq<seq<Txid>>, rates': map<Txid, real>)
    requires ValidEnv(e) && TemplateBuilder.TemplatesOf(e, blocks, rates) && TemplateBuilder.TemplatesOf(e, blocks', rates')
    ensures blocks == blocks' && rates == rates'
  {
    hide InitialArray, Produces;
    var arr :| InitialArray(e, arr) && Produces(e, arr, blocks, rates);
    var arr' :| InitialArray(e, arr') && Produces(e, arr', blocks', rates');
    StartIsUnique(e, arr, arr');
    EndIsUnique(e, arr, blocks, rates, blocks', rates');
  }

  /** The optimised builder and the reference return the same blocks and the same effective rates. */
  method TemplatesMatchReference(txs: Mempool, maxBlocks: nat, weightLimit: nat,
                                 arrange: set<Txid> -> seq<Txid>, rate: (nat, nat) -> real)
    returns (blocks: seq<seq<Txid>>, rates: map<Txid, real>, oldBlocks: seq<seq<Txid>>, oldRates: map<Txid, real>)
    requires Arranges(arrange) && Acyclic(ParentGraph(txs))
    ensures blocks == oldBlocks && rates == oldRates
    ensures TemplateBuilder.TemplatesOf(EnvOf(txs, maxBlocks, weightLimit, arrange, rate), blocks, rates)
  {
    hide TemplateBuilder.TemplatesOf, Acyclic;
    blocks, rates := TemplateBuilder.CalculateBlockTemplates(txs, maxBlocks, weightLimit, arrange, rate);
    oldBlocks, oldRates := OldCalculateBlockTemplates(txs, maxBlocks, weightLimit, arrange, rate);
    TemplatesAreUnique(EnvOf(txs, maxBlocks, weightLimit, arrange, rate), blocks, rates, oldBlocks, oldRates);
  }
}
