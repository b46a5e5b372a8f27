/** `update_descendants`: after a transaction is placed, its descendants forget it as an ancestor. */
module Descendants {
  import opened Collections
  import opened TxGraph
  import opened TemplateSpec
  import opened ModifiedQueues
  import opened HashOrder

  // ---- the pool against the abstract state ----------------------------------------------

  /** `anc` is the ancestor closure of the in-pool parent relation. */
  ghost predicate FromGraph(e: Env)
    requires ValidEnv(e)
  {
    forall t :: t in e.txs ==> e.anc[t] == Ancestors(ParentGraph(e.txs), t)
  }

  ghost function Children(e: Env, t: Txid): set<Txid> {
    set c | c in e.txs && t in e.txs && t in e.txs[c].inputs
  }

  /** The fields of a pool entry are exactly what the placed set determines. */
  ghost predicate Matches(e: Env, placed: set<Txid>, used: set<Txid>, dep: map<Txid, real>, t: Txid, m: MinerTx)
    requires ValidEnv(e) && t in e.txs && t in dep
  {
    && StaticMatches(e, t, m)
    && m.dependencyRate == dep[t]
    && m.ancestors == Remaining(e, placed, t)
    && m.ancestorFee == PackageFee(e, placed, t)
    && m.ancestorVsize == PackageVsize(e, placed, t)
    && m.score == Score(e, placed, t)
    && m.used == (t in used)
    && m.modified == Modified(e, placed, t)
  }

  ghost predicate StaticMatches(e: Env, t: Txid, m: MinerTx)
    requires t in e.txs
  {
    && m.fee == e.txs[t].feeSat && m.weight == AdjustedWeight(e.txs[t])
    && m.adjustedVsize == AdjustedVsize(e.txs[t]) && m.spent == e.txs[t].spent
    && m.children == Children(e, t)
  }

  ghost predicate PoolMatches(e: Env, placed: set<Txid>, used: set<Txid>, dep: map<Txid, real>, pool: Pool)
    requires ValidEnv(e)
  {
    && pool.Keys == e.txs.Keys && dep.Keys == e.txs.Keys
    && forall t :: t in e.txs ==> Matches(e, placed, used, dep, t, pool[t])
  }

  // ---- the update of one descendant -------------------------------------------------------

  /** Forget `root` as an ancestor. */
  function Forget(m: MinerTx, root: Txid, fee: nat, vsize: nat, rate: (nat, nat) -> real, cluster: real): MinerTx {
    if root !in m.ancestors then m
    else
      var ancestorFee, ancestorVsize := Monus(m.ancestorFee, fee), Max(Monus(m.ancestorVsize, vsize), 1);
      m.(ancestors := m.ancestors - {root}, ancestorFee := ancestorFee, ancestorVsize := ancestorVsize,
      score := rate(ancestorFee, ancestorVsize), dependencyRate := MinReal(m.dependencyRate, cluster), modified := true)
  }

  lemma SumsForget(e: Env, placed: set<Txid>, root: Txid, t: Txid)
    requires ValidEnv(e) && t in e.txs && root in Remaining(e, placed, t)
    ensures PackageFee(e, placed, t) == PackageFee(e, placed + {root}, t) + e.txs[root].feeSat
    ensures PackageVsize(e, placed, t) == PackageVsize(e, placed + {root}, t) + AdjustedVsize(e.txs[root])
  {
    var rest := Remaining(e, placed, t);
    assert Remaining(e, placed + {root}, t) == rest - {root};
    SumRemove(Fees(e), rest, root);
    SumRemove(Vsizes(e), rest, root);
  }

  lemma ForgetMatches(e: Env, placed: set<Txid>, used: set<Txid>, dep: map<Txid, real>, root: Txid, cluster: real,
                      t: Txid, m: MinerTx)
    requires ValidEnv(e) && dep.Keys == e.txs.Keys && root in e.txs && root !in placed && t in e.txs
    requires Matches(e, placed, used, dep, t, m)
    ensures Matches(e, placed + {root}, used, LowerRates(e, dep, {root}, cluster), t,
                    Forget(m, root, e.txs[root].feeSat, AdjustedVsize(e.txs[root]), e.rate, cluster))
  {
    hide SumOver, ValidEnv;
    AncestorsOfAll(e);
    if root in e.anc[t] {
      SumsForget(e, placed, root, t);
      assert e.anc[t] * (placed + {root}) != {} by { assert root in e.anc[t] * (placed + {root}); }
      assert e.anc[t] * {root} != {} by { assert root in e.anc[t] * {root}; }
    } else {
      assert Remaining(e, placed + {root}, t) == Remaining(e, placed, t);
      assert e.anc[t] * (placed + {root}) == e.anc[t] * placed;
      assert e.anc[t] * {root} == {};
    }
  }

  // ---- the traversal ---------------------------------------------------------------------

  ghost function DescendantsOf(e: Env, root: Txid): set<Txid>
    requires ValidEnv(e)
  {
    set t | t in e.txs && root in e.anc[t]
  }

  lemma ChildrenDescend(e: Env, root: Txid, t: Txid)
    requires ValidEnv(e) && FromGraph(e) && root in e.txs && (t == root || t in DescendantsOf(e, root))
    ensures Children(e, t) <= DescendantsOf(e, root)
  {
    var g := ParentGraph(e.txs);
    forall c | c in Children(e, t)
      ensures root in e.anc[c]
    {
      AncestorUnfold(g, root, c);
    }
  }

  lemma {:induction false} ClosedUnderChildren(e: Env, root: Txid, seen: set<Txid>, t: Txid, n: nat)
    requires Children(e, root) <= seen && forall x :: x in seen ==> Children(e, x) <= seen
    requires root in e.txs && Within(ParentGraph(e.txs), root, t, n)
    ensures t in seen
    decreases n
  {
    var g := ParentGraph(e.txs);
    if root in g[t] {
      assert t in Children(e, root);
    } else {
      var p :| p in g[t] && Within(g, root, p, n - 1);
      ClosedUnderChildren(e, root, seen, p, n - 1);
      assert t in Children(e, p);
    }
  }

  lemma SeenAll(e: Env, root: Txid, seen: set<Txid>)
    requires ValidEnv(e) && FromGraph(e) && root in e.txs && seen <= DescendantsOf(e, root)
    requires Children(e, root) <= seen && forall x :: x in seen ==> Children(e, x) <= seen
    ensures seen == DescendantsOf(e, root)
  {
    forall t | t in DescendantsOf(e, root)
      ensures t in seen
    {
      var n: nat :| Within(ParentGraph(e.txs), root, t, n);
      ClosedUnderChildren(e, root, seen, t, n);
    }
  }

  ghost predicate PoolAfter(pool0: Pool, pool: Pool, seen: set<Txid>, root: Txid, rate: (nat, nat) -> real, cluster: real)
    requires root in pool0
  {
    && pool.Keys == pool0.Keys
    && forall t :: t in pool ==>
         pool[t] == if t in seen then Forget(pool0[t], root, pool0[root].fee, pool0[root].adjustedVsize, rate, cluster)
                    else pool0[t]
  }

  /** What the traversal has still to visit covers the children of everything it has visited. */
  ghost predicate Frontier(e: Env, root: Txid, seen: set<Txid>, stack: seq<Txid>)
    requires ValidEnv(e)
  {
    && Elements(stack) <= DescendantsOf(e, root) && seen <= DescendantsOf(e, root)
    && Children(e, root) <= seen + Elements(stack)
    && forall x :: x in seen ==> Children(e, x) <= seen + Elements(stack)
  }

  ghost function Raised(pool0: Pool, seen: set<Txid>, root: Txid): set<Txid> {
    set t | t in seen && t in pool0 && root in pool0[t].ancestors && !pool0[t].modified
  }

  lemma PopSeen(e: Env, root: Txid, seen: set<Txid>, stack: seq<Txid>)
    requires ValidEnv(e) && stack != [] && Frontier(e, root, seen, stack) && stack[|stack| - 1] in seen
    ensures Frontier(e, root, seen, stack[..|stack| - 1])
  {
    var n := |stack| - 1;
    assert Elements(stack) == Elements(stack[..n]) + {stack[n]};
  }

  lemma PopNew(e: Env, root: Txid, seen: set<Txid>, stack: seq<Txid>, more: seq<Txid>)
    requires ValidEnv(e) && FromGraph(e) && root in e.txs && stack != [] && Frontier(e, root, seen, stack)
    requires Elements(more) == Children(e, stack[|stack| - 1])
    ensures Frontier(e, root, seen + {stack[|stack| - 1]}, stack[..|stack| - 1] + more)
  {
    var n := |stack| - 1;
    assert Elements(stack) == Elements(stack[..n]) + {stack[n]};
    assert Elements(stack[..n] + more) == Elements(stack[..n]) + Elements(more);
    assert stack[n] in Elements(stack);
    ChildrenDescend(e, root, stack[n]);
  }

  method UpdateDescendants(
    ghost e: Env, ghost placed: set<Txid>, ghost used: set<Txid>, ghost dep: map<Txid, real>,
    root: Txid, pool0: Pool, modified: ModifiedQueue, rate: (nat, nat) -> real, cluster: real)
    returns (pool: Pool)
    requires ValidEnv(e) && FromGraph(e) && e.rate == rate && root in e.txs && root !in placed
    requires PoolMatches(e, placed, used, dep, pool0) && modified.Valid(pool0)
    modifies modified
    ensures PoolMatches(e, placed + {root}, used, LowerRates(e, dep, {root}, cluster), pool)
    ensures modified.Valid(pool)
    ensures Grown(old(modified.contents), modified.contents, NewlyModified(e, placed, {root}))
  {
    var stack := Enumerate(pool0[root].children);
    MatchesSummary(e, placed, used, dep, pool0, root);
    ChildrenDescend(e, root, root);
    hide Matches, Raised, Forget, NewlyModified, LowerRates, Children, DescendantsOf;
    pool := Traverse(e, placed, used, dep, root, pool0, stack, modified, rate, cluster);
    RaisedAreNewlyModified(e, placed, used, dep, root, pool0);
    AllForgot(e, placed, used, dep, root, pool0, pool, cluster);
  }

  /** The traversal visits exactly the descendants of `root`, each once. */
  method Traverse(
    ghost e: Env, ghost placed: set<Txid>, ghost used: set<Txid>, ghost dep: map<Txid, real>,
    root: Txid, pool0: Pool, first: seq<Txid>, modified: ModifiedQueue, rate: (nat, nat) -> real, cluster: real)
    returns (pool: Pool)
    requires ValidEnv(e) && FromGraph(e) && root in e.txs
    requires PoolMatches(e, placed, used, dep, pool0) && modified.Valid(pool0)
    requires Frontier(e, root, {}, first)
    modifies modified
    ensures PoolAfter(pool0, pool, DescendantsOf(e, root), root, rate, cluster)
    ensures modified.Valid(pool)
    ensures Grown(old(modified.contents), modified.contents, Raised(pool0, DescendantsOf(e, root), root))
  {
    pool := pool0;
    var stack, seen := first, {};
    NothingSeen(pool0, root, rate, cluster);
    hide Grown, FromGraph, PoolMatches, Frontier, PoolAfter, Raised, DescendantsOf, ModifiedQueue.Valid;
    while stack != []
      invariant Frontier(e, root, seen, stack)
      invariant PoolAfter(pool0, pool, seen, root, rate, cluster)
      invariant modified.Valid(pool)
      invariant Grown(old(modified.contents), modified.contents, Raised(pool0, seen, root))
      decreases |e.txs.Keys - seen|, |stack|
    {
      var child := stack[|stack| - 1];
      if child in seen {
        PopSeen(e, root, seen, stack);
        stack := stack[..|stack| - 1];
      } else {
        ghost var mid := modified.contents;
        pool, stack := Visit(e, placed, used, dep, root, pool0, pool, seen, stack, modified, rate, cluster);
        GrowsByRaised(pool0, seen, child, root, old(modified.contents), mid, modified.contents);
        seen := seen + {child};
      }
    }
    FrontierDone(e, root, seen);
  }

  /** One iteration on a child that has not been seen: push its children and update it. */
  method Visit(
    ghost e: Env, ghost placed: set<Txid>, ghost used: set<Txid>, ghost dep: map<Txid, real>, root: Txid,
    pool0: Pool, pool: Pool, ghost seen: set<Txid>, stack: seq<Txid>, modified: ModifiedQueue,
    rate: (nat, nat) -> real, cluster: real) returns (next: Pool, stack': seq<Txid>)
    requires ValidEnv(e) && FromGraph(e) && root in e.txs && PoolMatches(e, placed, used, dep, pool0)
    requires stack != [] && Frontier(e, root, seen, stack) && PoolAfter(pool0, pool, seen, root, rate, cluster)
    requires stack[|stack| - 1] !in seen && modified.Valid(pool)
    modifies modified
    ensures var child := stack[|stack| - 1];
            && Frontier(e, root, seen + {child}, stack')
            && PoolAfter(pool0, next, seen + {child}, root, rate, cluster)
            && Grown(old(modified.contents), modified.contents, Raised(pool0, {child}, root))
            && |e.txs.Keys - (seen + {child})| < |e.txs.Keys - seen|
    ensures modified.Valid(next)
  {
    hide FromGraph, PoolMatches, Frontier, PoolAfter, Raised, DescendantsOf, ModifiedQueue.Valid;
    var child := stack[|stack| - 1];
    Unvisited(e, placed, used, dep, root, pool0, pool, seen, stack, rate, cluster);
    var more := Enumerate(pool[child].children);
    PopNew(e, root, seen, stack, more);
    stack' := stack[..|stack| - 1] + more;
    next := VisitChild(pool0, pool, seen, child, root, modified, rate, cluster);
  }

  lemma NothingSeen(pool0: Pool, root: Txid, rate: (nat, nat) -> real, cluster: real)
    requires root in pool0
    ensures PoolAfter(pool0, pool0, {}, root, rate, cluster) && Raised(pool0, {}, root) == {}
  {
  }

  lemma Unvisited(e: Env, placed: set<Txid>, used: set<Txid>, dep: map<Txid, real>, root: Txid,
                  pool0: Pool, pool: Pool, seen: set<Txid>, stack: seq<Txid>, rate: (nat, nat) -> real, cluster: real)
    requires ValidEnv(e) && root in e.txs && PoolMatches(e, placed, used, dep, pool0)
    requires stack != [] && Frontier(e, root, seen, stack) && PoolAfter(pool0, pool, seen, root, rate, cluster)
    requires stack[|stack| - 1] !in seen
    ensures var child := stack[|stack| - 1];
            && root in pool0 && child in pool0 && child in pool
            && pool[child].children == Children(e, child)
            && |e.txs.Keys - (seen + {child})| < |e.txs.Keys - seen|
  {
    hide Matches, Forget;
    var child := stack[|stack| - 1];
    assert child in Elements(stack);
    MatchesSummary(e, placed, used, dep, pool0, child);
    SmallerSet(e.txs.Keys - (seen + {child}), e.txs.Keys - seen);
  }

  lemma FrontierDone(e: Env, root: Txid, seen: set<Txid>)
    requires ValidEnv(e) && FromGraph(e) && root in e.txs && Frontier(e, root, seen, [])
    ensures seen == DescendantsOf(e, root)
  {
    SeenAll(e, root, seen);
  }

  lemma MatchesSummary(e: Env, placed: set<Txid>, used: set<Txid>, dep: map<Txid, real>, pool: Pool, t: Txid)
    requires ValidEnv(e) && PoolMatches(e, placed, used, dep, pool) && t in e.txs
    ensures pool[t].ancestors == Remaining(e, placed, t) && pool[t].children == Children(e, t)
    ensures pool[t].fee == e.txs[t].feeSat && pool[t].adjustedVsize == AdjustedVsize(e.txs[t])
    ensures pool[t].used == (t in used) && pool[t].modified == Modified(e, placed, t)
    ensures pool[t].ancestorVsize == PackageVsize(e, placed, t) && pool[t].score == Score(e, placed, t)
  {
    hide Remaining, Modified, PackageFee, PackageVsize, Score;
  }

  lemma AllForgot(e: Env, placed: set<Txid>, used: set<Txid>, dep: map<Txid, real>, root: Txid, pool0: Pool, pool: Pool, cluster: real)
    requires ValidEnv(e) && root in e.txs && root !in placed && PoolMatches(e, placed, used, dep, pool0)
    requires PoolAfter(pool0, pool, DescendantsOf(e, root), root, e.rate, cluster)
    ensures PoolMatches(e, placed + {root}, used, LowerRates(e, dep, {root}, cluster), pool)
  {
    hide Matches, Forget;
    var now := LowerRates(e, dep, {root}, cluster);
    forall t | t in e.txs
      ensures Matches(e, placed + {root}, used, now, t, pool[t])
    {
      MatchesSummary(e, placed, used, dep, pool0, t);
      MatchesSummary(e, placed, used, dep, pool0, root);
      ForgetNothing(pool0[t], root, pool0[root].fee, pool0[root].adjustedVsize, e.rate, cluster);
      ForgetMatches(e, placed, used, dep, root, cluster, t, pool0[t]);
    }
  }

  lemma ForgetNothing(m: MinerTx, root: Txid, fee: nat, vsize: nat, rate: (nat, nat) -> real, cluster: real)
    ensures root !in m.ancestors ==> Forget(m, root, fee, vsize, rate, cluster) == m
  {
  }

  lemma RaisedAreNewlyModified(e: Env, placed: set<Txid>, used: set<Txid>, dep: map<Txid, real>, root: Txid, pool0: Pool)
    requires ValidEnv(e) && root in e.txs && root !in placed && PoolMatches(e, placed, used, dep, pool0)
    ensures Raised(pool0, DescendantsOf(e, root), root) == NewlyModified(e, placed, {root})
  {
    hide Matches;
    forall t | t in e.txs
      ensures t in Raised(pool0, DescendantsOf(e, root), root) <==> t in NewlyModified(e, placed, {root})
    {
      MatchesSummary(e, placed, used, dep, pool0, t);
      assert e.anc[t] * {root} != {} <==> root in e.anc[t] by {
        if root in e.anc[t] {
          assert root in e.anc[t] * {root};
        }
      }
    }
  }

  /** The queue has gained each member of `added` once. */
  ghost predicate Grown(before: multiset<Txid>, after: multiset<Txid>, added: set<Txid>) {
    after == before + multiset(added)
  }

  lemma GrowsByRaised(pool0: Pool, seen: set<Txid>, child: Txid, root: Txid,
                      before: multiset<Txid>, mid: multiset<Txid>, after: multiset<Txid>)
    requires child !in seen
    requires Grown(before, mid, Raised(pool0, seen, root)) && Grown(mid, after, Raised(pool0, {child}, root))
    ensures Grown(before, after, Raised(pool0, seen + {child}, root))
  {
    assert Raised(pool0, seen + {child}, root) == Raised(pool0, seen, root) + Raised(pool0, {child}, root);
  }

  lemma StillCovered(q: ModifiedQueue, pool: Pool, child: Txid, m: MinerTx)
    requires q.Valid(pool) && child in pool
    ensures q.ValidExcept(pool[child := m], child)
    ensures m == pool[child] ==> q.Valid(pool[child := m])
  {
    assert m == pool[child] ==> pool[child := m] == pool;
  }

  lemma ForgetOne(pool0: Pool, pool: Pool, seen: set<Txid>, child: Txid, root: Txid, rate: (nat, nat) -> real, cluster: real)
    requires root in pool0 && child in pool0 && child !in seen && PoolAfter(pool0, pool, seen, root, rate, cluster)
    ensures child in pool
    ensures var m := Forget(pool[child], root, pool0[root].fee, pool0[root].adjustedVsize, rate, cluster);
            && pool[child] == pool0[child]
            && PoolAfter(pool0, pool[child := m], seen + {child}, root, rate, cluster)
            && (root !in pool[child].ancestors ==> m == pool[child])
    ensures Raised(pool0, {child}, root) == if root in pool0[child].ancestors && !pool0[child].modified then {child} else {}
  {
  }

  lemma GrowsByOne(before: multiset<Txid>, x: Txid)
    ensures Grown(before, before, {}) && Grown(before, before + multiset{x}, {x})
  {
  }

  method VisitChild(pool0: Pool, pool: Pool, ghost seen: set<Txid>, child: Txid, root: Txid, modified: ModifiedQueue,
                    rate: (nat, nat) -> real, cluster: real) returns (next: Pool)
    requires root in pool0 && child in pool0 && child !in seen
    requires PoolAfter(pool0, pool, seen, root, rate, cluster) && modified.Valid(pool)
    modifies modified
    ensures PoolAfter(pool0, next, seen + {child}, root, rate, cluster)
    ensures modified.Valid(next)
    ensures Grown(old(modified.contents), modified.contents, Raised(pool0, {child}, root))
  {
    var m := pool[child];
    var m' := Forget(m, root, pool0[root].fee, pool0[root].adjustedVsize, rate, cluster);
    ForgetOne(pool0, pool, seen, child, root, rate, cluster);
    StillCovered(modified, pool, child, m');
    GrowsByOne(modified.contents, child);
    hide PoolAfter, Raised, Grown, Forget, ModifiedQueue.Valid, ModifiedQueue.ValidExcept;
    next := pool[child := m'];
    if root in m.ancestors {
      if !m.modified {
        modified.Enqueue(child, next);
      } else {
        modified.Rekey(child, next);
      }
    }
  }
}
