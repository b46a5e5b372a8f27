/** `compute_relatives`: ancestor sets, children and package sums, each transaction finalised once by an
    iterative depth-first search. */
module Relatives {
  import opened Collections
  import opened TxGraph
  import opened TemplateSpec
  import opened ModifiedQueues

  /** The in-pool parents of every pool entry. */
  ghost function InputGraph(pool: Pool): Graph {
    map t | t in pool :: set p | p in pool[t].inputs && p in pool
  }

  ghost function PoolFees(pool: Pool): map<Txid, nat> {
    map t | t in pool :: pool[t].fee
  }

  ghost function PoolVsizes(pool: Pool): map<Txid, nat> {
    map t | t in pool :: pool[t].adjustedVsize
  }

  /** Nothing has been computed yet. */
  ghost predicate Blank(pool: Pool) {
    forall t :: t in pool ==> pool[t].ancestors == {} && pool[t].children == {}
  }

  /** `a` differs from `b` in the computed fields only. */
  predicate SameBase(a: MinerTx, b: MinerTx) {
    a == b.(ancestors := a.ancestors, children := a.children, ancestorFee := a.ancestorFee,
    ancestorVsize := a.ancestorVsize, score := a.score)
  }

  /** The computed fields of a finalised entry. */
  ghost predicate Summarised(pool0: Pool, t: Txid, m: MinerTx, rate: (nat, nat) -> real)
    requires t in pool0
  {
    var all := Ancestors(InputGraph(pool0), t);
    && m.ancestors == all
    && m.ancestorFee == pool0[t].fee + SumOver(PoolFees(pool0), all)
    && m.ancestorVsize == Max(pool0[t].adjustedVsize + SumOver(PoolVsizes(pool0), all), 1)
    && m.score == rate(m.ancestorFee, m.ancestorVsize)
  }

  ghost function ChildrenIn(pool0: Pool, done: set<Txid>, p: Txid): set<Txid> {
    set c | c in done && c in pool0 && p in pool0[c].inputs
  }

  ghost predicate BaseKept(pool0: Pool, pool: Pool) {
    pool.Keys == pool0.Keys && forall t :: t in pool ==> SameBase(pool[t], pool0[t])
  }

  ghost predicate ChildrenLinked(pool0: Pool, pool: Pool, done: set<Txid>) {
    forall t :: t in pool ==> pool[t].children == ChildrenIn(pool0, done, t)
  }

  ghost predicate AncestorsSound(pool0: Pool, pool: Pool) {
    forall t :: t in pool ==> pool[t].ancestors <= Ancestors(InputGraph(pool0), t)
  }

  ghost predicate DoneSummarised(pool0: Pool, pool: Pool, done: set<Txid>, rate: (nat, nat) -> real) {
    forall t :: t in pool && t in pool0 && t in done ==> Summarised(pool0, t, pool[t], rate)
  }

  /** The pool when exactly `done` has been finalised; only the sums need an acyclic pool. */
  ghost predicate Half(pool0: Pool, pool: Pool, done: set<Txid>, rate: (nat, nat) -> real) {
    && BaseKept(pool0, pool)
    && ChildrenLinked(pool0, pool, done)
    && AncestorsSound(pool0, pool)
    && (Acyclic(InputGraph(pool0)) ==> DoneSummarised(pool0, pool, done, rate))
  }

  // ---- the order of the search -------------------------------------------------------------

  ghost function Rank(g: Graph, t: Txid): nat {
    if t in g then Depth(g, t) + 1 else 0
  }

  ghost predicate OnStack(stack: seq<(Txid, bool)>, i: nat, p: Txid) {
    exists j :: i < j < |stack| && stack[j].0 == p
  }

  /** Entries above an expanded one are its ancestors in the making, and cover its unfinished parents. */
  ghost predicate Searching(g: Graph, done: set<Txid>, inProgress: set<Txid>, stack: seq<(Txid, bool)>) {
    && (forall x :: x in inProgress ==> (x, true) in stack)
    && (forall i, j :: 0 <= i < j < |stack| && stack[i].1 ==> Rank(g, stack[j].0) < Rank(g, stack[i].0))
    && (forall i, p :: 0 <= i < |stack| && stack[i].1 && stack[i].0 in g && p in g[stack[i].0] ==> p in done || OnStack(stack, i, p))
  }

  lemma ParentRank(g: Graph, t: Txid, p: Txid)
    requires Acyclic(g) && Closed(g) && t in g && p in g[t]
    ensures Rank(g, p) < Rank(g, t)
  {
    AncestorUnfold(g, p, t);
    AncestorsAreShallower(g, p, t);
  }

  /** An unexpanded entry on top of the stack is never in progress in an acyclic pool. */
  lemma TopIsNotInProgress(g: Graph, done: set<Txid>, inProgress: set<Txid>, stack: seq<(Txid, bool)>)
    requires Searching(g, done, inProgress, stack) && stack != [] && !stack[|stack| - 1].1
    ensures stack[|stack| - 1].0 !in inProgress
  {
  }

  /** A finished entry can be dropped from the top. */
  lemma DropTop(g: Graph, done: set<Txid>, inProgress: set<Txid>, stack: seq<(Txid, bool)>)
    requires Searching(g, done, inProgress, stack) && stack != []
    requires stack[|stack| - 1].0 in done && stack[|stack| - 1].0 !in inProgress
    ensures Searching(g, done, inProgress, stack[..|stack| - 1])
  {
    var n := |stack| - 1;
    var rest := stack[..n];
    forall x | x in inProgress ensures (x, true) in rest {
      var i :| 0 <= i < |stack| && stack[i] == (x, true);
      assert rest[i] == (x, true);
    }
    forall i, p | 0 <= i < |rest| && rest[i].1 && rest[i].0 in g && p in g[rest[i].0] && p !in done
      ensures OnStack(rest, i, p)
    {
      assert OnStack(stack, i, p);
      var j :| i < j < |stack| && stack[j].0 == p;
      assert rest[j].0 == p;
    }
  }

  /** Expand the top entry: mark it, and put its unfinished parents above it. */
  lemma ExpandTop(g: Graph, done: set<Txid>, inProgress: set<Txid>, stack: seq<(Txid, bool)>, more: seq<(Txid, bool)>)
    requires Searching(g, done, inProgress, stack) && stack != [] && Acyclic(g) && Closed(g)
    requires var t := stack[|stack| - 1].0;
             && (t !in g ==> more == [])
             && (t in g ==> forall k :: 0 <= k < |more| ==> !more[k].1 && (more[k].0 in g ==> more[k].0 in g[t]))
             && (t in g ==> forall p :: p in g[t] ==> p in done || p in inProgress + {t} || (p, false) in more)
    ensures var t := stack[|stack| - 1].0;
            Searching(g, done, inProgress + {t}, stack[..|stack| - 1] + [(t, true)] + more)
  {
    var n := |stack| - 1;
    var t := stack[n].0;
    var next := stack[..n] + [(t, true)] + more;
    assert next[n] == (t, true) && forall k :: 0 <= k < n ==> next[k] == stack[k];
    assert forall k :: n < k < |next| ==> next[k] == more[k - n - 1];
    forall x | x in inProgress + {t} ensures (x, true) in next {
      if x != t {
        var i :| 0 <= i < |stack| && stack[i] == (x, true);
        assert next[i] == (x, true);
      }
    }
    forall i, j | 0 <= i < j < |next| && next[i].1
      ensures Rank(g, next[j].0) < Rank(g, next[i].0)
    {
      if n < j {
        if next[j].0 in g {
          ParentRank(g, t, next[j].0);
        }
      }
    }
    forall i, p | 0 <= i < |next| && next[i].1 && next[i].0 in g && p in g[next[i].0] && p !in done
      ensures OnStack(next, i, p)
    {
      ExpandCovers(g, done, inProgress, stack, more, i, p);
    }
  }

  lemma ExpandCovers(g: Graph, done: set<Txid>, inProgress: set<Txid>, stack: seq<(Txid, bool)>, more: seq<(Txid, bool)>, i: nat, p: Txid)
    requires Searching(g, done, inProgress, stack) && stack != [] && Acyclic(g) && Closed(g)
    requires var t := stack[|stack| - 1].0;
             && (forall k :: 0 <= k < |more| ==> !more[k].1)
             && (t in g ==> forall p :: p in g[t] ==> p in done || p in inProgress + {t} || (p, false) in more)
    requires var next := stack[..|stack| - 1] + [(stack[|stack| - 1].0, true)] + more;
             i < |next| && next[i].1 && next[i].0 in g && p in g[next[i].0] && p !in done
    ensures OnStack(stack[..|stack| - 1] + [(stack[|stack| - 1].0, true)] + more, i, p)
  {
    var n := |stack| - 1;
    var t := stack[n].0;
    var next := stack[..n] + [(t, true)] + more;
    if i < n {
      assert next[i] == stack[i];
      assert OnStack(stack, i, p);
      var j :| i < j < |stack| && stack[j].0 == p;
      assert next[j].0 == p;
    } else {
      assert i == n;
      ParentIsNotInProgress(g, done, inProgress, stack, p);
      var k :| 0 <= k < |more| && more[k] == (p, false);
      assert next[n + 1 + k].0 == p;
    }
  }

  lemma ParentIsNotInProgress(g: Graph, done: set<Txid>, inProgress: set<Txid>, stack: seq<(Txid, bool)>, p: Txid)
    requires Searching(g, done, inProgress, stack) && stack != [] && Acyclic(g) && Closed(g)
    requires stack[|stack| - 1].0 in g && p in g[stack[|stack| - 1].0]
    ensures p !in inProgress + {stack[|stack| - 1].0}
  {
    var n := |stack| - 1;
    var t := stack[n].0;
    ParentRank(g, t, p);
    assert forall i :: 0 <= i < |stack| && stack[i] == (p, true) ==> i == n || Rank(g, t) < Rank(g, p);
  }

  // ---- finalising one transaction -------------------------------------------------------------

  /** `next` is `pool` with `t` recorded as a child of the in-pool members of `inputs`. */
  ghost predicate Linked(pool: Pool, next: Pool, t: Txid, inputs: seq<Txid>) {
    && next.Keys == pool.Keys
    && forall x :: x in pool ==>
         next[x] == pool[x].(children := pool[x].children + (if x in inputs then {t} else {}))
  }

  /** The in-pool members of `inputs` and everything they list as ancestors. */
  ghost function Gathered(pool: Pool, inputs: seq<Txid>): set<Txid> {
    if inputs == [] then {}
    else
      var p := inputs[|inputs| - 1];
      Gathered(pool, inputs[..|inputs| - 1]) + (if p in pool then {p} + pool[p].ancestors else {})
  }

  lemma {:induction false} GatheredMembers(pool: Pool, inputs: seq<Txid>, a: Txid)
    ensures a in Gathered(pool, inputs) <==> exists p :: p in inputs && p in pool && (a == p || a in pool[p].ancestors)
  {
    if inputs != [] {
      var n := |inputs| - 1;
      assert inputs == inputs[..n] + [inputs[n]];
      GatheredMembers(pool, inputs[..n], a);
    }
  }

  lemma LinkOne(pool: Pool, next: Pool, t: Txid, inputs: seq<Txid>, p: Txid)
    requires Linked(pool, next, t, inputs)
    ensures p !in pool ==> Linked(pool, next, t, inputs + [p])
    ensures p in pool ==>
              Linked(pool, next[p := next[p].(children := next[p].children + {t})], t, inputs + [p])
  {
  }

  /** Link `t` to its in-pool parents and gather their ancestor sets. */
  method LinkParents(pool: Pool, t: Txid, inputs: seq<Txid>) returns (next: Pool, ancestors: set<Txid>)
    ensures Linked(pool, next, t, inputs)
    ensures ancestors == Gathered(pool, inputs)
  {
    next, ancestors := pool, {};
    assert Linked(pool, next, t, inputs[..0]);
    hide Linked;
    for i := 0 to |inputs|
      invariant next.Keys == pool.Keys && Linked(pool, next, t, inputs[..i])
      invariant forall x :: x in next ==> next[x].ancestors == pool[x].ancestors
      invariant ancestors == Gathered(pool, inputs[..i])
    {
      var parent := inputs[i];
      assert inputs[..i + 1] == inputs[..i] + [parent];
      LinkOne(pool, next, t, inputs[..i], parent);
      assert inputs[..i + 1][..i] == inputs[..i];
      if parent in next {
        ancestors := ancestors + {parent} + next[parent].ancestors;
        next := next[parent := next[parent].(children := next[parent].children + {t})];
      }
    }
    assert inputs[..|inputs|] == inputs;
  }

  /** Add up a pool field over the in-pool members of a hash set. */
  method SumFees(pool: Pool, ancestors: set<Txid>) returns (fee: nat, vsize: nat)
    ensures fee == SumOver(PoolFees(pool), ancestors * pool.Keys)
    ensures vsize == SumOver(PoolVsizes(pool), ancestors * pool.Keys)
  {
    fee, vsize := 0, 0;
    var rest := ancestors;
    ghost var all := ancestors * pool.Keys;
    while rest != {}
      invariant rest <= ancestors
      invariant fee + SumOver(PoolFees(pool), rest * pool.Keys) == SumOver(PoolFees(pool), all)
      invariant vsize + SumOver(PoolVsizes(pool), rest * pool.Keys) == SumOver(PoolVsizes(pool), all)
      decreases rest
    {
      var a :| a in rest;
      if a in pool {
        SumRemove(PoolFees(pool), rest * pool.Keys, a);
        SumRemove(PoolVsizes(pool), rest * pool.Keys, a);
        assert rest * pool.Keys - {a} == (rest - {a}) * pool.Keys;
        fee, vsize := fee + pool[a].fee, vsize + pool[a].adjustedVsize;
      } else {
        assert rest * pool.Keys == (rest - {a}) * pool.Keys;
      }
      rest := rest - {a};
    }
    assert rest * pool.Keys == {};
  }

  lemma InputGraphClosed(pool: Pool)
    ensures Closed(InputGraph(pool))
  {
  }

  /** What the parents list is the ancestor closure of `t`, once the parents are finalised. */
  lemma GatheredIsClosure(pool0: Pool, pool: Pool, done: set<Txid>, t: Txid, rate: (nat, nat) -> real)
    requires Half(pool0, pool, done, rate) && t in pool0
    ensures Gathered(pool, pool0[t].inputs) <= Ancestors(InputGraph(pool0), t)
    ensures Acyclic(InputGraph(pool0)) && InputGraph(pool0)[t] <= done ==>
              Gathered(pool, pool0[t].inputs) == Ancestors(InputGraph(pool0), t)
  {
    var g := InputGraph(pool0);
    InputGraphClosed(pool0);
    hide Ancestors;
    AncestorSetUnfold(g, t);
    forall a | a in Gathered(pool, pool0[t].inputs)
      ensures a in Ancestors(g, t)
    {
      GatheredMembers(pool, pool0[t].inputs, a);
      var p :| p in pool0[t].inputs && p in pool && (a == p || a in pool[p].ancestors);
      assert p in g[t];
    }
    if Acyclic(g) && g[t] <= done {
      forall a | a in Ancestors(g, t)
        ensures a in Gathered(pool, pool0[t].inputs)
      {
        GatheredMembers(pool, pool0[t].inputs, a);
        if a !in g[t] {
          var p :| p in g[t] && a in Ancestors(g, p);
          assert Summarised(pool0, p, pool[p], rate);
        }
      }
    }
  }

  ghost predicate SameNumbers(pool0: Pool, pool: Pool) {
    PoolFees(pool) == PoolFees(pool0) && PoolVsizes(pool) == PoolVsizes(pool0)
  }

  lemma LinkedNumbers(pool0: Pool, pool: Pool, done: set<Txid>, rate: (nat, nat) -> real, next: Pool, t: Txid, inputs: seq<Txid>)
    requires Half(pool0, pool, done, rate) && Linked(pool, next, t, inputs)
    ensures SameNumbers(pool0, next)
  {
    hide Summarised, Ancestors, ChildrenIn, Acyclic;
    assert forall x :: x in next ==> next[x].fee == pool0[x].fee && next[x].adjustedVsize == pool0[x].adjustedVsize;
  }

  function WithSummary(m: MinerTx, ancestors: set<Txid>, fee: nat, vsize: nat, rate: (nat, nat) -> real): MinerTx {
    var ancestorFee, ancestorVsize := m.fee + fee, Max(m.adjustedVsize + vsize, 1);
    m.(ancestors := ancestors, ancestorFee := ancestorFee, ancestorVsize := ancestorVsize,
    score := rate(ancestorFee, ancestorVsize))
  }

  method Finalise(pool0: Pool, pool: Pool, ghost done: set<Txid>, t: Txid, rate: (nat, nat) -> real) returns (next: Pool)
    requires Half(pool0, pool, done, rate)
    requires t in pool0 && Acyclic(InputGraph(pool0)) ==> InputGraph(pool0)[t] <= done
    ensures Half(pool0, next, done + {t}, rate)
  {
    BaseOf(pool0, pool, done, rate, t);
    hide Half, Gathered, Linked, WithSummary, Acyclic;
    var inputs := if t in pool then pool[t].inputs else [];
    var linked, ancestors := LinkParents(pool, t, inputs);
    var fee, vsize := SumFees(linked, ancestors);
    next := linked;
    if t in next {
      next := next[t := WithSummary(next[t], ancestors, fee, vsize, rate)];
      FinalisedInside(pool0, pool, done, t, rate, linked, ancestors, fee, vsize);
    } else {
      FinalisedOutside(pool0, pool, done, t, rate, linked);
    }
  }

  lemma BaseOf(pool0: Pool, pool: Pool, done: set<Txid>, rate: (nat, nat) -> real, t: Txid)
    requires Half(pool0, pool, done, rate)
    ensures pool.Keys == pool0.Keys
    ensures t in pool0 ==> SameBase(pool[t], pool0[t]) && pool[t].inputs == pool0[t].inputs
  {
    hide Summarised, Ancestors, ChildrenIn, Acyclic;
  }

  lemma LinkedNowhere(pool: Pool, next: Pool, t: Txid)
    requires Linked(pool, next, t, [])
    ensures next == pool
  {
    forall x | x in pool ensures next[x] == pool[x] {
      assert pool[x].children + {} == pool[x].children;
    }
  }

  lemma FinalisedOutside(pool0: Pool, pool: Pool, done: set<Txid>, t: Txid, rate: (nat, nat) -> real, next: Pool)
    requires Half(pool0, pool, done, rate)
    requires Linked(pool, next, t, if t in pool then pool[t].inputs else []) && t !in next
    ensures Half(pool0, next, done + {t}, rate)
  {
    hide Summarised, Ancestors, SameBase, Acyclic;
    assert t !in pool;
    LinkedNowhere(pool, next, t);
    assert forall p {:trigger ChildrenIn(pool0, done, p)} :: ChildrenIn(pool0, done + {t}, p) == ChildrenIn(pool0, done, p);
    hide ChildrenIn;
  }

  lemma LinkedFields(pool: Pool, linked: Pool, t: Txid, inputs: seq<Txid>, x: Txid)
    requires Linked(pool, linked, t, inputs) && x in pool
    ensures linked.Keys == pool.Keys
    ensures linked[x].ancestors == pool[x].ancestors && linked[x].ancestorFee == pool[x].ancestorFee
    ensures linked[x].ancestorVsize == pool[x].ancestorVsize && linked[x].score == pool[x].score
    ensures linked[x].fee == pool[x].fee && linked[x].adjustedVsize == pool[x].adjustedVsize
    ensures linked[x].children == pool[x].children + (if x in inputs then {t} else {})
    ensures SameBase(linked[x], pool[x])
  {
  }

  lemma AncestorsInPool(pool0: Pool, t: Txid)
    ensures Ancestors(InputGraph(pool0), t) <= pool0.Keys
  {
  }

  lemma SummaryIsRight(pool0: Pool, pool: Pool, done: set<Txid>, t: Txid, rate: (nat, nat) -> real, linked: Pool,
                       ancestors: set<Txid>, fee: nat, vsize: nat)
    requires Half(pool0, pool, done, rate) && t in pool0 && Linked(pool, linked, t, pool0[t].inputs)
    requires ancestors == Gathered(pool, pool0[t].inputs)
    requires fee == SumOver(PoolFees(linked), ancestors * linked.Keys)
    requires vsize == SumOver(PoolVsizes(linked), ancestors * linked.Keys)
    requires Acyclic(InputGraph(pool0)) ==> InputGraph(pool0)[t] <= done
    ensures ancestors <= Ancestors(InputGraph(pool0), t)
    ensures Acyclic(InputGraph(pool0)) ==> Summarised(pool0, t, WithSummary(linked[t], ancestors, fee, vsize, rate), rate)
  {
    hide Gathered, Half, Acyclic, Ancestors, Linked, SumOver;
    BaseOf(pool0, pool, done, rate, t);
    LinkedFields(pool, linked, t, pool0[t].inputs, t);
    GatheredIsClosure(pool0, pool, done, t, rate);
    LinkedNumbers(pool0, pool, done, rate, linked, t, pool0[t].inputs);
    AncestorsInPool(pool0, t);
    assert ancestors * linked.Keys == ancestors;
  }

  lemma FinalisedInside(pool0: Pool, pool: Pool, done: set<Txid>, t: Txid, rate: (nat, nat) -> real, linked: Pool,
                        ancestors: set<Txid>, fee: nat, vsize: nat)
    requires Half(pool0, pool, done, rate) && t in pool0 && Linked(pool, linked, t, pool0[t].inputs)
    requires ancestors == Gathered(pool, pool0[t].inputs)
    requires fee == SumOver(PoolFees(linked), ancestors * linked.Keys)
    requires vsize == SumOver(PoolVsizes(linked), ancestors * linked.Keys)
    requires Acyclic(InputGraph(pool0)) ==> InputGraph(pool0)[t] <= done
    ensures Half(pool0, linked[t := WithSummary(linked[t], ancestors, fee, vsize, rate)], done + {t}, rate)
  {
    hide Ancestors, Acyclic, Gathered, SumOver, Linked, Summarised, ChildrenIn, SameBase, WithSummary;
    SummaryIsRight(pool0, pool, done, t, rate, linked, ancestors, fee, vsize);
    LinkedFields(pool, linked, t, pool0[t].inputs, t);
    var next := linked[t := WithSummary(linked[t], ancestors, fee, vsize, rate)];
    forall x | x in pool0
      ensures SameBase(next[x], pool0[x])
      ensures next[x].children == ChildrenIn(pool0, done + {t}, x)
      ensures next[x].ancestors <= Ancestors(InputGraph(pool0), x)
      ensures Acyclic(InputGraph(pool0)) && x in done + {t} ==> Summarised(pool0, x, next[x], rate)
    {
      FinalisedEntry(pool0, pool, done, t, rate, linked, ancestors, fee, vsize, x);
    }
  }

  lemma MoreChildren(pool0: Pool, done: set<Txid>, t: Txid, x: Txid)
    requires t in pool0
    ensures ChildrenIn(pool0, done + {t}, x) == ChildrenIn(pool0, done, x) + (if x in pool0[t].inputs then {t} else {})
  {
  }

  lemma SameBaseTransitive(a: MinerTx, b: MinerTx, c: MinerTx)
    requires SameBase(a, b) && SameBase(b, c)
    ensures SameBase(a, c)
  {
  }

  lemma SummaryKeepsBase(m: MinerTx, ancestors: set<Txid>, fee: nat, vsize: nat, rate: (nat, nat) -> real)
    ensures var n := WithSummary(m, ancestors, fee, vsize, rate);
            SameBase(n, m) && n.children == m.children && n.ancestors == ancestors
  {
  }

  /** One entry after `t` has been finalised. */
  lemma FinalisedEntry(pool0: Pool, pool: Pool, done: set<Txid>, t: Txid, rate: (nat, nat) -> real, linked: Pool,
                       ancestors: set<Txid>, fee: nat, vsize: nat, x: Txid)
    requires Half(pool0, pool, done, rate) && t in pool0 && x in pool0 && Linked(pool, linked, t, pool0[t].inputs)
    requires ancestors <= Ancestors(InputGraph(pool0), t)
    requires Acyclic(InputGraph(pool0)) ==> Summarised(pool0, t, WithSummary(linked[t], ancestors, fee, vsize, rate), rate)
    ensures var m := if x == t then WithSummary(linked[x], ancestors, fee, vsize, rate) else linked[x];
            && SameBase(m, pool0[x])
            && m.children == ChildrenIn(pool0, done + {t}, x)
            && m.ancestors <= Ancestors(InputGraph(pool0), x)
            && (Acyclic(InputGraph(pool0)) && x in done + {t} ==> Summarised(pool0, x, m, rate))
  {
    hide Ancestors, Acyclic, Linked, Summarised, ChildrenIn, SameBase, WithSummary;
    LinkedFields(pool, linked, t, pool0[t].inputs, x);
    MoreChildren(pool0, done, t, x);
    SameBaseTransitive(linked[x], pool[x], pool0[x]);
    if x == t {
      SummaryKeepsBase(linked[x], ancestors, fee, vsize, rate);
      SameBaseTransitive(WithSummary(linked[x], ancestors, fee, vsize, rate), linked[x], pool0[x]);
    } else if Acyclic(InputGraph(pool0)) && x in done {
      SameSummary(pool0, x, pool[x], linked[x], rate);
    }
  }

  lemma SameSummary(pool0: Pool, x: Txid, m: MinerTx, n: MinerTx, rate: (nat, nat) -> real)
    requires x in pool0 && Summarised(pool0, x, m, rate)
    requires n.ancestors == m.ancestors && n.ancestorFee == m.ancestorFee && n.ancestorVsize == m.ancestorVsize && n.score == m.score
    ensures Summarised(pool0, x, n, rate)
  {
  }

  // ---- the search ---------------------------------------------------------------------------------

  /** On any graph: the expanded entries are exactly what is in progress, each once, and none is done. */
  ghost predicate Tracked(done: set<Txid>, inProgress: set<Txid>, stack: seq<(Txid, bool)>) {
    && (forall x :: x in inProgress <==> (x, true) in stack)
    && (forall i, j :: 0 <= i < j < |stack| && stack[i].1 && stack[j].1 ==> stack[i].0 != stack[j].0)
    && done !! inProgress
  }

  lemma TrackSkip(done: set<Txid>, inProgress: set<Txid>, stack: seq<(Txid, bool)>)
    requires Tracked(done, inProgress, stack) && stack != []
    requires !stack[|stack| - 1].1
    ensures Tracked(done, inProgress, stack[..|stack| - 1])
  {
    var n := |stack| - 1;
    assert stack == stack[..n] + [stack[n]];
  }

  lemma TrackExpand(done: set<Txid>, inProgress: set<Txid>, stack: seq<(Txid, bool)>, more: seq<(Txid, bool)>)
    requires Tracked(done, inProgress, stack) && stack != [] && !stack[|stack| - 1].1
    requires stack[|stack| - 1].0 !in done && stack[|stack| - 1].0 !in inProgress
    requires forall k :: 0 <= k < |more| ==> !more[k].1
    ensures var t := stack[|stack| - 1].0;
            Tracked(done, inProgress + {t}, stack[..|stack| - 1] + [(t, true)] + more)
  {
    var n := |stack| - 1;
    var t := stack[n].0;
    var next := stack[..n] + [(t, true)] + more;
    TrackSkip(done, inProgress, stack);
    assert (t, true) !in stack[..n];
    assert next[n] == (t, true);
    forall x ensures x in inProgress + {t} <==> (x, true) in next {
      if (x, true) in stack[..n] {
        var i :| 0 <= i < n && stack[..n][i] == (x, true);
        assert next[i] == (x, true);
      }
    }
  }

  lemma TrackFinish(done: set<Txid>, inProgress: set<Txid>, stack: seq<(Txid, bool)>)
    requires Tracked(done, inProgress, stack) && stack != [] && stack[|stack| - 1].1
    ensures var t := stack[|stack| - 1].0;
            t in inProgress && Tracked(done + {t}, inProgress - {t}, stack[..|stack| - 1])
  {
    var n := |stack| - 1;
    var t := stack[n].0;
    assert stack[n] == (t, true);
    assert stack == stack[..n] + [stack[n]];
  }

  lemma SearchSkip(g: Graph, done: set<Txid>, inProgress: set<Txid>, stack: seq<(Txid, bool)>)
    requires Searching(g, done, inProgress, stack) && Tracked(done, inProgress, stack) && stack != []
    requires !stack[|stack| - 1].1 && stack[|stack| - 1].0 in done + inProgress
    ensures Searching(g, done, inProgress, stack[..|stack| - 1])
  {
    hide Searching, Tracked;
    TopIsNotInProgress(g, done, inProgress, stack);
    DropTop(g, done, inProgress, stack);
  }

  lemma SearchFinish(g: Graph, done: set<Txid>, inProgress: set<Txid>, stack: seq<(Txid, bool)>)
    requires Searching(g, done, inProgress, stack) && stack != [] && stack[|stack| - 1].1
    ensures var t := stack[|stack| - 1].0;
            && (t in g ==> g[t] <= done)
            && Searching(g, done + {t}, inProgress - {t}, stack[..|stack| - 1])
  {
    var n := |stack| - 1;
    var t := stack[n].0;
    assert stack[n].1;
    forall p | t in g && p in g[t] ensures p in done {
      assert !OnStack(stack, n, p);
    }
    forall x | x in inProgress - {t} ensures (x, true) in stack[..n] {
      var i :| 0 <= i < |stack| && stack[i] == (x, true);
      assert stack[..n][i] == (x, true);
    }
    forall i, p | 0 <= i < n && stack[i].1 && stack[i].0 in g && p in g[stack[i].0] && p !in done + {t}
      ensures OnStack(stack[..n], i, p)
    {
      assert OnStack(stack, i, p);
      var j :| i < j < |stack| && stack[j].0 == p;
      assert stack[..n][j].0 == p;
    }
  }

  ghost function Universe(pool: Pool): set<Txid> {
    pool.Keys + (set t, p | t in pool && p in pool[t].inputs :: p)
  }

  ghost function Left(pool0: Pool, done: set<Txid>, inProgress: set<Txid>): set<Txid> {
    Universe(pool0) - done - inProgress
  }

  /** The inputs of `t` that are neither done nor in progress, to be visited before it. */
  method UnfinishedParents(inputs: seq<Txid>, done: set<Txid>, inProgress: set<Txid>) returns (more: seq<(Txid, bool)>)
    ensures forall k :: 0 <= k < |more| ==> !more[k].1 && more[k].0 in inputs
    ensures forall p :: p in inputs ==> p in done || p in inProgress || (p, false) in more
  {
    more := [];
    for i := 0 to |inputs|
      invariant forall k :: 0 <= k < |more| ==> !more[k].1 && more[k].0 in inputs
      invariant forall j :: 0 <= j < i ==> inputs[j] in done || inputs[j] in inProgress || (inputs[j], false) in more
    {
      if inputs[i] !in done && inputs[i] !in inProgress {
        more := more + [(inputs[i], false)];
      }
    }
  }

  ghost predicate Reached(done: set<Txid>, inProgress: set<Txid>, stack: seq<(Txid, bool)>, root: Txid) {
    root in done || root in inProgress || (root, false) in stack
  }

  ghost predicate Visits(pool0: Pool, stack: seq<(Txid, bool)>) {
    forall k :: 0 <= k < |stack| ==> stack[k].0 in Universe(pool0)
  }

  /** Everything the search keeps, on any graph; the order of the stack only on acyclic ones. */
  ghost predicate SearchState(pool0: Pool, done: set<Txid>, inProgress: set<Txid>, stack: seq<(Txid, bool)>, root: Txid) {
    && Tracked(done, inProgress, stack)
    && (Acyclic(InputGraph(pool0)) ==> Searching(InputGraph(pool0), done, inProgress, stack))
    && Reached(done, inProgress, stack, root)
    && Visits(pool0, stack)
  }

  lemma StartState(pool0: Pool, done: set<Txid>, root: Txid)
    requires root in pool0
    ensures SearchState(pool0, done, {}, [(root, false)], root)
  {
    assert [(root, false)][0] == (root, false);
  }

  lemma SkipState(pool0: Pool, done: set<Txid>, inProgress: set<Txid>, stack: seq<(Txid, bool)>, root: Txid)
    requires SearchState(pool0, done, inProgress, stack, root) && stack != []
    requires stack[|stack| - 1].0 in if stack[|stack| - 1].1 then done else done + inProgress
    ensures SearchState(pool0, done, inProgress, stack[..|stack| - 1], root)
  {
    hide Searching, Tracked, Acyclic, InputGraph, Universe;
    ExpandedIsNotDone(done, inProgress, stack);
    TrackSkip(done, inProgress, stack);
    if Acyclic(InputGraph(pool0)) {
      SearchSkip(InputGraph(pool0), done, inProgress, stack);
    }
    assert stack == stack[..|stack| - 1] + [stack[|stack| - 1]];
  }

  lemma ExpandedIsNotDone(done: set<Txid>, inProgress: set<Txid>, stack: seq<(Txid, bool)>)
    requires Tracked(done, inProgress, stack) && stack != []
    ensures stack[|stack| - 1].1 ==> stack[|stack| - 1].0 !in done
  {
    var n := |stack| - 1;
    assert stack[n] in stack;
    assert stack[n].1 ==> stack[n] == (stack[n].0, true);
  }

  lemma ExpandState(pool0: Pool, done: set<Txid>, inProgress: set<Txid>, stack: seq<(Txid, bool)>, more: seq<(Txid, bool)>, root: Txid)
    requires SearchState(pool0, done, inProgress, stack, root) && stack != [] && !stack[|stack| - 1].1
    requires var t := stack[|stack| - 1].0;
             var inputs := if t in pool0 then pool0[t].inputs else [];
             && t !in done && t !in inProgress
             && (forall k :: 0 <= k < |more| ==> !more[k].1 && more[k].0 in inputs)
             && (forall p :: p in inputs ==> p in done || p in inProgress + {t} || (p, false) in more)
    ensures var t := stack[|stack| - 1].0;
            SearchState(pool0, done, inProgress + {t}, stack[..|stack| - 1] + [(t, true)] + more, root)
  {
    hide Searching, Tracked, Acyclic;
    var n := |stack| - 1;
    var t := stack[n].0;
    TrackExpand(done, inProgress, stack, more);
    if Acyclic(InputGraph(pool0)) {
      InputGraphClosed(pool0);
      assert t !in pool0 ==> more == [] by {
        assert |more| > 0 ==> more[0].0 in if t in pool0 then pool0[t].inputs else [];
      }
      ExpandTop(InputGraph(pool0), done, inProgress, stack, more);
    }
    var next := stack[..n] + [(t, true)] + more;
    assert stack == stack[..n] + [stack[n]];
    assert Reached(done, inProgress + {t}, next, root) by {
      if (root, false) in stack[..n] {
        var i :| 0 <= i < n && stack[..n][i] == (root, false);
        assert next[i] == (root, false);
      }
    }
    assert stack[n].0 in Universe(pool0);
  }

  lemma FinishState(pool0: Pool, done: set<Txid>, inProgress: set<Txid>, stack: seq<(Txid, bool)>, root: Txid)
    requires SearchState(pool0, done, inProgress, stack, root) && stack != [] && stack[|stack| - 1].1
    ensures var t := stack[|stack| - 1].0;
            && t !in done && t in inProgress
            && (t in pool0 && Acyclic(InputGraph(pool0)) ==> InputGraph(pool0)[t] <= done)
            && SearchState(pool0, done + {t}, inProgress - {t}, stack[..|stack| - 1], root)
  {
    hide Searching, Acyclic, Universe;
    var n := |stack| - 1;
    TrackFinish(done, inProgress, stack);
    if Acyclic(InputGraph(pool0)) {
      SearchFinish(InputGraph(pool0), done, inProgress, stack);
    }
    assert stack == stack[..n] + [stack[n]];
  }

  lemma EndState(pool0: Pool, done: set<Txid>, inProgress: set<Txid>, root: Txid)
    requires SearchState(pool0, done, inProgress, [], root)
    ensures inProgress == {} && root in done
  {
    hide Searching, Acyclic, InputGraph, Universe;
  }

  lemma FewerLeft(pool0: Pool, done: set<Txid>, inProgress: set<Txid>, stack: seq<(Txid, bool)>)
    requires Visits(pool0, stack) && stack != []
    ensures var t := stack[|stack| - 1].0;
            t !in done && t !in inProgress ==> |Left(pool0, done, inProgress + {t})| < |Left(pool0, done, inProgress)|
    ensures var t := stack[|stack| - 1].0;
            t in inProgress ==> Left(pool0, done + {t}, inProgress - {t}) == Left(pool0, done, inProgress)
  {
    hide Universe;
    var t := stack[|stack| - 1].0;
    if t !in done && t !in inProgress {
      assert t in Universe(pool0);
      SmallerSet(Left(pool0, done, inProgress + {t}), Left(pool0, done, inProgress));
    }
  }

  method SearchFrom(pool0: Pool, pool: Pool, done: set<Txid>, root: Txid, rate: (nat, nat) -> real)
    returns (next: Pool, finished: set<Txid>)
    requires Half(pool0, pool, done, rate) && root in pool0
    ensures Half(pool0, next, finished, rate)
    ensures done <= finished && root in finished
  {
    next, finished := pool, done;
    var inProgress: set<Txid> := {};
    var stack := [(root, false)];
    StartState(pool0, done, root);
    while stack != []
      invariant Half(pool0, next, finished, rate) && done <= finished
      invariant SearchState(pool0, finished, inProgress, stack, root)
      decreases |Left(pool0, finished, inProgress)|, |stack|
    {
      hide Half, Tracked, Searching, Reached, Acyclic, InputGraph, Left, Universe;
      var (txid, expanded) := stack[|stack| - 1];
      FewerLeft(pool0, finished, inProgress, stack);
      hide SearchState;
      BaseOf(pool0, next, finished, rate, txid);
      if txid in finished || (!expanded && txid in inProgress) {
        SkipState(pool0, finished, inProgress, stack, root);
        stack := stack[..|stack| - 1];
      } else if expanded {
        FinishState(pool0, finished, inProgress, stack, root);
        next := Finalise(pool0, next, finished, txid, rate);
        inProgress, finished := inProgress - {txid}, finished + {txid};
        stack := stack[..|stack| - 1];
      } else {
        var inputs := if txid in next then next[txid].inputs else [];
        var more := UnfinishedParents(inputs, finished, inProgress + {txid});
        ExpandState(pool0, finished, inProgress, stack, more, root);
        inProgress := inProgress + {txid};
        stack := stack[..|stack| - 1] + [(txid, true)] + more;
      }
    }
    EndState(pool0, finished, inProgress, root);
  }

  /** On any pool the search ends, links every child and lists only ancestors; on an acyclic pool every
      ancestor set is the full closure and the sums are exact. */
  method ComputeRelatives(pool0: Pool, rate: (nat, nat) -> real) returns (pool: Pool)
    requires Blank(pool0)
    ensures Half(pool0, pool, pool0.Keys, rate)
  {
    pool := pool0;
    var done: set<Txid> := {};
    var keys := pool0.Keys;
    StartHalf(pool0, rate);
    while keys != {}
      invariant Half(pool0, pool, done, rate)
      invariant pool0.Keys <= keys + done
      decreases keys
    {
      var root :| root in keys;
      keys := keys - {root};
      if root in pool0 && root !in done {
        pool, done := SearchFrom(pool0, pool, done, root, rate);
      }
    }
    EndHalf(pool0, pool, done, rate);
  }

  lemma StartHalf(pool0: Pool, rate: (nat, nat) -> real)
    requires Blank(pool0)
    ensures Half(pool0, pool0, {}, rate)
  {
    hide Ancestors, Acyclic, Summarised;
  }

  lemma EndHalf(pool0: Pool, pool: Pool, done: set<Txid>, rate: (nat, nat) -> real)
    requires Half(pool0, pool, done, rate) && pool0.Keys <= done
    ensures Half(pool0, pool, pool0.Keys, rate)
  {
    hide Ancestors, Acyclic, Summarised;
    forall t | t in pool ensures ChildrenIn(pool0, pool0.Keys, t) == ChildrenIn(pool0, done, t) {
    }
  }
}
