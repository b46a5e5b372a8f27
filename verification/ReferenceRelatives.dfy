/** The older, recursive computation of ancestor sets: no memoisation, and a parent listed once per spent
    output is visited once per spent output. */
module ReferenceRelatives {
  import opened Collections
  import opened TxGraph
  import opened TemplateSpec
  import opened ModifiedQueues
  import opened Relatives

  ghost predicate ChildrenSound(pool0: Pool, pool: Pool) {
    forall t :: t in pool ==> pool[t].children <= ChildrenIn(pool0, pool0.Keys, t)
  }

  /** `t` has its final values and its in-pool parents know it as a child. */
  ghost predicate Finished(pool0: Pool, pool: Pool, t: Txid, rate: (nat, nat) -> real)
    requires t in pool0 && pool.Keys == pool0.Keys
  {
    && Summarised(pool0, t, pool[t], rate)
    && forall p :: p in pool0[t].inputs && p in pool0 ==> t in pool[p].children
  }

  /** Later visits leave finished entries finished and forget no child. */
  ghost predicate Extends(pool0: Pool, pool: Pool, next: Pool, rate: (nat, nat) -> real)
    requires pool.Keys == pool0.Keys && next.Keys == pool0.Keys
  {
    && (forall x :: x in pool0 && Finished(pool0, pool, x, rate) ==> Finished(pool0, next, x, rate))
    && (forall x :: x in pool0 ==> pool[x].children <= next[x].children)
  }

  ghost predicate Sane(pool0: Pool, pool: Pool) {
    BaseKept(pool0, pool) && ChildrenSound(pool0, pool)
  }

  /** Everything reachable through the in-pool members of `inputs`. */
  ghost function Above(g: Graph, inputs: seq<Txid>): set<Txid> {
    if inputs == [] then {}
    else
      var p := inputs[|inputs| - 1];
      Above(g, inputs[..|inputs| - 1]) + (if p in g then {p} + Ancestors(g, p) else {})
  }

  lemma {:induction false} AboveMembers(g: Graph, inputs: seq<Txid>, a: Txid)
    ensures a in Above(g, inputs) <==> exists p :: p in inputs && p in g && (a == p || a in Ancestors(g, p))
  {
    if inputs != [] {
      var n := |inputs| - 1;
      assert inputs == inputs[..n] + [inputs[n]];
      AboveMembers(g, inputs[..n], a);
    }
  }

  lemma AboveIsClosure(pool0: Pool, t: Txid)
    requires t in pool0
    ensures Above(InputGraph(pool0), pool0[t].inputs) == Ancestors(InputGraph(pool0), t)
  {
    var g := InputGraph(pool0);
    InputGraphClosed(pool0);
    hide Ancestors;
    AncestorSetUnfold(g, t);
    forall a ensures a in Above(g, pool0[t].inputs) <==> a in Ancestors(g, t) {
      AboveMembers(g, pool0[t].inputs, a);
    }
  }

  // ---- one step of the loop over the inputs -------------------------------------------------------

  function LinkChild(pool: Pool, p: Txid, t: Txid): Pool
    requires p in pool
  {
    pool[p := pool[p].(children := pool[p].children + {t})]
  }

  lemma LinkIsSane(pool0: Pool, pool: Pool, p: Txid, t: Txid)
    requires Sane(pool0, pool) && t in pool0 && p in pool0 && p in pool0[t].inputs
    ensures Sane(pool0, LinkChild(pool, p, t))
  {
  }

  lemma LinkExtends(pool0: Pool, pool: Pool, p: Txid, t: Txid, rate: (nat, nat) -> real)
    requires pool.Keys == pool0.Keys && p in pool0
    ensures Extends(pool0, pool, LinkChild(pool, p, t), rate)
  {
    hide Ancestors;
    var next := LinkChild(pool, p, t);
    forall x | x in pool0 && Finished(pool0, pool, x, rate)
      ensures Finished(pool0, next, x, rate)
    {
      SameSummary(pool0, x, pool[x], next[x], rate);
    }
  }

  lemma ExtendsTransitive(pool0: Pool, a: Pool, b: Pool, c: Pool, rate: (nat, nat) -> real)
    requires a.Keys == pool0.Keys && b.Keys == pool0.Keys && c.Keys == pool0.Keys
    requires Extends(pool0, a, b, rate) && Extends(pool0, b, c, rate)
    ensures Extends(pool0, a, c, rate)
  {
    hide Finished;
  }

  // ---- finalising `t` ---------------------------------------------------------------------------------

  lemma BaseNumbers(pool0: Pool, pool: Pool)
    requires BaseKept(pool0, pool)
    ensures SameNumbers(pool0, pool)
  {
    assert forall x :: x in pool ==> pool[x].fee == pool0[x].fee && pool[x].adjustedVsize == pool0[x].adjustedVsize;
  }

  lemma SummariseIsSane(pool0: Pool, pool: Pool, t: Txid, ancestors: set<Txid>, fee: nat, vsize: nat, rate: (nat, nat) -> real)
    requires Sane(pool0, pool) && t in pool0
    ensures Sane(pool0, pool[t := WithSummary(pool[t], ancestors, fee, vsize, rate)])
  {
    hide ChildrenIn, SameBase, WithSummary;
    SummaryKeepsBase(pool[t], ancestors, fee, vsize, rate);
    SameBaseTransitive(WithSummary(pool[t], ancestors, fee, vsize, rate), pool[t], pool0[t]);
  }

  lemma SummariseFinishes(pool0: Pool, pool: Pool, t: Txid, fee: nat, vsize: nat, rate: (nat, nat) -> real)
    requires Sane(pool0, pool) && t in pool0
    requires forall p :: p in pool0[t].inputs && p in pool0 ==> t in pool[p].children
    requires var all := Ancestors(InputGraph(pool0), t);
             fee == SumOver(PoolFees(pool), all * pool.Keys) && vsize == SumOver(PoolVsizes(pool), all * pool.Keys)
    ensures var next := pool[t := WithSummary(pool[t], Ancestors(InputGraph(pool0), t), fee, vsize, rate)];
            next.Keys == pool0.Keys && Finished(pool0, next, t, rate) && Extends(pool0, pool, next, rate)
  {
    hide Ancestors, SumOver, ChildrenIn;
    var all := Ancestors(InputGraph(pool0), t);
    AncestorsInPool(pool0, t);
    BaseNumbers(pool0, pool);
    assert all * pool.Keys == all;
    var m := WithSummary(pool[t], all, fee, vsize, rate);
    assert Summarised(pool0, t, m, rate);
    hide Summarised, WithSummary, PoolFees, PoolVsizes;
    SummaryKeepsBase(pool[t], all, fee, vsize, rate);
  }

  // ---- the recursion --------------------------------------------------------------------------------------

  /** Every transaction being visited is a descendant of `t`. */
  ghost predicate Under(g: Graph, visiting: set<Txid>, t: Txid) {
    forall v :: v in visiting ==> v in g && t in Ancestors(g, v)
  }

  lemma NotVisiting(g: Graph, visiting: set<Txid>, t: Txid)
    requires Acyclic(g) && Under(g, visiting, t)
    ensures t !in visiting
  {
  }

  lemma ParentIsUnder(pool0: Pool, visiting: set<Txid>, t: Txid, p: Txid)
    requires t in pool0 && p in pool0 && p in pool0[t].inputs && Under(InputGraph(pool0), visiting, t)
    ensures Under(InputGraph(pool0), visiting + {t}, p)
  {
    var g := InputGraph(pool0);
    AncestorUnfold(g, p, t);
    forall v | v in visiting + {t}
      ensures v in g && p in Ancestors(g, v)
    {
      if v != t {
        AncestorsNest(g, t, v);
      }
    }
  }

  method SetRelatives(ghost pool0: Pool, pool: Pool, t: Txid, visiting: set<Txid>, rate: (nat, nat) -> real)
    returns (next: Pool)
    requires Sane(pool0, pool) && t in pool0
    requires Acyclic(InputGraph(pool0)) ==> Under(InputGraph(pool0), visiting, t)
    ensures Sane(pool0, next) && next.Keys == pool.Keys
    ensures Acyclic(InputGraph(pool0)) ==> Finished(pool0, next, t, rate) && Extends(pool0, pool, next, rate)
    decreases |pool0.Keys - visiting|, 1
  {
    hide Acyclic, Under, Ancestors, ChildrenSound, SameBase, Finished, Extends, InputGraph;
    assert Acyclic(InputGraph(pool0)) ==> t !in visiting by {
      if Acyclic(InputGraph(pool0)) {
        NotVisiting(InputGraph(pool0), visiting, t);
      }
    }
    if t in visiting {
      return pool;
    }
    var linked, ancestors := VisitInputs(pool0, pool, t, visiting, rate);
    var fee, vsize := SumFees(linked, ancestors);
    SummariseIsSane(pool0, linked, t, ancestors, fee, vsize, rate);
    next := linked[t := WithSummary(linked[t], ancestors, fee, vsize, rate)];
    if Acyclic(InputGraph(pool0)) {
      AboveIsClosure(pool0, t);
      SummariseFinishes(pool0, linked, t, fee, vsize, rate);
      ExtendsTransitive(pool0, pool, linked, next, rate);
    }
  }

  /** Visit every input in order, gathering ancestors and recording `t` as a child. */
  method VisitInputs(ghost pool0: Pool, pool: Pool, t: Txid, visiting: set<Txid>, rate: (nat, nat) -> real)
    returns (next: Pool, ancestors: set<Txid>)
    requires Sane(pool0, pool) && t in pool0 && t !in visiting
    requires Acyclic(InputGraph(pool0)) ==> Under(InputGraph(pool0), visiting, t)
    ensures Sane(pool0, next) && next.Keys == pool.Keys
    ensures Acyclic(InputGraph(pool0)) ==>
              && Extends(pool0, pool, next, rate)
              && ancestors == Above(InputGraph(pool0), pool0[t].inputs)
              && forall p :: p in pool0[t].inputs && p in pool0 ==> t in next[p].children
    decreases |pool0.Keys - visiting|, 0
  {
    hide Acyclic, Under, Ancestors, ChildrenSound, SameBase, Extends, InputGraph, LinkChild, Finished;
    next, ancestors := pool, {};
    var inputs := pool[t].inputs;
    SameInputs(pool0, pool, t);
    SmallerSet(pool0.Keys - (visiting + {t}), pool0.Keys - visiting);
    ExtendsReflexive(pool0, pool, rate);
    for i := 0 to |inputs|
      invariant Sane(pool0, next) && next.Keys == pool.Keys
      invariant Acyclic(InputGraph(pool0)) ==> Gathering(pool0, pool, next, t, inputs[..i], ancestors, rate)
    {
      var p := inputs[i];
      assert inputs[..i + 1] == inputs[..i] + [p];
      if p !in next {
        GatherOutside(pool0, pool, next, t, inputs[..i], ancestors, rate, p);
      } else {
        if Acyclic(InputGraph(pool0)) {
          ParentIsUnder(pool0, visiting, t, p);
        }
        var visited := SetRelatives(pool0, next, p, visiting + {t}, rate);
        if Acyclic(InputGraph(pool0)) {
          GatherInside(pool0, pool, next, visited, t, inputs[..i], ancestors, rate, p);
        }
        LinkIsSane(pool0, visited, p, t);
        ancestors := ancestors + {p} + visited[p].ancestors;
        next := LinkChild(visited, p, t);
      }
    }
    assert inputs[..|inputs|] == inputs;
  }

  lemma SameInputs(pool0: Pool, pool: Pool, t: Txid)
    requires BaseKept(pool0, pool) && t in pool0
    ensures pool[t].inputs == pool0[t].inputs
  {
  }

  lemma ExtendsReflexive(pool0: Pool, pool: Pool, rate: (nat, nat) -> real)
    requires pool.Keys == pool0.Keys
    ensures Extends(pool0, pool, pool, rate)
  {
    hide Finished;
  }

  /** The state of the loop after the inputs in `seen`. */
  ghost predicate Gathering(pool0: Pool, pool: Pool, next: Pool, t: Txid, seen: seq<Txid>, ancestors: set<Txid>, rate: (nat, nat) -> real)
    requires pool.Keys == pool0.Keys && next.Keys == pool0.Keys
  {
    && Extends(pool0, pool, next, rate)
    && ancestors == Above(InputGraph(pool0), seen)
    && forall p :: p in seen && p in pool0 ==> t in next[p].children
  }

  lemma GatherOutside(pool0: Pool, pool: Pool, next: Pool, t: Txid, seen: seq<Txid>, ancestors: set<Txid>, rate: (nat, nat) -> real, p: Txid)
    requires pool.Keys == pool0.Keys && next.Keys == pool0.Keys && p !in pool0
    ensures Gathering(pool0, pool, next, t, seen, ancestors, rate) ==> Gathering(pool0, pool, next, t, seen + [p], ancestors, rate)
  {
    hide Extends, Ancestors;
    assert (seen + [p])[..|seen|] == seen;
  }

  lemma FinishedAncestors(pool0: Pool, pool: Pool, p: Txid, rate: (nat, nat) -> real)
    requires p in pool0 && pool.Keys == pool0.Keys && Finished(pool0, pool, p, rate)
    ensures pool[p].ancestors == Ancestors(InputGraph(pool0), p)
  {
  }

  lemma GatherInside(pool0: Pool, pool: Pool, mid: Pool, visited: Pool, t: Txid, seen: seq<Txid>, ancestors: set<Txid>, rate: (nat, nat) -> real, p: Txid)
    requires pool.Keys == pool0.Keys && mid.Keys == pool0.Keys && visited.Keys == pool0.Keys && p in pool0
    requires Gathering(pool0, pool, mid, t, seen, ancestors, rate)
    requires Finished(pool0, visited, p, rate) && Extends(pool0, mid, visited, rate)
    ensures LinkChild(visited, p, t).Keys == pool0.Keys
    ensures Gathering(pool0, pool, LinkChild(visited, p, t), t, seen + [p], ancestors + {p} + visited[p].ancestors, rate)
  {
    hide Ancestors, Finished;
    var next := LinkChild(visited, p, t);
    FinishedAncestors(pool0, visited, p, rate);
    LinkExtends(pool0, visited, p, t, rate);
    ExtendsTransitive(pool0, mid, visited, next, rate);
    ExtendsTransitive(pool0, pool, mid, next, rate);
    assert (seen + [p])[..|seen|] == seen;
    forall q | q in seen + [p] && q in pool0
      ensures t in next[q].children
    {
      if q in seen {
        assert mid[q].children <= visited[q].children;
      }
    }
  }

  // ---- the whole pool ------------------------------------------------------------------------------------

  /** The recursive computation agrees with the memoised one on every acyclic pool. */
  method SetAllRelatives(pool0: Pool, rate: (nat, nat) -> real) returns (pool: Pool)
    requires Blank(pool0) && Acyclic(InputGraph(pool0))
    ensures Half(pool0, pool, pool0.Keys, rate)
  {
    hide Acyclic, Under, Ancestors, SameBase, Extends, Finished, InputGraph, ChildrenIn;
    pool := pool0;
    var keys := pool0.Keys;
    NothingVisiting(pool0);
    while keys != {}
      invariant Sane(pool0, pool) && pool.Keys == pool0.Keys
      invariant keys <= pool0.Keys
      invariant forall t :: t in pool0 && t !in keys ==> Finished(pool0, pool, t, rate)
      decreases keys
    {
      var t :| t in keys;
      var next := SetRelatives(pool0, pool, t, {}, rate);
      StaysFinished(pool0, pool, next, rate, pool0.Keys - keys);
      keys := keys - {t};
      pool := next;
    }
    AllFinished(pool0, pool, rate);
  }

  lemma NothingVisiting(pool0: Pool)
    requires Blank(pool0)
    ensures Sane(pool0, pool0) && forall t :: Under(InputGraph(pool0), {}, t)
  {
  }

  lemma StaysFinished(pool0: Pool, pool: Pool, next: Pool, rate: (nat, nat) -> real, done: set<Txid>)
    requires pool.Keys == pool0.Keys && next.Keys == pool0.Keys && Extends(pool0, pool, next, rate)
    requires forall t :: t in pool0 && t in done ==> Finished(pool0, pool, t, rate)
    ensures forall t :: t in pool0 && t in done ==> Finished(pool0, next, t, rate)
  {
    hide Finished;
  }

  lemma AllFinished(pool0: Pool, pool: Pool, rate: (nat, nat) -> real)
    requires Sane(pool0, pool) && pool.Keys == pool0.Keys
    requires forall t :: t in pool0 ==> Finished(pool0, pool, t, rate)
    ensures Half(pool0, pool, pool0.Keys, rate)
  {
    hide Ancestors, SameBase, SumOver, Acyclic;
    forall t | t in pool
      ensures pool[t].ancestors <= Ancestors(InputGraph(pool0), t)
      ensures pool[t].children == ChildrenIn(pool0, pool0.Keys, t)
    {
      assert Finished(pool0, pool, t, rate);
      forall c | c in ChildrenIn(pool0, pool0.Keys, t) ensures c in pool[t].children {
        assert Finished(pool0, pool, c, rate);
      }
    }
  }
}
