/** The part of the packing loop that the optimised and the older builder share. */
module Packing {
  import opened Collections
  import opened TxGraph
  import opened TemplateSpec
  import opened TemplateSafety
  import opened HashOrder
  import opened ModifiedQueues
  import opened Relatives
  import opened Descendants

  // ---- building the pool --------------------------------------------------------------------

  /** The in-pool parents, in input order, each once. */
  function InPoolParents(txs: Mempool, inputs: seq<Txid>): (r: seq<Txid>)
    ensures forall p :: p in r <==> p in inputs && p in txs
  {
    if inputs == [] then []
    else
      var n := |inputs| - 1;
      assert inputs == inputs[..n] + [inputs[n]];
      var r := InPoolParents(txs, inputs[..n]);
      if inputs[n] in txs && inputs[n] !in r then r + [inputs[n]] else r
  }

  function MinerEntry(tx: MempoolTx, inputs: seq<Txid>): MinerTx {
    MinerTx(tx.feeSat, AdjustedWeight(tx), AdjustedVsize(tx), tx.feeRate, tx.feeRate, inputs, tx.spent,
            {}, {}, tx.feeSat, AdjustedVsize(tx), tx.feeRate, false, false)
  }

  /** A pool whose entries list exactly the in-pool parents of their transactions. */
  ghost predicate BuiltFrom(txs: Mempool, pool: Pool) {
    && pool.Keys == txs.Keys
    && forall t :: t in txs ==>
         && pool[t] == MinerEntry(txs[t], pool[t].inputs)
         && forall p :: p in pool[t].inputs <==> p in txs[t].inputs && p in txs
  }

  ghost function InitialDep(txs: Mempool): map<Txid, real> {
    map t | t in txs :: txs[t].feeRate
  }

  lemma SameGraph(txs: Mempool, pool: Pool)
    requires BuiltFrom(txs, pool)
    ensures InputGraph(pool) == ParentGraph(txs) && Blank(pool)
  {
    hide MinerEntry;
    forall t | t in txs ensures InputGraph(pool)[t] == ParentGraph(txs)[t] {
    }
    forall t | t in pool ensures pool[t].ancestors == {} && pool[t].children == {} {
      BlankEntry(txs[t], pool[t].inputs);
    }
  }

  lemma BlankEntry(tx: MempoolTx, inputs: seq<Txid>)
    ensures var m := MinerEntry(tx, inputs);
            && m.ancestors == {} && m.children == {} && m.fee == tx.feeSat && m.adjustedVsize == AdjustedVsize(tx)
            && m.weight == AdjustedWeight(tx) && m.spent == tx.spent && m.dependencyRate == tx.feeRate
            && !m.used && !m.modified
  {
  }

  lemma SameSums(e: Env, pool: Pool)
    requires BuiltFrom(e.txs, pool)
    ensures PoolFees(pool) == Fees(e) && PoolVsizes(pool) == Vsizes(e)
  {
    hide MinerEntry;
    forall t | t in e.txs ensures pool[t].fee == e.txs[t].feeSat && pool[t].adjustedVsize == AdjustedVsize(e.txs[t]) {
      BlankEntry(e.txs[t], pool[t].inputs);
    }
  }

  lemma SummarisedMatches(e: Env, pool0: Pool, pool: Pool, t: Txid)
    requires ValidEnv(e) && FromGraph(e) && BuiltFrom(e.txs, pool0) && t in e.txs
    requires BaseKept(pool0, pool) && ChildrenLinked(pool0, pool, pool0.Keys)
    requires Summarised(pool0, t, pool[t], e.rate)
    ensures Matches(e, {}, {}, InitialDep(e.txs), t, pool[t])
  {
    hide Ancestors, SumOver, MinerEntry, ValidEnv;
    AncestorsOfAll(e);
    SameGraph(e.txs, pool0);
    SameSums(e, pool0);
    BlankEntry(e.txs[t], pool0[t].inputs);
    assert Remaining(e, {}, t) == e.anc[t];
    assert e.anc[t] * {} == {};
    assert ChildrenIn(pool0, pool0.Keys, t) == Children(e, t);
  }

  lemma RelativesMatch(e: Env, pool0: Pool, pool: Pool)
    requires ValidEnv(e) && FromGraph(e) && BuiltFrom(e.txs, pool0) && Acyclic(ParentGraph(e.txs))
    requires Half(pool0, pool, pool0.Keys, e.rate)
    ensures PoolMatches(e, {}, {}, InitialDep(e.txs), pool)
  {
    hide Matches, Acyclic, Ancestors, AncestorsSound, Summarised, ChildrenLinked;
    SameGraph(e.txs, pool0);
    forall t | t in e.txs
      ensures Matches(e, {}, {}, InitialDep(e.txs), t, pool[t])
    {
      SummarisedMatches(e, pool0, pool, t);
    }
  }

  // ---- placing a package ------------------------------------------------------------------------

  ghost function NotIn(used: set<Txid>, pkg: seq<Txid>): (r: seq<Txid>)
    ensures forall x :: x in r <==> x in pkg && x !in used
  {
    if pkg == [] then []
    else
      var n := |pkg| - 1;
      assert pkg == pkg[..n] + [pkg[n]];
      NotIn(used, pkg[..n]) + (if pkg[n] in used then [] else [pkg[n]])
  }

  lemma {:induction false} NotInIsUnused(st: State, pkg: seq<Txid>)
    ensures NotIn(st.rates.Keys + st.dropped, pkg) == Unused(st, pkg)
  {
    if pkg != [] {
      NotInIsUnused(st, pkg[..|pkg| - 1]);
    }
  }

  lemma MarkOne(e: Env, placed: set<Txid>, used: set<Txid>, dep: map<Txid, real>, pool: Pool, x: Txid, feeRate: real)
    requires ValidEnv(e) && PoolMatches(e, placed, used, dep, pool) && x in e.txs
    ensures PoolMatches(e, placed, used + {x}, dep, pool[x := pool[x].(used := true, feeRate := feeRate)])
  {
    hide Remaining, PackageFee, PackageVsize, Score, Modified, Children;
  }

  lemma SpentOne(txs: Mempool, s: set<Txid>, x: Txid)
    requires s <= txs.Keys && x in txs
    ensures SpentBy(txs, s + {x}) == SpentBy(txs, s) + (set o | o in txs[x].spent)
  {
  }

  lemma NotInStep(used: set<Txid>, pkg: seq<Txid>, i: nat)
    requires i < |pkg|
    ensures NotIn(used, pkg[..i + 1]) == NotIn(used, pkg[..i]) + (if pkg[i] in used then [] else [pkg[i]])
    ensures Elements(NotIn(used, pkg[..i + 1])) == Elements(NotIn(used, pkg[..i])) + (if pkg[i] in used then {} else {pkg[i]})
  {
    assert pkg[..i + 1][..i] == pkg[..i];
  }

  lemma SumStep(f: map<Txid, nat>, s: seq<Txid>, x: Txid)
    requires (forall y :: y in s ==> y in f) && x in f
    ensures SumSeq(f, s + [x]) == SumSeq(f, s) + f[x]
  {
    assert (s + [x])[..|s|] == s;
  }

  /** The pool, spent outpoints, rates and weight once `more` has been marked. */
  datatype Marks = Marks(pool: Pool, spent: set<OutPoint>, rates: map<Txid, real>, weight: nat)

  ghost predicate Marked(e: Env, placed: set<Txid>, used: set<Txid>, dep: map<Txid, real>, effectiveRate: real,
                         before: Marks, more: seq<Txid>, after: Marks)
    requires ValidEnv(e)
  {
    && Elements(more) <= e.txs.Keys
    && PoolMatches(e, placed, used + Elements(more), dep, after.pool)
    && after.spent == before.spent + SpentBy(e.txs, Elements(more))
    && after.rates == before.rates + (map x | x in Elements(more) :: effectiveRate)
    && after.weight == before.weight + SumSeq(Weights(e), more)
  }

  function Mark(m: Marks, x: Txid, effectiveRate: real): Marks
    requires x in m.pool
  {
    Marks(m.pool[x := m.pool[x].(used := true, feeRate := effectiveRate)],
          m.spent + (set o | o in m.pool[x].spent),
          m.rates[x := effectiveRate],
          m.weight + m.pool[x].weight)
  }

  lemma MarkStep(e: Env, placed: set<Txid>, used: set<Txid>, dep: map<Txid, real>, effectiveRate: real,
                 before: Marks, more: seq<Txid>, after: Marks, x: Txid)
    requires ValidEnv(e) && Marked(e, placed, used, dep, effectiveRate, before, more, after) && x in e.txs
    ensures x in after.pool && after.pool[x].used == (x in used + Elements(more))
    ensures Marked(e, placed, used, dep, effectiveRate, before, more + [x], Mark(after, x, effectiveRate))
  {
    hide PoolMatches, SpentBy, SumSeq, ValidEnv, Elements, AdjustedWeight;
    MarkedFields(e, placed, used + Elements(more), dep, after.pool, x);
    MarkOne(e, placed, used + Elements(more), dep, after.pool, x, effectiveRate);
    SpentOne(e.txs, Elements(more), x);
    WeightStep(e, more, x);
    ElementsAppend(more, x);
    assert used + (Elements(more) + {x}) == used + Elements(more) + {x};
    RatesStep(before.rates, Elements(more), x, effectiveRate);
  }

  lemma WeightStep(e: Env, more: seq<Txid>, x: Txid)
    requires Elements(more) <= e.txs.Keys && x in e.txs
    ensures SumSeq(Weights(e), more + [x]) == SumSeq(Weights(e), more) + AdjustedWeight(e.txs[x])
  {
    hide SumSeq, AdjustedWeight;
    assert forall y :: y in more ==> y in Elements(more);
    SumStep(Weights(e), more, x);
  }

  lemma ElementsAppend(more: seq<Txid>, x: Txid)
    ensures Elements(more + [x]) == Elements(more) + {x}
  {
  }

  lemma RatesStep(rates: map<Txid, real>, more: set<Txid>, x: Txid, rate: real)
    ensures (rates + map y | y in more :: rate)[x := rate] == rates + map y | y in more + {x} :: rate
  {
  }

  lemma MarkNothing(e: Env, placed: set<Txid>, used: set<Txid>, dep: map<Txid, real>, effectiveRate: real, before: Marks)
    requires ValidEnv(e) && PoolMatches(e, placed, used, dep, before.pool)
    ensures Marked(e, placed, used, dep, effectiveRate, before, [], before)
  {
    hide PoolMatches;
    assert used + Elements([]) == used;
  }

  /** Mark the unused members of a package as used and enter them into the block. */
  method MarkPackage(
    ghost e: Env, ghost placed: set<Txid>, ghost used: set<Txid>, ghost dep: map<Txid, real>,
    before: Marks, pkg: seq<Txid>, effectiveRate: real)
    returns (after: Marks, more: seq<Txid>)
    requires ValidEnv(e) && PoolMatches(e, placed, used, dep, before.pool)
    requires Distinct(pkg) && Elements(pkg) <= e.txs.Keys
    ensures more == NotIn(used, pkg)
    ensures Marked(e, placed, used, dep, effectiveRate, before, more, after)
  {
    after, more := before, [];
    MarkNothing(e, placed, used, dep, effectiveRate, before);
    for i := 0 to |pkg|
      invariant more == NotIn(used, pkg[..i])
      invariant Marked(e, placed, used, dep, effectiveRate, before, more, after)
    {
      hide Marked, NotIn, Mark;
      var x := pkg[i];
      assert x in Elements(pkg);
      NotYet(used, pkg, i);
      NotInStep(used, pkg, i);
      MarkStep(e, placed, used, dep, effectiveRate, before, more, after, x);
      if !after.pool[x].used {
        after, more := Mark(after, x, effectiveRate), more + [x];
      }
    }
    assert pkg[..|pkg|] == pkg;
  }

  lemma NotYet(used: set<Txid>, pkg: seq<Txid>, i: nat)
    requires Distinct(pkg) && i < |pkg|
    ensures pkg[i] !in NotIn(used, pkg[..i])
  {
  }

  lemma MarkedFields(e: Env, placed: set<Txid>, used: set<Txid>, dep: map<Txid, real>, pool: Pool, x: Txid)
    requires ValidEnv(e) && PoolMatches(e, placed, used, dep, pool) && x in e.txs
    ensures x in pool && pool[x].used == (x in used)
    ensures pool[x].spent == e.txs[x].spent && pool[x].weight == AdjustedWeight(e.txs[x])
  {
  }

  // ---- lowering descendants one placed transaction at a time ------------------------------------------

  lemma LowerNone(e: Env, dep: map<Txid, real>, rate: real)
    requires ValidEnv(e) && dep.Keys == e.txs.Keys
    ensures LowerRates(e, dep, {}, rate) == dep
  {
    forall t | t in e.txs ensures e.anc[t] * {} == {} {
    }
  }

  lemma LowerMore(e: Env, dep: map<Txid, real>, more: set<Txid>, x: Txid, rate: real)
    requires ValidEnv(e) && dep.Keys == e.txs.Keys
    ensures LowerRates(e, LowerRates(e, dep, more, rate), {x}, rate) == LowerRates(e, dep, more + {x}, rate)
  {
    hide LowerRates;
    var once := LowerRates(e, dep, more, rate);
    var twice, both := LowerRates(e, once, {x}, rate), LowerRates(e, dep, more + {x}, rate);
    forall t | t in e.txs ensures twice[t] == both[t] {
      LowerAt(e, dep, more, rate, t);
      LowerAt(e, once, {x}, rate, t);
      LowerAt(e, dep, more + {x}, rate, t);
      assert e.anc[t] * (more + {x}) == e.anc[t] * more + e.anc[t] * {x};
    }
  }

  lemma LowerAt(e: Env, dep: map<Txid, real>, more: set<Txid>, rate: real, t: Txid)
    requires ValidEnv(e) && dep.Keys == e.txs.Keys && t in e.txs
    ensures LowerRates(e, dep, more, rate)[t] == if e.anc[t] * more != {} then MinReal(dep[t], rate) else dep[t]
  {
  }

  lemma NewlyNone(e: Env, placed: set<Txid>)
    requires ValidEnv(e)
    ensures NewlyModified(e, placed, {}) == {}
  {
    forall t | t in e.txs ensures e.anc[t] * {} == {} {
    }
  }

  lemma NewlyMore(e: Env, placed: set<Txid>, more: set<Txid>, x: Txid)
    requires ValidEnv(e)
    ensures NewlyModified(e, placed, more + {x}) == NewlyModified(e, placed, more) + NewlyModified(e, placed + more, {x})
    ensures NewlyModified(e, placed, more) !! NewlyModified(e, placed + more, {x})
  {
    forall t | t in e.txs
      ensures e.anc[t] * (more + {x}) == e.anc[t] * more + e.anc[t] * {x}
      ensures e.anc[t] * (placed + more) == e.anc[t] * placed + e.anc[t] * more
    {
    }
  }

  lemma GrowsTwice(before: multiset<Txid>, mid: multiset<Txid>, after: multiset<Txid>, a: set<Txid>, b: set<Txid>)
    requires Grown(before, mid, a) && Grown(mid, after, b) && a !! b
    ensures Grown(before, after, a + b)
  {
    assert multiset(a + b) == multiset(a) + multiset(b);
  }

  /** The pool after `done` has been placed and its descendants lowered. */
  ghost predicate LoweredTo(e: Env, placed: set<Txid>, used: set<Txid>, dep: map<Txid, real>, done: set<Txid>, rate: real,
                            pool: Pool, queue0: multiset<Txid>, queue: multiset<Txid>)
    requires ValidEnv(e) && dep.Keys == e.txs.Keys
  {
    && PoolMatches(e, placed + done, used, LowerRates(e, dep, done, rate), pool)
    && Grown(queue0, queue, NewlyModified(e, placed, done))
  }

  lemma LoweredNone(e: Env, placed: set<Txid>, used: set<Txid>, dep: map<Txid, real>, rate: real, pool: Pool, queue: multiset<Txid>)
    requires ValidEnv(e) && PoolMatches(e, placed, used, dep, pool)
    ensures LoweredTo(e, placed, used, dep, {}, rate, pool, queue, queue)
  {
    hide Matches, NewlyModified;
    LowerNone(e, dep, rate);
    NewlyNone(e, placed);
    assert placed + {} == placed;
    GrowsByOne(queue, 0);
  }

  lemma LoweredMore(e: Env, placed: set<Txid>, used: set<Txid>, dep: map<Txid, real>, done: set<Txid>, x: Txid, rate: real,
                    pool: Pool, queue0: multiset<Txid>, mid: multiset<Txid>, queue: multiset<Txid>)
    requires ValidEnv(e) && dep.Keys == e.txs.Keys
    requires Grown(queue0, mid, NewlyModified(e, placed, done))
    requires PoolMatches(e, placed + done + {x}, used, LowerRates(e, LowerRates(e, dep, done, rate), {x}, rate), pool)
    requires Grown(mid, queue, NewlyModified(e, placed + done, {x}))
    ensures LoweredTo(e, placed, used, dep, done + {x}, rate, pool, queue0, queue)
  {
    hide PoolMatches, Grown, NewlyModified, LowerRates;
    LowerMore(e, dep, done, x, rate);
    NewlyMore(e, placed, done, x);
    GrowsTwice(queue0, mid, queue, NewlyModified(e, placed, done), NewlyModified(e, placed + done, {x}));
    assert placed + (done + {x}) == placed + done + {x};
  }
}
