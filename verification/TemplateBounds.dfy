/** Bounds on the finished templates: how many blocks, how heavy they are, and who may share an outpoint. */
module TemplateBounds {
  import opened Collections
  import opened TxGraph
  import opened TemplateSpec
  import opened TemplateSafety

  // ---- what the mempool says, taken literally ------------------------------------------

  ghost function FeesOf(txs: Mempool): map<Txid, nat> {
    map t | t in txs :: txs[t].feeSat
  }

  /** Sizes as they are counted: nothing is smaller than one. */
  ghost function SizesOf(txs: Mempool): map<Txid, nat> {
    map t | t in txs :: if txs[t].vsize == 0 then 1 else txs[t].vsize
  }

  /** Weights as they are counted: at least four times the size. */
  ghost function WeightsOf(txs: Mempool): map<Txid, nat> {
    map t | t in txs :: if txs[t].weight < 4 * SizesOf(txs)[t] then 4 * SizesOf(txs)[t] else txs[t].weight
  }

  lemma Literally(e: Env)
    ensures Fees(e) == FeesOf(e.txs) && Vsizes(e) == SizesOf(e.txs) && Weights(e) == WeightsOf(e.txs)
    ensures Weights(e).Keys == e.txs.Keys
  {
  }

  /** The recorded weight never exceeds four times the (adjusted) virtual size. */
  ghost predicate WeightsMatchSizes(txs: Mempool) {
    forall t :: t in txs ==> txs[t].weight <= 4 * SizesOf(txs)[t]
  }

  ghost predicate Known(e: Env, s: seq<Txid>) {
    forall t :: t in s ==> t in e.txs
  }

  ghost function BlockWeight(e: Env, block: seq<Txid>): nat
    requires Known(e, block)
  {
    4000 + SumSeq(WeightsOf(e.txs), block)
  }

  ghost predicate Light(e: Env, block: seq<Txid>) {
    && block != [] && Known(e, block)
    && (WeightsMatchSizes(e.txs) ==> BlockWeight(e, block) < e.weightLimit)
  }

  ghost predicate Packed(e: Env, st: State) {
    && |st.blocks| <= Monus(e.maxBlocks, 1)
    && (forall k :: 0 <= k < |st.blocks| ==> Light(e, st.blocks[k]))
    && Known(e, st.block)
    && st.weight == BlockWeight(e, st.block)
    && (|st.blocks| < Monus(e.maxBlocks, 1) && st.block != [] ==> Light(e, st.block))
  }

  // ---- the weight of a package ------------------------------------------------------

  lemma {:induction false} SumScales<K(!new)>(f: map<K, nat>, g: map<K, nat>, s: set<K>)
    requires s <= f.Keys && s <= g.Keys && forall x :: x in s ==> f[x] == 4 * g[x]
    ensures SumOver(f, s) == 4 * SumOver(g, s)
  {
    if s != {} {
      var x :| x in s;
      SumScales(f, g, s - {x});
      SumRemove(f, s, x);
      SumRemove(g, s, x);
    }
  }

  lemma PackageWeight(e: Env, placed: set<Txid>, t: Txid)
    requires ValidEnv(e) && Nested(e) && t in e.txs && WeightsMatchSizes(e.txs)
    ensures SumSeq(Weights(e), Package(e, placed, t)) == 4 * PackageVsize(e, placed, t)
  {
    hide Package, SumSeq;
    Literally(e);
    var pkg, rest, w := Package(e, placed, t), Remaining(e, placed, t), Weights(e);
    PackageElements(e, placed, t);
    SumSeqIsSumOver(w, pkg);
    SumRemove(w, rest + {t}, t);
    assert rest + {t} - {t} == rest;
    SumScales(w, Vsizes(e), rest);
  }

  lemma {:induction false} SumSeqAppend<K>(f: map<K, nat>, a: seq<K>, b: seq<K>)
    requires forall x :: x in a + b ==> x in f
    ensures (forall x :: x in a ==> x in f) && (forall x :: x in b ==> x in f)
    ensures SumSeq(f, a + b) == SumSeq(f, a) + SumSeq(f, b)
  {
    assert forall x :: x in a || x in b ==> x in a + b;
    if b == [] {
      assert a + b == a;
    } else {
      var n := |b| - 1;
      assert (a + b)[..|a + b| - 1] == a + b[..n];
      SumSeqAppend(f, a, b[..n]);
    }
  }

  lemma PlaceIsPacked(e: Env, st: State, t: Txid)
    requires ValidEnv(e) && Nested(e) && Wf(e, st) && Safe(e, st) && Packed(e, st) && t in e.txs && !Used(st, t)
    requires Fits(e, st, t) && !Conflicts(e.txs, st.spent, Package(e, st.rates.Keys, t))
    ensures Packed(e, Place(e, st, t))
  {
    hide Package, Unused, SumSeq, LowerRates, NewlyModified, EffectiveRate, Safe, Conflicts, PackageVsize, ValidEnv, Weights, WeightsOf, WeightsMatchSizes;
    var pkg := Package(e, st.rates.Keys, t);
    Literally(e);
    PackageIsFresh(e, st, t);
    SumSeqAppend(Weights(e), st.block, pkg);
    if WeightsMatchSizes(e.txs) {
      PackageWeight(e, st.rates.Keys, t);
    }
    assert Known(e, st.block + pkg);
  }

  // ---- shared outpoints --------------------------------------------------------------

  ghost predicate ShareOutpoint(txs: Mempool, x: Txid, y: Txid)
    requires x in txs && y in txs
  {
    exists o :: o in txs[x].spent && o in txs[y].spent
  }

  /** Two placed transactions that share an outpoint stand in the closure of one placed transaction. */
  ghost predicate Spending(e: Env, st: State)
    requires ValidEnv(e) && Wf(e, st)
  {
    && st.spent == SpentBy(e.txs, st.rates.Keys)
    && forall x, y :: x in st.rates && y in st.rates && x != y && ShareOutpoint(e.txs, x, y) ==>
         OnePackage(e, st.rates.Keys, x, y)
  }

  ghost predicate OnePackage(e: Env, placed: set<Txid>, x: Txid, y: Txid)
    requires ValidEnv(e)
  {
    exists t :: t in placed && t in e.txs && x in Closure(e, t) && y in Closure(e, t)
  }

  lemma SharingWithPlacedConflicts(e: Env, st: State, pkg: seq<Txid>, x: Txid, y: Txid)
    requires ValidEnv(e) && Wf(e, st) && Spending(e, st) && Elements(pkg) <= e.txs.Keys
    requires x in pkg && y in st.rates && (ShareOutpoint(e.txs, x, y) || ShareOutpoint(e.txs, y, x))
    ensures Conflicts(e.txs, st.spent, pkg)
  {
    var o :| o in e.txs[x].spent && o in e.txs[y].spent;
    assert o in st.spent;
  }

  lemma PlaceMembersSpends(e: Env, st: State, more: seq<Txid>, rate: real)
    requires ValidEnv(e) && Wf(e, st) && Elements(more) <= e.txs.Keys
    ensures var r := PlaceMembers(e, st, more, rate);
            && r.rates.Keys == st.rates.Keys + Elements(more)
            && (st.spent == SpentBy(e.txs, st.rates.Keys) ==> r.spent == SpentBy(e.txs, r.rates.Keys))
  {
    hide SumSeq, LowerRates, NewlyModified;
  }

  lemma PlaceIsSpending(e: Env, st: State, t: Txid)
    requires ValidEnv(e) && Nested(e) && Wf(e, st) && Safe(e, st) && Spending(e, st) && t in e.txs && !Used(st, t)
    requires !Conflicts(e.txs, st.spent, Package(e, st.rates.Keys, t))
    ensures Spending(e, Place(e, st, t))
  {
    hide Package, Unused, PlaceMembers, EffectiveRate, Safe, Conflicts, ShareOutpoint, SpentBy, ValidEnv;
    var pkg := Package(e, st.rates.Keys, t);
    PackageIsFresh(e, st, t);
    PackageElements(e, st.rates.Keys, t);
    PlaceMembersSpends(e, st, pkg, EffectiveRate(e, st, t));
    var r := Place(e, st, t);
    forall x, y | x in r.rates && y in r.rates && x != y && ShareOutpoint(e.txs, x, y)
      ensures OnePackage(e, r.rates.Keys, x, y)
    {
      if x in st.rates && y in st.rates {
        assert OnePackage(e, st.rates.Keys, x, y);
      } else if x in st.rates {
        SharingWithPlacedConflicts(e, st, pkg, y, x);
        assert false;
      } else if y in st.rates {
        SharingWithPlacedConflicts(e, st, pkg, x, y);
        assert false;
      } else {
        assert x in Elements(pkg) && y in Elements(pkg) && t in Elements(pkg);
      }
    }
  }

  // ---- every step --------------------------------------------------------------------

  ghost predicate Bounded(e: Env, st: State)
    requires ValidEnv(e) && Wf(e, st)
  {
    Packed(e, st) && Spending(e, st)
  }

  lemma MaybeCloseIsBounded(e: Env, st: State)
    requires ValidEnv(e) && Wf(e, st) && Bounded(e, st)
    ensures Bounded(e, MaybeClose(e, st).st)
  {
    hide Reinsert, Light, ShareOutpoint, OnePackage;
    ReinsertKeeps(e,
                  st.(blocks := st.blocks + [st.block], block := [], weight := BLOCK_RESERVED_WEIGHT, overflow := []),
                  st.overflow);
  }

  lemma ConsiderIsBounded(e: Env, st: State, t: Txid)
    requires ValidEnv(e) && Nested(e) && Wf(e, st) && Safe(e, st) && Bounded(e, st) && t in e.txs
    ensures Bounded(e, Consider(e, st, t).st)
  {
    hide Package, MaybeClose, Place, Fits, Conflicts, Safe;
    if !Used(st, t) {
      if !Fits(e, st, t) {
        MaybeCloseIsBounded(e, Postpone(e, st, t));
      } else if !Conflicts(e.txs, st.spent, Package(e, st.rates.Keys, t)) {
        PlaceIsPacked(e, st, t);
        PlaceIsSpending(e, st, t);
        MaybeCloseIsBounded(e, Place(e, st, t));
      }
    }
  }

  lemma TakeKeeps(e: Env, st: State)
    requires ValidEnv(e) && Wf(e, st) && Safe(e, st) && Bounded(e, st)
    ensures Safe(e, Take(e, st)) && Bounded(e, Take(e, st))
  {
    hide TakesArray, Best, ShareOutpoint, OnePackage, Light, Hopeless, PlacedInOrder;
  }

  lemma StepIsBounded(e: Env, st: State)
    requires ValidEnv(e) && Nested(e) && Wf(e, st) && Safe(e, st) && Bounded(e, st)
    ensures Bounded(e, Step(e, st).st)
  {
    hide SkipTop, Candidate, MaybeClose, Consider, Take, ShareOutpoint, OnePackage, Light, Hopeless, PlacedInOrder;
    var s := st.(top := SkipTop(e, st, st.top));
    assert Safe(e, s) && Bounded(e, s);
    TakeKeeps(e, s);
    if HasWork(st) {
      hide Safe, Bounded;
      match Candidate(e, s)
      case None =>
        MaybeCloseIsBounded(e, s);
      case Some(t) =>
        ConsiderIsBounded(e, Take(e, s), t);
    }
  }

  lemma InitIsBounded(e: Env, arr: seq<Txid>)
    requires ValidEnv(e) && InitialArray(e, arr)
    ensures Bounded(e, Init(e, arr))
  {
    hide InitialArray, ValidEnv;
  }

  lemma {:induction false} RunIsBounded(e: Env, arr: seq<Txid>, n: nat)
    requires ValidEnv(e) && Nested(e) && InitialArray(e, arr)
    ensures Bounded(e, Iterate(e, Init(e, arr), n).st)
  {
    hide Step, InitialArray, Safe, Bounded, Init, ValidEnv, Nested, Wf;
    if n == 0 {
      InitIsBounded(e, arr);
    } else {
      RunIsBounded(e, arr, n - 1);
      RunIsSafe(e, arr, n - 1);
      var r := Iterate(e, Init(e, arr), n - 1);
      if r.Running? {
        StepIsBounded(e, r.st);
      }
    }
  }

  // ---- the finished templates ----------------------------------------------------------

  /** At most max(1, maxBlocks) blocks, none empty; and when no recorded weight exceeds four times the
      virtual size, every block before the last permitted one stays under the weight limit. */
  lemma TemplatesFit(e: Env, arr: seq<Txid>, blocks: seq<seq<Txid>>, rates: map<Txid, real>)
    requires ValidEnv(e) && Nested(e) && InitialArray(e, arr) && Produces(e, arr, blocks, rates)
    ensures |blocks| <= Max(1, e.maxBlocks)
    ensures forall b :: 0 <= b < |blocks| ==> blocks[b] != [] && Known(e, blocks[b])
    ensures WeightsMatchSizes(e.txs) ==>
              forall b :: 0 <= b < |blocks| && b < Monus(e.maxBlocks, 1) ==> BlockWeight(e, blocks[b]) < e.weightLimit
  {
    hide Iterate, InitialArray, Init, Bounded, Wf, ValidEnv, Nested, BlocksOf;
    var n: nat :|
      var r := Iterate(e, Init(e, arr), n);
      r.Finished? && blocks == BlocksOf(r.st) && rates == r.st.rates;
    RunIsBounded(e, arr, n);
    BoundedFits(e, Iterate(e, Init(e, arr), n).st);
  }

  lemma BoundedFits(e: Env, st: State)
    requires ValidEnv(e) && Wf(e, st) && Bounded(e, st)
    ensures var blocks := BlocksOf(st);
            && |blocks| <= Max(1, e.maxBlocks)
            && (forall b :: 0 <= b < |blocks| ==> blocks[b] != [] && Known(e, blocks[b]))
            && (WeightsMatchSizes(e.txs) ==>
                  forall b :: 0 <= b < |blocks| && b < Monus(e.maxBlocks, 1) ==> BlockWeight(e, blocks[b]) < e.weightLimit)
  {
    hide ValidEnv, Wf, Spending, WeightsMatchSizes;
  }

  ghost predicate SpendsOnce(e: Env, ids: set<Txid>) {
    forall x, y :: x in ids && y in ids && x in e.txs && y in e.txs && x != y ==> !ShareOutpoint(e.txs, x, y)
  }

  /** Two placed transactions spend the same outpoint only within the closure of one placed transaction; so the templates
      spend nothing twice exactly if no placed closure does. */
  lemma TemplatesDoNotDoubleSpend(e: Env, arr: seq<Txid>, blocks: seq<seq<Txid>>, rates: map<Txid, real>)
    requires ValidEnv(e) && Nested(e) && InitialArray(e, arr) && Produces(e, arr, blocks, rates)
    ensures rates.Keys <= e.txs.Keys
    ensures forall x, y :: x in rates && y in rates && x != y && ShareOutpoint(e.txs, x, y) ==> OnePackage(e, rates.Keys, x, y)
    ensures SpendsOnce(e, rates.Keys) <==> forall t <- rates :: SpendsOnce(e, Closure(e, t))
  {
    hide Iterate, InitialArray, Packed, ShareOutpoint, OnePackage, SpendsOnce, ValidEnv, Safe;
    var n: nat :|
      var r := Iterate(e, Init(e, arr), n);
      r.Finished? && blocks == BlocksOf(r.st) && rates == r.st.rates;
    RunIsBounded(e, arr, n);
    RunIsSafe(e, arr, n);
    SpendingSpendsOnce(e, Iterate(e, Init(e, arr), n).st);
  }

  lemma SpendingSpendsOnce(e: Env, st: State)
    requires ValidEnv(e) && Wf(e, st) && Safe(e, st) && Spending(e, st)
    ensures st.rates.Keys <= e.txs.Keys
    ensures SpendsOnce(e, st.rates.Keys) <==> forall t <- st.rates :: SpendsOnce(e, Closure(e, t))
  {
    hide ShareOutpoint, ValidEnv, Hopeless;
    forall t <- st.rates ensures Closure(e, t) <= st.rates.Keys {
      ClosureIsPlaced(e, Order(st), st.rates.Keys, t);
    }
  }

  lemma ClosureIsPlaced(e: Env, s: seq<Txid>, placed: set<Txid>, t: Txid)
    requires ValidEnv(e) && PlacedInOrder(e, s, placed) && t in placed && t in e.txs
    ensures Closure(e, t) <= placed
  {
    hide ValidEnv;
  }
}
