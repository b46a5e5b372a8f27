/** The block-template builder as an abstract step machine.

    The state keeps only what the algorithm has decided so far.  Everything the source keeps up to date
    incrementally (remaining ancestors, package fee and size, score, the `used` and `modified` flags) is
    computed here from scratch out of the set of placed transactions, so this is the simple form that both
    the heap-based builder and the older re-sorting builder are proved to refine. */
module TemplateSpec {
  import opened Collections
  import opened TxGraph

  datatype OutPoint = OutPoint(txid: Txid, vout: nat)

  /** What the mempool store holds about a transaction; one entry of `inputs` per spent output. */
  datatype MempoolTx = MempoolTx(
    feeSat: nat, vsize: nat, weight: nat, feeRate: real, inputs: seq<Txid>, spent: seq<OutPoint>)

  type Mempool = map<Txid, MempoolTx>

  const BLOCK_RESERVED_WEIGHT: nat := 4000
  const MAX_FAILURES: nat := 1000

  function AdjustedVsize(tx: MempoolTx): nat {
    Max(tx.vsize, 1)
  }

  function AdjustedWeight(tx: MempoolTx): nat {
    Max(tx.weight, AdjustedVsize(tx) * 4)
  }

  function ParentGraph(txs: Mempool): Graph {
    map t | t in txs :: set p | p in txs[t].inputs && p in txs
  }

  /** The inputs of one run.  `anc` is the ancestor closure of the pool; `arrange` is the order in which a
      hash set of ids happens to be iterated; `rate` is the division of a fee by a size, with whatever
      rounding it has. */
  datatype Env = Env(
    txs: Mempool,
    anc: map<Txid, set<Txid>>,
    maxBlocks: nat,
    weightLimit: nat,
    arrange: set<Txid> -> seq<Txid>,
    rate: (nat, nat) -> real)

  ghost predicate Arranges(arrange: set<Txid> -> seq<Txid>) {
    forall s: set<Txid> :: multiset(arrange(s)) == multiset(s)
  }

  ghost predicate ValidEnv(e: Env) {
    && e.anc.Keys == e.txs.Keys
    && (forall t :: t in e.anc ==> e.anc[t] <= e.txs.Keys)
    && Arranges(e.arrange)
  }

  lemma AncestorsOfAll(e: Env)
    requires ValidEnv(e)
    ensures e.anc.Keys == e.txs.Keys
  {
  }

  ghost function EnvOf(txs: Mempool, maxBlocks: nat, weightLimit: nat,
                       arrange: set<Txid> -> seq<Txid>, rate: (nat, nat) -> real): (e: Env)
    requires Arranges(arrange)
    ensures ValidEnv(e)
  {
    var g := ParentGraph(txs);
    Env(txs, map t | t in txs :: Ancestors(g, t), maxBlocks, weightLimit, arrange, rate)
  }

  ghost function Fees(e: Env): map<Txid, nat> {
    map t | t in e.txs :: e.txs[t].feeSat
  }

  ghost function Vsizes(e: Env): map<Txid, nat> {
    map t | t in e.txs :: AdjustedVsize(e.txs[t])
  }

  ghost function Weights(e: Env): map<Txid, nat> {
    map t | t in e.txs :: AdjustedWeight(e.txs[t])
  }

  // ---- the state --------------------------------------------------------------

  /** `rates` maps every placed transaction to its effective rate; `dep` is the dependency rate. */
  datatype State = State(
    arr: seq<Txid>, top: nat,
    queue: multiset<Txid>,
    overflow: seq<Txid>,
    failures: nat,
    blocks: seq<seq<Txid>>, block: seq<Txid>, weight: nat,
    spent: set<OutPoint>,
    rates: map<Txid, real>,
    dropped: set<Txid>,
    dep: map<Txid, real>)

  datatype Outcome = Running(st: State) | Finished(st: State)

  ghost predicate Wf(e: Env, st: State) {
    && st.top <= |st.arr|
    && (forall t :: t in st.arr ==> t in e.txs)
    && (forall t :: t in st.queue ==> t in e.txs)
    && (forall t :: t in st.overflow ==> t in e.txs)
    && st.rates.Keys <= e.txs.Keys
    && st.dropped <= e.txs.Keys
    && st.dep.Keys == e.txs.Keys
  }

  ghost predicate Used(st: State, t: Txid) {
    t in st.rates || t in st.dropped
  }

  /** The ancestors of `t` that are still to be placed. */
  ghost function Remaining(e: Env, placed: set<Txid>, t: Txid): set<Txid>
    requires ValidEnv(e) && t in e.txs
  {
    e.anc[t] - placed
  }

  /** An ancestor has been placed, so the transaction is scheduled through the queue. */
  ghost predicate Modified(e: Env, placed: set<Txid>, t: Txid)
    requires ValidEnv(e) && t in e.txs
  {
    e.anc[t] * placed != {}
  }

  ghost function PackageFee(e: Env, placed: set<Txid>, t: Txid): nat
    requires ValidEnv(e) && t in e.txs
  {
    e.txs[t].feeSat + SumOver(Fees(e), Remaining(e, placed, t))
  }

  ghost function PackageVsize(e: Env, placed: set<Txid>, t: Txid): nat
    requires ValidEnv(e) && t in e.txs
  {
    AdjustedVsize(e.txs[t]) + SumOver(Vsizes(e), Remaining(e, placed, t))
  }

  ghost function Score(e: Env, placed: set<Txid>, t: Txid): real
    requires ValidEnv(e) && t in e.txs
  {
    e.rate(PackageFee(e, placed, t), PackageVsize(e, placed, t))
  }

  ghost function Scores(e: Env, placed: set<Txid>): (scores: map<Txid, real>)
    requires ValidEnv(e)
    ensures scores.Keys == e.txs.Keys
  {
    map t | t in e.txs :: Score(e, placed, t)
  }

  // ---- the scheduling order ---------------------------------------------------

  /** Higher score first, smaller id on ties. */
  predicate Before(scores: map<Txid, real>, a: Txid, b: Txid)
    requires a in scores && b in scores
  {
    scores[a] > scores[b] || (scores[a] == scores[b] && a <= b)
  }

  ghost predicate IsBest(scores: map<Txid, real>, q: multiset<Txid>, t: Txid)
    requires forall u :: u in q ==> u in scores
  {
    t in q && forall u :: u in q ==> Before(scores, t, u)
  }

  lemma {:induction false} BestExists(scores: map<Txid, real>, q: multiset<Txid>)
    requires q != multiset{} && forall u :: u in q ==> u in scores
    ensures exists t :: IsBest(scores, q, t)
    decreases |q|
  {
    var t :| t in q;
    var rest := q[t := 0];
    assert forall u :: u in q ==> u == t || u in rest;
    if rest == multiset{} {
      assert IsBest(scores, q, t);
    } else {
      assert |rest| < |q| by {
        assert q == rest + multiset{t}[t := q[t]];
      }
      BestExists(scores, rest);
      var u :| IsBest(scores, rest, u);
      assert IsBest(scores, q, if Before(scores, u, t) then u else t);
    }
  }

  lemma BestIsUnique(scores: map<Txid, real>, q: multiset<Txid>, t: Txid, u: Txid)
    requires forall u :: u in q ==> u in scores
    requires IsBest(scores, q, t) && IsBest(scores, q, u)
    ensures t == u
  {
    assert Before(scores, t, u) && Before(scores, u, t);
  }

  ghost function Best(scores: map<Txid, real>, q: multiset<Txid>): (t: Txid)
    requires q != multiset{} && forall u :: u in q ==> u in scores
    ensures IsBest(scores, q, t)
  {
    BestExists(scores, q);
    var t :| IsBest(scores, q, t);
    t
  }

  /** The array the builder starts from: every transaction once, in scheduling order. */
  ghost predicate InitialArray(e: Env, arr: seq<Txid>)
    requires ValidEnv(e)
  {
    && multiset(arr) == multiset(e.txs.Keys)
    && (forall t :: t in arr ==> t in e.txs)
    && forall i, j :: 0 <= i < j < |arr| ==> Before(Scores(e, {}), arr[i], arr[j])
  }

  ghost function Init(e: Env, arr: seq<Txid>): (st: State)
    requires ValidEnv(e) && InitialArray(e, arr)
    ensures Wf(e, st)
  {
    State(arr, 0, multiset{}, [], 0, [], [], BLOCK_RESERVED_WEIGHT, {}, map[], {},
          map t | t in e.txs :: e.txs[t].feeRate)
  }

  // ---- choosing the next candidate ----------------------------------------------

  /** Skip array slots whose transaction is used or has moved to the queue. */
  ghost function SkipTop(e: Env, st: State, top: nat): (r: nat)
    requires ValidEnv(e) && Wf(e, st) && top <= |st.arr|
    ensures top <= r <= |st.arr|
    decreases |st.arr| - top
  {
    if top < |st.arr| && (Used(st, st.arr[top]) || Modified(e, st.rates.Keys, st.arr[top]))
    then SkipTop(e, st, top + 1)
    else top
  }

  /** Take the better of the first array slot and the best queued transaction; a tie goes to the queue. */
  ghost function TakesArray(e: Env, st: State): bool
    requires ValidEnv(e) && Wf(e, st)
  {
    && st.top < |st.arr|
    && (st.queue != multiset{} ==>
          var scores := Scores(e, st.rates.Keys);
          scores[st.arr[st.top]] > scores[Best(scores, st.queue)])
  }

  ghost function Candidate(e: Env, st: State): (next: Option<Txid>)
    requires ValidEnv(e) && Wf(e, st)
    ensures next.Some? ==> next.value in e.txs
  {
    if TakesArray(e, st) then Some(st.arr[st.top])
    else if st.queue != multiset{} then Some(Best(Scores(e, st.rates.Keys), st.queue))
    else None
  }

  ghost function Take(e: Env, st: State): (r: State)
    requires ValidEnv(e) && Wf(e, st)
    ensures Wf(e, r)
  {
    if TakesArray(e, st) then st.(top := st.top + 1)
    else if st.queue != multiset{}
    then st.(queue := st.queue - multiset{Best(Scores(e, st.rates.Keys), st.queue)})
    else st
  }

  // ---- what happens to a candidate ----------------------------------------------

  ghost predicate Fits(e: Env, st: State, t: Txid)
    requires ValidEnv(e) && t in e.txs
  {
    || |st.blocks| >= Monus(e.maxBlocks, 1)
    || st.weight + 4 * PackageVsize(e, st.rates.Keys, t) < e.weightLimit
  }

  ghost function RemainingCounts(e: Env, placed: set<Txid>): map<Txid, nat>
    requires ValidEnv(e)
  {
    map t | t in e.txs :: |Remaining(e, placed, t)|
  }

  /** The ancestor package of `t`: remaining ancestors by how many ancestors they still have, then `t`. */
  ghost function Package(e: Env, placed: set<Txid>, t: Txid): (pkg: seq<Txid>)
    requires ValidEnv(e) && t in e.txs
    ensures multiset(pkg) == multiset(Remaining(e, placed, t)) + multiset{t}
    ensures forall x :: x in pkg ==> x in e.txs
  {
    var members := e.arrange(Remaining(e, placed, t));
    assert forall x :: x in members ==> x in multiset(members);
    var sorted := SortByKey(members, RemainingCounts(e, placed));
    assert forall x :: x in sorted ==> x in multiset(sorted);
    sorted + [t]
  }

  predicate Conflicts(txs: Mempool, spent: set<OutPoint>, pkg: seq<Txid>)
    requires forall x :: x in pkg ==> x in txs
  {
    exists x, o :: x in pkg && o in txs[x].spent && o in spent
  }

  ghost function Unused(st: State, pkg: seq<Txid>): (r: seq<Txid>)
    ensures forall x :: x in r <==> x in pkg && !Used(st, x)
  {
    if pkg == [] then []
    else
      var n := |pkg| - 1;
      assert pkg == pkg[..n] + [pkg[n]];
      Unused(st, pkg[..n]) + (if Used(st, pkg[n]) then [] else [pkg[n]])
  }

  ghost function EffectiveRate(e: Env, st: State, t: Txid): real
    requires ValidEnv(e) && Wf(e, st) && t in e.txs
  {
    MinReal(st.dep[t], Score(e, st.rates.Keys, t))
  }

  ghost function SpentBy(txs: Mempool, s: set<Txid>): set<OutPoint>
    requires s <= txs.Keys
  {
    set x, o | x in s && o in txs[x].spent :: o
  }

  ghost function NewlyModified(e: Env, placed: set<Txid>, more: set<Txid>): set<Txid>
    requires ValidEnv(e)
  {
    set t | t in e.txs && e.anc[t] * more != {} && !Modified(e, placed, t)
  }

  ghost function LowerRates(e: Env, dep: map<Txid, real>, more: set<Txid>, rate: real): (r: map<Txid, real>)
    requires ValidEnv(e) && dep.Keys == e.txs.Keys
    ensures r.Keys == e.txs.Keys
  {
    map t | t in e.txs :: if e.anc[t] * more != {} then MinReal(dep[t], rate) else dep[t]
  }

  /** Append `more` to the current block at effective rate `rate`. */
  ghost function PlaceMembers(e: Env, st: State, more: seq<Txid>, rate: real): (r: State)
    requires ValidEnv(e) && Wf(e, st) && Elements(more) <= e.txs.Keys
    ensures Wf(e, r)
  {
    var added := Elements(more);
    State(
      st.arr, st.top,
      st.queue + multiset(NewlyModified(e, st.rates.Keys, added)),
      st.overflow,
      0,
      st.blocks, st.block + more, st.weight + SumSeq(Weights(e), more),
      st.spent + SpentBy(e.txs, added),
      st.rates + (map x | x in added :: rate),
      st.dropped,
      LowerRates(e, st.dep, added, rate))
  }

  ghost function Place(e: Env, st: State, t: Txid): (r: State)
    requires ValidEnv(e) && Wf(e, st) && t in e.txs
    ensures Wf(e, r)
  {
    PlaceMembers(e, st, Unused(st, Package(e, st.rates.Keys, t)), EffectiveRate(e, st, t))
  }

  ghost function Drop(e: Env, st: State, t: Txid): (r: State)
    requires Wf(e, st) && t in e.txs
    ensures Wf(e, r)
  {
    st.(dropped := st.dropped + {t}, failures := st.failures + 1)
  }

  ghost function Postpone(e: Env, st: State, t: Txid): (r: State)
    requires Wf(e, st) && t in e.txs
    ensures Wf(e, r)
  {
    st.(overflow := st.overflow + [t], failures := st.failures + 1)
  }

  // ---- closing a block ------------------------------------------------------------

  ghost function Requeue(e: Env, st: State, t: Txid): (r: State)
    requires ValidEnv(e) && Wf(e, st) && t in e.txs
    ensures Wf(e, r)
  {
    if Modified(e, st.rates.Keys, t) then st.(queue := st.queue + multiset{t})
    else
      var top := Monus(st.top, 1);
      st.(top := top, arr := if top < |st.arr| then st.arr[top := t] else st.arr)
  }

  /** Put postponed transactions back, last one first. */
  ghost function Reinsert(e: Env, st: State, back: seq<Txid>): (r: State)
    requires ValidEnv(e) && Wf(e, st) && forall t :: t in back ==> t in e.txs
    ensures Wf(e, r)
    decreases |back|
  {
    if back == [] then st
    else Reinsert(e, Requeue(e, st, back[|back| - 1]), back[..|back| - 1])
  }

  lemma ReinsertStep(e: Env, st: State, back: seq<Txid>, i: nat)
    requires ValidEnv(e) && Wf(e, st) && i < |back| && forall t :: t in back ==> t in e.txs
    ensures Reinsert(e, st, back[..i + 1]) == Reinsert(e, Requeue(e, st, back[i]), back[..i])
  {
    hide Wf, ValidEnv, Requeue;
    assert back[..i + 1][..i] == back[..i];
  }

  lemma ReinsertNothing(e: Env, st: State, back: seq<Txid>)
    requires ValidEnv(e) && Wf(e, st) && back == []
    ensures Reinsert(e, st, back) == st
  {
    hide Wf, ValidEnv;
  }

  ghost predicate ShouldClose(e: Env, st: State) {
    && ((st.failures > MAX_FAILURES && st.weight > Monus(e.weightLimit, BLOCK_RESERVED_WEIGHT))
        || (st.top >= |st.arr| && st.queue == multiset{}))
    && |st.blocks| < Monus(e.maxBlocks, 1)
  }

  ghost function CloseBlock(e: Env, st: State): (r: State)
    requires ValidEnv(e) && Wf(e, st)
    ensures Wf(e, r)
  {
    Reinsert(e,
             st.(blocks := st.blocks + [st.block], block := [], weight := BLOCK_RESERVED_WEIGHT, overflow := []),
             st.overflow)
  }

  ghost function MaybeClose(e: Env, st: State): (r: Outcome)
    requires ValidEnv(e) && Wf(e, st)
    ensures Wf(e, r.st)
  {
    if !ShouldClose(e, st) then Running(st)
    else if st.block == [] then Finished(st)
    else Running(CloseBlock(e, st))
  }

  // ---- one iteration of the packing loop --------------------------------------------

  ghost function Consider(e: Env, st: State, t: Txid): (r: Outcome)
    requires ValidEnv(e) && Wf(e, st) && t in e.txs
    ensures Wf(e, r.st)
  {
    if Used(st, t) then Running(st)
    else if !Fits(e, st, t) then MaybeClose(e, Postpone(e, st, t))
    else if Conflicts(e.txs, st.spent, Package(e, st.rates.Keys, t)) then Running(Drop(e, st, t))
    else MaybeClose(e, Place(e, st, t))
  }

  ghost predicate HasWork(st: State) {
    st.top < |st.arr| || st.queue != multiset{}
  }

  ghost function Step(e: Env, st: State): (r: Outcome)
    requires ValidEnv(e) && Wf(e, st)
    ensures Wf(e, r.st)
  {
    if !HasWork(st) then Finished(st)
    else
      var s := st.(top := SkipTop(e, st, st.top));
      match Candidate(e, s)
      case None => MaybeClose(e, s)
      case Some(t) => Consider(e, Take(e, s), t)
  }

  ghost function Iterate(e: Env, st: State, n: nat): (r: Outcome)
    requires ValidEnv(e) && Wf(e, st)
    ensures Wf(e, r.st)
  {
    if n == 0 then Running(st)
    else
      match Iterate(e, st, n - 1)
      case Running(s) => Step(e, s)
      case Finished(s) => Finished(s)
  }

  // ---- results ------------------------------------------------------------------------

  ghost function BlocksOf(st: State): seq<seq<Txid>> {
    if st.block == [] then st.blocks else st.blocks + [st.block]
  }

  /** The run from `arr` ends after some number of iterations with these templates. */
  ghost predicate Produces(e: Env, arr: seq<Txid>, blocks: seq<seq<Txid>>, rates: map<Txid, real>)
    requires ValidEnv(e) && InitialArray(e, arr)
  {
    exists n: nat ::
      var r := Iterate(e, Init(e, arr), n);
      r.Finished? && blocks == BlocksOf(r.st) && rates == r.st.rates
  }
}
