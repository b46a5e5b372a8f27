/** The mutable state of the packing loop, apart from the queue of modified transactions. */
module Packers {
  import opened Collections
  import opened TxGraph
  import opened TemplateSpec
  import opened TemplateSafety
  import opened ModifiedQueues
  import opened Descendants
  import opened Packing

  ghost function Dropped(pool: Pool, rates: map<Txid, real>): set<Txid> {
    set t | t in pool && pool[t].used && t !in rates
  }

  ghost function Deps(pool: Pool): map<Txid, real> {
    map t | t in pool :: pool[t].dependencyRate
  }

  /** The pool represents these decisions. */
  ghost predicate PoolOf(e: Env, rates: map<Txid, real>, dropped: set<Txid>, dep: map<Txid, real>, pool: Pool)
    requires ValidEnv(e)
  {
    && PoolMatches(e, rates.Keys, rates.Keys + dropped, dep, pool)
    && dropped !! rates.Keys
  }

  lemma PoolDetermines(e: Env, st: State, pool: Pool)
    requires ValidEnv(e) && Wf(e, st) && PoolOf(e, st.rates, st.dropped, st.dep, pool)
    ensures Dropped(pool, st.rates) == st.dropped && Deps(pool) == st.dep
  {
    hide Remaining, PackageFee, PackageVsize, Score, Modified, StaticMatches;
  }

  class Packer {
    const maxBlocks: nat
    const weightLimit: nat
    const arrange: set<Txid> -> seq<Txid>
    const rate: (nat, nat) -> real

    var pool: Pool
    var arr: seq<Txid>
    var top: nat
    var overflow: seq<Txid>
    var failures: nat
    var blocks: seq<seq<Txid>>
    var block: seq<Txid>
    var weight: nat
    var spent: set<OutPoint>
    var rates: map<Txid, real>

    constructor (pool: Pool, arr: seq<Txid>, maxBlocks: nat, weightLimit: nat,
                 arrange: set<Txid> -> seq<Txid>, rate: (nat, nat) -> real)
      ensures this.maxBlocks == maxBlocks && this.weightLimit == weightLimit
      ensures this.arrange == arrange && this.rate == rate
      ensures this.pool == pool
      ensures forall queue :: View(queue) ==
                              State(arr, 0, queue, [], 0, [], [], BLOCK_RESERVED_WEIGHT, {}, map[], Dropped(pool, map[]), Deps(pool))
    {
      this.maxBlocks, this.weightLimit, this.arrange, this.rate := maxBlocks, weightLimit, arrange, rate;
      this.pool, this.arr, this.top := pool, arr, 0;
      this.overflow, this.failures := [], 0;
      this.blocks, this.block, this.weight := [], [], BLOCK_RESERVED_WEIGHT;
      this.spent, this.rates := {}, map[];
    }

    /** The abstract state, given what is queued. */
    ghost function View(queue: multiset<Txid>): State
      reads this
    {
      State(arr, top, queue, overflow, failures, blocks, block, weight, spent, rates, Dropped(pool, rates), Deps(pool))
    }

    ghost predicate Serves(e: Env) {
      && ValidEnv(e) && Nested(e) && FromGraph(e)
      && e.maxBlocks == maxBlocks && e.weightLimit == weightLimit && e.arrange == arrange && e.rate == rate
    }

    ghost predicate Valid(e: Env, queue: multiset<Txid>)
      reads this
    {
      Serves(e) && Wf(e, View(queue)) && PoolOf(e, rates, Dropped(pool, rates), Deps(pool), pool)
    }

    /** Advance past slots whose transaction is used or queued. */
    method SkipUsed(ghost e: Env, ghost queue: multiset<Txid>)
      requires Valid(e, queue)
      modifies this`top
      ensures Valid(e, queue)
      ensures var st := old(View(queue)); View(queue) == st.(top := SkipTop(e, st, st.top))
    {
      hide PoolOf, Nested, FromGraph, Dropped, Deps, Modified, Used, ValidEnv;
      ghost var st := View(queue);
      while top < |arr| && (arr[top] !in pool || pool[arr[top]].used || pool[arr[top]].modified)
        invariant top <= |arr|
        invariant SkipTop(e, st, top) == SkipTop(e, st, old(top))
        invariant View(queue) == st.(top := top)
      {
        Flags(e, st, pool, arr[top]);
        top := top + 1;
      }
      if top < |arr| {
        Flags(e, st, pool, arr[top]);
      }
    }

    /** Drop a candidate whose package conflicts: mark it used without placing it. */
    method DropCandidate(ghost e: Env, ghost queue: multiset<Txid>, t: Txid)
      requires Valid(e, queue) && t in e.txs && !Used(View(queue), t)
      modifies this`pool, this`failures
      ensures Valid(e, queue) && View(queue) == Drop(e, old(View(queue)), t)
      ensures ScoresOf(pool) == old(ScoresOf(pool))
    {
      hide Nested, FromGraph, Dropped, Deps, Matches, Wf;
      ghost var st := View(queue);
      UseOne(e, st.rates.Keys, st.rates.Keys + st.dropped, st.dep, pool, t);
      assert st.rates.Keys + (st.dropped + {t}) == st.rates.Keys + st.dropped + {t};
      pool := pool[t := pool[t].(used := true)];
      failures := failures + 1;
      PoolDetermines(e, Drop(e, st, t), pool);
    }

    /** Enter the members of a placed package into the current block. */
    method Enter(ghost e: Env, ghost st: State, ghost queue: multiset<Txid>, ghost effectiveRate: real,
                 pool': Pool, after: Marks, more: seq<Txid>)
      requires Valid(e, st.queue) && st == View(st.queue)
      requires Marked(e, st.rates.Keys, st.rates.Keys + st.dropped, st.dep, effectiveRate, Marks(pool, spent, rates, weight), more, after)
      requires var r := PlaceMembers(e, st, more, effectiveRate);
               && r.queue == queue && PoolOf(e, r.rates, r.dropped, r.dep, pool')
               && Dropped(pool', r.rates) == r.dropped && Deps(pool') == r.dep
      modifies this
      ensures pool == pool'
      ensures Valid(e, queue) && View(queue) == PlaceMembers(e, st, more, effectiveRate)
    {
      hide Nested, FromGraph, PoolOf, NewlyModified, LowerRates, SpentBy, SumSeq, Wf, Dropped, Deps, PoolMatches, ValidEnv;
      ghost var r := PlaceMembers(e, st, more, effectiveRate);
      assert r == State(arr, top, queue, overflow, 0, blocks, block + more, after.weight, after.spent, after.rates,
                        Dropped(pool', after.rates), Deps(pool'));
      hide PlaceMembers;
      pool, spent, rates, weight := pool', after.spent, after.rates, after.weight;
      block := block + more;
      failures := 0;
    }

    method TakeTop(ghost e: Env, ghost queue: multiset<Txid>)
      requires Valid(e, queue) && top < |arr|
      modifies this`top
      ensures Valid(e, queue) && View(queue) == old(View(queue)).(top := old(top) + 1)
    {
      hide Nested, FromGraph, PoolOf, Dropped, Deps;
      top := top + 1;
    }

    /** Put an unmodified transaction back in front of the array. */
    method PutBack(ghost e: Env, ghost queue: multiset<Txid>, t: Txid)
      requires Valid(e, queue) && t in e.txs && !Modified(e, rates.Keys, t)
      modifies this`top, this`arr
      ensures Valid(e, queue) && View(queue) == Requeue(e, old(View(queue)), t)
    {
      hide Nested, FromGraph, PoolOf, Dropped, Deps;
      top := Monus(top, 1);
      if top < |arr| {
        arr := arr[top := t];
      }
    }

    /** Close the current block and start the next one. */
    method StartBlock(ghost e: Env, ghost queue: multiset<Txid>) returns (back: seq<Txid>)
      requires Valid(e, queue)
      modifies this`blocks, this`block, this`weight, this`overflow
      ensures Valid(e, queue) && back == old(overflow)
      ensures View(queue) == old(View(queue)).(blocks := old(blocks) + [old(block)], block := [],
                             weight := BLOCK_RESERVED_WEIGHT, overflow := [])
    {
      hide Nested, FromGraph, PoolOf, Dropped, Deps;
      back := overflow;
      blocks := blocks + [block];
      block, weight, overflow := [], BLOCK_RESERVED_WEIGHT, [];
    }

    /** The package does not fit the current block: try again in a later one. */
    method PostponeCandidate(ghost e: Env, ghost queue: multiset<Txid>, t: Txid)
      requires Valid(e, queue) && t in e.txs
      modifies this`overflow, this`failures
      ensures Valid(e, queue) && View(queue) == Postpone(e, old(View(queue)), t)
    {
      hide PoolOf, Nested, FromGraph, Dropped, Deps;
      overflow := overflow + [t];
      failures := failures + 1;
    }

    method PackageFits(ghost e: Env, ghost queue: multiset<Txid>, t: Txid) returns (fits: bool)
      requires Valid(e, queue) && t in e.txs
      ensures fits <==> Fits(e, View(queue), t)
    {
      hide PoolOf, Nested, FromGraph, Dropped, Deps, PackageVsize;
      Flags(e, View(queue), pool, t);
      fits := |blocks| >= Monus(maxBlocks, 1) || weight + 4 * pool[t].ancestorVsize < weightLimit;
    }

    /** The remaining ancestors of `t`, fewest remaining ancestors first, then `t`. */
    method PackageOf(ghost e: Env, ghost queue: multiset<Txid>, t: Txid) returns (pkg: seq<Txid>)
      requires Valid(e, queue) && t in e.txs
      ensures pkg == Package(e, rates.Keys, t)
    {
      hide PoolOf, Nested, FromGraph, Dropped, Deps, Remaining, Package, SortByKey, RemainingCounts;
      Flags(e, View(queue), pool, t);
      var members := arrange(pool[t].ancestors);
      var keys := map x | x in pool :: |pool[x].ancestors|;
      SameKeys(e, View(queue), pool, keys);
      PackageIs(e, rates.Keys, t, members, keys);
      pkg := SortByKey(members, keys) + [t];
    }
  }

  lemma PackageIs(e: Env, placed: set<Txid>, t: Txid, members: seq<Txid>, keys: map<Txid, nat>)
    requires ValidEnv(e) && t in e.txs
    requires members == e.arrange(Remaining(e, placed, t)) && keys == RemainingCounts(e, placed)
    ensures forall y :: y in members ==> y in keys
    ensures Package(e, placed, t) == SortByKey(members, keys) + [t]
  {
    assert forall x :: x in members ==> x in multiset(members);
  }

  lemma SameKeys(e: Env, st: State, pool: Pool, keys: map<Txid, nat>)
    requires ValidEnv(e) && PoolOf(e, st.rates, st.dropped, st.dep, pool)
    requires keys == map x | x in pool :: |pool[x].ancestors|
    ensures keys == RemainingCounts(e, st.rates.Keys)
  {
    hide Matches, Remaining;
    forall x | x in e.txs
      ensures pool[x].ancestors == Remaining(e, st.rates.Keys, x)
    {
      Flags(e, st, pool, x);
    }
  }

  lemma UseOne(e: Env, placed: set<Txid>, used: set<Txid>, dep: map<Txid, real>, pool: Pool, x: Txid)
    requires ValidEnv(e) && PoolMatches(e, placed, used, dep, pool) && x in e.txs
    ensures PoolMatches(e, placed, used + {x}, dep, pool[x := pool[x].(used := true)])
    ensures ScoresOf(pool[x := pool[x].(used := true)]) == ScoresOf(pool)
  {
    hide Remaining, PackageFee, PackageVsize, Score, Modified, Children, ValidEnv;
  }

  /** `package_conflicts`: some member spends an outpoint that a placed transaction has spent. */
  predicate PackageConflicts(pool: Pool, spent: set<OutPoint>, pkg: seq<Txid>) {
    exists i :: 0 <= i < |pkg| && pkg[i] in pool && exists o :: o in pool[pkg[i]].spent && o in spent
  }

  lemma SameConflicts(e: Env, st: State, pool: Pool, pkg: seq<Txid>)
    requires ValidEnv(e) && PoolOf(e, st.rates, st.dropped, st.dep, pool) && forall x :: x in pkg ==> x in e.txs
    ensures PackageConflicts(pool, st.spent, pkg) == Conflicts(e.txs, st.spent, pkg)
  {
    hide Matches;
    forall x | x in e.txs ensures pool[x].spent == e.txs[x].spent {
      MarkedFields(e, st.rates.Keys, st.rates.Keys + st.dropped, st.dep, pool, x);
    }
    if Conflicts(e.txs, st.spent, pkg) {
      var x, o :| x in pkg && o in e.txs[x].spent && o in st.spent;
      var i :| 0 <= i < |pkg| && pkg[i] == x;
      assert pkg[i] in pool && o in pool[pkg[i]].spent;
    }
  }

  lemma Flags(e: Env, st: State, pool: Pool, t: Txid)
    requires ValidEnv(e) && PoolOf(e, st.rates, st.dropped, st.dep, pool) && t in e.txs
    ensures t in pool && pool[t].used == Used(st, t) && pool[t].modified == Modified(e, st.rates.Keys, t)
    ensures pool[t].ancestors == Remaining(e, st.rates.Keys, t)
    ensures pool[t].ancestorFee == PackageFee(e, st.rates.Keys, t)
    ensures pool[t].ancestorVsize == PackageVsize(e, st.rates.Keys, t)
    ensures pool[t].score == Score(e, st.rates.Keys, t)
    ensures t in st.dep && pool[t].dependencyRate == st.dep[t]
  {
    hide Remaining, PackageFee, PackageVsize, Score, Modified, StaticMatches;
  }
}
