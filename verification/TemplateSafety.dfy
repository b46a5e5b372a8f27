/** What every iteration of the packing loop keeps: placed transactions follow their ancestors, none is
    placed twice, and a transaction dropped for a conflict never lets a descendant through. */
module TemplateSafety {
  import opened Collections
  import opened TxGraph
  import opened TemplateSpec

  /** Ancestor sets of an acyclic pool: transitive and irreflexive. */
  ghost predicate Nested(e: Env)
    requires ValidEnv(e)
  {
    && (forall t :: t in e.txs ==> t !in e.anc[t])
    && (forall t, a :: t in e.txs && a in e.anc[t] ==> e.anc[a] <= e.anc[t])
  }

  lemma AcyclicIsNested(txs: Mempool, e: Env)
    requires ValidEnv(e) && Acyclic(ParentGraph(txs)) && e.txs == txs
    requires forall t :: t in txs ==> e.anc[t] == Ancestors(ParentGraph(txs), t)
    ensures Nested(e)
  {
    forall t, a | t in e.txs && a in e.anc[t]
      ensures e.anc[a] <= e.anc[t]
    {
      AncestorsAreShallower(ParentGraph(txs), a, t);
    }
  }

  /** `t` together with all its ancestors. */
  ghost function Closure(e: Env, t: Txid): set<Txid>
    requires ValidEnv(e) && t in e.txs
  {
    e.anc[t] + {t}
  }

  // ---- the order of placed transactions -----------------------------------------

  function Flatten<T>(blocks: seq<seq<T>>): seq<T> {
    if blocks == [] then [] else Flatten(blocks[..|blocks| - 1]) + blocks[|blocks| - 1]
  }

  ghost function Order(st: State): seq<Txid> {
    Flatten(st.blocks) + st.block
  }

  /** Every member comes after all its ancestors. */
  ghost predicate Topological(e: Env, s: seq<Txid>)
    requires ValidEnv(e)
  {
    forall i :: 0 <= i < |s| ==> s[i] in e.txs && e.anc[s[i]] <= Elements(s[..i])
  }

  /** `s` lists the placed transactions, each once and after its ancestors. */
  ghost predicate PlacedInOrder(e: Env, s: seq<Txid>, placed: set<Txid>)
    requires ValidEnv(e)
  {
    Elements(s) == placed && Distinct(s) && Topological(e, s)
  }

  ghost predicate Blocked(e: Env, spent: set<OutPoint>, m: Txid)
    requires m in e.txs
  {
    exists o :: o in e.txs[m].spent && o in spent
  }

  /** A dropped transaction has a closure member that can never be placed. */
  ghost predicate Hopeless(e: Env, placed: set<Txid>, spent: set<OutPoint>, d: Txid)
    requires ValidEnv(e) && d in e.txs
  {
    exists m :: m in Closure(e, d) && m !in placed && Blocked(e, spent, m)
  }

  ghost predicate Safe(e: Env, st: State)
    requires ValidEnv(e)
  {
    && PlacedInOrder(e, Order(st), st.rates.Keys)
    && st.dropped <= e.txs.Keys
    && st.dropped !! st.rates.Keys
    && (forall d :: d in st.dropped ==> Hopeless(e, st.rates.Keys, st.spent, d))
  }

  // ---- the package of a candidate -------------------------------------------------

  lemma PackageElements(e: Env, placed: set<Txid>, t: Txid)
    requires ValidEnv(e) && Nested(e) && t in e.txs
    ensures Distinct(Package(e, placed, t))
    ensures Elements(Package(e, placed, t)) == Remaining(e, placed, t) + {t}
  {
    var pkg := Package(e, placed, t);
    var r := Remaining(e, placed, t);
    assert multiset(r) + multiset{t} == multiset(r + {t});
    MultisetOfSetIsDistinct(pkg, r + {t});
  }

  lemma RemainingShrinks(e: Env, placed: set<Txid>, a: Txid, b: Txid)
    requires ValidEnv(e) && Nested(e) && b in e.txs && a in Remaining(e, placed, b)
    ensures |Remaining(e, placed, a)| < |Remaining(e, placed, b)|
  {
    SmallerSet(Remaining(e, placed, a), Remaining(e, placed, b));
  }

  /** Ancestor counts never decrease along a package, and `t` itself comes last. */
  lemma PackageOrder(e: Env, placed: set<Txid>, t: Txid)
    requires ValidEnv(e) && t in e.txs
    ensures var pkg := Package(e, placed, t);
            && pkg[|pkg| - 1] == t
            && forall i, j :: 0 <= i < j < |pkg| - 1 ==>
                 |Remaining(e, placed, pkg[i])| <= |Remaining(e, placed, pkg[j])|
  {
    var members := e.arrange(Remaining(e, placed, t));
    assert forall x :: x in members ==> x in multiset(members);
    SortByKeyOrders(members, RemainingCounts(e, placed));
  }

  lemma NotBelowItself(e: Env, placed: set<Txid>, t: Txid, x: Txid)
    requires ValidEnv(e) && Nested(e) && t in e.txs && x in Closure(e, t)
    ensures t !in Remaining(e, placed, x)
  {
  }

  lemma PackageMember(e: Env, placed: set<Txid>, t: Txid, i: nat)
    requires ValidEnv(e) && Nested(e) && t in e.txs && i < |Package(e, placed, t)|
    ensures Package(e, placed, t)[i] in Closure(e, t)
  {
    hide Package;
    PackageElements(e, placed, t);
    assert Package(e, placed, t)[i] in Elements(Package(e, placed, t));
  }

  lemma PackageAncestorFirst(e: Env, placed: set<Txid>, t: Txid, i: nat, j: nat)
    requires ValidEnv(e) && Nested(e) && t in e.txs
    requires i < |Package(e, placed, t)| && j < |Package(e, placed, t)|
    requires Package(e, placed, t)[j] in Remaining(e, placed, Package(e, placed, t)[i])
    ensures j < i
  {
    hide Package, Remaining;
    var pkg := Package(e, placed, t);
    PackageOrder(e, placed, t);
    RemainingShrinks(e, placed, pkg[j], pkg[i]);
    PackageMember(e, placed, t, i);
    NotBelowItself(e, placed, t, pkg[i]);
  }

  lemma PackageIsTopological(e: Env, placed: set<Txid>, t: Txid, i: nat)
    requires ValidEnv(e) && Nested(e) && t in e.txs
    requires i < |Package(e, placed, t)|
    ensures e.anc[Package(e, placed, t)[i]] <= placed + Elements(Package(e, placed, t)[..i])
  {
    hide Package;
    var pkg := Package(e, placed, t);
    PackageElements(e, placed, t);
    forall a | a in e.anc[pkg[i]] && a !in placed
      ensures a in pkg[..i]
    {
      assert pkg[i] in Elements(pkg);
      assert a in Elements(pkg);
      var j :| 0 <= j < |pkg| && pkg[j] == a;
      PackageAncestorFirst(e, placed, t, i, j);
    }
  }

  // ---- placing a package ------------------------------------------------------------

  lemma {:induction false} NoneUsedKeepsAll(st: State, pkg: seq<Txid>)
    requires forall x :: x in pkg ==> !Used(st, x)
    ensures Unused(st, pkg) == pkg
  {
    hide Used;
    if pkg != [] {
      var n := |pkg| - 1;
      assert pkg == pkg[..n] + [pkg[n]];
      NoneUsedKeepsAll(st, pkg[..n]);
    }
  }

  lemma DroppedMemberConflicts(e: Env, st: State, t: Txid, x: Txid)
    requires ValidEnv(e) && Nested(e) && Safe(e, st) && t in e.txs
    requires x in st.dropped && x in Package(e, st.rates.Keys, t)
    ensures Conflicts(e.txs, st.spent, Package(e, st.rates.Keys, t))
  {
    hide Package;
    var pkg := Package(e, st.rates.Keys, t);
    PackageElements(e, st.rates.Keys, t);
    assert x in Elements(pkg);
    var m :| m in Closure(e, x) && m !in st.rates.Keys && Blocked(e, st.spent, m);
    assert m in Elements(pkg);
  }

  /** A package without conflicts holds no dropped transaction, so it is placed whole. */
  lemma PackageIsFresh(e: Env, st: State, t: Txid)
    requires ValidEnv(e) && Nested(e) && Wf(e, st) && Safe(e, st) && t in e.txs && !Used(st, t)
    requires !Conflicts(e.txs, st.spent, Package(e, st.rates.Keys, t))
    ensures forall x :: x in Package(e, st.rates.Keys, t) ==> !Used(st, x)
    ensures Unused(st, Package(e, st.rates.Keys, t)) == Package(e, st.rates.Keys, t)
  {
    hide Package, Conflicts;
    var pkg := Package(e, st.rates.Keys, t);
    PackageElements(e, st.rates.Keys, t);
    forall x | x in pkg
      ensures !Used(st, x)
    {
      assert x in Elements(pkg);
      if x in st.dropped {
        DroppedMemberConflicts(e, st, t, x);
        assert false;
      }
    }
    NoneUsedKeepsAll(st, pkg);
  }

  lemma AppendTopological(e: Env, s: seq<Txid>, more: seq<Txid>)
    requires ValidEnv(e) && Topological(e, s)
    requires forall i :: 0 <= i < |more| ==>
                           more[i] in e.txs && e.anc[more[i]] <= Elements(s) + Elements(more[..i])
    ensures Topological(e, s + more)
  {
    forall i | 0 <= i < |s + more|
      ensures e.anc[(s + more)[i]] <= Elements((s + more)[..i])
    {
      if i < |s| {
        assert (s + more)[..i] == s[..i];
      } else {
        assert (s + more)[..i] == s + more[..i - |s|];
      }
    }
  }

  lemma AppendInOrder(e: Env, s: seq<Txid>, placed: set<Txid>, more: seq<Txid>)
    requires ValidEnv(e) && PlacedInOrder(e, s, placed)
    requires Distinct(more) && Elements(more) !! placed && Elements(more) <= e.txs.Keys
    requires forall i :: 0 <= i < |more| ==> e.anc[more[i]] <= placed + Elements(more[..i])
    ensures PlacedInOrder(e, s + more, placed + Elements(more))
  {
    AppendTopological(e, s, more);
    DistinctAppend(s, more);
  }

  /** The effect of appending `more`, as far as safety can see. */
  ghost predicate Appended(st: State, r: State, more: seq<Txid>) {
    && r.blocks == st.blocks && r.block == st.block + more
    && r.rates.Keys == st.rates.Keys + Elements(more)
    && r.dropped == st.dropped && st.spent <= r.spent
  }

  lemma AppendedIsSafe(e: Env, st: State, more: seq<Txid>, r: State)
    requires ValidEnv(e) && Safe(e, st) && Appended(st, r, more)
    requires Distinct(more) && forall x :: x in more ==> x in e.txs && !Used(st, x)
    requires !Conflicts(e.txs, st.spent, more)
    requires forall i :: 0 <= i < |more| ==> e.anc[more[i]] <= st.rates.Keys + Elements(more[..i])
    ensures Safe(e, r)
  {
    hide PlacedInOrder, Hopeless, Conflicts, Flatten;
    AppendInOrder(e, Order(st), st.rates.Keys, more);
    assert Order(r) == Order(st) + more;
    forall d | d in r.dropped
      ensures Hopeless(e, r.rates.Keys, r.spent, d)
    {
      StaysHopeless(e, st, d, r, more);
    }
  }

  lemma StaysHopeless(e: Env, st: State, d: Txid, r: State, more: seq<Txid>)
    requires ValidEnv(e) && d in e.txs && Hopeless(e, st.rates.Keys, st.spent, d) && Appended(st, r, more)
    requires forall x :: x in more ==> x in e.txs
    requires !Conflicts(e.txs, st.spent, more)
    ensures Hopeless(e, r.rates.Keys, r.spent, d)
  {
    var m :| m in Closure(e, d) && m !in st.rates.Keys && Blocked(e, st.spent, m);
    assert m !in more;
    assert Blocked(e, r.spent, m);
  }

  lemma PlaceMembersAppends(e: Env, st: State, more: seq<Txid>, rate: real)
    requires ValidEnv(e) && Wf(e, st) && Elements(more) <= e.txs.Keys
    ensures Appended(st, PlaceMembers(e, st, more, rate), more)
  {
    hide SumSeq, LowerRates, NewlyModified;
  }

  lemma PlaceIsSafe(e: Env, st: State, t: Txid)
    requires ValidEnv(e) && Nested(e) && Wf(e, st) && Safe(e, st) && t in e.txs && !Used(st, t)
    requires !Conflicts(e.txs, st.spent, Package(e, st.rates.Keys, t))
    ensures Safe(e, Place(e, st, t))
  {
    hide Package, Unused, SumSeq, LowerRates, NewlyModified, EffectiveRate, Safe, Conflicts;
    var pkg := Package(e, st.rates.Keys, t);
    PackageIsFresh(e, st, t);
    PackageElements(e, st.rates.Keys, t);
    forall i | 0 <= i < |pkg|
      ensures e.anc[pkg[i]] <= st.rates.Keys + Elements(pkg[..i])
    {
      PackageIsTopological(e, st.rates.Keys, t, i);
    }
    PlaceMembersAppends(e, st, pkg, EffectiveRate(e, st, t));
    hide PlaceMembers;
    AppendedIsSafe(e, st, pkg, Place(e, st, t));
  }

  // ---- the other transitions ----------------------------------------------------------

  lemma DropIsSafe(e: Env, st: State, t: Txid)
    requires ValidEnv(e) && Nested(e) && Wf(e, st) && Safe(e, st) && t in e.txs && !Used(st, t)
    requires Conflicts(e.txs, st.spent, Package(e, st.rates.Keys, t))
    ensures Safe(e, Drop(e, st, t))
  {
    hide Package, PlacedInOrder, ValidEnv;
    var pkg := Package(e, st.rates.Keys, t);
    PackageElements(e, st.rates.Keys, t);
    var x, o :| x in pkg && o in e.txs[x].spent && o in st.spent;
    assert x in Elements(pkg);
    assert Blocked(e, st.spent, x);
    var r := Drop(e, st, t);
    assert Hopeless(e, r.rates.Keys, r.spent, t);
  }

  lemma {:induction false} ReinsertKeeps(e: Env, st: State, back: seq<Txid>)
    requires ValidEnv(e) && Wf(e, st) && forall t :: t in back ==> t in e.txs
    ensures var r := Reinsert(e, st, back);
            && r == st.(arr := r.arr, top := r.top, queue := r.queue)
            && |r.arr| == |st.arr|
    decreases |back|
  {
    hide Modified;
    if back != [] {
      ReinsertKeeps(e, Requeue(e, st, back[|back| - 1]), back[..|back| - 1]);
    }
  }

  lemma MaybeCloseIsSafe(e: Env, st: State)
    requires ValidEnv(e) && Wf(e, st) && Safe(e, st)
    ensures Safe(e, MaybeClose(e, st).st)
  {
    hide Reinsert, PlacedInOrder;
    var s := st.(blocks := st.blocks + [st.block], block := [], weight := BLOCK_RESERVED_WEIGHT, overflow := []);
    ReinsertKeeps(e, s, st.overflow);
    assert Order(s) == Order(st);
  }

  lemma StepIsSafe(e: Env, st: State)
    requires ValidEnv(e) && Nested(e) && Wf(e, st) && Safe(e, st)
    ensures Safe(e, Step(e, st).st)
  {
    hide SkipTop, Candidate, Package, MaybeClose, Place, Fits, TakesArray, Best;
    var s := st.(top := SkipTop(e, st, st.top));
    assert Safe(e, s);
    assert Safe(e, Take(e, s));
    if HasWork(st) {
      hide Safe;
      match Candidate(e, s)
      case None =>
        MaybeCloseIsSafe(e, s);
      case Some(t) =>
        ConsiderIsSafe(e, Take(e, s), t);
    }
  }

  lemma ConsiderIsSafe(e: Env, st: State, t: Txid)
    requires ValidEnv(e) && Nested(e) && Wf(e, st) && Safe(e, st) && t in e.txs
    ensures Safe(e, Consider(e, st, t).st)
  {
    hide Package, MaybeClose, Place, Fits, Conflicts;
    if !Used(st, t) {
      if !Fits(e, st, t) {
        MaybeCloseIsSafe(e, Postpone(e, st, t));
      } else if Conflicts(e.txs, st.spent, Package(e, st.rates.Keys, t)) {
        DropIsSafe(e, st, t);
      } else {
        PlaceIsSafe(e, st, t);
        MaybeCloseIsSafe(e, Place(e, st, t));
      }
    }
  }

  lemma {:induction false} RunIsSafe(e: Env, arr: seq<Txid>, n: nat)
    requires ValidEnv(e) && Nested(e) && InitialArray(e, arr)
    ensures Safe(e, Iterate(e, Init(e, arr), n).st)
  {
    hide Step, InitialArray;
    if n > 0 {
      RunIsSafe(e, arr, n - 1);
      var r := Iterate(e, Init(e, arr), n - 1);
      if r.Running? {
        StepIsSafe(e, r.st);
      }
    }
  }

  // ---- positions in the finished templates ----------------------------------------------

  ghost predicate At<T(!new)>(blocks: seq<seq<T>>, b: int, i: int) {
    0 <= b < |blocks| && 0 <= i < |blocks[b]|
  }

  /** No transaction is placed twice, and every in-pool parent of a placed transaction is placed in an
      earlier block or earlier in the same block. */
  ghost predicate TopologicallyValid(txs: Mempool, blocks: seq<seq<Txid>>) {
    && (forall b, i, c, j :: At(blocks, b, i) && At(blocks, c, j) && blocks[b][i] == blocks[c][j] ==> b == c && i == j)
    && (forall b, i :: At(blocks, b, i) ==> blocks[b][i] in txs)
    && (forall b, i, p :: At(blocks, b, i) && p in txs[blocks[b][i]].inputs && p in txs ==>
          exists c, j :: At(blocks, c, j) && blocks[c][j] == p && (c < b || (c == b && j < i)))
  }

  ghost function Offset<T>(blocks: seq<seq<T>>, b: nat): nat
    requires b <= |blocks|
  {
    |Flatten(blocks[..b])|
  }

  lemma {:induction false} FlattenAt<T>(blocks: seq<seq<T>>, b: nat, i: nat)
    requires b < |blocks| && i < |blocks[b]|
    ensures Offset(blocks, b) + |blocks[b]| <= |Flatten(blocks)|
    ensures Flatten(blocks)[Offset(blocks, b) + i] == blocks[b][i]
    decreases |blocks|
  {
    var init := blocks[..|blocks| - 1];
    if b < |blocks| - 1 {
      FlattenAt(init, b, i);
      assert init[..b] == blocks[..b];
    }
  }

  lemma {:induction false} OffsetsIncrease<T>(blocks: seq<seq<T>>, b: nat, c: nat)
    requires b < c <= |blocks|
    ensures Offset(blocks, b) + |blocks[b]| <= Offset(blocks, c)
    decreases c
  {
    assert blocks[..c][..c - 1] == blocks[..c - 1];
    if b < c - 1 {
      OffsetsIncrease(blocks, b, c - 1);
    }
  }

  lemma {:induction false} FlattenFind<T(!new)>(blocks: seq<seq<T>>, k: nat) returns (b: nat, i: nat)
    requires k < |Flatten(blocks)|
    ensures At(blocks, b, i) && k == Offset(blocks, b) + i && Flatten(blocks)[k] == blocks[b][i]
    decreases |blocks|
  {
    var n := |blocks| - 1;
    if k < |Flatten(blocks[..n])| {
      b, i := FlattenFind(blocks[..n], k);
      assert blocks[..n][..b] == blocks[..b];
    } else {
      b, i := n, k - |Flatten(blocks[..n])|;
    }
  }

  lemma FlatOrderIsValid(e: Env, blocks: seq<seq<Txid>>, placed: set<Txid>)
    requires ValidEnv(e) && PlacedInOrder(e, Flatten(blocks), placed)
    requires forall t, p :: t in e.txs && p in e.txs[t].inputs && p in e.txs ==> p in e.anc[t]
    ensures TopologicallyValid(e.txs, blocks)
  {
    var s := Flatten(blocks);
    forall b, i, c, j | At(blocks, b, i) && At(blocks, c, j) && blocks[b][i] == blocks[c][j]
      ensures b == c && i == j
    {
      DistinctPositions(blocks, b, i, c, j);
    }
    forall b, i | At(blocks, b, i)
      ensures blocks[b][i] in e.txs
    {
      FlattenAt(blocks, b, i);
    }
    forall b, i, p | At(blocks, b, i) && p in e.txs[blocks[b][i]].inputs && p in e.txs
      ensures exists c, j :: At(blocks, c, j) && blocks[c][j] == p && (c < b || (c == b && j < i))
    {
      FlattenAt(blocks, b, i);
      var k := Offset(blocks, b) + i;
      assert p in Elements(s[..k]);
      var l :| 0 <= l < k && s[l] == p;
      var c, j := FlattenFind(blocks, l);
      if b < c {
        OffsetsIncrease(blocks, b, c);
      }
    }
  }

  lemma DistinctPositions(blocks: seq<seq<Txid>>, b: nat, i: nat, c: nat, j: nat)
    requires Distinct(Flatten(blocks)) && At(blocks, b, i) && At(blocks, c, j) && blocks[b][i] == blocks[c][j]
    ensures b == c && i == j
  {
    FlattenAt(blocks, b, i);
    FlattenAt(blocks, c, j);
    if b < c {
      OffsetsIncrease(blocks, b, c);
    } else if c < b {
      OffsetsIncrease(blocks, c, b);
    }
  }

  lemma ParentsAreAncestors(e: Env, t: Txid, p: Txid)
    requires e.txs.Keys == e.anc.Keys && t in e.txs && p in e.txs[t].inputs && p in e.txs
    requires e.anc[t] == Ancestors(ParentGraph(e.txs), t)
    ensures p in e.anc[t]
  {
    AncestorUnfold(ParentGraph(e.txs), p, t);
  }

  /** The packing theorem: the templates of every acyclic mempool are topologically valid, and exactly the
      placed transactions get an effective rate. */
  lemma TemplatesAreTopologicallyValid(
    txs: Mempool, maxBlocks: nat, weightLimit: nat, arrange: set<Txid> -> seq<Txid>, rate: (nat, nat) -> real,
    arr: seq<Txid>, blocks: seq<seq<Txid>>, rates: map<Txid, real>)
    requires Acyclic(ParentGraph(txs)) && Arranges(arrange)
    requires InitialArray(EnvOf(txs, maxBlocks, weightLimit, arrange, rate), arr)
    requires Produces(EnvOf(txs, maxBlocks, weightLimit, arrange, rate), arr, blocks, rates)
    ensures TopologicallyValid(txs, blocks)
    ensures rates.Keys == Elements(Flatten(blocks))
  {
    hide Iterate, Safe, InitialArray, ValidEnv, Nested, Wf;
    var e := EnvOf(txs, maxBlocks, weightLimit, arrange, rate);
    AcyclicIsNested(txs, e);
    var n: nat :|
      var r := Iterate(e, Init(e, arr), n);
      r.Finished? && blocks == BlocksOf(r.st) && rates == r.st.rates;
    RunIsSafe(e, arr, n);
    FinalOrder(e, Iterate(e, Init(e, arr), n).st);
    forall t, p | t in e.txs && p in e.txs[t].inputs && p in e.txs
      ensures p in e.anc[t]
    {
      ParentsAreAncestors(e, t, p);
    }
    FlatOrderIsValid(e, blocks, rates.Keys);
  }

  lemma FinalOrder(e: Env, st: State)
    requires ValidEnv(e) && Safe(e, st)
    ensures PlacedInOrder(e, Flatten(BlocksOf(st)), st.rates.Keys)
    ensures st.rates.Keys == Elements(Flatten(BlocksOf(st)))
  {
    assert Flatten(BlocksOf(st)) == Order(st);
  }
}
