/** Who is left out of the templates for good, although further blocks would be permitted. */
module TemplateLeftovers {
  import opened Collections
  import opened TxGraph
  import opened TemplateSpec
  import opened TemplateSafety
  import opened TemplateBounds
  import opened TemplateSchedule
  import opened TemplateRates
  import opened TemplateFilling

  // ---- what an empty block refuses ---------------------------------------------------------------------

  /** What was postponed while the block is empty does not fit an empty block. */
  ghost predicate Oversized(e: Env, st: State)
    requires ValidEnv(e) && Wf(e, st)
  {
    st.block == [] ==> forall u <- st.overflow :: !Fits(e, st, u)
  }

  lemma PlaceFills(e: Env, st: State, t: Txid)
    requires ValidEnv(e) && Wf(e, st) && t in e.txs && !Used(st, t)
    ensures Place(e, st, t).block != []
  {
    hide Package, SumSeq, LowerRates, NewlyModified, EffectiveRate, SpentBy, ValidEnv;
    PackageOrder(e, st.rates.Keys, t);
    var pkg := Package(e, st.rates.Keys, t);
    assert t in pkg;
    assert t in Unused(st, pkg);
  }

  lemma CloseIsOversized(e: Env, st: State)
    requires ValidEnv(e) && Wf(e, st) && Oversized(e, st)
    ensures Oversized(e, MaybeClose(e, st).st)
  {
    hide Reinsert, ValidEnv, ShouldClose, Fits;
    ReinsertKeeps(e,
                  st.(blocks := st.blocks + [st.block], block := [], weight := BLOCK_RESERVED_WEIGHT, overflow := []),
                  st.overflow);
  }

  lemma PostponeIsOversized(e: Env, st: State, t: Txid)
    requires ValidEnv(e) && Wf(e, st) && Oversized(e, st) && t in e.txs && !Fits(e, st, t)
    ensures Oversized(e, Postpone(e, st, t))
  {
    hide ValidEnv, PackageVsize;
    var r := Postpone(e, st, t);
    forall u <- r.overflow ensures st.block == [] ==> !Fits(e, r, u) {
      assert u in st.overflow || u == t;
    }
  }

  lemma ConsiderIsOversized(e: Env, st: State, t: Txid)
    requires ValidEnv(e) && Wf(e, st) && Oversized(e, st) && t in e.txs
    ensures Oversized(e, Consider(e, st, t).st)
  {
    hide Package, MaybeClose, Place, Conflicts, ValidEnv, PackageVsize;
    if !Used(st, t) {
      if !Fits(e, st, t) {
        PostponeIsOversized(e, st, t);
        CloseIsOversized(e, Postpone(e, st, t));
      } else if !Conflicts(e.txs, st.spent, Package(e, st.rates.Keys, t)) {
        PlaceFills(e, st, t);
        CloseIsOversized(e, Place(e, st, t));
      }
    }
  }

  lemma TakeIsOversized(e: Env, st: State, top: nat)
    requires ValidEnv(e) && Wf(e, st) && Oversized(e, st) && top <= |st.arr|
    ensures var s := st.(top := top);
            Oversized(e, s) && Oversized(e, Take(e, s))
  {
    hide TakesArray, Best, ValidEnv, Scores, PackageVsize;
  }

  lemma StepIsOversized(e: Env, st: State)
    requires ValidEnv(e) && Wf(e, st) && Oversized(e, st)
    ensures Oversized(e, Step(e, st).st)
  {
    hide SkipTop, Candidate, MaybeClose, Consider, Take, Oversized, ValidEnv;
    var s := st.(top := SkipTop(e, st, st.top));
    TakeIsOversized(e, st, s.top);
    if HasWork(st) {
      match Candidate(e, s)
      case None =>
        CloseIsOversized(e, s);
      case Some(t) =>
        ConsiderIsOversized(e, Take(e, s), t);
    }
  }

  lemma {:induction false} RunIsOversized(e: Env, arr: seq<Txid>, n: nat)
    requires ValidEnv(e) && InitialArray(e, arr)
    ensures Oversized(e, Iterate(e, Init(e, arr), n).st)
  {
    hide Step, InitialArray, ValidEnv, Wf;
    if n > 0 {
      hide Init, Oversized;
      RunIsOversized(e, arr, n - 1);
      var r := Iterate(e, Init(e, arr), n - 1);
      if r.Running? {
        StepIsOversized(e, r.st);
      }
    }
  }

  // ---- how a run ends -------------------------------------------------------------------------------------

  /** The iteration from `st` passed its candidate over without looking whether the block is due: it had been used before,
      or it was dropped. */
  ghost predicate PassesOver(e: Env, st: State, r: State)
    requires ValidEnv(e) && Wf(e, st)
  {
    Chosen(e, st).Some? && (Used(st, Chosen(e, st).value) || Chosen(e, st).value in r.dropped)
  }

  /** A block that stays open has work left, or is the last one; a block just closed leaves nothing postponed. */
  lemma ClosedOrBusy(e: Env, st: State)
    requires ValidEnv(e) && Wf(e, st)
    ensures MaybeClose(e, st).Running? && !HasWork(MaybeClose(e, st).st) ==>
              MaybeClose(e, st).st.overflow == [] || |MaybeClose(e, st).st.blocks| >= Monus(e.maxBlocks, 1)
  {
    hide Reinsert, ValidEnv;
    ReinsertKeeps(e,
                  st.(blocks := st.blocks + [st.block], block := [], weight := BLOCK_RESERVED_WEIGHT, overflow := []),
                  st.overflow);
  }

  lemma StepClosesOrBusy(e: Env, st: State)
    requires ValidEnv(e) && Wf(e, st) && HasWork(st)
    ensures var r := Step(e, st);
            r.Running? && !HasWork(r.st) ==>
              r.st.overflow == [] || |r.st.blocks| >= Monus(e.maxBlocks, 1) || PassesOver(e, st, r.st)
  {
    hide SkipTop, Candidate, MaybeClose, Take, Place, Fits, Conflicts, Package, ValidEnv, HasWork;
    var s := st.(top := SkipTop(e, st, st.top));
    match Candidate(e, s)
    case None =>
      ClosedOrBusy(e, s);
    case Some(t) =>
      var x := Take(e, s);
      TakeKeepsUse(e, s, t);
      ClosedOrBusy(e, Postpone(e, x, t));
      ClosedOrBusy(e, Place(e, x, t));
  }

  /** Why the loop breaks off: on an empty block, with nothing at hand or after too many failures. */
  lemma BreaksOff(e: Env, st: State)
    requires ValidEnv(e) && Nested(e) && Wf(e, st) && HasWork(st) && Step(e, st).Finished?
    ensures var r := Step(e, st).st;
            r.block == [] && |r.blocks| < Monus(e.maxBlocks, 1) &&
            (!HasWork(r) || (r.failures > 1000 && r.weight > Monus(e.weightLimit, 4000)))
  {
    hide SkipTop, Candidate, CloseBlock, Take, Place, Fits, Conflicts, Package, ValidEnv, Nested;
    var s := st.(top := SkipTop(e, st, st.top));
    if Candidate(e, s).Some? && !Used(Take(e, s), Candidate(e, s).value) {
      PlaceFills(e, Take(e, s), Candidate(e, s).value);
    }
  }

  lemma UnusedDoesNotFit(e: Env, st: State, u: Txid)
    requires ValidEnv(e) && Nested(e) && Packed(e, st) && Scheduled(e, st) && Oversized(e, st)
    requires u in e.txs && !Used(st, u) && !HasWork(st) && st.block == []
    ensures Known(e, st.block) && !HasRoom(e, st, u)
  {
    hide Fits, HasRoom, Light;
    NothingIsLost(e, st, u);
    FitsIsRoom(e, st, u);
  }

  lemma EmptyWeighs(e: Env, st: State)
    requires Packed(e, st) && st.block == []
    ensures st.weight == 4000
  {
    hide Light;
  }

  /** Why a transaction is in none of the finished templates, if it was not dropped for a conflict: it does not fit an
      empty block; or more than a thousand candidates in a row failed on an empty block that has no room beyond the
      reserved weight; or the last iteration passed its candidate over and so never looked whether a further block is due. */
  lemma LeftOutOnlyIf(e: Env, arr: seq<Txid>, n: nat, u: Txid)
    requires ValidEnv(e) && Nested(e) && InitialArray(e, arr) && u in e.txs
    requires Iterate(e, Init(e, arr), n).Running? && Iterate(e, Init(e, arr), n + 1).Finished?
    requires !Used(Iterate(e, Init(e, arr), n + 1).st, u)
    ensures var st := Iterate(e, Init(e, arr), n + 1).st;
            || (st.block == [] && !HasRoom(e, st, u))
            || (st.block == [] && FailCount(e, arr, n + 1) > 1000 && 4000 > Monus(e.weightLimit, 4000))
            || (n > 0 && PassesOver(e, Iterate(e, Init(e, arr), n - 1).st, st))
  {
    hide Step, InitialArray, Init, ValidEnv, Nested, Packed, Scheduled, Bounded, Wf, HasRoom, FailCount, PassesOver, Oversized;
    var st := Iterate(e, Init(e, arr), n).st;
    RunIsBounded(e, arr, n + 1);
    BoundedIsPacked(e, Iterate(e, Init(e, arr), n + 1).st);
    RunIsScheduled(e, arr, n + 1);
    RunIsOversized(e, arr, n + 1);
    FailuresAreCounted(e, arr, n + 1);
    if HasWork(st) {
      BreaksOff(e, st);
      var r := Step(e, st).st;
      if HasWork(r) {
        EmptyWeighs(e, r);
      } else {
        UnusedDoesNotFit(e, r, u);
      }
    } else {
      EndsAtRest(e, st);
      NothingIsLost(e, st, u);
      if n == 0 {
        InitHasNothing(e, arr);
      } else {
        StoppedBefore(e, arr, n);
      }
    }
  }

  lemma EndsAtRest(e: Env, st: State)
    requires ValidEnv(e) && Wf(e, st) && !HasWork(st)
    ensures Step(e, st) == Finished(st)
  {
  }

  lemma InitHasNothing(e: Env, arr: seq<Txid>)
    requires ValidEnv(e) && InitialArray(e, arr)
    ensures Init(e, arr).overflow == []
  {
  }

  lemma StoppedBefore(e: Env, arr: seq<Txid>, n: nat)
    requires ValidEnv(e) && InitialArray(e, arr) && n > 0
    requires Iterate(e, Init(e, arr), n).Running? && !HasWork(Iterate(e, Init(e, arr), n).st)
    ensures var st := Iterate(e, Init(e, arr), n).st;
            st.overflow == [] || |st.blocks| >= Monus(e.maxBlocks, 1) || PassesOver(e, Iterate(e, Init(e, arr), n - 1).st, st)
  {
    hide Step, InitialArray, Init, ValidEnv, Wf, PassesOver, HasWork;
    var before := Iterate(e, Init(e, arr), n - 1);
    assert before.Running?;
    RunningHadWorkBefore(e, before.st);
    StepClosesOrBusy(e, before.st);
  }

  lemma RunningHadWorkBefore(e: Env, st: State)
    requires ValidEnv(e) && Wf(e, st) && Step(e, st).Running?
    ensures HasWork(st)
  {
  }

  // ---- a transaction that is forgotten --------------------------------------------------------------------

  const SHARED := OutPoint(9, 0)

  /** Three unrelated transactions; the first and the last spend the same outpoint. */
  function Three(): Mempool {
    map[1 := MempoolTx(30, 1, 4, 30.0, [], [SHARED]),
        2 := MempoolTx(100, 10, 40, 10.0, [], []),
        3 := MempoolTx(1, 1, 4, 1.0, [], [SHARED])]
  }

  function Quotient(fee: nat, size: nat): real {
    if size == 0 then 0.0 else fee as real / size as real
  }

  /** What matters of a run over the three. */
  ghost predicate IsThree(e: Env)
    requires ValidEnv(e)
  {
    && e.txs.Keys == {1, 2, 3} && e.maxBlocks == 3 && e.weightLimit == 4044
    && e.txs[1] == MempoolTx(30, 1, 4, 30.0, [], [SHARED])
    && e.txs[2] == MempoolTx(100, 10, 40, 10.0, [], [])
    && e.txs[3] == MempoolTx(1, 1, 4, 1.0, [], [SHARED])
    && (forall t <- e.txs :: e.anc[t] == {})
    && e.rate(30, 1) == 30.0 && e.rate(100, 10) == 10.0 && e.rate(1, 1) == 1.0
  }

  lemma ThreeAre(arrange: set<Txid> -> seq<Txid>)
    requires Arranges(arrange)
    ensures IsThree(EnvOf(Three(), 3, 4044, arrange, Quotient))
  {
    var e := EnvOf(Three(), 3, 4044, arrange, Quotient);
    forall t <- Three() ensures e.anc[t] == {} {
      Unrelated(t);
    }
  }

  lemma Unrelated(t: Txid)
    requires t in Three()
    ensures Ancestors(ParentGraph(Three()), t) == {}
  {
    var g := ParentGraph(Three());
    assert g[t] == {};
    forall a ensures !IsAncestor(g, a, t) {
      AncestorUnfold(g, a, t);
    }
  }

  /** Without ancestors a package is the transaction alone. */
  lemma LonePackage(e: Env, placed: set<Txid>, t: Txid)
    requires ValidEnv(e) && t in e.txs && e.anc[t] == {}
    ensures Package(e, placed, t) == [t] && Score(e, placed, t) == e.rate(e.txs[t].feeSat, AdjustedVsize(e.txs[t]))
    ensures PackageVsize(e, placed, t) == AdjustedVsize(e.txs[t]) && !Modified(e, placed, t)
  {
    assert Remaining(e, placed, t) == {};
    var members := e.arrange({});
    assert |members| == |multiset(members)| == 0;
  }

  lemma ThreeFacts(e: Env)
    requires ValidEnv(e) && IsThree(e)
    ensures e.txs.Keys == {1, 2, 3} && e.maxBlocks == 3 && e.weightLimit == 4044
    ensures AdjustedVsize(e.txs[1]) == 1 && AdjustedVsize(e.txs[2]) == 10 && AdjustedVsize(e.txs[3]) == 1
    ensures e.anc[1] == e.anc[2] == e.anc[3] == {}
  {
  }

  lemma ThreeScore(e: Env, placed: set<Txid>, t: Txid)
    requires ValidEnv(e) && IsThree(e) && t in e.txs
    ensures Score(e, placed, t) == if t == 1 then 30.0 else if t == 2 then 10.0 else 1.0
  {
    hide ValidEnv, Score;
    LonePackage(e, placed, t);
  }

  ghost function At(top: nat, overflow: seq<Txid>, failures: nat, block: seq<Txid>, dropped: set<Txid>): State {
    State([1, 2, 3], top, multiset{}, overflow, failures, [], block, if block == [] then 4000 else 4004,
          if block == [] then {} else {SHARED}, if block == [] then map[] else map[1 := 30.0], dropped, OwnRates())
  }

  function OwnRates(): (rates: map<Txid, real>)
    ensures rates.Keys == {1, 2, 3}
  {
    map[1 := 30.0, 2 := 10.0, 3 := 1.0]
  }

  lemma ThreeInit(e: Env)
    requires ValidEnv(e) && IsThree(e)
    ensures InitialArray(e, [1, 2, 3]) && Init(e, [1, 2, 3]) == At(0, [], 0, [], {})
  {
    hide ValidEnv, Score;
    ThreeFacts(e);
    var arr := [1, 2, 3];
    assert multiset(arr) == multiset({1, 2, 3});
    forall i, j | 0 <= i < j < |arr| ensures Before(Scores(e, {}), arr[i], arr[j]) {
      ThreeScore(e, {}, arr[i]);
      ThreeScore(e, {}, arr[j]);
    }
    assert Init(e, arr).dep == At(0, [], 0, [], {}).dep;
  }

  /** The next slot of the array is taken as it stands. */
  lemma NextSlot(e: Env, st: State)
    requires ValidEnv(e) && Wf(e, st) && st.queue == multiset{} && st.top < |st.arr| && !Used(st, st.arr[st.top])
    requires !Modified(e, st.rates.Keys, st.arr[st.top])
    ensures Step(e, st) == Consider(e, st.(top := st.top + 1), st.arr[st.top])
  {
    hide Consider, ValidEnv, Modified, Used, Best, Scores;
    assert SkipTop(e, st, st.top) == st.top;
    assert st.(top := st.top) == st;
  }

  lemma FirstIsPlaced(e: Env)
    requires ValidEnv(e) && IsThree(e)
    ensures Wf(e, At(0, [], 0, [], {})) && Step(e, At(0, [], 0, [], {})) == Running(At(1, [], 0, [1], {}))
  {
    hide ValidEnv, PlaceMembers, Package, Score, PackageVsize, Modified, MaybeClose, Conflicts, Step, OwnRates, IsThree, AdjustedVsize;
    ThreeFacts(e);
    var st, s := At(0, [], 0, [], {}), At(1, [], 0, [], {});
    LonePackage(e, st.rates.Keys, 1);
    NextSlot(e, st);
    ThreeScore(e, st.rates.Keys, 1);
    FirstRate();
    ThirdConflicts(e);
    OneUnused(s);
    PlacedAlone(e);
    assert Place(e, s, 1) == At(1, [], 0, [1], {});
    NotDue(e, Place(e, s, 1));
  }

  lemma FirstRate()
    ensures OwnRates()[1] == 30.0
  {
  }

  lemma OneUnused(s: State)
    requires s == At(1, [], 0, [], {})
    ensures Unused(s, [1]) == [1]
  {
    assert [1][..0] == [];
  }

  lemma PlacedAlone(e: Env)
    requires ValidEnv(e) && IsThree(e)
    ensures Wf(e, At(1, [], 0, [], {})) && Elements([1]) <= e.txs.Keys
    ensures PlaceMembers(e, At(1, [], 0, [], {}), [1], 30.0) == At(1, [], 0, [1], {})
  {
    hide ValidEnv, PlaceMembers, OwnRates, IsThree, Weights, SumSeq, SpentBy, NewlyModified, LowerRates;
    ThreeFacts(e);
    var s := At(1, [], 0, [], {});
    WeightOfFirst(e);
    SpentByFirst(e);
    NoneModified(e, s.rates.Keys, Elements([1]), s.dep, 30.0);
    PlacedSimply(e, s, [1], 30.0);
    RatesOfFirst();
    assert {} + {SHARED} == {SHARED};
  }

  lemma RatesOfFirst()
    ensures map[] + (map x: Txid | x in Elements([1]) :: 30.0) == map[1 := 30.0]
  {
  }

  /** Placing where nothing becomes modified. */
  lemma PlacedSimply(e: Env, st: State, more: seq<Txid>, rate: real)
    requires ValidEnv(e) && Wf(e, st) && Elements(more) <= e.txs.Keys
    requires NewlyModified(e, st.rates.Keys, Elements(more)) == {} && LowerRates(e, st.dep, Elements(more), rate) == st.dep
    ensures PlaceMembers(e, st, more, rate) ==
            st.(failures := 0, block := st.block + more, weight := st.weight + SumSeq(Weights(e), more),
                spent := st.spent + SpentBy(e.txs, Elements(more)), rates := st.rates + (map x | x in Elements(more) :: rate))
  {
    hide ValidEnv, SumSeq, Weights, SpentBy, LowerRates, NewlyModified;
    assert multiset(NewlyModified(e, st.rates.Keys, Elements(more))) == multiset{};
  }

  lemma WeightOfFirst(e: Env)
    requires ValidEnv(e) && IsThree(e)
    ensures Elements([1]) <= e.txs.Keys && SumSeq(Weights(e), [1]) == 4
  {
    assert [1][..0] == [];
  }

  lemma SpentByFirst(e: Env)
    requires ValidEnv(e) && IsThree(e)
    ensures Elements([1]) <= e.txs.Keys && SpentBy(e.txs, Elements([1])) == {SHARED}
  {
    assert Elements([1]) == {1};
    var txs := e.txs;
    assert txs[1].spent == [SHARED];
    assert 1 in {1} && txs[1].spent[0] == SHARED && SHARED in txs[1].spent;
    assert forall x, o :: x in {1} && o in txs[x].spent ==> o == SHARED;
  }

  lemma NoneModified(e: Env, placed: set<Txid>, more: set<Txid>, dep: map<Txid, real>, rate: real)
    requires ValidEnv(e) && IsThree(e) && dep.Keys == e.txs.Keys
    ensures NewlyModified(e, placed, more) == {} && LowerRates(e, dep, more, rate) == dep
  {
  }

  lemma SecondIsPostponed(e: Env)
    requires ValidEnv(e) && IsThree(e)
    ensures Wf(e, At(1, [], 0, [1], {})) && Step(e, At(1, [], 0, [1], {})) == Running(At(2, [2], 1, [1], {}))
  {
    hide ValidEnv, Package, Score, PackageVsize, Modified, MaybeClose, Place, Conflicts, Step, OwnRates, IsThree, AdjustedVsize;
    ThreeFacts(e);
    var st := At(1, [], 0, [1], {});
    assert st.rates.Keys == {1};
    LonePackage(e, st.rates.Keys, 2);
    NextSlot(e, st);
    var s := st.(top := 2);
    assert !Fits(e, s, 2);
    NotDue(e, Postpone(e, s, 2));
    assert Postpone(e, s, 2) == At(2, [2], 1, [1], {});
  }

  lemma NotDue(e: Env, st: State)
    requires ValidEnv(e) && Wf(e, st) && st.failures <= 1000 && st.top < |st.arr|
    ensures MaybeClose(e, st) == Running(st)
  {
  }

  lemma ThirdIsDropped(e: Env)
    requires ValidEnv(e) && IsThree(e)
    ensures Wf(e, At(2, [2], 1, [1], {})) && Step(e, At(2, [2], 1, [1], {})) == Running(At(3, [2], 2, [1], {3}))
  {
    hide ValidEnv, Package, Score, PackageVsize, Modified, MaybeClose, Place, Conflicts, Step, OwnRates, IsThree, AdjustedVsize;
    ThreeFacts(e);
    var st := At(2, [2], 1, [1], {});
    assert st.rates.Keys == {1};
    LonePackage(e, st.rates.Keys, 3);
    NextSlot(e, st);
    var s := st.(top := 3);
    assert Fits(e, s, 3);
    assert Drop(e, s, 3) == At(3, [2], 2, [1], {3});
    ThirdConflicts(e);
  }

  lemma ThirdConflicts(e: Env)
    requires ValidEnv(e) && IsThree(e)
    ensures Conflicts(e.txs, {SHARED}, [3]) && !Conflicts(e.txs, {}, [1])
  {
    var txs := e.txs;
    assert txs[3].spent == [SHARED];
    assert 3 in [3] && txs[3].spent[0] == SHARED && SHARED in txs[3].spent;
  }

  /** The first transaction is placed, the second waits for a further block, the third conflicts with the first; with
      that the array is used up and the run ends. The second is in no block, although two more are permitted and it
      fits an empty one. */
  lemma PostponedIsForgotten(arrange: set<Txid> -> seq<Txid>)
    requires Arranges(arrange)
    ensures var e := EnvOf(Three(), 3, 4044, arrange, Quotient);
            && InitialArray(e, [1, 2, 3]) && Produces(e, [1, 2, 3], [[1]], map[1 := 30.0])
            && HasRoom(e, Init(e, [1, 2, 3]), 2)
  {
    hide ValidEnv, Step, InitialArray, HasRoom;
    var e := EnvOf(Three(), 3, 4044, arrange, Quotient);
    ThreeAre(arrange);
    ThreeInit(e);
    SecondHasRoom(e);
    FirstIsPlaced(e);
    SecondIsPostponed(e);
    ThirdIsDropped(e);
    ThreeRounds(e);
  }

  lemma SecondHasRoom(e: Env)
    requires ValidEnv(e) && IsThree(e)
    ensures HasRoom(e, At(0, [], 0, [], {}), 2)
  {
    hide ValidEnv, Package, Score, Modified;
    var st := At(0, [], 0, [], {});
    LonePackage(e, {}, 2);
    assert st.rates.Keys == {};
    assert [2][..0] == [] && SumSeq(SizesOf(e.txs), [2]) == 10;
  }

  lemma ThreeRounds(e: Env)
    requires ValidEnv(e) && InitialArray(e, [1, 2, 3]) && Init(e, [1, 2, 3]) == At(0, [], 0, [], {})
    requires Wf(e, At(0, [], 0, [], {})) && Step(e, At(0, [], 0, [], {})) == Running(At(1, [], 0, [1], {}))
    requires Wf(e, At(1, [], 0, [1], {})) && Step(e, At(1, [], 0, [1], {})) == Running(At(2, [2], 1, [1], {}))
    requires Wf(e, At(2, [2], 1, [1], {})) && Step(e, At(2, [2], 1, [1], {})) == Running(At(3, [2], 2, [1], {3}))
    ensures Produces(e, [1, 2, 3], [[1]], map[1 := 30.0])
  {
    hide Step, InitialArray, ValidEnv, Init, Wf;
    var start, last := At(0, [], 0, [], {}), At(3, [2], 2, [1], {3});
    assert Iterate(e, start, 0) == Running(start);
    assert Iterate(e, start, 1) == Running(At(1, [], 0, [1], {}));
    assert Iterate(e, start, 2) == Running(At(2, [2], 1, [1], {}));
    assert Iterate(e, start, 3) == Running(last);
    EndsAtRest(e, last);
    assert Iterate(e, start, 4) == Finished(last);
  }
}
