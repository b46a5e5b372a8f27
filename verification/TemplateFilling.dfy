/** When a transaction has to wait for a later block, and when a block is closed: told in the numbers of the mempool and of
    the run. */
module TemplateFilling {
  import opened Collections
  import opened TxGraph
  import opened TemplateSpec
  import opened TemplateSafety
  import opened TemplateBounds
  import opened TemplateSchedule
  import opened TemplateRates

  /** The candidate an iteration considers. */
  ghost function Chosen(e: Env, st: State): Option<Txid>
    requires ValidEnv(e) && Wf(e, st)
  {
    Candidate(e, st.(top := SkipTop(e, st, st.top)))
  }

  /** There is no later block, or the block stays below the limit with four times the size of everything in the package
      added to it. */
  ghost predicate HasRoom(e: Env, st: State, t: Txid)
    requires ValidEnv(e) && t in e.txs && Known(e, st.block)
  {
    || |st.blocks| >= Monus(e.maxBlocks, 1)
    || 4000 + SumSeq(WeightsOf(e.txs), st.block) + 4 * SumSeq(SizesOf(e.txs), Package(e, st.rates.Keys, t)) < e.weightLimit
  }

  lemma FitsIsRoom(e: Env, st: State, t: Txid)
    requires ValidEnv(e) && Nested(e) && Wf(e, st) && Packed(e, st) && t in e.txs
    ensures Fits(e, st, t) <==> HasRoom(e, st, t)
  {
    hide Package, SumSeq, SumOver, Remaining, Nested, ValidEnv, Light;
    Literally(e);
    SumOfPackage(e, st.rates.Keys, t, SizesOf(e.txs));
    AncestorsOfAll(e);
  }

  lemma TakeIsPacked(e: Env, st: State)
    requires ValidEnv(e) && Wf(e, st) && Packed(e, st)
    ensures var s := st.(top := SkipTop(e, st, st.top));
            && Packed(e, s) && Packed(e, Take(e, s))
            && Take(e, s) == st.(top := Take(e, s).top, queue := Take(e, s).queue)
  {
    hide SkipTop, TakesArray, Best, Light, Scores;
  }

  lemma ConsiderSettles(e: Env, st: State, t: Txid)
    requires ValidEnv(e) && Wf(e, st) && t in e.txs && !Used(st, t)
    ensures Used(Consider(e, st, t).st, t) <==> Fits(e, st, t)
  {
    hide Fits, Conflicts, Package, Unused, Reinsert, SumSeq, LowerRates, NewlyModified, EffectiveRate, Score, SpentBy;
    SettledByPlacing(e, st, t);
    var p, q := Postpone(e, st, t), Place(e, st, t);
    CloseKeepsUse(e, p, t);
    CloseKeepsUse(e, q, t);
  }

  lemma SettledByPlacing(e: Env, st: State, t: Txid)
    requires ValidEnv(e) && Wf(e, st) && t in e.txs && !Used(st, t)
    ensures t in Place(e, st, t).rates
  {
    hide Package, Unused, SumSeq, LowerRates, NewlyModified, EffectiveRate, SpentBy;
    PackageOrder(e, st.rates.Keys, t);
    var pkg := Package(e, st.rates.Keys, t);
    assert t in pkg;
    assert t in Unused(st, pkg);
  }

  lemma CloseKeepsUse(e: Env, st: State, t: Txid)
    requires ValidEnv(e) && Wf(e, st)
    ensures Used(MaybeClose(e, st).st, t) <==> Used(st, t)
  {
    hide Reinsert, ValidEnv, ShouldClose;
    ReinsertKeeps(e,
                  st.(blocks := st.blocks + [st.block], block := [], weight := BLOCK_RESERVED_WEIGHT, overflow := []),
                  st.overflow);
  }

  lemma StepSettles(e: Env, st: State, t: Txid)
    requires ValidEnv(e) && Nested(e) && Wf(e, st) && Packed(e, st) && HasWork(st) && Chosen(e, st) == Some(t) && !Used(st, t)
    ensures Used(Step(e, st).st, t) <==> HasRoom(e, st, t)
  {
    hide SkipTop, Candidate, Consider, Take, Packed, Fits, Nested, ValidEnv, SumSeq, Package;
    var s := st.(top := SkipTop(e, st, st.top));
    TakeIsPacked(e, st);
    ConsiderSettles(e, Take(e, s), t);
    FitsIsRoom(e, Take(e, s), t);
    PackedIsKnown(e, st);
  }

  lemma PackedIsKnown(e: Env, st: State)
    requires Packed(e, st)
    ensures Known(e, st.block)
  {
  }

  /** In every run, an unused candidate is settled, that is placed or dropped, exactly if there is room for its package;
      otherwise it waits for a later block. */
  lemma CandidateIsSettledIff(e: Env, arr: seq<Txid>, n: nat, t: Txid)
    requires ValidEnv(e) && Nested(e) && InitialArray(e, arr)
    requires var st := Iterate(e, Init(e, arr), n).st;
             Iterate(e, Init(e, arr), n).Running? && HasWork(st) && Chosen(e, st) == Some(t) && !Used(st, t)
    ensures Known(e, Iterate(e, Init(e, arr), n).st.block)
    ensures Used(Iterate(e, Init(e, arr), n + 1).st, t) <==> HasRoom(e, Iterate(e, Init(e, arr), n).st, t)
  {
    hide Step, InitialArray, Init, Nested, ValidEnv, Wf, Bounded, HasRoom, Packed;
    RunIsBounded(e, arr, n);
    BoundedIsPacked(e, Iterate(e, Init(e, arr), n).st);
    PackedIsKnown(e, Iterate(e, Init(e, arr), n).st);
    StepSettles(e, Iterate(e, Init(e, arr), n).st, t);
  }

  lemma BoundedIsPacked(e: Env, st: State)
    requires ValidEnv(e) && Wf(e, st) && Bounded(e, st)
    ensures Packed(e, st)
  {
  }

  // ---- closing a block -------------------------------------------------------------------------------------

  /** An iteration that fails once more places nothing. */
  lemma StepFails(e: Env, st: State)
    requires ValidEnv(e) && Wf(e, st)
    ensures var r := Step(e, st).st;
            r.failures == 0 || (r.failures <= st.failures + 1 && r.rates == st.rates)
  {
    hide SkipTop, Candidate, Consider, Take, MaybeClose;
    var s := st.(top := SkipTop(e, st, st.top));
    CloseKeepsFailures(e, s);
    if HasWork(st) && Candidate(e, s).Some? {
      TakeKeepsFailures(e, s);
      ConsiderFails(e, Take(e, s), Candidate(e, s).value);
    }
  }

  lemma TakeKeepsFailures(e: Env, st: State)
    requires ValidEnv(e) && Wf(e, st)
    ensures Take(e, st).failures == st.failures && Take(e, st).rates == st.rates
  {
    hide TakesArray, Best, Scores, ValidEnv;
  }

  lemma CloseKeepsFailures(e: Env, st: State)
    requires ValidEnv(e) && Wf(e, st)
    ensures MaybeClose(e, st).st.failures == st.failures && MaybeClose(e, st).st.rates == st.rates
  {
    hide Reinsert, ValidEnv, ShouldClose;
    ReinsertKeeps(e,
                  st.(blocks := st.blocks + [st.block], block := [], weight := BLOCK_RESERVED_WEIGHT, overflow := []),
                  st.overflow);
  }

  lemma ConsiderFails(e: Env, st: State, t: Txid)
    requires ValidEnv(e) && Wf(e, st) && t in e.txs
    ensures var r := Consider(e, st, t).st;
            r.failures == 0 || (r.failures <= st.failures + 1 && r.rates == st.rates)
  {
    hide MaybeClose, Fits, Conflicts, Package, Unused, SumSeq, LowerRates, NewlyModified, EffectiveRate, SpentBy, ValidEnv;
    CloseKeepsFailures(e, Postpone(e, st, t));
    CloseKeepsFailures(e, Place(e, st, t));
  }

  /** Failures are counted since the last placement: so many iterations placed nothing. */
  lemma {:induction false} FailuresPlaceNothing(e: Env, arr: seq<Txid>, n: nat, j: nat)
    requires ValidEnv(e) && InitialArray(e, arr) && j <= Iterate(e, Init(e, arr), n).st.failures
    ensures j <= n && Iterate(e, Init(e, arr), n - j).st.rates == Iterate(e, Init(e, arr), n).st.rates
    decreases n
  {
    hide Step, InitialArray, ValidEnv, Wf;
    if j > 0 && n > 0 {
      hide Init;
      var r := Iterate(e, Init(e, arr), n - 1);
      if r.Running? {
        StepFails(e, r.st);
        FailuresPlaceNothing(e, arr, n - 1, j - 1);
      } else {
        FailuresPlaceNothing(e, arr, n - 1, j);
        FailuresPlaceNothing(e, arr, n - 1, j - 1);
      }
    }
  }

  /** Every transaction is placed, dropped or postponed. */
  ghost predicate Exhausted(e: Env, st: State, postponed: set<Txid>) {
    forall u <- e.txs :: Used(st, u) || u in postponed
  }

  /** More than a thousand failures in a row, and no more than the reserved weight left in the block just closed. */
  ghost predicate Tired(e: Env, st: State) {
    && st.failures > 1000 && st.blocks != [] && Known(e, st.blocks[|st.blocks| - 1])
    && 4000 + SumSeq(WeightsOf(e.txs), st.blocks[|st.blocks| - 1]) > Monus(e.weightLimit, 4000)
  }

  ghost predicate ClosesFor(e: Env, st: State, r: State, postponed: set<Txid>) {
    |r.blocks| > |st.blocks| ==> Exhausted(e, r, postponed) || Tired(e, r)
  }

  lemma CloseNeeds(e: Env, st: State)
    requires ValidEnv(e) && Wf(e, st) && Packed(e, st) && Scheduled(e, st)
    ensures ClosesFor(e, st, MaybeClose(e, st).st, Elements(st.overflow))
  {
    hide Reinsert, ValidEnv, Light, Scheduled, SumSeq, WeightsOf;
    var r := MaybeClose(e, st).st;
    ReinsertKeeps(e,
                  st.(blocks := st.blocks + [st.block], block := [], weight := BLOCK_RESERVED_WEIGHT, overflow := []),
                  st.overflow);
    if !HasWork(st) {
      forall u <- e.txs ensures Used(r, u) || u in Elements(st.overflow) {
        NothingIsLost(e, st, u);
      }
    }
  }

  lemma ConsiderCloses(e: Env, st: State, t: Txid)
    requires ValidEnv(e) && Nested(e) && Wf(e, st) && Safe(e, st) && Packed(e, st) && Taken(e, st, t)
    ensures ClosesFor(e, st, Consider(e, st, t).st, Elements(st.overflow) + {t})
  {
    hide Package, MaybeClose, Place, Conflicts, Scheduled, Accounted, Ordered, PackageVsize, Light, ValidEnv, Nested, Safe, Taken, Exhausted, Tired;
    TakenIs(e, st, t);
    if !Used(st, t) {
      if !Fits(e, st, t) {
        PostponeSchedules(e, st, t);
        CloseNeeds(e, Postpone(e, st, t));
        assert Elements(Postpone(e, st, t).overflow) == Elements(st.overflow) + {t};
      } else if !Conflicts(e.txs, st.spent, Package(e, st.rates.Keys, t)) {
        PlaceSchedules(e, st, t);
        PlaceIsPacked(e, st, t);
        CloseNeeds(e, Place(e, st, t));
        PlaceKeepsBlocks(e, st, t);
        MorePostponed(e, MaybeClose(e, Place(e, st, t)).st, Elements(st.overflow), Elements(st.overflow) + {t});
      }
    }
  }

  lemma TakenIs(e: Env, st: State, t: Txid)
    requires ValidEnv(e) && Taken(e, st, t)
    ensures t in e.txs
  {
  }

  lemma PlaceKeepsBlocks(e: Env, st: State, t: Txid)
    requires ValidEnv(e) && Wf(e, st) && t in e.txs
    ensures Place(e, st, t).blocks == st.blocks && Place(e, st, t).overflow == st.overflow
  {
    hide Package, Unused, SumSeq, LowerRates, NewlyModified, EffectiveRate, SpentBy, ValidEnv;
  }

  lemma MorePostponed(e: Env, st: State, a: set<Txid>, b: set<Txid>)
    requires a <= b
    ensures Exhausted(e, st, a) ==> Exhausted(e, st, b)
  {
  }

  lemma StepCloses(e: Env, st: State)
    requires ValidEnv(e) && Nested(e) && Wf(e, st) && Safe(e, st) && Packed(e, st) && Scheduled(e, st)
    ensures ClosesFor(e, st, Step(e, st).st, Elements(st.overflow) + (if Chosen(e, st).Some? then {Chosen(e, st).value} else {}))
  {
    hide SkipTop, Candidate, MaybeClose, Consider, Take, Accounted, Ordered, Taken, ValidEnv, Nested, Safe, Packed, Scheduled, Exhausted, Tired, Elements;
    SkipKeeps(e, st);
    SkippedSlots(e, st, st.top);
    var s := st.(top := SkipTop(e, st, st.top));
    TakeIsPacked(e, st);
    SafeStays(e, st, s.top);
    if HasWork(st) {
      match Candidate(e, s)
      case None =>
        CloseNeeds(e, s);
        MorePostponed(e, MaybeClose(e, s).st, Elements(st.overflow), Elements(st.overflow) + {});
      case Some(t) =>
        TakeSchedules(e, s, t);
        ConsiderCloses(e, Take(e, s), t);
    }
  }

  lemma SafeStays(e: Env, st: State, top: nat)
    requires ValidEnv(e) && Wf(e, st) && Safe(e, st) && top <= |st.arr|
    ensures var s := st.(top := top);
            Safe(e, s) && Safe(e, Take(e, s))
  {
    hide TakesArray, Best, Hopeless, PlacedInOrder, ValidEnv, Scores;
  }

  /** In every run, a block is closed before the last permitted one only when every transaction is placed, dropped or
      postponed, or when the last 1001 iterations placed nothing and the block has no more than the reserved weight left. */
  lemma BlocksCloseOnlyIf(e: Env, arr: seq<Txid>, n: nat)
    requires ValidEnv(e) && Nested(e) && InitialArray(e, arr) && Iterate(e, Init(e, arr), n).Running?
    requires |Iterate(e, Init(e, arr), n + 1).st.blocks| > |Iterate(e, Init(e, arr), n).st.blocks|
    ensures var st, r := Iterate(e, Init(e, arr), n).st, Iterate(e, Init(e, arr), n + 1).st;
            || Exhausted(e, r, Elements(st.overflow) + (if Chosen(e, st).Some? then {Chosen(e, st).value} else {}))
            || (&& n >= 1000 && Iterate(e, Init(e, arr), n - 1000).st.rates == r.rates
                && Known(e, r.blocks[|r.blocks| - 1])
                && 4000 + SumSeq(WeightsOf(e.txs), r.blocks[|r.blocks| - 1]) > Monus(e.weightLimit, 4000))
  {
    hide Step, InitialArray, Init, ValidEnv, Nested, Safe, Packed, Scheduled, Bounded, Wf, Exhausted, Elements, Chosen;
    var st := Iterate(e, Init(e, arr), n).st;
    RunIsSafe(e, arr, n);
    RunIsBounded(e, arr, n);
    BoundedIsPacked(e, st);
    RunIsScheduled(e, arr, n);
    StepCloses(e, st);
    if Tired(e, Step(e, st).st) {
      FailuresPlaceNothing(e, arr, n + 1, 1001);
    }
  }

  // ---- staying open -----------------------------------------------------------------------------------------

  /** How many iterations in a row, up to `n`, considered a candidate and did not place it. */
  ghost function FailCount(e: Env, arr: seq<Txid>, n: nat): nat
    requires ValidEnv(e) && InitialArray(e, arr)
  {
    if n == 0 then 0
    else
      var r, r' := Iterate(e, Init(e, arr), n - 1), Iterate(e, Init(e, arr), n);
      if r.Finished? || !HasWork(r.st) || Chosen(e, r.st).None? || Used(r.st, Chosen(e, r.st).value) then FailCount(e, arr, n - 1)
      else if Chosen(e, r.st).value in r'.st.rates then 0
      else FailCount(e, arr, n - 1) + 1
  }

  lemma ConsiderCounts(e: Env, st: State, t: Txid)
    requires ValidEnv(e) && Wf(e, st) && t in e.txs
    ensures var r := Consider(e, st, t).st;
            if Used(st, t) then r == st
            else r.failures == (if t in r.rates then 0 else st.failures + 1)
  {
    hide MaybeClose, Fits, Conflicts, Package, Unused, SumSeq, LowerRates, NewlyModified, EffectiveRate, SpentBy, ValidEnv;
    if !Used(st, t) {
      CloseKeepsFailures(e, Postpone(e, st, t));
      CloseKeepsFailures(e, Place(e, st, t));
      SettledByPlacing(e, st, t);
    }
  }

  lemma StepCounts(e: Env, st: State)
    requires ValidEnv(e) && Wf(e, st)
    ensures var r := Step(e, st).st;
            if !HasWork(st) || Chosen(e, st).None? || Used(st, Chosen(e, st).value) then r.failures == st.failures
            else r.failures == if Chosen(e, st).value in r.rates then 0 else st.failures + 1
  {
    hide SkipTop, Candidate, Consider, Take, MaybeClose, ValidEnv;
    var s := st.(top := SkipTop(e, st, st.top));
    CloseKeepsFailures(e, s);
    if HasWork(st) && Candidate(e, s).Some? {
      TakeKeepsUse(e, s, Candidate(e, s).value);
      ConsiderCounts(e, Take(e, s), Candidate(e, s).value);
    }
  }

  lemma TakeKeepsUse(e: Env, st: State, t: Txid)
    requires ValidEnv(e) && Wf(e, st)
    ensures Take(e, st).failures == st.failures && (Used(Take(e, st), t) <==> Used(st, t))
  {
    hide TakesArray, Best, Scores, ValidEnv;
  }

  lemma {:induction false} FailuresAreCounted(e: Env, arr: seq<Txid>, n: nat)
    requires ValidEnv(e) && InitialArray(e, arr)
    ensures Iterate(e, Init(e, arr), n).st.failures == FailCount(e, arr, n)
  {
    hide Step, InitialArray, ValidEnv, Wf, Chosen;
    if n > 0 {
      hide Init;
      FailuresAreCounted(e, arr, n - 1);
      var r := Iterate(e, Init(e, arr), n - 1);
      if r.Running? {
        StepCounts(e, r.st);
      }
    }
  }

  /** Whatever stays open may: it is the last permitted block, or there were not more than a thousand failures, or the
      block still has more than the reserved weight left. */
  ghost predicate MayStayOpen(e: Env, st: State, failures: nat)
    requires Known(e, st.block)
  {
    || |st.blocks| >= Monus(e.maxBlocks, 1) || failures <= 1000
    || 4000 + SumSeq(WeightsOf(e.txs), st.block) <= Monus(e.weightLimit, 4000)
  }

  lemma OpenMayStay(e: Env, st: State)
    requires ValidEnv(e) && Wf(e, st) && Packed(e, st)
    ensures MaybeClose(e, st).Running? && |MaybeClose(e, st).st.blocks| == |st.blocks| ==>
              MaybeClose(e, st).st == st && MayStayOpen(e, st, st.failures)
  {
    hide Reinsert, ValidEnv, Light, SumSeq, WeightsOf;
    ReinsertKeeps(e,
                  st.(blocks := st.blocks + [st.block], block := [], weight := BLOCK_RESERVED_WEIGHT, overflow := []),
                  st.overflow);
  }

  lemma ConsiderStaysOpen(e: Env, st: State, t: Txid)
    requires ValidEnv(e) && Nested(e) && Wf(e, st) && Safe(e, st) && Packed(e, st) && t in e.txs && !Used(st, t)
    ensures var r := Consider(e, st, t);
            r.Running? && |r.st.blocks| == |st.blocks| && t !in r.st.dropped ==>
              Known(e, r.st.block) && MayStayOpen(e, r.st, r.st.failures)
  {
    hide Package, MaybeClose, Place, Conflicts, Fits, Light, ValidEnv, Nested, Safe, MayStayOpen;
    if !Fits(e, st, t) {
      OpenMayStay(e, Postpone(e, st, t));
    } else if !Conflicts(e.txs, st.spent, Package(e, st.rates.Keys, t)) {
      PlaceIsPacked(e, st, t);
      PlaceKeepsBlocks(e, st, t);
      OpenMayStay(e, Place(e, st, t));
    }
  }

  lemma StepStaysOpen(e: Env, st: State, t: Txid)
    requires ValidEnv(e) && Nested(e) && Wf(e, st) && Safe(e, st) && Packed(e, st)
    requires HasWork(st) && Chosen(e, st) == Some(t) && !Used(st, t)
    ensures var r := Step(e, st);
            r.Running? && |r.st.blocks| == |st.blocks| && t !in r.st.dropped ==>
              Known(e, r.st.block) && MayStayOpen(e, r.st, r.st.failures)
  {
    hide SkipTop, Candidate, Consider, Take, ValidEnv, Nested, Safe, Packed, MayStayOpen;
    var s := st.(top := SkipTop(e, st, st.top));
    TakeIsPacked(e, st);
    SafeStays(e, st, s.top);
    TakeKeepsUse(e, s, t);
    ConsiderStaysOpen(e, Take(e, s), t);
  }

  /** In every run, an iteration that places or postpones a candidate leaves the block open only if it may stay open. */
  lemma BlocksStayOpenOnlyIf(e: Env, arr: seq<Txid>, n: nat, t: Txid)
    requires ValidEnv(e) && Nested(e) && InitialArray(e, arr)
    requires var r, r' := Iterate(e, Init(e, arr), n), Iterate(e, Init(e, arr), n + 1);
             && r.Running? && HasWork(r.st) && Chosen(e, r.st) == Some(t) && !Used(r.st, t)
             && r'.Running? && |r'.st.blocks| == |r.st.blocks| && t !in r'.st.dropped
    ensures var st := Iterate(e, Init(e, arr), n + 1).st;
            Known(e, st.block) && MayStayOpen(e, st, FailCount(e, arr, n + 1))
  {
    hide Step, InitialArray, Init, ValidEnv, Nested, Safe, Packed, Bounded, Wf, MayStayOpen, FailCount, Chosen;
    var st := Iterate(e, Init(e, arr), n).st;
    RunIsSafe(e, arr, n);
    RunIsBounded(e, arr, n);
    BoundedIsPacked(e, st);
    FailuresAreCounted(e, arr, n + 1);
    StepStaysOpen(e, st, t);
  }

  // ---- the choice ----------------------------------------------------------------------------------------------

  /** What a package with `t` would pay now. */
  ghost function Offer(e: Env, st: State, t: Txid): real
    requires ValidEnv(e) && t in e.txs
  {
    RateOfPackage(e, Package(e, st.rates.Keys, t))
  }

  /** A higher offer first; on equal offers one with a placed ancestor first, and then the smaller id. */
  ghost predicate ComesFirst(e: Env, st: State, t: Txid, u: Txid)
    requires ValidEnv(e) && t in e.txs && u in e.txs
  {
    var placedT, placedU := e.anc[t] * st.rates.Keys != {}, e.anc[u] * st.rates.Keys != {};
    || Offer(e, st, t) > Offer(e, st, u)
    || (Offer(e, st, t) == Offer(e, st, u) && ((placedT && !placedU) || (placedT == placedU && t <= u)))
  }

  lemma WaitingIsAtHand(e: Env, st: State, u: Txid)
    requires ValidEnv(e) && Scheduled(e, st) && u in e.txs && !Used(st, u) && u !in st.overflow
    ensures AtHand(e, st, u)
  {
    hide InOrder, CountUnmodified, QueueIsModified, Modified;
    assert Waits(e, st, u);
  }

  /** The array's head comes before every unmodified transaction behind it. */
  lemma HeadComesFirst(e: Env, st: State, k: nat)
    requires ValidEnv(e) && Scheduled(e, st) && st.top <= k < |st.arr|
    requires !Modified(e, st.rates.Keys, st.arr[st.top]) && !Modified(e, st.rates.Keys, st.arr[k])
    ensures Before(Scores(e, st.rates.Keys), st.arr[st.top], st.arr[k])
  {
    hide Scores, Accounted, CountUnmodified;
    UnmodifiedKeepsScore(e, st.rates.Keys, st.arr[st.top]);
    UnmodifiedKeepsScore(e, st.rates.Keys, st.arr[k]);
    if st.top < k {
      assert Before(Scores(e, {}), st.arr[st.top], st.arr[k]);
    }
  }

  lemma ChosenComesFirst(e: Env, st: State, t: Txid, u: Txid)
    requires ValidEnv(e) && Scheduled(e, st) && Chosen(e, st) == Some(t) && AtHand(e, st, u)
    ensures var scores := Scores(e, st.rates.Keys);
            || scores[t] > scores[u]
            || (scores[t] == scores[u] && ((Modified(e, st.rates.Keys, t) && !Modified(e, st.rates.Keys, u))
                                           || (Modified(e, st.rates.Keys, t) == Modified(e, st.rates.Keys, u) && t <= u)))
  {
    hide SkipTop, Scores, Accounted, InOrder, CountUnmodified, Modified, ValidEnv;
    var s := st.(top := SkipTop(e, st, st.top));
    SkippedSlots(e, st, st.top);
    SkipKeeps(e, st);
    if u in st.queue {
      assert Modified(e, st.rates.Keys, u);
    } else {
      var k :| st.top <= k < |st.arr| && st.arr[k] == u;
      assert s.top <= k;
      HeadComesFirst(e, s, k);
    }
    if !TakesArray(e, s) {
      assert t in st.queue && Modified(e, st.rates.Keys, t);
    }
  }

  /** In every run, the candidate taken comes first among all transactions that are not placed, dropped or postponed. */
  lemma ChoiceIsGreedy(e: Env, arr: seq<Txid>, n: nat, t: Txid, u: Txid)
    requires ValidEnv(e) && Nested(e) && InitialArray(e, arr)
    requires var st := Iterate(e, Init(e, arr), n).st;
             Chosen(e, st) == Some(t) && u in e.txs && u !in st.rates && u !in st.dropped && u !in st.overflow
    ensures t in e.txs && ComesFirst(e, Iterate(e, Init(e, arr), n).st, t, u)
  {
    hide Iterate, InitialArray, Init, Nested, Scheduled, RateOfPackage, Package, Score;
    var st := Iterate(e, Init(e, arr), n).st;
    RunIsScheduled(e, arr, n);
    WaitingIsAtHand(e, st, u);
    ChosenComesFirst(e, st, t, u);
    ScoreIsRateOfPackage(e, st.rates.Keys, t);
    ScoreIsRateOfPackage(e, st.rates.Keys, u);
  }
}
