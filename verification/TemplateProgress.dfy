/** Progress of the packing loop: every iteration lowers a measure, so every run ends. */
module TemplateProgress {
  import opened Collections
  import opened TxGraph
  import opened TemplateSpec
  import opened TemplateSafety

  // ---- termination ---------------------------------------------------------------------

  ghost function BlocksLeft(e: Env, st: State): nat {
    Monus(Monus(e.maxBlocks, 1), |st.blocks|)
  }

  ghost function Unmodified(e: Env, placed: set<Txid>): set<Txid>
    requires ValidEnv(e)
  {
    set t | t in e.txs && !Modified(e, placed, t)
  }

  ghost function Slots(st: State): nat {
    Monus(|st.arr|, st.top) + |st.queue|
  }

  /** Fewer blocks to close, or fewer unmodified transactions, or fewer unconsumed slots. */
  ghost predicate Progress(e: Env, st: State, r: State)
    requires ValidEnv(e)
  {
    || BlocksLeft(e, r) < BlocksLeft(e, st)
    || (BlocksLeft(e, r) == BlocksLeft(e, st) &&
        (|Unmodified(e, r.rates.Keys)| < |Unmodified(e, st.rates.Keys)|
         || (|Unmodified(e, r.rates.Keys)| == |Unmodified(e, st.rates.Keys)| && Slots(r) < Slots(st))))
  }

  lemma TakeProgresses(e: Env, st: State)
    requires ValidEnv(e) && Wf(e, st) && Candidate(e, st).Some?
    ensures Progress(e, st, Take(e, st))
  {
    hide Scores, Unmodified;
  }

  lemma UnmodifiedSplits(e: Env, placed: set<Txid>, more: set<Txid>)
    requires ValidEnv(e)
    ensures |Unmodified(e, placed)| == |Unmodified(e, placed + more)| + |NewlyModified(e, placed, more)|
  {
    var was, now, newly := Unmodified(e, placed), Unmodified(e, placed + more), NewlyModified(e, placed, more);
    forall t | t in e.txs
      ensures t in was <==> t in now || t in newly
    {
      assert e.anc[t] * (placed + more) == e.anc[t] * placed + e.anc[t] * more;
    }
    assert was == now + newly;
    forall t | t in newly
      ensures t !in now
    {
      assert e.anc[t] * (placed + more) == e.anc[t] * placed + e.anc[t] * more;
    }
  }

  lemma PlaceMembersProgresses(e: Env, st: State, more: seq<Txid>, rate: real)
    requires ValidEnv(e) && Wf(e, st) && Elements(more) <= e.txs.Keys
    ensures var r := PlaceMembers(e, st, more, rate);
            && r.blocks == st.blocks && r.arr == st.arr && r.top == st.top
            && |Unmodified(e, r.rates.Keys)| <= |Unmodified(e, st.rates.Keys)|
            && (|Unmodified(e, r.rates.Keys)| == |Unmodified(e, st.rates.Keys)| ==> r.queue == st.queue)
  {
    hide SumSeq, LowerRates, Unmodified, NewlyModified, SpentBy;
    UnmodifiedSplits(e, st.rates.Keys, Elements(more));
    assert PlaceMembers(e, st, more, rate).rates.Keys == st.rates.Keys + Elements(more);
  }

  lemma PlaceProgresses(e: Env, st0: State, st: State, t: Txid)
    requires ValidEnv(e) && Wf(e, st) && t in e.txs && Progress(e, st0, st)
    ensures Progress(e, st0, Place(e, st, t))
  {
    hide Package, Unused, EffectiveRate, Unmodified, PlaceMembers;
    PlaceMembersProgresses(e, st, Unused(st, Package(e, st.rates.Keys, t)), EffectiveRate(e, st, t));
  }

  lemma MaybeCloseProgresses(e: Env, st0: State, st: State)
    requires ValidEnv(e) && Wf(e, st)
    requires Progress(e, st0, st)
    ensures Progress(e, st0, MaybeClose(e, st).st)
  {
    hide Reinsert, Unmodified;
    ReinsertKeeps(e,
                  st.(blocks := st.blocks + [st.block], block := [], weight := BLOCK_RESERVED_WEIGHT, overflow := []),
                  st.overflow);
  }

  lemma StepProgresses(e: Env, st: State)
    requires ValidEnv(e) && Wf(e, st) && HasWork(st)
    ensures Progress(e, st, Step(e, st).st)
  {
    hide SkipTop, Candidate, MaybeClose, Take, Consider, Progress;
    var s := st.(top := SkipTop(e, st, st.top));
    match Candidate(e, s)
    case None =>
      NoCandidate(e, st);
      MaybeCloseProgresses(e, st, s);
    case Some(t) =>
      TakeProgresses(e, s);
      SkipThenProgress(e, st, Take(e, s));
      ConsiderProgresses(e, st, Take(e, s), t);
  }

  lemma NoCandidate(e: Env, st: State)
    requires ValidEnv(e) && Wf(e, st) && HasWork(st)
    requires Candidate(e, st.(top := SkipTop(e, st, st.top))).None?
    ensures Progress(e, st, st.(top := SkipTop(e, st, st.top)))
  {
    hide SkipTop, Unmodified, Scores;
  }

  lemma SkipThenProgress(e: Env, st: State, r: State)
    requires ValidEnv(e) && Wf(e, st) && Progress(e, st.(top := SkipTop(e, st, st.top)), r)
    ensures Progress(e, st, r)
  {
    hide SkipTop, Unmodified;
  }

  lemma ConsiderProgresses(e: Env, st0: State, st: State, t: Txid)
    requires ValidEnv(e) && Wf(e, st) && t in e.txs && Progress(e, st0, st)
    ensures Progress(e, st0, Consider(e, st, t).st)
  {
    hide Package, MaybeClose, Place, Fits, Conflicts, Unmodified;
    if !Used(st, t) {
      if !Fits(e, st, t) {
        MaybeCloseProgresses(e, st0, Postpone(e, st, t));
      } else if !Conflicts(e.txs, st.spent, Package(e, st.rates.Keys, t)) {
        PlaceProgresses(e, st0, st, t);
        MaybeCloseProgresses(e, st0, Place(e, st, t));
      }
    }
  }

  lemma {:induction false} IterateShift(e: Env, st: State, n: nat)
    requires ValidEnv(e) && Wf(e, st) && Step(e, st).Running?
    ensures Iterate(e, st, n + 1) == Iterate(e, Step(e, st).st, n)
  {
    hide Step, ValidEnv, Wf;
    if n > 0 {
      IterateShift(e, st, n - 1);
    } else {
      assert Iterate(e, st, 0) == Running(st);
      assert Iterate(e, Step(e, st).st, 0) == Step(e, st);
    }
  }

  /** The loop ends from every state, whatever it re-inserts when a block is closed. */
  lemma {:induction false} RunTerminates(e: Env, st: State)
    requires ValidEnv(e) && Wf(e, st)
    ensures exists n: nat :: Iterate(e, st, n).Finished?
    decreases BlocksLeft(e, st), |Unmodified(e, st.rates.Keys)|, Slots(st)
  {
    hide Step, Unmodified;
    var r := Step(e, st);
    if r.Finished? {
      assert Iterate(e, st, 0) == Running(st);
      assert Iterate(e, st, 1).Finished?;
    } else {
      RunningHadWork(e, st);
      StepProgresses(e, st);
      RunTerminates(e, r.st);
      var n: nat :| Iterate(e, r.st, n).Finished?;
      IterateShift(e, st, n);
      assert Iterate(e, st, n + 1).Finished?;
    }
  }

  lemma RunningHadWork(e: Env, st: State)
    requires ValidEnv(e) && Wf(e, st) && Step(e, st).Running?
    ensures HasWork(st)
  {
  }
}
