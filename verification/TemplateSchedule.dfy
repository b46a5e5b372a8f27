/** The schedule: every transaction is accounted for at all times, and the loop always takes a candidate
    with the highest current score. */
module TemplateSchedule {
  import opened Collections
  import opened TxGraph
  import opened TemplateSpec
  import opened TemplateSafety
  import opened TemplateBounds

  // ---- invariants ----------------------------------------------------------------------

  /** `u` is postponed, or queued when modified, or still ahead in the array when not. */
  ghost predicate Waits(e: Env, st: State, u: Txid)
    requires ValidEnv(e) && Wf(e, st) && u in e.txs
  {
    || u in st.overflow
    || (if Modified(e, st.rates.Keys, u) then u in st.queue else u in st.arr[st.top..])
  }

  ghost predicate Accounted(e: Env, st: State, pending: set<Txid>)
    requires ValidEnv(e) && Wf(e, st)
  {
    forall u :: u in e.txs ==> u in pending || Used(st, u) || Waits(e, st, u)
  }

  ghost predicate QueueIsModified(e: Env, placed: set<Txid>, queue: multiset<Txid>)
    requires ValidEnv(e)
  {
    forall u :: u in queue ==> u in e.txs && Modified(e, placed, u)
  }

  /** Unmodified postponed transactions, then the rest of the array, are in initial scheduling order. */
  ghost predicate InOrder(e: Env, placed: set<Txid>, back: seq<Txid>, arr: seq<Txid>, top: nat)
    requires ValidEnv(e) && (forall t :: t in back ==> t in e.txs) && (forall t :: t in arr ==> t in e.txs)
  {
    var first := Scores(e, {});
    && (forall i, j :: 0 <= i < j < |back| && !Modified(e, placed, back[i]) && !Modified(e, placed, back[j]) ==>
                         Before(first, back[i], back[j]))
    && (forall i, k :: 0 <= i < |back| && top <= k < |arr| && !Modified(e, placed, back[i]) ==>
                         Before(first, back[i], arr[k]))
    && (forall k, l :: top <= k < l < |arr| ==> Before(first, arr[k], arr[l]))
  }

  ghost function CountUnmodified(e: Env, placed: set<Txid>, s: seq<Txid>): nat
    requires ValidEnv(e) && forall t :: t in s ==> t in e.txs
  {
    if s == [] then 0
    else CountUnmodified(e, placed, s[..|s| - 1]) + (if Modified(e, placed, s[|s| - 1]) then 0 else 1)
  }

  ghost predicate Scheduled(e: Env, st: State)
    requires ValidEnv(e)
  {
    && Wf(e, st)
    && Accounted(e, st, {})
    && Ordered(e, st)
  }

  ghost predicate Ordered(e: Env, st: State)
    requires ValidEnv(e) && Wf(e, st)
  {
    && QueueIsModified(e, st.rates.Keys, st.queue)
    && InOrder(e, st.rates.Keys, st.overflow, st.arr, st.top)
    && CountUnmodified(e, st.rates.Keys, st.overflow) <= st.top
    && (|st.blocks| >= Monus(e.maxBlocks, 1) ==> st.overflow == [])
  }

  /** `t` has just been taken: if it is unmodified it still fits between the postponed ones and the array. */
  ghost predicate Taken(e: Env, st: State, t: Txid)
    requires ValidEnv(e)
  {
    && Wf(e, st) && t in e.txs
    && Accounted(e, st, {t})
    && Ordered(e, st)
    && (!Modified(e, st.rates.Keys, t) ==>
          && InOrder(e, st.rates.Keys, st.overflow + [t], st.arr, st.top)
          && CountUnmodified(e, st.rates.Keys, st.overflow) < st.top)
  }

  // ---- taking a candidate -----------------------------------------------------------------

  lemma {:induction false} SkippedSlots(e: Env, st: State, top: nat)
    requires ValidEnv(e) && Wf(e, st) && top <= |st.arr|
    ensures forall k :: top <= k < SkipTop(e, st, top) ==> Used(st, st.arr[k]) || Modified(e, st.rates.Keys, st.arr[k])
    ensures var r := SkipTop(e, st, top);
            r < |st.arr| ==> !Used(st, st.arr[r]) && !Modified(e, st.rates.Keys, st.arr[r])
    decreases |st.arr| - top
  {
    if top < |st.arr| && (Used(st, st.arr[top]) || Modified(e, st.rates.Keys, st.arr[top])) {
      SkippedSlots(e, st, top + 1);
    }
  }

  lemma SkipKeeps(e: Env, st: State)
    requires ValidEnv(e) && Scheduled(e, st)
    ensures Scheduled(e, st.(top := SkipTop(e, st, st.top)))
  {
    hide SkipTop, CountUnmodified, Scores, Before, Modified, Used, Waits, ValidEnv;
    SkippedSlots(e, st, st.top);
    var s := st.(top := SkipTop(e, st, st.top));
    forall u | u in e.txs && !Used(st, u)
      ensures Waits(e, s, u) && !Used(s, u)
    {
      assert Waits(e, st, u);
      SkipWaits(e, st, u);
    }
    UsedIsSame(st, s);
  }

  lemma UsedIsSame(st: State, s: State)
    requires s.rates == st.rates && s.dropped == st.dropped
    ensures forall u :: Used(s, u) <==> Used(st, u)
  {
  }

  lemma SkipWaits(e: Env, st: State, u: Txid)
    requires ValidEnv(e) && Wf(e, st) && u in e.txs && !Used(st, u) && Waits(e, st, u)
    ensures Waits(e, st.(top := SkipTop(e, st, st.top)), u) && !Used(st.(top := SkipTop(e, st, st.top)), u)
  {
    hide SkipTop, Modified, ValidEnv;
    SkippedSlots(e, st, st.top);
    var s := st.(top := SkipTop(e, st, st.top));
    if u !in st.overflow && !Modified(e, st.rates.Keys, u) {
      var k :| st.top <= k < |st.arr| && st.arr[k] == u;
      assert u == s.arr[s.top..][k - s.top];
    }
  }

  lemma HeadInOrder(e: Env, placed: set<Txid>, back: seq<Txid>, arr: seq<Txid>, top: nat)
    requires ValidEnv(e) && (forall t :: t in back ==> t in e.txs) && (forall t :: t in arr ==> t in e.txs)
    requires top < |arr| && InOrder(e, placed, back, arr, top)
    ensures InOrder(e, placed, back, arr, top + 1)
    ensures InOrder(e, placed, back + [arr[top]], arr, top + 1)
  {
    hide Scores, Before, Modified;
  }

  lemma TakeFromArray(e: Env, st: State)
    requires ValidEnv(e) && Scheduled(e, st) && st.top < |st.arr|
    requires !Modified(e, st.rates.Keys, st.arr[st.top])
    ensures Taken(e, st.(top := st.top + 1), st.arr[st.top])
  {
    hide InOrder, CountUnmodified, Modified, QueueIsModified;
    var t, r := st.arr[st.top], st.(top := st.top + 1);
    HeadInOrder(e, st.rates.Keys, st.overflow, st.arr, st.top);
    assert st.arr[st.top..] == [t] + r.arr[r.top..];
    forall u | u in e.txs && u != t && !Used(r, u)
      ensures Waits(e, r, u)
    {
      assert Waits(e, st, u);
    }
  }

  lemma TakeFromQueue(e: Env, st: State, t: Txid)
    requires ValidEnv(e) && Scheduled(e, st) && t in st.queue
    ensures Taken(e, st.(queue := st.queue - multiset{t}), t)
  {
    hide InOrder, CountUnmodified, Modified, ValidEnv;
    var r := st.(queue := st.queue - multiset{t});
    assert forall u :: u in r.queue ==> u in st.queue;
    forall u | u in e.txs && u != t && !Used(r, u)
      ensures Waits(e, r, u)
    {
      assert Waits(e, st, u);
    }
  }

  lemma TakeSchedules(e: Env, st: State, t: Txid)
    requires ValidEnv(e) && Scheduled(e, st) && Candidate(e, st) == Some(t)
    requires st.top < |st.arr| ==> !Modified(e, st.rates.Keys, st.arr[st.top])
    ensures Taken(e, Take(e, st), t)
  {
    hide Accounted, Ordered, InOrder, Taken, Scores, ValidEnv;
    if TakesArray(e, st) {
      TakeFromArray(e, st);
    } else {
      TakeFromQueue(e, st, t);
    }
  }

  // ---- what becomes of the candidate ----------------------------------------------------------

  lemma DropSchedules(e: Env, st: State, t: Txid)
    requires ValidEnv(e) && Taken(e, st, t)
    ensures Used(st, t) ==> Scheduled(e, st)
    ensures Scheduled(e, Drop(e, st, t))
  {
    hide InOrder, CountUnmodified, QueueIsModified, Modified;
    var r := Drop(e, st, t);
    forall u | u in e.txs && !Used(r, u)
      ensures Waits(e, r, u)
    {
      assert Waits(e, st, u);
    }
  }

  lemma PostponeSchedules(e: Env, st: State, t: Txid)
    requires ValidEnv(e) && Taken(e, st, t) && |st.blocks| < Monus(e.maxBlocks, 1)
    ensures Scheduled(e, Postpone(e, st, t))
  {
    hide QueueIsModified, InOrder, Modified, Accounted, ValidEnv;
    var r := Postpone(e, st, t);
    assert r.overflow[..|r.overflow| - 1] == st.overflow;
    PostponeInOrder(e, st, t);
    PostponeAccounts(e, st, t);
  }

  lemma PostponeAccounts(e: Env, st: State, t: Txid)
    requires ValidEnv(e) && Wf(e, st) && t in e.txs && Accounted(e, st, {t})
    ensures Accounted(e, Postpone(e, st, t), {})
  {
    hide Modified, ValidEnv;
    var r := Postpone(e, st, t);
    forall u | u in e.txs && !Used(r, u)
      ensures Waits(e, r, u)
    {
      assert u == t || Waits(e, st, u);
    }
  }

  lemma PostponeInOrder(e: Env, st: State, t: Txid)
    requires ValidEnv(e) && Taken(e, st, t)
    ensures InOrder(e, st.rates.Keys, st.overflow + [t], st.arr, st.top)
  {
    hide Scores, Before, CountUnmodified, Accounted;
  }

  lemma ModifiedGrows(e: Env, placed: set<Txid>, more: set<Txid>, u: Txid)
    requires ValidEnv(e) && u in e.txs
    ensures Modified(e, placed + more, u) <==> Modified(e, placed, u) || e.anc[u] * more != {}
  {
    assert e.anc[u] * (placed + more) == e.anc[u] * placed + e.anc[u] * more;
  }

  lemma {:induction false} CountShrinks(e: Env, placed: set<Txid>, more: set<Txid>, s: seq<Txid>)
    requires ValidEnv(e) && forall t :: t in s ==> t in e.txs
    ensures CountUnmodified(e, placed + more, s) <= CountUnmodified(e, placed, s)
  {
    if s != [] {
      CountShrinks(e, placed, more, s[..|s| - 1]);
      ModifiedGrows(e, placed, more, s[|s| - 1]);
    }
  }

  lemma OrderSurvivesPlacing(e: Env, placed: set<Txid>, more: set<Txid>, back: seq<Txid>, arr: seq<Txid>, top: nat)
    requires ValidEnv(e) && (forall t :: t in back ==> t in e.txs) && (forall t :: t in arr ==> t in e.txs)
    requires InOrder(e, placed, back, arr, top)
    ensures InOrder(e, placed + more, back, arr, top)
  {
    hide Scores, Before, Modified;
    forall u | u in e.txs
      ensures Modified(e, placed, u) ==> Modified(e, placed + more, u)
    {
      ModifiedGrows(e, placed, more, u);
    }
  }

  lemma QueueAfterPlacing(e: Env, placed: set<Txid>, more: set<Txid>, queue: multiset<Txid>)
    requires ValidEnv(e) && QueueIsModified(e, placed, queue)
    ensures QueueIsModified(e, placed + more, queue + multiset(NewlyModified(e, placed, more)))
  {
    var newly := NewlyModified(e, placed, more);
    forall u | u in queue + multiset(newly)
      ensures u in e.txs && Modified(e, placed + more, u)
    {
      assert u in queue || u in newly;
      ModifiedGrows(e, placed, more, u);
    }
  }

  lemma PlaceMembersSchedules(e: Env, st: State, t: Txid, more: seq<Txid>, rate: real)
    requires ValidEnv(e) && Taken(e, st, t) && Elements(more) <= e.txs.Keys && t in more
    ensures Scheduled(e, PlaceMembers(e, st, more, rate))
  {
    hide SumSeq, LowerRates, InOrder, QueueIsModified, CountUnmodified, SpentBy, Modified, Accounted, ValidEnv;
    var placed, added := st.rates.Keys, Elements(more);
    var r := PlaceMembers(e, st, more, rate);
    assert r.rates.Keys == placed + added;
    OrderSurvivesPlacing(e, placed, added, st.overflow, st.arr, st.top);
    CountShrinks(e, placed, added, st.overflow);
    QueueAfterPlacing(e, placed, added, st.queue);
    PlaceAccounts(e, st, t, more, rate);
  }

  lemma PlaceAccounts(e: Env, st: State, t: Txid, more: seq<Txid>, rate: real)
    requires ValidEnv(e) && Wf(e, st) && Accounted(e, st, {t}) && Elements(more) <= e.txs.Keys && t in more
    ensures Accounted(e, PlaceMembers(e, st, more, rate), {})
  {
    hide PlaceMembers, Waits, Used, ValidEnv, Wf;
    var r := PlaceMembers(e, st, more, rate);
    forall u | u in e.txs && !Used(r, u)
      ensures Waits(e, r, u)
    {
      PlaceWaits(e, st, more, rate, u);
      assert t != u ==> Waits(e, st, u);
    }
  }

  lemma PlaceWaits(e: Env, st: State, more: seq<Txid>, rate: real, u: Txid)
    requires ValidEnv(e) && Wf(e, st) && Elements(more) <= e.txs.Keys && u in e.txs
    ensures var r := PlaceMembers(e, st, more, rate);
            !Used(r, u) ==> !Used(st, u) && u !in more && (Waits(e, st, u) ==> Waits(e, r, u))
  {
    hide SumSeq, LowerRates, SpentBy, Modified, ValidEnv, Wf;
    var placed, added := st.rates.Keys, Elements(more);
    assert PlaceMembers(e, st, more, rate).rates.Keys == placed + added;
    ModifiedGrows(e, placed, added, u);
    NewlyIs(e, placed, added, u);
  }

  lemma NewlyIs(e: Env, placed: set<Txid>, added: set<Txid>, u: Txid)
    requires ValidEnv(e) && u in e.txs
    ensures u in NewlyModified(e, placed, added) <==> e.anc[u] * added != {} && !Modified(e, placed, u)
  {
  }

  lemma PlaceSchedules(e: Env, st: State, t: Txid)
    requires ValidEnv(e) && Taken(e, st, t) && !Used(st, t)
    ensures Scheduled(e, Place(e, st, t))
  {
    hide PlaceMembers, EffectiveRate, Scheduled, Accounted, Ordered, InOrder;
    var pkg := Package(e, st.rates.Keys, t);
    assert t in pkg;
    PlaceMembersSchedules(e, st, t, Unused(st, pkg), EffectiveRate(e, st, t));
  }

  // ---- closing a block -------------------------------------------------------------------------

  /** The state while postponed transactions are being put back; `back` is what is left of them. */
  ghost predicate Returning(e: Env, st: State, back: seq<Txid>)
    requires ValidEnv(e)
  {
    && Wf(e, st) && (forall t :: t in back ==> t in e.txs) && st.overflow == []
    && Accounted(e, st, Elements(back))
    && QueueIsModified(e, st.rates.Keys, st.queue)
    && InOrder(e, st.rates.Keys, back, st.arr, st.top)
    && CountUnmodified(e, st.rates.Keys, back) <= st.top
  }

  lemma PrefixInOrder(e: Env, placed: set<Txid>, back: seq<Txid>, t: Txid, arr: seq<Txid>, top: nat)
    requires ValidEnv(e) && (forall t :: t in back ==> t in e.txs) && t in e.txs && (forall t :: t in arr ==> t in e.txs)
    requires InOrder(e, placed, back + [t], arr, top)
    ensures InOrder(e, placed, back, arr, top)
  {
    hide Scores, Before, Modified;
    assert forall i :: 0 <= i < |back| ==> (back + [t])[i] == back[i];
  }

  lemma RequeueModified(e: Env, st: State, back: seq<Txid>, t: Txid)
    requires ValidEnv(e) && Returning(e, st, back + [t]) && Modified(e, st.rates.Keys, t)
    ensures Returning(e, st.(queue := st.queue + multiset{t}), back)
  {
    hide InOrder, Modified, ValidEnv;
    var r := st.(queue := st.queue + multiset{t});
    assert t in back + [t] && (back + [t])[..|back|] == back;
    PrefixInOrder(e, st.rates.Keys, back, t, st.arr, st.top);
    assert QueueIsModified(e, r.rates.Keys, r.queue) by {
      assert forall u :: u in r.queue ==> u in st.queue || u == t;
    }
    forall u | u in e.txs && u !in Elements(back) && !Used(r, u)
      ensures Waits(e, r, u)
    {
      assert u == t || Waits(e, st, u);
    }
  }

  lemma RequeueUnmodified(e: Env, st: State, back: seq<Txid>, t: Txid)
    requires ValidEnv(e) && Returning(e, st, back + [t]) && !Modified(e, st.rates.Keys, t)
    ensures st.top > 0
    ensures Returning(e, st.(top := st.top - 1, arr := st.arr[st.top - 1 := t]), back)
  {
    hide InOrder, QueueIsModified, Accounted, ValidEnv, Modified;
    assert (back + [t])[..|back|] == back && t in back + [t];
    var r := st.(top := st.top - 1, arr := st.arr[st.top - 1 := t]);
    RequeueInOrder(e, st.rates.Keys, back, t, st.arr, st.top);
    RequeueAccounts(e, st, r, back, t);
  }

  lemma RequeueAccounts(e: Env, st: State, r: State, back: seq<Txid>, t: Txid)
    requires ValidEnv(e) && Wf(e, st) && Wf(e, r) && t in e.txs && Accounted(e, st, Elements(back + [t])) && !Modified(e, st.rates.Keys, t)
    requires st.top > 0 && r == st.(top := st.top - 1, arr := st.arr[st.top - 1 := t])
    ensures Accounted(e, r, Elements(back))
  {
    hide Modified, ValidEnv;
    assert r.arr[r.top..] == [t] + st.arr[st.top..];
    forall u | u in e.txs && u !in Elements(back) && !Used(r, u)
      ensures Waits(e, r, u)
    {
      assert u == t || Waits(e, st, u);
    }
  }

  lemma RequeueInOrder(e: Env, placed: set<Txid>, back: seq<Txid>, t: Txid, arr: seq<Txid>, top: nat)
    requires ValidEnv(e) && (forall t :: t in back ==> t in e.txs) && t in e.txs && (forall t :: t in arr ==> t in e.txs)
    requires 0 < top <= |arr| && !Modified(e, placed, t) && InOrder(e, placed, back + [t], arr, top)
    ensures InOrder(e, placed, back, arr[top - 1 := t], top - 1)
  {
    hide Scores, Before, Modified;
    var all, next := back + [t], arr[top - 1 := t];
    assert all[|back|] == t;
    assert forall i :: 0 <= i < |back| ==> all[i] == back[i];
    assert forall k :: top <= k < |arr| ==> next[k] == arr[k];
  }

  lemma RequeueReturns(e: Env, st: State, back: seq<Txid>, t: Txid)
    requires ValidEnv(e) && Returning(e, st, back + [t])
    ensures t in e.txs && Returning(e, Requeue(e, st, t), back)
  {
    hide InOrder, QueueIsModified, Accounted, ValidEnv, Modified, CountUnmodified;
    assert t in back + [t];
    if Modified(e, st.rates.Keys, t) {
      RequeueModified(e, st, back, t);
    } else {
      RequeueUnmodified(e, st, back, t);
    }
  }

  lemma {:induction false} ReinsertSchedules(e: Env, st: State, back: seq<Txid>)
    requires ValidEnv(e) && Returning(e, st, back)
    ensures Returning(e, Reinsert(e, st, back), [])
    decreases |back|
  {
    hide Accounted, QueueIsModified, InOrder, CountUnmodified, Requeue;
    if back != [] {
      var n := |back| - 1;
      assert back == back[..n] + [back[n]];
      RequeueReturns(e, st, back[..n], back[n]);
      ReinsertSchedules(e, Requeue(e, st, back[n]), back[..n]);
    }
  }

  lemma CloseAccounts(e: Env, st: State, s: State)
    requires ValidEnv(e) && Wf(e, st) && Wf(e, s) && Accounted(e, st, {})
    requires s == st.(blocks := s.blocks, block := s.block, weight := s.weight, overflow := [])
    ensures Accounted(e, s, Elements(st.overflow))
  {
    hide Modified, ValidEnv;
    forall u | u in e.txs && u !in Elements(st.overflow) && !Used(s, u)
      ensures Waits(e, s, u)
    {
      assert Waits(e, st, u);
    }
  }

  lemma MaybeCloseSchedules(e: Env, st: State)
    requires ValidEnv(e) && Scheduled(e, st)
    ensures Scheduled(e, MaybeClose(e, st).st)
  {
    hide Reinsert, InOrder, CountUnmodified, QueueIsModified, Modified, ShouldClose, Accounted, ValidEnv;
    if ShouldClose(e, st) && st.block != [] {
      var s := st.(blocks := st.blocks + [st.block], block := [], weight := BLOCK_RESERVED_WEIGHT, overflow := []);
      CloseAccounts(e, st, s);
      ReinsertSchedules(e, s, st.overflow);
      ReinsertKeeps(e, s, st.overflow);
      assert Elements<Txid>([]) == {};
    }
  }

  // ---- every step ----------------------------------------------------------------------------------

  lemma ConsiderSchedules(e: Env, st: State, t: Txid)
    requires ValidEnv(e) && Taken(e, st, t)
    ensures Scheduled(e, Consider(e, st, t).st)
  {
    hide Package, MaybeClose, Place, Conflicts, Scheduled, Accounted, Ordered, InOrder, PackageVsize;
    DropSchedules(e, st, t);
    if !Used(st, t) {
      if !Fits(e, st, t) {
        PostponeSchedules(e, st, t);
        MaybeCloseSchedules(e, Postpone(e, st, t));
      } else if !Conflicts(e.txs, st.spent, Package(e, st.rates.Keys, t)) {
        PlaceSchedules(e, st, t);
        MaybeCloseSchedules(e, Place(e, st, t));
      }
    }
  }

  lemma StepSchedules(e: Env, st: State)
    requires ValidEnv(e) && Scheduled(e, st)
    ensures Scheduled(e, Step(e, st).st)
  {
    hide SkipTop, Candidate, MaybeClose, Consider, Take, Accounted, Ordered, Taken;
    SkipKeeps(e, st);
    SkippedSlots(e, st, st.top);
    var s := st.(top := SkipTop(e, st, st.top));
    if HasWork(st) {
      match Candidate(e, s)
      case None =>
        MaybeCloseSchedules(e, s);
      case Some(t) =>
        TakeSchedules(e, s, t);
        ConsiderSchedules(e, Take(e, s), t);
    }
  }

  lemma InitIsScheduled(e: Env, arr: seq<Txid>)
    requires ValidEnv(e) && InitialArray(e, arr)
    ensures Scheduled(e, Init(e, arr))
  {
    hide Scores, Before, Accounted, ValidEnv;
    var st := Init(e, arr);
    InitAccounts(e, arr);
    NothingModified(e);
  }

  lemma NothingModified(e: Env)
    requires ValidEnv(e)
    ensures forall u :: u in e.txs ==> !Modified(e, {}, u)
  {
  }

  lemma InitAccounts(e: Env, arr: seq<Txid>)
    requires ValidEnv(e) && InitialArray(e, arr)
    ensures Accounted(e, Init(e, arr), {})
  {
    hide Scores, Before, ValidEnv, Modified;
    NothingModified(e);
    var st := Init(e, arr);
    forall u | u in e.txs
      ensures Waits(e, st, u)
    {
      assert u in multiset(arr);
      assert st.arr[st.top..] == arr && st.rates.Keys == {};
    }
  }

  lemma {:induction false} RunIsScheduled(e: Env, arr: seq<Txid>, n: nat)
    requires ValidEnv(e) && InitialArray(e, arr)
    ensures Scheduled(e, Iterate(e, Init(e, arr), n).st)
  {
    hide Step, InitialArray, Init, Accounted, Ordered;
    if n == 0 {
      InitIsScheduled(e, arr);
    } else {
      RunIsScheduled(e, arr, n - 1);
      var r := Iterate(e, Init(e, arr), n - 1);
      if r.Running? {
        StepSchedules(e, r.st);
      }
    }
  }

  // ---- greedy choice ----------------------------------------------------------------------------------

  /** An unmodified transaction still has the score it started with. */
  lemma UnmodifiedKeepsScore(e: Env, placed: set<Txid>, u: Txid)
    requires ValidEnv(e) && u in e.txs && !Modified(e, placed, u)
    ensures Scores(e, placed)[u] == Scores(e, {})[u]
  {
    hide Score, ValidEnv;
    assert Remaining(e, placed, u) == Remaining(e, {}, u);
    SameScore(e, placed, {}, u);
  }

  lemma SameScore(e: Env, a: set<Txid>, b: set<Txid>, u: Txid)
    requires ValidEnv(e) && u in e.txs && Remaining(e, a, u) == Remaining(e, b, u)
    ensures Score(e, a, u) == Score(e, b, u)
  {
    hide Remaining, ValidEnv, SumOver;
  }

  /** `u` could be taken now: it is unused and at hand, not postponed to a later block. */
  ghost predicate AtHand(e: Env, st: State, u: Txid)
    requires ValidEnv(e) && Wf(e, st)
  {
    && u in e.txs && !Used(st, u)
    && (u in st.queue || (u in st.arr[st.top..] && !Modified(e, st.rates.Keys, u)))
  }

  /** Whatever the loop takes, no transaction at hand has a higher score. */
  lemma CandidateIsBest(e: Env, st: State, t: Txid, u: Txid)
    requires ValidEnv(e) && Scheduled(e, st)
    requires Candidate(e, st.(top := SkipTop(e, st, st.top))) == Some(t)
    requires AtHand(e, st, u)
    ensures Scores(e, st.rates.Keys)[t] >= Scores(e, st.rates.Keys)[u]
  {
    hide SkipTop, Scores, Accounted, Ordered;
    var s := st.(top := SkipTop(e, st, st.top));
    SkippedSlots(e, st, st.top);
    SkipKeeps(e, st);
    if u in st.arr[st.top..] && !Modified(e, st.rates.Keys, u) {
      var k :| st.top <= k < |st.arr| && st.arr[k] == u;
      assert s.top <= k;
      HeadIsBest(e, s, k);
    }
  }

  lemma HeadIsBest(e: Env, st: State, k: nat)
    requires ValidEnv(e) && Scheduled(e, st) && st.top <= k < |st.arr|
    requires !Modified(e, st.rates.Keys, st.arr[st.top]) && !Modified(e, st.rates.Keys, st.arr[k])
    ensures Scores(e, st.rates.Keys)[st.arr[st.top]] >= Scores(e, st.rates.Keys)[st.arr[k]]
  {
    hide Scores, Accounted, CountUnmodified;
    UnmodifiedKeepsScore(e, st.rates.Keys, st.arr[st.top]);
    UnmodifiedKeepsScore(e, st.rates.Keys, st.arr[k]);
    if st.top < k {
      assert Before(Scores(e, {}), st.arr[st.top], st.arr[k]);
    }
  }

  // ---- what is left at the end --------------------------------------------------------------------------

  /** When the run stops because nothing is at hand, what was neither placed nor dropped has been postponed;
      once the last permitted block was opened, nothing is. */
  lemma NothingIsLost(e: Env, st: State, u: Txid)
    requires ValidEnv(e) && Scheduled(e, st) && u in e.txs && !HasWork(st)
    ensures Used(st, u) || u in st.overflow
    ensures |st.blocks| >= Monus(e.maxBlocks, 1) ==> Used(st, u)
  {
    hide InOrder, CountUnmodified, QueueIsModified, Modified;
    assert Used(st, u) || Waits(e, st, u);
  }

  /** A transaction that cannot be placed beside the placed ones: an unplaced member of its closure spends
      an outpoint some placed transaction spends. */
  ghost predicate Excluded(e: Env, placed: set<Txid>, u: Txid)
    requires ValidEnv(e) && u in e.txs && placed <= e.txs.Keys
  {
    exists m :: m in Closure(e, u) && m !in placed && Blocked(e, SpentBy(e.txs, placed), m)
  }

  /** The last permitted block takes everything that can still be placed: if it was opened, a transaction is
      missing from the templates exactly when it is excluded by the placed ones. */
  lemma LastBlockIsMaximal(e: Env, st: State, u: Txid)
    requires ValidEnv(e) && Wf(e, st) && Safe(e, st) && Scheduled(e, st) && u in e.txs && !HasWork(st)
    requires st.spent == SpentBy(e.txs, st.rates.Keys) && |st.blocks| >= Monus(e.maxBlocks, 1)
    ensures u !in st.rates <==> Excluded(e, st.rates.Keys, u)
  {
    hide Scheduled, Blocked;
    NothingIsLost(e, st, u);
    if u in st.rates {
      var s := Order(st);
      assert u in Elements(s);
      var i :| 0 <= i < |s| && s[i] == u;
      assert Closure(e, u) <= st.rates.Keys by {
        assert Elements(s[..i]) <= Elements(s);
      }
    } else {
      assert Hopeless(e, st.rates.Keys, st.spent, u);
    }
  }

  lemma CloseEndsEarly(e: Env, st: State)
    requires ValidEnv(e) && Wf(e, st)
    ensures MaybeClose(e, st).Finished? ==> |MaybeClose(e, st).st.blocks| < Monus(e.maxBlocks, 1)
  {
    hide CloseBlock;
  }

  lemma ConsiderEndsEarly(e: Env, st: State, t: Txid)
    requires ValidEnv(e) && Wf(e, st) && t in e.txs
    ensures Consider(e, st, t).Finished? ==> |Consider(e, st, t).st.blocks| < Monus(e.maxBlocks, 1)
  {
    hide MaybeClose, Place, Fits, Conflicts, Postpone, Drop, Package, ValidEnv, Wf;
    CloseEndsEarly(e, Postpone(e, st, t));
    CloseEndsEarly(e, Place(e, st, t));
  }

  lemma StepEndsIdle(e: Env, st: State)
    requires ValidEnv(e) && Wf(e, st) && Step(e, st).Finished?
    ensures var r := Step(e, st).st; !HasWork(r) || |r.blocks| < Monus(e.maxBlocks, 1)
  {
    hide MaybeClose, Consider, Take, Candidate, SkipTop;
    var s := st.(top := SkipTop(e, st, st.top));
    CloseEndsEarly(e, s);
    if Candidate(e, s).Some? {
      ConsiderEndsEarly(e, Take(e, s), Candidate(e, s).value);
    }
  }

  lemma {:induction false} RunEndsIdle(e: Env, arr: seq<Txid>, n: nat)
    requires ValidEnv(e) && InitialArray(e, arr) && Iterate(e, Init(e, arr), n).Finished?
    ensures var st := Iterate(e, Init(e, arr), n).st; !HasWork(st) || |st.blocks| < Monus(e.maxBlocks, 1)
  {
    hide InitialArray, Init, Step;
    var r := Iterate(e, Init(e, arr), n - 1);
    if r.Finished? {
      RunEndsIdle(e, arr, n - 1);
    } else {
      StepEndsIdle(e, r.st);
    }
  }

  /** If as many blocks as permitted come out (or at most one is permitted), the templates are maximal. */
  lemma TemplatesAreMaximal(e: Env, arr: seq<Txid>, blocks: seq<seq<Txid>>, rates: map<Txid, real>, u: Txid)
    requires ValidEnv(e) && Nested(e) && InitialArray(e, arr) && Produces(e, arr, blocks, rates) && u in e.txs
    requires e.maxBlocks <= 1 || |blocks| >= e.maxBlocks
    ensures rates.Keys <= e.txs.Keys
    ensures u !in rates <==> Excluded(e, rates.Keys, u)
  {
    hide Iterate, InitialArray, Packed, Excluded, Scheduled, Safe;
    var n: nat :|
      var r := Iterate(e, Init(e, arr), n);
      r.Finished? && blocks == BlocksOf(r.st) && rates == r.st.rates;
    var st := Iterate(e, Init(e, arr), n).st;
    RunEndsIdle(e, arr, n);
    RunIsSafe(e, arr, n);
    RunIsScheduled(e, arr, n);
    RunIsBounded(e, arr, n);
    hide Init;
    LastBlockIsMaximal(e, st, u);
  }
}
