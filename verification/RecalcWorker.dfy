/** The background template recalculation: callers raise a flag and leave, one worker thread at a time lowers
    it and recalculates. Every atomic operation of every thread is one step, in any interleaving. */
module RecalcWorker {
  import opened Collections

  /** Where a thread stands: the next atomic operation it will perform. A caller that claims the worker and
      spawns it continues as that worker. */
  datatype Pc =
    | Storing        // a caller, about to raise the pending flag
    | Claiming       // about to swap the running flag to true
    | Spawning       // about to spawn the worker
    | Checking       // the worker, about to swap the pending flag to false
    | Entering       // about to try the template lock
    | Working        // recalculating, lock held
    | Retiring       // about to lower the running flag
    | Rechecking     // about to look at the pending flag again
    | Reclaiming     // about to swap the running flag to true again
    | Releasing      // a caller whose spawn failed, about to lower the running flag
    | Clearing       // about to lower the pending flag
    | InlineEntering // about to try the template lock
    | InlineWorking  // recalculating in the caller's thread, lock held
    | Done

  /** `owner` is the thread that raised the running flag, `waiting` holds the requests since whose arrival no
      recalculation has begun, `runs` counts the worker's recalculations, `turns` the tries of the lock that found
      it held, and `spawnFailed` records that a spawn failed. `stranded` is set by a try that was turned away with
      the pending flag down, to the requests then waiting, until the flag is next raised or a recalculation
      begins. */
  datatype Shared = Shared(
    pending: bool, running: bool, owner: Option<nat>, holder: Option<nat>,
    waiting: set<nat>, stranded: set<nat>, runs: nat, turns: nat, spawnFailed: bool)

  datatype State = State(threads: seq<Pc>, m: Shared)

  datatype Action = Arrive | Move(thread: nat, spawned: bool)

  const INIT := State([], Shared(false, false, None, None, {}, {}, 0, 0, false))

  function TurnedAway(m: Shared): Shared {
    m.(turns := m.turns + 1, stranded := if m.pending then {} else m.waiting)
  }

  /** The next atomic operation of thread `t`; `spawned` is the outcome of a spawn. */
  function Step(m: Shared, t: nat, pc: Pc, spawned: bool): (Pc, Shared) {
    match pc
    case Storing => (Claiming, m.(pending := true, stranded := {}))
    case Claiming => if m.running then (Done, m) else (Spawning, m.(running := true, owner := Some(t)))
    case Spawning => if spawned then (Checking, m) else (Releasing, m.(spawnFailed := true))
    case Checking => if m.pending then (Entering, m.(pending := false)) else (Retiring, m)
    case Entering =>
      if m.holder.None? then (Working, m.(holder := Some(t), waiting := {}, stranded := {}, runs := m.runs + 1))
      else (Checking, TurnedAway(m))
    case Working => (Checking, m.(holder := None))
    case Retiring => (Rechecking, m.(running := false, owner := None))
    case Rechecking => if m.pending then (Reclaiming, m) else (Done, m)
    case Reclaiming => if m.running then (Done, m) else (Checking, m.(running := true, owner := Some(t)))
    case Releasing => (Clearing, m.(running := false, owner := None))
    case Clearing => (InlineEntering, m.(pending := false))
    case InlineEntering =>
      if m.holder.None? then (InlineWorking, m.(holder := Some(t), waiting := {}, stranded := {}))
      else (Done, TurnedAway(m))
    case InlineWorking => (Done, m.(holder := None))
    case Done => (Done, m)
  }

  predicate Enabled(s: State, a: Action) {
    a.Move? ==> a.thread < |s.threads| && s.threads[a.thread] != Done
  }

  function Next(s: State, a: Action): State
    requires Enabled(s, a)
  {
    match a
    case Arrive => State(s.threads + [Storing], s.m.(waiting := s.m.waiting + {|s.threads|}))
    case Move(t, spawned) =>
      var (pc, m) := Step(s.m, t, s.threads[t], spawned);
      State(s.threads[t := pc], m)
  }

  /** A schedule: any interleaving of arrivals and steps. */
  predicate Feasible(s: State, actions: seq<Action>)
    decreases |actions|
  {
    actions != [] ==> Enabled(s, actions[0]) && Feasible(Next(s, actions[0]), actions[1..])
  }

  function Exec(s: State, actions: seq<Action>): State
    requires Feasible(s, actions)
    decreases |actions|
  {
    if actions == [] then s else Exec(Next(s, actions[0]), actions[1..])
  }

  // ---- invariants ----------------------------------------------------------------------------------

  /** The threads that hold the worker's role. */
  predicate Owns(pc: Pc) {
    pc.Spawning? || pc.Checking? || pc.Entering? || pc.Working? || pc.Retiring? || pc.Releasing?
  }

  predicate Holds(pc: Pc) {
    pc.Working? || pc.InlineWorking?
  }

  /** `who` is the one thread at a point that `p` describes. */
  ghost predicate Marks(threads: seq<Pc>, p: Pc -> bool, who: Option<nat>) {
    && (forall i :: 0 <= i < |threads| ==> (p(threads[i]) <==> who == Some(i)))
    && (who.Some? ==> who.value < |threads|)
  }

  /** The running flag is up exactly while one thread holds the role; the lock is held by who recalculates. */
  ghost predicate Exclusive(s: State) {
    && Marks(s.threads, Owns, s.m.owner) && (s.m.running <==> s.m.owner.Some?)
    && Marks(s.threads, Holds, s.m.holder)
  }

  /** The threads that still will look at a pending flag nobody is there to serve. */
  predicate Watches(pc: Pc) {
    pc.Claiming? || pc.Rechecking? || pc.Reclaiming? || pc.Clearing?
  }

  predicate WillRun(pc: Pc) {
    pc.Entering? || pc.InlineEntering?
  }

  ghost predicate Has(threads: seq<Pc>, p: Pc -> bool) {
    exists i :: 0 <= i < |threads| && p(threads[i])
  }

  /** No request is forgotten: it is stranded, or yet to be raised, or the flag is up, or somebody is about to run; and
      a raised flag has a worker or someone who will look at it. */
  ghost predicate Covered(s: State) {
    && (forall r :: r in s.m.waiting ==>
          r < |s.threads| && (r in s.m.stranded || s.threads[r] == Storing || s.m.pending || Has(s.threads, WillRun)))
    && (s.m.pending ==> s.m.running || Has(s.threads, Watches))
    && Stranding(s.m)
  }

  /** Only a turned-away try strands requests, and a raised flag rescues them. */
  ghost predicate Stranding(m: Shared) {
    m.stranded <= m.waiting && (m.pending || m.turns == 0 ==> m.stranded == {})
  }

  ghost predicate NoInline(s: State) {
    forall pc <- s.threads :: !(pc.Releasing? || pc.Clearing? || pc.InlineEntering? || pc.InlineWorking?)
  }

  lemma MarksStep(threads: seq<Pc>, p: Pc -> bool, who: Option<nat>, t: nat, pc: Pc)
    requires Marks(threads, p, who) && t < |threads| && (p(pc) ==> who == None || who == Some(t))
    ensures Marks(threads[t := pc], p, if p(pc) then Some(t) else if who == Some(t) then None else who)
  {
  }

  lemma MarksMore(threads: seq<Pc>, p: Pc -> bool, who: Option<nat>)
    requires Marks(threads, p, who) && !p(Storing)
    ensures Marks(threads + [Storing], p, who)
  {
  }

  lemma MarksAt(threads: seq<Pc>, p: Pc -> bool, who: Option<nat>, t: nat)
    requires Marks(threads, p, who) && t < |threads|
    ensures p(threads[t]) <==> who == Some(t)
  {
  }

  /** The role is taken only when free and given up only by who has it. */
  lemma StepOwns(m: Shared, t: nat, pc: Pc, spawned: bool)
    requires (m.running <==> m.owner.Some?) && (Owns(pc) <==> m.owner == Some(t))
    ensures var (pc', m') := Step(m, t, pc, spawned);
            && (m'.running <==> m'.owner.Some?)
            && (Owns(pc') ==> m.owner == None || m.owner == Some(t))
            && m'.owner == (if Owns(pc') then Some(t) else if m.owner == Some(t) then None else m.owner)
  {
  }

  /** And so is the lock. */
  lemma StepHolds(m: Shared, t: nat, pc: Pc, spawned: bool)
    requires Holds(pc) <==> m.holder == Some(t)
    ensures var (pc', m') := Step(m, t, pc, spawned);
            && (Holds(pc') ==> m.holder == None || m.holder == Some(t))
            && m'.holder == (if Holds(pc') then Some(t) else if m.holder == Some(t) then None else m.holder)
  {
  }

  lemma NextIsExclusive(s: State, a: Action)
    requires Exclusive(s) && Enabled(s, a)
    ensures Exclusive(Next(s, a))
  {
    hide Marks, Step, Owns, Holds;
    match a
    case Arrive =>
      StoringIsIdle();
      MarksMore(s.threads, Owns, s.m.owner);
      MarksMore(s.threads, Holds, s.m.holder);
    case Move(t, spawned) =>
      var (pc, m) := Step(s.m, t, s.threads[t], spawned);
      MarksAt(s.threads, Owns, s.m.owner, t);
      MarksAt(s.threads, Holds, s.m.holder, t);
      StepOwns(s.m, t, s.threads[t], spawned);
      StepHolds(s.m, t, s.threads[t], spawned);
      MarksStep(s.threads, Owns, s.m.owner, t, pc);
      MarksStep(s.threads, Holds, s.m.holder, t, pc);
  }

  lemma StoringIsIdle()
    ensures !Owns(Storing) && !Holds(Storing) && !Watches(Storing) && !WillRun(Storing)
  {
  }

  lemma HasAt(threads: seq<Pc>, p: Pc -> bool, i: nat)
    requires i < |threads| && p(threads[i])
    ensures Has(threads, p)
  {
  }

  lemma HasStill(threads: seq<Pc>, p: Pc -> bool, t: nat, pc: Pc)
    requires t < |threads| && (p(threads[t]) ==> p(pc))
    ensures Has(threads, p) ==> Has(threads[t := pc], p)
  {
    if Has(threads, p) {
      var i :| 0 <= i < |threads| && p(threads[i]);
      HasAt(threads[t := pc], p, i);
    }
  }

  lemma HasMore(threads: seq<Pc>, p: Pc -> bool, pc: Pc)
    ensures Has(threads, p) ==> Has(threads + [pc], p)
  {
    if Has(threads, p) {
      var i :| 0 <= i < |threads| && p(threads[i]);
      HasAt(threads + [pc], p, i);
    }
  }

  /** What a step does for the requests it does not serve. */
  lemma StepIsCovered(m: Shared, t: nat, pc: Pc, spawned: bool)
    requires (Owns(pc) ==> m.running) && Stranding(m)
    ensures var (pc', m') := Step(m, t, pc, spawned);
            && m'.waiting <= m.waiting && Stranding(m')
            && (m'.waiting != {} && m.pending ==> m'.pending || WillRun(pc'))
            && (m'.waiting != {} && WillRun(pc) ==> WillRun(pc') || m'.pending || m'.stranded == m'.waiting)
            && (m'.waiting != {} && m.stranded != {} ==> m.stranded <= m'.stranded || m'.pending)
            && (pc == Storing ==> m'.pending)
            && (m'.pending && (!m.pending || m.running || Watches(pc)) ==> m'.running || Watches(pc'))
  {
  }

  lemma NextIsCovered(s: State, a: Action)
    requires Exclusive(s) && Covered(s) && Enabled(s, a)
    ensures Covered(Next(s, a))
  {
    hide Has, Exclusive, Step, Owns, WillRun, Watches;
    match a
    case Arrive =>
      HasMore(s.threads, WillRun, Storing);
      HasMore(s.threads, Watches, Storing);
    case Move(t, spawned) =>
      var (pc, m) := Step(s.m, t, s.threads[t], spawned);
      OwnerRuns(s, t);
      StepIsCovered(s.m, t, s.threads[t], spawned);
      HasSplit(s.threads, WillRun, t, pc);
      HasSplit(s.threads, Watches, t, pc);
  }

  lemma OwnerRuns(s: State, t: nat)
    requires Exclusive(s) && t < |s.threads|
    ensures Owns(s.threads[t]) ==> s.m.running
  {
  }

  lemma HasSplit(threads: seq<Pc>, p: Pc -> bool, t: nat, pc: Pc)
    requires t < |threads|
    ensures p(pc) ==> Has(threads[t := pc], p)
    ensures Has(threads, p) && (p(threads[t]) ==> p(pc)) ==> Has(threads[t := pc], p)
  {
    if p(pc) {
      HasAt(threads[t := pc], p, t);
    } else if !p(threads[t]) {
      HasStill(threads, p, t, pc);
    }
  }

  lemma NextKeepsNoInline(s: State, a: Action)
    requires Exclusive(s) && Enabled(s, a) && NoInline(s) && !Next(s, a).m.spawnFailed && s.m.turns == 0
    ensures NoInline(Next(s, a)) && Next(s, a).m.turns == 0
  {
  }

  // ---- every schedule --------------------------------------------------------------------------------

  ghost predicate Invariant(s: State) {
    && Exclusive(s) && Covered(s)
    && (!s.m.spawnFailed ==> NoInline(s) && s.m.turns == 0)
    && Charged(s)
  }

  /** A request pays for at most one recalculation of the worker. */
  function Charge(pc: Pc): nat {
    if pc.Storing? || pc.Entering? then 1 else 0
  }

  function Charges(threads: seq<Pc>): nat {
    if threads == [] then 0 else Charges(threads[..|threads| - 1]) + Charge(threads[|threads| - 1])
  }

  ghost predicate Charged(s: State) {
    s.m.runs + (if s.m.pending then 1 else 0) + Charges(s.threads) <= |s.threads|
  }

  lemma {:induction false} ChargesUpdate(threads: seq<Pc>, t: nat, pc: Pc)
    requires t < |threads|
    ensures Charges(threads[t := pc]) == Charges(threads) - Charge(threads[t]) + Charge(pc)
  {
    var n := |threads| - 1;
    if t == n {
      assert threads[t := pc][..n] == threads[..n];
    } else {
      ChargesUpdate(threads[..n], t, pc);
      assert threads[t := pc][..n] == threads[..n][t := pc];
    }
  }

  lemma StepIsCharged(m: Shared, t: nat, pc: Pc, spawned: bool)
    ensures var (pc', m') := Step(m, t, pc, spawned);
            m'.runs + (if m'.pending then 1 else 0) + Charge(pc') <= m.runs + (if m.pending then 1 else 0) + Charge(pc)
  {
  }

  lemma NextIsCharged(s: State, a: Action)
    requires Charged(s) && Enabled(s, a)
    ensures Charged(Next(s, a))
  {
    match a
    case Arrive =>
      assert (s.threads + [Storing])[..|s.threads|] == s.threads;
    case Move(t, spawned) =>
      hide Step, Charge;
      StepIsCharged(s.m, t, s.threads[t], spawned);
      ChargesUpdate(s.threads, t, Step(s.m, t, s.threads[t], spawned).0);
  }

  lemma FlagsStay(s: State, a: Action)
    requires Enabled(s, a)
    ensures s.m.turns <= Next(s, a).m.turns
    ensures s.m.spawnFailed ==> Next(s, a).m.spawnFailed
  {
  }

  lemma NextIsInvariant(s: State, a: Action)
    requires Invariant(s) && Enabled(s, a)
    ensures Invariant(Next(s, a))
  {
    hide Exclusive, Covered, NoInline, Charged, Next;
    NextIsExclusive(s, a);
    NextIsCharged(s, a);
    FlagsStay(s, a);
    NextIsCovered(s, a);
    if !Next(s, a).m.spawnFailed {
      NextKeepsNoInline(s, a);
    }
  }

  lemma {:induction false} ExecIsInvariant(s: State, actions: seq<Action>)
    requires Invariant(s) && Feasible(s, actions)
    ensures Invariant(Exec(s, actions))
    decreases |actions|
  {
    hide Invariant;
    if actions != [] {
      NextIsInvariant(s, actions[0]);
      ExecIsInvariant(Next(s, actions[0]), actions[1..]);
    }
  }

  lemma InitIsInvariant()
    ensures Invariant(INIT)
  {
  }

  /** In no schedule do two recalculations overlap, or two threads hold the worker's role, or more worker
      recalculations start than requests were made. */
  lemma OneAtATime(actions: seq<Action>, i: nat, j: nat)
    requires Feasible(INIT, actions)
    ensures var s := Exec(INIT, actions);
            && (i < j < |s.threads| ==> !(Holds(s.threads[i]) && Holds(s.threads[j])) && !(Owns(s.threads[i]) && Owns(s.threads[j])))
            && s.m.runs <= |s.threads|
  {
    InitIsInvariant();
    ExecIsInvariant(INIT, actions);
  }

  ghost predicate Quiet(s: State) {
    forall i :: 0 <= i < |s.threads| ==> s.threads[i] == Done
  }

  /** Once every thread has finished, a recalculation has begun since each request was made, except for exactly the
      stranded ones; without a turned-away try there are none. */
  lemma NoRequestIsLost(actions: seq<Action>)
    requires Feasible(INIT, actions) && Quiet(Exec(INIT, actions))
    ensures Exec(INIT, actions).m.waiting == Exec(INIT, actions).m.stranded
    ensures Exec(INIT, actions).m.turns == 0 ==> Exec(INIT, actions).m.waiting == {}
  {
    InitIsInvariant();
    ExecIsInvariant(INIT, actions);
    QuietIsServed(Exec(INIT, actions));
  }

  lemma QuietIsServed(s: State)
    requires Quiet(s) && Covered(s) && Exclusive(s)
    ensures s.m.waiting == s.m.stranded
  {
    assert s.m.owner.Some? ==> Owns(s.threads[s.m.owner.value]);
    assert !Has(s.threads, WillRun) && !Has(s.threads, Watches);
  }

  lemma {:induction false} TurnsStay(s: State, more: seq<Action>)
    requires Feasible(s, more)
    ensures s.m.turns <= Exec(s, more).m.turns
    ensures s.m.turns == Exec(s, more).m.turns && s.m.stranded == {} ==> Exec(s, more).m.stranded == {}
    decreases |more|
  {
    if more != [] {
      FlagsStay(s, more[0]);
      TurnsStay(Next(s, more[0]), more[1..]);
    }
  }

  /** A request that was lost is served after all once the flag is raised again: if the flag is up at some point and no
      later try of the lock is turned away, nothing is left waiting in the end. */
  lemma RaisedFlagIsServed(actions: seq<Action>, more: seq<Action>)
    requires Feasible(INIT, actions) && Exec(INIT, actions).m.pending
    requires var s := Exec(INIT, actions);
             Feasible(s, more) && Quiet(Exec(s, more)) && Exec(s, more).m.turns == s.m.turns
    ensures Exec(Exec(INIT, actions), more).m.waiting == {}
  {
    var s := Exec(INIT, actions);
    InitIsInvariant();
    ExecIsInvariant(INIT, actions);
    ExecIsInvariant(s, more);
    TurnsStay(s, more);
    QuietIsServed(Exec(s, more));
  }

  lemma {:induction false} NoSpawnFails(s: State, actions: seq<Action>)
    requires Feasible(s, actions) && forall a <- actions :: a.Move? ==> a.spawned
    ensures Exec(s, actions).m.spawnFailed == s.m.spawnFailed
    decreases |actions|
  {
    if actions != [] {
      NoSpawnFails(Next(s, actions[0]), actions[1..]);
    }
  }

  /** As long as spawning works, no try of the lock is turned away, so no request is lost. */
  lemma SpawningSuffices(actions: seq<Action>)
    requires Feasible(INIT, actions) && forall a <- actions :: a.Move? ==> a.spawned
    ensures Exec(INIT, actions).m.turns == 0
    ensures Quiet(Exec(INIT, actions)) ==> Exec(INIT, actions).m.waiting == {}
  {
    InitIsInvariant();
    ExecIsInvariant(INIT, actions);
    NoSpawnFails(INIT, actions);
    if Quiet(Exec(INIT, actions)) {
      NoRequestIsLost(actions);
    }
  }

  // ---- progress ------------------------------------------------------------------------------------------

  /** How far a thread is from being done, given whether the pending flag is up. */
  function Weight(pending: bool, pc: Pc): nat {
    match pc
    case Storing => 0
    case Claiming => 11
    case Spawning => 10
    case Checking => if pending then 2 else 5
    case Entering => 7
    case Working => 6
    case Retiring => if pending then 6 else 4
    case Rechecking => if pending then 5 else 3
    case Reclaiming => if pending then 4 else 8
    case Releasing => 9
    case Clearing => 8
    case InlineEntering => 3
    case InlineWorking => 2
    case Done => 0
  }

  function Weights(pending: bool, threads: seq<Pc>): nat {
    if threads == [] then 0 else Weights(pending, threads[..|threads| - 1]) + Weight(pending, threads[|threads| - 1])
  }

  function Callers(threads: seq<Pc>): nat {
    if threads == [] then 0 else Callers(threads[..|threads| - 1]) + if threads[|threads| - 1].Storing? then 1 else 0
  }

  /** How often the pending flag can still change. */
  function Flips(s: State): nat {
    2 * Callers(s.threads) + if s.m.pending then 1 else 0
  }

  function Rank(s: State): nat {
    Flips(s) * (11 * |s.threads| + 1) + Weights(s.m.pending, s.threads)
  }

  lemma {:induction false} WeightsUpdate(pending: bool, threads: seq<Pc>, t: nat, pc: Pc)
    requires t < |threads|
    ensures Weights(pending, threads[t := pc]) == Weights(pending, threads) - Weight(pending, threads[t]) + Weight(pending, pc)
  {
    var n := |threads| - 1;
    if t == n {
      assert threads[t := pc][..n] == threads[..n];
    } else {
      WeightsUpdate(pending, threads[..n], t, pc);
      assert threads[t := pc][..n] == threads[..n][t := pc];
    }
  }

  lemma {:induction false} CallersUpdate(threads: seq<Pc>, t: nat, pc: Pc)
    requires t < |threads|
    ensures Callers(threads[t := pc]) == Callers(threads) - (if threads[t].Storing? then 1 else 0) + (if pc.Storing? then 1 else 0)
  {
    var n := |threads| - 1;
    if t == n {
      assert threads[t := pc][..n] == threads[..n];
    } else {
      CallersUpdate(threads[..n], t, pc);
      assert threads[t := pc][..n] == threads[..n][t := pc];
    }
  }

  lemma {:induction false} WeightsBound(pending: bool, threads: seq<Pc>)
    ensures Weights(pending, threads) <= 11 * |threads|
  {
    if threads != [] {
      WeightsBound(pending, threads[..|threads| - 1]);
    }
  }

  lemma StepGetsLighter(m: Shared, t: nat, pc: Pc, spawned: bool)
    requires pc != Done
    ensures var (pc', m') := Step(m, t, pc, spawned);
            && !pc'.Storing?
            && (if pc.Storing? then true
                else if m'.pending == m.pending then Weight(m.pending, pc') < Weight(m.pending, pc)
                else m.pending && !m'.pending)
  {
  }

  lemma Lexicographic(a: nat, b: nat, x: nat, y: nat, n: nat)
    requires (a < b && x <= n) || (a == b && x < y)
    ensures a * (n + 1) + x < b * (n + 1) + y
  {
    if a < b {
      assert (a + 1) * (n + 1) <= b * (n + 1);
    }
  }

  /** Every step that is not a new request brings the whole closer to rest. */
  lemma StepsLowerRank(s: State, a: Action)
    requires a.Move? && Enabled(s, a)
    ensures Rank(Next(s, a)) < Rank(s)
  {
    hide Step, Weight;
    var t, s' := a.thread, Next(s, a);
    var pc := s'.threads[t];
    StepGetsLighter(s.m, t, s.threads[t], a.spawned);
    CallersUpdate(s.threads, t, pc);
    WeightsUpdate(s.m.pending, s.threads, t, pc);
    WeightsBound(s'.m.pending, s'.threads);
    Lexicographic(Flips(s'), Flips(s), Weights(s'.m.pending, s'.threads), Weights(s.m.pending, s.threads), 11 * |s.threads|);
  }

  /** Without new requests, every schedule comes to rest, however it is interleaved. */
  lemma {:induction false} ComesToRest(s: State, moves: seq<Action>)
    requires Feasible(s, moves) && forall a <- moves :: a.Move?
    ensures |moves| <= Rank(s)
    ensures Quiet(Exec(s, moves)) || exists a: Action :: a.Move? && Enabled(Exec(s, moves), a)
    decreases |moves|
  {
    hide Rank;
    if moves == [] {
      if t :| 0 <= t < |s.threads| && s.threads[t] != Done {
        assert Enabled(s, Move(t, true));
      }
    } else {
      StepsLowerRank(s, moves[0]);
      ComesToRest(Next(s, moves[0]), moves[1..]);
    }
  }

  // ---- a failed spawn can lose a request -----------------------------------------------------------------

  ghost predicate Reachable(s: State) {
    exists actions :: Feasible(INIT, actions) && Exec(INIT, actions) == s
  }

  lemma {:induction false} ExecAppend(s: State, actions: seq<Action>, a: Action)
    requires Feasible(s, actions) && Enabled(Exec(s, actions), a)
    ensures Feasible(s, actions + [a]) && Exec(s, actions + [a]) == Next(Exec(s, actions), a)
    decreases |actions|
  {
    if actions == [] {
      assert [a][1..] == [];
    } else {
      ExecAppend(Next(s, actions[0]), actions[1..], a);
      assert (actions + [a])[1..] == actions[1..] + [a];
    }
  }

  lemma ReachNext(s: State, a: Action)
    requires Reachable(s) && Enabled(s, a)
    ensures Reachable(Next(s, a))
  {
    var actions :| Feasible(INIT, actions) && Exec(INIT, actions) == s;
    ExecAppend(INIT, actions, a);
  }

  /** Thread `t` takes `n` steps. */
  lemma {:induction false} ReachMoves(s: State, t: nat, spawned: bool, n: nat, end: State)
    requires Reachable(s) && MovesTo(s, t, spawned, n, end)
    ensures Reachable(end)
    decreases n
  {
    if n > 0 {
      ReachNext(s, Move(t, spawned));
      ReachMoves(Next(s, Move(t, spawned)), t, spawned, n - 1, end);
    }
  }

  predicate MovesTo(s: State, t: nat, spawned: bool, n: nat, end: State)
    decreases n
  {
    if n == 0 then s == end
    else Enabled(s, Move(t, spawned)) && MovesTo(Next(s, Move(t, spawned)), t, spawned, n - 1, end)
  }

  /** Thread 0 cannot spawn; after it lowers the running flag, thread 1 claims and runs the worker; thread 2
      asks while that runs; then thread 0 lowers the pending flag that thread 2 raised and is turned away. */
  lemma FailedSpawnLosesRequest()
    ensures exists s :: Reachable(s) && Quiet(s) && s.m.waiting == {2}
  {
    hide Reachable, MovesTo;
    var s1 := State([Clearing], Shared(true, false, None, None, {0}, {}, 0, 0, true));
    var s2 := State([Clearing, Working], Shared(false, true, Some(1), Some(1), {}, {}, 1, 0, true));
    var s3 := State([Clearing, Working, Done], Shared(true, true, Some(1), Some(1), {2}, {}, 1, 0, true));
    SpawnFails(s1);
    SecondRuns(s1, s2);
    ThirdAsks(s2, s3);
    FirstClears(s3);
  }

  lemma SpawnFails(s1: State)
    requires s1 == State([Clearing], Shared(true, false, None, None, {0}, {}, 0, 0, true))
    ensures Reachable(s1)
  {
    hide Reachable;
    InitIsReachable();
    ReachNext(INIT, Arrive);
    ReachMoves(Next(INIT, Arrive), 0, false, 4, s1);
  }

  lemma SecondRuns(s1: State, s2: State)
    requires s1 == State([Clearing], Shared(true, false, None, None, {0}, {}, 0, 0, true)) && Reachable(s1)
    requires s2 == State([Clearing, Working], Shared(false, true, Some(1), Some(1), {}, {}, 1, 0, true))
    ensures Reachable(s2)
  {
    hide Reachable;
    ReachNext(s1, Arrive);
    ReachMoves(Next(s1, Arrive), 1, true, 5, s2);
  }

  lemma ThirdAsks(s2: State, s3: State)
    requires s2 == State([Clearing, Working], Shared(false, true, Some(1), Some(1), {}, {}, 1, 0, true)) && Reachable(s2)
    requires s3 == State([Clearing, Working, Done], Shared(true, true, Some(1), Some(1), {2}, {}, 1, 0, true))
    ensures Reachable(s3)
  {
    hide Reachable;
    ReachNext(s2, Arrive);
    ReachMoves(Next(s2, Arrive), 2, true, 2, s3);
  }

  lemma FirstClears(s3: State)
    requires s3 == State([Clearing, Working, Done], Shared(true, true, Some(1), Some(1), {2}, {}, 1, 0, true)) && Reachable(s3)
    ensures exists s :: Reachable(s) && Quiet(s) && s.m.waiting == {2}
  {
    hide Reachable;
    var s4 := State([Done, Working, Done], Shared(false, true, Some(1), Some(1), {2}, {2}, 1, 1, true));
    ReachMoves(s3, 0, false, 2, s4);
    var s5 := State([Done, Done, Done], Shared(false, false, None, None, {2}, {2}, 1, 1, true));
    ReachMoves(s4, 1, true, 4, s5);
    assert Quiet(s5);
  }

  lemma InitIsReachable()
    ensures Reachable(INIT)
  {
    assert Feasible(INIT, []);
  }
}
