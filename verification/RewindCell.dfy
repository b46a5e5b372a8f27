/** The cell through which the reorg poller and the indexer agree on how far to rewind: posters lower it with a
    compare-and-swap loop, the indexer takes its value and resets it. Every atomic operation is one step. */
module RewindCell {
  import opened Collections

  const NO_REWIND: nat := 0xffff_ffff

  /** A poster that posts `height`: about to load the cell, about to compare-and-swap from what it last saw,
      or finished, having lowered the cell or not. */
  datatype Poster =
    | Loading(height: nat)
    | Swapping(height: nat, seen: nat)
    | Finished(height: nat, lowered: bool)

  /** `posted` holds the heights whose post took effect since the indexer last took the cell, `taken` what the
      indexer took, in order. */
  datatype State = State(cell: nat, posters: seq<Poster>, posted: multiset<nat>, taken: seq<nat>)

  datatype Action = Post(height: nat) | Move(poster: nat) | Take

  const INIT := State(NO_REWIND, [], multiset{}, [])

  predicate Enabled(s: State, a: Action) {
    a.Move? ==> a.poster < |s.posters| && !s.posters[a.poster].Finished?
  }

  /** What a poster does after seeing `seen`: give up if its height is no lower, else try to swap. */
  function Saw(s: State, p: nat, height: nat, seen: nat): State
    requires p < |s.posters|
  {
    if height < seen then s.(posters := s.posters[p := Swapping(height, seen)])
    else s.(posters := s.posters[p := Finished(height, false)], posted := s.posted + multiset{height})
  }

  function Next(s: State, a: Action): State
    requires Enabled(s, a)
  {
    match a
    case Post(height) => s.(posters := s.posters + [Loading(height)])
    case Take => State(NO_REWIND, s.posters, multiset{}, s.taken + [s.cell])
    case Move(p) =>
      match s.posters[p]
      case Loading(height) => Saw(s, p, height, s.cell)
      case Swapping(height, seen) =>
        if s.cell == seen
        then s.(cell := height, posters := s.posters[p := Finished(height, true)], posted := s.posted + multiset{height})
        else Saw(s, p, height, s.cell)
      case Finished(_, _) => s
  }

  predicate Feasible(s: State, actions: seq<Action>)
    decreases |actions|
  {
    actions != [] ==> Enabled(s, actions[0]) && Feasible(Next(s, actions[0]), actions[1..])
  }

  function Exec(s: State, actions: seq<Action>): State
    requires Feasible(s, actions)
    decreases |actions|
  {
    if actions == [] then s else Exec(Next(s, actions[0]), actions[1..])
  }

  /** `m` is the least of the posted heights, or no rewind if there are none below it. */
  ghost predicate IsMinimum(m: nat, posted: multiset<nat>) {
    && m <= 0xffff_ffff
    && (m == 0xffff_ffff || m in posted)
    && forall h :: h in posted ==> m <= h
  }

  ghost predicate Invariant(s: State) {
    && IsMinimum(s.cell, s.posted)
    && (forall p <- s.posters :: p.Swapping? ==> p.height < p.seen <= NO_REWIND)
    && (forall p <- s.posters :: p.Finished? ==> Heard(s, p.height))
  }

  /** The indexer took, or will next take, a height at or below `height`. */
  ghost predicate Heard(s: State, height: nat) {
    s.cell <= height || exists t :: t in s.taken && t <= height
  }

  lemma HeardStays(s: State, a: Action, height: nat)
    requires Invariant(s) && Enabled(s, a) && Heard(s, height)
    ensures Heard(Next(s, a), height)
  {
    if t :| t in s.taken && t <= height {
      assert t in Next(s, a).taken;
    } else if a.Take? {
      assert s.cell in Next(s, a).taken;
    } else if a.Move? {
      assert s.posters[a.poster] in s.posters;
    }
  }

  lemma NextIsInvariant(s: State, a: Action)
    requires Invariant(s) && Enabled(s, a)
    ensures Invariant(Next(s, a))
  {
    forall p | p in Next(s, a).posters && p.Finished?
      ensures Heard(Next(s, a), p.height)
    {
      if p in s.posters {
        HeardStays(s, a, p.height);
      }
    }
    if a.Move? {
      assert s.posters[a.poster] in s.posters;
    }
  }

  /** In every interleaving of posts and takes, the cell holds the least height posted since the last take. */
  lemma {:induction false} CellHoldsMinimum(s: State, actions: seq<Action>)
    requires Invariant(s) && Feasible(s, actions)
    ensures Invariant(Exec(s, actions))
    decreases |actions|
  {
    if actions != [] {
      NextIsInvariant(s, actions[0]);
      CellHoldsMinimum(Next(s, actions[0]), actions[1..]);
    }
  }

  /** Hence no post is lost: once a poster is finished, the indexer has taken, or will take next, a height at
      or below the one it posted. */
  lemma NoPostIsLost(actions: seq<Action>, p: nat)
    requires Feasible(INIT, actions) && p < |Exec(INIT, actions).posters| && Exec(INIT, actions).posters[p].Finished?
    ensures var s := Exec(INIT, actions);
            s.cell <= s.posters[p].height || exists t :: t in s.taken && t <= s.posters[p].height
  {
    CellHoldsMinimum(INIT, actions);
    assert Exec(INIT, actions).posters[p] in Exec(INIT, actions).posters;
  }

  /** A post answers that it lowered the cell exactly if it did, and then to its own height. */
  lemma LoweredTells(s: State, p: nat)
    requires Invariant(s) && p < |s.posters| && !s.posters[p].Finished?
    ensures var r := Next(s, Move(p));
            && r.posters[p].height == s.posters[p].height
            && (r.posters[p].Finished? ==> (r.posters[p].lowered <==> r.cell < s.cell))
            && (if r.posters[p].Finished? && r.posters[p].lowered then r.cell == s.posters[p].height else r.cell == s.cell)
  {
    assert s.posters[p] in s.posters;
  }

  // ---- progress ------------------------------------------------------------------------------------

  /** Whether the poster's next step finishes it. */
  predicate Succeeds(s: State, p: nat)
    requires p < |s.posters|
  {
    match s.posters[p]
    case Loading(height) => height >= s.cell
    case Swapping(height, seen) => s.cell == seen || height >= s.cell
    case Finished(_, _) => true
  }

  /** A poster has to try again only if somebody else changed the cell since it looked: after a step that does
      not finish it, it sees the current value. */
  lemma RetryMeansChange(s: State, p: nat)
    requires p < |s.posters| && !s.posters[p].Finished?
    ensures Succeeds(s, p) <==> Next(s, Move(p)).posters[p].Finished?
    ensures !Succeeds(s, p) ==> Next(s, Move(p)).posters[p] == Swapping(s.posters[p].height, s.cell) && Next(s, Move(p)).cell == s.cell
    ensures !Succeeds(s, p) ==> Succeeds(Next(s, Move(p)), p)
  {
  }
}
