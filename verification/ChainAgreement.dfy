/** When the blocks kept by height form a chain, and when they agree with the node after a rewind. */
module ChainAgreement {
  import opened Collections
  import opened Divergence
  import opened BlockTree
  import opened Indexer
  import RewindCell

  /** For linked chains that can be read, a divergence check leads to agreement: what lies below the reported
      height is on the node's chain, the reported block is not, and no report means all of it is. */
  lemma RewindRestoresAgreement(rules: Rules, store: Store, n: nat, a: Answers, coreTip: nat, d: Option<nat>)
    requires WellFormed(rules) && Committed(rules, store, n) && LinkedHeights(rules, store.heights) && n > rules.genesis
    requires var tip := CheckTip(n - 1, coreTip);
             && Linked(a.chain, rules.parent, tip, rules.genesis)
             && (forall h :: rules.genesis <= h <= tip ==> a.chain(h).Some? && a.readable(h))
             && IsDivergence(ReadingsOf(a, store.heights), tip, rules.genesis, d)
    ensures d.Some? ==> d.value in store.heights && a.chain(d.value) != Some(store.heights[d.value])
    ensures d.Some? ==> forall h <- Below(store.heights, d.value) :: a.chain(h) == Some(store.heights[h])
    ensures d.None? ==> forall h <- store.heights :: h <= coreTip ==> a.chain(h) == Some(store.heights[h])
  {
    hide RootsAreSound, IsDivergence;
    var r, tip := ReadingsOf(a, store.heights), CheckTip(n - 1, coreTip);
    forall h | rules.genesis <= h <= tip ensures Known(r, h) {
      assert h in store.heights && a.chain(h).Some? && a.readable(h);
    }
    StoredIsLinked(rules, store, n, a, tip);
    LinkedWalkFindsLeast(r, rules.parent, tip, rules.genesis, d);
    forall h | h in store.heights && Agrees(r, h) ensures a.chain(h) == Some(store.heights[h]) {
    }
    if d.Some? {
      forall h <- Below(store.heights, d.value) ensures Agrees(r, h) {
        assert rules.genesis <= h < d.value;
      }
    } else {
      forall h <- store.heights | h <= coreTip ensures Agrees(r, h) {
        assert rules.genesis <= h <= tip;
      }
    }
  }

  lemma StoredIsLinked(rules: Rules, store: Store, n: nat, a: Answers, tip: nat)
    requires WellFormed(rules) && Committed(rules, store, n) && LinkedHeights(rules, store.heights) && tip < n
    ensures Linked(ReadingsOf(a, store.heights).stored, rules.parent, tip, rules.genesis)
  {
  }

  // ---- a chain that comes back ----------------------------------------------------------------------------

  /** Two branches: hash `2 * h + 2` and hash `2 * h + 3` stand at height `h`, each on its own branch. */
  function Branches(): Rules {
    Rules(0, 0, x => x / 2 - 1, x => if x >= 2 then x - 2 else 0, (root, x) => x)
  }

  function Plain(hash: Hash): BlockAnswers {
    BlockAnswers(Block(hash, Branches().parent(hash)), Some(hash), [], 0, true, true, ReorgAnswers([], true, []))
  }

  /** A node on the even (`side` 0) or odd branch up to height `tip`, where the block source then hands out `block`. */
  function Seen(side: nat, tip: nat, block: Hash): Answers {
    Answers([], ReorgAnswers([], true, []), Some(tip), Some(tip), h => Some(2 * h + 2 + side), h => true,
            n => if n == tip && Branches().height(block) == tip then Some(Plain(block)) else None)
  }

  /** An indexer without modules. */
  ghost predicate Bare(state: IndexerState)
    reads state, state.tree
  {
    && state.tree.rules == Branches() && state.setup == Setup([], None, None) && state.modules == []
    && state.running && state.Aligned()
  }

  method Start() returns (state: IndexerState)
    ensures fresh(state) && fresh(state.tree) && Bare(state) && state.nextHeight == 0
    ensures state.tree.store.heights == map[] && state.rewindTarget == RewindCell.NO_REWIND
  {
    var tree := new Tree(Branches());
    state := new IndexerState(tree, Setup([], None, None), [], 0);
  }

  lemma BranchesAre(h: nat)
    ensures Branches().height(2 * h + 2) == Branches().height(2 * h + 3) == h
    ensures h > 0 ==> Branches().parent(2 * h + 2) == 2 * h && Branches().parent(2 * h + 3) == 2 * h + 1
  {
  }

  function ResumeHeight(state: IndexerState): nat
    reads state
  {
    if state.rewindTarget < state.nextHeight && state.rewindTarget != RewindCell.NO_REWIND then state.rewindTarget else state.nextHeight
  }

  lemma SeenFits(side: nat, tip: nat, block: Hash)
    ensures AnswersFit(Branches(), Seen(side, tip, block), 0)
  {
    var a := Seen(side, tip, block);
    forall n | a.loaded(n).Some? ensures BlockFits(Branches(), a.loaded(n).value, n, 0) {
      assert a.loaded(n) == Some(Plain(block));
    }
  }

  /** Where the stored tip is on the node's branch, nothing is reported and a block whose parent has a root is committed. */
  lemma SeenCommits(side: nat, n: nat, block: Hash, heights: map<nat, Hash>, roots: map<Hash, Root>)
    requires Branches().height(block) == n && (n == 0 || Branches().parent(block) in roots)
    requires n > 0 ==> n - 1 in heights && heights[n - 1] == 2 * (n - 1) + 2 + side
    requires n == 0 ==> heights == map[]
    ensures var setup, a := Setup([], None, None), Seen(side, n, block);
            Commits(setup, Branches(), a, n, heights, roots) && !Stops(setup, Branches(), a, n, heights, roots)
  {
    var a := Seen(side, n, block);
    var tip := if n > 0 then n - 1 else 0;
    assert CheckTip(Monus(n, 1), n) == tip;
    assert !Differs(ReadingsOf(a, heights), tip);
    assert Proceeds(Branches(), a, n, heights);
    assert a.loaded(n) == Some(Plain(block));
  }

  /** One iteration of the loop, in which the block is committed. */
  method Advance(state: IndexerState, side: nat, block: Hash)
    requires Bare(state)
    requires var n := ResumeHeight(state);
             && Branches().height(block) == n && (n == 0 || Branches().parent(block) in state.tree.store.roots)
             && (n > 0 ==> n - 1 in state.tree.store.heights && state.tree.store.heights[n - 1] == 2 * (n - 1) + 2 + side)
    modifies state, state.tree
    ensures Bare(state) && state.nextHeight == old(ResumeHeight(state)) + 1 && state.rewindTarget == RewindCell.NO_REWIND
    ensures state.tree.store.heights == Below(old(state.tree.store.heights), old(ResumeHeight(state)))[old(ResumeHeight(state)) := block]
    ensures old(state.tree.store.roots).Keys + {block} <= state.tree.store.roots.Keys
  {
    hide StateOf, Committed, Commits, Stops, Diverges, Asks, AnswersFit, LinkedHeights, Steady, RootsAreSound;
    var n := ResumeHeight(state);
    var a := Seen(side, n, block);
    assert state.Resume(a) == n && a.loaded(n) == Some(Plain(block));
    SeenFits(side, n, block);
    SeenCommits(side, n, block, Below(state.tree.store.heights, n), state.tree.store.roots);
    var _ := state.Iterate(a);
  }

  lemma SeenAsks(side: nat, n: nat, block: Hash, heights: map<nat, Hash>, roots: map<Hash, Root>)
    requires n > 0 && forall h :: 0 <= h < n ==> h in heights && heights[h] != 2 * h + 2 + side
    ensures var setup, a := Setup([], None, None), Seen(side, n, block);
            Asks(Branches(), a, n, heights, 0) && !Commits(setup, Branches(), a, n, heights, roots) && !Stops(setup, Branches(), a, n, heights, roots)
  {
    var a := Seen(side, n, block);
    var r := ReadingsOf(a, heights);
    assert CheckTip(Monus(n, 1), n) == n - 1;
    forall k | 0 <= k <= n - 1 ensures Differs(r, k) {
    }
    assert Diverges(Branches(), a, n, heights, 0);
  }

  /** One iteration of the loop, in which the stored blocks turn out to be on the other branch from the start. */
  method Notice(state: IndexerState, side: nat)
    requires Bare(state) && state.rewindTarget == RewindCell.NO_REWIND && 0 < state.nextHeight
    requires forall h :: 0 <= h < state.nextHeight ==> h in state.tree.store.heights && state.tree.store.heights[h] != 2 * h + 2 + side
    modifies state, state.tree
    ensures Bare(state) && state.nextHeight == old(state.nextHeight) && state.rewindTarget == 0
    ensures old(state.tree.store.roots).Keys <= state.tree.store.roots.Keys
  {
    hide StateOf, Committed, Commits, Stops, Diverges, Asks, AnswersFit, LinkedHeights, Steady;
    var n := state.nextHeight;
    var a := Seen(side, n, 0);
    assert state.Resume(a) == n;
    SeenFits(side, n, 0);
    SeenAsks(side, n, 0, Below(state.tree.store.heights, n), state.tree.store.roots);
    var _ := state.Iterate(a);
  }

  method OddBlocks() returns (state: IndexerState)
    ensures fresh(state) && fresh(state.tree) && Bare(state) && state.nextHeight == 2 && state.rewindTarget == RewindCell.NO_REWIND
    ensures state.tree.store.heights == map[0 := 3, 1 := 5] && 5 in state.tree.store.roots
  {
    hide Bare, Branches;
    state := Start();
    BranchesAre(0);
    BranchesAre(1);
    Advance(state, 1, 3);
    Advance(state, 1, 5);
  }

  method OddThenEven() returns (state: IndexerState)
    ensures fresh(state) && fresh(state.tree) && Bare(state) && state.nextHeight == 2 && state.rewindTarget == RewindCell.NO_REWIND
    ensures state.tree.store.heights == map[0 := 2, 1 := 4] && 5 in state.tree.store.roots
  {
    hide Bare, Branches;
    state := OddBlocks();
    BranchesAre(0);
    BranchesAre(1);
    Notice(state, 0);
    Advance(state, 0, 2);
    Advance(state, 0, 4);
  }

  /** A run of the loop. Odd blocks are committed at heights 0 and 1, then the node turns to the even branch, which is
      noticed, and even blocks are committed there instead. At height 2 the divergence check still sees the even
      branch, but by the time the block is loaded the node is back on the odd one: its block is committed on top of
      an even block, because its parent still has a root. The next iteration, with the node on the odd branch
      throughout, notices nothing and goes on from there. */
  method ReturningBranchUnlinks() returns (heights: map<nat, Hash>)
    ensures heights == map[0 := 2, 1 := 4, 2 := 7, 3 := 9] && !LinkedHeights(Branches(), heights)
  {
    hide Bare, Branches;
    var state := OddThenEven();
    BranchesAre(1);
    BranchesAre(2);
    BranchesAre(3);
    Advance(state, 0, 7);
    Advance(state, 1, 9);
    heights := state.tree.store.heights;
    assert heights[2] == 7 && heights[1] == 4;
  }

  /** The divergence check against the odd branch then sees equal tips and reports nothing, although heights 0
      and 1 differ. */
  lemma UnlinkedHeightsMislead(heights: map<nat, Hash>)
    requires heights == map[0 := 2, 1 := 4, 2 := 7, 3 := 9]
    ensures var odd := Readings(h => Some(2 * h + 3), h => if h in heights then Some(heights[h]) else None);
            IsDivergence(odd, 3, 0, None) && !IsLeastDisagreement(odd, 3, 0, None)
  {
    var odd := Readings(h => Some(2 * h + 3), h => if h in heights then Some(heights[h]) else None);
    assert WalkEnds(odd, 3, 0, 3);
    assert !Agrees(odd, 0);
  }
}
