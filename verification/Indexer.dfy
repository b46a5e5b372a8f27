/** The indexer's main loop: take a requested rewind, look for a divergence, commit one block in phases, and roll
    back from whichever phase fails. */
module Indexer {
  import opened Collections
  import opened Divergence
  import opened BlockTree
  import RewindCell

  // ---- what the outside world answers ------------------------------------------------------------

  /** A call into a module: whether it succeeded, and the height the module reports afterwards. */
  datatype ModuleAnswer = ModuleAnswer(ok: bool, height: Option<nat>)

  /** The answers during one switch to an earlier height. */
  datatype ReorgAnswers = ReorgAnswers(preflight: seq<bool>, written: bool, handled: seq<ModuleAnswer>)

  datatype Block = Block(hash: Hash, parent: Hash)

  /** The answers while one block is committed; `junk` is where an unfinished block leaves the working root. */
  datatype BlockAnswers = BlockAnswers(
    block: Block, canonical: Option<Hash>, indexed: seq<ModuleAnswer>, junk: Root, written: bool, summarised: bool, rollback: ReorgAnswers)

  /** The answers during one iteration; `posts` are the rewinds the poller asked for before it, `loaded` what the
      block source gives for a height. */
  datatype Answers = Answers(
    posts: seq<nat>, switch: ReorgAnswers, safeTip: Option<nat>, coreTip: Option<nat>, chain: nat -> Option<Hash>,
    readable: nat -> bool, loaded: nat -> Option<BlockAnswers>)

  /** A module that reports a height at or above `n` claims blocks the tree does not hold. */
  predicate BelowHeight(height: Option<nat>, n: nat) {
    height.Some? ==> height.value < n
  }

  ghost predicate AllBelow(modules: seq<Option<nat>>, n: nat) {
    forall i :: 0 <= i < |modules| ==> BelowHeight(modules[i], n)
  }

  /** A module that indexed a block reports no height above it. */
  ghost predicate IndexesUpTo(answers: seq<ModuleAnswer>, n: nat) {
    forall i :: 0 <= i < |answers| && answers[i].ok ==> BelowHeight(answers[i].height, n + 1)
  }

  ghost predicate Fits(answers: ReorgAnswers, modules: nat) {
    |answers.preflight| == modules && |answers.handled| == modules
  }

  ghost predicate BlockFits(rules: Rules, answers: BlockAnswers, n: nat, modules: nat) {
    && rules.height(answers.block.hash) == n && answers.block.parent == rules.parent(answers.block.hash)
    && |answers.indexed| == modules && IndexesUpTo(answers.indexed, n) && Fits(answers.rollback, modules)
  }

  ghost predicate AnswersFit(rules: Rules, a: Answers, modules: nat) {
    && (forall h <- a.posts :: rules.genesis <= h)
    && Fits(a.switch, modules)
    && forall n :: a.loaded(n).Some? ==> BlockFits(rules, a.loaded(n).value, n, modules)
  }

  /** The readings a divergence check works on. */
  function ReadingsOf(a: Answers, heights: map<nat, Hash>): Readings {
    Readings(a.chain, h => if h in heights && a.readable(h) then Some(heights[h]) else None)
  }

  /** The least of them all. */
  function Lowest(m: nat, posts: seq<nat>): (least: nat)
    ensures least <= m && (forall p <- posts :: least <= p) && (least == m || least in posts)
  {
    if posts == [] then m
    else
      assert posts == [posts[0]] + posts[1..];
      Lowest(if posts[0] < m then posts[0] else m, posts[1..])
  }

  /** The heights the modules report. */
  function Heights(answers: seq<ModuleAnswer>): seq<Option<nat>> {
    seq(|answers|, i requires 0 <= i < |answers| => answers[i].height)
  }

  /** A switch succeeds exactly if every module agrees to it, the tree can be written, and every module then
      reports a height below the one to resume at. */
  ghost predicate SwitchSucceeds(answers: ReorgAnswers, next: nat) {
    && (forall p <- answers.preflight :: p) && answers.written
    && (forall a <- answers.handled :: a.ok && BelowHeight(a.height, next))
  }

  /** The modules that index before the commit. */
  predicate Indexes(setup: Setup, i: nat, n: nat)
    requires i < |setup.genesisOf|
  {
    setup.runes != Some(i) && n >= setup.genesisOf[i]
  }

  predicate RunesIndexes(setup: Setup, n: nat) {
    setup.runes.Some? && setup.runes.value < |setup.genesisOf| && n >= setup.genesisOf[setup.runes.value]
  }

  /** Every module that has begun, except the deferred one, indexes the block. */
  ghost predicate ModulesSucceed(setup: Setup, indexed: seq<ModuleAnswer>, n: nat)
    requires |indexed| == |setup.genesisOf|
  {
    forall i: nat :: i < |indexed| && n >= setup.genesisOf[i] && setup.runes != Some(i) ==> indexed[i].ok
  }

  /** A block is committed exactly if it is the node's block, its parent has a root, every module that has begun indexes
      it, the deferred one included, and the writes succeed. */
  ghost predicate BlockSucceeds(setup: Setup, a: BlockAnswers, n: nat, canBegin: bool)
    requires |a.indexed| == |setup.genesisOf|
  {
    && a.canonical == Some(a.block.hash) && canBegin && a.written && a.summarised
    && forall i: nat :: i < |a.indexed| && n >= setup.genesisOf[i] ==> a.indexed[i].ok
  }

  /** The heights after a block: what the modules that have begun answered, and for the others what it was. */
  ghost predicate HeightsAfter(setup: Setup, before: seq<Option<nat>>, indexed: seq<ModuleAnswer>, n: nat, after: seq<Option<nat>>) {
    && |before| == |indexed| == |after| == |setup.genesisOf|
    && forall i :: 0 <= i < |after| ==> after[i] == if n >= setup.genesisOf[i] then indexed[i].height else before[i]
  }

  /** The same before the deferred module has indexed. */
  ghost predicate HeightsBetween(setup: Setup, before: seq<Option<nat>>, indexed: seq<ModuleAnswer>, n: nat, after: seq<Option<nat>>) {
    && |before| == |indexed| == |after| == |setup.genesisOf|
    && forall i :: 0 <= i < |after| ==>
         after[i] == if n >= setup.genesisOf[i] && setup.runes != Some(i) then indexed[i].height else before[i]
  }

  /** The check before indexing at height `n` reports a divergence at `d`. */
  ghost predicate Diverges(rules: Rules, a: Answers, n: nat, heights: map<nat, Hash>, d: nat) {
    a.coreTip.Some? && IsDivergence(ReadingsOf(a, heights), CheckTip(Monus(n, 1), a.coreTip.value), rules.genesis, Some(d))
  }

  /** An iteration at height `n` asks for a rewind to `d`. */
  ghost predicate Asks(rules: Rules, a: Answers, n: nat, heights: map<nat, Hash>, d: nat) {
    a.safeTip.Some? && a.coreTip.Some? && Diverges(rules, a, n, heights, d) && d < n && d < RewindCell.NO_REWIND
  }

  /** An iteration at height `n` looks for a block if both tips are known and no divergence below `n` shows. */
  ghost predicate Proceeds(rules: Rules, a: Answers, n: nat, heights: map<nat, Hash>) {
    && a.safeTip.Some? && a.coreTip.Some?
    && (forall d: nat :: Diverges(rules, a, n, heights, d) ==> d >= n)
  }

  /** It then tries one if the block is due and there. */
  predicate Tries(setup: Setup, a: Answers, n: nat)
    requires a.safeTip.Some?
  {
    && n <= (if setup.stopAfter.Some? then setup.stopAfter.value else a.safeTip.value)
    && a.loaded(n).Some? && |a.loaded(n).value.indexed| == |setup.genesisOf|
  }

  /** It commits the block exactly if the parent has a root and every phase succeeds. */
  ghost predicate Commits(setup: Setup, rules: Rules, a: Answers, n: nat, heights: map<nat, Hash>, roots: map<Hash, Root>) {
    && Proceeds(rules, a, n, heights) && Tries(setup, a, n)
    && BlockSucceeds(setup, a.loaded(n).value, n, a.loaded(n).value.block.parent in roots || n == rules.genesis)
  }

  /** It ends the indexer exactly if the last height asked for is passed, or a failed block cannot be rolled back. */
  ghost predicate Stops(setup: Setup, rules: Rules, a: Answers, n: nat, heights: map<nat, Hash>, roots: map<Hash, Root>) {
    && Proceeds(rules, a, n, heights)
    && ( || (setup.stopAfter.Some? && n > setup.stopAfter.value)
         || (Tries(setup, a, n) && !Commits(setup, rules, a, n, heights, roots) && !SwitchSucceeds(a.loaded(n).value.rollback, n)))
  }

  /** `runes` is the position of the module that indexes after the commit, if it is there at all. */
  datatype Setup = Setup(genesisOf: seq<nat>, runes: Option<nat>, stopAfter: Option<nat>)

  class IndexerState {
    const tree: Tree
    const setup: Setup
    var modules: seq<Option<nat>>
    var nextHeight: nat
    var sharedHeight: nat
    var rewindTarget: nat
    var running: bool

    /** At the head of an iteration: no module and no committed block at or above the next height, the shared
        height equal to it, and the active state that of the block just below. */
    ghost predicate Aligned()
      reads this, tree
    {
      && |setup.genesisOf| == |modules|
      && AllBelow(modules, nextHeight) && sharedHeight == nextHeight
      && tree.Rests(nextHeight) && tree.rules.genesis <= rewindTarget <= RewindCell.NO_REWIND
    }

    constructor (tree: Tree, setup: Setup, modules: seq<Option<nat>>, start: nat)
      requires |setup.genesisOf| == |modules| && AllBelow(modules, start) && tree.Rests(start)
      requires tree.rules.genesis <= RewindCell.NO_REWIND
      ensures this.tree == tree && this.setup == setup && this.modules == modules && nextHeight == start
      ensures Aligned() && running && rewindTarget == RewindCell.NO_REWIND
    {
      this.tree := tree;
      this.setup := setup;
      this.modules := modules;
      nextHeight := start;
      sharedHeight := start;
      rewindTarget := RewindCell.NO_REWIND;
      running := true;
    }

    // ---- switching to an earlier height ------------------------------------------------------------

    method NotifyModules(answers: seq<ModuleAnswer>) returns (ok: bool)
      requires |answers| == |modules|
      modifies this`modules
      ensures |modules| == |old(modules)|
      ensures ok <==> forall a <- answers :: a.ok
      ensures ok ==> modules == Heights(answers)
    {
      for i := 0 to |answers|
        invariant |modules| == |answers|
        invariant forall k :: 0 <= k < i ==> answers[k].ok && modules[k] == answers[k].height
      {
        modules := modules[i := answers[i].height];
        if !answers[i].ok {
          return false;
        }
      }
      ok := true;
    }

    method VerifyModules(next: nat) returns (ok: bool)
      ensures ok <==> AllBelow(modules, next)
    {
      for i := 0 to |modules|
        invariant AllBelow(modules[..i], next)
      {
        if modules[i].Some? && modules[i].value >= next {
          return false;
        }
      }
      ok := true;
    }

    /** Four phases: ask every module, rewind the tree, let every module re-read its height, and check. */
    method HandleReorgSwitch(next: nat, ghost n: nat, answers: ReorgAnswers) returns (ok: bool)
      requires WellFormed(tree.rules) && Committed(tree.rules, tree.store, n) && tree.rules.genesis <= next <= n
      requires Fits(answers, |modules|)
      modifies this`modules, tree
      ensures |modules| == |old(modules)|
      ensures ok ==> AllBelow(modules, next) && tree.Rests(next) && modules == Heights(answers.handled)
      ensures ok ==> tree.store.heights == Below(old(tree.store.heights), next) && tree.store.roots == old(tree.store.roots)
      ensures ok <==> SwitchSucceeds(answers, next)
    {
      hide Committed;
      if exists p <- answers.preflight :: !p {
        return false;
      }
      ok := tree.RewindBefore(next, n, answers.written);
      if !ok {
        return;
      }
      ok := NotifyModules(answers.handled);
      if !ok {
        return;
      }
      assert forall i :: 0 <= i < |modules| ==> modules[i] == answers.handled[i].height;
      ok := VerifyModules(next);
    }

    method RollbackFailedBlock(next: nat, ghost n: nat, answers: ReorgAnswers) returns (ok: bool)
      requires WellFormed(tree.rules) && Committed(tree.rules, tree.store, n) && tree.rules.genesis <= next <= n
      requires Fits(answers, |modules|)
      modifies this`modules, tree
      ensures |modules| == |old(modules)|
      ensures ok ==> AllBelow(modules, next) && tree.Rests(next) && modules == Heights(answers.handled)
      ensures ok ==> tree.store.heights == Below(old(tree.store.heights), next) && tree.store.roots == old(tree.store.roots)
      ensures ok <==> SwitchSucceeds(answers, next)
    {
      tree.AbortBlock();
      ok := HandleReorgSwitch(next, n, answers);
    }

    // ---- committing one block ---------------------------------------------------------------------------

    method IndexModules(n: nat, indexed: seq<ModuleAnswer>) returns (ok: bool)
      requires |indexed| == |modules| == |setup.genesisOf| && IndexesUpTo(indexed, n) && AllBelow(modules, n)
      modifies this`modules
      ensures |modules| == |old(modules)|
      ensures ok <==> ModulesSucceed(setup, indexed, n)
      ensures ok ==> AllBelow(modules, n + 1) && HeightsBetween(setup, old(modules), indexed, n, modules)
    {
      for i := 0 to |modules|
        invariant |modules| == |indexed|
        invariant AllBelow(modules, n + 1)
        invariant forall k: nat :: k < i && n >= setup.genesisOf[k] && setup.runes != Some(k) ==> indexed[k].ok
        invariant forall k :: 0 <= k < i ==> modules[k] == if n >= setup.genesisOf[k] && setup.runes != Some(k) then indexed[k].height else old(modules)[k]
        invariant forall k :: i <= k < |modules| ==> modules[k] == old(modules)[k]
      {
        if Indexes(setup, i, n) {
          modules := modules[i := indexed[i].height];
          if !indexed[i].ok {
            return false;
          }
        }
      }
      ok := true;
    }

    /** The versioned part: verify, begin, let the modules index, finish. */
    method BuildBlock(a: BlockAnswers) returns (ok: bool)
      requires Aligned() && BlockFits(tree.rules, a, nextHeight, |modules|)
      modifies this`modules, tree
      ensures |modules| == |old(modules)|
      ensures ok <==> a.canonical == Some(a.block.hash) && old(tree.CanBegin(a.block.parent)) && ModulesSucceed(setup, a.indexed, nextHeight) && a.written
      ensures !ok ==> tree.store == old(tree.store)
      ensures ok ==> AllBelow(modules, nextHeight + 1) && tree.Rests(nextHeight + 1) && HeightsBetween(setup, old(modules), a.indexed, nextHeight, modules)
      ensures ok ==> tree.store == Extended(old(tree.store), nextHeight, a.block.hash, a.block.parent, StateOf(tree.rules, a.block.hash))
    {
      hide Committed, StateOf, AllBelow, ModulesSucceed, IndexesUpTo, HeightsBetween;
      var n, x := nextHeight, a.block.hash;
      if a.canonical != Some(x) {
        return false;
      }
      ParentKnown(a.block.parent);
      ok := tree.BeginBlock(n, x, a.block.parent);
      if !ok {
        return;
      }
      ok := IndexModules(n, a.indexed);
      if !ok {
        tree.Write(a.junk);
        return;
      }
      IndexedState(tree.rules, tree.store, n, x);
      CommittedExtends(tree.rules, tree.store, n, x);
      tree.Write(tree.rules.index(tree.current.value.workingRoot, x));
      ok := tree.FinishBlock(a.written);
      if ok {
        TipOfExtended(tree.rules, old(tree.store), n, x);
      }
    }

    method Rollback(n: nat, ghost committed: nat, answers: ReorgAnswers)
      requires WellFormed(tree.rules) && Committed(tree.rules, tree.store, committed) && tree.rules.genesis <= n <= committed
      requires Fits(answers, |modules|)
      modifies this`modules, this`running, tree
      ensures |modules| == |old(modules)|
      ensures running <==> old(running) && SwitchSucceeds(answers, n)
      ensures running ==> AllBelow(modules, n) && tree.Rests(n) && modules == Heights(answers.handled)
      ensures running ==> tree.store.heights == Below(old(tree.store.heights), n) && tree.store.roots == old(tree.store.roots)
    {
      var ok := RollbackFailedBlock(n, committed, answers);
      if !ok {
        running := false;
      }
    }

    /** One block, from the source's answer to the next height: either it is committed as a whole, or, if the
        indexer goes on at all, nothing of it is left but a root nobody asks for. */
    method CommitBlock(a: BlockAnswers) returns (committed: bool)
      requires Aligned() && running && BlockFits(tree.rules, a, nextHeight, |modules|)
      modifies this`modules, this`nextHeight, this`sharedHeight, this`running, tree
      ensures |modules| == |old(modules)|
      ensures committed <==> BlockSucceeds(setup, a, old(nextHeight), old(tree.CanBegin(a.block.parent)))
      ensures committed ==> running && nextHeight == old(nextHeight) + 1 && HeightsAfter(setup, old(modules), a.indexed, old(nextHeight), modules)
      ensures committed ==> tree.store == Extended(old(tree.store), old(nextHeight), a.block.hash, a.block.parent, StateOf(tree.rules, a.block.hash))
      ensures !committed ==> nextHeight == old(nextHeight) && (running <==> SwitchSucceeds(a.rollback, nextHeight))
      ensures !committed && running ==> modules == Heights(a.rollback.handled)
      ensures !committed && running ==> tree.store.heights == old(tree.store.heights) && old(tree.store.roots).Keys <= tree.store.roots.Keys
      ensures running ==> Aligned()
    {
      hide Committed, StateOf, AllBelow, ModulesSucceed, IndexesUpTo, Below, SwitchSucceeds, BlockSucceeds, HeightsBetween, HeightsAfter;
      var n := nextHeight;
      PhasesSucceed(setup, a, n, tree.CanBegin(a.block.parent));
      BelowCommitted(tree.rules, tree.store, n, a.block.hash);
      var ok := BuildBlock(a);
      if !ok {
        Rollback(n, n, a.rollback);
        return false;
      }
      ghost var built := modules;
      if RunesIndexes(setup, n) {
        var runes := setup.runes.value;
        modules := modules[runes := a.indexed[runes].height];
        if !a.indexed[runes].ok {
          Rollback(n, n + 1, a.rollback);
          return false;
        }
        RunesBelow(built, runes, a.indexed, n);
      }
      if !a.summarised {
        Rollback(n, n + 1, a.rollback);
        return false;
      }
      HeightsComplete(setup, old(modules), a.indexed, n, built);
      nextHeight := n + 1;
      sharedHeight := n + 1;
      committed := true;
    }

    // ---- the loop -----------------------------------------------------------------------------------------

    method SetRewindTarget(height: nat) returns (lowered: bool)
      modifies this`rewindTarget
      ensures lowered <==> height < old(rewindTarget)
      ensures rewindTarget == if height < old(rewindTarget) then height else old(rewindTarget)
    {
      lowered := height < rewindTarget;
      if lowered {
        rewindTarget := height;
      }
    }

    method ReceivePosts(posts: seq<nat>)
      requires forall h <- posts :: tree.rules.genesis <= h
      requires tree.rules.genesis <= rewindTarget
      modifies this`rewindTarget
      ensures rewindTarget == Lowest(old(rewindTarget), posts) && tree.rules.genesis <= rewindTarget
    {
      for i := 0 to |posts|
        invariant tree.rules.genesis <= rewindTarget
        invariant Lowest(old(rewindTarget), posts) == Lowest(rewindTarget, posts[i..])
      {
        assert posts[i] in posts;
        var _ := SetRewindTarget(posts[i]);
      }
    }

    /** The height at which the iteration works, once a requested rewind is taken. */
    function Resume(a: Answers): nat
      reads this
    {
      var requested := Lowest(rewindTarget, a.posts);
      if requested != RewindCell.NO_REWIND && requested < nextHeight then requested else nextHeight
    }

    /** The modules' heights once the rewind, if there is one, is taken. */
    function ModulesAt(a: Answers): seq<Option<nat>>
      reads this
    {
      if Resume(a) == nextHeight then modules else Heights(a.switch.handled)
    }

    method TakeRewind(a: Answers)
      requires Aligned() && running && AnswersFit(tree.rules, a, |modules|)
      modifies this`modules, this`nextHeight, this`sharedHeight, this`running, this`rewindTarget, tree
      ensures |modules| == |old(modules)|
      ensures running ==> Aligned() && nextHeight == old(Resume(a))
      ensures running ==> tree.store.heights == Below(old(tree.store.heights), old(Resume(a))) && tree.store.roots == old(tree.store.roots)
      ensures running <==> old(Resume(a)) == old(nextHeight) || SwitchSucceeds(a.switch, old(Resume(a)))
      ensures running ==> modules == old(ModulesAt(a))
      ensures rewindTarget == RewindCell.NO_REWIND
    {
      hide Committed, StateOf, AllBelow, Below, BlockFits, SwitchSucceeds;
      BelowCommitted(tree.rules, tree.store, nextHeight, 0);
      ReceivePosts(a.posts);
      var requested := rewindTarget;
      rewindTarget := RewindCell.NO_REWIND;
      if requested != RewindCell.NO_REWIND && requested < nextHeight {
        var ok := HandleReorgSwitch(requested, nextHeight, a.switch);
        if !ok {
          running := false;
          return;
        }
        nextHeight := requested;
        sharedHeight := requested;
      }
    }

    /** One iteration. Whatever fails and wherever, if the indexer goes on, it goes on aligned: on the blocks below
        the height it resumed at, with or without one more on top. */
    method Iterate(a: Answers) returns (committed: bool)
      requires Aligned() && running && AnswersFit(tree.rules, a, |modules|)
      modifies this`modules, this`nextHeight, this`sharedHeight, this`running, this`rewindTarget, tree
      ensures |modules| == |old(modules)|
      ensures running ==> Aligned()
      ensures running ==> nextHeight == old(Resume(a)) + (if committed then 1 else 0)
      ensures running && !committed ==> tree.store.heights == Below(old(tree.store.heights), old(Resume(a)))
      ensures running ==> (committed <==> Commits(setup, tree.rules, a, old(Resume(a)), Below(old(tree.store.heights), old(Resume(a))), old(tree.store.roots)))
      ensures committed ==> running && rewindTarget == RewindCell.NO_REWIND && a.loaded(old(Resume(a))).Some? &&
                            tree.store.heights == Below(old(tree.store.heights), old(Resume(a)))[old(Resume(a)) := a.loaded(old(Resume(a))).value.block.hash] &&
                            a.loaded(old(Resume(a))).value.block.hash in tree.store.roots
      ensures committed ==> HeightsAfter(setup, old(ModulesAt(a)), a.loaded(old(Resume(a))).value.indexed, old(Resume(a)), modules)
      ensures running ==> old(tree.store.roots).Keys <= tree.store.roots.Keys
      ensures running && old(LinkedHeights(tree.rules, tree.store.heights)) && Steady(tree.rules, a) ==> LinkedHeights(tree.rules, tree.store.heights)
      ensures running && rewindTarget != RewindCell.NO_REWIND ==>
                Diverges(tree.rules, a, nextHeight, tree.store.heights, rewindTarget)
      ensures running ==> forall d: nat :: Asks(tree.rules, a, old(Resume(a)), Below(old(tree.store.heights), old(Resume(a))), d) ==> rewindTarget == d
      ensures running <==>
                && (old(Resume(a)) == old(nextHeight) || SwitchSucceeds(a.switch, old(Resume(a))))
                && !Stops(setup, tree.rules, a, old(Resume(a)), Below(old(tree.store.heights), old(Resume(a))), old(tree.store.roots))
    {
      hide Committed, StateOf, AllBelow, Below, BlockFits, Commits, Diverges, Stops, Asks, SwitchSucceeds, LinkedHeights, Steady, HeightsAfter;
      committed := false;
      RewindKeepsLinks(tree.rules, tree.store.heights, Resume(a));
      TakeRewind(a);
      if running {
        ghost var store, n := tree.store, nextHeight;
        ParentKnown(0);
        LoadedFits(tree.rules, a, n, |modules|);
        committed := IndexNext(a);
        SteadyCommitKeepsLinks(setup, tree.rules, store, a, n);
      }
    }

    /** The rest of the iteration, at the height it works at. */
    method IndexNext(a: Answers) returns (committed: bool)
      requires Aligned() && running && AnswersFit(tree.rules, a, |modules|) && rewindTarget == RewindCell.NO_REWIND
      modifies this`modules, this`nextHeight, this`sharedHeight, this`running, this`rewindTarget, tree
      ensures |modules| == |old(modules)|
      ensures running ==> Aligned()
      ensures running ==> nextHeight == old(nextHeight) + (if committed then 1 else 0)
      ensures running && !committed ==> tree.store.heights == old(tree.store.heights)
      ensures committed <==> Commits(setup, tree.rules, a, old(nextHeight), old(tree.store.heights), old(tree.store.roots))
      ensures running <==> !Stops(setup, tree.rules, a, old(nextHeight), old(tree.store.heights), old(tree.store.roots))
      ensures committed ==> running && rewindTarget == RewindCell.NO_REWIND && a.loaded(old(nextHeight)).Some? &&
                            tree.store.heights == old(tree.store.heights)[old(nextHeight) := a.loaded(old(nextHeight)).value.block.hash] &&
                            a.loaded(old(nextHeight)).value.block.hash in tree.store.roots &&
                            HeightsAfter(setup, old(modules), a.loaded(old(nextHeight)).value.indexed, old(nextHeight), modules)
      ensures running ==> old(tree.store.roots).Keys <= tree.store.roots.Keys
      ensures running && rewindTarget != RewindCell.NO_REWIND ==> Diverges(tree.rules, a, nextHeight, tree.store.heights, rewindTarget)
      ensures forall d: nat :: Asks(tree.rules, a, old(nextHeight), old(tree.store.heights), d) ==> rewindTarget == d
    {
      hide Committed, StateOf, AllBelow, BlockFits, IsDivergence, BlockSucceeds, Diverges, SwitchSucceeds, HeightsAfter;
      committed := false;
      if a.safeTip.None? || a.coreTip.None? {
        return;
      }
      AtLeastGenesis();
      var indexedTip := Monus(sharedHeight, 1);
      var divergence := DetectFirstDivergenceHeight(ReadingsOf(a, tree.store.heights), indexedTip, a.coreTip.value, tree.rules.genesis);
      DivergesExactly(tree.rules, a, nextHeight, tree.store.heights, divergence);
      if divergence.Some? && divergence.value < nextHeight {
        DivergenceAboveGenesis(ReadingsOf(a, tree.store.heights), CheckTip(indexedTip, a.coreTip.value), tree.rules.genesis, divergence);
        var _ := SetRewindTarget(divergence.value);
        return;
      }
      if setup.stopAfter.Some? && nextHeight > setup.stopAfter.value {
        running := false;
        return;
      }
      var targetTip := if setup.stopAfter.Some? then setup.stopAfter.value else a.safeTip.value;
      if nextHeight <= targetTip && a.loaded(nextHeight).Some? {
        var loaded := a.loaded(nextHeight).value;
        ParentKnown(loaded.block.parent);
        BlockFitsSize(tree.rules, loaded, nextHeight, |modules|);
        committed := CommitBlock(loaded);
      }
    }

    lemma AtLeastGenesis()
      requires Aligned()
      ensures tree.rules.genesis <= nextHeight
    {
    }

    /** What is committed is the node's chain up to the next height, and no rewind is waiting. */
    ghost predicate OnChain(chain: nat -> Hash)
      reads this, tree
    {
      rewindTarget == RewindCell.NO_REWIND && ChainHeights(tree.rules, tree.store.heights, nextHeight, chain)
    }

    lemma Follows(a: Answers, chain: nat -> Hash)
      requires Aligned() && running && OnChain(chain) && AnswersFit(tree.rules, a, |modules|)
      requires Cooperates(setup, tree.rules, a, nextHeight, chain)
      ensures Resume(a) == nextHeight && Below(tree.store.heights, nextHeight) == tree.store.heights
      ensures Commits(setup, tree.rules, a, nextHeight, tree.store.heights, tree.store.roots)
      ensures !Stops(setup, tree.rules, a, nextHeight, tree.store.heights, tree.store.roots)
      ensures a.loaded(nextHeight).Some? && a.loaded(nextHeight).value.block.hash == chain(nextHeight)
      ensures tree.rules.genesis <= nextHeight
    {
      hide StateOf, RootsAreSound, AllBelow;
      assert Lowest(rewindTarget, []) == rewindTarget;
      ParentKnown(0);
      BelowCommitted(tree.rules, tree.store, nextHeight, 0);
      CooperationCommits(setup, tree.rules, tree.store, a, nextHeight, chain);
    }

    /** Any number of iterations. */
    method Run(answers: seq<Answers>, ghost chain: nat -> Hash)
      requires Aligned() && running && forall a <- answers :: AnswersFit(tree.rules, a, |modules|)
      modifies this`modules, this`nextHeight, this`sharedHeight, this`running, this`rewindTarget, tree
      ensures running ==> Aligned()
      ensures running && old(LinkedHeights(tree.rules, tree.store.heights)) && (forall a <- answers :: Steady(tree.rules, a)) ==>
                LinkedHeights(tree.rules, tree.store.heights)
      ensures old(OnChain(chain)) && (forall i :: 0 <= i < |answers| ==> Cooperates(setup, tree.rules, answers[i], old(nextHeight) + i, chain)) ==>
                running && OnChain(chain) && nextHeight == old(nextHeight) + |answers|
    {
      hide Aligned, AnswersFit, LinkedHeights, Steady, ChainHeights, Cooperates, Commits, Stops, HeightsAfter, Asks, Diverges, SwitchSucceeds, Below;
      ghost var follows := OnChain(chain) && forall i :: 0 <= i < |answers| ==> Cooperates(setup, tree.rules, answers[i], nextHeight + i, chain);
      for i := 0 to |answers|
        invariant running ==> Aligned()
        invariant follows ==> running && OnChain(chain) && nextHeight == old(nextHeight) + i
        invariant running && old(LinkedHeights(tree.rules, tree.store.heights)) && (forall a <- answers :: Steady(tree.rules, a)) ==>
                    LinkedHeights(tree.rules, tree.store.heights)
        invariant |modules| == |old(modules)|
      {
        if !running {
          break;
        }
        assert answers[i] in answers;
        if follows {
          Follows(answers[i], chain);
          ChainGrows(tree.rules, tree.store.heights, nextHeight, chain);
        }
        var _ := Iterate(answers[i]);
      }
    }

    lemma ParentKnown(parent: Hash)
      requires Aligned()
      ensures tree.CanBegin(parent) <==> parent in tree.store.roots || nextHeight == tree.rules.genesis
      ensures Committed(tree.rules, tree.store, nextHeight)
    {
    }
  }

  lemma BlockFitsSize(rules: Rules, answers: BlockAnswers, n: nat, modules: nat)
    requires BlockFits(rules, answers, n, modules)
    ensures |answers.indexed| == modules
  {
  }

  /** The phases, taken together. */
  lemma PhasesSucceed(setup: Setup, a: BlockAnswers, n: nat, canBegin: bool)
    requires |a.indexed| == |setup.genesisOf|
    ensures BlockSucceeds(setup, a, n, canBegin) <==>
            && a.canonical == Some(a.block.hash) && canBegin && ModulesSucceed(setup, a.indexed, n) && a.written
            && (RunesIndexes(setup, n) ==> a.indexed[setup.runes.value].ok) && a.summarised
  {
  }

  lemma HeightsComplete(setup: Setup, before: seq<Option<nat>>, indexed: seq<ModuleAnswer>, n: nat, between: seq<Option<nat>>)
    requires HeightsBetween(setup, before, indexed, n, between)
    ensures HeightsAfter(setup, before, indexed, n,
                         if RunesIndexes(setup, n) then between[setup.runes.value := indexed[setup.runes.value].height] else between)
  {
  }

  /** The node stays on `chain` and every phase succeeds: an iteration at `n` finds the block of that height. */
  ghost predicate Cooperates(setup: Setup, rules: Rules, a: Answers, n: nat, chain: nat -> Hash) {
    && a.posts == [] && a.safeTip.Some? && a.coreTip.Some? && n <= a.coreTip.value
    && n <= (if setup.stopAfter.Some? then setup.stopAfter.value else a.safeTip.value)
    && (forall h :: rules.genesis <= h <= n ==> a.chain(h) == Some(chain(h)) && a.readable(h))
    && a.loaded(n).Some? && a.loaded(n).value.block.hash == chain(n)
    && (n > rules.genesis ==> a.loaded(n).value.block.parent == chain(n - 1))
    && |a.loaded(n).value.indexed| == |setup.genesisOf|
    && BlockSucceeds(setup, a.loaded(n).value, n, true)
  }

  ghost predicate ChainHeights(rules: Rules, heights: map<nat, Hash>, n: nat, chain: nat -> Hash) {
    && (forall h :: h in heights <==> rules.genesis <= h < n)
    && forall h <- heights :: heights[h] == chain(h)
  }

  lemma ChainGrows(rules: Rules, heights: map<nat, Hash>, n: nat, chain: nat -> Hash)
    requires ChainHeights(rules, heights, n, chain) && rules.genesis <= n
    ensures ChainHeights(rules, heights[n := chain(n)], n + 1, chain)
  {
  }

  lemma CooperationCommits(setup: Setup, rules: Rules, store: Store, a: Answers, n: nat, chain: nat -> Hash)
    requires WellFormed(rules) && Committed(rules, store, n) && Cooperates(setup, rules, a, n, chain)
    requires forall h <- store.heights :: store.heights[h] == chain(h)
    ensures Commits(setup, rules, a, n, store.heights, store.roots) && !Stops(setup, rules, a, n, store.heights, store.roots)
  {
    hide RootsAreSound;
    var r, tip := ReadingsOf(a, store.heights), CheckTip(Monus(n, 1), a.coreTip.value);
    if n > rules.genesis {
      assert n - 1 in store.heights && Agrees(r, n - 1) && tip == n - 1;
      assert !Differs(r, tip);
    } else {
      assert tip < rules.genesis || !Known(r, tip);
      assert !Differs(r, tip) || tip < rules.genesis;
    }
    assert Proceeds(rules, a, n, store.heights);
  }

  // ---- heights that form a chain ----------------------------------------------------------------------------

  /** Every committed block's parent is the block committed just below it. */
  ghost predicate LinkedHeights(rules: Rules, heights: map<nat, Hash>) {
    forall h :: h in heights && h > 0 && h - 1 in heights ==> rules.parent(heights[h]) == heights[h - 1]
  }

  /** The node does not move to another branch within the iteration: the block it hands out builds on the chain it
      reported for the check, and that chain and the heights below the block can be read. */
  ghost predicate Steady(rules: Rules, a: Answers) {
    forall n: nat :: n > rules.genesis && a.loaded(n).Some? ==>
      && a.chain(n - 1) == Some(a.loaded(n).value.block.parent) && (a.coreTip.Some? ==> n - 1 <= a.coreTip.value)
      && forall h :: rules.genesis <= h < n ==> a.chain(h).Some? && a.readable(h)
  }

  lemma RewindKeepsLinks(rules: Rules, heights: map<nat, Hash>, n: nat)
    ensures LinkedHeights(rules, heights) ==> LinkedHeights(rules, Below(heights, n))
  {
  }

  /** Committing a block keeps the chain linked exactly if the block builds on the committed tip; the tree itself
      only asks that the parent has a root. */
  lemma CommitKeepsLinks(rules: Rules, store: Store, n: nat, x: Hash)
    requires WellFormed(rules) && Committed(rules, store, n) && LinkedHeights(rules, store.heights)
    ensures LinkedHeights(rules, store.heights[n := x])
            <==> n == rules.genesis || store.heights[n - 1] == rules.parent(x)
  {
    hide RootsAreSound;
    var longer := store.heights[n := x];
    if n > rules.genesis {
      assert n in longer && n - 1 in longer && longer[n - 1] == store.heights[n - 1];
    }
  }

  lemma LoadedFits(rules: Rules, a: Answers, n: nat, modules: nat)
    requires AnswersFit(rules, a, modules)
    ensures a.loaded(n).Some? ==> a.loaded(n).value.block.parent == rules.parent(a.loaded(n).value.block.hash)
  {
  }

  /** Nothing is committed on a stored tip that the node's chain does not have. */
  lemma CommitsOnAgreement(setup: Setup, rules: Rules, store: Store, a: Answers, n: nat)
    requires WellFormed(rules) && Committed(rules, store, n) && n > rules.genesis
    requires Commits(setup, rules, a, n, store.heights, store.roots) && Steady(rules, a)
    ensures a.chain(n - 1) == Some(store.heights[n - 1])
  {
    hide BlockSucceeds, RootsAreSound;
    var r := ReadingsOf(a, store.heights);
    assert CheckTip(Monus(n, 1), a.coreTip.value) == n - 1;
    forall h | rules.genesis <= h <= n - 1 ensures Known(r, h) {
      assert a.chain(h).Some? && a.readable(h) && h in store.heights;
    }
    forall d: nat ensures IsDivergence(r, n - 1, rules.genesis, Some(d)) ==> d >= n {
      assert Diverges(rules, a, n, store.heights, d) <==> IsDivergence(r, n - 1, rules.genesis, Some(d));
    }
    if Differs(r, n - 1) {
      var d := DifferingTipDiverges(r, n - 1, rules.genesis, n - 1);
      assert false;
    }
  }

  lemma SteadyCommitKeepsLinks(setup: Setup, rules: Rules, store: Store, a: Answers, n: nat)
    requires WellFormed(rules) && Committed(rules, store, n) && (a.loaded(n).Some? ==> a.loaded(n).value.block.parent == rules.parent(a.loaded(n).value.block.hash))
    ensures LinkedHeights(rules, store.heights) && Steady(rules, a) && Commits(setup, rules, a, n, store.heights, store.roots) ==>
              LinkedHeights(rules, store.heights[n := a.loaded(n).value.block.hash])
  {
    hide RootsAreSound, BlockSucceeds, LinkedHeights, Diverges;
    if LinkedHeights(rules, store.heights) && Steady(rules, a) && Commits(setup, rules, a, n, store.heights, store.roots) {
      CommitKeepsLinks(rules, store, n, a.loaded(n).value.block.hash);
      if n > rules.genesis {
        CommitsOnAgreement(setup, rules, store, a, n);
      }
    }
  }

  lemma DivergesExactly(rules: Rules, a: Answers, n: nat, heights: map<nat, Hash>, d: Option<nat>)
    requires a.coreTip.Some? && IsDivergence(ReadingsOf(a, heights), CheckTip(Monus(n, 1), a.coreTip.value), rules.genesis, d)
    ensures forall x: nat :: Diverges(rules, a, n, heights, x) <==> d == Some(x)
  {
    hide IsDivergence;
    forall x: nat ensures Diverges(rules, a, n, heights, x) <==> d == Some(x) {
      if Diverges(rules, a, n, heights, x) {
        DivergenceIsUnique(ReadingsOf(a, heights), CheckTip(Monus(n, 1), a.coreTip.value), rules.genesis, d, Some(x));
      }
    }
  }

  lemma DivergenceAboveGenesis(r: Readings, tip: nat, genesis: nat, d: Option<nat>)
    requires IsDivergence(r, tip, genesis, d) && d.Some?
    ensures genesis <= d.value
  {
  }

  lemma RunesBelow(modules: seq<Option<nat>>, runes: nat, indexed: seq<ModuleAnswer>, n: nat)
    requires |indexed| == |modules| && runes < |modules| && AllBelow(modules, n + 1)
    requires IndexesUpTo(indexed, n) && indexed[runes].ok
    ensures AllBelow(modules[runes := indexed[runes].height], n + 1)
  {
  }

  lemma TipOfExtended(rules: Rules, store: Store, n: nat, x: Hash)
    requires WellFormed(rules) && rules.genesis <= n
    ensures Tip(rules, Extended(store, n, x, rules.parent(x), StateOf(rules, x)), n + 1) == Some(x)
  {
    hide StateOf;
  }
}
