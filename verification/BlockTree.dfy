/** The versioned tree as the indexer uses it: one root per committed block, an active root, and at most one
    block under construction. */
module BlockTree {
  import opened Collections
  import opened Divergence

  type Root = nat

  /** The given world of blocks: a hash determines its height and its parent, and indexing a block is a function
      of the state it starts from. Indexing begins at `genesis`, from the empty state. */
  datatype Rules = Rules(genesis: nat, empty: Root, height: Hash -> int, parent: Hash -> Hash, index: (Root, Hash) -> Root)

  ghost predicate WellFormed(rules: Rules) {
    forall x :: rules.height(x) >= rules.genesis ==> rules.height(rules.parent(x)) == rules.height(x) - 1
  }

  /** The state after indexing a block and, before it, all its ancestors from genesis on. */
  ghost function StateOf(rules: Rules, x: Hash): Root
    requires WellFormed(rules)
    decreases Max(0, rules.height(x) - rules.genesis)
  {
    if rules.height(x) <= rules.genesis then rules.index(rules.empty, x)
    else rules.index(StateOf(rules, rules.parent(x)), x)
  }

  datatype BlockContext = BlockContext(height: nat, hash: Hash, parent: Hash, workingRoot: Root)

  /** What is on disk. */
  datatype Store = Store(heights: map<nat, Hash>, roots: map<Hash, Root>, blockHeights: map<Hash, nat>, parents: map<Hash, Hash>)

  function Below(heights: map<nat, Hash>, n: nat): map<nat, Hash> {
    map h | h in heights && h < n :: heights[h]
  }

  /** The blocks from genesis up to `n` are committed, each under a root that is the state of that block. */
  ghost predicate Committed(rules: Rules, store: Store, n: nat)
    requires WellFormed(rules)
  {
    && rules.genesis <= n
    && (forall h :: h in store.heights <==> rules.genesis <= h < n)
    && (forall h <- store.heights :: rules.height(store.heights[h]) == h && store.heights[h] in store.roots)
    && RootsAreSound(rules, store) && HeightsMatch(store)
  }

  /** The heights by block are the blocks by height, the other way round. */
  ghost predicate HeightsMatch(store: Store) {
    forall h, x :: h in store.heights && store.heights[h] == x <==> x in store.blockHeights && store.blockHeights[x] == h
  }

  ghost predicate RootsAreSound(rules: Rules, store: Store)
    requires WellFormed(rules)
  {
    forall x <- store.roots ::
      && rules.height(x) >= rules.genesis && store.roots[x] == StateOf(rules, x)
      && x in store.parents && store.parents[x] == rules.parent(x)
  }

  function Tip(rules: Rules, store: Store, n: nat): Option<Hash> {
    if n > rules.genesis && n - 1 in store.heights then Some(store.heights[n - 1]) else None
  }

  function Base(rules: Rules, store: Store, parent: Hash): Root {
    if parent in store.roots then store.roots[parent] else rules.empty
  }

  function Extended(store: Store, n: nat, x: Hash, parent: Hash, root: Root): Store {
    Store(store.heights[n := x], store.roots[x := root], store.blockHeights[x := n], store.parents[x := parent])
  }

  /** Indexing on the root of the parent gives the state of the block, even if the parent is not the block
      committed just below. */
  lemma IndexedState(rules: Rules, store: Store, n: nat, x: Hash)
    requires WellFormed(rules) && Committed(rules, store, n) && rules.height(x) == n
    requires n > rules.genesis ==> rules.parent(x) in store.roots
    ensures rules.index(Base(rules, store, rules.parent(x)), x) == StateOf(rules, x)
  {
    if n == rules.genesis {
      assert rules.height(rules.parent(x)) < rules.genesis;
    }
  }

  lemma CommittedExtends(rules: Rules, store: Store, n: nat, x: Hash)
    requires WellFormed(rules) && Committed(rules, store, n) && rules.height(x) == n
    ensures Committed(rules, Extended(store, n, x, rules.parent(x), StateOf(rules, x)), n + 1)
  {
    hide StateOf, HeightsMatch, RootsAreSound;
    ListedIsBelow(rules, store, n, x);
    MatchExtends(store, n, x, rules.parent(x), StateOf(rules, x));
    RootsExtend(rules, store, n, x);
  }

  lemma RootsExtend(rules: Rules, store: Store, n: nat, x: Hash)
    requires WellFormed(rules) && RootsAreSound(rules, store) && rules.height(x) >= rules.genesis
    ensures RootsAreSound(rules, Extended(store, n, x, rules.parent(x), StateOf(rules, x)))
  {
    hide StateOf;
  }

  lemma ListedIsBelow(rules: Rules, store: Store, n: nat, x: Hash)
    requires WellFormed(rules) && Committed(rules, store, n)
    ensures x in store.blockHeights ==> rules.height(x) < n
  {
    hide RootsAreSound;
    if x in store.blockHeights {
      var h := store.blockHeights[x];
      assert h in store.heights && store.heights[h] == x;
    }
  }

  lemma MatchExtends(store: Store, n: nat, x: Hash, parent: Hash, root: Root)
    requires HeightsMatch(store) && n !in store.heights && x !in store.blockHeights
    ensures HeightsMatch(Extended(store, n, x, parent, root))
  {
  }

  /** Dropping heights, and the blocks that had them, keeps the match. */
  lemma MatchBelow(store: Store, n: nat, kept: Store)
    requires HeightsMatch(store) && kept.heights == Below(store.heights, n)
    requires kept.blockHeights == store.blockHeights - (set h | h in store.heights && h !in kept.heights :: store.heights[h])
    ensures HeightsMatch(kept)
  {
    forall h, x ensures h in kept.heights && kept.heights[h] == x <==> x in kept.blockHeights && kept.blockHeights[x] == h {
      assert h in store.heights && store.heights[h] == x <==> x in store.blockHeights && store.blockHeights[x] == h;
      if x in store.blockHeights {
        var k := store.blockHeights[x];
        assert k in store.heights && store.heights[k] == x;
      }
    }
  }

  lemma BelowCommitted(rules: Rules, store: Store, n: nat, x: Hash)
    requires WellFormed(rules) && Committed(rules, store, n)
    ensures Below(store.heights, n) == store.heights == Below(store.heights[n := x], n)
    ensures rules.genesis <= n
  {
  }

  predicate IsLeast(s: set<nat>, x: nat) {
    x in s && forall y <- s :: x <= y
  }

  lemma {:induction false} LeastExists(s: set<nat>)
    requires s != {}
    ensures exists x :: IsLeast(s, x)
    decreases |s|
  {
    var x :| x in s;
    var rest := s - {x};
    assert forall z <- s :: z == x || z in rest;
    if rest == {} {
      assert IsLeast(s, x);
    } else {
      LeastExists(rest);
      var y :| IsLeast(rest, y);
      assert IsLeast(s, if x < y then x else y);
    }
  }

  /** The lowest committed height. */
  function FirstHeight(heights: map<nat, Hash>): (first: Option<nat>)
    ensures first.None? <==> heights == map[]
    ensures first.Some? ==> first.value in heights && forall h :: h in heights ==> first.value <= h
  {
    if heights == map[] then None
    else
      assert heights.Keys != {};
      LeastExists(heights.Keys);
      var x :| x in heights.Keys && IsLeast(heights.Keys, x);
      Some(x)
  }

  class Tree {
    const rules: Rules
    var store: Store
    var activeRoot: Root
    var activeBlock: Option<Hash>
    var current: Option<BlockContext>

    constructor (rules: Rules)
      ensures this.rules == rules && store == Store(map[], map[], map[], map[])
      ensures activeRoot == rules.empty && activeBlock == None && current == None
    {
      this.rules := rules;
      store := Store(map[], map[], map[], map[]);
      activeRoot := rules.empty;
      activeBlock := None;
      current := None;
    }

    /** Between blocks, the active state is the state of the last committed block. */
    ghost predicate Rests(n: nat)
      reads this
    {
      && WellFormed(rules) && Committed(rules, store, n) && current == None
      && activeBlock == Tip(rules, store, n)
      && activeRoot == match Tip(rules, store, n) case Some(x) => StateOf(rules, x) case None => rules.empty
    }

    /** The root of a block: the working root while it is under construction, else what was committed. */
    function RootFor(hash: Hash): Option<Root>
      reads this
    {
      if current.Some? && current.value.hash == hash then Some(current.value.workingRoot)
      else if hash in store.roots then Some(store.roots[hash])
      else None
    }

    /** The parent needs a known root, which any block ever committed has, unless nothing is committed yet. */
    predicate CanBegin(parent: Hash)
      reads this
    {
      RootFor(parent).Some? || (activeBlock.None? && (activeRoot == rules.empty || |store.heights| == 0))
    }

    method BeginBlock(height: nat, hash: Hash, parent: Hash) returns (ok: bool)
      modifies this
      ensures ok <==> old(CanBegin(parent))
      ensures ok <==> (old(current).Some? && old(current).value.hash == parent) || parent in store.roots
                      || (activeBlock.None? && (activeRoot == rules.empty || store.heights == map[]))
      ensures store == old(store) && activeRoot == old(activeRoot) && activeBlock == old(activeBlock)
      ensures !ok ==> current == old(current)
      ensures ok ==> current == Some(BlockContext(height, hash, parent,
                                                  if old(current).Some? && old(current).value.hash == parent then old(current).value.workingRoot
                                                  else if parent in store.roots then store.roots[parent] else rules.empty))
    {
      var baseRoot: Root;
      var known := RootFor(parent);
      if known.Some? {
        baseRoot := known.value;
      } else if activeBlock.None? && (activeRoot == rules.empty || |store.heights| == 0) {
        baseRoot := rules.empty;
      } else {
        return false;
      }
      current := Some(BlockContext(height, hash, parent, baseRoot));
      ok := true;
    }

    /** A module's writes move the working root. */
    method Write(root: Root)
      modifies this`current
      ensures current == if old(current).Some? then Some(old(current).value.(workingRoot := root)) else None
    {
      if current.Some? {
        current := Some(current.value.(workingRoot := root));
      }
    }

    method AbortBlock()
      modifies this`current
      ensures current == None
    {
      current := None;
    }

    /** The block under construction is given up even when the write fails, and so is the old active root. */
    method FinishBlock(written: bool) returns (ok: bool)
      modifies this
      ensures ok <==> written || old(current).None?
      ensures current == None
      ensures match old(current)
              case None => store == old(store) && activeRoot == old(activeRoot) && activeBlock == old(activeBlock)
              case Some(ctx) =>
                && activeRoot == ctx.workingRoot && activeBlock == Some(ctx.hash)
                && store == if written then Extended(old(store), ctx.height, ctx.hash, ctx.parent, ctx.workingRoot) else old(store)
    {
      if current.None? {
        return true;
      }
      var ctx := current.value;
      current := None;
      activeRoot := ctx.workingRoot;
      activeBlock := Some(ctx.hash);
      if written {
        store := Store(
          store.heights[ctx.height := ctx.hash], store.roots[ctx.hash := ctx.workingRoot],
          store.blockHeights[ctx.hash := ctx.height], store.parents[ctx.hash := ctx.parent]);
      }
      ok := written;
    }

    /** Drops every height above the target; roots of dropped blocks stay. */
    method RewindToHeight(target: Option<nat>, written: bool) returns (ok: bool)
      modifies this
      ensures ok <==> written && (target.Some? ==> target.value in old(store).heights && old(store).heights[target.value] in old(store).roots)
      ensures ok ==> current == None && store.roots == old(store).roots && store.parents == old(store).parents
      ensures ok ==> store.heights == match target case Some(h) => Below(old(store).heights, h + 1) case None => map[]
      ensures ok ==> store.blockHeights == old(store).blockHeights - (set h | h in old(store).heights && h !in store.heights :: old(store).heights[h])
      ensures ok ==> match target
                     case Some(h) => activeBlock == Some(old(store).heights[h]) && activeRoot == old(store).roots[old(store).heights[h]]
                     case None => activeBlock == None && activeRoot == rules.empty
    {
      var root, block := rules.empty, None;
      if target.Some? {
        if target.value !in store.heights || store.heights[target.value] !in store.roots {
          return false;
        }
        block := Some(store.heights[target.value]);
        root := store.roots[block.value];
      }
      var kept := if target.Some? then Below(store.heights, target.value + 1) else map[];
      var stale := set h | h in store.heights && h !in kept :: store.heights[h];
      current := None;
      activeRoot := root;
      activeBlock := block;
      if written {
        store := store.(heights := kept, blockHeights := store.blockHeights - stale);
      }
      ok := written;
    }

    /** Makes the state before `next` the active one again, whatever was under construction. */
    method RewindBefore(next: nat, ghost n: nat, written: bool) returns (ok: bool)
      requires WellFormed(rules) && Committed(rules, store, n) && rules.genesis <= next <= n
      modifies this
      ensures ok <==> written
      ensures ok ==> Rests(next) && store.heights == Below(old(store).heights, next) && store.roots == old(store).roots
    {
      hide StateOf, HeightsMatch;
      var target := None;
      if next > 0 {
        var first := FirstHeight(store.heights);
        if first.Some? && first.value <= next - 1 {
          target := Some(next - 1);
        }
      }
      assert target.Some? <==> next > rules.genesis by {
        assert n > rules.genesis ==> rules.genesis in store.heights;
      }
      ok := RewindToHeight(target, written);
      if ok {
        assert store.heights == Below(old(store).heights, next);
        MatchBelow(old(store), next, store);
      }
    }
  }
}
