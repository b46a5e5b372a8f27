/** The nodes a batch keeps in memory: unreachable ones are dropped now and then, too many are spilled to the disk, and
    at the end what is reachable is written. None of it shows at the root the batch works on. */
module PendingNodes {
  import opened Collections
  import opened NodeTree
  import opened NodeStores

  const GC_INTERVAL := 8192
  const SOFT_LIMIT := 25_000
  const SOFT_GC_INTERVAL := 4096
  const HARD_LIMIT := 50_000

  // ---- reachable nodes -----------------------------------------------------------------------------------

  predicate HasChild(pending: Nodes, id: Id, c: Id) {
    id in pending && pending[id].Internal? && c in pending[id].children
  }

  /** Whoever leads on through a waiting node stays in `ids`. */
  ghost predicate ClosedUnder(pending: Nodes, ids: set<Id>) {
    forall id, c :: id in ids && HasChild(pending, id, c) ==> c in ids
  }

  /** The least set with the root that waiting nodes do not lead out of. */
  ghost predicate IsReachable(pending: Nodes, root: Id, ids: set<Id>) {
    && root in ids && ClosedUnder(pending, ids)
    && forall s: set<Id> :: root in s && ClosedUnder(pending, s) ==> ids <= s
  }

  lemma ReachableIsUnique(pending: Nodes, root: Id, a: set<Id>, b: set<Id>)
    requires IsReachable(pending, root, a) && IsReachable(pending, root, b)
    ensures a == b
  {
    assert a <= b && b <= a;
  }

  /** Everything that can ever be on the stack. */
  ghost function Mentioned(pending: Nodes, root: Id): set<Id> {
    {root} + set id, c | id in pending && pending[id].Internal? && c in pending[id].children :: c
  }

  ghost predicate Exploring(pending: Nodes, root: Id, visited: set<Id>, stack: seq<Id>) {
    && (root in visited || root in stack)
    && visited <= Mentioned(pending, root) && (forall id <- stack :: id in Mentioned(pending, root))
    && (forall id, c :: id in visited && HasChild(pending, id, c) ==> c in visited || c in stack)
    && forall s: set<Id> :: root in s && ClosedUnder(pending, s) ==> visited <= s && forall id <- stack :: id in s
  }

  lemma ExploreSkips(pending: Nodes, root: Id, visited: set<Id>, stack: seq<Id>)
    requires Exploring(pending, root, visited, stack) && stack != [] && stack[|stack| - 1] in visited
    ensures Exploring(pending, root, visited, stack[..|stack| - 1])
  {
    var n := |stack| - 1;
    assert stack == stack[..n] + [stack[n]];
  }

  function Children(pending: Nodes, id: Id): seq<Id> {
    if id in pending && pending[id].Internal? then pending[id].children else []
  }

  lemma ExploreVisits(pending: Nodes, root: Id, visited: set<Id>, stack: seq<Id>)
    requires Exploring(pending, root, visited, stack) && stack != []
    ensures var n := |stack| - 1;
            Exploring(pending, root, visited + {stack[n]}, stack[..n] + Children(pending, stack[n]))
  {
    var n := |stack| - 1;
    var id := stack[n];
    assert stack == stack[..n] + [id];
    assert forall c <- Children(pending, id) :: HasChild(pending, id, c);
  }

  method Reachable(pending: Nodes, root: Id) returns (visited: set<Id>)
    ensures IsReachable(pending, root, visited)
  {
    hide Exploring, Mentioned;
    visited := {};
    var stack := [root];
    ExploreStarts(pending, root);
    while stack != []
      invariant Exploring(pending, root, visited, stack)
      decreases |Mentioned(pending, root) - visited|, |stack|
    {
      var id := stack[|stack| - 1];
      ExploreLeft(pending, root, visited, stack);
      if id in visited {
        ExploreSkips(pending, root, visited, stack);
        stack := stack[..|stack| - 1];
        continue;
      }
      ExploreVisits(pending, root, visited, stack);
      stack := stack[..|stack| - 1] + Children(pending, id);
      visited := visited + {id};
    }
    ExploreEnds(pending, root, visited);
  }

  lemma ExploreStarts(pending: Nodes, root: Id)
    ensures Exploring(pending, root, {}, [root])
  {
  }

  lemma ExploreLeft(pending: Nodes, root: Id, visited: set<Id>, stack: seq<Id>)
    requires Exploring(pending, root, visited, stack) && stack != []
    ensures var id := stack[|stack| - 1];
            id !in visited ==> |Mentioned(pending, root) - (visited + {id})| < |Mentioned(pending, root) - visited|
  {
    hide Mentioned;
    var id := stack[|stack| - 1];
    if id !in visited {
      var all := Mentioned(pending, root);
      assert all - visited == (all - (visited + {id})) + {id};
    }
  }

  lemma ExploreEnds(pending: Nodes, root: Id, visited: set<Id>)
    requires Exploring(pending, root, visited, [])
    ensures IsReachable(pending, root, visited)
  {
  }

  // ---- dropping nodes nobody reaches ---------------------------------------------------------------------

  /** The same tree, and the same answers. */
  ghost predicate SameTree(nodes: Nodes, nodes': Nodes, root: Id, h: nat) {
    && Valid(nodes', root, h, None, None)
    && forall k, v :: Holds(nodes', root, h, k, v) <==> Holds(nodes, root, h, k, v)
  }

  /** A tree is the same in any closed part that has its root. */
  lemma {:induction false} ClosedPartIsValid(nodes: Nodes, part: Nodes, id: Id, h: nat, lo: Option<Key>, hi: Option<Key>)
    requires Extends(part, nodes) && Closed(part) && id in part && Valid(nodes, id, h, lo, hi)
    ensures Valid(part, id, h, lo, hi)
    decreases h
  {
    if nodes[id].Internal? {
      var keys, children := nodes[id].keys, nodes[id].children;
      forall i | 0 <= i < |children| ensures Valid(part, children[i], h - 1, Low(keys, lo, i), High(keys, hi, i)) {
        ClosedPartIsValid(nodes, part, children[i], h - 1, Low(keys, lo, i), High(keys, hi, i));
      }
    }
  }

  lemma ClosedPartIsSame(nodes: Nodes, part: Nodes, root: Id, h: nat)
    requires Extends(part, nodes) && Closed(part) && root in part && Valid(nodes, root, h, None, None)
    ensures SameTree(nodes, part, root, h)
  {
    hide Valid, Holds;
    ClosedPartIsValid(nodes, part, root, h, None, None);
    forall k, v ensures Holds(part, root, h, k, v) <==> Holds(nodes, root, h, k, v) {
      HoldsFrame(part, nodes, root, h, None, None, k, v);
    }
  }

  function Restricted(nodes: Nodes, ids: set<Id>): Nodes {
    map id | id in nodes && id in ids :: nodes[id]
  }

  /** The reachable waiting nodes lead only to each other and to the disk. */
  lemma FrontIsClosed(hash: Node -> Id, disk: Nodes, pending: Nodes, nodes: Nodes, root: Id, ids: set<Id>)
    requires Layered(hash, disk, pending, nodes) && root in nodes && IsReachable(pending, root, ids)
    ensures var part := disk + Restricted(pending, ids);
            Extends(disk, part) && Extends(part, nodes) && Closed(part) && root in part
  {
    var part := disk + Restricted(pending, ids);
    forall id, c | id in part && part[id].Internal? && c in part[id].children ensures c in part {
      if id in Restricted(pending, ids) {
        assert HasChild(pending, id, c) && c in nodes;
      }
    }
  }

  /** Nothing happens if as many ids are reachable as nodes are waiting, even if they are not the same. */
  function Retained(pending: Nodes, ids: set<Id>): Nodes {
    if |ids| == |pending| then pending else Restricted(pending, ids)
  }

  method RetainReachable(store: NodeStore, root: Id, ghost h: nat)
    requires store.Sound() && store.batching && Valid(store.nodes, root, h, None, None)
    modifies store`pending, store`nodes
    ensures store.Sound() && SameTree(old(store.nodes), store.nodes, root, h)
    ensures forall ids :: IsReachable(old(store.pending), root, ids) ==> store.pending == Retained(old(store.pending), ids)
  {
    hide Valid, Holds, Layered, IsReachable, Restricted;
    ValidIsThere(store.nodes, root, h, None, None);
    var reachable := Reachable(store.pending, root);
    forall ids | IsReachable(store.pending, root, ids) ensures ids == reachable {
      ReachableIsUnique(store.pending, root, ids, reachable);
    }
    if |reachable| == |store.pending| {
      SameIsSame(store.nodes, root, h);
      return;
    }
    ghost var part := store.disk + Restricted(store.pending, reachable);
    RetainedIsLayered(store.hash, store.disk, store.pending, store.nodes, root, reachable);
    ClosedPartIsSame(store.nodes, part, root, h);
    store.pending := Restricted(store.pending, reachable);
    store.nodes := part;
  }

  lemma RetainedIsLayered(hash: Node -> Id, disk: Nodes, pending: Nodes, nodes: Nodes, root: Id, ids: set<Id>)
    requires Layered(hash, disk, pending, nodes) && root in nodes && IsReachable(pending, root, ids)
    ensures var part := disk + Restricted(pending, ids);
            && Layered(hash, disk, Restricted(pending, ids), part)
            && Extends(part, nodes) && Closed(part) && root in part
  {
    FrontIsClosed(hash, disk, pending, nodes, root, ids);
  }

  lemma SameIsSame(nodes: Nodes, root: Id, h: nat)
    requires Valid(nodes, root, h, None, None)
    ensures SameTree(nodes, nodes, root, h)
  {
  }

  // ---- writing them out ------------------------------------------------------------------------------------

  /** Exactly the waiting nodes that are reachable go to the disk, which then has the whole tree. */
  method FlushPending(store: NodeStore, root: Id, ghost h: nat)
    requires store.Sound() && Valid(store.nodes, root, h, None, None)
    modifies store`disk
    ensures store.Sound() && Extends(old(store.disk), store.disk) && SameTree(store.nodes, store.disk, root, h)
    ensures forall ids :: IsReachable(store.pending, root, ids) ==> store.disk == old(store.disk) + Restricted(store.pending, ids)
  {
    hide Valid, Holds, Layered, IsReachable, Restricted;
    ValidIsThere(store.nodes, root, h, None, None);
    var reachable := Reachable(store.pending, root);
    forall ids | IsReachable(store.pending, root, ids) ensures ids == reachable {
      ReachableIsUnique(store.pending, root, ids, reachable);
    }
    FlushedIsLayered(store.hash, store.disk, store.pending, store.nodes, root, reachable);
    store.disk := store.disk + Restricted(store.pending, reachable);
    ClosedPartIsSame(store.nodes, store.disk, root, h);
  }

  lemma FlushedIsLayered(hash: Node -> Id, disk: Nodes, pending: Nodes, nodes: Nodes, root: Id, ids: set<Id>)
    requires Layered(hash, disk, pending, nodes) && root in nodes && IsReachable(pending, root, ids)
    ensures var disk' := disk + Restricted(pending, ids);
            && Layered(hash, disk', pending, nodes)
            && Extends(disk, disk') && Extends(disk', nodes) && Closed(disk') && root in disk'
  {
    FrontIsClosed(hash, disk, pending, nodes, root, ids);
  }

  /** Forgets the waiting nodes. */
  method ClearPending(store: NodeStore)
    requires store.Sound()
    modifies store`pending, store`nodes
    ensures store.Sound() && store.pending == map[] && store.nodes == store.disk
  {
    store.pending, store.nodes := map[], store.disk;
  }

  lemma NoneRetained()
    ensures forall ids :: Retained(map[], ids) == map[]
  {
  }

  /** Nodes are collected every so many writes, more often if many are waiting. */
  predicate Due(pending: Nodes, ops: nat) {
    ops >= GC_INTERVAL || (|pending| >= SOFT_LIMIT && ops >= SOFT_GC_INTERVAL)
  }

  /** After every write of a batch: the tree is the same, the disk only grows, and fewer nodes are left waiting than
      the hard limit; if that takes no spilling, nothing is written. */
  method MaybeCompact(store: NodeStore, root: Id, ghost h: nat)
    requires store.Sound() && store.batching && Valid(store.nodes, root, h, None, None)
    modifies store`disk, store`pending, store`nodes, store`opsSinceGc
    ensures store.Sound() && Extends(old(store.disk), store.disk)
    ensures SameTree(old(store.nodes), store.nodes, root, h)
    ensures |store.pending| < 50_000
    ensures forall ids :: IsReachable(old(store.pending), root, ids) ==>
              var ops := old(store.opsSinceGc) + 1;
              var due := ops >= 8192 || (ops >= 4096 && |old(store.pending)| >= 25_000);
              var kept := if due then Retained(old(store.pending), ids) else old(store.pending);
              && (if |kept| < 50_000 then store.pending == kept && store.disk == old(store.disk) else store.pending == map[])
              && store.opsSinceGc == if old(store.pending) == map[] then old(store.opsSinceGc) else if due || |kept| >= 50_000 then 0 else ops
  {
    hide Valid, Holds, Layered, IsReachable, Retained;
    NoneRetained();
    SameIsSame(store.nodes, root, h);
    if store.pending == map[] {
      return;
    }
    store.opsSinceGc := store.opsSinceGc + 1;
    if Due(store.pending, store.opsSinceGc) {
      RetainReachable(store, root, h);
      store.opsSinceGc := 0;
    }
    if |store.pending| >= HARD_LIMIT {
      RetainReachable(store, root, h);
      FlushPending(store, root, h);
      ClearPending(store);
      store.opsSinceGc := 0;
    }
  }
}
