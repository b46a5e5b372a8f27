/** Writing a batch: sorted by key, of several changes to one key only the last is applied. */
module TreeBatch {
  import opened Collections
  import opened NodeTree
  import opened TreeMutation
  import opened NodeStores
  import opened PendingNodes

  datatype Change = Change(key: Key, value: Option<Value>)

  /** The last change to `k`, if there is one. */
  function LastChange(changes: seq<Change>, k: Key): Option<Change> {
    if changes == [] then None
    else if changes[|changes| - 1].key == k then Some(changes[|changes| - 1])
    else LastChange(changes[..|changes| - 1], k)
  }

  /** What holds after the changes, one after the other. */
  predicate AfterAll(before: bool, changes: seq<Change>, k: Key, v: Value) {
    match LastChange(changes, k)
    case None => before
    case Some(c) => c.value == Some(v)
  }

  lemma LastChangeAppend(changes: seq<Change>, c: Change, k: Key)
    ensures LastChange(changes + [c], k) == if c.key == k then Some(c) else LastChange(changes, k)
  {
    assert (changes + [c])[..|changes|] == changes;
  }

  /** What holds after all changes is what holds after making them one by one. */
  lemma AfterAllStepwise(before: bool, changes: seq<Change>, c: Change, k: Key, v: Value)
    ensures AfterAll(before, [], k, v) == before
    ensures AfterAll(before, changes + [c], k, v) == if c.key == k then c.value == Some(v) else AfterAll(before, changes, k, v)
  {
    LastChangeAppend(changes, c, k);
  }

  // ---- sorting ------------------------------------------------------------------------------------------

  ghost predicate Ordered(changes: seq<Change>) {
    forall i, j :: 0 <= i < j < |changes| ==> changes[i].key <= changes[j].key
  }

  ghost predicate StrictlyOrdered(changes: seq<Change>) {
    forall i, j :: 0 <= i < j < |changes| ==> changes[i].key < changes[j].key
  }

  /** Behind everything that is not greater. */
  function InsertStable(sorted: seq<Change>, c: Change): seq<Change> {
    if sorted == [] || sorted[|sorted| - 1].key <= c.key then sorted + [c]
    else InsertStable(sorted[..|sorted| - 1], c) + [sorted[|sorted| - 1]]
  }

  function StableSort(changes: seq<Change>): seq<Change> {
    if changes == [] then [] else InsertStable(StableSort(changes[..|changes| - 1]), changes[|changes| - 1])
  }

  lemma {:induction false} InsertStableIs(sorted: seq<Change>, c: Change, k: Key)
    requires Ordered(sorted)
    ensures LastChange(InsertStable(sorted, c), k) == LastChange(sorted + [c], k)
  {
    hide LastChange;
    LastChangeAppend(sorted, c, k);
    if sorted != [] && sorted[|sorted| - 1].key > c.key {
      var n := |sorted| - 1;
      InsertStableIs(sorted[..n], c, k);
      LastChangeAppend(sorted[..n], c, k);
      LastChangeAppend(sorted[..n], sorted[n], k);
      LastChangeAppend(InsertStable(sorted[..n], c), sorted[n], k);
      assert sorted == sorted[..n] + [sorted[n]];
    }
  }

  lemma {:induction false} InsertStableOrders(sorted: seq<Change>, c: Change)
    requires Ordered(sorted)
    ensures Ordered(InsertStable(sorted, c))
    ensures forall x <- InsertStable(sorted, c) :: x == c || x in sorted
  {
    if sorted != [] && sorted[|sorted| - 1].key > c.key {
      var n := |sorted| - 1;
      InsertStableOrders(sorted[..n], c);
      forall x <- InsertStable(sorted[..n], c) ensures x.key <= sorted[n].key {
        assert x == c || x in sorted[..n];
      }
    }
  }

  /** A stable sort keeps the last change to each key. */
  lemma {:induction false} StableSortIs(changes: seq<Change>, k: Key)
    ensures Ordered(StableSort(changes)) && LastChange(StableSort(changes), k) == LastChange(changes, k)
  {
    if changes != [] {
      var n := |changes| - 1;
      StableSortIs(changes[..n], k);
      InsertStableOrders(StableSort(changes[..n]), changes[n]);
      InsertStableIs(StableSort(changes[..n]), changes[n], k);
      LastChangeAppend(StableSort(changes[..n]), changes[n], k);
    }
  }

  // ---- keeping the last of each key ----------------------------------------------------------------------

  /** After `read` of the sorted changes: the first `write` places hold the last change to each of their keys. */
  ghost predicate Kept(sorted: seq<Change>, read: nat, c: seq<Change>, write: nat)
    requires read <= |sorted|
  {
    && |c| == |sorted| && write <= read && (read > 0 ==> write > 0)
    && c[read..] == sorted[read..]
    && StrictlyOrdered(c[..write])
    && (write > 0 ==> c[write - 1].key == sorted[read - 1].key)
    && forall k :: LastChange(c[..write], k) == LastChange(sorted[..read], k)
  }

  lemma KeepReplaces(sorted: seq<Change>, read: nat, c: seq<Change>, write: nat, c': seq<Change>)
    requires read < |sorted| && Ordered(sorted) && Kept(sorted, read, c, write)
    requires write > 0 && c[write - 1].key == c[read].key
    requires c' == c[read := c[read].(value := None)][write - 1 := Change(c[write - 1].key, c[read].value)]
    ensures Kept(sorted, read + 1, c', write)
  {
    var x := sorted[read];
    assert c[read] == c[read..][0] == x;
    assert c'[read + 1..] == c[read..][1..] == sorted[read + 1..];
    assert c'[..write] == c[..write - 1] + [x];
    assert c[..write] == c[..write - 1] + [c[write - 1]];
    assert sorted[..read + 1] == sorted[..read] + [x];
    var kept, seen := c'[..write], sorted[..read + 1];
    forall k ensures LastChange(kept, k) == LastChange(seen, k) {
      LastChangeAppend(c[..write - 1], x, k);
      LastChangeAppend(c[..write - 1], c[write - 1], k);
      LastChangeAppend(sorted[..read], x, k);
      assert LastChange(c[..write], k) == LastChange(sorted[..read], k);
    }
  }

  lemma KeepAppends(sorted: seq<Change>, read: nat, c: seq<Change>, write: nat, c': seq<Change>)
    requires read < |sorted| && Ordered(sorted) && Kept(sorted, read, c, write)
    requires write == 0 || c[write - 1].key != c[read].key
    requires c' == c[write := c[read]][read := c[write]]
    ensures Kept(sorted, read + 1, c', write + 1)
  {
    var x := sorted[read];
    assert c[read] == c[read..][0] == x;
    assert c'[read + 1..] == c[read..][1..] == sorted[read + 1..];
    assert c'[..write + 1] == c[..write] + [x];
    assert sorted[..read + 1] == sorted[..read] + [x];
    assert write > 0 ==> c[write - 1].key < x.key;
    var kept, seen := c'[..write + 1], sorted[..read + 1];
    forall k ensures LastChange(kept, k) == LastChange(seen, k) {
      LastChangeAppend(c[..write], x, k);
      LastChangeAppend(sorted[..read], x, k);
      assert LastChange(c[..write], k) == LastChange(sorted[..read], k);
    }
  }

  method Canonicalize(changes: seq<Change>) returns (r: seq<Change>)
    ensures StrictlyOrdered(r)
    ensures forall k :: LastChange(r, k) == LastChange(changes, k)
  {
    hide Kept, Ordered, StrictlyOrdered, LastChange;
    var c := StableSort(changes);
    ghost var sorted := c;
    forall k ensures Ordered(sorted) && LastChange(sorted, k) == LastChange(changes, k) {
      StableSortIs(changes, k);
    }
    StableSortIs(changes, 0.0);
    var write := 0;
    KeepStarts(sorted);
    for read := 0 to |c|
      invariant |c| == |sorted| && write <= read
      invariant Kept(sorted, read, c, write)
    {
      KeptSize(sorted, read, c, write);
      if write > 0 && c[write - 1].key == c[read].key {
        var c' := c[read := c[read].(value := None)][write - 1 := Change(c[write - 1].key, c[read].value)];
        KeepReplaces(sorted, read, c, write, c');
        c := c';
        continue;
      }
      var c' := c[write := c[read]][read := c[write]];
      KeepAppends(sorted, read, c, write, c');
      c := c';
      write := write + 1;
    }
    KeepEnds(sorted, c, write);
    r := c[..write];
  }

  lemma KeepStarts(sorted: seq<Change>)
    ensures Kept(sorted, 0, sorted, 0)
  {
  }

  lemma KeptSize(sorted: seq<Change>, read: nat, c: seq<Change>, write: nat)
    requires read <= |sorted| && Kept(sorted, read, c, write)
    ensures |c| == |sorted| && write <= read
  {
  }

  lemma KeepEnds(sorted: seq<Change>, c: seq<Change>, write: nat)
    requires Kept(sorted, |sorted|, c, write)
    ensures write <= |c| && StrictlyOrdered(c[..write]) && forall k :: LastChange(c[..write], k) == LastChange(sorted, k)
  {
    assert sorted[..|sorted|] == sorted;
  }

  // ---- applying a batch ----------------------------------------------------------------------------------

  /** `root` in `nodes` holds what `root0` held in `nodes0`, after the changes. */
  ghost predicate AppliedAll(nodes0: Nodes, root0: Id, h0: nat, nodes: Nodes, root: Id, h: nat, changes: seq<Change>) {
    forall k, v :: Holds(nodes, root, h, k, v) <==> AfterAll(Holds(nodes0, root0, h0, k, v), changes, k, v)
  }

  lemma AppliedMore(nodes0: Nodes, root0: Id, h0: nat, nodes: Nodes, root: Id, h: nat, changes: seq<Change>, nodes': Nodes, root': Id, h': nat, c: Change)
    requires AppliedAll(nodes0, root0, h0, nodes, root, h, changes) && Written(nodes, root, h, nodes', root', h', c.key, c.value)
    ensures AppliedAll(nodes0, root0, h0, nodes', root', h', changes + [c])
  {
    hide Holds, LastChange;
    forall k, v ensures Holds(nodes', root', h', k, v) <==> AfterAll(Holds(nodes0, root0, h0, k, v), changes + [c], k, v) {
      LastChangeAppend(changes, c, k);
    }
  }

  /** The new root holds what the old one did, with the last change to each key; every root there was still
      stands for what it did; and all of it is on the disk. */
  method ApplyBatch(store: NodeStore, root0: Id, ghost h0: nat, changes: seq<Change>) returns (r: Stored<Id>, ghost h: nat)
    requires store.Sound() && !store.batching && Valid(store.disk, root0, h0, None, None)
    modifies store
    ensures r.Clash? ==> Collide(store.hash, r.first, r.second)
    ensures r.Done? ==> store.Sound() && !store.batching && Extends(old(store.disk), store.disk)
    ensures r.Done? ==> Valid(store.disk, r.value, h, None, None)
    ensures r.Done? ==> AppliedAll(old(store.disk), root0, h0, store.disk, r.value, h, changes)
  {
    hide Layered, Holds, Valid, LastChange, AppliedAll, Written, StrictlyOrdered, SameTree;
    ghost var disk0 := store.disk;
    var canonical := Canonicalize(changes);
    var root := root0;
    h := h0;
    NothingWaits(store.hash, store.disk, store.nodes);
    store.batching, store.opsSinceGc := true, 0;
    AppliedNone(disk0, root0, h0);
    for i := 0 to |canonical|
      invariant store.Sound() && store.batching && Extends(disk0, store.disk)
      invariant Valid(store.nodes, root, h, None, None)
      invariant AppliedAll(disk0, root0, h0, store.nodes, root, h, canonical[..i])
    {
      ghost var nodes, r0, g := store.nodes, root, h;
      root, h :- store.ApplySingle(root, h, canonical[i].key, canonical[i].value);
      AppliedMore(disk0, root0, h0, nodes, r0, g, canonical[..i], store.nodes, root, h, canonical[i]);
      assert canonical[..i + 1] == canonical[..i] + [canonical[i]];
      nodes := store.nodes;
      MaybeCompact(store, root, h);
      AppliedStays(disk0, root0, h0, nodes, store.nodes, root, h, canonical[..i + 1]);
    }
    assert canonical[..|canonical|] == canonical;
    FlushPending(store, root, h);
    AppliedStays(disk0, root0, h0, store.nodes, store.disk, root, h, canonical);
    ClearPending(store);
    store.batching := false;
    AppliedSame(disk0, root0, h0, store.disk, root, h, canonical, changes);
    r := Done(root);
  }

  lemma NothingWaits(hash: Node -> Id, disk: Nodes, nodes: Nodes)
    requires Layered(hash, disk, map[], nodes)
    ensures nodes == disk
  {
  }

  lemma AppliedStays(nodes0: Nodes, root0: Id, h0: nat, nodes: Nodes, nodes': Nodes, root: Id, h: nat, changes: seq<Change>)
    requires AppliedAll(nodes0, root0, h0, nodes, root, h, changes) && SameTree(nodes, nodes', root, h)
    ensures AppliedAll(nodes0, root0, h0, nodes', root, h, changes) && Valid(nodes', root, h, None, None)
  {
    hide Holds, Valid, LastChange;
  }

  lemma AppliedNone(nodes: Nodes, root: Id, h: nat)
    ensures AppliedAll(nodes, root, h, nodes, root, h, [])
  {
  }

  lemma AppliedSame(nodes0: Nodes, root0: Id, h0: nat, nodes: Nodes, root: Id, h: nat, a: seq<Change>, b: seq<Change>)
    requires AppliedAll(nodes0, root0, h0, nodes, root, h, a) && forall k :: LastChange(a, k) == LastChange(b, k)
    ensures AppliedAll(nodes0, root0, h0, nodes, root, h, b)
  {
    hide Holds, LastChange;
  }
}
